/**
  The dynamic process pool. The parent keeps a table of process ids and two counters; the children change
  their own state between idle and busy at any moment, so what the parent sees when it reads a child's state
  is up to the environment. A free place holds -1.
 */
module ServerPool {
  import opened Counting
  import opened Wrappers

  datatype Pool = Pool(pids: seq<int>, idle: int, busy: int)

  function Occupied(pids: seq<int>): (n: nat)
    ensures n <= |pids|
  {
    if pids == [] then 0 else (if pids[0] != -1 then 1 else 0) + Occupied(pids[1..])
  }

  /** The counters add up to the places in use. */
  predicate Inv(p: Pool) {
    p.idle >= 0 && p.busy >= 0 && p.idle + p.busy == Occupied(p.pids)
  }

  /** The first place for which the test holds, or the length. */
  function FirstSuch(pids: seq<int>, test: (nat, int) -> bool, from: nat): (i: nat)
    requires from <= |pids|
    ensures from <= i <= |pids| && (i < |pids| ==> test(i, pids[i])) && forall k :: from <= k < i ==> !test(k, pids[k])
    decreases |pids| - from
  {
    if from == |pids| || test(from, pids[from]) then from else FirstSuch(pids, test, from + 1)
  }

  function FreeSlot(pids: seq<int>): (i: nat)
    ensures i <= |pids| && (i < |pids| ==> pids[i] == -1) && forall k :: 0 <= k < i ==> pids[k] != -1
  {
    FirstSuch(pids, (i: nat, pid: int) => pid == -1, 0)
  }

  lemma {:induction false} OccupiedUpdate(pids: seq<int>, i: nat, pid: int)
    requires i < |pids|
    ensures Occupied(pids[i := pid]) + (if pids[i] != -1 then 1 else 0)
         == Occupied(pids) + if pid != -1 then 1 else 0
  {
    if i == 0 {
      assert pids[0 := pid][1..] == pids[1..];
    } else {
      assert pids[i := pid][1..] == pids[1..][i - 1 := pid];
      OccupiedUpdate(pids[1..], i - 1, pid);
    }
  }

  lemma {:induction false} AllOccupied(pids: seq<int>)
    requires forall i :: 0 <= i < |pids| ==> pids[i] != -1
    ensures Occupied(pids) == |pids|
  {
    if pids != [] {
      AllOccupied(pids[1..]);
    }
  }

  /** Below the limit there is always a free place, so adding never runs past the table. */
  lemma FreeSlotExists(p: Pool)
    requires Inv(p) && p.idle + p.busy < |p.pids|
    ensures FreeSlot(p.pids) < |p.pids|
  {
    if FreeSlot(p.pids) == |p.pids| {
      AllOccupied(p.pids);
    }
  }

  function AddOne(p: Pool, pid: int): (r: Pool)
    requires Inv(p) && pid != -1
    ensures Inv(r) && |r.pids| == |p.pids| && r.busy == p.busy
    ensures r.idle == if p.idle + p.busy < |p.pids| then p.idle + 1 else p.idle
  {
    if p.idle + p.busy >= |p.pids| then p
    else
      FreeSlotExists(p);
      OccupiedUpdate(p.pids, FreeSlot(p.pids), pid);
      p.(pids := p.pids[FreeSlot(p.pids) := pid], idle := p.idle + 1)
  }

  /** The first used place whose child looks idle when its turn comes. */
  function IdleSlot(pids: seq<int>, seen: nat -> bool): (i: nat)
    ensures i <= |pids| && (i < |pids| ==> pids[i] != -1 && seen(i))
    ensures forall k :: 0 <= k < i ==> pids[k] == -1 || !seen(k)
  {
    FirstSuch(pids, (i: nat, pid: int) => pid != -1 && seen(i), 0)
  }

  function DelOne(p: Pool, seen: nat -> bool): (r: Pool)
    requires Inv(p)
    ensures Inv(r) && |r.pids| == |p.pids| && r.busy == p.busy
    ensures r.idle == if p.idle != 0 && IdleSlot(p.pids, seen) < |p.pids| then p.idle - 1 else p.idle
  {
    if p.idle == 0 || IdleSlot(p.pids, seen) == |p.pids| then p
    else
      OccupiedUpdate(p.pids, IdleSlot(p.pids, seen), -1);
      p.(pids := p.pids[IdleSlot(p.pids, seen) := -1], idle := p.idle - 1)
  }

  // ----- Scanning -----

  datatype Look = Look(dead: nat -> bool, first: nat -> bool, second: nat -> bool)

  /** A live child read as busy and then, when asked again, as idle fits neither test: the source aborts. */
  predicate Torn(pids: seq<int>, look: Look, i: nat)
    requires i < |pids|
  {
    pids[i] != -1 && !look.dead(i) && !look.first(i) && look.second(i)
  }

  predicate Live(pids: seq<int>, look: Look, i: nat)
    requires i < |pids|
  {
    pids[i] != -1 && !look.dead(i)
  }

  function Alive(pids: seq<int>, look: Look): (r: seq<int>)
    ensures |r| == |pids|
    ensures forall i :: 0 <= i < |pids| ==> r[i] == if Live(pids, look, i) then pids[i] else -1
  {
    seq(|pids|, i requires 0 <= i < |pids| => if Live(pids, look, i) then pids[i] else -1)
  }

  /** Among the first n places, the live children that look idle. */
  function SeenIdle(pids: seq<int>, look: Look, n: nat): nat
    requires n <= |pids|
  {
    if n == 0 then 0 else SeenIdle(pids, look, n - 1) + if Live(pids, look, n - 1) && look.first(n - 1) then 1 else 0
  }

  function SeenBusy(pids: seq<int>, look: Look, n: nat): nat
    requires n <= |pids|
  {
    if n == 0 then 0 else SeenBusy(pids, look, n - 1) + if Live(pids, look, n - 1) && !look.first(n - 1) then 1 else 0
  }

  lemma {:induction false} OccupiedPrefix(pids: seq<int>, n: nat)
    requires n < |pids|
    ensures Occupied(pids[..n + 1]) == Occupied(pids[..n]) + if pids[n] != -1 then 1 else 0
  {
    if n == 0 {
      assert pids[..1][1..] == [];
    } else {
      assert pids[..n + 1][1..] == pids[1..][..n] && pids[..n][1..] == pids[1..][..n - 1];
      OccupiedPrefix(pids[1..], n - 1);
    }
  }

  lemma {:induction false} SeenIsOccupied(pids: seq<int>, look: Look, n: nat)
    requires n <= |pids|
    ensures SeenIdle(pids, look, n) + SeenBusy(pids, look, n) == Occupied(Alive(pids, look)[..n])
  {
    if n > 0 {
      SeenIsOccupied(pids, look, n - 1);
      OccupiedPrefix(Alive(pids, look), n - 1);
    }
  }

  /** From any counters at all; None where the source aborts. */
  function Scanned(p: Pool, look: Look): (r: Option<Pool>)
    ensures r == None <==> exists i :: 0 <= i < |p.pids| && Torn(p.pids, look, i)
    ensures r.Some? ==> Inv(r.value) && r.value.pids == Alive(p.pids, look)
  {
    var n := |p.pids|;
    SeenIsOccupied(p.pids, look, n);
    assert Alive(p.pids, look)[..n] == Alive(p.pids, look);
    if exists i :: 0 <= i < n && Torn(p.pids, look, i) then None
    else Some(Pool(Alive(p.pids, look), SeenIdle(p.pids, look, n), SeenBusy(p.pids, look, n)))
  }

  // ----- The control loops, whose bounds read the counter again at every turn -----

  /** What children look like at one turn of the loop. */
  function AtTurn(seen: (nat, nat) -> bool, i: nat): nat -> bool {
    (k: nat) => seen(i, k)
  }

  function DelLoop(p: Pool, i: nat, spare: nat, seen: (nat, nat) -> bool): (r: Pool)
    requires Inv(p)
    ensures Inv(r) && |r.pids| == |p.pids| && r.busy == p.busy
    decreases p.idle - spare - i
  {
    if i < p.idle - spare then DelLoop(DelOne(p, AtTurn(seen, i)), i + 1, spare, seen) else p
  }

  function AddLoop(p: Pool, i: nat, spare: nat, newpid: nat -> nat): (r: Pool)
    requires Inv(p)
    ensures Inv(r) && |r.pids| == |p.pids| && r.busy == p.busy
    decreases spare - p.idle - i
  {
    if i < spare - p.idle then AddLoop(AddOne(p, newpid(i)), i + 1, spare, newpid) else p
  }

  /** minSpare and maxSpare bound the idle children; what the loops meet comes from the environment. */
  function Controlled(p: Pool, minSpare: nat, maxSpare: nat, seen: (nat, nat) -> bool, newpid: nat -> nat): (r: Pool)
    requires Inv(p)
    ensures Inv(r) && |r.pids| == |p.pids|
  {
    if p.idle > maxSpare then DelLoop(p, 0, maxSpare, seen)
    else if p.idle < minSpare then AddLoop(p, 0, maxSpare, newpid)
    else p
  }

  function Half(n: nat): nat {
    (n + 1) / 2
  }

  /** Filling adds half of what is missing to maxSpare, as far as there are places. */
  lemma {:induction false} AddLoopFills(p: Pool, i: nat, spare: nat, newpid: nat -> nat)
    requires Inv(p) && i <= spare - p.idle
    ensures AddLoop(p, i, spare, newpid).idle == p.idle + Min(Half(spare - p.idle - i), |p.pids| - Occupied(p.pids))
    decreases spare - p.idle - i
  {
    if i < spare - p.idle {
      var q := AddOne(p, newpid(i));
      if p.idle + p.busy < |p.pids| && i + 1 > spare - q.idle {
        assert AddLoop(q, i + 1, spare, newpid) == q;
      } else {
        AddLoopFills(q, i + 1, spare, newpid);
      }
    }
  }

  predicate Filled(p: Pool, minSpare: nat) {
    p.idle >= minSpare || p.idle + p.busy == |p.pids|
  }

  /** After one pass there are minSpare idle children or the pool is full, if maxSpare is at least 2 minSpare - 1. */
  lemma OnePassFills(p: Pool, minSpare: nat, maxSpare: nat, seen: (nat, nat) -> bool, newpid: nat -> nat)
    requires Inv(p) && maxSpare >= 2 * minSpare - 1
    ensures Filled(Controlled(p, minSpare, maxSpare, seen, newpid), minSpare)
  {
    if p.idle > maxSpare {
      DelLoopKeeps(p, 0, maxSpare, seen);
    } else if p.idle < minSpare {
      AddLoopFills(p, 0, maxSpare, newpid);
    }
  }

  /** Half of maxSpare is always added, which fills a smaller pool. */
  lemma OnePassFillsSmall(p: Pool, minSpare: nat, maxSpare: nat, seen: (nat, nat) -> bool, newpid: nat -> nat)
    requires Inv(p) && |p.pids| <= Half(maxSpare)
    ensures Filled(Controlled(p, minSpare, maxSpare, seen, newpid), minSpare)
  {
    if p.idle < minSpare {
      AddLoopFills(p, 0, maxSpare, newpid);
    }
  }

  ghost predicate OnePassEnough(size: nat, minSpare: nat, maxSpare: nat, seen: (nat, nat) -> bool, newpid: nat -> nat) {
    forall p :: Inv(p) && |p.pids| == size ==> Filled(Controlled(p, minSpare, maxSpare, seen, newpid), minSpare)
  }

  /** One pass is enough for every pool of a size, whatever the children do, exactly under this condition. */
  lemma OnePassEnoughIff(size: nat, minSpare: nat, maxSpare: nat, seen: (nat, nat) -> bool, newpid: nat -> nat)
    ensures OnePassEnough(size, minSpare, maxSpare, seen, newpid)
       <==> maxSpare >= 2 * minSpare - 1 || size <= Half(maxSpare)
  {
    if maxSpare >= 2 * minSpare - 1 || size <= Half(maxSpare) {
      forall p | Inv(p) && |p.pids| == size
        ensures Filled(Controlled(p, minSpare, maxSpare, seen, newpid), minSpare)
      {
        if maxSpare >= 2 * minSpare - 1 {
          OnePassFills(p, minSpare, maxSpare, seen, newpid);
        } else {
          OnePassFillsSmall(p, minSpare, maxSpare, seen, newpid);
        }
      }
    } else {
      var p := Pool(seq(size, _ => -1), 0, 0);
      NoneOccupied(p.pids);
      AddLoopFills(p, 0, maxSpare, newpid);
      assert Inv(p) && !Filled(Controlled(p, minSpare, maxSpare, seen, newpid), minSpare);
    }
  }

  lemma {:induction false} NoneOccupied(pids: seq<int>)
    requires forall i :: 0 <= i < |pids| ==> pids[i] == -1
    ensures Occupied(pids) == 0
  {
    if pids != [] {
      NoneOccupied(pids[1..]);
    }
  }

  /** However children change state, a pass never kills so many that fewer than maxSpare are left. */
  lemma {:induction false} DelLoopKeeps(p: Pool, i: nat, spare: nat, seen: (nat, nat) -> bool)
    requires Inv(p) && i <= p.idle - spare
    ensures DelLoop(p, i, spare, seen).idle >= p.idle - Half(p.idle - spare - i) >= spare
    decreases p.idle - spare - i
  {
    if i < p.idle - spare {
      var q := DelOne(p, AtTurn(seen, i));
      if i + 1 > q.idle - spare {
        assert DelLoop(q, i + 1, spare, seen) == q;
      } else {
        DelLoopKeeps(q, i + 1, spare, seen);
      }
    }
  }

  // ----- Children at rest -----

  /** Used places whose child is idle, when none changes state. */
  function CountIdle(pids: seq<int>, st: nat -> bool, n: nat): nat
    requires n <= |pids|
  {
    if n == 0 then 0 else CountIdle(pids, st, n - 1) + if pids[n - 1] != -1 && st(n - 1) then 1 else 0
  }

  lemma {:induction false} CountIdleUpdate(pids: seq<int>, st: nat -> bool, n: nat, i: nat)
    requires n <= |pids| && i < |pids| && pids[i] != -1 && st(i)
    ensures CountIdle(pids[i := -1], st, n) == CountIdle(pids, st, n) - if i < n then 1 else 0
  {
    if n > 0 {
      CountIdleUpdate(pids, st, n - 1, i);
    }
  }

  lemma {:induction false} NoIdleNoCount(pids: seq<int>, st: nat -> bool, n: nat)
    requires n <= |pids| && forall k :: 0 <= k < n ==> pids[k] == -1 || !st(k)
    ensures CountIdle(pids, st, n) == 0
  {
    if n > 0 {
      NoIdleNoCount(pids, st, n - 1);
    }
  }

  /** The counter is right about children at rest. */
  predicate Settled(p: Pool, st: nat -> bool) {
    Inv(p) && p.idle == CountIdle(p.pids, st, |p.pids|)
  }

  lemma DelOneSettled(p: Pool, st: nat -> bool, seen: nat -> bool)
    requires Settled(p, st) && p.idle > 0 && forall k :: seen(k) == st(k)
    ensures Settled(DelOne(p, seen), st) && DelOne(p, seen).idle == p.idle - 1
  {
    var i := IdleSlot(p.pids, seen);
    if i == |p.pids| {
      NoIdleNoCount(p.pids, st, |p.pids|);
    } else {
      CountIdleUpdate(p.pids, st, |p.pids|, i);
    }
  }

  lemma {:induction false} DelLoopHalves(p: Pool, i: nat, spare: nat, st: nat -> bool, seen: (nat, nat) -> bool)
    requires Settled(p, st) && i <= p.idle - spare && forall j, k :: seen(j, k) == st(k)
    ensures Settled(DelLoop(p, i, spare, seen), st)
    ensures DelLoop(p, i, spare, seen).idle == p.idle - Half(p.idle - spare - i)
    decreases p.idle - spare - i
  {
    if i < p.idle - spare {
      var q := DelOne(p, AtTurn(seen, i));
      DelOneSettled(p, st, AtTurn(seen, i));
      assert DelLoop(p, i, spare, seen) == DelLoop(q, i + 1, spare, seen);
      if i + 1 > q.idle - spare {
        assert DelLoop(q, i + 1, spare, seen) == q;
      } else {
        DelLoopHalves(q, i + 1, spare, st, seen);
      }
    }
  }

  function Excess(p: Pool, maxSpare: nat): nat {
    if p.idle > maxSpare then p.idle - maxSpare else 0
  }

  /** With no child changing state a scan finds what the parent already knows. */
  lemma ScanSettled(p: Pool, st: nat -> bool, look: Look)
    requires Settled(p, st) && forall i :: !look.dead(i) && look.first(i) == st(i) && look.second(i) == st(i)
    ensures Scanned(p, look) == Some(p)
  {
    assert Alive(p.pids, look) == p.pids;
    SeenIsCount(p.pids, st, look, |p.pids|);
  }

  lemma {:induction false} SeenIsCount(pids: seq<int>, st: nat -> bool, look: Look, n: nat)
    requires n <= |pids| && forall i :: !look.dead(i) && look.first(i) == st(i)
    ensures SeenIdle(pids, look, n) == CountIdle(pids, st, n)
  {
    if n > 0 {
      SeenIsCount(pids, st, look, n - 1);
    }
  }

  // ----- The main loop -----

  /** What one turn of the main loop meets: what the scan sees, what the deletions see, the new children's ids. */
  datatype Env = Env(look: Look, seen: (nat, nat) -> bool, newpid: nat -> nat)

  /** One turn of the main loop: a scan, then a pass. */
  function Round(p: Pool, minSpare: nat, maxSpare: nat, env: Env): (r: Option<Pool>)
    ensures r == None <==> exists i :: 0 <= i < |p.pids| && Torn(p.pids, env.look, i)
    ensures r.Some? ==> Inv(r.value) && |r.value.pids| == |p.pids|
  {
    match Scanned(p, env.look)
    case None => None
    case Some(q) => Some(Controlled(q, minSpare, maxSpare, env.seen, env.newpid))
  }

  function Rounds(p: Pool, minSpare: nat, maxSpare: nat, envs: seq<Env>): Option<Pool>
    decreases |envs|
  {
    if envs == [] then Some(p)
    else
      match Round(p, minSpare, maxSpare, envs[0])
      case None => None
      case Some(q) => Rounds(q, minSpare, maxSpare, envs[1..])
  }

  /** The children added one by one before the main loop. */
  function Started(size: nat, n: nat, newpid: nat -> nat): (r: Pool)
    ensures Inv(r) && |r.pids| == size
  {
    if n == 0 then
      var none := seq(size, _ => -1);
      NoneOccupied(none);
      Pool(none, 0, 0)
    else AddOne(Started(size, n - 1, newpid), newpid(n - 1))
  }

  lemma {:induction false} StartedFills(size: nat, n: nat, newpid: nat -> nat)
    ensures Started(size, n, newpid).idle == Min(n, size) && Started(size, n, newpid).busy == 0
  {
    if n > 0 {
      StartedFills(size, n - 1, newpid);
    }
  }

  /** From the start on, whatever children do in each turn, the counters add up to the places in use,
      which are never more than there are, and each turn that does not abort ends with its pass. */
  lemma RunCounts(size: nat, minSpare: nat, maxSpare: nat, newpid: nat -> nat, envs: seq<Env>)
    ensures var r := Rounds(Started(size, minSpare, newpid), minSpare, maxSpare, envs);
      r.Some? ==>
        && |r.value.pids| == size && r.value.idle >= 0 && r.value.busy >= 0
        && r.value.idle + r.value.busy == Occupied(r.value.pids) <= size
        && (maxSpare >= 2 * minSpare - 1 || size <= Half(maxSpare) ==> Filled(r.value, minSpare))
  {
    var p := Started(size, minSpare, newpid);
    StartedFills(size, minSpare, newpid);
    RoundsKeep(p, minSpare, maxSpare, envs);
  }

  lemma {:induction false} RoundsKeep(p: Pool, minSpare: nat, maxSpare: nat, envs: seq<Env>)
    requires Inv(p) && (maxSpare >= 2 * minSpare - 1 || |p.pids| <= Half(maxSpare) ==> Filled(p, minSpare))
    ensures var r := Rounds(p, minSpare, maxSpare, envs);
      r.Some? ==>
        && Inv(r.value) && |r.value.pids| == |p.pids|
        && (maxSpare >= 2 * minSpare - 1 || |p.pids| <= Half(maxSpare) ==> Filled(r.value, minSpare))
    decreases |envs|
  {
    if envs != [] && Round(p, minSpare, maxSpare, envs[0]).Some? {
      OnePassEnoughIff(|p.pids|, minSpare, maxSpare, envs[0].seen, envs[0].newpid);
      RoundsKeep(Round(p, minSpare, maxSpare, envs[0]).value, minSpare, maxSpare, envs[1..]);
    }
  }

  function Halved(e: nat, k: nat): nat {
    if k == 0 then e else Halved(e / 2, k - 1)
  }

  /** No child dies or changes state during the turn. */
  ghost predicate AtRest(env: Env, st: nat -> bool) {
    && (forall i :: !env.look.dead(i) && env.look.first(i) == st(i) && env.look.second(i) == st(i))
    && forall j, i :: env.seen(j, i) == st(i)
  }

  /** With no child changing state every pass halves the excess, rounding down. */
  lemma {:induction false} RoundsHalve(p: Pool, minSpare: nat, maxSpare: nat, st: nat -> bool, envs: seq<Env>)
    requires Settled(p, st) && p.idle >= maxSpare >= minSpare && forall e :: e in envs ==> AtRest(e, st)
    ensures var r := Rounds(p, minSpare, maxSpare, envs);
      r.Some? && Settled(r.value, st) && r.value.idle >= maxSpare
      && Excess(r.value, maxSpare) == Halved(Excess(p, maxSpare), |envs|)
    decreases |envs|
  {
    if envs != [] {
      var first, rest := envs[0], envs[1..];
      assert AtRest(first, st) && forall e :: e in rest ==> AtRest(e, st);
      RoundHalves(p, minSpare, maxSpare, st, first);
      var q := Round(p, minSpare, maxSpare, first).value;
      RoundsHalve(q, minSpare, maxSpare, st, rest);
      assert Rounds(p, minSpare, maxSpare, envs) == Rounds(q, minSpare, maxSpare, rest);
    }
  }

  lemma RoundHalves(p: Pool, minSpare: nat, maxSpare: nat, st: nat -> bool, env: Env)
    requires Settled(p, st) && p.idle >= maxSpare >= minSpare && AtRest(env, st)
    ensures var r := Round(p, minSpare, maxSpare, env);
      r.Some? && Settled(r.value, st) && r.value.idle >= maxSpare
      && Excess(r.value, maxSpare) == Excess(p, maxSpare) / 2
  {
    ScanSettled(p, st, env.look);
    if p.idle > maxSpare {
      DelLoopHalves(p, 0, maxSpare, st, env.seen);
    }
  }

  lemma {:induction false} HalvedToZero(e: nat, k: nat)
    ensures Halved(e, k) == 0 <==> e < Pow2(k)
  {
    if k > 0 {
      HalvedToZero(e / 2, k - 1);
    }
  }

  /** So k passes are enough for an excess below 2 to the k, and not for any other. */
  lemma LogarithmicPasses(p: Pool, minSpare: nat, maxSpare: nat, st: nat -> bool, envs: seq<Env>)
    requires Settled(p, st) && p.idle >= maxSpare >= minSpare && forall e :: e in envs ==> AtRest(e, st)
    ensures var r := Rounds(p, minSpare, maxSpare, envs);
      r.Some? && (r.value.idle == maxSpare <==> p.idle - maxSpare < Pow2(|envs|))
  {
    RoundsHalve(p, minSpare, maxSpare, st, envs);
    HalvedToZero(Excess(p, maxSpare), |envs|);
  }

  // ----- The pool as the source keeps it -----

  class Server {
    const pid: array<int>
    var idleCount: int
    var busyCount: int

    ghost function View(): Pool
      reads this, pid
    {
      Pool(pid[..], idleCount, busyCount)
    }

    constructor (maxClients: nat)
      ensures fresh(pid) && View() == Pool(seq(maxClients, _ => -1), 0, 0)
    {
      pid := new int[maxClients](_ => -1);
      idleCount, busyCount := 0, 0;
      new;
      assert pid[..] == seq(maxClients, _ => -1);
    }

    method AddOneServer(newpid: int) returns (code: int)
      requires Inv(View()) && newpid != -1
      modifies this`idleCount, pid
      ensures View() == AddOne(old(View()), newpid)
      ensures code == if old(idleCount + busyCount) >= pid.Length then -1 else 0
    {
      if idleCount + busyCount >= pid.Length {
        return -1;
      }
      FreeSlotExists(View());
      var slot := 0;
      while slot < pid.Length && pid[slot] != -1
        invariant 0 <= slot <= FreeSlot(pid[..])
      {
        slot := slot + 1;
      }
      assert slot == FreeSlot(pid[..]);
      pid[slot] := newpid;
      idleCount := idleCount + 1;
      code := 0;
    }

    /** seen tells which children look idle when their state is read. */
    method DelOneServer(seen: nat -> bool) returns (code: int)
      requires Inv(View())
      modifies this`idleCount, pid
      ensures View() == DelOne(old(View()), seen)
      ensures code == if old(idleCount) == 0 then -1 else 0
    {
      if idleCount == 0 {
        return -1;
      }
      ghost var p := View();
      for i := 0 to pid.Length
        invariant i <= IdleSlot(p.pids, seen) && View() == p
      {
        if pid[i] != -1 && seen(i) {
          pid[i] := -1;
          idleCount := idleCount - 1;
          break;
        }
      }
      code := 0;
    }

    /** False where the source aborts on a state that is neither idle nor busy. */
    method ScanPool(look: Look) returns (ok: bool)
      modifies this, pid
      ensures match Scanned(old(View()), look) case None => !ok case Some(p) => ok && View() == p
    {
      ghost var was := pid[..];
      var idle, busy := 0, 0;
      for i := 0 to pid.Length
        invariant idle == SeenIdle(was, look, i) && busy == SeenBusy(was, look, i)
        invariant forall k :: 0 <= k < i ==> pid[k] == Alive(was, look)[k] && !Torn(was, look, k)
        invariant forall k :: i <= k < pid.Length ==> pid[k] == was[k]
      {
        if pid[i] == -1 {
        } else if look.dead(i) {
          pid[i] := -1;
        } else if look.first(i) {
          idle := idle + 1;
        } else if !look.second(i) {
          busy := busy + 1;
        } else {
          assert Torn(was, look, i);
          return false;
        }
      }
      assert pid[..] == Alive(was, look);
      idleCount, busyCount := idle, busy;
      ok := true;
    }

    method ControlPool(minSpare: nat, maxSpare: nat, seen: (nat, nat) -> bool, newpid: nat -> nat)
      requires Inv(View())
      modifies this`idleCount, pid
      ensures View() == Controlled(old(View()), minSpare, maxSpare, seen, newpid)
    {
      if idleCount > maxSpare {
        DelServers(maxSpare, seen);
      } else if idleCount < minSpare {
        AddServers(maxSpare, newpid);
      }
    }

    method DelServers(spare: nat, seen: (nat, nat) -> bool)
      requires Inv(View())
      modifies this`idleCount, pid
      ensures View() == DelLoop(old(View()), 0, spare, seen)
    {
      var i := 0;
      while i < idleCount - spare
        invariant i >= 0 && Inv(View()) && DelLoop(View(), i, spare, seen) == old(DelLoop(View(), 0, spare, seen))
      {
        var code := DelOneServer(AtTurn(seen, i));
        i := i + 1;
      }
    }

    method AddServers(spare: nat, newpid: nat -> nat)
      requires Inv(View())
      modifies this`idleCount, pid
      ensures View() == AddLoop(old(View()), 0, spare, newpid)
    {
      var i := 0;
      while i < spare - idleCount
        invariant i >= 0 && Inv(View()) && AddLoop(View(), i, spare, newpid) == old(AddLoop(View(), 0, spare, newpid))
      {
        var code := AddOneServer(newpid(i));
        i := i + 1;
      }
    }
  }
}
