/** Which children the process pool's table holds: whose ids get into it, and which places change. */
module PoolTable {
  import opened Counting
  import opened Wrappers
  import opened ServerPool

  /** Below the limit the new child's id takes one free place, and every other place keeps what it had. */
  lemma AddOneTable(p: Pool, pid: int)
    requires Inv(p) && pid != -1
    ensures var r := AddOne(p, pid);
      if p.idle + p.busy < |p.pids| then
        && -1 in p.pids && multiset(r.pids) == multiset(p.pids) - multiset{-1} + multiset{pid}
        && (forall k :: 0 <= k < |p.pids| && p.pids[k] != -1 ==> r.pids[k] == p.pids[k])
      else r == p
  {
    if p.idle + p.busy < |p.pids| {
      FreeSlotExists(p);
      assert p.pids[FreeSlot(p.pids)] == -1;
      OneChanged(p.pids, FreeSlot(p.pids), pid);
    }
  }

  lemma OneChanged(s: seq<int>, i: nat, x: int)
    requires i < |s|
    ensures multiset(s[i := x]) == multiset(s) - multiset{s[i]} + multiset{x}
  {
    assert s == s[..i] + [s[i]] + s[i + 1..];
    assert s[i := x] == s[..i] + [x] + s[i + 1..];
  }

  /** With an idle child on the books and one seen idle, the first such place is freed; otherwise nothing changes. */
  lemma DelOneTable(p: Pool, seen: nat -> bool)
    requires Inv(p)
    ensures var r := DelOne(p, seen);
      if p.idle != 0 && exists k :: 0 <= k < |p.pids| && p.pids[k] != -1 && seen(k) then
        exists i :: 0 <= i < |p.pids| && p.pids[i] != -1 && seen(i) && r.pids == p.pids[i := -1]
          && forall k :: 0 <= k < i ==> p.pids[k] == -1 || !seen(k)
      else r == p
  {
    var i := IdleSlot(p.pids, seen);
    if p.idle != 0 && i < |p.pids| {
      assert p.pids[i] != -1 && seen(i) && DelOne(p, seen).pids == p.pids[i := -1];
    }
  }

  function Ids(newpid: nat -> nat, from: nat, n: nat): (s: seq<int>)
    ensures |s| == n && forall j :: 0 <= j < n ==> s[j] == newpid(from + j)
  {
    seq(n, j requires 0 <= j < n => newpid(from + j))
  }

  function Frees(n: nat): (s: seq<int>)
    ensures |s| == n && forall j :: 0 <= j < n ==> s[j] == -1
  {
    seq(n, _ => -1)
  }

  lemma FirstOfThem(newpid: nat -> nat, i: nat, n: nat)
    requires n > 0
    ensures multiset(Ids(newpid, i, n)) == multiset{newpid(i) as int} + multiset(Ids(newpid, i + 1, n - 1))
    ensures multiset(Frees(n)) == multiset{-1} + multiset(Frees(n - 1))
  {
    assert Ids(newpid, i, n) == [newpid(i) as int] + Ids(newpid, i + 1, n - 1);
    assert Frees(n) == [-1] + Frees(n - 1);
  }

  lemma Exchanged(p: multiset<int>, q: multiset<int>, r: multiset<int>, x: int, f: multiset<int>, y: multiset<int>)
    requires -1 in p && q == p - multiset{-1} + multiset{x} && r + f == q + y
    ensures r + (multiset{-1} + f) == p + (multiset{x} + y)
  {
    var one := multiset{-1};
    assert p - one + one == p;
    assert r + (one + f) == (r + f) + one == q + y + one;
    assert q + y + one == (p - one + one) + (multiset{x} + y);
  }

  /** The children added by the loop are those forked in its first turns, one for each free place that they take. */
  lemma {:induction false} AddLoopTable(p: Pool, i: nat, spare: nat, newpid: nat -> nat)
    requires Inv(p)
    ensures var r := AddLoop(p, i, spare, newpid); var n := r.idle - p.idle;
      && n >= 0
      && multiset(r.pids) + multiset(Frees(n)) == multiset(p.pids) + multiset(Ids(newpid, i, n))
    decreases spare - p.idle - i
  {
    if i < spare - p.idle && p.idle + p.busy < |p.pids| {
      var q := AddOne(p, newpid(i));
      AddOneTable(p, newpid(i));
      AddLoopTable(q, i + 1, spare, newpid);
      var n := AddLoop(p, i, spare, newpid).idle - p.idle;
      var r := AddLoop(q, i + 1, spare, newpid);
      FirstOfThem(newpid, i, n);
      Exchanged(multiset(p.pids), multiset(q.pids), multiset(r.pids), newpid(i), multiset(Frees(n - 1)),
                multiset(Ids(newpid, i + 1, n - 1)));
    } else {
      FullStays(p, i, spare, newpid);
    }
  }

  /** They go where nothing was, and nothing else moves. */
  lemma {:induction false} AddLoopPlaces(p: Pool, i: nat, spare: nat, newpid: nat -> nat)
    requires Inv(p)
    ensures var r := AddLoop(p, i, spare, newpid);
      forall k :: 0 <= k < |p.pids| && r.pids[k] != p.pids[k] ==> p.pids[k] == -1 && exists j :: r.pids[k] == newpid(j)
    decreases spare - p.idle - i
  {
    if i < spare - p.idle {
      AddOneTable(p, newpid(i));
      AddLoopPlaces(AddOne(p, newpid(i)), i + 1, spare, newpid);
    }
  }

  lemma {:induction false} FullStays(p: Pool, i: nat, spare: nat, newpid: nat -> nat)
    requires Inv(p) && (p.idle + p.busy >= |p.pids| || i >= spare - p.idle)
    ensures AddLoop(p, i, spare, newpid) == p
    decreases spare - p.idle - i
  {
    if i < spare - p.idle {
      FullStays(p, i + 1, spare, newpid);
    }
  }

  /** The deleting loop frees as many places as it counts down, each seen idle at some turn, and leaves the others
      as they are. */
  lemma {:induction false} DelLoopTable(p: Pool, i: nat, spare: nat, seen: (nat, nat) -> bool)
    requires Inv(p)
    ensures var r := DelLoop(p, i, spare, seen);
      && (forall k :: 0 <= k < |p.pids| && r.pids[k] != p.pids[k] ==>
            r.pids[k] == -1 && exists j: nat :: i <= j && seen(j, k))
      && Occupied(r.pids) - Occupied(p.pids) == r.idle - p.idle
    decreases p.idle - spare - i
  {
    if i < p.idle - spare {
      var q := DelOne(p, AtTurn(seen, i));
      DelLoopTable(q, i + 1, spare, seen);
      var r := DelLoop(p, i, spare, seen);
      forall k | 0 <= k < |p.pids| && r.pids[k] != p.pids[k]
        ensures r.pids[k] == -1 && exists j: nat :: i <= j && seen(j, k)
      {
        if q.pids[k] != p.pids[k] {
          assert AtTurn(seen, i)(k) && seen(i, k);
        }
      }
    }
  }

  function LiveLooking(pids: seq<int>, look: Look, idle: bool, n: nat): (r: set<nat>)
    requires n <= |pids|
  {
    set i: nat | i < n && pids[i] != -1 && !look.dead(i) && look.first(i) == idle
  }

  lemma OneMoreLooking(pids: seq<int>, look: Look, idle: bool, n: nat)
    requires n < |pids|
    ensures |LiveLooking(pids, look, idle, n + 1)| == |LiveLooking(pids, look, idle, n)|
      + if pids[n] != -1 && !look.dead(n) && look.first(n) == idle then 1 else 0
  {
    var before := LiveLooking(pids, look, idle, n);
    assert n !in before;
    assert LiveLooking(pids, look, idle, n + 1)
      == before + if pids[n] != -1 && !look.dead(n) && look.first(n) == idle then {n} else {};
  }

  lemma {:induction false} SeenAreSets(pids: seq<int>, look: Look, n: nat)
    requires n <= |pids|
    ensures SeenIdle(pids, look, n) == |LiveLooking(pids, look, true, n)|
    ensures SeenBusy(pids, look, n) == |LiveLooking(pids, look, false, n)|
  {
    if n > 0 {
      SeenAreSets(pids, look, n - 1);
      OneMoreLooking(pids, look, true, n - 1);
      OneMoreLooking(pids, look, false, n - 1);
    }
  }

  /** A scan drops exactly the dead, counts each living child by what it looks like at first, and aborts exactly when
      one looks busy at first and idle when asked again. */
  lemma ScanExact(p: Pool, look: Look)
    ensures Scanned(p, look) == None <==>
      exists i :: 0 <= i < |p.pids| && p.pids[i] != -1 && !look.dead(i) && !look.first(i) && look.second(i)
    ensures Scanned(p, look).Some? ==>
      var r := Scanned(p, look).value;
      && r.idle == |LiveLooking(p.pids, look, true, |p.pids|)|
      && r.busy == |LiveLooking(p.pids, look, false, |p.pids|)|
      && |r.pids| == |p.pids|
      && forall i :: 0 <= i < |p.pids| ==> r.pids[i] == if look.dead(i) then -1 else p.pids[i]
  {
    SeenAreSets(p.pids, look, |p.pids|);
    assert forall i :: 0 <= i < |p.pids| ==> (Torn(p.pids, look, i) <==>
      p.pids[i] != -1 && !look.dead(i) && !look.first(i) && look.second(i));
  }

  /** A pass only adds below minSpare, only deletes above maxSpare, and between them does nothing. */
  lemma PassOnlyOutside(p: Pool, minSpare: nat, maxSpare: nat, seen: (nat, nat) -> bool, newpid: nat -> nat)
    requires Inv(p) && minSpare <= maxSpare
    ensures var r := Controlled(p, minSpare, maxSpare, seen, newpid);
      && (minSpare <= p.idle <= maxSpare ==> r == p)
      && (p.idle < minSpare ==>
            r.idle == p.idle + Min(Half(maxSpare - p.idle), |p.pids| - Occupied(p.pids)) && r.busy == p.busy)
      && (p.idle > maxSpare ==> maxSpare <= p.idle - Half(p.idle - maxSpare) <= r.idle <= p.idle && r.busy == p.busy)
  {
    if p.idle < minSpare {
      AddLoopFills(p, 0, maxSpare, newpid);
    } else if p.idle > maxSpare {
      DelLoopKeeps(p, 0, maxSpare, seen);
      DelLoopNoMore(p, 0, maxSpare, seen);
    }
  }

  lemma {:induction false} DelLoopNoMore(p: Pool, i: nat, spare: nat, seen: (nat, nat) -> bool)
    requires Inv(p)
    ensures DelLoop(p, i, spare, seen).idle <= p.idle
    decreases p.idle - spare - i
  {
    if i < p.idle - spare {
      DelLoopNoMore(DelOne(p, AtTurn(seen, i)), i + 1, spare, seen);
    }
  }

  // ----- Over the whole run -----

  /** The id of one of the children forked at the start or in a turn of the main loop. */
  ghost predicate Forked(id: int, newpid: nat -> nat, envs: seq<Env>) {
    (exists j :: id == newpid(j)) || exists i, j :: 0 <= i < |envs| && id == envs[i].newpid(j)
  }

  ghost predicate OnlyForked(pids: seq<int>, newpid: nat -> nat, envs: seq<Env>) {
    forall k :: 0 <= k < |pids| && pids[k] != -1 ==> Forked(pids[k], newpid, envs)
  }

  /** What a pass leaves in a place was there before, or is nothing, or is one of the children it forked. */
  lemma ControlledTable(p: Pool, minSpare: nat, maxSpare: nat, seen: (nat, nat) -> bool, newpid: nat -> nat, k: nat)
    requires Inv(p) && k < |p.pids|
    ensures var x := Controlled(p, minSpare, maxSpare, seen, newpid).pids[k];
      x == p.pids[k] || x == -1 || (p.pids[k] == -1 && exists j :: x == newpid(j))
  {
    if p.idle > maxSpare {
      DelLoopTable(p, 0, maxSpare, seen);
    } else if p.idle < minSpare {
      AddLoopPlaces(p, 0, maxSpare, newpid);
    }
  }

  lemma RoundTable(p: Pool, minSpare: nat, maxSpare: nat, env: Env, k: nat)
    requires k < |p.pids| && Round(p, minSpare, maxSpare, env).Some?
    ensures var x := Round(p, minSpare, maxSpare, env).value.pids[k];
      x == p.pids[k] || x == -1 || exists j :: x == env.newpid(j)
  {
    ControlledTable(Scanned(p, env.look).value, minSpare, maxSpare, env.seen, env.newpid, k);
  }

  lemma {:induction false} StartedTable(size: nat, n: nat, newpid: nat -> nat, k: nat)
    requires k < size
    ensures var x := Started(size, n, newpid).pids[k]; x == -1 || exists j :: x == newpid(j)
  {
    if n > 0 {
      StartedTable(size, n - 1, newpid, k);
    }
  }

  lemma {:induction false} RoundsTable(p: Pool, minSpare: nat, maxSpare: nat, envs: seq<Env>, newpid: nat -> nat,
                                       all: seq<Env>, k: nat)
    requires Rounds(p, minSpare, maxSpare, envs).Some? && k < |p.pids|
    requires p.pids[k] == -1 || Forked(p.pids[k], newpid, all)
    requires |envs| <= |all| && all[|all| - |envs|..] == envs
    ensures var r := Rounds(p, minSpare, maxSpare, envs).value;
      |r.pids| == |p.pids| && (r.pids[k] == -1 || Forked(r.pids[k], newpid, all))
    decreases |envs|
  {
    if envs != [] {
      RoundTable(p, minSpare, maxSpare, envs[0], k);
      assert all[|all| - |envs|] == envs[0];
      RoundsTable(Round(p, minSpare, maxSpare, envs[0]).value, minSpare, maxSpare, envs[1..], newpid, all, k);
    }
  }

  /** However long the pool runs and whatever the children do, the parent only ever scans and signals processes it
      has forked itself. */
  lemma OnlyOwnChildren(size: nat, minSpare: nat, maxSpare: nat, newpid: nat -> nat, envs: seq<Env>)
    ensures var r := Rounds(Started(size, minSpare, newpid), minSpare, maxSpare, envs);
      r.Some? ==> OnlyForked(r.value.pids, newpid, envs)
  {
    var p, r := Started(size, minSpare, newpid), Rounds(Started(size, minSpare, newpid), minSpare, maxSpare, envs);
    if r.Some? {
      RunCounts(size, minSpare, maxSpare, newpid, envs);
      forall k | 0 <= k < size && r.value.pids[k] != -1 ensures Forked(r.value.pids[k], newpid, envs) {
        StartedTable(size, minSpare, newpid, k);
        RoundsTable(p, minSpare, maxSpare, envs, newpid, envs, k);
      }
    }
  }
}
