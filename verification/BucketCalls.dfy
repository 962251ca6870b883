/**
  What a whole sweep of the alarm thread, and a whole call of a client, does to the buckets, however the steps of
  the other threads fall in between.
 */
module BucketCalls {
  import opened Wrappers
  import opened BucketTokens
  import L = BucketLocks
  import T = TokenBucket

  /** The run ends with the step that brings thread t to place p, where it is not before. */
  predicate Until(s: L.State, acts: seq<L.Action>, t: nat, p: L.Thread)
    requires L.Run(s, acts).Some? && t < |s.threads|
    decreases |acts|
  {
    acts != [] && (
      var s' := L.Next(s, acts[0].t, acts[0].c).value;
      if s'.threads[t] == p then |acts| == 1 else Until(s', acts[1..], t, p))
  }

  // ----- A sweep -----

  predicate Sweeping(p: L.Thread) {
    p.Sweep? || L.SweepsAt(p).Some?
  }

  /** The first entry of the table that the sweep has yet to refill. */
  function SweepFrom(p: L.Thread): nat
    requires Sweeping(p)
  {
    match p
    case Sweep(i) => i
    case SweepWant(i, _) => i
    case SweepIn(i, _) => i
    case SweepAdded(i, _) => i + 1
    case SweepDone(i, _) => i + 1
  }

  ghost predicate ListedFrom(s: L.State, from: nat, b: nat) {
    exists i :: from <= i < |s.job| && s.job[i] == Some(b)
  }

  /** The refills of a bucket still to come in the sweep of thread t. */
  ghost function RefillsDue(s: L.State, t: nat, b: nat): nat
    requires t < |s.threads|
  {
    if Sweeping(s.threads[t]) && ListedFrom(s, SweepFrom(s.threads[t]), b) then 1 else 0
  }

  lemma NotPastListed(s: L.State, from: nat, b: nat)
    requires L.TableRight(s) && from < |s.job|
    ensures ListedFrom(s, from, b) <==> s.job[from] == Some(b) || ListedFrom(s, from + 1, b)
    ensures s.job[from] == Some(b) ==> !ListedFrom(s, from + 1, b)
  {
  }

  /** What the sweeping thread itself does in a step leaves one refill less to do for a bucket, or none. */
  lemma OwnSweepStep(s: L.State, t: nat, c: L.Call, b: nat)
    requires L.TableRight(s) && L.SweepRight(s) && t < |s.threads| && L.Next(s, t, c).Some? && Sweeping(s.threads[t])
    ensures var r := L.Next(s, t, c).value;
      && T.Refills(OpOf(s, t, b)) + RefillsDue(r, t, b) == RefillsDue(s, t, b)
      && (Sweeping(r.threads[t]) || r.threads[t] == L.SweepLock)
  {
    var p, r := s.threads[t], L.Next(s, t, c).value;
    assert r.job == s.job;
    if !p.Sweep? {
      assert p.i < |s.job| && s.job[p.i] == Some(p.b);
    }
    if p.i < |s.job| {
      NotPastListed(s, p.i, b);
      SameListed(s, r, p.i, b);
      SameListed(s, r, p.i + 1, b);
    }
    assert OpOf(s, t, b) == if p.SweepIn? && p.b == b then [T.Refill] else [];
    OneRefill();
  }

  lemma SameListed(s: L.State, r: L.State, from: nat, b: nat)
    requires r.job == s.job
    ensures ListedFrom(r, from, b) <==> ListedFrom(s, from, b)
  {
  }

  lemma OneRefill()
    ensures T.Refills([T.Refill]) == 1
  {
  }

  /** Meanwhile the others cannot change the table, nor refill. */
  lemma OtherStepInSweep(s: L.State, t: nat, u: nat, c: L.Call, b: nat)
    requires L.Inv(s) && t < |s.threads| && u < |s.threads| && u != t && L.Next(s, u, c).Some?
    requires Sweeping(s.threads[t])
    ensures var r := L.Next(s, u, c).value;
      r.job == s.job && r.threads[t] == s.threads[t] && T.Refills(OpOf(s, u, b)) == 0
  {
    assert L.HoldsJob(s.threads[t]) && s.jobOwner == Some(t);
    assert !L.HoldsJob(s.threads[u]);
    L.IntentMatches(s, u, c);
    TableStays(s, u, L.Intent(s, u, c).value);
    OthersStay(s, u, L.Intent(s, u, c).value, t);
  }

  lemma TableStays(s: L.State, u: nat, m: L.Move)
    requires u < |s.threads| && L.Possible(s, m.e) && L.Matches(s.threads[u], m) && !L.HoldsJob(s.threads[u])
    ensures L.Do(s, u, m).job == s.job
  {
  }

  /** Another thread's step leaves a thread where it is, or wakes it. */
  lemma OthersStay(s: L.State, u: nat, m: L.Move, t: nat)
    requires u < |s.threads| && t < |s.threads| && u != t && L.Possible(s, m.e)
    ensures var p, q := s.threads[t], L.Do(s, u, m).threads[t];
      q == p || (p.FetchSleep? && q == L.FetchLock(p.b, p.size))
  {
  }

  lemma {:induction false} RefillsAppend(a: seq<T.Op>, b: seq<T.Op>)
    ensures T.Refills(a + b) == T.Refills(a) + T.Refills(b)
  {
    if a == [] {
      assert a + b == b;
    } else {
      assert (a + b)[1..] == a[1..] + b;
      RefillsAppend(a[1..], b);
    }
  }

  lemma SweepStep(s: L.State, t: nat, u: nat, c: L.Call, b: nat)
    requires L.Inv(s) && t < |s.threads| && u < |s.threads| && L.Next(s, u, c).Some? && Sweeping(s.threads[t])
    ensures var r := L.Next(s, u, c).value;
      && T.Refills(OpOf(s, u, b)) + RefillsDue(r, t, b) == RefillsDue(s, t, b)
      && (Sweeping(r.threads[t]) || r.threads[t] == L.SweepLock)
  {
    if u == t {
      OwnSweepStep(s, t, c, b);
    } else {
      OtherStepInSweep(s, t, u, c, b);
      SameListed(s, L.Next(s, u, c).value, SweepFrom(s.threads[t]), b);
    }
  }

  lemma {:induction false} RestOfSweep(s: L.State, acts: seq<L.Action>, t: nat, b: nat)
    requires L.Inv(s) && t < |s.threads| && L.Run(s, acts).Some? && Until(s, acts, t, L.SweepLock)
    requires Sweeping(s.threads[t])
    ensures T.Refills(Trace(s, acts, b)) == RefillsDue(s, t, b)
    decreases |acts|
  {
    var u, c := acts[0].t, acts[0].c;
    var s' := L.Next(s, u, c).value;
    SweepStep(s, t, u, c, b);
    RefillsAppend(OpOf(s, u, b), Trace(s', acts[1..], b));
    if s'.threads[t] == L.SweepLock {
      assert acts[1..] == [];
    } else {
      L.NextInv(s, u, c);
      RestOfSweep(s', acts[1..], t, b);
    }
  }

  /** From the start of a sweep to its end, in any interleaving, every bucket of the table is refilled exactly
      once and no other is, holes in the table or not. */
  lemma SweepRefillsEachOnce(s: L.State, acts: seq<L.Action>, t: nat, b: nat)
    requires L.Inv(s) && t < |s.threads| && s.threads[t] == L.Sweep(0)
    requires L.Run(s, acts).Some? && Until(s, acts, t, L.SweepLock)
    ensures T.Refills(Trace(s, acts, b)) == if Some(b) in s.job then 1 else 0
  {
    RestOfSweep(s, acts, t, b);
  }

  // ----- Every bucket in use is in the table -----

  predicate Leaving(s: L.State, b: nat) {
    exists t :: 0 <= t < |s.threads| && s.threads[t] == L.DestroyLast(b)
  }

  /** A bucket has its entry in the table from its making to its withdrawal. */
  ghost predicate AllListed(s: L.State) {
    forall b :: 0 <= b < |s.buckets| && L.Exists(s, b) ==> Leaving(s, b) || ListedAt(s, b)
  }

  predicate ListedAt(s: L.State, b: nat)
    requires b < |s.buckets|
  {
    s.buckets[b].pos < |s.job| && s.job[s.buckets[b].pos] == Some(b)
  }

  lemma DoLeaving(s: L.State, t: nat, m: L.Move, b: nat)
    requires t < |s.threads| && L.Possible(s, m.e) && L.Matches(s.threads[t], m) && Leaving(s, b)
    ensures Leaving(L.Do(s, t, m), b) || s.threads[t] == L.DestroyLast(b)
  {
    var u :| 0 <= u < |s.threads| && s.threads[u] == L.DestroyLast(b);
    if u != t {
      OthersStay(s, t, m, u);
      assert L.Do(s, t, m).threads[u] == L.DestroyLast(b);
    }
  }

  lemma DoListed(s: L.State, t: nat, m: L.Move, b: nat)
    requires t < |s.threads| && L.Possible(s, m.e) && L.Matches(s.threads[t], m) && L.Sound(s, t, m)
    requires b < |s.buckets| && L.Exists(s, b) && ListedAt(s, b) && !(m.e.Withdraw? && m.e.b == b)
    requires m.e.Withdraw? ==> m.e.b < |s.buckets| && ListedAt(s, m.e.b)
    requires m.e.Publish? ==> s.job[m.e.pos] == None
    ensures ListedAt(L.Do(s, t, m), b)
  {
  }

  lemma IntentListed(s: L.State, t: nat, c: L.Call)
    requires t < |s.threads| && L.Next(s, t, c).Some?
    ensures var m := L.Intent(s, t, c).value;
      && (m.e.Withdraw? ==> m.p == L.DestroyLast(m.e.b) && s.threads[t] == L.DestroyIn(m.e.b))
      && (m.e.Publish? ==> s.job[m.e.pos] == None)
      && (s.threads[t].DestroyLast? ==> m.e == L.Destroy(s.threads[t].b))
  {
  }

  /** Who destroys a bucket finds it in the table, as nobody else destroys it. */
  lemma ToWithdraw(s: L.State, t: nat, b: nat)
    requires L.UsersRight(s) && AllListed(s) && t < |s.threads| && s.threads[t] == L.DestroyIn(b)
    ensures b < |s.buckets| && ListedAt(s, b)
  {
    assert L.Destroys(s.threads[t]) == Some(b);
  }

  /** A bucket that a step makes is put into the table by it. */
  lemma NewListed(s: L.State, t: nat, m: L.Move, b: nat)
    requires t < |s.threads| && L.Possible(s, m.e) && |s.buckets| <= b < |L.Do(s, t, m).buckets|
    ensures ListedAt(L.Do(s, t, m), b)
  {
  }

  lemma DestroyedStays(s: L.State, t: nat, m: L.Move, b: nat)
    requires t < |s.threads| && L.Possible(s, m.e) && b < |s.buckets|
    ensures b < |L.Do(s, t, m).buckets| && (L.Exists(L.Do(s, t, m), b) ==> L.Exists(s, b))
  {
  }

  lemma NextListed(s: L.State, t: nat, c: L.Call)
    requires L.Inv(s) && AllListed(s) && t < |s.threads| && L.Next(s, t, c).Some?
    ensures AllListed(L.Next(s, t, c).value)
  {
    var m := L.Intent(s, t, c).value;
    L.IntentMatches(s, t, c);
    L.IntentSound(s, t, c);
    IntentListed(s, t, c);
    if m.e.Withdraw? {
      ToWithdraw(s, t, m.e.b);
    }
    DoAllListed(s, t, m);
  }

  lemma DoAllListed(s: L.State, t: nat, m: L.Move)
    requires t < |s.threads| && L.Possible(s, m.e) && L.Matches(s.threads[t], m) && L.Sound(s, t, m) && AllListed(s)
    requires m.e.Withdraw? ==> m.e.b < |s.buckets| && ListedAt(s, m.e.b) && m.p == L.DestroyLast(m.e.b)
    requires m.e.Publish? ==> s.job[m.e.pos] == None
    requires s.threads[t].DestroyLast? ==> m.e == L.Destroy(s.threads[t].b)
    ensures AllListed(L.Do(s, t, m))
  {
    var r := L.Do(s, t, m);
    forall b | 0 <= b < |r.buckets| && L.Exists(r, b) ensures Leaving(r, b) || ListedAt(r, b) {
      if b < |s.buckets| {
        DestroyedStays(s, t, m, b);
        ListedOn(s, t, m, b);
      } else {
        NewListed(s, t, m, b);
      }
    }
  }

  lemma ListedOn(s: L.State, t: nat, m: L.Move, b: nat)
    requires t < |s.threads| && L.Possible(s, m.e) && L.Matches(s.threads[t], m) && L.Sound(s, t, m)
    requires m.e.Withdraw? ==> m.e.b < |s.buckets| && ListedAt(s, m.e.b) && m.p == L.DestroyLast(m.e.b)
    requires m.e.Publish? ==> s.job[m.e.pos] == None
    requires b < |s.buckets| && L.Exists(s, b) && (Leaving(s, b) || ListedAt(s, b)) && L.Exists(L.Do(s, t, m), b)
    requires s.threads[t].DestroyLast? ==> m.e == L.Destroy(s.threads[t].b)
    ensures Leaving(L.Do(s, t, m), b) || ListedAt(L.Do(s, t, m), b)
  {
    if Leaving(s, b) {
      DoLeaving(s, t, m, b);
    } else if m.e == L.Withdraw(b) {
      assert L.Do(s, t, m).threads[t] == L.DestroyLast(b);
    } else {
      DoListed(s, t, m, b);
    }
  }

  lemma {:induction false} RunListed(s: L.State, acts: seq<L.Action>)
    requires L.Inv(s) && AllListed(s) && L.Run(s, acts).Some?
    ensures AllListed(L.Run(s, acts).value)
    decreases |acts|
  {
    if acts != [] {
      L.NextInv(s, acts[0].t, acts[0].c);
      NextListed(s, acts[0].t, acts[0].c);
      RunListed(L.Next(s, acts[0].t, acts[0].c).value, acts[1..]);
    }
  }

  /** In every reachable state and every interleaving a sweep refills each bucket that is in use, and not on its way
      out of the table, exactly once, and no bucket that has been destroyed. */
  lemma EveryBucketRefilled(slots: nat, clients: nat, before: seq<L.Action>, sweep: seq<L.Action>, t: nat, b: nat)
    requires L.Run(L.Start(slots, clients), before).Some?
    requires var s := L.Run(L.Start(slots, clients), before).value;
      && t < |s.threads| && s.threads[t] == L.Sweep(0) && b < |s.buckets|
      && L.Run(s, sweep).Some? && Until(s, sweep, t, L.SweepLock)
    ensures var s := L.Run(L.Start(slots, clients), before).value;
      && (L.Exists(s, b) && !Leaving(s, b) ==> T.Refills(Trace(s, sweep, b)) == 1)
      && (!L.Exists(s, b) ==> T.Refills(Trace(s, sweep, b)) == 0)
  {
    var s := L.Run(L.Start(slots, clients), before).value;
    L.StartInv(slots, clients);
    L.RunInv(L.Start(slots, clients), before);
    RunListed(L.Start(slots, clients), before);
    SweepRefillsEachOnce(s, sweep, t, b);
  }

  // ----- A call -----

  /** The operations on bucket b that thread t itself makes in a run. */
  function OwnTrace(s: L.State, acts: seq<L.Action>, t: nat, b: nat): seq<T.Op>
    requires L.Run(s, acts).Some?
    decreases |acts|
  {
    if acts == [] then []
    else
      (if acts[0].t == t then OpOf(s, t, b) else [])
      + OwnTrace(L.Next(s, acts[0].t, acts[0].c).value, acts[1..], t, b)
  }

  /** The places of a thread inside a call. */
  predicate Inside(p: L.Thread, c: L.Call) {
    match c
    case CallFetch(b, size) =>
      p == L.FetchLock(b, size) || p == L.FetchIn(b, size) || p == L.FetchSleep(b, size) || p == L.FetchTook(b)
    case CallReturn(b, size) =>
      p == L.ReturnLock(b, size) || p == L.ReturnIn(b, size) || p == L.ReturnAdded(b) || p == L.ReturnDone(b)
    case CallInit(cps, burst) => p == L.InitLock(cps, burst) || p == L.InitIn(cps, burst)
    case CallDestroy(b) => p == L.DestroyLock(b) || p == L.DestroyIn(b) || p == L.DestroyLast(b)
    case NoCall => false
  }

  /** What a thread inside a call has still to do to bucket b. */
  function Due(p: L.Thread, b: nat): seq<T.Op> {
    match p
    case FetchLock(c, size) => if c == b then [T.Fetch(size)] else []
    case FetchIn(c, size) => if c == b then [T.Fetch(size)] else []
    case FetchSleep(c, size) => if c == b then [T.Fetch(size)] else []
    case ReturnLock(c, size) => if c == b then [T.Return(size)] else []
    case ReturnIn(c, size) => if c == b then [T.Return(size)] else []
    case _ => []
  }

  lemma OwnStepInCall(s: L.State, t: nat, c: L.Call, call: L.Call, b: nat)
    requires t < |s.threads| && L.Next(s, t, c).Some? && Inside(s.threads[t], call)
    ensures var r := L.Next(s, t, c).value;
      OpOf(s, t, b) + Due(r.threads[t], b) == Due(s.threads[t], b) && (r.threads[t].Idle? || Inside(r.threads[t], call))
  {
    var did, due := OpOf(s, t, b), Due(L.Next(s, t, c).value.threads[t], b);
    assert did == [] || due == [];
    assert did + [] == did && [] + due == due;
  }

  lemma OtherStepInCall(s: L.State, t: nat, u: nat, c: L.Call, call: L.Call, b: nat)
    requires t < |s.threads| && u < |s.threads| && u != t && L.Next(s, u, c).Some? && Inside(s.threads[t], call)
    ensures var r := L.Next(s, u, c).value;
      Due(r.threads[t], b) == Due(s.threads[t], b) && Inside(r.threads[t], call)
  {
    OthersStay(s, u, L.Intent(s, u, c).value, t);
  }

  lemma {:induction false} RestOfCall(s: L.State, acts: seq<L.Action>, t: nat, call: L.Call, b: nat)
    requires t < |s.threads| && L.Run(s, acts).Some? && Until(s, acts, t, L.Idle) && Inside(s.threads[t], call)
    ensures OwnTrace(s, acts, t, b) == Due(s.threads[t], b)
    decreases |acts|
  {
    var u, c := acts[0].t, acts[0].c;
    var s' := L.Next(s, u, c).value;
    if u == t {
      OwnStepInCall(s, t, c, call, b);
    } else {
      OtherStepInCall(s, t, u, c, call, b);
    }
    if s'.threads[t] == L.Idle {
      assert acts[1..] == [] && OwnTrace(s', acts[1..], t, b) == [];
    } else {
      RestOfCall(s', acts[1..], t, call, b);
    }
  }

  /** From a call to its return, in any interleaving, a fetch takes once from its bucket, a return gives back once,
      each the size it was called with, and nothing else is done to any bucket's tokens. */
  lemma CallDoesOnce(s: L.State, call: L.Call, acts: seq<L.Action>, t: nat, b: nat)
    requires t < |s.threads| && s.threads[t] == L.Idle && call != L.NoCall && L.Next(s, t, call).Some?
    requires var s' := L.Next(s, t, call).value; L.Run(s', acts).Some? && Until(s', acts, t, L.Idle)
    ensures OwnTrace(L.Next(s, t, call).value, acts, t, b) ==
      match call
      case CallFetch(c, size) => if c == b then [T.Fetch(size)] else []
      case CallReturn(c, size) => if c == b then [T.Return(size)] else []
      case _ => []
  {
    RestOfCall(L.Next(s, t, call).value, acts, t, call, b);
  }

  /** One step during a call: the thread stays inside it, or by its own step returns. */
  lemma StepInCall(s: L.State, t: nat, u: nat, c: L.Call, call: L.Call)
    requires t < |s.threads| && u < |s.threads| && L.Next(s, u, c).Some? && Inside(s.threads[t], call)
    ensures var p := L.Next(s, u, c).value.threads[t]; Inside(p, call) || (p.Idle? && u == t)
  {
    if u == t {
      OwnStepInCall(s, t, c, call, 0);
    } else {
      OtherStepInCall(s, t, u, c, call, 0);
    }
  }

  lemma Front(acts: seq<L.Action>)
    requires |acts| >= 2
    ensures var front, rest := acts[..|acts| - 1], acts[1..];
      && front != [] && front[0] == acts[0] && front[1..] == rest[..|rest| - 1]
      && rest[|rest| - 1] == acts[|acts| - 1]
  {
  }

  /** A run up to its last step. */
  lemma {:induction false} RunFront(s: L.State, acts: seq<L.Action>)
    requires L.Run(s, acts).Some? && acts != []
    ensures var q, last := L.Run(s, acts[..|acts| - 1]), acts[|acts| - 1];
      q.Some? && last.t < |q.value.threads| && L.Next(q.value, last.t, last.c) == L.Run(s, acts)
    decreases |acts|
  {
    if |acts| == 1 {
      assert acts[1..] == [] && acts[..0] == [];
    } else {
      var s', front := L.Next(s, acts[0].t, acts[0].c).value, acts[..|acts| - 1];
      Front(acts);
      RunFront(s', acts[1..]);
      assert L.Run(s, front) == L.Run(s', front[1..]);
    }
  }

  lemma {:induction false} InsideToTheLast(s: L.State, acts: seq<L.Action>, t: nat, call: L.Call, q: L.State)
    requires t < |s.threads| && L.Run(s, acts).Some? && Until(s, acts, t, L.Idle) && Inside(s.threads[t], call)
    requires L.Run(s, acts[..|acts| - 1]) == Some(q)
    ensures t < |q.threads| && Inside(q.threads[t], call) && acts[|acts| - 1].t == t
    decreases |acts|
  {
    StepInCall(s, t, acts[0].t, acts[0].c, call);
    var s', rest := L.Next(s, acts[0].t, acts[0].c).value, acts[1..];
    if rest == [] {
      assert s'.threads[t] == L.Idle && q == s;
    } else {
      Front(acts);
      assert Inside(s'.threads[t], call) && Until(s', rest, t, L.Idle);
      assert L.Run(s', rest[..|rest| - 1]) == Some(q);
      InsideToTheLast(s', rest, t, call, q);
    }
  }

  lemma {:induction false} ReturnsAtLast(s: L.State, acts: seq<L.Action>, t: nat)
    requires t < |s.threads| && L.Run(s, acts).Some? && Until(s, acts, t, L.Idle)
    ensures var r := L.Run(s, acts).value; t < |r.threads| && r.threads[t] == L.Idle
    decreases |acts|
  {
    if |acts| == 1 {
      assert acts[1..] == [];
    } else {
      ReturnsAtLast(L.Next(s, acts[0].t, acts[0].c).value, acts[1..], t);
    }
  }

  /** Before the last step of a call its thread is still inside it, and that step is its own. */
  lemma LastStep(s: L.State, acts: seq<L.Action>, t: nat, call: L.Call) returns (q: L.State)
    requires t < |s.threads| && L.Run(s, acts).Some? && Until(s, acts, t, L.Idle) && Inside(s.threads[t], call)
    ensures L.Run(s, acts[..|acts| - 1]) == Some(q) && t < |q.threads| && Inside(q.threads[t], call)
    ensures L.Next(q, t, acts[|acts| - 1].c) == L.Run(s, acts)
    ensures L.Run(s, acts).value.threads[t] == L.Idle
  {
    RunFront(s, acts);
    q := L.Run(s, acts[..|acts| - 1]).value;
    InsideToTheLast(s, acts, t, call, q);
    ReturnsAtLast(s, acts, t);
  }

  /** The table and the buckets before and after a bucket is made in the first free entry, if there is one. */
  ghost predicate MakesOne(q: L.State, r: L.State, cps: int, burst: int) {
    if None in q.job then
      exists i :: 0 <= i < |q.job| && q.job[i] == None && (forall k :: 0 <= k < i ==> q.job[k].Some?)
        && r.job == q.job[i := Some(|q.buckets|)]
        && r.buckets == q.buckets + [L.Bucket(0, cps, burst, i, None, false)]
    else r.job == q.job && r.buckets == q.buckets
  }

  lemma {:induction false} FirstFree(job: seq<Option<nat>>)
    ensures L.FreePos(job) < |job| <==> None in job
    ensures forall k :: 0 <= k < L.FreePos(job) ==> job[k].Some?
  {
    if job != [] && job[0].Some? {
      FirstFree(job[1..]);
    }
  }

  lemma InitStep(q: L.State, t: nat, c: L.Call, cps: int, burst: int)
    requires t < |q.threads| && Inside(q.threads[t], L.CallInit(cps, burst))
    requires L.Next(q, t, c).Some? && L.Next(q, t, c).value.threads[t] == L.Idle
    ensures MakesOne(q, L.Next(q, t, c).value, cps, burst)
  {
    FirstFree(q.job);
    var i, r := L.FreePos(q.job), L.Next(q, t, c).value;
    if i < |q.job| {
      assert r.job == q.job[i := Some(|q.buckets|)];
    }
  }

  /** A call that makes a bucket ends by making one, empty and with the limits asked for, in the first free entry of
      the table as it then is, or, when there is none, by changing nothing. */
  lemma InitMakesOne(s: L.State, cps: int, burst: int, acts: seq<L.Action>, t: nat)
    requires t < |s.threads| && s.threads[t] == L.Idle && L.Next(s, t, L.CallInit(cps, burst)).Some?
    requires var s' := L.Next(s, t, L.CallInit(cps, burst)).value; L.Run(s', acts).Some? && Until(s', acts, t, L.Idle)
    ensures var s' := L.Next(s, t, L.CallInit(cps, burst)).value;
      var q := L.Run(s', acts[..|acts| - 1]);
      q.Some? && MakesOne(q.value, L.Run(s', acts).value, cps, burst)
  {
    var q := LastStep(L.Next(s, t, L.CallInit(cps, burst)).value, acts, t, L.CallInit(cps, burst));
    InitStep(q, t, acts[|acts| - 1].c, cps, burst);
  }

  lemma DestroyStep(q: L.State, t: nat, c: L.Call, b: nat)
    requires t < |q.threads| && Inside(q.threads[t], L.CallDestroy(b))
    requires L.Next(q, t, c).Some? && L.Next(q, t, c).value.threads[t] == L.Idle
    ensures var r := L.Next(q, t, c).value; b < |r.buckets| && r.buckets[b].destroyed
  {
  }

  /** A call that destroys a bucket ends with it destroyed and out of the table. */
  lemma DestroyTakesOut(s: L.State, b: nat, acts: seq<L.Action>, t: nat)
    requires L.Inv(s) && t < |s.threads| && s.threads[t] == L.Idle && L.Next(s, t, L.CallDestroy(b)).Some?
    requires var s' := L.Next(s, t, L.CallDestroy(b)).value; L.Run(s', acts).Some? && Until(s', acts, t, L.Idle)
    ensures var r := L.Run(L.Next(s, t, L.CallDestroy(b)).value, acts).value;
      b < |r.buckets| && r.buckets[b].destroyed && Some(b) !in r.job
  {
    var s' := L.Next(s, t, L.CallDestroy(b)).value;
    var q := LastStep(s', acts, t, L.CallDestroy(b));
    DestroyStep(q, t, acts[|acts| - 1].c, b);
    L.NextInv(s, t, L.CallDestroy(b));
    L.RunInv(s', acts);
    DestroyedUnlisted(L.Run(s', acts).value, b);
  }

  lemma DestroyedUnlisted(r: L.State, b: nat)
    requires L.TableRight(r) && b < |r.buckets| && r.buckets[b].destroyed
    ensures Some(b) !in r.job
  {
  }
}
