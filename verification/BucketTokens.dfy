/**
  What the locking of BucketLocks does to the tokens of one bucket: seen from the bucket, every run of all the
  threads is a run of single refills, fetches and returns, so what TokenBucket proves of those holds of it.
 */
module BucketTokens {
  import opened Wrappers
  import opened Counting
  import L = BucketLocks
  import T = TokenBucket

  /** What the next step of thread t does to the tokens of bucket b. */
  function OpOf(s: L.State, t: nat, b: nat): seq<T.Op>
    requires t < |s.threads|
  {
    match s.threads[t]
    case SweepIn(_, c) => if c == b then [T.Refill] else []
    case FetchIn(c, size) => if c == b && b < |s.buckets| && s.buckets[b].token > 0 then [T.Fetch(size)] else []
    case ReturnIn(c, size) => if c == b then [T.Return(size)] else []
    case _ => []
  }

  /** The refills, fetches and returns of bucket b, in the order in which they happen in a run. */
  function Trace(s: L.State, acts: seq<L.Action>, b: nat): seq<T.Op>
    requires L.Run(s, acts).Some?
    decreases |acts|
  {
    if acts == [] then []
    else OpOf(s, acts[0].t, b) + Trace(L.Next(s, acts[0].t, acts[0].c).value, acts[1..], b)
  }

  /** A step does to an existing bucket just what its operation, if any, does to the tokens alone. */
  lemma StepIsOp(s: L.State, t: nat, c: L.Call, b: nat)
    requires L.SizesRight(s) && t < |s.threads| && b < |s.buckets| && L.Next(s, t, c).Some?
    ensures var k, ops := s.buckets[b], OpOf(s, t, b);
      var r := L.Next(s, t, c).value;
      && b < |r.buckets| && r.buckets[b].cps == k.cps && r.buckets[b].burst == k.burst
      && T.Run(k.token, ops, k.cps, k.burst) == Some(r.buckets[b].token)
  {
    assert L.SizeRight(s.threads[t]);
    var k, ops := s.buckets[b], OpOf(s, t, b);
    if ops != [] {
      OneOp(k.token, ops[0], k.cps, k.burst);
    }
  }

  lemma OneOp(token: int, op: T.Op, cps: int, burst: int)
    ensures T.Run(token, [op], cps, burst)
      == if T.Enabled(token, op) then Some(T.After(token, op, cps, burst)) else None
  {
  }

  lemma {:induction false} RunAppend(token: int, a: seq<T.Op>, b: seq<T.Op>, cps: int, burst: int)
    ensures T.Run(token, a + b, cps, burst) ==
      match T.Run(token, a, cps, burst) case None => None case Some(token') => T.Run(token', b, cps, burst)
    decreases |a|
  {
    if a == [] {
      assert a + b == b;
    } else {
      assert (a + b)[1..] == a[1..] + b;
      RunAppend(T.After(token, a[0], cps, burst), a[1..], b, cps, burst);
    }
  }

  /** Every interleaving of the threads is, for one bucket, a run of single operations on it. */
  lemma {:induction false} RunIsTokenRun(s: L.State, acts: seq<L.Action>, b: nat)
    requires L.Inv(s) && b < |s.buckets| && L.Run(s, acts).Some?
    ensures var k, r := s.buckets[b], L.Run(s, acts).value;
      && b < |r.buckets| && r.buckets[b].cps == k.cps && r.buckets[b].burst == k.burst
      && T.Run(k.token, Trace(s, acts, b), k.cps, k.burst) == Some(r.buckets[b].token)
    decreases |acts|
  {
    if acts != [] {
      var (t, c, k) := (acts[0].t, acts[0].c, s.buckets[b]);
      var s' := L.Next(s, t, c).value;
      StepIsOp(s, t, c, b);
      L.NextInv(s, t, c);
      RunIsTokenRun(s', acts[1..], b);
      RunAppend(k.token, OpOf(s, t, b), Trace(s', acts[1..], b), k.cps, k.burst);
    }
  }

  /** A bucket made with limits that are not negative. */
  predicate Limited(k: L.Bucket) {
    k.cps >= 0 && k.burst >= 0
  }

  ghost predicate TokensInRange(s: L.State) {
    forall b :: 0 <= b < |s.buckets| && Limited(s.buckets[b]) ==> 0 <= s.buckets[b].token <= s.buckets[b].burst
  }

  lemma StepInRange(s: L.State, t: nat, c: L.Call)
    requires L.SizesRight(s) && TokensInRange(s) && t < |s.threads| && L.Next(s, t, c).Some?
    ensures TokensInRange(L.Next(s, t, c).value)
  {
    var r := L.Next(s, t, c).value;
    forall b | 0 <= b < |r.buckets| && Limited(r.buckets[b])
      ensures 0 <= r.buckets[b].token <= r.buckets[b].burst
    {
      if b < |s.buckets| {
        StepIsOp(s, t, c, b);
        var k := s.buckets[b];
        T.WindowBound(k.token, OpOf(s, t, b), k.cps, k.burst);
      }
    }
  }

  lemma {:induction false} RunInRange(s: L.State, acts: seq<L.Action>)
    requires L.Inv(s) && TokensInRange(s) && L.Run(s, acts).Some?
    ensures TokensInRange(L.Run(s, acts).value)
    decreases |acts|
  {
    if acts != [] {
      StepInRange(s, acts[0].t, acts[0].c);
      L.NextInv(s, acts[0].t, acts[0].c);
      RunInRange(L.Next(s, acts[0].t, acts[0].c).value, acts[1..]);
    }
  }

  /** For any number of threads, any interleaving and any window of it: the tokens of a bucket stay between 0 and
      its burst, and what is fetched beyond what is returned is paid by the tokens there and the refills since. */
  lemma BucketWindow(slots: nat, clients: nat, before: seq<L.Action>, window: seq<L.Action>, b: nat)
    requires L.Run(L.Start(slots, clients), before).Some?
    requires L.Run(L.Run(L.Start(slots, clients), before).value, window).Some?
    requires b < |L.Run(L.Start(slots, clients), before).value.buckets|
    requires Limited(L.Run(L.Start(slots, clients), before).value.buckets[b])
    ensures var s := L.Run(L.Start(slots, clients), before).value;
      var (k, r, ops) := (s.buckets[b], L.Run(s, window).value, Trace(s, window, b));
      && b < |r.buckets| && 0 <= k.token <= k.burst && 0 <= r.buckets[b].token <= k.burst
      && T.Fetched(k.token, ops, k.cps, k.burst) - T.Returned(ops) + r.buckets[b].token
           <= k.token + k.cps * T.Refills(ops)
  {
    var s := L.Run(L.Start(slots, clients), before).value;
    L.StartInv(slots, clients);
    L.RunInv(L.Start(slots, clients), before);
    RunInRange(L.Start(slots, clients), before);
    RunIsTokenRun(s, window, b);
    T.WindowBound(s.buckets[b].token, Trace(s, window, b), s.buckets[b].cps, s.buckets[b].burst);
  }
}
