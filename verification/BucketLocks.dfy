/**
  The locking of the token bucket module as a step system: one step is one lock, one unlock, one wait, or one
  stretch of work between them. Thread 0 is the alarm thread; the others are clients of the module.
 */
module BucketLocks {
  import opened Counting
  import opened Wrappers

  datatype Bucket = Bucket(token: int, cps: int, burst: int, pos: nat, owner: Option<nat>, destroyed: bool)

  /** Where a thread is. "Lock" waits for a mutex, "In" has just got it; b is the bucket concerned. */
  datatype Thread =
    | SweepLock
    | Sweep(i: nat)
    | SweepWant(i: nat, b: nat)
    | SweepIn(i: nat, b: nat)
    | SweepAdded(i: nat, b: nat)
    | SweepDone(i: nat, b: nat)
    | Idle
    | FetchLock(b: nat, size: int)
    | FetchIn(b: nat, size: int)
    | FetchSleep(b: nat, size: int)
    | FetchTook(b: nat)
    | ReturnLock(b: nat, size: int)
    | ReturnIn(b: nat, size: int)
    | ReturnAdded(b: nat)
    | ReturnDone(b: nat)
    | InitLock(cps: int, burst: int)
    | InitIn(cps: int, burst: int)
    | DestroyLock(b: nat)
    | DestroyIn(b: nat)
    | DestroyLast(b: nat)

  /** job and jobOwner are the table of buckets and its mutex. */
  datatype State = State(job: seq<Option<nat>>, jobOwner: Option<nat>, buckets: seq<Bucket>, threads: seq<Thread>)

  datatype Call = CallFetch(b: nat, size: int) | CallReturn(b: nat, size: int) | CallInit(cps: int, burst: int)
                | CallDestroy(b: nat) | NoCall

  function Start(slots: nat, clients: nat): State {
    State(seq(slots, _ => None), None, [], [SweepLock] + seq(clients, _ => Idle))
  }

  /** The bucket whose fetch or return the thread is in. */
  function Uses(p: Thread): Option<nat> {
    match p
    case FetchLock(b, _) => Some(b)
    case FetchIn(b, _) => Some(b)
    case FetchSleep(b, _) => Some(b)
    case FetchTook(b) => Some(b)
    case ReturnLock(b, _) => Some(b)
    case ReturnIn(b, _) => Some(b)
    case ReturnAdded(b) => Some(b)
    case ReturnDone(b) => Some(b)
    case _ => None
  }

  /** The bucket the thread is destroying. */
  function Destroys(p: Thread): Option<nat> {
    match p
    case DestroyLock(b) => Some(b)
    case DestroyIn(b) => Some(b)
    case DestroyLast(b) => Some(b)
    case _ => None
  }

  /** What callers owe the module: a bucket is used only while it exists and nobody destroys it,
      and destroyed once, when nobody uses it. */
  predicate Allowed(s: State, c: Call) {
    match c
    case CallFetch(b, size) => Exists(s, b) && size >= 0
      && forall t :: 0 <= t < |s.threads| ==> Destroys(s.threads[t]) != Some(b)
    case CallReturn(b, size) => Exists(s, b) && size > 0
      && forall t :: 0 <= t < |s.threads| ==> Destroys(s.threads[t]) != Some(b)
    case CallDestroy(b) => Exists(s, b)
      && forall t :: 0 <= t < |s.threads| ==> Destroys(s.threads[t]) != Some(b) && Uses(s.threads[t]) != Some(b)
    case _ => true
  }

  predicate Exists(s: State, b: nat) {
    b < |s.buckets| && !s.buckets[b].destroyed
  }

  function Entered(c: Call): Thread {
    match c
    case CallFetch(b, size) => FetchLock(b, size)
    case CallReturn(b, size) => ReturnLock(b, size)
    case CallInit(cps, burst) => InitLock(cps, burst)
    case CallDestroy(b) => DestroyLock(b)
    case NoCall => Idle
  }

  /** A broadcast on b's condition wakes all who sleep on it; each must take the mutex again. */
  function Broadcast(ts: seq<Thread>, b: nat): (r: seq<Thread>)
    ensures |r| == |ts|
    ensures forall t :: 0 <= t < |ts| ==>
      r[t] == if ts[t].FetchSleep? && ts[t].b == b then FetchLock(b, ts[t].size) else ts[t]
  {
    seq(|ts|, t requires 0 <= t < |ts| =>
      if ts[t].FetchSleep? && ts[t].b == b then FetchLock(b, ts[t].size) else ts[t])
  }

  function Capped(k: Bucket, amount: int): int {
    Min(k.token + amount, k.burst)
  }

  function FreePos(job: seq<Option<nat>>): (i: nat)
    ensures i <= |job| && (i < |job| ==> job[i] == None)
  {
    if job == [] || job[0] == None then 0 else 1 + FreePos(job[1..])
  }

  /** What a step does besides moving its own thread on. */
  datatype Effect =
    | Nothing
    | TakeJob | DropJob
    | TakeBucket(b: nat) | DropBucket(b: nat)
    | Put(b: nat, token: int)
    | WakeAll(b: nat)
    | Publish(pos: nat, cps: int, burst: int)
    | Withdraw(b: nat)
    | Destroy(b: nat)

  datatype Move = Move(p: Thread, e: Effect)

  /** What thread t would do next; None while it has nothing to do. The call matters only to an idle client. */
  function Intent(s: State, t: nat, c: Call): Option<Move>
    requires t < |s.threads|
  {
    match s.threads[t]
    case SweepLock => Some(Move(Sweep(0), TakeJob))
    case Sweep(i) =>
      if i >= |s.job| then Some(Move(SweepLock, DropJob))
      else if s.job[i] == None then Some(Move(Sweep(i + 1), Nothing))
      else Some(Move(SweepWant(i, s.job[i].value), Nothing))
    case SweepWant(i, b) => Some(Move(SweepIn(i, b), TakeBucket(b)))
    case SweepIn(i, b) =>
      if b < |s.buckets| then Some(Move(SweepAdded(i, b), Put(b, Capped(s.buckets[b], s.buckets[b].cps)))) else None
    case SweepAdded(i, b) => Some(Move(SweepDone(i, b), WakeAll(b)))
    case SweepDone(i, b) => Some(Move(Sweep(i + 1), DropBucket(b)))
    case Idle => if Allowed(s, c) then Some(Move(Entered(c), Nothing)) else None
    case FetchLock(b, size) => Some(Move(FetchIn(b, size), TakeBucket(b)))
    case FetchIn(b, size) =>
      if b >= |s.buckets| then None
      else if s.buckets[b].token <= 0 then Some(Move(FetchSleep(b, size), DropBucket(b)))
      else Some(Move(FetchTook(b), Put(b, s.buckets[b].token - Min(s.buckets[b].token, size))))
    // A sleeper may also wake for no reason.
    case FetchSleep(b, size) => Some(Move(FetchLock(b, size), Nothing))
    case FetchTook(b) => Some(Move(Idle, DropBucket(b)))
    case ReturnLock(b, size) => Some(Move(ReturnIn(b, size), TakeBucket(b)))
    case ReturnIn(b, size) =>
      if b < |s.buckets| then Some(Move(ReturnAdded(b), Put(b, Capped(s.buckets[b], size)))) else None
    case ReturnAdded(b) => Some(Move(ReturnDone(b), WakeAll(b)))
    case ReturnDone(b) => Some(Move(Idle, DropBucket(b)))
    case InitLock(cps, burst) => Some(Move(InitIn(cps, burst), TakeJob))
    case InitIn(cps, burst) =>
      Some(Move(Idle, if FreePos(s.job) == |s.job| then DropJob else Publish(FreePos(s.job), cps, burst)))
    case DestroyLock(b) => Some(Move(DestroyIn(b), TakeJob))
    case DestroyIn(b) => Some(Move(DestroyLast(b), Withdraw(b)))
    case DestroyLast(b) => Some(Move(Idle, Destroy(b)))
  }

  /** A mutex that somebody holds cannot be taken. */
  predicate Possible(s: State, e: Effect) {
    match e
    case TakeJob => s.jobOwner == None
    case TakeBucket(b) => b < |s.buckets| && s.buckets[b].owner == None
    case DropBucket(b) => b < |s.buckets|
    case Put(b, _) => b < |s.buckets|
    case Withdraw(b) => b < |s.buckets| && s.buckets[b].pos < |s.job|
    case Publish(pos, _, _) => pos < |s.job|
    case Destroy(b) => b < |s.buckets|
    case _ => true
  }

  function SetBucket(s: State, b: nat, k: Bucket): State
    requires b < |s.buckets|
  {
    s.(buckets := s.buckets[b := k])
  }

  function Apply(s: State, t: nat, e: Effect): (r: State)
    requires Possible(s, e)
    ensures |r.threads| == |s.threads|
  {
    match e
    case Nothing => s
    case TakeJob => s.(jobOwner := Some(t))
    case DropJob => s.(jobOwner := None)
    case TakeBucket(b) => SetBucket(s, b, s.buckets[b].(owner := Some(t)))
    case DropBucket(b) => SetBucket(s, b, s.buckets[b].(owner := None))
    case Put(b, token) => SetBucket(s, b, s.buckets[b].(token := token))
    case WakeAll(b) => s.(threads := Broadcast(s.threads, b))
    case Publish(pos, cps, burst) =>
      s.(jobOwner := None, job := s.job[pos := Some(|s.buckets|)],
         buckets := s.buckets + [Bucket(0, cps, burst, pos, None, false)])
    case Withdraw(b) => s.(jobOwner := None, job := s.job[s.buckets[b].pos := None])
    case Destroy(b) => SetBucket(s, b, s.buckets[b].(destroyed := true))
  }

  function Do(s: State, t: nat, m: Move): State
    requires t < |s.threads| && Possible(s, m.e)
  {
    var r := Apply(s, t, m.e);
    r.(threads := r.threads[t := m.p])
  }

  /** One step of thread t; None while it cannot go on. */
  function Next(s: State, t: nat, c: Call): Option<State>
    requires t < |s.threads|
  {
    match Intent(s, t, c)
    case None => None
    case Some(m) => if Possible(s, m.e) then Some(Do(s, t, m)) else None
  }

  datatype Action = Action(t: nat, c: Call)

  function Run(s: State, acts: seq<Action>): Option<State>
    decreases |acts|
  {
    if acts == [] then Some(s)
    else if acts[0].t >= |s.threads| then None
    else
      match Next(s, acts[0].t, acts[0].c)
      case None => None
      case Some(s') => Run(s', acts[1..])
  }

  // ----- The invariant -----

  predicate HoldsJob(p: Thread) {
    p.Sweep? || p.SweepWant? || p.SweepIn? || p.SweepAdded? || p.SweepDone? || p.InitIn? || p.DestroyIn?
  }

  /** The bucket whose mutex the thread holds. */
  function Holds(p: Thread): Option<nat> {
    match p
    case SweepIn(_, b) => Some(b)
    case SweepAdded(_, b) => Some(b)
    case SweepDone(_, b) => Some(b)
    case FetchIn(b, _) => Some(b)
    case FetchTook(b) => Some(b)
    case ReturnIn(b, _) => Some(b)
    case ReturnAdded(b) => Some(b)
    case ReturnDone(b) => Some(b)
    case _ => None
  }

  /** The entry of the table, and the bucket in it, that the sweep is at. */
  function SweepsAt(p: Thread): Option<(nat, nat)> {
    match p
    case SweepWant(i, b) => Some((i, b))
    case SweepIn(i, b) => Some((i, b))
    case SweepAdded(i, b) => Some((i, b))
    case SweepDone(i, b) => Some((i, b))
    case _ => None
  }

  /** Tokens have been put in and the broadcast is still to come. */
  predicate JustAdded(p: Thread) {
    p.SweepAdded? || p.ReturnAdded?
  }

  ghost predicate JobMutex(s: State) {
    && (forall t :: 0 <= t < |s.threads| && HoldsJob(s.threads[t]) ==> s.jobOwner == Some(t))
    && (s.jobOwner.Some? ==> s.jobOwner.value < |s.threads| && HoldsJob(s.threads[s.jobOwner.value]))
  }

  ghost predicate HoldersOwn(s: State) {
    forall t :: 0 <= t < |s.threads| && Holds(s.threads[t]).Some? ==>
      var b := Holds(s.threads[t]).value; b < |s.buckets| && s.buckets[b].owner == Some(t)
  }

  ghost predicate OwnersHold(s: State) {
    forall b :: 0 <= b < |s.buckets| && s.buckets[b].owner.Some? ==>
      var t := s.buckets[b].owner.value; t < |s.threads| && Holds(s.threads[t]) == Some(b)
  }

  ghost predicate BucketMutexes(s: State) {
    HoldersOwn(s) && OwnersHold(s)
  }

  ghost predicate TableRight(s: State) {
    && (forall i :: 0 <= i < |s.job| && s.job[i].Some? ==>
          var b := s.job[i].value; Exists(s, b) && s.buckets[b].pos == i)
    && (forall b :: 0 <= b < |s.buckets| ==> s.buckets[b].pos < |s.job|)
  }

  ghost predicate UsersRight(s: State) {
    && (forall t :: 0 <= t < |s.threads| && Uses(s.threads[t]).Some? ==> Exists(s, Uses(s.threads[t]).value))
    && (forall t :: 0 <= t < |s.threads| && Destroys(s.threads[t]).Some? ==> Exists(s, Destroys(s.threads[t]).value))
    && UsersApart(s) && LastOut(s)
  }

  ghost predicate UsersApart(s: State) {
    forall t, u :: 0 <= t < |s.threads| && 0 <= u < |s.threads| && Destroys(s.threads[t]).Some? ==>
      && Uses(s.threads[u]) != Destroys(s.threads[t])
      && (u != t ==> Destroys(s.threads[u]) != Destroys(s.threads[t]))
  }

  /** Before a bucket goes, the table no longer has it. */
  ghost predicate LastOut(s: State) {
    forall t :: 0 <= t < |s.threads| && s.threads[t].DestroyLast? ==>
      var b := s.threads[t].b; b < |s.buckets| && s.buckets[b].pos < |s.job| && s.job[s.buckets[b].pos] != Some(b)
  }

  ghost predicate SweepRight(s: State) {
    forall t :: 0 <= t < |s.threads| && SweepsAt(s.threads[t]).Some? ==>
      var (i, b) := SweepsAt(s.threads[t]).value; i < |s.job| && s.job[i] == Some(b)
  }

  ghost predicate SleepersRight(s: State) {
    forall t :: 0 <= t < |s.threads| && s.threads[t].FetchSleep? && s.threads[t].b < |s.buckets| ==>
      SleeperRight(s, s.threads[t].b)
  }

  ghost predicate SleeperRight(s: State, b: nat)
    requires b < |s.buckets|
  {
    var k := s.buckets[b];
    k.token <= 0 || (k.owner.Some? && k.owner.value < |s.threads| && JustAdded(s.threads[k.owner.value]))
  }

  /** A fetch of a negative amount, and a return that is not of a positive one, is refused before any lock. */
  ghost predicate SizesRight(s: State) {
    forall t :: 0 <= t < |s.threads| ==> SizeRight(s.threads[t])
  }

  predicate SizeRight(p: Thread) {
    && (p.FetchLock? || p.FetchIn? || p.FetchSleep? ==> p.size >= 0)
    && (p.ReturnLock? || p.ReturnIn? ==> p.size > 0)
  }

  ghost predicate Inv(s: State) {
    && JobMutex(s) && BucketMutexes(s) && TableRight(s) && UsersRight(s)
    && SweepRight(s) && SleepersRight(s) && SizesRight(s)
  }

  lemma StartInv(slots: nat, clients: nat)
    ensures Inv(Start(slots, clients))
  {
  }

  // ----- Each step keeps it -----

  /** How a thread's place changes with what it does, whatever the rest of the state. */
  predicate Matches(old': Thread, m: Move) {
    && HoldsJob(m.p) == (if m.e.TakeJob? then true else if m.e.DropJob? || m.e.Publish? || m.e.Withdraw? then false
                         else HoldsJob(old'))
    && (m.e.TakeJob? ==> !HoldsJob(old')) && (m.e.DropJob? || m.e.Publish? || m.e.Withdraw? ==> HoldsJob(old'))
    && Holds(m.p) == (if m.e.TakeBucket? then Some(m.e.b) else if m.e.DropBucket? then None else Holds(old'))
    && (m.e.TakeBucket? ==> Holds(old') == None)
    && (m.e.DropBucket? || m.e.Put? || m.e.WakeAll? ==> Holds(old') == Some(m.e.b))
    && (JustAdded(old') ==> m.e.WakeAll?) && (JustAdded(m.p) ==> m.e.Put?)
    && (m.p.FetchSleep? ==> m.e == DropBucket(m.p.b))
    && (m.e.Withdraw? || m.e.Destroy? ==> Destroys(old') == Some(m.e.b))
    && (m.e.Destroy? ==> Destroys(m.p) == None)
    && (m.p.DestroyLast? ==> m.e == Withdraw(m.p.b))
    && (old'.Idle? || Uses(m.p) == None || Uses(m.p) == Uses(old'))
    && (old'.Idle? || Destroys(m.p) == None || Destroys(m.p) == Destroys(old'))
    && (SweepsAt(m.p).Some? ==> HoldsJob(m.p))
  }

  lemma IntentMatches(s: State, t: nat, c: Call)
    requires t < |s.threads| && Intent(s, t, c).Some?
    ensures Matches(s.threads[t], Intent(s, t, c).value)
  {
  }

  lemma DoJobMutex(s: State, t: nat, m: Move)
    requires t < |s.threads| && Possible(s, m.e) && Matches(s.threads[t], m) && JobMutex(s)
    ensures JobMutex(Do(s, t, m))
  {
  }

  lemma BroadcastKeeps(ts: seq<Thread>, b: nat, u: nat)
    requires u < |ts|
    ensures var p, q := ts[u], Broadcast(ts, b)[u];
      && Holds(p) == Holds(q) && HoldsJob(p) == HoldsJob(q) && Uses(p) == Uses(q) && Destroys(p) == Destroys(q)
      && SweepsAt(p) == SweepsAt(q) && (JustAdded(p) <==> JustAdded(q)) && (SizeRight(p) <==> SizeRight(q))
      && (p.DestroyLast? <==> q.DestroyLast?)
  {
  }

  lemma DoHoldersOwn(s: State, t: nat, m: Move)
    requires t < |s.threads| && Possible(s, m.e) && Matches(s.threads[t], m) && BucketMutexes(s)
    ensures HoldersOwn(Do(s, t, m))
  {
    var r := Do(s, t, m);
    forall u | 0 <= u < |r.threads| && Holds(r.threads[u]).Some?
      ensures var b := Holds(r.threads[u]).value; b < |r.buckets| && r.buckets[b].owner == Some(u)
    {
      BroadcastKeeps(s.threads, if m.e.WakeAll? then m.e.b else 0, u);
      if u != t {
        assert Holds(s.threads[u]) == Holds(r.threads[u]);
      }
    }
  }

  lemma DoOwnersHold(s: State, t: nat, m: Move)
    requires t < |s.threads| && Possible(s, m.e) && Matches(s.threads[t], m) && BucketMutexes(s)
    ensures OwnersHold(Do(s, t, m))
  {
    var r := Do(s, t, m);
    forall b | 0 <= b < |r.buckets| && r.buckets[b].owner.Some?
      ensures var u := r.buckets[b].owner.value; u < |r.threads| && Holds(r.threads[u]) == Some(b)
    {
      var u := r.buckets[b].owner.value;
      if u != t {
        assert b < |s.buckets| && s.buckets[b].owner == Some(u);
        BroadcastKeeps(s.threads, if m.e.WakeAll? then m.e.b else 0, u);
      }
    }
  }

  lemma DoTableRight(s: State, t: nat, m: Move)
    requires t < |s.threads| && Possible(s, m.e) && Matches(s.threads[t], m) && TableRight(s) && UsersRight(s)
    requires m.e.Destroy? ==> s.threads[t].DestroyLast?
    ensures TableRight(Do(s, t, m))
  {
  }

  /** What a step relies on in the state around it. */
  ghost predicate Sound(s: State, t: nat, m: Move)
    requires t < |s.threads|
  {
    var p := s.threads[t];
    && (p.Idle? && Uses(m.p).Some? ==> Exists(s, Uses(m.p).value) && Untouched(s, Uses(m.p).value))
    && (p.Idle? && Destroys(m.p).Some? ==> Exists(s, Destroys(m.p).value) && Unused(s, Destroys(m.p).value))
    && (SweepsAt(m.p).Some? && SweepsAt(m.p) != SweepsAt(p) ==>
          var (i, b) := SweepsAt(m.p).value; HoldsJob(p) && i < |s.job| && s.job[i] == Some(b))
    && (m.p.FetchSleep? ==> m.p.b < |s.buckets| && s.buckets[m.p.b].token <= 0)
    && (m.e.Put? ==> m.e.b < |s.buckets| && (m.e.token <= s.buckets[m.e.b].token || JustAdded(m.p)))
    && (m.e.Destroy? ==> p.DestroyLast?)
    && SizeRight(m.p)
  }

  ghost predicate Untouched(s: State, b: nat) {
    forall u :: 0 <= u < |s.threads| ==> Destroys(s.threads[u]) != Some(b)
  }

  ghost predicate Unused(s: State, b: nat) {
    forall u :: 0 <= u < |s.threads| ==> Destroys(s.threads[u]) != Some(b) && Uses(s.threads[u]) != Some(b)
  }

  lemma IntentSound(s: State, t: nat, c: Call)
    requires t < |s.threads| && Intent(s, t, c).Some? && SizesRight(s)
    ensures Sound(s, t, Intent(s, t, c).value)
  {
    assert SizeRight(s.threads[t]);
  }

  lemma DoUsersExist(s: State, t: nat, m: Move)
    requires t < |s.threads| && Possible(s, m.e) && Matches(s.threads[t], m) && Sound(s, t, m) && UsersRight(s)
    ensures var r := Do(s, t, m);
      && (forall u :: 0 <= u < |r.threads| && Uses(r.threads[u]).Some? ==> Exists(r, Uses(r.threads[u]).value))
      && (forall u :: 0 <= u < |r.threads| && Destroys(r.threads[u]).Some? ==> Exists(r, Destroys(r.threads[u]).value))
  {
    var r := Do(s, t, m);
    forall u | 0 <= u < |r.threads|
      ensures Uses(r.threads[u]).Some? ==> Exists(r, Uses(r.threads[u]).value)
      ensures Destroys(r.threads[u]).Some? ==> Exists(r, Destroys(r.threads[u]).value)
    {
      BroadcastKeeps(s.threads, if m.e.WakeAll? then m.e.b else 0, u);
    }
  }

  lemma DoUsersApart(s: State, t: nat, m: Move)
    requires t < |s.threads| && Possible(s, m.e) && Matches(s.threads[t], m) && Sound(s, t, m) && UsersRight(s)
    ensures UsersApart(Do(s, t, m))
  {
    var r := Do(s, t, m);
    forall d, u | 0 <= d < |r.threads| && 0 <= u < |r.threads| && Destroys(r.threads[d]).Some?
      ensures Uses(r.threads[u]) != Destroys(r.threads[d])
      ensures u != d ==> Destroys(r.threads[u]) != Destroys(r.threads[d])
    {
      BroadcastKeeps(s.threads, if m.e.WakeAll? then m.e.b else 0, d);
      BroadcastKeeps(s.threads, if m.e.WakeAll? then m.e.b else 0, u);
    }
  }

  lemma DoLastOut(s: State, t: nat, m: Move)
    requires t < |s.threads| && Possible(s, m.e) && Matches(s.threads[t], m) && TableRight(s) && UsersRight(s)
    ensures LastOut(Do(s, t, m))
  {
    var r := Do(s, t, m);
    forall u | 0 <= u < |r.threads| && r.threads[u].DestroyLast?
      ensures var b := r.threads[u].b;
        b < |r.buckets| && r.buckets[b].pos < |r.job| && r.job[r.buckets[b].pos] != Some(b)
    {
      BroadcastKeeps(s.threads, if m.e.WakeAll? then m.e.b else 0, u);
    }
  }

  lemma DoSweepRight(s: State, t: nat, m: Move)
    requires t < |s.threads| && Possible(s, m.e) && Matches(s.threads[t], m) && Sound(s, t, m)
    requires JobMutex(s) && SweepRight(s)
    ensures SweepRight(Do(s, t, m))
  {
    var r := Do(s, t, m);
    forall u | 0 <= u < |r.threads| && SweepsAt(r.threads[u]).Some?
      ensures var (i, b) := SweepsAt(r.threads[u]).value; i < |r.job| && r.job[i] == Some(b)
    {
      BroadcastKeeps(s.threads, if m.e.WakeAll? then m.e.b else 0, u);
      if u != t {
        assert HoldsJob(s.threads[u]);
      }
    }
  }

  lemma DoSleepersRight(s: State, t: nat, m: Move)
    requires t < |s.threads| && Possible(s, m.e) && Matches(s.threads[t], m) && Sound(s, t, m)
    requires BucketMutexes(s) && UsersRight(s) && SleepersRight(s)
    ensures SleepersRight(Do(s, t, m))
  {
    var r := Do(s, t, m);
    forall u | 0 <= u < |r.threads| && r.threads[u].FetchSleep? && r.threads[u].b < |r.buckets|
      ensures SleeperRight(r, r.threads[u].b)
    {
      if u != t {
        var b := r.threads[u].b;
        assert s.threads[u] == r.threads[u] && Uses(s.threads[u]) == Some(b);
        assert SleeperRight(s, b);
        StillRight(s, t, m, b);
      }
    }
  }

  lemma StillRight(s: State, t: nat, m: Move, b: nat)
    requires t < |s.threads| && Possible(s, m.e) && Matches(s.threads[t], m) && Sound(s, t, m) && BucketMutexes(s)
    requires b < |s.buckets| && SleeperRight(s, b) && m.e != WakeAll(b)
    ensures SleeperRight(Do(s, t, m), b)
  {
    var k := s.buckets[b];
    if k.owner.Some? && k.owner.value < |s.threads| {
      BroadcastKeeps(s.threads, if m.e.WakeAll? then m.e.b else 0, k.owner.value);
    }
  }

  lemma DoSizesRight(s: State, t: nat, m: Move)
    requires t < |s.threads| && Possible(s, m.e) && SizeRight(m.p) && SizesRight(s)
    ensures SizesRight(Do(s, t, m))
  {
    forall u | 0 <= u < |s.threads| ensures SizeRight(Do(s, t, m).threads[u]) {
      BroadcastKeeps(s.threads, if m.e.WakeAll? then m.e.b else 0, u);
    }
  }

  /** Every step of every interleaving keeps the invariant. */
  lemma NextInv(s: State, t: nat, c: Call)
    requires Inv(s) && t < |s.threads| && Next(s, t, c).Some?
    ensures Inv(Next(s, t, c).value)
  {
    var m := Intent(s, t, c).value;
    IntentMatches(s, t, c);
    IntentSound(s, t, c);
    DoJobMutex(s, t, m);
    DoHoldersOwn(s, t, m);
    DoOwnersHold(s, t, m);
    DoTableRight(s, t, m);
    DoUsersExist(s, t, m);
    DoUsersApart(s, t, m);
    DoLastOut(s, t, m);
    DoSweepRight(s, t, m);
    DoSleepersRight(s, t, m);
    DoSizesRight(s, t, m);
  }

  lemma {:induction false} RunInv(s: State, acts: seq<Action>)
    requires Inv(s)
    ensures Run(s, acts).Some? ==> Inv(Run(s, acts).value)
    decreases |acts|
  {
    if acts != [] && acts[0].t < |s.threads| && Next(s, acts[0].t, acts[0].c).Some? {
      NextInv(s, acts[0].t, acts[0].c);
      RunInv(Next(s, acts[0].t, acts[0].c).value, acts[1..]);
    }
  }

  // ----- What holds in every reachable state -----

  /** Thread t is blocked on a mutex that thread u holds. */
  predicate WaitsFor(s: State, t: nat, u: nat) {
    && t < |s.threads| && u < |s.threads|
    && var p := s.threads[t];
      || ((p.SweepLock? || p.InitLock? || p.DestroyLock?) && s.jobOwner == Some(u))
      || ((p.SweepWant? || p.FetchLock? || p.ReturnLock?) && p.b < |s.buckets| && s.buckets[p.b].owner == Some(u))
  }

  /** The table's mutex comes before any bucket's, and who holds a bucket's waits for nothing. */
  function Rank(p: Thread): nat {
    if p.SweepLock? || p.InitLock? || p.DestroyLock? then 0
    else if p.SweepWant? || p.FetchLock? || p.ReturnLock? then 1
    else 2
  }

  lemma WaitsUpward(s: State, t: nat, u: nat)
    requires Inv(s) && WaitsFor(s, t, u)
    ensures Rank(s.threads[t]) < Rank(s.threads[u])
  {
  }

  ghost predicate Chain(s: State, ts: seq<nat>) {
    forall i :: 0 <= i < |ts| - 1 ==> WaitsFor(s, ts[i], ts[i + 1])
  }

  lemma {:induction false} ChainUpward(s: State, ts: seq<nat>)
    requires Inv(s) && Chain(s, ts) && |ts| >= 2
    ensures ts[0] < |s.threads| && ts[|ts| - 1] < |s.threads|
    ensures Rank(s.threads[ts[0]]) < Rank(s.threads[ts[|ts| - 1]])
  {
    assert WaitsFor(s, ts[0], ts[1]);
    WaitsUpward(s, ts[0], ts[1]);
    if |ts| > 2 {
      forall i | 0 <= i < |ts[1..]| - 1 ensures WaitsFor(s, ts[1..][i], ts[1..][i + 1]) {
        assert WaitsFor(s, ts[i + 1], ts[i + 1 + 1]);
      }
      ChainUpward(s, ts[1..]);
    }
  }

  /** No reachable state has threads waiting for one another in a circle. */
  lemma NoDeadlock(slots: nat, clients: nat, acts: seq<Action>, ts: seq<nat>)
    requires Run(Start(slots, clients), acts).Some?
    ensures var s := Run(Start(slots, clients), acts).value;
      ts != [] && Chain(s, ts) ==> !WaitsFor(s, ts[|ts| - 1], ts[0])
  {
    StartInv(slots, clients);
    RunInv(Start(slots, clients), acts);
    var s := Run(Start(slots, clients), acts).value;
    if ts != [] && Chain(s, ts) && WaitsFor(s, ts[|ts| - 1], ts[0]) {
      WaitsUpward(s, ts[|ts| - 1], ts[0]);
      if |ts| >= 2 {
        ChainUpward(s, ts);
      }
    }
  }

  /** Whoever waits, somebody it waits for, directly or through one more, can go on. */
  lemma SomebodyCanGoOn(slots: nat, clients: nat, acts: seq<Action>, t: nat, u: nat) returns (v: nat)
    requires Run(Start(slots, clients), acts).Some?
    requires WaitsFor(Run(Start(slots, clients), acts).value, t, u)
    ensures var s := Run(Start(slots, clients), acts).value;
      v < |s.threads| && (v == u || WaitsFor(s, u, v)) && Next(s, v, NoCall).Some?
  {
    StartInv(slots, clients);
    RunInv(Start(slots, clients), acts);
    var s := Run(Start(slots, clients), acts).value;
    WaitsUpward(s, t, u);
    v := u;
    if Rank(s.threads[u]) == 1 && !Possible(s, TakeBucket(s.threads[u].b)) {
      assert SweepsAt(s.threads[u]) == Some((s.threads[u].i, s.threads[u].b));
      v := s.buckets[s.threads[u].b].owner.value;
      WaitsUpward(s, u, v);
      HolderGoesOn(s, v);
    } else if Rank(s.threads[u]) == 2 {
      HolderGoesOn(s, u);
    }
  }

  lemma HolderGoesOn(s: State, v: nat)
    requires Inv(s) && v < |s.threads| && Rank(s.threads[v]) == 2
    requires HoldsJob(s.threads[v]) || Holds(s.threads[v]).Some?
    ensures Next(s, v, NoCall).Some?
  {
    var p := s.threads[v];
    assert Holds(p).Some? ==> Holds(p).value < |s.buckets|;
    assert Destroys(p).Some? ==> Exists(s, Destroys(p).value);
    PlaceGoesOn(s, v);
  }

  lemma PlaceGoesOn(s: State, v: nat)
    requires v < |s.threads| && Rank(s.threads[v]) == 2
    requires HoldsJob(s.threads[v]) || Holds(s.threads[v]).Some?
    requires Holds(s.threads[v]).Some? ==> Holds(s.threads[v]).value < |s.buckets|
    requires Destroys(s.threads[v]).Some? ==>
      var b := Destroys(s.threads[v]).value; b < |s.buckets| && s.buckets[b].pos < |s.job|
    ensures Next(s, v, NoCall).Some?
  {
  }

  /** A thread asleep on a bucket nobody is inside of has no tokens to take:
      no wake-up is lost between a refill or a return and the sleepers. */
  lemma SleepersHaveNoTokens(slots: nat, clients: nat, acts: seq<Action>, t: nat)
    requires Run(Start(slots, clients), acts).Some?
    ensures var s := Run(Start(slots, clients), acts).value;
      t < |s.threads| && s.threads[t].FetchSleep? ==>
        var b := s.threads[t].b; Exists(s, b) && (s.buckets[b].owner == None ==> s.buckets[b].token <= 0)
  {
    StartInv(slots, clients);
    RunInv(Start(slots, clients), acts);
    var s := Run(Start(slots, clients), acts).value;
    if t < |s.threads| && s.threads[t].FetchSleep? {
      assert Uses(s.threads[t]) == Some(s.threads[t].b);
    }
  }

  /** The refill sweep only locks and updates buckets not yet destroyed, and so does every fetch and return. */
  lemma OnlyLiveBuckets(slots: nat, clients: nat, acts: seq<Action>, t: nat)
    requires Run(Start(slots, clients), acts).Some?
    ensures var s := Run(Start(slots, clients), acts).value;
      && (t < |s.threads| && SweepsAt(s.threads[t]).Some? ==> Exists(s, SweepsAt(s.threads[t]).value.1))
      && (t < |s.threads| && Uses(s.threads[t]).Some? ==> Exists(s, Uses(s.threads[t]).value))
  {
    StartInv(slots, clients);
    RunInv(Start(slots, clients), acts);
  }
}
