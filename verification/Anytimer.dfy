/**
  The table of timed jobs. A tick of the alarm counts every running job down; a job that reaches zero fires,
  and then starts over if it repeats. Firing is logged by the job's place in the table.
 */
module Anytimer {
  import opened Counting
  import opened Wrappers

  datatype JobState = STATE_RUNNING | STATE_CANCELED | STATE_OVER

  datatype Job = Job(state: JobState, sec: int, remain: int, repeat: bool)

  type Table = seq<Option<Job>>

  const EINVAL := 22
  const ENOSPC := 28
  const EBUSY := 16
  const ECANCELED := 125

  function Fires(j: Option<Job>): bool {
    j.Some? && j.value.state.STATE_RUNNING? && j.value.remain == 1
  }

  function Ticked(j: Option<Job>): Option<Job> {
    if j == None || !j.value.state.STATE_RUNNING? then j
    else if j.value.remain - 1 != 0 then Some(j.value.(remain := j.value.remain - 1))
    else if j.value.repeat then Some(j.value.(remain := j.value.sec))
    else Some(j.value.(remain := 0, state := STATE_OVER))
  }

  function TickedAll(t: Table): (r: Table)
    ensures |r| == |t| && forall i :: 0 <= i < |t| ==> r[i] == Ticked(t[i])
  {
    seq(|t|, i requires 0 <= i < |t| => Ticked(t[i]))
  }

  /** The places that fire in a tick, in the order the handler visits them. */
  function Firing(t: Table): (r: seq<nat>)
    ensures forall p: nat :: p in r <==> p < |t| && Fires(t[p])
  {
    if t == [] then [] else Firing(t[..|t| - 1]) + if Fires(t[|t| - 1]) then [|t| - 1] else []
  }

  function FreePos(t: Table): (i: nat)
    ensures i <= |t| && (i < |t| ==> t[i] == None) && forall k :: 0 <= k < i ==> t[k].Some?
  {
    if t == [] || t[0] == None then 0 else 1 + FreePos(t[1..])
  }

  function Added(t: Table, sec: int, repeat: bool): (int, Table) {
    if sec < 0 then (-EINVAL, t)
    else if FreePos(t) == |t| then (-ENOSPC, t)
    else (FreePos(t), t[FreePos(t) := Some(Job(STATE_RUNNING, sec, sec, repeat))])
  }

  function Canceled(t: Table, id: int): (int, Table) {
    if id < 0 || id >= |t| || t[id] == None then (-EINVAL, t)
    else if t[id].value.state.STATE_CANCELED? then (-ECANCELED, t)
    else if t[id].value.state.STATE_OVER? then (-EBUSY, t)
    else (0, t[id := Some(t[id].value.(state := STATE_CANCELED))])
  }

  /** What a wait finds at once; None while it would pause for the job to end. */
  function Waited(t: Table, id: int): Option<(int, Table)> {
    if id < 0 || id >= |t| || t[id] == None then Some((-EINVAL, t))
    else if t[id].value.repeat then Some((-EBUSY, t))
    else if t[id].value.state.STATE_RUNNING? then None
    else Some((0, t[id := None]))
  }

  // ----- The module as the source keeps it -----

  class Timer {
    const job: array<Option<Job>>
    ghost var log: seq<nat>

    constructor (jobMax: nat)
      ensures fresh(job) && job[..] == seq(jobMax, _ => None) && log == []
    {
      job := new Option<Job>[jobMax](_ => None);
      log := [];
      new;
      assert job[..] == seq(jobMax, _ => None);
    }

    /** The signal handler; it ignores signals that do not come from the kernel's timer. */
    method AlrmAction(fromKernel: bool)
      modifies job, this`log
      ensures job[..] == if fromKernel then TickedAll(old(job[..])) else old(job[..])
      ensures log == old(log) + if fromKernel then Firing(old(job[..])) else []
    {
      if !fromKernel {
        return;
      }
      ghost var t := job[..];
      for i := 0 to job.Length
        invariant forall k :: 0 <= k < i ==> job[k] == Ticked(t[k])
        invariant forall k :: i <= k < job.Length ==> job[k] == t[k]
        invariant log == old(log) + Firing(t[..i])
      {
        assert t[..i + 1][..i] == t[..i];
        if job[i].Some? && job[i].value.state == STATE_RUNNING {
          var j := job[i].value.(remain := job[i].value.remain - 1);
          if j.remain == 0 {
            log := log + [i];
            if j.repeat {
              j := j.(remain := j.sec);
            } else {
              j := j.(state := STATE_OVER);
            }
          }
          job[i] := Some(j);
        }
      }
      assert t[..job.Length] == t;
    }

    method GetFreePos() returns (pos: int)
      ensures pos == if FreePos(job[..]) == job.Length then -1 else FreePos(job[..])
    {
      pos := 0;
      while pos < job.Length
        invariant 0 <= pos <= job.Length && forall k :: 0 <= k < pos ==> job[k].Some?
      {
        if job[pos] == None {
          return;
        }
        pos := pos + 1;
      }
      pos := -1;
    }

    /** at_addjob, and at_addjob_repeat when the job repeats. */
    method AddJob(sec: int, repeat: bool) returns (code: int)
      modifies job
      ensures (code, job[..]) == Added(old(job[..]), sec, repeat)
    {
      if sec < 0 {
        return -EINVAL;
      }
      var pos := GetFreePos();
      if pos < 0 {
        return -ENOSPC;
      }
      job[pos] := Some(Job(STATE_RUNNING, sec, sec, repeat));
      code := pos;
    }

    method CancelJob(id: int) returns (code: int)
      modifies job
      ensures (code, job[..]) == Canceled(old(job[..]), id)
    {
      if id < 0 || id >= job.Length || job[id] == None {
        return -EINVAL;
      }
      if job[id].value.state == STATE_CANCELED {
        return -ECANCELED;
      }
      if job[id].value.state == STATE_OVER {
        return -EBUSY;
      }
      job[id] := Some(job[id].value.(state := STATE_CANCELED));
      code := 0;
    }

    /** Waiting pauses for one tick after another. It ends when the job is over, after exactly the ticks the
        job had left, and frees the place. A job added with 0 seconds never fires, so it cannot be waited for. */
    method WaitJob(id: int) returns (code: int, ghost ticks: nat)
      requires WaitEnds(job[..], id)
      modifies job, this`log
      ensures Some((code, job[..])) == Waited(TickedTimes(old(job[..]), ticks), id)
      ensures ticks == if Waited(old(job[..]), id).Some? then 0 else old(job[id]).value.remain
    {
      ticks := 0;
      if id < 0 || id >= job.Length || job[id] == None {
        return -EINVAL, 0;
      }
      if job[id].value.repeat {
        return -EBUSY, 0;
      }
      while job[id].value.state == STATE_RUNNING
        invariant job[..] == TickedTimes(old(job[..]), ticks)
        invariant job[id].Some? && !job[id].value.repeat
        invariant if job[id].value.state == STATE_RUNNING
          then job[id].value.remain >= 1 && ticks + job[id].value.remain == old(job[id]).value.remain
          else ticks == if old(job[id]).value.state == STATE_RUNNING then old(job[id]).value.remain else 0
        decreases job[id].value.state == STATE_RUNNING, job[id].value.remain
      {
        AlrmAction(true);
        TickedOnceMore(old(job[..]), ticks);
        ticks := ticks + 1;
      }
      job[id] := None;
      code := 0;
    }
  }

  function TickedTimes(t: Table, n: nat): (r: Table)
    ensures |r| == |t|
    decreases n
  {
    if n == 0 then t else TickedTimes(TickedAll(t), n - 1)
  }

  lemma {:induction false} TickedOnceMore(t: Table, n: nat)
    ensures TickedTimes(t, n + 1) == TickedAll(TickedTimes(t, n))
    decreases n
  {
    if n > 0 {
      TickedOnceMore(TickedAll(t), n - 1);
    }
  }

  predicate WaitEnds(t: Table, id: int) {
    Waited(t, id) == None ==> t[id].value.remain >= 1
  }

  /** Otherwise the wait never ends, however many ticks come. */
  lemma WaitsForever(t: Table, id: int)
    ensures (forall n: nat :: Waited(TickedTimes(t, n), id) == None) <==> !WaitEnds(t, id)
  {
    if WaitEnds(t, id) {
      if Waited(t, id) == None {
        CountsDown(t, id, t[id].value.remain);
        assert Waited(TickedTimes(t, t[id].value.remain), id) != None;
      } else {
        assert Waited(TickedTimes(t, 0), id) != None;
      }
    } else {
      forall n: nat ensures Waited(TickedTimes(t, n), id) == None {
        NeverReached(t, id, n);
      }
    }
  }

  lemma {:induction false} CountsDown(t: Table, id: int, n: nat)
    requires Waited(t, id) == None && t[id].value.remain == n >= 1
    ensures Waited(TickedTimes(t, n), id) == Some((0, TickedTimes(t, n)[id := None]))
    decreases n
  {
    if n == 1 {
      assert TickedTimes(t, 1) == TickedTimes(TickedAll(t), 0) == TickedAll(t);
    } else {
      CountsDown(TickedAll(t), id, n - 1);
    }
  }

  lemma {:induction false} NeverReached(t: Table, id: int, n: nat)
    requires Waited(t, id) == None && t[id].value.remain <= 0
    ensures Waited(TickedTimes(t, n), id) == None
    decreases n
  {
    if n > 0 {
      NeverReached(TickedAll(t), id, n - 1);
    }
  }

  // ----- Any run of calls and ticks -----

  datatype Op = Add(sec: int, repeat: bool) | Cancel(id: int) | Wait(id: int) | Tick

  /** A wait that would pause changes nothing yet: ticks and further polls of it follow in the run. */
  function Do(t: Table, op: Op): Table {
    match op
    case Add(sec, repeat) => Added(t, sec, repeat).1
    case Cancel(id) => Canceled(t, id).1
    case Wait(id) => (match Waited(t, id) case None => t case Some((_, t')) => t')
    case Tick => TickedAll(t)
  }

  function Logged(t: Table, op: Op): seq<nat> {
    if op.Tick? then Firing(t) else []
  }

  function Run(t: Table, ops: seq<Op>): (r: Table)
    ensures |r| == |t|
    decreases |ops|
  {
    if ops == [] then t else Run(Do(t, ops[0]), ops[1..])
  }

  /** The calls that fire for the job at p, as long as it stays in its place. */
  function FireCount(t: Table, ops: seq<Op>, p: nat): nat
    decreases |ops|
  {
    if ops == [] then 0
    else (if p in Logged(t, ops[0]) then 1 else 0) + FireCount(Do(t, ops[0]), ops[1..], p)
  }

  /** The ticks the job at p sees while running. */
  function RunningTicks(t: Table, ops: seq<Op>, p: nat): nat
    requires p < |t|
    decreases |ops|
  {
    if ops == [] then 0
    else
      (if ops[0].Tick? && t[p].Some? && t[p].value.state.STATE_RUNNING? then 1 else 0)
      + RunningTicks(Do(t, ops[0]), ops[1..], p)
  }

  /** The place is not freed and given to another job in the run. */
  predicate Stays(t: Table, ops: seq<Op>, p: nat)
    requires p < |t|
    decreases |ops|
  {
    t[p].Some? && (ops == [] || Stays(Do(t, ops[0]), ops[1..], p))
  }

  /** A place is fired at most once in a tick, and exactly then when its job's count reaches zero. */
  lemma {:induction false} FiringOnce(t: Table, p: nat)
    ensures multiset(Firing(t))[p] == if p < |t| && Fires(t[p]) then 1 else 0
  {
    if t != [] {
      FiringOnce(t[..|t| - 1], p);
    }
  }

  /** How a job in its place stands after a ticks seen while running and f firings. */
  predicate Standing(j: Job, sec: int, repeat: bool, a: nat, f: nat) {
    && j.sec == sec && j.repeat == repeat
    && if sec >= 1 && repeat then f == a / sec && j.remain == sec - a % sec && !j.state.STATE_OVER?
       else StandingOnce(j, sec, a, f)
  }

  /** The same for a job that does not repeat, or of 0 seconds, which never reaches zero again. */
  predicate StandingOnce(j: Job, sec: int, a: nat, f: nat) {
    if sec == 0 then f == 0 && j.remain + a == 0 && !j.state.STATE_OVER?
    else
      && a <= sec && j.remain == sec - a && f == (if a == sec then 1 else 0)
      && (j.state.STATE_OVER? <==> a == sec)
  }

  /** The same without division: time passed is whole rounds and what is gone of the present one. */
  predicate Counted(j: Job, sec: int, repeat: bool, a: nat, f: nat) {
    && j.sec == sec && j.repeat == repeat
    && if sec >= 1 && repeat then
         1 <= j.remain <= sec && a == Seconds(f, sec) + (sec - j.remain) && !j.state.STATE_OVER?
       else StandingOnce(j, sec, a, f)
  }

  function Seconds(rounds: nat, sec: int): int {
    if rounds == 0 then 0 else sec + Seconds(rounds - 1, sec)
  }

  lemma {:induction false} SecondsProduct(rounds: nat, sec: int)
    ensures Seconds(rounds, sec) == rounds * sec
  {
    if rounds > 0 {
      SecondsProduct(rounds - 1, sec);
      assert rounds * sec == sec + (rounds - 1) * sec;
    }
  }

  lemma CountedIsStanding(j: Job, sec: int, repeat: bool, a: nat, f: nat)
    requires sec >= 0
    ensures Counted(j, sec, repeat, a, f) <==> Standing(j, sec, repeat, a, f)
  {
    if sec >= 1 && repeat {
      SecondsProduct(f, sec);
      if Counted(j, sec, repeat, a, f) {
        DivModUnique(a, sec, f, sec - j.remain);
      }
    }
  }

  lemma CountedStep(t: Table, op: Op, p: nat, sec: int, repeat: bool, a: nat, f: nat)
      returns (t': Table, ticks: nat, fires: nat)
    requires p < |t| && t[p].Some? && Do(t, op)[p].Some? && sec >= 0 && Counted(t[p].value, sec, repeat, a, f)
    ensures t' == Do(t, op) && ticks == (if op.Tick? && t[p].value.state.STATE_RUNNING? then 1 else 0)
    ensures fires == if p in Logged(t, op) then 1 else 0
    ensures Counted(t'[p].value, sec, repeat, a + ticks, f + fires)
  {
    t', ticks := Do(t, op), if op.Tick? && t[p].value.state.STATE_RUNNING? then 1 else 0;
    fires := if p in Logged(t, op) then 1 else 0;
  }

  /** allTicks and allFires are the totals at the end of the run. */
  lemma {:induction false} CountedRun(t: Table, ops: seq<Op>, p: nat, sec: int, repeat: bool, a: nat, f: nat,
                                      allTicks: nat, allFires: nat)
    requires p < |t| && Stays(t, ops, p) && sec >= 0 && t[p].Some? && Counted(t[p].value, sec, repeat, a, f)
    requires allTicks == a + RunningTicks(t, ops, p) && allFires == f + FireCount(t, ops, p)
    ensures Run(t, ops)[p].Some? && Counted(Run(t, ops)[p].value, sec, repeat, allTicks, allFires)
    decreases |ops|
  {
    if ops != [] {
      var t', ticks, fires := CountedStep(t, ops[0], p, sec, repeat, a, f);
      CountedRun(t', ops[1..], p, sec, repeat, a + ticks, f + fires, allTicks, allFires);
    }
  }

  /** However calls and ticks are mixed, ticks seen, firings and time left stay in this relation. */
  lemma StandingRun(t: Table, ops: seq<Op>, p: nat, sec: int, repeat: bool, a: nat, f: nat)
    requires p < |t| && Stays(t, ops, p) && sec >= 0 && t[p].Some? && Standing(t[p].value, sec, repeat, a, f)
    ensures Run(t, ops)[p].Some?
    ensures Standing(Run(t, ops)[p].value, sec, repeat, a + RunningTicks(t, ops, p), f + FireCount(t, ops, p))
  {
    CountedIsStanding(t[p].value, sec, repeat, a, f);
    var ticks, fires := a + RunningTicks(t, ops, p), f + FireCount(t, ops, p);
    CountedRun(t, ops, p, sec, repeat, a, f, ticks, fires);
    var end := Run(t, ops)[p].value;
    assert Standing(end, sec, repeat, ticks, fires) by {
      CountedIsStanding(end, sec, repeat, ticks, fires);
    }
  }

  /** From the moment a job is added until its place is freed, in every run: having seen a ticks while running,
      a repeating job has fired a / sec times with sec - a % sec to go, and a one-shot job fires exactly once,
      at tick sec. A job of 0 seconds never fires. */
  lemma JobLife(t: Table, sec: int, repeat: bool, ops: seq<Op>)
    requires Added(t, sec, repeat).0 >= 0
    requires Stays(Added(t, sec, repeat).1, ops, Added(t, sec, repeat).0)
    ensures var (p, t0) := Added(t, sec, repeat);
      && t[p] == None && Run(t0, ops)[p].Some?
      && Standing(Run(t0, ops)[p].value, sec, repeat, RunningTicks(t0, ops, p), FireCount(t0, ops, p))
  {
    var (p, t0) := Added(t, sec, repeat);
    CountedIsStanding(t0[p].value, sec, repeat, 0, 0);
    StandingRun(t0, ops, p, sec, repeat, 0, 0);
  }

  /** A job canceled or over stays as it is until its place is freed. */
  lemma {:induction false} EndedStays(t: Table, ops: seq<Op>, p: nat)
    requires p < |t| && Stays(t, ops, p) && t[p].Some? && !t[p].value.state.STATE_RUNNING?
    ensures Run(t, ops)[p] == t[p]
    decreases |ops|
  {
    if ops != [] {
      assert Do(t, ops[0])[p].Some?;
      EndedStays(Do(t, ops[0]), ops[1..], p);
    }
  }

  // ----- Canceling -----

  /** A job that does not run sees no tick and never fires, as long as it has its place. */
  lemma {:induction false} EndedSilent(t: Table, ops: seq<Op>, p: nat)
    requires p < |t| && Stays(t, ops, p) && !t[p].value.state.STATE_RUNNING?
    ensures RunningTicks(t, ops, p) == 0 && FireCount(t, ops, p) == 0
    decreases |ops|
  {
    if ops != [] {
      EndedSilent(Do(t, ops[0]), ops[1..], p);
    }
  }

  /** A cancel answers 0 exactly for a running job, and then, in every run that follows, the job sees no tick and
      never fires, and keeps the time it had left. */
  lemma CancelSilences(t: Table, id: int, ops: seq<Op>)
    ensures var (code, r) := Canceled(t, id);
      && (code == 0 <==> 0 <= id < |t| && t[id].Some? && t[id].value.state.STATE_RUNNING?)
      && (code == 0 && Stays(r, ops, id) ==>
            && RunningTicks(r, ops, id) == 0 && FireCount(r, ops, id) == 0
            && Run(r, ops)[id] == Some(t[id].value.(state := STATE_CANCELED)))
  {
    var (code, r) := Canceled(t, id);
    if code == 0 && Stays(r, ops, id) {
      EndedSilent(r, ops, id);
      EndedStays(r, ops, id);
    }
  }

  /** The place a call is about: the place it was given, or for an addition the first free one. */
  predicate About(t: Table, op: Op, p: nat) {
    match op
    case Add(_, _) => p == FreePos(t)
    case Cancel(id) => id == p
    case Wait(id) => id == p
    case Tick => true
  }

  /** A call leaves every other place alone, one that is refused all of them; a place becomes free only by a wait for
      its job, which has ended and does not repeat. */
  lemma CallsLeaveOthers(t: Table, op: Op, p: nat)
    requires p < |t|
    ensures !About(t, op, p) ==> Do(t, op)[p] == t[p]
    ensures op.Add? && Added(t, op.sec, op.repeat).0 < 0 ==> Do(t, op) == t
    ensures op.Cancel? && Canceled(t, op.id).0 < 0 ==> Do(t, op) == t
    ensures op.Wait? && (Waited(t, op.id).Some? ==> Waited(t, op.id).value.0 < 0) ==> Do(t, op) == t
    ensures t[p].Some? && Do(t, op)[p] == None <==>
      op == Wait(p) && t[p].Some? && !t[p].value.repeat && !t[p].value.state.STATE_RUNNING?
  {
  }

  predicate HasJob(t: Table, id: int) {
    0 <= id < |t| && t[id].Some?
  }

  /** What each answer says of the table. */
  lemma AnswersIff(t: Table, id: int, sec: int, repeat: bool)
    ensures var code := Canceled(t, id).0;
      && (code == -EINVAL <==> !HasJob(t, id))
      && (code == -ECANCELED <==> HasJob(t, id) && t[id].value.state == STATE_CANCELED)
      && (code == -EBUSY <==> HasJob(t, id) && t[id].value.state == STATE_OVER)
    ensures Waited(t, id).Some? ==>
      var code := Waited(t, id).value.0;
      (code == -EINVAL <==> !HasJob(t, id)) && (code == -EBUSY <==> HasJob(t, id) && t[id].value.repeat)
    ensures Waited(t, id) == None <==>
      HasJob(t, id) && !t[id].value.repeat && t[id].value.state == STATE_RUNNING
    ensures var code := Added(t, sec, repeat).0;
      && (code == -EINVAL <==> sec < 0)
      && (code == -ENOSPC <==> sec >= 0 && forall p :: 0 <= p < |t| ==> t[p].Some?)
      && (code >= 0 <==> sec >= 0 && exists p :: 0 <= p < |t| && t[p] == None)
  {
  }

  /** The jobs that fire in one tick do so in the order of their places. */
  lemma {:induction false} FiringInOrder(t: Table, i: nat, j: nat)
    requires i < j < |Firing(t)|
    ensures Firing(t)[i] < Firing(t)[j]
  {
    var n := |t| - 1;
    var front := Firing(t[..n]);
    assert front[i] in front;
    if j < |front| {
      FiringInOrder(t[..n], i, j);
    }
  }

  /** The ticks of a run before the job at p is canceled. */
  function TicksBeforeCancel(ops: seq<Op>, p: nat): nat {
    if ops == [] || ops[0] == Cancel(p) then 0
    else (if ops[0].Tick? then 1 else 0) + TicksBeforeCancel(ops[1..], p)
  }

  /** Whatever other calls there are, a running job sees exactly the ticks before it is canceled; one that does not
      repeat and has time left sees no more of them than it has seconds. */
  lemma {:induction false} TicksSeen(t: Table, ops: seq<Op>, p: nat)
    requires p < |t| && Stays(t, ops, p) && t[p].value.state.STATE_RUNNING?
    ensures var j, n := t[p].value, TicksBeforeCancel(ops, p);
      RunningTicks(t, ops, p) == if j.repeat || j.remain <= 0 then n else Min(n, j.remain)
    decreases |ops|
  {
    if ops != [] {
      var op, t' := ops[0], Do(t, ops[0]);
      assert t'[p].Some?;
      CallsLeaveOthers(t, op, p);
      if t'[p].value.state.STATE_RUNNING? {
        TicksSeen(t', ops[1..], p);
      } else {
        EndedSilent(t', ops[1..], p);
      }
    }
  }

  /** So how often a job fires is known from the calls alone: n ticks between its addition and its cancellation, if
      any, make a repeating job fire once for every sec of them, and another once if there are sec of them. */
  lemma FiresExactly(t: Table, sec: int, repeat: bool, ops: seq<Op>)
    requires Added(t, sec, repeat).0 >= 0
    requires Stays(Added(t, sec, repeat).1, ops, Added(t, sec, repeat).0)
    ensures var (p, t0) := Added(t, sec, repeat); var n := TicksBeforeCancel(ops, p);
      FireCount(t0, ops, p) == if sec == 0 then 0 else if repeat then n / sec else if n >= sec then 1 else 0
  {
    JobLife(t, sec, repeat, ops);
    var (p, t0) := Added(t, sec, repeat);
    TicksSeen(t0, ops, p);
  }

  // ----- Repeating jobs are never given back -----

  function Repeaters(t: Table): nat {
    if t == [] then 0 else Repeaters(t[1..]) + if t[0].Some? && t[0].value.repeat then 1 else 0
  }

  /** The additions of repeating jobs that succeed in a run. */
  function RepeatsAdded(t: Table, ops: seq<Op>): nat
    decreases |ops|
  {
    if ops == [] then 0
    else
      (if ops[0].Add? && ops[0].repeat && Added(t, ops[0].sec, true).0 >= 0 then 1 else 0)
      + RepeatsAdded(Do(t, ops[0]), ops[1..])
  }

  lemma {:induction false} RepeatersUpdate(t: Table, p: nat, j: Option<Job>)
    requires p < |t|
    ensures Repeaters(t[p := j]) + (if t[p].Some? && t[p].value.repeat then 1 else 0)
         == Repeaters(t) + if j.Some? && j.value.repeat then 1 else 0
  {
    if p == 0 {
      assert t[0 := j][1..] == t[1..];
    } else {
      assert t[p := j][1..] == t[1..][p - 1 := j];
      RepeatersUpdate(t[1..], p - 1, j);
    }
  }

  lemma {:induction false} RepeatersTicked(t: Table)
    ensures Repeaters(TickedAll(t)) == Repeaters(t) <= |t|
  {
    if t != [] {
      RepeatersTicked(t[1..]);
      assert TickedAll(t)[1..] == TickedAll(t[1..]);
    }
  }

  lemma {:induction false} RepeatsKept(t: Table, ops: seq<Op>)
    ensures Repeaters(Run(t, ops)) == Repeaters(t) + RepeatsAdded(t, ops)
    decreases |ops|
  {
    if ops != [] {
      var op := ops[0];
      if op.Tick? {
        RepeatersTicked(t);
      } else if op.Add? {
        if op.sec >= 0 && FreePos(t) < |t| {
          RepeatersUpdate(t, FreePos(t), Some(Job(STATE_RUNNING, op.sec, op.sec, op.repeat)));
        }
      } else if 0 <= op.id < |t| {
        RepeatersUpdate(t, op.id, Do(t, op)[op.id]);
        assert Do(t, op) == t[op.id := Do(t, op)[op.id]];
      }
      RepeatsKept(Do(t, op), ops[1..]);
    }
  }

  /** Since no wait gives back a repeating job's place, at most as many of them are ever added as there are places. */
  lemma RepeatsBounded(jobMax: nat, ops: seq<Op>)
    ensures RepeatsAdded(seq(jobMax, _ => None), ops) <= jobMax
  {
    var t: Table := seq(jobMax, _ => None);
    RepeatsKept(t, ops);
    RepeatersTicked(Run(t, ops));
    NoRepeaters(t);
  }

  lemma {:induction false} NoRepeaters(t: Table)
    requires forall i :: 0 <= i < |t| ==> t[i] == None
    ensures Repeaters(t) == 0
  {
    if t != [] {
      NoRepeaters(t[1..]);
    }
  }
}
