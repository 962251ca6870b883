/**
  The one-slot task pool as a step system. The producer and any number of workers share num under one mutex
  and one condition variable; a step is one acquisition of the mutex, one stay inside it up to the unlock or
  wait that ends it, or one piece of work outside it. A thread that wakes has to take the mutex again.
 */
module PrimePool {
  import opened Wrappers
  import opened Primes

  /** The producer: waiting for the mutex or inside it, with task i to hand out or with the last task to see
      taken; asleep in that last wait; joining the workers; ended. */
  datatype Main = MainLock(i: int) | MainHold(i: int) | LastLock | LastHold | LastSleep | Joining | Ended

  datatype Worker = Lock | Hold | Sleep | Work(i: int) | Exit

  datatype Owner = Free | ByMain | ByWorker(k: nat)

  /** taken and done log the tasks in the order they were taken and their test ended. */
  datatype State = State(num: int, owner: Owner, main: Main, ws: seq<Worker>, taken: seq<int>, done: seq<int>)

  datatype Action =
    | MainLocks
    | MainRuns(woken: set<nat>)
    | MainJoins
    | WorkerLocks(k: nat)
    | WorkerRuns(k: nat)
    | WorkerEnds(k: nat)
    | Spurious(woken: set<nat>, wakeMain: bool)

  function Start(left: int, right: int, workers: nat): State {
    State(0, Free, if left <= right then MainLock(left) else LastLock, seq(workers, _ => Lock), [], [])
  }

  /** Sleeping workers among the given ones go back to taking the mutex. */
  function Wake(ws: seq<Worker>, woken: set<nat>): (r: seq<Worker>)
    ensures |r| == |ws|
    ensures forall k :: 0 <= k < |ws| ==> r[k] == if ws[k].Sleep? && k in woken then Lock else ws[k]
  {
    seq(|ws|, k requires 0 <= k < |ws| => if ws[k].Sleep? && k in woken then Lock else ws[k])
  }

  function WakeAll(ws: seq<Worker>): (r: seq<Worker>)
    ensures |r| == |ws|
    ensures forall k :: 0 <= k < |ws| ==> r[k] == if ws[k].Sleep? then Lock else ws[k]
  {
    seq(|ws|, k requires 0 <= k < |ws| => if ws[k].Sleep? then Lock else ws[k])
  }

  function WakeMain(m: Main): Main {
    if m.LastSleep? then LastLock else m
  }

  /** pthread_cond_signal wakes at least one of the threads that are waiting. */
  predicate Signalled(ws: seq<Worker>, woken: set<nat>) {
    (exists k :: 0 <= k < |ws| && ws[k].Sleep?) ==> exists k :: 0 <= k < |ws| && ws[k].Sleep? && k in woken
  }

  function Next(s: State, a: Action, right: int): Option<State> {
    match a
    case MainLocks =>
      if s.owner.Free? && s.main.MainLock? then Some(s.(owner := ByMain, main := MainHold(s.main.i)))
      else if s.owner.Free? && s.main.LastLock? then Some(s.(owner := ByMain, main := LastHold))
      else None
    case MainRuns(woken) =>
      if s.main.MainHold? then
        if s.num != 0 then Some(s.(owner := Free, main := MainLock(s.main.i)))
        else if Signalled(s.ws, woken) then
          Some(s.(num := s.main.i, ws := Wake(s.ws, woken), owner := Free,
                  main := if s.main.i + 1 <= right then MainLock(s.main.i + 1) else LastLock))
        else None
      else if s.main.LastHold? then
        if s.num != 0 then Some(s.(owner := Free, main := LastSleep))
        else Some(s.(num := -1, ws := WakeAll(s.ws), owner := Free, main := Joining))
      else None
    case MainJoins =>
      if s.main.Joining? && AllExited(s) then Some(s.(main := Ended)) else None
    case WorkerLocks(k) =>
      if k < |s.ws| && s.ws[k].Lock? && s.owner.Free? then Some(s.(owner := ByWorker(k), ws := s.ws[k := Hold]))
      else None
    case WorkerRuns(k) =>
      if k < |s.ws| && s.ws[k].Hold? then
        if s.num == 0 then Some(s.(owner := Free, ws := s.ws[k := Sleep]))
        else if s.num == -1 then Some(s.(owner := Free, ws := s.ws[k := Exit]))
        else Some(s.(owner := Free, num := 0, taken := s.taken + [s.num], main := WakeMain(s.main),
                     ws := WakeAll(s.ws[k := Work(s.num)])))
      else None
    case WorkerEnds(k) =>
      if k < |s.ws| && s.ws[k].Work? then Some(s.(done := s.done + [s.ws[k].i], ws := s.ws[k := Lock])) else None
    case Spurious(woken, wakeMain) =>
      Some(s.(ws := Wake(s.ws, woken), main := if wakeMain then WakeMain(s.main) else s.main))
  }

  predicate AllExited(s: State) {
    forall k :: 0 <= k < |s.ws| ==> s.ws[k].Exit?
  }

  function Run(s: State, acts: seq<Action>, right: int): Option<State>
    decreases |acts|
  {
    if acts == [] then Some(s)
    else
      match Next(s, acts[0], right)
      case None => None
      case Some(s') => Run(s', acts[1..], right)
  }

  // ----- The invariant -----

  function Range(a: int, b: int): (r: seq<int>)
    ensures forall x :: x in r <==> a <= x < b
    decreases b - a
  {
    if a >= b then [] else Range(a, b - 1) + [b - 1]
  }

  /** The number the producer would hand out next. */
  function Upcoming(s: State, left: int, right: int): int {
    match s.main
    case MainLock(i) => i
    case MainHold(i) => i
    case _ => if left <= right then right + 1 else left
  }

  function Testing(w: Worker, x: int): nat {
    if w == Work(x) then 1 else 0
  }

  /** How many workers are testing x. */
  function Busy(ws: seq<Worker>, x: int): nat {
    if ws == [] then 0 else Testing(ws[0], x) + Busy(ws[1..], x)
  }

  predicate Awake(w: Worker) {
    !w.Sleep? && !w.Exit?
  }

  ghost predicate MutexHeld(s: State) {
    && (s.owner.ByMain? <==> s.main.MainHold? || s.main.LastHold?)
    && (forall k :: 0 <= k < |s.ws| ==> (s.ws[k].Hold? <==> s.owner == ByWorker(k)))
    && (s.owner.ByWorker? ==> s.owner.k < |s.ws|)
  }

  ghost predicate TasksInOrder(s: State, left: int, right: int) {
    && left <= Upcoming(s, left, right)
    && (s.main.MainLock? || s.main.MainHold? ==> s.main.i <= right)
    && s.taken + (if s.num > 0 then [s.num] else []) == Range(left, Upcoming(s, left, right))
    && Accounted(s)
  }

  /** Every task taken was either tested or is with exactly as many workers as took it. */
  ghost predicate Accounted(s: State) {
    forall x :: multiset(s.taken)[x] == multiset(s.done)[x] + Busy(s.ws, x)
  }

  ghost predicate NothingLost(s: State) {
    && s.num >= -1
    && (s.num == -1 <==> s.main.Joining? || s.main.Ended?)
    && (s.num > 0 && s.ws != [] ==> exists k :: 0 <= k < |s.ws| && Awake(s.ws[k]))
    && (s.main.LastSleep? ==> s.num > 0)
    && (forall k :: 0 <= k < |s.ws| ==> if s.num == -1 then !s.ws[k].Sleep? else !s.ws[k].Exit?)
    && (s.main.Ended? ==> AllExited(s))
  }

  ghost predicate Inv(s: State, left: int, right: int) {
    MutexHeld(s) && TasksInOrder(s, left, right) && NothingLost(s)
  }

  lemma {:induction false} BusyUpdate(ws: seq<Worker>, k: nat, w: Worker, x: int)
    requires k < |ws|
    ensures Busy(ws[k := w], x) + Testing(ws[k], x) == Busy(ws, x) + Testing(w, x)
  {
    if k == 0 {
      assert ws[0 := w][1..] == ws[1..];
    } else {
      assert ws[k := w][1..] == ws[1..][k - 1 := w];
      BusyUpdate(ws[1..], k - 1, w, x);
    }
  }

  lemma {:induction false} BusySame(ws: seq<Worker>, us: seq<Worker>, x: int)
    requires |ws| == |us|
    requires forall k :: 0 <= k < |ws| ==> ws[k] == us[k] || (!ws[k].Work? && !us[k].Work?)
    ensures Busy(ws, x) == Busy(us, x)
  {
    if ws != [] {
      BusySame(ws[1..], us[1..], x);
    }
  }

  lemma StartInv(left: int, right: int, workers: nat)
    requires left >= 1
    ensures Inv(Start(left, right, workers), left, right)
  {
    forall x ensures Busy(Start(left, right, workers).ws, x) == 0 {
      NoneBusy(Start(left, right, workers).ws, x);
    }
  }

  lemma {:induction false} NoneBusy(ws: seq<Worker>, x: int)
    requires forall k :: 0 <= k < |ws| ==> !ws[k].Work?
    ensures Busy(ws, x) == 0
  {
    if ws != [] {
      NoneBusy(ws[1..], x);
    }
  }

  lemma NextMutex(s: State, a: Action, left: int, right: int)
    requires Inv(s, left, right) && Next(s, a, right).Some?
    ensures MutexHeld(Next(s, a, right).value)
  {
  }

  lemma NextNothingLost(s: State, a: Action, left: int, right: int)
    requires left >= 1 && Inv(s, left, right) && Next(s, a, right).Some?
    ensures NothingLost(Next(s, a, right).value)
  {
    var t := Next(s, a, right).value;
    if a.WorkerLocks? || a.WorkerEnds? {
      assert Awake(t.ws[a.k]);
    } else if a.MainRuns? && s.main.MainHold? && s.num == 0 && s.ws != [] {
      if forall k :: 0 <= k < |s.ws| ==> !s.ws[k].Sleep? {
        assert Awake(t.ws[0]);
      } else {
        var k :| 0 <= k < |s.ws| && s.ws[k].Sleep? && k in a.woken;
        assert Awake(t.ws[k]);
      }
    } else if s.num > 0 && s.ws != [] {
      var k :| 0 <= k < |s.ws| && Awake(s.ws[k]);
      assert t.num > 0 ==> Awake(t.ws[k]);
    }
  }

  lemma NextAccounted(s: State, a: Action, left: int, right: int)
    requires left >= 1 && Inv(s, left, right) && Next(s, a, right).Some?
    ensures Accounted(Next(s, a, right).value)
  {
    if !a.WorkerLocks? && !a.WorkerRuns? && !a.WorkerEnds? {
      var t := Next(s, a, right).value;
      forall x ensures multiset(t.taken)[x] == multiset(t.done)[x] + Busy(t.ws, x) {
        assert multiset(s.taken)[x] == multiset(s.done)[x] + Busy(s.ws, x);
        BusySame(s.ws, t.ws, x);
      }
    } else {
      WorkerAccounted(s, a, left, right);
    }
  }

  lemma WorkerAccounted(s: State, a: Action, left: int, right: int)
    requires left >= 1 && Inv(s, left, right) && Next(s, a, right).Some?
    requires a.WorkerLocks? || a.WorkerRuns? || a.WorkerEnds?
    ensures Accounted(Next(s, a, right).value)
  {
    var t := Next(s, a, right).value;
    var w := if a.WorkerLocks? then Hold else if a.WorkerEnds? then Lock
      else if s.num == 0 then Sleep else if s.num == -1 then Exit else Work(s.num);
    forall x ensures multiset(t.taken)[x] == multiset(t.done)[x] + Busy(t.ws, x) {
      assert multiset(s.taken)[x] == multiset(s.done)[x] + Busy(s.ws, x);
      BusyUpdate(s.ws, a.k, w, x);
      BusySame(s.ws[a.k := w], t.ws, x);
    }
  }

  lemma NextTasks(s: State, a: Action, left: int, right: int)
    requires left >= 1 && Inv(s, left, right) && Next(s, a, right).Some?
    ensures TasksInOrder(Next(s, a, right).value, left, right)
  {
    NextAccounted(s, a, left, right);
    var t := Next(s, a, right).value;
    assert s.taken + [] == s.taken && t.taken + [] == t.taken;
  }

  /** Every step of every interleaving keeps the invariant. */
  lemma NextInv(s: State, a: Action, left: int, right: int)
    requires left >= 1 && Inv(s, left, right) && Next(s, a, right).Some?
    ensures Inv(Next(s, a, right).value, left, right)
  {
    NextMutex(s, a, left, right);
    NextTasks(s, a, left, right);
    NextNothingLost(s, a, left, right);
  }

  lemma {:induction false} RunInv(s: State, acts: seq<Action>, left: int, right: int)
    requires left >= 1 && Inv(s, left, right)
    ensures Run(s, acts, right).Some? ==> Inv(Run(s, acts, right).value, left, right)
    decreases |acts|
  {
    if acts != [] && Next(s, acts[0], right).Some? {
      NextInv(s, acts[0], left, right);
      RunInv(Next(s, acts[0], right).value, acts[1..], left, right);
    }
  }

  /** Whoever takes a task, and the producer with its last message, leaves nobody asleep; no step puts to sleep
      anybody but the thread that makes it, and that one only with nothing to take, or the last task not taken yet. */
  lemma OnlyWaitersSleep(s: State, a: Action, right: int)
    requires Next(s, a, right).Some?
    ensures var r := Next(s, a, right).value;
      && |r.ws| == |s.ws|
      && (|r.taken| > |s.taken| || (r.main.Joining? && !s.main.Joining?) ==>
            !r.main.LastSleep? && forall k :: 0 <= k < |r.ws| ==> !r.ws[k].Sleep?)
      && (forall k :: 0 <= k < |s.ws| && r.ws[k].Sleep? && !s.ws[k].Sleep? ==> a == WorkerRuns(k) && s.num == 0)
      && (r.main.LastSleep? && !s.main.LastSleep? ==> a.MainRuns? && s.num != 0)
  {
  }

  // ----- What a whole run does -----

  lemma RangeOnce(a: int, b: int, x: int)
    ensures multiset(Range(a, b))[x] == if a <= x < b then 1 else 0
    decreases b - a
  {
    if a < b {
      RangeOnce(a, b - 1, x);
    }
  }

  /** At any moment of any run the tasks taken, and after them the one in the slot, are the first ones in order. */
  lemma TakenInOrder(acts: seq<Action>, left: int, right: int, workers: nat)
    requires left >= 1 && Run(Start(left, right, workers), acts, right).Some?
    ensures var s := Run(Start(left, right, workers), acts, right).value;
      s.taken + (if s.num > 0 then [s.num] else []) == Range(left, Upcoming(s, left, right))
  {
    StartInv(left, right, workers);
    RunInv(Start(left, right, workers), acts, left, right);
  }

  /** No wake-up is lost: while a task waits in the slot, some worker is neither asleep nor gone. */
  lemma NoLostWakeUp(acts: seq<Action>, left: int, right: int, workers: nat)
    requires left >= 1 && workers >= 1 && Run(Start(left, right, workers), acts, right).Some?
    requires Run(Start(left, right, workers), acts, right).value.num > 0
    ensures var s := Run(Start(left, right, workers), acts, right).value;
      |s.ws| == workers && exists k :: 0 <= k < |s.ws| && Awake(s.ws[k])
  {
    StartInv(left, right, workers);
    RunInv(Start(left, right, workers), acts, left, right);
    RunWorkers(Start(left, right, workers), acts, right);
  }

  lemma {:induction false} RunWorkers(s: State, acts: seq<Action>, right: int)
    ensures Run(s, acts, right).Some? ==> |Run(s, acts, right).value.ws| == |s.ws|
    decreases |acts|
  {
    if acts != [] && Next(s, acts[0], right).Some? {
      RunWorkers(Next(s, acts[0], right).value, acts[1..], right);
    }
  }

  /** The numbers printed, in the order their tests ended. */
  ghost function Printed(done: seq<int>): seq<int> {
    if done == [] then []
    else
      var n := |done| - 1;
      Printed(done[..n]) + if done[n] >= 0 && Marked(done[n]) then [done[n]] else []
  }

  lemma {:induction false} PrintedOnce(done: seq<int>, x: int)
    ensures multiset(Printed(done))[x] == if x >= 0 && Marked(x) then multiset(done)[x] else 0
  {
    if done != [] {
      var n := |done| - 1;
      PrintedOnce(done[..n], x);
      assert done == done[..n] + [done[n]];
    }
  }

  /** When all workers have exited, every number of the range has been through trial division exactly once. */
  lemma EachTestedOnce(acts: seq<Action>, left: int, right: int, workers: nat)
    requires left >= 1 && workers >= 1 && Run(Start(left, right, workers), acts, right).Some?
    requires AllExited(Run(Start(left, right, workers), acts, right).value)
    ensures var s := Run(Start(left, right, workers), acts, right).value;
      forall x :: multiset(s.done)[x] == if left <= x <= right then 1 else 0
  {
    StartInv(left, right, workers);
    RunInv(Start(left, right, workers), acts, left, right);
    RunWorkers(Start(left, right, workers), acts, right);
    var s := Run(Start(left, right, workers), acts, right).value;
    assert s.ws[0].Exit?;
    assert s.taken + [] == s.taken;
    forall x ensures multiset(s.done)[x] == if left <= x <= right then 1 else 0 {
      NoneBusy(s.ws, x);
      RangeOnce(left, Upcoming(s, left, right), x);
    }
  }

  /** What is printed in the end is exactly the primes of the range, each once,
      just in case neither 1 nor 4 is among the tasks. */
  lemma PrintsThePrimes(acts: seq<Action>, left: int, right: int, workers: nat)
    requires left >= 1 && workers >= 1 && Run(Start(left, right, workers), acts, right).Some?
    requires AllExited(Run(Start(left, right, workers), acts, right).value)
    ensures var printed := Printed(Run(Start(left, right, workers), acts, right).value.done);
      (forall x :: multiset(printed)[x] == if left <= x <= right && Prime(x) then 1 else 0)
      <==> !(left <= 1 <= right) && !(left <= 4 <= right)
  {
    EachTestedOnce(acts, left, right, workers);
    var done := Run(Start(left, right, workers), acts, right).value.done;
    forall x
      ensures multiset(Printed(done))[x] == if left <= x <= right && Marked(x) then 1 else 0
      ensures x >= 1 ==> ((Marked(x) <==> Prime(x)) <==> x != 1 && x != 4)
    {
      PrintedOnce(done, x);
      if x >= 1 {
        MarkedExact(x);
      }
    }
    assert left <= 1 <= right ==> multiset(Printed(done))[1] == 1 && !Prime(1);
    assert left <= 4 <= right ==> multiset(Printed(done))[4] == 1 && !Prime(4) by {
      MarkedExact(4);
      assert 4 % 2 == 0;
    }
  }

  // ----- Every run can be completed -----

  function Weight(w: Worker): nat {
    match w
    case Lock => 2
    case Hold => 1
    case Sleep => 0
    case Work(_) => 3
    case Exit => 0
  }

  function Weights(ws: seq<Worker>): nat {
    if ws == [] then 0 else Weight(ws[0]) + Weights(ws[1..])
  }

  lemma {:induction false} WeightsUpdate(ws: seq<Worker>, k: nat, w: Worker)
    requires k < |ws|
    ensures Weights(ws[k := w]) + Weight(ws[k]) == Weights(ws) + Weight(w)
  {
    if k == 0 {
      assert ws[0 := w][1..] == ws[1..];
    } else {
      assert ws[k := w][1..] == ws[1..][k - 1 := w];
      WeightsUpdate(ws[1..], k - 1, w);
    }
  }

  lemma {:induction false} WakingWeighs(ws: seq<Worker>, us: seq<Worker>)
    requires |ws| == |us|
    requires forall k :: 0 <= k < |ws| ==> us[k] == ws[k] || (ws[k].Sleep? && us[k].Lock?)
    ensures Weights(us) <= Weights(ws) + 2 * |ws|
  {
    if ws != [] {
      WakingWeighs(ws[1..], us[1..]);
    }
  }

  /** What is still to be done, counted so that one well chosen step always lowers it. */
  function Rank(s: State, right: int): nat {
    var n := |s.ws|;
    var slot := if s.num > 0 then 2 * n + 5 else 0;
    var main := match s.main
      case MainLock(i) => Tasks(i, right, n) + 2 * n + 4
      case MainHold(i) => Tasks(i, right, n) + 2 * n + if s.num > 0 then 5 else 3
      case LastLock => 2 * n + 4
      case LastHold => 2 * n + 3
      case LastSleep => 2 * n + 2
      case Joining => 1
      case Ended => 0;
    Weights(s.ws) + slot + main
  }

  function Tasks(i: int, right: int, n: nat): nat {
    if i <= right then (right + 1 - i) * (4 * n + 8) else 0
  }

  lemma TasksStep(i: int, right: int, n: nat)
    requires i <= right
    ensures Tasks(i, right, n) == Tasks(i + 1, right, n) + 4 * n + 8
  {
    var c := 4 * n + 8;
    assert (right + 1 - i) * c == (right - i) * c + c;
  }

  /** In every reachable state but the last some step is possible that lowers the rank. */
  lemma GoodStep(s: State, left: int, right: int) returns (a: Action)
    requires left >= 1 && Inv(s, left, right) && s.ws != [] && !s.main.Ended?
    ensures Next(s, a, right).Some? && Rank(Next(s, a, right).value, right) < Rank(s, right)
  {
    if s.owner.ByMain? {
      a := MainStep(s, left, right);
    } else if k: nat :| k < |s.ws| && (s.ws[k].Hold? || s.ws[k].Work? || (s.ws[k].Lock? && s.owner.Free?)) {
      a := WorkerStep(s, k, left, right);
    } else {
      // Nobody is inside or at work: all workers are asleep or gone.
      if s.num == -1 {
        assert AllExited(s);
        a := MainJoins;
      } else {
        a := MainLocks;
      }
    }
  }

  lemma MainStep(s: State, left: int, right: int) returns (a: Action)
    requires left >= 1 && Inv(s, left, right) && s.ws != [] && s.owner.ByMain?
    ensures Next(s, a, right).Some? && Rank(Next(s, a, right).value, right) < Rank(s, right)
  {
    var all := SleepersOf(s.ws);
    a := MainRuns(all);
    var t := Next(s, a, right).value;
    WakingWeighs(s.ws, t.ws);
    if s.main.MainHold? {
      TasksStep(s.main.i, right, |s.ws|);
    }
  }

  lemma SleepersOf(ws: seq<Worker>) returns (all: set<nat>)
    ensures Signalled(ws, all)
  {
    if k: nat :| k < |ws| && ws[k].Sleep? {
      all := {k};
    } else {
      all := {};
    }
  }

  lemma WorkerStep(s: State, k: nat, left: int, right: int) returns (a: Action)
    requires left >= 1 && Inv(s, left, right) && k < |s.ws|
    requires s.ws[k].Hold? || s.ws[k].Work? || (s.ws[k].Lock? && s.owner.Free?)
    ensures Next(s, a, right).Some? && Rank(Next(s, a, right).value, right) < Rank(s, right)
  {
    if s.ws[k].Work? {
      a := WorkerEnds(k);
      WeightsUpdate(s.ws, k, Lock);
    } else if s.ws[k].Lock? {
      a := WorkerLocks(k);
      WeightsUpdate(s.ws, k, Hold);
    } else {
      a := WorkerRuns(k);
      if s.num > 0 {
        WeightsUpdate(s.ws, k, Work(s.num));
        WakingWeighs(s.ws[k := Work(s.num)], WakeAll(s.ws[k := Work(s.num)]));
      } else {
        WeightsUpdate(s.ws, k, if s.num == 0 then Sleep else Exit);
      }
    }
  }

  /** No reachable state is stuck: with at least one worker, every run can be continued
      until all workers have exited and the producer has joined them. */
  lemma {:induction false} CanFinish(s: State, left: int, right: int) returns (acts: seq<Action>)
    requires left >= 1 && Inv(s, left, right) && s.ws != []
    ensures var r := Run(s, acts, right); r.Some? && r.value.main.Ended? && AllExited(r.value)
    decreases Rank(s, right)
  {
    if s.main.Ended? {
      acts := [];
    } else {
      var a := GoodStep(s, left, right);
      var t := Next(s, a, right).value;
      NextInv(s, a, left, right);
      NextWorkers(s, a, right);
      var rest := CanFinish(t, left, right);
      acts := [a] + rest;
      RunOn(s, a, rest, right);
    }
  }

  lemma NextWorkers(s: State, a: Action, right: int)
    ensures Next(s, a, right).Some? ==> |Next(s, a, right).value.ws| == |s.ws|
  {
  }

  lemma RunOn(s: State, a: Action, rest: seq<Action>, right: int)
    requires Next(s, a, right).Some?
    ensures Run(s, [a] + rest, right) == Run(Next(s, a, right).value, rest, right)
  {
    assert ([a] + rest)[1..] == rest;
  }
}
