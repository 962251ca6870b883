/** The ball clock as the source runs it: a ring queue and three array stacks, minute after minute. */
module ClockMachine {
  import opened Wrappers
  import opened Counting
  import opened ArrayStack
  import opened RingQueue
  import opened BallClock

  class Machine {
    const qu: Queue
    const stMin: SqStack<int>
    const stFive: SqStack<int>
    const stHour: SqStack<int>

    /** No two of the containers share anything, and the stacks can hold 11. */
    ghost predicate Apart()
      reads this, qu, stMin, stFive, stHour, qu.data, stMin.data, stFive.data, stHour.data
    {
      && stMin != stFive && stMin != stHour && stFive != stHour
      && qu.data != stMin.data && qu.data != stFive.data && qu.data != stHour.data
      && stMin.data != stFive.data && stMin.data != stHour.data && stFive.data != stHour.data
      && qu.Valid() && stMin.Valid() && stFive.Valid() && stHour.Valid()
      && stMin.data.Length >= 11 && stFive.data.Length >= 11 && stHour.data.Length >= 11
    }

    /** n balls, at least 27, in a larger ring. */
    ghost predicate Valid(n: nat)
      reads this, qu, stMin, stFive, stHour, qu.data, stMin.data, stFive.data, stHour.data
    {
      Apart() && n >= 27 && n < qu.data.Length && BallClock.Valid(View(), n)
    }

    ghost function View(): Clock
      requires qu.Valid() && stMin.Valid() && stFive.Valid() && stHour.Valid()
      reads this, qu, stMin, stFive, stHour, qu.data, stMin.data, stFive.data, stHour.data
    {
      Clock(qu.Contents(), stMin.Contents(), stFive.Contents(), stHour.Contents())
    }

    /** The balls 1 to n are put in the queue in order. */
    constructor (n: nat, maxSize: nat, size: nat)
      requires n >= 27 && n < maxSize && size >= 11
      ensures Valid(n) && View() == AllIn(Numbered(n)) && qu.data.Length == maxSize && qu.head == 0
      ensures fresh(qu) && fresh(stMin) && fresh(stFive) && fresh(stHour)
      ensures fresh(qu.data) && fresh(stMin.data) && fresh(stFive.data) && fresh(stHour.data)
    {
      var q := new Queue(maxSize);
      Fill(q, n);
      var a := new SqStack<int>(size);
      var b := new SqStack<int>(size);
      var c := new SqStack<int>(size);
      qu, stMin, stFive, stHour := q, a, b, c;
      new;
      assert View() == AllIn(Numbered(n));
    }

    static method Fill(q: Queue, n: nat)
      requires q.Valid() && q.Contents() == [] && n < q.data.Length
      modifies q`tail, q.data
      ensures q.Valid() && q.Contents() == Numbered(n)
    {
      for i := 1 to n + 1
        invariant q.Valid() && q.Contents() == Numbered(i - 1)
      {
        var code := q.Enqueue(i);
        NumberedOneMore(i - 1);
      }
    }

    /** Empty a stack into the queue, top first. No enqueue finds the ring full. */
    method Spill(st: SqStack<int>)
      requires qu.Valid() && st.Valid() && qu.data != st.data
      requires |qu.Contents()| + |st.Contents()| < qu.data.Length
      modifies qu`tail, qu.data, st`top
      ensures qu.Valid() && st.Valid() && st.Contents() == []
      ensures qu.Contents() == old(qu.Contents()) + Reverse(old(st.Contents()))
      ensures qu.data[qu.head] == old(qu.data[qu.head])
    {
      ghost var goal, q, s := qu.Contents() + Reverse(st.Contents()), qu.Contents(), st.Contents();
      var empty := st.IsEmpty();
      while !empty
        invariant qu.Valid() && st.Valid() && qu.Contents() == q && st.Contents() == s
        invariant qu.data[qu.head] == old(qu.data[qu.head])
        invariant |q| + |s| < qu.data.Length && q + Reverse(s) == goal && (empty <==> s == [])
        decreases |s|
      {
        SpillOne(st);
        SpillStep(q, s);
        q, s := q + [s[|s| - 1]], s[..|s| - 1];
        empty := st.IsEmpty();
      }
    }

    method SpillOne(st: SqStack<int>)
      requires qu.Valid() && st.Valid() && qu.data != st.data && st.Contents() != []
      requires |qu.Contents()| < qu.data.Length - 1
      modifies qu`tail, qu.data, st`top
      ensures qu.Valid() && st.Valid()
      ensures var s := old(st.Contents());
        qu.Contents() == old(qu.Contents()) + [s[|s| - 1]] && st.Contents() == s[..|s| - 1]
      ensures qu.data[qu.head] == old(qu.data[qu.head])
    {
      var value := st.Pop();
      var code := qu.Enqueue(value.value);
    }

    /** One pass of the program's loop up to its check; tells whether the check is reached, which is when all
        balls are in the queue. No dequeue, enqueue or push fails. */
    method Advance(ghost n: nat) returns (allIn: bool)
      requires Valid(n)
      modifies qu, qu.data, stMin, stMin.data, stFive, stFive.data, stHour, stHour.data
      ensures Valid(n) && View() == Tick(old(View())) && (allIn <==> Minutes(View()) == 0)
      ensures qu.head == SlotOf(old(qu.head), 0, qu.data.Length)
      ensures allIn ==> qu.data[qu.head] == View().q[n - 1]
    {
      ghost var c := View();
      TickKeeps(c, n);
      var t := qu.Dequeue();
      if stMin.top != 3 {
        var code := stMin.Push(t.value);
        assert View() == c.(q := c.q[1..], min := c.min + [t.value]);
        return false;
      }
      Spill(stMin);
      allIn := CarryFive(t.value, Clock(c.q[1..] + Reverse(c.min), [], c.five, c.hour), n);
    }

    /** The five-minute stack takes the ball that made the minute stack spill. */
    method CarryFive(t: int, ghost c: Clock, ghost n: nat) returns (allIn: bool)
      requires Apart() && View() == c && BallClock.Valid(c.(q := c.q + [t]), n) && n >= 27 && n < qu.data.Length
      modifies qu`tail, qu.data, stFive, stFive.data, stHour, stHour.data
      ensures Apart() && View() == Carried(t, c) && qu.data[qu.head] == old(qu.data[qu.head])
      ensures allIn <==> |c.five| == 11 && |c.hour| == 11
    {
      if stFive.top != 10 {
        var code := stFive.Push(t);
        return false;
      }
      Spill(stFive);
      allIn := CarryHour(t, c.(q := c.q + Reverse(c.five), five := []), n);
    }

    /** The same for an hour's ball, with the five-minute stack just emptied. */
    method CarryHour(t: int, ghost c: Clock, ghost n: nat) returns (allIn: bool)
      requires Apart() && View() == c && BallClock.Valid(c.(q := c.q + [t]), n) && n >= 27 && n < qu.data.Length
      modifies qu`tail, qu.data, stHour, stHour.data
      ensures Apart() && qu.data[qu.head] == old(qu.data[qu.head])
      ensures View() == if |c.hour| != 11 then c.(hour := c.hour + [t])
                        else c.(q := c.q + Reverse(c.hour) + [t], hour := [])
      ensures allIn <==> |c.hour| == 11
    {
      if stHour.top != 10 {
        var code := stHour.Push(t);
        return false;
      }
      Spill(stHour);
      var code := qu.Enqueue(t);
      allIn := true;
    }

    /** One pass of the program's loop; tells whether it would leave the loop. */
    method Minute(ghost n: nat) returns (done: bool)
      requires Valid(n)
      modifies qu, qu.data, stMin, stMin.data, stFive, stFive.data, stHour, stHour.data
      ensures Valid(n) && View() == Tick(old(View()))
      ensures done <==> Minutes(View()) == 0 && Ascending(View().q)
    {
      done := Advance(n);
      if done {
        done := qu.Check();
      }
    }

    /** The same with the check as the source has it. */
    method MinuteAsWritten(ghost n: nat) returns (done: bool)
      requires Valid(n)
      modifies qu, qu.data, stMin, stMin.data, stFive, stFive.data, stHour, stHour.data
      ensures Valid(n) && View() == Tick(old(View())) && qu.head == SlotOf(old(qu.head), 0, qu.data.Length)
      ensures Minutes(View()) == 0 ==> qu.data[qu.head] == View().q[n - 1]
      ensures done <==> Minutes(View()) == 0 && PassesAsWritten(qu.data[..], qu.head, n)
    {
      done := Advance(n);
      if done {
        done := qu.CheckAsWritten();
      }
    }

    /** The loop of the program. It always ends, after the least positive number k of half days
        that brings the starting order back, and the minutes counted are exactly those. */
    method Run(n: nat) returns (time: nat, ghost k: nat)
      requires Valid(n) && View() == AllIn(Numbered(n))
      modifies qu, qu.data, stMin, stMin.data, stFive, stFive.data, stHour, stHour.data
      ensures k >= 1 && time == 720 * k
      ensures HalfDays(Numbered(n), k) == Numbered(n)
      ensures forall j :: 1 <= j < k ==> HalfDays(Numbered(n), j) != Numbered(n)
      ensures Valid(n) && View() == AllIn(Numbered(n))
    {
      ghost var last := OrderReturns(Numbered(n));
      ghost var c := View();
      time, k := 0, 0;
      while true
        invariant Valid(n) && View() == c && OnTheWay(c, n, time, k) && k < last
        decreases last - k, 720 * (k + 1) - time
      {
        MinuteOfRun(c, n, time, k);
        var done := Minute(n);
        time, c := time + 1, Tick(c);
        k := if Minutes(c) == 0 then k + 1 else k;
        if done {
          break;
        }
      }
    }
  }

  /** Some minutes into the run, with k half days complete, none of which gave the starting order. */
  ghost predicate OnTheWay(c: Clock, n: nat, time: nat, k: nat) {
    && n >= 27 && c == After(AllIn(Numbered(n)), n, time)
    && 720 * k <= time < 720 * (k + 1)
    && forall j :: 1 <= j <= k ==> HalfDays(Numbered(n), j) != Numbered(n)
  }

  /** The next minute: inside half day k + 1, or at its end, where the order ascends just if it is the starting one. */
  lemma MinuteOfRun(c: Clock, n: nat, time: nat, k: nat)
    requires OnTheWay(c, n, time, k)
    ensures c.q != []
    ensures Minutes(Tick(c)) != 0 ==> OnTheWay(Tick(c), n, time + 1, k)
    ensures Minutes(Tick(c)) == 0 ==>
      time + 1 == 720 * (k + 1) && Tick(c) == AllIn(HalfDays(Numbered(n), k + 1))
    ensures Minutes(Tick(c)) == 0 && Ascending(Tick(c).q) ==> HalfDays(Numbered(n), k + 1) == Numbered(n)
    ensures Minutes(Tick(c)) == 0 && !Ascending(Tick(c).q) ==> OnTheWay(Tick(c), n, time + 1, k + 1)
  {
    NextMinute(c, n, time, k);
    var d, days := Tick(c), HalfDays(Numbered(n), k + 1);
    if Minutes(d) == 0 {
      EndOfHalfDay(n, k + 1);
      assert d == AllIn(days);
    }
  }

  lemma NextMinute(c: Clock, n: nat, time: nat, k: nat)
    requires n >= 27 && c == After(AllIn(Numbered(n)), n, time) && 720 * k <= time < 720 * (k + 1)
    ensures c.q != [] && Tick(c) == After(AllIn(Numbered(n)), n, time + 1)
    ensures Minutes(Tick(c)) == 0 <==> time + 1 == 720 * (k + 1)
  {
    var start := AllIn(Numbered(n));
    AfterOneMore(start, n, time);
    AfterKeeps(start, n, time + 1);
    assert Minutes(start) == 0;
    RemainderZero(time + 1, k);
  }

  lemma RemainderZero(time: nat, k: nat)
    requires 720 * k < time <= 720 * (k + 1)
    ensures time % TwelveHours() == 0 <==> time == 720 * (k + 1)
  {
  }

  lemma EndOfHalfDay(n: nat, k: nat)
    requires n >= 27
    ensures After(AllIn(Numbered(n)), n, 720 * k) == AllIn(HalfDays(Numbered(n), k))
    ensures Ascending(HalfDays(Numbered(n), k)) <==> HalfDays(Numbered(n), k) == Numbered(n)
  {
    HalfDaysKeep(Numbered(n), k);
    AscendingIsStart(HalfDays(Numbered(n), k), n);
  }

  lemma SpillStep(q: seq<int>, s: seq<int>)
    requires s != []
    ensures q + Reverse(s) == (q + [s[|s| - 1]]) + Reverse(s[..|s| - 1])
  {
    Regrouped(q, s[|s| - 1], Reverse(s[..|s| - 1]));
  }

  lemma Regrouped(q: seq<int>, x: int, r: seq<int>)
    ensures q + ([x] + r) == (q + [x]) + r
  {
  }

  lemma NumberedOneMore(n: nat)
    ensures Numbered(n + 1) == Numbered(n) + [n + 1]
  {
  }
}
