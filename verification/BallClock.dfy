/**
  The ball clock on values: one minute, twelve hours, and why the starting order comes back.
  Stacks are written bottom first.
 */
module BallClock {
  import opened Counting

  datatype Clock = Clock(q: seq<int>, min: seq<int>, five: seq<int>, hour: seq<int>)

  function Reverse(s: seq<int>): (r: seq<int>)
    ensures |r| == |s|
  {
    if s == [] then [] else [s[|s| - 1]] + Reverse(s[..|s| - 1])
  }

  /** One minute. A stack that is already full is emptied into the queue and the ball goes one stack up. */
  function Tick(c: Clock): Clock
    requires c.q != []
  {
    var t, q1 := c.q[0], c.q[1..];
    if |c.min| != 4 then c.(q := q1, min := c.min + [t])
    else Carried(t, Clock(q1 + Reverse(c.min), [], c.five, c.hour))
  }

  /** The minute stack has spilled and t goes up. */
  function Carried(t: int, c: Clock): Clock {
    if |c.five| != 11 then c.(five := c.five + [t])
    else
      var q := c.q + Reverse(c.five);
      if |c.hour| != 11 then c.(q := q, five := [], hour := c.hour + [t])
      else c.(q := q + Reverse(c.hour) + [t], five := [], hour := [])
  }

  predicate Valid(c: Clock, n: nat) {
    && |c.q| + |c.min| + |c.five| + |c.hour| == n
    && |c.min| <= 4 && |c.five| <= 11 && |c.hour| <= 11
  }

  /** The minutes since the stacks were last all empty. */
  function Minutes(c: Clock): nat {
    |c.min| + 5 * |c.five| + 60 * |c.hour|
  }

  ghost function Balls(c: Clock): multiset<int> {
    multiset(c.q) + multiset(c.min) + multiset(c.five) + multiset(c.hour)
  }

  lemma {:induction false} ReverseBalls(s: seq<int>)
    ensures multiset(Reverse(s)) == multiset(s)
  {
    if s != [] {
      ReverseBalls(s[..|s| - 1]);
      assert s == s[..|s| - 1] + [s[|s| - 1]];
    }
  }

  /** With 27 balls or more the queue is never empty, and every minute keeps the stacks
      within 4, 11 and 11 and counts modulo twelve hours. */
  lemma TickKeeps(c: Clock, n: nat)
    requires n >= 27 && Valid(c, n)
    ensures c.q != [] && Valid(Tick(c), n)
    ensures Minutes(Tick(c)) == (Minutes(c) + 1) % TwelveHours()
  {
    assert Minutes(c) <= 719;
  }

  function TwelveHours(): nat {
    12 * 60
  }

  /** No ball is lost, copied or changed in a minute. */
  lemma TickKeepsBalls(c: Clock)
    requires c.q != []
    ensures Balls(Tick(c)) == Balls(c)
  {
    var t, q1 := c.q[0], c.q[1..];
    assert multiset(c.q) == multiset{t} + multiset(q1) by {
      assert c.q == [t] + q1;
    }
    ReverseBalls(c.min);
    ReverseBalls(c.five);
    ReverseBalls(c.hour);
    var T, Q, M, F, H := multiset{t}, multiset(q1), multiset(c.min), multiset(c.five), multiset(c.hour);
    Regroup(T, Q, M, F, H);
    if |c.min| != 4 {
      assert multiset(c.min + [t]) == M + T;
    } else {
      var q2 := q1 + Reverse(c.min);
      assert multiset(q2) == Q + M;
      if |c.five| != 11 {
        assert multiset(c.five + [t]) == F + T;
      } else {
        var q3 := q2 + Reverse(c.five);
        assert multiset(q3) == Q + M + F;
        if |c.hour| != 11 {
          assert multiset(c.hour + [t]) == H + T;
        } else {
          assert multiset(q3 + Reverse(c.hour)) == Q + M + F + H;
          assert multiset(q3 + Reverse(c.hour) + [t]) == Q + M + F + H + T;
        }
      }
    }
  }

  lemma Regroup(t: multiset<int>, q: multiset<int>, m: multiset<int>, f: multiset<int>, h: multiset<int>)
    ensures q + (m + t) + f + h == t + q + m + f + h
    ensures (q + m) + multiset{} + (f + t) + h == t + q + m + f + h
    ensures (q + m + f) + multiset{} + multiset{} + (h + t) == t + q + m + f + h
    ensures (q + m + f + h + t) + multiset{} + multiset{} + multiset{} == t + q + m + f + h
  {
  }

  function After(c: Clock, n: nat, k: nat): (r: Clock)
    requires n >= 27 && Valid(c, n)
    ensures Valid(r, n)
    decreases k, c
  {
    if k == 0 then c
    else
      TickKeeps(c, n);
      After(Tick(c), n, k - 1)
  }

  /** Any number of minutes into any run the queue holds a ball to take and the clock shows the time. */
  lemma AfterKeeps(c: Clock, n: nat, k: nat)
    requires n >= 27 && Valid(c, n)
    ensures After(c, n, k).q != []
    ensures Minutes(After(c, n, k)) == (Minutes(c) + k) % TwelveHours()
  {
    TickKeeps(After(c, n, k), n);
    AfterCounts(c, n, k);
  }

  lemma {:induction false} AfterCounts(c: Clock, n: nat, k: nat)
    requires n >= 27 && Valid(c, n)
    ensures Minutes(After(c, n, k)) == (Minutes(c) + k) % TwelveHours()
    decreases k
  {
    if k > 0 {
      TickKeeps(c, n);
      AfterCounts(Tick(c), n, k - 1);
      ModAdd(Minutes(c) + 1, k - 1);
    } else {
      TickKeeps(c, n);
      assert Minutes(c) < 720;
    }
  }

  lemma {:induction false} AfterKeepsBalls(c: Clock, n: nat, k: nat)
    requires n >= 27 && Valid(c, n)
    ensures Balls(After(c, n, k)) == Balls(c)
    decreases k
  {
    if k > 0 {
      TickKeeps(c, n);
      TickKeepsBalls(c);
      AfterKeepsBalls(Tick(c), n, k - 1);
    }
  }

  lemma ModAdd(a: nat, b: nat)
    ensures (a % TwelveHours() + b) % TwelveHours() == (a + b) % TwelveHours()
  {
  }

  lemma {:induction false} AfterAdd(c: Clock, n: nat, j: nat, k: nat)
    requires n >= 27 && Valid(c, n)
    ensures After(c, n, j + k) == After(After(c, n, j), n, k)
    decreases j
  {
    if j > 0 {
      TickKeeps(c, n);
      AfterAdd(Tick(c), n, j - 1, k);
    }
  }

  lemma AfterOneMore(c: Clock, n: nat, k: nat)
    requires n >= 27 && Valid(c, n)
    ensures After(c, n, k).q != [] && After(c, n, k + 1) == Tick(After(c, n, k))
  {
    AfterKeeps(c, n, k);
    AfterAdd(c, n, k, 1);
    TickKeeps(After(c, n, k), n);
    assert After(Tick(After(c, n, k)), n, 0) == Tick(After(c, n, k));
  }

  // ----- Twelve hours -----

  function AllIn(q: seq<int>): Clock {
    Clock(q, [], [], [])
  }

  /** What twelve hours make of the queue. */
  function HalfDay(q: seq<int>): (r: seq<int>)
    requires |q| >= 27
    ensures |r| == |q|
  {
    AfterKeeps(AllIn(q), |q|, TwelveHours());
    After(AllIn(q), |q|, TwelveHours()).q
  }

  lemma HalfDayEndsAllIn(q: seq<int>)
    requires |q| >= 27
    ensures After(AllIn(q), |q|, TwelveHours()) == AllIn(HalfDay(q))
    ensures multiset(HalfDay(q)) == multiset(q)
  {
    AfterKeeps(AllIn(q), |q|, TwelveHours());
    AfterKeepsBalls(AllIn(q), |q|, TwelveHours());
    assert Balls(AllIn(q)) == multiset(q) && Balls(AllIn(HalfDay(q))) == multiset(HalfDay(q));
  }

  function HalfDays(q: seq<int>, k: nat): (r: seq<int>)
    requires |q| >= 27
    ensures |r| == |q|
  {
    if k == 0 then q else HalfDay(HalfDays(q, k - 1))
  }

  lemma {:induction false} HalfDaysKeep(q: seq<int>, k: nat)
    requires |q| >= 27
    ensures multiset(HalfDays(q, k)) == multiset(q)
    ensures After(AllIn(q), |q|, 720 * k) == AllIn(HalfDays(q, k))
  {
    if k > 0 {
      HalfDaysKeep(q, k - 1);
      HalfDayEndsAllIn(HalfDays(q, k - 1));
      AfterAdd(AllIn(q), |q|, 720 * (k - 1), TwelveHours());
    }
  }

  // ----- Only positions matter -----

  function Relabel(f: int -> int, s: seq<int>): (r: seq<int>)
    ensures |r| == |s| && forall i :: 0 <= i < |s| ==> r[i] == f(s[i])
  {
    seq(|s|, i requires 0 <= i < |s| => f(s[i]))
  }

  function RelabelClock(f: int -> int, c: Clock): Clock {
    Clock(Relabel(f, c.q), Relabel(f, c.min), Relabel(f, c.five), Relabel(f, c.hour))
  }

  lemma RelabelAppend(f: int -> int, a: seq<int>, b: seq<int>)
    ensures Relabel(f, a + b) == Relabel(f, a) + Relabel(f, b)
  {
  }

  lemma {:induction false} RelabelReverse(f: int -> int, s: seq<int>)
    ensures Relabel(f, Reverse(s)) == Reverse(Relabel(f, s))
  {
    if s != [] {
      var n := |s| - 1;
      RelabelReverse(f, s[..n]);
      RelabelAppend(f, [s[n]], Reverse(s[..n]));
      assert Relabel(f, s)[..n] == Relabel(f, s[..n]);
    }
  }

  /** The clock never looks at a label: relabelling the balls commutes with a minute. */
  lemma TickRelabel(f: int -> int, c: Clock)
    requires c.q != []
    ensures Tick(RelabelClock(f, c)) == RelabelClock(f, Tick(c))
  {
    var t, q1 := c.q[0], c.q[1..];
    assert Relabel(f, c.q)[1..] == Relabel(f, q1);
    RelabelReverse(f, c.min);
    RelabelReverse(f, c.five);
    RelabelReverse(f, c.hour);
    RelabelAppend(f, q1, Reverse(c.min));
    RelabelAppend(f, q1 + Reverse(c.min), Reverse(c.five));
    RelabelAppend(f, q1 + Reverse(c.min) + Reverse(c.five), Reverse(c.hour));
    RelabelAppend(f, q1 + Reverse(c.min) + Reverse(c.five) + Reverse(c.hour), [t]);
    RelabelAppend(f, c.min, [t]);
    RelabelAppend(f, c.five, [t]);
    RelabelAppend(f, c.hour, [t]);
    assert Relabel(f, [t]) == [f(t)] && Relabel(f, []) == [];
  }

  lemma {:induction false} AfterRelabel(f: int -> int, c: Clock, n: nat, k: nat)
    requires n >= 27 && Valid(c, n)
    ensures After(RelabelClock(f, c), n, k) == RelabelClock(f, After(c, n, k))
    decreases k
  {
    if k > 0 {
      TickKeeps(c, n);
      TickRelabel(f, c);
      AfterRelabel(f, Tick(c), n, k - 1);
    }
  }

  function Upto(n: nat): (s: seq<int>)
    ensures |s| == n && forall i :: 0 <= i < n ==> s[i] == i
  {
    seq(n, i => i)
  }

  /** Where the ball at each place of the queue comes from, twelve hours earlier. */
  function Origin(n: nat): (r: seq<int>)
    requires n >= 27
    ensures |r| == n
  {
    HalfDay(Upto(n))
  }

  lemma OriginInRange(n: nat)
    requires n >= 27
    ensures forall i :: 0 <= i < n ==> 0 <= Origin(n)[i] < n
    ensures forall j :: 0 <= j < n ==> j in Origin(n)
  {
    HalfDayEndsAllIn(Upto(n));
    forall i | 0 <= i < n ensures 0 <= Origin(n)[i] < n {
      assert Origin(n)[i] in multiset(Origin(n));
    }
    forall j | 0 <= j < n ensures j in Origin(n) {
      assert Upto(n)[j] in multiset(Upto(n));
    }
  }

  /** Twelve hours rearrange the queue in one and the same way, whatever is written on the balls. */
  lemma HalfDayRearranges(q: seq<int>)
    requires |q| >= 27
    ensures forall i :: 0 <= i < |q| ==> 0 <= Origin(|q|)[i] < |q| && HalfDay(q)[i] == q[Origin(|q|)[i]]
  {
    var n := |q|;
    var f := (i: int) => if 0 <= i < |q| then q[i] else 0;
    OriginInRange(n);
    assert Relabel(f, Upto(n)) == q;
    assert Relabel(f, []) == [];
    AfterRelabel(f, AllIn(Upto(n)), n, TwelveHours());
    HalfDayEndsAllIn(Upto(n));
  }

  lemma HalfDayInjective(p: seq<int>, q: seq<int>)
    requires |p| == |q| >= 27 && HalfDay(p) == HalfDay(q)
    ensures p == q
  {
    HalfDayRearranges(p);
    HalfDayRearranges(q);
    OriginInRange(|q|);
    forall j | 0 <= j < |q| ensures p[j] == q[j] {
      assert j in Origin(|q|);
      var i :| 0 <= i < |q| && Origin(|q|)[i] == j;
      assert HalfDay(p)[i] == p[j] && HalfDay(q)[i] == q[j];
    }
  }

  // ----- The starting order comes back -----

  /** All sequences of length n over a finite set of labels. */
  ghost function {:induction false} Sequences(n: nat, labels: set<int>): (r: set<seq<int>>)
    ensures forall s :: s in r <==> |s| == n && forall i :: 0 <= i < n ==> s[i] in labels
  {
    if n == 0 then {[]}
    else
      var shorter := Sequences(n - 1, labels);
      var r := set s, x | s in shorter && x in labels :: s + [x];
      forall s: seq<int> | |s| == n && forall i :: 0 <= i < n ==> s[i] in labels
        ensures s in r
      {
        var front, x := s[..n - 1], s[n - 1];
        assert front in shorter && x in labels;
        assert front + [x] == s;
      }
      r
  }

  lemma {:induction false} DistinctFits<T>(s: seq<T>, all: set<T>)
    requires forall i :: 0 <= i < |s| ==> s[i] in all
    requires forall i, j :: 0 <= i < j < |s| ==> s[i] != s[j]
    ensures |s| <= |all|
  {
    if s != [] {
      DistinctFits(s[1..], all - {s[0]});
    }
  }

  /** A sequence longer than the set it draws from repeats itself. */
  lemma Pigeonhole<T>(s: seq<T>, all: set<T>) returns (i: nat, j: nat)
    requires |s| > |all| && forall i :: 0 <= i < |s| ==> s[i] in all
    ensures i < j < |s| && s[i] == s[j]
  {
    if forall i, j :: 0 <= i < j < |s| ==> s[i] != s[j] {
      DistinctFits(s, all);
    }
    i, j :| 0 <= i < j < |s| && s[i] == s[j];
  }

  lemma {:induction false} CancelHalfDays(q: seq<int>, j: nat, k: nat)
    requires |q| >= 27 && HalfDays(q, j) == HalfDays(q, j + k)
    ensures HalfDays(q, k) == q
    decreases j
  {
    if j > 0 {
      HalfDayInjective(HalfDays(q, j - 1), HalfDays(q, j - 1 + k));
      CancelHalfDays(q, j - 1, k);
    }
  }

  lemma HalfDaysAmong(q: seq<int>, k: nat, labels: set<int>)
    requires |q| >= 27 && forall i :: 0 <= i < |q| ==> q[i] in labels
    ensures HalfDays(q, k) in Sequences(|q|, labels)
  {
    HalfDaysKeep(q, k);
    var r := HalfDays(q, k);
    forall j | 0 <= j < |r| ensures r[j] in labels {
      assert r[j] in multiset(r);
      assert r[j] in multiset(q);
    }
  }

  function Orbit(q: seq<int>, n: nat): (r: seq<seq<int>>)
    requires |q| >= 27
    ensures |r| == n && forall i :: 0 <= i < n ==> r[i] == HalfDays(q, i)
  {
    if n == 0 then [] else Orbit(q, n - 1) + [HalfDays(q, n - 1)]
  }

  lemma OrbitRepeats(q: seq<int>, all: set<seq<int>>) returns (i: nat, j: nat)
    requires |q| >= 27 && forall k: nat :: HalfDays(q, k) in all
    ensures i < j && HalfDays(q, i) == HalfDays(q, j)
  {
    var orbit := Orbit(q, |all| + 1);
    i, j := Pigeonhole(orbit, all);
  }

  /** Some positive number of half days brings every starting order back. */
  lemma OrderReturns(q: seq<int>) returns (k: nat)
    requires |q| >= 27
    ensures k >= 1 && HalfDays(q, k) == q
  {
    var labels := set x | x in q;
    forall k: nat ensures HalfDays(q, k) in Sequences(|q|, labels) {
      HalfDaysAmong(q, k, labels);
    }
    var i, j := OrbitRepeats(q, Sequences(|q|, labels));
    k := j - i;
    CancelHalfDays(q, i, k);
  }

  /** A rearrangement of numbered balls ascends only in the starting order. */
  lemma AscendingIsStart(s: seq<int>, n: nat)
    requires multiset(s) == multiset(Numbered(n))
    ensures (forall i, j :: 0 <= i < j < |s| ==> s[i] <= s[j]) <==> s == Numbered(n)
  {
    if forall i, j :: 0 <= i < j < |s| ==> s[i] <= s[j] {
      SortedUnique(s, Numbered(n));
    }
  }

  lemma SameLeast(a: seq<int>, b: seq<int>)
    requires multiset(a) == multiset(b) && a != []
    requires forall i, j :: 0 <= i < j < |a| ==> a[i] <= a[j]
    requires forall i, j :: 0 <= i < j < |b| ==> b[i] <= b[j]
    ensures b != [] && a[0] == b[0]
  {
    assert a[0] in multiset(b);
    assert b[0] in multiset(a);
  }

  lemma WithoutFirst(a: seq<int>)
    requires a != []
    ensures multiset(a[1..]) == multiset(a) - multiset{a[0]}
  {
    assert a == [a[0]] + a[1..];
  }

  lemma {:induction false} SortedUnique(a: seq<int>, b: seq<int>)
    requires multiset(a) == multiset(b)
    requires forall i, j :: 0 <= i < j < |a| ==> a[i] <= a[j]
    requires forall i, j :: 0 <= i < j < |b| ==> b[i] <= b[j]
    ensures a == b
    decreases a
  {
    if a == [] {
      assert |multiset(b)| == 0;
    } else {
      SameLeast(a, b);
      WithoutFirst(a);
      WithoutFirst(b);
      SortedUnique(a[1..], b[1..]);
    }
  }
}
