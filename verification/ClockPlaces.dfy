/**
  Where the balls go in half a day, place by place and without running the clock: Whence gives, for any number
  of balls, the place from which the ball at each place came.
 */
module ClockPlaces {
  import opened BallClock

  /** In an hour that starts with len balls in the queue, the ball taken from the queue as number j, counted
      from 0, was in this place of it. Every fifth ball goes to the five-minute stack; the four before it
      go back in reverse order. */
  function Feed(len: nat, j: nat): (i: nat)
    requires len >= 16 && j < len + 48
    ensures i < len
    decreases j, len
  {
    if j < len then j else Feed(len, 5 * ((j - len) / 4) + 3 - (j - len) % 4)
  }

  lemma FedBack(len: nat, b: nat, r: nat)
    requires len >= 16 && b < 12 && r < 4
    ensures Feed(len, len + 4 * b + r) == Feed(len, 5 * b + 3 - r)
  {
    assert (4 * b + r) / 4 == b && (4 * b + r) % 4 == r;
  }

  /** Five minutes from an empty minute stack. */
  lemma FiveMinutes(c: Clock, n: nat)
    requires n >= 27 && Valid(c, n) && c.min == [] && |c.q| >= 5
    ensures var q := c.q;
      After(c, n, 5) == Carried(q[4], Clock(Back(q), [], c.five, c.hour))
  {
    var q := c.q;
    var c1 := Clock(q[1..], [q[0]], c.five, c.hour);
    var c2 := Clock(q[2..], [q[0], q[1]], c.five, c.hour);
    var c3 := Clock(q[3..], [q[0], q[1], q[2]], c.five, c.hour);
    var c4 := Clock(q[4..], [q[0], q[1], q[2], q[3]], c.five, c.hour);
    assert Tick(c) == c1 && Tick(c1) == c2 && Tick(c2) == c3 && Tick(c3) == c4;
    AfterOneMore(c, n, 0);
    AfterOneMore(c, n, 1);
    AfterOneMore(c, n, 2);
    AfterOneMore(c, n, 3);
    AfterOneMore(c, n, 4);
    FourReversed(q[0], q[1], q[2], q[3]);
    assert q[4..][1..] == q[5..];
  }

  lemma FourReversed(a: int, b: int, c: int, d: int)
    ensures Reverse([a, b, c, d]) == [d, c, b, a]
  {
    assert [a, b, c, d][..3] == [a, b, c] && [a, b, c][..2] == [a, b] && [a, b][..1] == [a] && [a][..0] == [];
    assert Reverse([a]) == [a];
    assert Reverse([a, b]) == [b, a];
    assert Reverse([a, b, c]) == [c, b, a];
  }

  /** The balls taken from the queue as number k and the m - 1 after it. */
  function Taken(q: seq<int>, k: nat, m: nat): (r: seq<int>)
    requires |q| >= 16 && k + m <= |q| + 48
    ensures |r| == m && forall j :: 0 <= j < m ==> r[j] == q[Feed(|q|, k + j)]
  {
    seq(m, j requires 0 <= j < m => q[Feed(|q|, k + j)])
  }

  /** The first b balls that went to the five-minute stack. */
  function Fifths(q: seq<int>, b: nat): (r: seq<int>)
    requires |q| >= 16 && b <= 12
    ensures |r| == b && forall j :: 0 <= j < b ==> r[j] == q[Feed(|q|, 5 * j + 4)]
  {
    seq(b, j requires 0 <= j < b => q[Feed(|q|, 5 * j + 4)])
  }

  /** The clock b five-minute blocks into an hour. */
  function InHour(q: seq<int>, hour: seq<int>, b: nat): Clock
    requires |q| >= 16 && b <= 11
  {
    Clock(Taken(q, 5 * b, |q| - b), [], Fifths(q, b), hour)
  }

  /** The next five balls leave, and the first four come back in reverse. */
  function Back(p: seq<int>): (r: seq<int>)
    requires |p| >= 5
    ensures |r| == |p| - 1
  {
    p[5..] + [p[3], p[2], p[1], p[0]]
  }

  lemma NextBlock(q: seq<int>, b: nat)
    requires |q| >= 16 && b <= 11
    ensures Back(Taken(q, 5 * b, |q| - b)) == Taken(q, 5 * b + 5, |q| - b - 1)
  {
    var n, p := |q|, Taken(q, 5 * b, |q| - b);
    forall j | 0 <= j < n - b - 1 ensures Back(p)[j] == q[Feed(n, 5 * b + 5 + j)] {
      if j >= n - b - 5 {
        var r := j - (n - b - 5);
        FedBack(n, b, r);
        assert Back(p)[j] == [p[3], p[2], p[1], p[0]][r] == p[3 - r];
      } else {
        assert Back(p)[j] == p[j + 5];
      }
    }
  }

  lemma {:induction false} AfterBlocks(q: seq<int>, hour: seq<int>, n: nat, b: nat)
    requires |q| >= 16 && |q| + |hour| == n >= 27 && |hour| <= 11 && b <= 11
    ensures After(Clock(q, [], [], hour), n, 5 * b) == InHour(q, hour, b)
  {
    var start := Clock(q, [], [], hour);
    if b == 0 {
      assert Taken(q, 0, |q|) == q;
    } else {
      AfterBlocks(q, hour, n, b - 1);
      AfterAdd(start, n, 5 * (b - 1), 5);
      OneBlock(q, hour, n, b - 1);
    }
  }

  lemma OneBlock(q: seq<int>, hour: seq<int>, n: nat, b: nat)
    requires |q| >= 16 && |q| + |hour| == n >= 27 && |hour| <= 11 && b < 11
    ensures After(InHour(q, hour, b), n, 5) == InHour(q, hour, b + 1)
  {
    var c, e := InHour(q, hour, b), q[Feed(|q|, 5 * b + 4)];
    FiveMinutes(c, n);
    NextBlock(q, b);
    assert c.q[4] == e;
    assert Carried(e, Clock(Back(c.q), [], c.five, hour)) == Clock(Back(c.q), [], c.five + [e], hour);
    assert Fifths(q, b) + [e] == Fifths(q, b + 1);
  }

  /** The place in the queue an hour before of the ball now in place i: the five-minute stack came back last. */
  function HourPlace(len: nat, i: nat): (p: nat)
    requires len >= 16 && i < len - 1
    ensures p < len
  {
    if i < len - 12 then Feed(len, 60 + i) else Feed(len, 54 - 5 * (i - (len - 12)))
  }

  function HourQueue(q: seq<int>): (r: seq<int>)
    requires |q| >= 16
    ensures |r| == |q| - 1 && forall i :: 0 <= i < |r| ==> r[i] == q[HourPlace(|q|, i)]
  {
    seq(|q| - 1, i requires 0 <= i < |q| - 1 => q[HourPlace(|q|, i)])
  }

  lemma {:induction false} ReverseAt(s: seq<int>, i: nat)
    requires i < |s|
    ensures Reverse(s)[i] == s[|s| - 1 - i]
  {
    if i > 0 {
      ReverseAt(s[..|s| - 1], i - 1);
    }
  }

  lemma AfterHour(q: seq<int>, hour: seq<int>, n: nat)
    requires |q| >= 16 && |q| + |hour| == n >= 27 && |hour| <= 11
    ensures var e := q[Feed(|q|, 59)];
      After(Clock(q, [], [], hour), n, 60) ==
        if |hour| != 11 then Clock(HourQueue(q), [], [], hour + [e])
        else Clock(HourQueue(q) + Reverse(hour) + [e], [], [], [])
  {
    AfterBlocks(q, hour, n, 11);
    AfterAdd(Clock(q, [], [], hour), n, 55, 5);
    FiveMinutes(InHour(q, hour, 11), n);
    HourEnds(q);
  }

  lemma HourEnds(q: seq<int>)
    requires |q| >= 16
    ensures Back(Taken(q, 55, |q| - 11)) + Reverse(Fifths(q, 11)) == HourQueue(q)
  {
    NextBlock(q, 11);
    var back, fives := Taken(q, 60, |q| - 12), Fifths(q, 11);
    forall i | 0 <= i < |q| - 1 ensures (back + Reverse(fives))[i] == HourQueue(q)[i] {
      if i >= |q| - 12 {
        ReverseAt(fives, i - (|q| - 12));
      }
    }
  }

  /** The place at the start of the half day of the ball that is in place i of the queue after h hours. */
  function From(n: nat, h: nat, i: nat): (p: nat)
    requires n >= 27 && h <= 12 && i < n - h
    ensures p < n
    decreases h, n
  {
    if h == 0 then i else From(n, h - 1, HourPlace(n - h + 1, i))
  }

  /** The same of the ball that hour h puts on the hour stack. */
  function HourBall(n: nat, h: nat): (p: nat)
    requires n >= 27 && h < 12
    ensures p < n
  {
    From(n, h, Feed(n - h, 59))
  }

  function HoursIn(q: seq<int>, h: nat): Clock
    requires |q| >= 27 && h <= 12
  {
    var n := |q|;
    Clock(seq(n - h, i requires 0 <= i < n - h => q[From(n, h, i)]), [], [],
          seq(h, k requires 0 <= k < h => q[HourBall(n, k)]))
  }

  lemma NextHour(q: seq<int>, h: nat)
    requires |q| >= 27 && h < 12
    ensures var c, d := HoursIn(q, h), HoursIn(q, h + 1);
      |c.q| == |q| - h >= 16 && HourQueue(c.q) == d.q && c.hour + [c.q[Feed(|c.q|, 59)]] == d.hour
  {
  }

  lemma {:induction false} AfterHours(q: seq<int>, h: nat)
    requires |q| >= 27 && h <= 11
    ensures After(AllIn(q), |q|, 60 * h) == HoursIn(q, h)
  {
    if h == 0 {
      assert HoursIn(q, 0) == AllIn(q);
    } else {
      AfterHours(q, h - 1);
      var c := HoursIn(q, h - 1);
      AfterAdd(AllIn(q), |q|, 60 * (h - 1), 60);
      AfterHour(c.q, c.hour, |q|);
      NextHour(q, h - 1);
    }
  }

  /** The place from which the ball in place i came in half a day. */
  function Whence(n: nat, i: nat): (p: nat)
    requires n >= 27 && i < n
    ensures p < n
  {
    if i < n - 12 then From(n, 12, i)
    else if i < n - 1 then HourBall(n, 10 - (i - (n - 12)))
    else HourBall(n, 11)
  }

  /** What 720 minutes of dequeues and spilling stacks do, as a rearrangement of places. */
  lemma HalfDayPlaces(q: seq<int>)
    requires |q| >= 27
    ensures forall i :: 0 <= i < |q| ==> HalfDay(q)[i] == q[Whence(|q|, i)]
  {
    HalfDayParts(q);
    var n, c := |q|, HoursIn(q, 11);
    var r := Reverse(c.hour);
    forall i | 0 <= i < n ensures HalfDay(q)[i] == q[Whence(n, i)] {
      if i < n - 12 {
        assert HalfDay(q)[i] == HoursIn(q, 12).q[i];
      } else if i < n - 1 {
        ReverseAt(c.hour, i - (n - 12));
        assert HalfDay(q)[i] == r[i - (n - 12)];
      }
    }
  }

  lemma HalfDayParts(q: seq<int>)
    requires |q| >= 27
    ensures HalfDay(q) == HoursIn(q, 12).q + Reverse(HoursIn(q, 11).hour) + [q[HourBall(|q|, 11)]]
  {
    HourMore(q, 11);
    LastHour(q);
    HalfDayEndsAllIn(q);
  }

  lemma HourMore(q: seq<int>, h: nat)
    requires |q| >= 27 && h <= 11
    ensures After(AllIn(q), |q|, 60 * h + 60) == After(HoursIn(q, h), |q|, 60)
  {
    AfterHours(q, h);
    AfterAdd(AllIn(q), |q|, 60 * h, 60);
  }

  lemma LastHour(q: seq<int>)
    requires |q| >= 27
    ensures After(HoursIn(q, 11), |q|, 60)
      == AllIn(HoursIn(q, 12).q + Reverse(HoursIn(q, 11).hour) + [q[HourBall(|q|, 11)]])
  {
    var c := HoursIn(q, 11);
    AfterHour(c.q, c.hour, |q|);
    NextHour(q, 11);
  }
}
