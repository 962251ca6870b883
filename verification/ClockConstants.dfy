/**
  The ball clock on the program's own constants, 27 balls in a ring of 32, with its check as written: it ends after
  eleven half days, when the balls are not in the starting order.
 */
module ClockConstants {
  import opened Counting
  import opened Wrappers
  import opened RingQueue
  import opened BallClock
  import opened ClockMachine
  import opened ClockPlaces
  import opened ClockTrails

  const NR_BALL := 27
  const MAXSIZE := 32
  const SIZE := 32

  // ----- From which place a ball comes in half a day -----

  /** s stands for the ball taken as number j in the hour that starts with len balls in the queue. */
  predicate Spot(s: int, len: nat, j: nat) {
    s == 100 * len + j && 16 <= len <= NR_BALL && j < len + 48
  }

  /** Where that ball was when the half day began. */
  function Origin(len: nat, j: nat): (p: nat)
    requires 16 <= len <= NR_BALL && j < len + 48
    ensures p < NR_BALL
  {
    From(NR_BALL, NR_BALL - len, Feed(len, j))
  }

  lemma StepBack(s: int, len: nat, j: nat) returns (len': nat, j': nat)
    requires Spot(s, len, j)
    ensures Spot(Before(s), len', j') && Origin(len', j') == Origin(len, j)
  {
    BeforeIs(len, j);
    if j >= len {
      SameHour(len, j);
      len', j' := len, 5 * ((j - len) / 4) + 3 - (j - len) % 4;
    } else if len >= NR_BALL {
      len', j' := len, j;
    } else {
      HourSpotIs(len + 1, j);
      len', j' := len + 1, HourSpot(len + 1, j);
    }
  }

  lemma SameHour(len: nat, j: nat)
    requires 16 <= len <= j < len + 48
    ensures var j' := 5 * ((j - len) / 4) + 3 - (j - len) % 4; 0 <= j' < j && Feed(len, j) == Feed(len, j')
  {
    FedBack(len, (j - len) / 4, (j - len) % 4);
  }

  /** The number with which the ball was taken that is in place i of the queue after an hour. */
  function HourSpot(len: nat, i: nat): (j: nat)
    requires 16 <= len <= NR_BALL && i < len - 1
    ensures j < len + 48
  {
    if i < len - 12 then 60 + i else 54 - 5 * (i - (len - 12))
  }

  lemma HourSpotIs(len: nat, i: nat)
    requires 16 <= len <= NR_BALL && i < len - 1
    ensures Origin(len, HourSpot(len, i)) == From(NR_BALL, NR_BALL - len + 1, i)
  {
  }

  lemma {:induction false} Follow(t: seq<int>, len: nat, j: nat) returns (len': nat, j': nat)
    requires Trail(t) && Spot(t[0], len, j)
    ensures Spot(t[|t| - 1], len', j') && Origin(len', j') == Origin(len, j)
    decreases |t|
  {
    if |t| == 1 {
      return len, j;
    }
    len', j' := StepBack(t[0], len, j);
    assert t[0 + 1] == Before(t[0]);
    forall k | 0 <= k < |t[1..]| - 1 ensures t[1..][k + 1] == Before(t[1..][k]) {
      assert t[(k + 1) + 1] == Before(t[k + 1]);
    }
    len', j' := Follow(t[1..], len', j');
  }

  /** Where the ball in place i at the end of the half day was taken last. */
  function LastSpot(i: nat): (nat, nat)
    requires i < NR_BALL
  {
    if i < 15 then (16, HourSpot(16, i)) else (if i < 26 then i + 2 else 16, 59)
  }

  lemma LastSpotIs(i: nat)
    requires i < NR_BALL
    ensures var (len, j) := LastSpot(i); 16 <= len <= NR_BALL && j < len + 48 && Origin(len, j) == Whence(NR_BALL, i)
  {
    if i < 15 {
      HourSpotIs(16, i);
    }
  }

  /** A trail from there shows from which place the ball came. */
  lemma Comes(i: nat, len: nat, j: nat, p: nat)
    requires i < NR_BALL && p < NR_BALL && LastSpot(i) == (len, j) && Leads(100 * len + j, 2700 + p)
    ensures Whence(NR_BALL, i) == p
  {
    var t :| Trail(t) && t[0] == 100 * len + j && t[|t| - 1] == 2700 + p;
    LastSpotIs(i);
    var len', j' := Follow(t, len, j);
  }

  // ----- The half days on the way to the wrong end -----

  function Order(k: nat): (s: seq<int>)
    ensures |s| == NR_BALL
  {
    HalfDays(Numbered(NR_BALL), k)
  }

  /** From which place a ball came, for the places that matter here. */
  function Came(i: nat): Option<nat> {
    match i
    case 1 => Some(25)
    case 3 => Some(1)
    case 4 => Some(20)
    case 5 => Some(15)
    case 6 => Some(7)
    case 7 => Some(13)
    case 8 => Some(5)
    case 10 => Some(4)
    case 13 => Some(10)
    case 14 => Some(8)
    case 15 => Some(3)
    case 16 => Some(22)
    case 20 => Some(26)
    case 22 => Some(16)
    case 23 => Some(6)
    case 25 => Some(23)
    case _ => None
  }

  lemma CameIsWhence(i: nat)
    requires Came(i).Some?
    ensures i < NR_BALL && Whence(NR_BALL, i) == Came(i).value < NR_BALL
  {
    match i
    case 1 =>
      Trail1();
      Comes(1, 16, 61, 25);
    case 3 =>
      Trail3();
      Comes(3, 16, 63, 1);
    case 4 =>
      Trail4();
      Comes(4, 16, 54, 20);
    case 5 =>
      Trail5();
      Comes(5, 16, 49, 15);
    case 6 =>
      Trail6();
      Comes(6, 16, 44, 7);
    case 7 =>
      Trail7();
      Comes(7, 16, 39, 13);
    case 8 =>
      Trail8();
      Comes(8, 16, 34, 5);
    case 10 =>
      Trail10();
      Comes(10, 16, 24, 4);
    case 13 =>
      Trail13();
      Comes(13, 16, 9, 10);
    case 14 =>
      Trail14();
      Comes(14, 16, 4, 8);
    case 15 =>
      Trail15();
      Comes(15, 17, 59, 3);
    case 16 =>
      Trail16();
      Comes(16, 18, 59, 22);
    case 20 =>
      Trail20();
      Comes(20, 22, 59, 26);
    case 22 =>
      Trail22();
      Comes(22, 24, 59, 16);
    case 23 =>
      Trail23();
      Comes(23, 25, 59, 6);
    case 25 =>
      Trail25();
      Comes(25, 27, 59, 23);
  }

  lemma CameBy(k: nat, i: nat, p: nat)
    requires k > 0 && Came(i) == Some(p)
    ensures i < NR_BALL && p < NR_BALL && Order(k)[i] == Order(k - 1)[p]
  {
    CameIsWhence(i);
    HalfDayPlaces(Order(k - 1));
  }

  /** Places to each of which the ball came from the next one in half a day. */
  predicate Way(w: seq<nat>) {
    && w != [] && (forall k :: 0 <= k < |w| ==> w[k] < NR_BALL)
    && forall k :: 0 <= k < |w| - 1 ==> Came(w[k]) == Some(w[k + 1])
  }

  lemma {:induction false} Along(w: seq<nat>, j: nat)
    requires Way(w) && j < |w|
    ensures Order(|w| - 1 - j)[w[j]] == w[|w| - 1] + 1
    decreases |w| - j
  {
    if j < |w| - 1 {
      assert Came(w[j]) == Some(w[j + 1]);
      CameBy(|w| - 1 - j, w[j], w[j + 1]);
      Along(w, j + 1);
    }
  }

  /** Back from place 15 after eleven half days: where ball 27 has been after 11, 10, ..., 0 of them. */
  function WayOf27(): seq<nat> {
    [15, 3, 1, 25, 23, 6, 7, 13, 10, 4, 20, 26]
  }

  lemma LargestBall(h: nat)
    requires h <= 11
    ensures WayOf27()[11 - h] < NR_BALL && Order(h)[WayOf27()[11 - h]] == NR_BALL
  {
    assert Way(WayOf27());
    Along(WayOf27(), 11 - h);
  }

  /** The same back from the place before it. */
  function WayOf11(): seq<nat> {
    [14, 8, 5, 15, 3, 1, 25, 23, 6, 7, 13, 10]
  }

  lemma BallInPlace14()
    ensures Order(11)[14] == 11
  {
    assert Way(WayOf11());
    Along(WayOf11(), 0);
  }

  /** Places 16 and 22 change their balls at every half day. */
  lemma {:induction false} ToAndFro(k: nat)
    ensures Order(2 * k + 1)[16] == 23
  {
    if k > 0 {
      CameBy(2 * k + 1, 16, 22);
      CameBy(2 * k, 22, 16);
      ToAndFro(k - 1);
    } else {
      CameBy(1, 16, 22);
      assert Order(0) == Numbered(NR_BALL);
    }
  }

  lemma {:induction false} Twice(s: seq<int>, i: nat, j: nat)
    requires i < j < |s| && s[i] == s[j]
    ensures multiset(s)[s[i]] >= 2
  {
    assert s == s[..j] + [s[j]] + s[j + 1..];
    assert s[..j][i] in multiset(s[..j]);
  }

  lemma {:induction false} NumberedOnce(n: nat, x: int)
    ensures multiset(Numbered(n))[x] == if 1 <= x <= n then 1 else 0
  {
    if n > 0 {
      NumberedOnce(n - 1, x);
      assert Numbered(n) == Numbered(n - 1) + [n];
    }
  }

  /** Ball 27 is in its place only, and no ball is larger. */
  lemma OthersSmaller(h: nat, i: nat)
    requires h <= 11 && i < NR_BALL
    ensures Order(h)[i] <= NR_BALL && (i != WayOf27()[11 - h] ==> Order(h)[i] < NR_BALL)
  {
    var s, p := Order(h), WayOf27()[11 - h];
    HalfDaysKeep(Numbered(NR_BALL), h);
    LargestBall(h);
    NumberedOnce(NR_BALL, s[i]);
    assert s[i] in multiset(s);
    if s[i] == NR_BALL && i != p {
      Twice(s, if i < p then i else p, if i < p then p else i);
    }
  }

  lemma OrderNotStart(h: nat)
    requires 1 <= h <= 11
    ensures Order(h) != Numbered(NR_BALL) && !Ascending(Order(h))
  {
    LargestBall(h);
    var p := WayOf27()[11 - h];
    OthersSmaller(h, 26);
    assert Order(h)[p] > Order(h)[26];
  }

  // ----- What the check as written says -----

  /** After h half days head has gone round to the middle of the ring or to its start. */
  function HeadAfter(h: nat): nat {
    720 * h % MAXSIZE
  }

  lemma HeadAfterIs(h: nat)
    ensures HeadAfter(h) == if h % 2 == 0 then 0 else 16
  {
    var q, r := h / 2, h % 2;
    assert 720 * h == MAXSIZE * (45 * q) + 720 * r;
    DivModUnique(720 * h, MAXSIZE, if r == 0 then 45 * q else 45 * q + 22, if r == 0 then 0 else 16);
  }

  /** The ring at the end of half day h: the order, and the ball taken out last still in the slot at head. */
  ghost predicate AtEnd(data: seq<int>, h: nat) {
    && |data| == MAXSIZE
    && Ring(data, HeadAfter(h), NR_BALL) == Order(h)
    && data[HeadAfter(h)] == Order(h)[26]
  }

  lemma EndOfRound(data: seq<int>, head: nat, q: seq<int>, h: nat)
    requires |data| == MAXSIZE && head == 720 * h % MAXSIZE && q == Order(h)
    requires Ring(data, head, NR_BALL) == q && data[head] == q[26]
    ensures AtEnd(data, h)
  {
  }

  lemma RefusedBefore(data: seq<int>, h: nat)
    requires 1 <= h <= 10 && AtEnd(data, h)
    ensures !PassesAsWritten(data, HeadAfter(h), NR_BALL)
  {
    HeadAfterIs(h);
    LargestBall(h);
    OthersSmaller(h, 26);
    OthersSmaller(h, 15);
    var p := WayOf27()[11 - h];
    var slot := SlotOf(HeadAfter(h), p, MAXSIZE);
    assert data[slot] == Ring(data, HeadAfter(h), NR_BALL)[p] == NR_BALL;
    assert h % 2 == 1 ==> data[0] == Ring(data, HeadAfter(h), NR_BALL)[15];
    assert !FitsAsWritten(data, slot);
  }

  lemma PassedAtLast(data: seq<int>)
    requires AtEnd(data, 11)
    ensures PassesAsWritten(data, HeadAfter(11), NR_BALL)
  {
    HeadAfterIs(11);
    LargestBall(11);
    BallInPlace14();
    ToAndFro(5);
    var r := Ring(data, HeadAfter(11), NR_BALL);
    assert data[0] == r[15] && data[1] == r[16] && data[31] == r[14];
    forall k | 0 <= k < NR_BALL - 1 ensures FitsAsWritten(data, SlotOf(HeadAfter(11), k, MAXSIZE)) {
      OthersSmaller(11, k);
      assert data[SlotOf(HeadAfter(11), k, MAXSIZE)] == r[k];
    }
  }

  lemma EndsAtEleven(data: seq<int>, h: nat)
    requires 1 <= h <= 11 && AtEnd(data, h)
    ensures PassesAsWritten(data, HeadAfter(h), NR_BALL) <==> h == 11
    ensures Order(h) != Numbered(NR_BALL) && !Ascending(Order(h))
  {
    OrderNotStart(h);
    if h == 11 {
      PassedAtLast(data);
    } else {
      RefusedBefore(data, h);
    }
  }

  lemma HeadGoesRound(time: nat)
    ensures SlotOf(time % MAXSIZE, 0, MAXSIZE) == (time + 1) % MAXSIZE
  {
  }

  // ----- The program -----

  /** time minutes into the run, with k half days complete. */
  ghost predicate Running(m: Machine, c: Clock, time: nat, k: nat)
    reads m, m.qu, m.stMin, m.stFive, m.stHour, m.qu.data, m.stMin.data, m.stFive.data, m.stHour.data
  {
    && m.Valid(NR_BALL) && m.View() == c && OnTheWay(c, NR_BALL, time, k)
    && m.qu.data.Length == MAXSIZE && m.qu.head == time % MAXSIZE
  }

  function HalfDaysDone(c: Clock, k: nat): nat
    requires c.q != []
  {
    if Minutes(Tick(c)) == 0 then k + 1 else k
  }

  lemma MinuteSays(c: Clock, time: nat, k: nat, data: seq<int>, head: nat, done: bool)
    requires OnTheWay(c, NR_BALL, time, k) && k < 11 && c.q != []
    requires |data| == MAXSIZE && head == (time + 1) % MAXSIZE
    requires Minutes(Tick(c)) == 0 ==>
      && |Tick(c).q| == NR_BALL && Ring(data, head, NR_BALL) == Tick(c).q && data[head] == Tick(c).q[26]
    requires done <==> Minutes(Tick(c)) == 0 && PassesAsWritten(data, head, NR_BALL)
    ensures done ==> time + 1 == 720 * 11 && Tick(c) == AllIn(Order(11))
    ensures !done ==> HalfDaysDone(c, k) < 11 && OnTheWay(Tick(c), NR_BALL, time + 1, HalfDaysDone(c, k))
  {
    MinuteOfRun(c, NR_BALL, time, k);
    if Minutes(Tick(c)) == 0 {
      EndOfRound(data, head, Tick(c).q, k + 1);
      EndsAtEleven(data, k + 1);
    }
  }

  method NextMinuteAsWritten(m: Machine, ghost c: Clock, ghost time: nat, ghost k: nat) returns (done: bool)
    requires Running(m, c, time, k) && k < 11
    modifies m.qu, m.qu.data, m.stMin, m.stMin.data, m.stFive, m.stFive.data, m.stHour, m.stHour.data
    ensures done ==> time + 1 == 720 * 11 && m.Valid(NR_BALL) && m.View() == AllIn(Order(11))
    ensures c.q != [] && (!done ==> HalfDaysDone(c, k) < 11 && Running(m, Tick(c), time + 1, HalfDaysDone(c, k)))
  {
    MinuteOfRun(c, NR_BALL, time, k);
    HeadGoesRound(time);
    done := m.MinuteAsWritten(NR_BALL);
    if Minutes(Tick(c)) == 0 {
      m.qu.RingIsContents();
    }
    MinuteSays(c, time, k, m.qu.data[..], m.qu.head, done);
  }

  method LoopAsWritten(m: Machine) returns (time: nat)
    requires Running(m, AllIn(Numbered(NR_BALL)), 0, 0)
    modifies m.qu, m.qu.data, m.stMin, m.stMin.data, m.stFive, m.stFive.data, m.stHour, m.stHour.data
    ensures time == 720 * 11 && m.Valid(NR_BALL) && m.View() == AllIn(Order(11))
  {
    ghost var c, k := m.View(), 0;
    time := 0;
    while true
      invariant Running(m, c, time, k) && k < 11
      decreases 720 * 11 - time
    {
      var done := NextMinuteAsWritten(m, c, time, k);
      time := time + 1;
      if done {
        break;
      }
      k := HalfDaysDone(c, k);
      c := Tick(c);
    }
  }

  lemma Begins()
    ensures OnTheWay(AllIn(Numbered(NR_BALL)), NR_BALL, 0, 0)
  {
  }

  /** The program with its check as written ends after eleven half days with the balls in another order
      than the one they started in. */
  method RunAsWritten() returns (time: nat, m: Machine)
    ensures time == 720 * 11 && fresh(m) && m.Valid(NR_BALL)
    ensures m.View() == AllIn(Order(11)) && Order(11) != Numbered(NR_BALL)
  {
    m := new Machine(NR_BALL, MAXSIZE, SIZE);
    Begins();
    time := LoopAsWritten(m);
    OrderNotStart(11);
  }
}
