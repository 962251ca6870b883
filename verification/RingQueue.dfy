/** The ring buffer that keeps one slot empty: head is the slot before the oldest element, tail that of the newest. */
module RingQueue {
  import opened Counting
  import opened Wrappers

  class Queue {
    const data: array<int>
    var head: nat
    var tail: nat

    ghost predicate Valid()
      reads this
    {
      head < data.Length && tail < data.Length
    }

    /** Oldest first. */
    ghost function Contents(): (s: seq<int>)
      requires Valid()
      reads this, data
      ensures |s| < data.Length
    {
      if head <= tail then data[head + 1..tail + 1] else data[head + 1..] + data[..tail + 1]
    }

    constructor (maxSize: nat)
      requires maxSize > 0
      ensures Valid() && fresh(data) && data.Length == maxSize && Contents() == [] && head == 0
    {
      data := new int[maxSize];
      head, tail := 0, 0;
    }

    method IsEmpty() returns (b: bool)
      requires Valid()
      ensures b <==> Contents() == []
    {
      b := head == tail;
    }

    method Enqueue(x: int) returns (code: int)
      requires Valid()
      modifies this`tail, data
      ensures Valid()
      ensures var s := old(Contents());
        if |s| == data.Length - 1 then code == -1 && Contents() == s
        else code == 0 && Contents() == s + [x]
      ensures data[head] == old(data[head])
    {
      Next(tail, data.Length);
      if (tail + 1) % data.Length == head {
        return -1;
      }
      tail := (tail + 1) % data.Length;
      data[tail] := x;
      code := 0;
    }

    method Dequeue() returns (x: Option<int>)
      requires Valid()
      modifies this`head
      ensures Valid()
      ensures var s := old(Contents());
        if s == [] then x == None && Contents() == s && head == old(head)
        else x == Some(s[0]) && Contents() == s[1..] && head == SlotOf(old(head), 0, data.Length) && data[head] == s[0]
    {
      if head == tail {
        return None;
      }
      Next(head, data.Length);
      head := (head + 1) % data.Length;
      x := Some(data[head]);
    }

    /** True exactly when the elements are in ascending order. The source calls it on a ring of
        at least two; the neighbour is indexed with % as the loop around it is. */
    method Check() returns (sorted: bool)
      requires Valid() && |Contents()| >= 2
      ensures sorted <==> Ascending(Contents())
    {
      sorted := Compare();
      PassesIsAscending();
    }

    method Compare() returns (sorted: bool)
      requires Valid() && |Contents()| >= 2
      ensures sorted <==> Passes(data[..], head, |Contents()|)
    {
      ghost var s, k := Contents(), 0;
      Next(head, data.Length);
      var i := (head + 1) % data.Length;
      while true
        invariant 0 <= k < |s| - 1 && i == SlotOf(head, k, data.Length)
        invariant forall j :: 0 <= j < k ==> Fits(data[..], SlotOf(head, j, data.Length))
        decreases |s| - k
      {
        Next(i, data.Length);
        var next := (i + 1) % data.Length;
        if data[i] > data[next] {
          assert !Fits(data[..], SlotOf(head, k, data.Length));
          return false;
        }
        i, k := next, k + 1;
        if i == tail {
          break;
        }
      }
      return true;
    }

    lemma PassesIsAscending()
      requires Valid()
      ensures Passes(data[..], head, |Contents()|) <==> Ascending(Contents())
    {
      var s := Contents();
      forall k | 0 <= k < |s| - 1 ensures Fits(data[..], SlotOf(head, k, data.Length)) <==> s[k] <= s[k + 1] {
        KeptAt(k);
        KeptAt(k + 1);
      }
      if forall k :: 0 <= k < |s| - 1 ==> Fits(data[..], SlotOf(head, k, data.Length)) {
        assert forall i :: 0 <= i < |s| - 1 ==> s[i] <= s[i + 1];
        Neighbours(s);
      } else {
        var k :| 0 <= k < |s| - 1 && !Fits(data[..], SlotOf(head, k, data.Length));
        assert s[k] > s[k + 1];
      }
    }

    /** The check with its neighbour indexed by / as the source has it. */
    method CheckAsWritten() returns (sorted: bool)
      requires Valid() && |Contents()| >= 2
      ensures sorted <==> PassesAsWritten(data[..], head, |Contents()|)
    {
      ghost var s, k := Contents(), 0;
      Next(head, data.Length);
      var i := (head + 1) % data.Length;
      while true
        invariant 0 <= k < |s| - 1 && i == SlotOf(head, k, data.Length)
        invariant forall j :: 0 <= j < k ==> FitsAsWritten(data[..], SlotOf(head, j, data.Length))
        decreases |s| - k
      {
        Next(i, data.Length);
        OneOrNone(i, data.Length);
        if data[i] > data[(i + 1) / data.Length] {
          assert !FitsAsWritten(data[..], SlotOf(head, k, data.Length));
          return false;
        }
        i, k := (i + 1) % data.Length, k + 1;
        if i == tail {
          break;
        }
      }
      return true;
    }

    lemma KeptAt(k: nat)
      requires Valid() && k < |Contents()|
      ensures 0 <= SlotOf(head, k, data.Length) < data.Length
      ensures Contents()[k] == data[SlotOf(head, k, data.Length)]
    {
    }

    lemma RingIsContents()
      requires Valid()
      ensures Ring(data[..], head, |Contents()|) == Contents()
    {
    }
  }

  /** Where element k is kept. */
  function SlotOf(head: int, k: int, n: int): int {
    if head + 1 + k < n then head + 1 + k else head + 1 + k - n
  }

  /** The element in slot i is at most the one in the next slot. */
  predicate Fits(data: seq<int>, i: nat)
    requires i < |data|
  {
    data[i] <= data[if i + 1 == |data| then 0 else i + 1]
  }

  predicate Passes(data: seq<int>, head: nat, count: nat)
    requires head < |data| && count < |data|
  {
    forall k :: 0 <= k < count - 1 ==> Fits(data, SlotOf(head, k, |data|))
  }

  // ----- The check as the source has it -----

  lemma OneOrNone(i: nat, n: nat)
    requires i < n
    ensures (i + 1) / n == if i + 1 == n then 1 else 0
  {
  }

  /** What the source compares the element in slot i with: slot 0, or slot 1 after the last. */
  predicate FitsAsWritten(data: seq<int>, i: nat)
    requires i < |data| && |data| >= 2
  {
    data[i] <= data[if i + 1 == |data| then 1 else 0]
  }

  predicate PassesAsWritten(data: seq<int>, head: nat, count: nat)
    requires head < |data| && 2 <= count < |data|
  {
    forall k :: 0 <= k < count - 1 ==> FitsAsWritten(data, SlotOf(head, k, |data|))
  }

  /** The elements of a ring of count after head. */
  function Ring(data: seq<int>, head: nat, count: nat): seq<int>
    requires head < |data| && count < |data|
  {
    seq(count, k requires 0 <= k < count => data[SlotOf(head, k, |data|)])
  }

  /** The order s laid out in a ring after head, with stale in the slots that hold nothing. */
  function Laid(size: nat, head: nat, s: seq<int>, stale: int): (data: seq<int>)
    requires head < size && |s| < size
    ensures |data| == size && forall i :: 0 <= i < size ==> data[i] in s || data[i] == stale
    ensures forall k :: 0 <= k < |s| ==> 0 <= SlotOf(head, k, size) < size && data[SlotOf(head, k, size)] == s[k]
  {
    seq(size, i requires 0 <= i < size => if PlaceOf(size, head, i) < |s| then s[PlaceOf(size, head, i)] else stale)
  }

  function PlaceOf(size: nat, head: nat, i: nat): nat
    requires head < size && i < size
  {
    if i > head then i - head - 1 else i + size - head - 1
  }

  /** A ring of the balls 1 to count, each once, whose other slots hold balls that were there before. */
  ghost predicate OfBalls(data: seq<int>, head: nat, count: nat)
    requires head < |data| && count < |data|
  {
    && multiset(Ring(data, head, count)) == multiset(Numbered(count))
    && forall i :: 0 <= i < |data| ==> 1 <= data[i] <= count
  }

  lemma OrderLaid(size: nat, head: nat, s: seq<int>, stale: int)
    requires head < size && 2 <= |s| < size && multiset(s) == multiset(Numbered(|s|)) && 1 <= stale <= |s|
    ensures var data := Laid(size, head, s, stale); Ring(data, head, |s|) == s && OfBalls(data, head, |s|)
  {
    var data := Laid(size, head, s, stale);
    assert Ring(data, head, |s|) == s;
    forall i | 0 <= i < size ensures 1 <= data[i] <= |s| {
      if data[i] in s {
        assert data[i] in multiset(s);
        assert data[i] in multiset(Numbered(|s|));
      }
    }
  }

  /** The balls in order, but for the first two. */
  function FirstTwoSwapped(count: nat): (s: seq<int>)
    requires count >= 2
    ensures |s| == count && s[0] == 2 && s[1] == 1 && forall k :: 2 <= k < count ==> s[k] == k + 1
    ensures multiset(s) == multiset(Numbered(count))
  {
    var n := Numbered(count);
    assert n == [1, 2] + n[2..];
    assert multiset([2, 1]) == multiset([1, 2]);
    [2, 1] + n[2..]
  }

  /** m is the place of the ball in slot 0, if the ring reaches round to it: then some ball after the
      first is compared with a smaller one although the balls are in order. */
  predicate RefusesOrder(m: nat, count: nat) {
    || 3 <= count <= m
    || (m == 0 && count >= 3)
    || (m == 1 && count >= 4)
    || (m >= 2 && count >= m + 3)
  }

  /** However large the ring, wherever the balls lie in it and however many there are, the check as written is
      wrong for some order of them: it refuses the starting order, or passes one with the first two swapped. */
  lemma CheckAsWrittenNeverRight(size: nat, head: nat, count: nat) returns (data: seq<int>)
    requires head < size && 2 <= count < size
    ensures |data| == size && OfBalls(data, head, count)
    ensures PassesAsWritten(data, head, count) <==> !Ascending(Ring(data, head, count))
  {
    var m := size - 1 - head;
    if RefusesOrder(m, count) {
      data := Laid(size, head, Numbered(count), 1);
      OrderLaid(size, head, Numbered(count), 1);
      OrderRefused(size, head, count);
    } else {
      data := Laid(size, head, FirstTwoSwapped(count), count);
      OrderLaid(size, head, FirstTwoSwapped(count), count);
      SwappedPasses(size, head, count);
      assert Ring(data, head, count)[0] > Ring(data, head, count)[1];
    }
  }

  lemma OrderRefused(size: nat, head: nat, count: nat)
    requires head < size && 2 <= count < size && RefusesOrder(size - 1 - head, count)
    ensures !PassesAsWritten(Laid(size, head, Numbered(count), 1), head, count)
  {
    var m, data := size - 1 - head, Laid(size, head, Numbered(count), 1);
    var k := if count <= m || m == 0 then 1 else if m == 1 then 2 else m + 1;
    assert !FitsAsWritten(data, SlotOf(head, k, size));
  }

  lemma SwappedPasses(size: nat, head: nat, count: nat)
    requires head < size && 2 <= count < size && !RefusesOrder(size - 1 - head, count)
    ensures PassesAsWritten(Laid(size, head, FirstTwoSwapped(count), count), head, count)
  {
    var m, s := size - 1 - head, FirstTwoSwapped(count);
    var data := Laid(size, head, s, count);
    assert m < count ==> SlotOf(head, m, size) == 0;
    assert m + 1 < count ==> SlotOf(head, m + 1, size) == 1;
    forall k | 0 <= k < count - 1 ensures FitsAsWritten(data, SlotOf(head, k, size)) {
      assert data[SlotOf(head, k, size)] == s[k];
    }
  }

  lemma Next(i: nat, n: nat)
    requires i < n
    ensures (i + 1) % n == if i + 1 == n then 0 else i + 1
  {
  }

  ghost predicate Ascending(s: seq<int>) {
    forall i, j :: 0 <= i < j < |s| ==> s[i] <= s[j]
  }

  lemma {:induction false} Neighbours(s: seq<int>)
    requires forall i :: 0 <= i < |s| - 1 ==> s[i] <= s[i + 1]
    ensures Ascending(s)
  {
    if s != [] {
      var n := |s| - 1;
      Neighbours(s[..n]);
      assert forall i, j :: 0 <= i < j < n ==> s[..n][i] <= s[..n][j];
      assert n > 0 ==> s[n - 1] <= s[n - 1 + 1];
    }
  }
}
