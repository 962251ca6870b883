/** The Josephus ring: counting round a circle of nodes, taking out every n-th, until one is left. */
module Josephus {
  import opened Counting

  // ----- On sequences -----

  /** Those taken out of the circle s, in order, counting from its first. */
  function Killed<T>(s: seq<T>, n: nat): seq<T>
    requires n >= 1
    decreases |s|
  {
    if |s| <= 1 then []
    else
      var k := (n - 1) % |s|;
      [s[k]] + Killed(Without(s, k), n)
  }

  /** The circle after its element k has gone, starting with the one after it. */
  function Without<T>(s: seq<T>, k: nat): (r: seq<T>)
    requires k < |s|
    ensures |r| == |s| - 1
  {
    s[k + 1..] + s[..k]
  }

  function Survivor<T>(s: seq<T>, n: nat): T
    requires n >= 1 && s != []
    decreases |s|
  {
    if |s| == 1 then s[0] else Survivor(Without(s, (n - 1) % |s|), n)
  }

  /** The recurrence for the survivor's place, counting from 0. */
  function J(m: nat, n: nat): (r: nat)
    requires m >= 1
    ensures r < m
  {
    if m == 1 then 0 else (J(m - 1, n) + n) % m
  }

  lemma ShiftMod(n: nat, m: nat, j: nat)
    requires n >= 1 && m >= 1 && j < m
    ensures var k := (n - 1) % m;
      (j + n) % m == if k + 1 + j < m then k + 1 + j else k + 1 + j - m
  {
    var k, q := (n - 1) % m, (n - 1) / m;
    assert n - 1 == q * m + k;
    if k + 1 + j < m {
      DivModUnique(j + n, m, q, k + 1 + j);
    } else {
      assert (q + 1) * m == q * m + m;
      DivModUnique(j + n, m, q + 1, k + 1 + j - m);
    }
  }

  /** The survivor stands at the place the recurrence gives, for every circle and every step. */
  lemma {:induction false} SurvivorPlace<T>(s: seq<T>, n: nat)
    requires n >= 1 && s != []
    ensures Survivor(s, n) == s[J(|s|, n)]
    decreases |s|
  {
    if |s| > 1 {
      SurvivorPlace(Without(s, (n - 1) % |s|), n);
      ShiftMod(n, |s|, J(|s| - 1, n));
    }
  }

  /** Everybody is either taken out once or survives. */
  lemma {:induction false} KilledAndSurvivor<T>(s: seq<T>, n: nat)
    requires n >= 1 && s != []
    ensures multiset(Killed(s, n)) + multiset{Survivor(s, n)} == multiset(s)
    decreases |s|
  {
    if |s| == 1 {
      assert s == [s[0]];
    } else {
      var k := (n - 1) % |s|;
      KilledAndSurvivor(Without(s, k), n);
      WithoutElements(s, k);
    }
  }

  lemma WithoutElements<T>(s: seq<T>, k: nat)
    requires k < |s|
    ensures multiset(Without(s, k)) + multiset{s[k]} == multiset(s)
  {
    assert s == s[..k] + ([s[k]] + s[k + 1..]);
  }

  /** Of the people 1 to m the one numbered J(m) + 1 is left. */
  lemma LastNumber(m: nat, n: nat)
    requires m >= 1 && n >= 1
    ensures Survivor(Numbered(m), n) == J(m, n) + 1
    ensures multiset(Killed(Numbered(m), n)) + multiset{J(m, n) + 1} == multiset(Numbered(m))
  {
    SurvivorPlace(Numbered(m), n);
    KilledAndSurvivor(Numbered(m), n);
  }

  // ----- The ring of nodes -----

  class Node {
    const data: int
    var next: Node

    constructor (data: int)
      ensures this.data == data && next == this
    {
      this.data := data;
      next := this;
    }
  }

  function After(i: nat, m: nat): nat
    requires i < m
  {
    if i + 1 == m then 0 else i + 1
  }

  /** The links from the first node of s form one circle over exactly the nodes of s, in order. */
  ghost predicate Ring(s: seq<Node>)
    reads s
  {
    && s != []
    && (forall i, j :: 0 <= i < j < |s| ==> s[i] != s[j])
    && (forall i :: 0 <= i < |s| ==> s[i].next == s[After(i, |s|)])
  }

  ghost function Datas(s: seq<Node>): (r: seq<int>)
    ensures |r| == |s| && forall i :: 0 <= i < |s| ==> r[i] == s[i].data
  {
    seq(|s|, i requires 0 <= i < |s| => s[i].data)
  }

  /** A circle of the numbers 1 to n; the first node is made whatever n is. */
  method JoseCreate(n: int) returns (me: Node, ghost ring: seq<Node>)
    ensures Ring(ring) && fresh(ring) && ring[0] == me
    ensures |ring| == (if n >= 1 then n else 1) && Datas(ring) == Numbered(|ring|)
  {
    var i := 1;
    me := new Node(i);
    ring := [me];
    i := i + 1;
    var cur := me;
    while i <= n
      invariant Ring(ring) && fresh(ring) && ring[0] == me && cur == ring[|ring| - 1]
      invariant |ring| == i - 1 && (i <= n + 1 || i == 2)
      invariant forall k :: 0 <= k < |ring| ==> ring[k].data == k + 1
    {
      var newnode := new Node(i);
      newnode.next := me;
      cur.next := newnode;
      cur := newnode;
      ring := ring + [newnode];
      i := i + 1;
    }
  }

  /** The place in s of element i of Without(s, k). */
  function PlaceWithout(k: nat, i: nat, m: nat): nat
    requires k < m && i + 1 < m
  {
    if k + 1 + i < m then k + 1 + i else k + 1 + i - m
  }

  lemma WithoutAt<T>(s: seq<T>, k: nat, i: nat)
    requires k < |s| && i + 1 < |s|
    ensures PlaceWithout(k, i, |s|) < |s| && Without(s, k)[i] == s[PlaceWithout(k, i, |s|)]
  {
  }

  lemma PlaceAfter(k: nat, i: nat, m: nat)
    requires k < m && i + 1 < m
    ensures var j := PlaceWithout(k, i, m);
      if i + 2 == m then After(j, m) == k && PlaceWithout(k, 0, m) == After(k, m)
      else After(j, m) == PlaceWithout(k, i + 1, m) != k
  {
  }

  /** Taking out node k, by linking the one before it past it, leaves a circle over the others. */
  lemma RingWithout(s: seq<Node>, k: nat)
    requires |s| >= 2 && k < |s|
    requires forall i, j :: 0 <= i < j < |s| ==> s[i] != s[j]
    requires forall i :: 0 <= i < |s| && After(i, |s|) != k ==> s[i].next == s[After(i, |s|)]
    requires forall i :: 0 <= i < |s| && After(i, |s|) == k ==> s[i].next == s[After(k, |s|)]
    ensures Ring(Without(s, k))
  {
    var m, r := |s|, Without(s, k);
    forall i | 0 <= i < |r| ensures r[i].next == r[After(i, |r|)] {
      WithoutAt(s, k, i);
      WithoutAt(s, k, After(i, |r|));
      PlaceAfter(k, i, m);
    }
    forall i, j | 0 <= i < j < |r| ensures r[i] != r[j] {
      WithoutAt(s, k, i);
      WithoutAt(s, k, j);
    }
  }

  /** One round of counting: take out every n-th, here the one at place (n - 1) % |s|. */
  method KillOne(me: Node, n: nat, ghost s: seq<Node>) returns (next: Node, data: int)
    requires n >= 2 && Ring(s) && |s| >= 2 && s[0] == me
    modifies s
    ensures var k := (n - 1) % |s|;
      data == s[k].data && Ring(Without(s, k)) && next == Without(s, k)[0]
  {
    var cur, node := me, me;
    var i := 1;
    ghost var c: nat, p: nat := 0, |s| - 1;
    while i < n
      invariant Ring(s) && 1 <= i <= n && c == (i - 1) % |s| && cur == s[c]
      invariant p < |s| && After(p, |s|) == c && (i > 1 ==> node == s[p])
    {
      NextMod(i - 1, |s|);
      assert s[c].next == s[After(c, |s|)];
      node := cur;
      cur := cur.next;
      p, c := c, After(c, |s|);
      i := i + 1;
    }
    data := cur.data;
    assert s[c].next == s[After(c, |s|)];
    node.next := cur.next;
    next := node.next;
    assert forall i :: 0 <= i < |s| && i != p ==> After(i, |s|) != c;
    RingWithout(s, c);
  }

  /** Leaves the survivor alone in its circle; out is the order in which the others went. */
  method JoseKill(me: Node, n: nat, ghost ring: seq<Node>) returns (me': Node, out: seq<int>)
    requires n >= 2 && Ring(ring) && ring[0] == me
    modifies ring
    ensures out == Killed(Datas(ring), n)
    ensures me' == Survivor(ring, n) && me'.next == me'
  {
    var cur := me;
    out := [];
    ghost var s, all, last := ring, Killed(Datas(ring), n), Survivor(ring, n);
    while cur != cur.next
      invariant Ring(s) && s[0] == cur
      invariant forall i :: 0 <= i < |s| ==> s[i] in ring
      invariant Survivor(s, n) == last && out + Killed(Datas(s), n) == all
      decreases |s|
    {
      var data;
      ghost var k := (n - 1) % |s|;
      KillStep(s, out, n);
      cur, data := KillOne(cur, n, s);
      out := out + [data];
      s := Without(s, k);
    }
    me' := cur;
  }

  lemma KillStep(s: seq<Node>, out: seq<int>, n: nat)
    requires n >= 1 && |s| >= 2
    ensures var k := (n - 1) % |s|;
      && out + Killed(Datas(s), n) == out + [s[k].data] + Killed(Datas(Without(s, k)), n)
      && Survivor(s, n) == Survivor(Without(s, k), n)
  {
    var k := (n - 1) % |s|;
    assert Datas(Without(s, k)) == Without(Datas(s), k);
  }

  lemma NextMod(i: nat, m: nat)
    requires m >= 1
    ensures (i + 1) % m == After(i % m, m)
  {
    var q, r := i / m, i % m;
    assert i == q * m + r;
    if r + 1 == m {
      assert (q + 1) * m == q * m + m;
      DivModUnique(i + 1, m, q + 1, 0);
    } else {
      DivModUnique(i + 1, m, q, r + 1);
    }
  }

  /** The program for n people and step k: J(n) + 1 is left in a circle of one, and everybody else went once. */
  method Play(people: nat, step: nat) returns (last: Node, out: seq<int>)
    requires people >= 1 && step >= 2
    ensures last.data == J(people, step) + 1 && last.next == last
    ensures out == Killed(Numbered(people), step)
    ensures multiset(out) + multiset{last.data} == multiset(Numbered(people))
  {
    var me, ring := JoseCreate(people);
    last, out := JoseKill(me, step, ring);
    DatasCommute(ring, step);
    LastNumber(people, step);
  }

  lemma {:induction false} DatasCommute(s: seq<Node>, n: nat)
    requires n >= 1 && s != []
    ensures Survivor(s, n).data == Survivor(Datas(s), n)
    decreases |s|
  {
    if |s| > 1 {
      var k := (n - 1) % |s|;
      assert Datas(Without(s, k)) == Without(Datas(s), k);
      DatasCommute(Without(s, k), n);
    }
  }
}
