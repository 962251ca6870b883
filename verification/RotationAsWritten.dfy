/**
  The rotation loop and the whole of balance with the right turn as the source has it. They always end.
  Harm once done, nodes lost or put out of order, is never undone.
 */
module RotationAsWritten {
  import opened Counting
  import opened Trees
  import opened TreesAsWritten

  function TurnAsWritten<T>(t: Tree<T>): Tree<T>
    requires t.Node? && !SidesEven(t)
  {
    if Size(t.l) - Size(t.r) < -1 then TurnLeft(t) else TurnRightAsWritten(t)
  }

  /** The first k passes of the rotation loop as written. */
  function TurnedAsWritten<T>(t: Tree<T>, k: nat): (s: Tree<T>)
    requires t.Node?
    ensures s.Node?
    decreases k
  {
    if k == 0 || SidesEven(t) then t else TurnedAsWritten(TurnAsWritten(t), k - 1)
  }

  /** The next pass does no harm: it turns left, or right with at most one node between the two roots. */
  predicate Harmless<T>(t: Tree<T>)
    requires t.Node?
  {
    Size(t.l) - Size(t.r) <= 1 || Size(t.l.r) <= 1
  }

  lemma HarmlessTurn<T>(t: Tree<T>)
    requires t.Node? && !SidesEven(t) && Harmless(t)
    ensures TurnAsWritten(t) == Turn(t)
  {
    if Size(t.l) - Size(t.r) > 1 {
      var lr, spun := t.l.r, Node(Leaf, t.v, t.r);
      assert TurnRight(t) == Node(t.l.l, t.l.v, GraftRight(lr, spun));
      if Size(lr) == 1 {
        assert Size(lr.l) == 0 && Size(lr.r) == 0;
        assert lr.l.Leaf? && lr.r.Leaf?;
        assert GraftRight(lr, spun) == Node(Leaf, lr.v, spun) == OverwriteMinRight(lr, spun);
      }
    }
  }

  lemma TurnAsWrittenIff<T>(t: Tree<T>)
    requires t.Node? && !SidesEven(t) && Distinct(InOrder(t))
    ensures TurnAsWritten(t) == Turn(t) <==> Harmless(t)
    ensures InOrder(TurnAsWritten(t)) == InOrder(t) <==> Harmless(t)
  {
    TurnInOrder(t);
    if Harmless(t) {
      HarmlessTurn(t);
    } else {
      TurnRightAsWrittenKeepsOrderIff(t);
    }
  }

  // ----- Places that a pass leaves as they are -----

  /** The node at place i of the in-order sequence has a right side. */
  predicate HasRight<T>(t: Tree<T>, i: nat)
    requires i < Size(t)
  {
    if i < Size(t.l) then HasRight(t.l, i)
    else if i == Size(t.l) then t.r.Node?
    else HasRight(t.r, i - Size(t.l) - 1)
  }

  /** The node at place i lies on the way from the root to the leftmost node. */
  predicate OnSpine<T>(t: Tree<T>, i: nat) {
    t.Node? && (i == Size(t.l) || (i < Size(t.l) && OnSpine(t.l, i)))
  }

  /** No harmful pass can put the old root behind this place without losing a node. */
  predicate Kept<T>(t: Tree<T>, i: nat)
    requires t.Node? && i < Size(t)
  {
    HasRight(t, i) || OnSpine(t.l, i)
  }

  lemma {:induction false} GraftLeftPlaces<T>(b: Tree<T>, g: Tree<T>, i: nat)
    requires i < Size(b) + Size(g)
    ensures Size(GraftLeft(b, g)) == Size(b) + Size(g)
    ensures HasRight(GraftLeft(b, g), i) == if i < Size(g) then HasRight(g, i) else HasRight(b, i - Size(g))
    ensures OnSpine(g, i) ==> OnSpine(GraftLeft(b, g), i)
  {
    GraftSizes(b, g);
    if b.Node? {
      GraftSizes(b.l, g);
      if i < Size(b.l) + Size(g) {
        GraftLeftPlaces(b.l, g, i);
      }
    }
  }

  lemma {:induction false} GraftRightPlaces<T>(a: Tree<T>, g: Tree<T>, i: nat)
    requires i < Size(a) + Size(g)
    ensures Size(GraftRight(a, g)) == Size(a) + Size(g)
    ensures i < Size(a) && HasRight(a, i) ==> HasRight(GraftRight(a, g), i)
    ensures i >= Size(a) ==> HasRight(GraftRight(a, g), i) == HasRight(g, i - Size(a))
  {
    GraftSizes(a, g);
    if a.Node? && i > Size(a.l) {
      GraftRightPlaces(a.r, g, i - Size(a.l) - 1);
    } else if a.Node? {
      GraftSizes(a.r, g);
    }
  }

  lemma TurnLeftKeeps<T>(t: Tree<T>, i: nat)
    requires t.Node? && t.r.Node? && i < Size(t) && Kept(t, i)
    ensures Size(TurnLeft(t)) == Size(t) && Kept(TurnLeft(t), i)
  {
    var g := Node(t.l, t.v, Leaf);
    GraftLeftPlaces(t.r, g, i);
    if i < Size(g) {
      GraftLeftPlaces(t.r.l, g, i);
    }
  }

  lemma TurnRightKeeps<T>(t: Tree<T>, i: nat)
    requires t.Node? && t.l.Node? && i < Size(t) && Kept(t, i)
    ensures Size(TurnRight(t)) == Size(t) && Kept(TurnRight(t), i)
  {
    var spun := Node(Leaf, t.v, t.r);
    GraftRightPlaces(t.l, spun, i);
    GraftSizes(t.l.r, spun);
  }

  lemma TurnKeeps<T>(t: Tree<T>, i: nat)
    requires t.Node? && !SidesEven(t) && i < Size(t) && Kept(t, i)
    ensures Size(Turn(t)) == Size(t) && Kept(Turn(t), i)
  {
    if Size(t.l) - Size(t.r) < -1 {
      TurnLeftKeeps(t, i);
    } else {
      TurnRightKeeps(t, i);
    }
  }

  lemma {:induction false} MinRightPlaces<T>(t: Tree<T>, g: Tree<T>)
    requires t.Node?
    ensures Size(OverwriteMinRight(t, g)) == Size(t) - Size(MinRight(t)) + Size(g)
    ensures HasRight(t, 0) == MinRight(t).Node?
    ensures Size(OverwriteMinRight(t, g)) > 0 && HasRight(OverwriteMinRight(t, g), 0) == g.Node?
  {
    if t.l.Node? {
      MinRightPlaces(t.l, g);
    }
  }

  /** A harmful pass loses what is right of the leftmost node between the two roots. */
  lemma HarmSize<T>(t: Tree<T>)
    requires t.Node? && !SidesEven(t) && !Harmless(t)
    ensures Size(TurnAsWritten(t)) == Size(t) - Size(MinRight(t.l.r))
  {
    MinRightPlaces(t.l.r, Node(Leaf, t.v, t.r));
  }

  /** It keeps the places up to the new root. */
  lemma HarmKeeps<T>(t: Tree<T>, i: nat)
    requires t.Node? && !SidesEven(t) && !Harmless(t) && i <= Size(t.l.l) && Kept(t, i)
    ensures i < Size(TurnAsWritten(t)) && Kept(TurnAsWritten(t), i)
  {
    HarmSize(t);
    var a, s := t.l, TurnAsWritten(t);
    MinRightPlaces(a.r, Node(Leaf, t.v, t.r));
    assert s.l == a.l && s.r.Node?;
    assert HasRight(t, i) == HasRight(a, i);
    if i < Size(a.l) {
      assert HasRight(a, i) == HasRight(a.l, i) == HasRight(s, i);
    }
  }

  /** When it loses nothing, the place after the new root becomes kept. */
  lemma HarmMarks<T>(t: Tree<T>)
    requires t.Node? && !SidesEven(t) && !Harmless(t) && MinRight(t.l.r).Leaf?
    ensures var i := Size(t.l.l) + 1; Size(TurnAsWritten(t)) == Size(t) > i && !Kept(t, i) && Kept(TurnAsWritten(t), i)
  {
    HarmSize(t);
    var a, s, i := t.l, TurnAsWritten(t), Size(t.l.l) + 1;
    MinRightPlaces(a.r, Node(Leaf, t.v, t.r));
    assert !Kept(t, i) by {
      FirstOfRight(a);
    }
    assert Kept(s, i) by {
      assert s.l == a.l;
      FirstOfRight(s);
    }
  }

  lemma FirstOfRight<T>(t: Tree<T>)
    requires t.Node? && t.r.Node?
    ensures HasRight(t, Size(t.l) + 1) == HasRight(t.r, 0)
  {
  }

  // ----- The loop ends -----

  function BitValue(b: seq<bool>): (v: nat)
    ensures v < Pow2(|b|)
  {
    if b == [] then 0 else 2 * BitValue(b[..|b| - 1]) + if b[|b| - 1] then 1 else 0
  }

  lemma {:induction false} BitValueMonotone(b: seq<bool>, c: seq<bool>)
    requires |b| == |c| && forall i :: 0 <= i < |b| && b[i] ==> c[i]
    ensures BitValue(b) <= BitValue(c)
  {
    if b != [] {
      BitValueMonotone(b[..|b| - 1], c[..|c| - 1]);
    }
  }

  /** A binary number grows when a 0 becomes 1 and no 1 before it is lost. */
  lemma {:induction false} BitValueGrows(b: seq<bool>, c: seq<bool>, j: nat)
    requires |b| == |c| && j < |b| && !b[j] && c[j] && forall i :: 0 <= i < j && b[i] ==> c[i]
    ensures BitValue(b) < BitValue(c)
  {
    var n := |b| - 1;
    if j == n {
      BitValueMonotone(b[..n], c[..n]);
    } else {
      BitValueGrows(b[..n], c[..n], j);
    }
  }

  /** The kept places, read as a binary number. */
  function KeptBits<T>(t: Tree<T>): (b: seq<bool>)
    requires t.Node?
    ensures |b| == Size(t)
  {
    seq(Size(t), i requires 0 <= i < Size(t) => Kept(t, i))
  }

  function Unkept<T>(t: Tree<T>): nat
    requires t.Node?
  {
    Pow2(Size(t)) - BitValue(KeptBits(t))
  }

  /** What a pass brings nearer to its end: nodes are lost, or kept places grow as a number, or else the window
      of roots not yet turned away shrinks. */
  lemma PassDescends<T>(t: Tree<T>, lo: Tree<T>, m: Tree<T>, hi: Tree<T>)
      returns (lo': Tree<T>, m': Tree<T>, hi': Tree<T>)
    requires Window(t, lo, m, hi) && !SidesEven(t)
    ensures var s := TurnAsWritten(t);
      && Window(s, lo', m', hi') && Size(s) <= Size(t)
      && (Size(s) == Size(t) ==> Unkept(s) <= Unkept(t) && (Unkept(s) == Unkept(t) ==> Size(m') < Size(m)))
  {
    var s := TurnAsWritten(t);
    if Harmless(t) {
      HarmlessTurn(t);
      lo', m', hi' := TurnShrinks(t, lo, m, hi);
      forall i | 0 <= i < Size(t) && KeptBits(t)[i] ensures KeptBits(s)[i] {
        TurnKeeps(t, i);
      }
      BitValueMonotone(KeptBits(t), KeptBits(s));
    } else {
      lo', m', hi' := Leaf, s, Leaf;
      WholeWindow(s);
      HarmSize(t);
      if MinRight(t.l.r).Leaf? {
        HarmMarks(t);
        forall i | 0 <= i < Size(t.l.l) + 1 && KeptBits(t)[i] ensures KeptBits(s)[i] {
          HarmKeeps(t, i);
        }
        BitValueGrows(KeptBits(t), KeptBits(s), Size(t.l.l) + 1);
      }
    }
  }

  lemma {:induction false} EndsFrom<T>(t: Tree<T>, lo: Tree<T>, m: Tree<T>, hi: Tree<T>) returns (k: nat)
    requires Window(t, lo, m, hi)
    ensures t.Node? && SidesEven(TurnedAsWritten(t, k))
    decreases Size(t), Unkept(t), Size(m)
  {
    if SidesEven(t) {
      k := 0;
    } else {
      var lo', m', hi' := PassDescends(t, lo, m, hi);
      k := EndsFrom(TurnAsWritten(t), lo', m', hi');
      k := k + 1;
    }
  }

  /** The rotation loop as written ends on every tree, whatever harm it does. */
  lemma RotationAsWrittenEnds<T>(t: Tree<T>)
    requires t.Node?
    ensures exists k: nat :: SidesEven(TurnedAsWritten(t, k))
  {
    WholeWindow(t);
    var k := EndsFrom(t, Leaf, t, Leaf);
  }
  // ----- What a harmful pass does is never undone -----

  ghost predicate FirstDifference<T>(u: seq<T>, o: seq<T>, p: nat) {
    p < |u| && p < |o| && u[..p] == o[..p] && u[p] != o[p]
  }

  /** The tree has lost nodes of the order o, or first departs from it behind a place that is kept. */
  ghost predicate Spoiled<T>(t: Tree<T>, o: seq<T>) {
    || Size(t) < |o|
    || (t.Node? && Size(t) == |o| && Distinct(InOrder(t)) && exists p: nat :: SpoiledAt(t, o, p))
  }

  ghost predicate SpoiledAt<T>(t: Tree<T>, o: seq<T>, p: nat)
    requires t.Node?
  {
    FirstDifference(InOrder(t), o, p) && p <= Size(t) && (p == 0 || Kept(t, p - 1))
  }

  /** Around a harmful pass that loses nothing: what was between the new root and the old one comes last. */
  lemma HarmOrder<T>(t: Tree<T>) returns (f: seq<T>, a: seq<T>, x: seq<T>)
    requires t.Node? && !SidesEven(t) && !Harmless(t) && MinRight(t.l.r).Leaf?
    ensures InOrder(t) == f + a + x && InOrder(TurnAsWritten(t)) == f + x + a
    ensures |f| == Size(t.l.l) + 2 && a != [] && x != []
  {
    var lr, spun := t.l.r, Node(Leaf, t.v, t.r);
    f, a, x := InOrder(t.l.l) + [t.l.v] + [Leftmost(lr)], AfterMin(lr), [t.v] + InOrder(t.r);
    MinParts(lr);
    OverwriteMinInOrder(lr, spun);
    assert InOrder(spun) == x;
    assert InOrder(t.l) == f + a;
    assert InOrder(t) == f + a + x;
    assert InOrder(TurnAsWritten(t)) == f + x + a;
  }

  lemma DistinctMoved<T>(f: seq<T>, a: seq<T>, x: seq<T>)
    requires Distinct(f + a + x)
    ensures Distinct(f + x + a)
  {
    var u, w := f + a + x, f + x + a;
    forall i, j | 0 <= i < j < |w| ensures w[i] != w[j] {
      var i', j' := MovedFrom(|f|, |x|, |a|, i), MovedFrom(|f|, |x|, |a|, j);
      assert w[i] == u[i'] && w[j] == u[j'];
    }
  }

  function MovedFrom(f: nat, x: nat, a: nat, i: nat): nat
    requires i < f + x + a
  {
    if i < f then i else if i < f + x then i + a else i - x
  }

  /** The first harm. */
  lemma HarmSpoils<T>(t: Tree<T>)
    requires t.Node? && !SidesEven(t) && !Harmless(t) && Distinct(InOrder(t))
    ensures Spoiled(TurnAsWritten(t), InOrder(t))
  {
    HarmSize(t);
    if MinRight(t.l.r).Leaf? {
      var f, a, x := HarmOrder(t);
      DistinctMoved(f, a, x);
      HarmMarks(t);
      DepartsAfter(f, a, x, InOrder(t));
      assert SpoiledAt(TurnAsWritten(t), InOrder(t), |f|);
    }
  }

  lemma DepartsAfter<T>(f: seq<T>, a: seq<T>, x: seq<T>, o: seq<T>)
    requires Distinct(f + a + x) && a != [] && x != [] && |f| < |o| && o[..|f|] == f && o[|f|] == a[0]
    ensures FirstDifference(f + x + a, o, |f|)
  {
    var u := f + a + x;
    assert u[|f|] == a[0] && u[|f| + |a|] == x[0];
    assert (f + x + a)[..|f|] == f && (f + x + a)[|f|] == x[0];
  }

  lemma SpoiledTurn<T>(t: Tree<T>, o: seq<T>)
    requires t.Node? && !SidesEven(t) && Spoiled(t, o)
    ensures Spoiled(TurnAsWritten(t), o)
  {
    WholeWindow(t);
    var lo, m, hi := PassDescends(t, Leaf, t, Leaf);
    if Size(t) == |o| {
      var p: nat :| SpoiledAt(t, o, p);
      if Harmless(t) {
        HarmlessTurn(t);
        TurnInOrder(t);
        if p > 0 {
          TurnKeeps(t, p - 1);
        }
        assert SpoiledAt(TurnAsWritten(t), o, p);
      } else {
        HarmSize(t);
        if MinRight(t.l.r).Leaf? {
          SpoiledHarm(t, o, p);
        }
      }
    }
  }

  lemma SpoiledHarm<T>(t: Tree<T>, o: seq<T>, p: nat)
    requires t.Node? && !SidesEven(t) && !Harmless(t) && MinRight(t.l.r).Leaf?
    requires Size(t) == |o| && Distinct(InOrder(t)) && SpoiledAt(t, o, p)
    ensures Spoiled(TurnAsWritten(t), o)
  {
    var f, a, x := HarmOrder(t);
    var s := TurnAsWritten(t);
    DistinctMoved(f, a, x);
    HarmMarks(t);
    if p < |f| {
      DifferenceBefore(f, a, x, o, p);
      if p > 0 {
        HarmKeeps(t, p - 1);
      }
      assert SpoiledAt(s, o, p);
    } else {
      AgreesBefore(f, a, x, o, p);
      DepartsAfter(f, a, x, o);
      assert SpoiledAt(s, o, |f|);
    }
  }

  lemma DifferenceBefore<T>(f: seq<T>, a: seq<T>, x: seq<T>, o: seq<T>, p: nat)
    requires FirstDifference(f + a + x, o, p) && p < |f|
    ensures FirstDifference(f + x + a, o, p)
  {
    assert (f + x + a)[..p] == f[..p] == (f + a + x)[..p];
  }

  lemma AgreesBefore<T>(f: seq<T>, a: seq<T>, x: seq<T>, o: seq<T>, p: nat)
    requires FirstDifference(f + a + x, o, p) && p > |f| && a != []
    ensures o[..|f|] == f && o[|f|] == a[0]
  {
    var u := f + a + x;
    assert u[..p][|f|] == o[..p][|f|] && u[..p][..|f|] == o[..p][..|f|];
    assert u[..p][..|f|] == f && o[..p][..|f|] == o[..|f|];
  }

  lemma {:induction false} SpoiledTurned<T>(t: Tree<T>, o: seq<T>, k: nat)
    requires t.Node? && Spoiled(t, o)
    ensures Spoiled(TurnedAsWritten(t, k), o)
    decreases k
  {
    if k > 0 && !SidesEven(t) {
      SpoiledTurn(t, o);
      SpoiledTurned(TurnAsWritten(t), o, k - 1);
    }
  }

  /** Some pass of the loop meant, before the k-th, would have been harmful. */
  lemma {:induction false} HarmedSpoils<T>(t: Tree<T>, k: nat, i: nat)
    requires t.Node? && Distinct(InOrder(t)) && i < k && !Harmless(Turned(t, i))
    ensures Spoiled(TurnedAsWritten(t, k), InOrder(t))
    decreases k
  {
    if !Harmless(t) {
      HarmSpoils(t);
      SpoiledTurned(TurnAsWritten(t), InOrder(t), k - 1);
    } else {
      HarmlessTurn(t);
      TurnInOrder(t);
      HarmedSpoils(Turn(t), k - 1, i - 1);
    }
  }

  lemma {:induction false} HarmlessSoFar<T>(t: Tree<T>, k: nat)
    requires t.Node? && forall i: nat :: i < k ==> Harmless(Turned(t, i))
    ensures TurnedAsWritten(t, k) == Turned(t, k)
    decreases k
  {
    if k > 0 && !SidesEven(t) {
      assert Harmless(Turned(t, 0));
      HarmlessTurn(t);
      forall i: nat | i < k - 1 ensures Harmless(Turned(Turn(t), i)) {
        assert Harmless(Turned(t, i + 1));
      }
      HarmlessSoFar(Turn(t), k - 1);
    }
  }

  /** After any number of passes of the loop as written the in-order sequence of a tree of distinct nodes is
      unchanged exactly when none of those passes was harmful; then they are the passes of the loop meant. */
  lemma RotationAsWrittenIff<T>(t: Tree<T>, k: nat)
    requires t.Node? && Distinct(InOrder(t))
    ensures InOrder(TurnedAsWritten(t, k)) == InOrder(t) <==> forall i: nat :: i < k ==> Harmless(Turned(t, i))
    ensures TurnedAsWritten(t, k) == Turned(t, k) <==> forall i: nat :: i < k ==> Harmless(Turned(t, i))
  {
    if forall i: nat :: i < k ==> Harmless(Turned(t, i)) {
      HarmlessSoFar(t, k);
    } else {
      var i: nat :| i < k && !Harmless(Turned(t, i));
      HarmedSpoils(t, k, i);
    }
  }
  // ----- The whole of balance -----

  lemma {:induction false} TurnedSize<T>(t: Tree<T>, k: nat)
    requires t.Node?
    ensures Size(TurnedAsWritten(t, k)) <= Size(t)
    decreases k
  {
    if k > 0 && !SidesEven(t) {
      WholeWindow(t);
      var lo, m, hi := PassDescends(t, Leaf, t, Leaf);
      TurnedSize(TurnAsWritten(t), k - 1);
    }
  }

  lemma {:induction false} EvenAlready<T>(t: Tree<T>, j: nat, k: nat)
    requires t.Node? && SidesEven(TurnedAsWritten(t, j)) && SidesEven(TurnedAsWritten(t, k))
    ensures TurnedAsWritten(t, j) == TurnedAsWritten(t, k)
    decreases j
  {
    if !SidesEven(t) {
      EvenAlready(TurnAsWritten(t), j - 1, k - 1);
    }
  }

  /** The tree the loop as written ends with. */
  ghost function SettledAsWritten<T>(t: Tree<T>): (s: Tree<T>)
    requires t.Node?
    ensures s.Node? && SidesEven(s) && Size(s) <= Size(t)
  {
    RotationAsWrittenEnds(t);
    var k: nat :| SidesEven(TurnedAsWritten(t, k));
    TurnedSize(t, k);
    TurnedAsWritten(t, k)
  }

  lemma SettledIs<T>(t: Tree<T>, k: nat)
    requires t.Node? && SidesEven(TurnedAsWritten(t, k))
    ensures SettledAsWritten(t) == TurnedAsWritten(t, k)
  {
    var j: nat :| SidesEven(TurnedAsWritten(t, j)) && SettledAsWritten(t) == TurnedAsWritten(t, j);
    EvenAlready(t, j, k);
  }

  ghost function RebalancedAsWritten<T>(t: Tree<T>): (b: Tree<T>)
    ensures Size(b) <= Size(t)
    decreases Size(t)
  {
    match t
    case Leaf => Leaf
    case Node(_, _, _) =>
      var s := SettledAsWritten(t);
      Node(RebalancedAsWritten(s.l), s.v, RebalancedAsWritten(s.r))
  }

  /** No pass at the root is harmful, nor any further down. */
  ghost predicate HarmlessThroughout<T>(t: Tree<T>)
    decreases Size(t)
  {
    t.Node? ==>
      && (forall k: nat :: Harmless(Turned(t, k)))
      && var s := Turned(t, Size(t));
         HarmlessThroughout(s.l) && HarmlessThroughout(s.r)
  }

  /** Balancing the sides of a spoiled tree does not bring the order back. */
  lemma {:induction false} SpoiledSides<T>(s: Tree<T>, o: seq<T>)
    requires s.Node? && Spoiled(s, o)
    ensures InOrder(Node(RebalancedAsWritten(s.l), s.v, RebalancedAsWritten(s.r))) != o
    decreases Size(s), 0
  {
    var b := Node(RebalancedAsWritten(s.l), s.v, RebalancedAsWritten(s.r));
    if Size(b) == Size(s) == |o| {
      var p: nat :| SpoiledAt(s, o, p);
      OrderParts(b);
      if p < Size(s.l) {
        SpoiledLeft(s, o, p);
        SpoiledStays(s.l, o[..Size(s.l)]);
      } else if p > Size(s.l) {
        SpoiledRight(s, o, p);
        SpoiledStays(s.r, o[Size(s.l) + 1..]);
      } else {
        OrderParts(s);
      }
    }
  }

  lemma OrderParts<T>(t: Tree<T>)
    requires t.Node?
    ensures var n := Size(t.l);
      InOrder(t)[..n] == InOrder(t.l) && InOrder(t)[n] == t.v && InOrder(t)[n + 1..] == InOrder(t.r)
  {
  }

  lemma SpoiledLeft<T>(s: Tree<T>, o: seq<T>, p: nat)
    requires s.Node? && Size(s) == |o| && Distinct(InOrder(s)) && SpoiledAt(s, o, p) && p < Size(s.l)
    ensures Spoiled(s.l, o[..Size(s.l)])
  {
    DistinctSides(s);
    OrderParts(s);
    DifferenceInFront(InOrder(s), o, p, Size(s.l));
    assert p > 0 ==> Kept(s.l, p - 1);
    assert SpoiledAt(s.l, o[..Size(s.l)], p);
  }

  lemma DifferenceInFront<T>(u: seq<T>, o: seq<T>, p: nat, n: nat)
    requires FirstDifference(u, o, p) && p < n <= |u| && n <= |o|
    ensures FirstDifference(u[..n], o[..n], p)
  {
    assert u[..n][..p] == u[..p] && o[..n][..p] == o[..p];
  }

  lemma DifferenceBehind<T>(u: seq<T>, o: seq<T>, p: nat, n: nat)
    requires FirstDifference(u, o, p) && n <= p
    ensures FirstDifference(u[n..], o[n..], p - n)
  {
    assert u[n..][..p - n] == u[..p][n..] && o[n..][..p - n] == o[..p][n..];
  }

  lemma SpoiledRight<T>(s: Tree<T>, o: seq<T>, p: nat)
    requires s.Node? && Size(s) == |o| && Distinct(InOrder(s)) && SpoiledAt(s, o, p) && p > Size(s.l)
    ensures Spoiled(s.r, o[Size(s.l) + 1..])
  {
    var q := p - Size(s.l) - 1;
    DistinctSides(s);
    OrderParts(s);
    DifferenceBehind(InOrder(s), o, p, Size(s.l) + 1);
    if q > 0 {
      KeptRight(s, q - 1);
    }
    assert SpoiledAt(s.r, o[Size(s.l) + 1..], q);
  }

  lemma KeptRight<T>(s: Tree<T>, i: nat)
    requires s.Node? && i < Size(s.r) && Kept(s, Size(s.l) + 1 + i)
    ensures s.r.Node? && Kept(s.r, i)
  {
    SpineInside(s.l, Size(s.l) + 1 + i);
  }

  lemma SpineInside<T>(t: Tree<T>, i: nat)
    ensures OnSpine(t, i) ==> i < Size(t)
  {
  }

  lemma {:induction false} SpoiledStays<T>(t: Tree<T>, o: seq<T>)
    requires Spoiled(t, o)
    ensures InOrder(RebalancedAsWritten(t)) != o
    decreases Size(t), 1
  {
    if t.Node? {
      var s := SettledAsWritten(t);
      var k: nat :| SidesEven(TurnedAsWritten(t, k)) && s == TurnedAsWritten(t, k);
      SpoiledTurned(t, o, k);
      SpoiledSides(s, o);
    }
  }

  lemma SidesSame<T>(s: Tree<T>, bl: Tree<T>, br: Tree<T>)
    requires s.Node? && Size(bl) <= Size(s.l) && Size(br) <= Size(s.r)
    ensures InOrder(Node(bl, s.v, br)) == InOrder(s)
       <==> InOrder(bl) == InOrder(s.l) && InOrder(br) == InOrder(s.r)
  {
    var u := InOrder(Node(bl, s.v, br));
    if u == InOrder(s) {
      OrderParts(Node(bl, s.v, br));
      OrderParts(s);
      assert |u| == Size(s) && Size(bl) == Size(s.l);
    }
  }

  /** The whole of balance as written keeps the nodes of a tree of distinct nodes in their order exactly when no
      pass of the balance meant is harmful; and then it is the balance meant. */
  lemma {:induction false} BalanceAsWrittenIff<T>(t: Tree<T>)
    requires Distinct(InOrder(t))
    ensures InOrder(RebalancedAsWritten(t)) == InOrder(t) <==> HarmlessThroughout(t)
    ensures HarmlessThroughout(t) ==> RebalancedAsWritten(t) == Rebalanced(t)
    decreases Size(t)
  {
    if t.Node? {
      if k: nat :| !Harmless(Turned(t, k)) {
        HarmedBalance(t, k);
      } else {
        var s := Turned(t, Size(t));
        RotationTerminates(t);
        HarmlessSoFar(t, Size(t));
        SettledIs(t, Size(t));
        DistinctSides(s);
        BalanceAsWrittenIff(s.l);
        BalanceAsWrittenIff(s.r);
        SidesSame(s, RebalancedAsWritten(s.l), RebalancedAsWritten(s.r));
      }
    }
  }

  lemma HarmedBalance<T>(t: Tree<T>, i: nat)
    requires t.Node? && Distinct(InOrder(t)) && !Harmless(Turned(t, i))
    ensures InOrder(RebalancedAsWritten(t)) != InOrder(t)
  {
    var s := SettledAsWritten(t);
    var k: nat :| SidesEven(TurnedAsWritten(t, k)) && s == TurnedAsWritten(t, k);
    StaysEven(t, k, i + 1);
    HarmedSpoils(t, k + (i + 1), i);
    SpoiledSides(s, InOrder(t));
  }

  lemma {:induction false} StaysEven<T>(t: Tree<T>, k: nat, j: nat)
    requires t.Node? && SidesEven(TurnedAsWritten(t, k))
    ensures TurnedAsWritten(t, k + j) == TurnedAsWritten(t, k)
    decreases k
  {
    if !SidesEven(t) {
      StaysEven(TurnAsWritten(t), k - 1, j);
    }
  }

  lemma {:induction false} BalancedStays<T>(t: Tree<T>)
    requires Balanced(t)
    ensures RebalancedAsWritten(t) == t
  {
    if t.Node? {
      SettledIs(t, 0);
      BalancedStays(t.l);
      BalancedStays(t.r);
    }
  }

  lemma LosesForGood<T>(t: Tree<T>)
    requires t.Node? && !SidesEven(t)
    ensures Size(RebalancedAsWritten(t)) <= Size(TurnAsWritten(t))
  {
    var next := TurnAsWritten(t);
    RotationAsWrittenEnds(next);
    var k: nat :| SidesEven(TurnedAsWritten(next, k));
    assert TurnedAsWritten(t, k + 1) == TurnedAsWritten(next, k);
    SettledIs(t, k + 1);
    TurnedSize(next, k);
    var s := SettledAsWritten(t);
    assert RebalancedAsWritten(t) == Node(RebalancedAsWritten(s.l), s.v, RebalancedAsWritten(s.r));
  }

  /** Sides that are even at the root do not stay so when balancing the left one loses too much. */
  lemma UnevenSides<T>(l: Tree<T>, v: T, r: Tree<T>)
    requires SidesEven(Node(l, v, r)) && Balanced(r) && l.Node? && !SidesEven(l) && Size(TurnAsWritten(l)) + 1 < Size(r)
    ensures !Balanced(RebalancedAsWritten(Node(l, v, r)))
  {
    SettledIs(Node(l, v, r), 0);
    BalancedStays(r);
    LosesForGood(l);
  }

  /** Ten nodes that balance as written leaves with a left side of three and a right side of five. */
  lemma BalanceAsWrittenUneven()
    ensures var t := Node(Node(Node(Leaf, 1, Node(Leaf, 2, Node(Leaf, 3, Leaf))), 4, Leaf), 5,
                          Node(Node(Leaf, 6, Node(Leaf, 7, Leaf)), 8, Node(Leaf, 9, Node(Leaf, 10, Leaf))));
      Size(t) == 10 && !Balanced(RebalancedAsWritten(t))
  {
    var l := Node(Node(Leaf, 1, Node(Leaf, 2, Node(Leaf, 3, Leaf))), 4, Leaf);
    var r := Node(Node(Leaf, 6, Node(Leaf, 7, Leaf)), 8, Node(Leaf, 9, Node(Leaf, 10, Leaf)));
    assert TurnAsWritten(l) == Node(Leaf, 1, Node(Leaf, 2, Node(Leaf, 4, Leaf)));
    UnevenSides(l, 5, r);
  }
}
