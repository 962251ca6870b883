/**
  The rotations, the balancing and the deletion of the search tree with find_max as the source has it:
  it goes on with find_min, so it stops at the leftmost node of the right side.
 */
module TreesAsWritten {
  import opened Counting
  import opened Trees

  /** The source's find_max looks for the minimum of the right side, so its right turn
      overwrites the right link of the leftmost node of t.l.r instead. */
  function OverwriteMinRight<T>(t: Tree<T>, g: Tree<T>): Tree<T>
    requires t.Node?
  {
    if t.l.Leaf? then Node(Leaf, t.v, g) else Node(OverwriteMinRight(t.l, g), t.v, t.r)
  }

  /** g becomes the right side of what find_max as written returns. */
  function HangAsWritten<T>(t: Tree<T>, g: Tree<T>): Tree<T>
    requires t.Node?
  {
    Node(t.l, t.v, if t.r.Leaf? then g else OverwriteMinRight(t.r, g))
  }

  function TurnRightAsWritten<T>(t: Tree<T>): Tree<T>
    requires t.Node? && t.l.Node?
  {
    HangAsWritten(t.l, Node(Leaf, t.v, t.r))
  }

  function Leftmost<T>(t: Tree<T>): T
    requires t.Node?
  {
    if t.l.Leaf? then t.v else Leftmost(t.l)
  }

  /** What follows the minimum's own right side in t. */
  function AfterMin<T>(t: Tree<T>): seq<T>
    requires t.Node?
  {
    if t.l.Leaf? then [] else AfterMin(t.l) + [t.v] + InOrder(t.r)
  }

  lemma {:induction false} OverwriteMinInOrder<T>(t: Tree<T>, g: Tree<T>)
    requires t.Node?
    ensures InOrder(OverwriteMinRight(t, g)) == [Leftmost(t)] + InOrder(g) + AfterMin(t)
    ensures |AfterMin(t)| < Size(t) && (t.l.Leaf? ==> AfterMin(t) == []) && (t.l.Node? ==> AfterMin(t) != [])
    ensures InOrder(t)[0] == Leftmost(t)
  {
    if t.l.Node? {
      OverwriteMinInOrder(t.l, g);
      var front := [Leftmost(t)] + InOrder(g);
      AssocNode(t, OverwriteMinRight(t.l, g), t.r);
      Assoc(front, AfterMin(t.l), [t.v] + InOrder(t.r));
      Assoc(AfterMin(t.l), [t.v], InOrder(t.r));
    } else {
      assert InOrder(OverwriteMinRight(t, g)) == [t.v] + InOrder(g);
    }
  }

  ghost predicate Distinct<T>(s: seq<T>) {
    forall i, j :: 0 <= i < j < |s| ==> s[i] != s[j]
  }

  /** With find_max as written, a right turn keeps the in-order sequence of a tree of distinct
      nodes exactly when the left child's right side has at most one node. */
  lemma TurnRightAsWrittenKeepsOrderIff<T>(t: Tree<T>)
    requires t.Node? && t.l.Node?
    requires Distinct(InOrder(t))
    ensures InOrder(TurnRightAsWritten(t)) == InOrder(t) <==> Size(t.l.r) <= 1
  {
    var lr, front, back := t.l.r, InOrder(t.l.l) + [t.l.v], InOrder(t.r);
    if lr.Leaf? {
      Assoc(front, [t.v], back);
    } else {
      WrittenOrder(t);
      OverwriteMinInOrder(lr, Leaf);
      assert InOrder(t) == front + InOrder(lr) + [t.v] + back;
      Misplaced(front, InOrder(lr), t.v, back, AfterMin(lr), InOrder(t));
    }
  }

  // ----- What that does to deletion -----

  /** Deletion hangs the right side on what find_max as written returns. */
  function SplicedAsWritten<T>(t: Tree<T>): Tree<T>
    requires t.Node?
  {
    if t.l.Leaf? then t.r else HangAsWritten(t.l, t.r)
  }

  function DeletionAsWritten<T>(t: Tree<T>, id: int, key: T -> int): Tree<T> {
    match t
    case Leaf => Leaf
    case Node(l, v, r) =>
      if key(v) == id then SplicedAsWritten(t)
      else if id < key(v) then Node(DeletionAsWritten(l, id, key), v, r)
      else Node(l, v, DeletionAsWritten(r, id, key))
  }

  /** The right side of the leftmost node. */
  function MinRight<T>(t: Tree<T>): Tree<T>
    requires t.Node?
  {
    if t.l.Leaf? then t.r else MinRight(t.l)
  }

  /** Nothing is overwritten, or nothing lands between other nodes. */
  predicate SpliceHarmless<T>(t: Tree<T>)
    requires t.Node?
  {
    t.l.Leaf? || Size(t.l.r) <= 1 || (t.r.Leaf? && MinRight(t.l.r).Leaf?)
  }

  lemma {:induction false} MinParts<T>(t: Tree<T>)
    requires t.Node?
    ensures InOrder(t) == [Leftmost(t)] + InOrder(MinRight(t)) + AfterMin(t)
  {
    if t.l.Node? {
      MinParts(t.l);
      Assoc([Leftmost(t)] + InOrder(MinRight(t)), AfterMin(t.l), [t.v] + InOrder(t.r));
      Assoc(AfterMin(t.l), [t.v], InOrder(t.r));
      AssocNode(t, t.l, t.r);
    }
  }

  lemma SplicedAsWrittenIff<T>(t: Tree<T>)
    requires t.Node? && Distinct(InOrder(t))
    ensures InOrder(SplicedAsWritten(t)) == InOrder(Spliced(t)) <==> SpliceHarmless(t)
  {
    if t.l.Node? {
      GraftRightInOrder(t.l, t.r);
      if t.l.r.Node? {
        var lr, front, back := t.l.r, InOrder(t.l.l) + [t.l.v], InOrder(t.r);
        var m, mid, after := [Leftmost(lr)], InOrder(MinRight(lr)), AfterMin(lr);
        MinParts(lr);
        OverwriteMinInOrder(lr, t.r);
        Flatten(front, m, mid, after);
        Flatten(front, m, back, after);
        assert InOrder(t.l) == front + m + mid + after;
        Swapped(front + m, mid, after, [t.v], back, InOrder(t));
      }
    }
  }

  lemma Flatten<T>(a: seq<T>, b: seq<T>, c: seq<T>, d: seq<T>)
    ensures a + (b + c + d) == a + b + c + d
  {
  }

  lemma Swapped<T>(front: seq<T>, mid: seq<T>, after: seq<T>, v: seq<T>, back: seq<T>, s: seq<T>)
    requires Distinct(s) && s == front + mid + after + v + back
    ensures front + mid + after + back == front + back + after <==> mid == [] && (after == [] || back == [])
  {
    var x, y := front + mid + after + back, front + back + after;
    if mid == [] && (after == [] || back == []) {
      assert x == y;
    } else if mid != [] {
      assert |x| > |y|;
    } else {
      assert x[|front|] == after[0] == s[|front|];
      assert y[|front|] == back[0] == s[|front| + |after| + |v|];
      if |v| == 0 {
        assert |front| < |front| + |after|;
      }
    }
  }

  /** Deletion as written leaves the sequence that is meant exactly when the node found, if any,
      is spliced without harm. */
  lemma {:induction false} DeletionAsWrittenIff<T>(t: Tree<T>, id: int, key: T -> int)
    requires Distinct(InOrder(t))
    ensures InOrder(DeletionAsWritten(t, id, key)) == InOrder(Deletion(t, id, key))
       <==> var c := Lookup(t, id, key); c.Leaf? || SpliceHarmless(c)
  {
    if t.Node? {
      if key(t.v) == id {
        SplicedAsWrittenIff(t);
      } else if id < key(t.v) {
        DistinctSides(t);
        DeletionAsWrittenIff(t.l, id, key);
        SameTail(InOrder(DeletionAsWritten(t.l, id, key)), InOrder(Deletion(t.l, id, key)), [t.v], InOrder(t.r));
      } else {
        DistinctSides(t);
        DeletionAsWrittenIff(t.r, id, key);
        SameHead(InOrder(t.l) + [t.v], InOrder(DeletionAsWritten(t.r, id, key)), InOrder(Deletion(t.r, id, key)));
      }
    }
  }

  lemma DistinctSides<T>(t: Tree<T>)
    requires t.Node? && Distinct(InOrder(t))
    ensures Distinct(InOrder(t.l)) && Distinct(InOrder(t.r))
  {
    DistinctAround(InOrder(t.l), t.v, InOrder(t.r));
  }

  lemma DistinctAround<T>(a: seq<T>, v: T, b: seq<T>)
    requires Distinct(a + [v] + b)
    ensures Distinct(a) && Distinct(b)
  {
    var s := a + [v] + b;
    forall i, j | 0 <= i < j < |a| ensures a[i] != a[j] {
      assert s[i] != s[j];
    }
    forall i, j | 0 <= i < j < |b| ensures b[i] != b[j] {
      assert s[|a| + 1 + i] != s[|a| + 1 + j];
    }
  }

  lemma SameTail<T>(a: seq<T>, b: seq<T>, v: seq<T>, c: seq<T>)
    ensures a + v + c == b + v + c <==> a == b
  {
    if a + v + c == b + v + c {
      assert a == (a + v + c)[..|a|] && b == (b + v + c)[..|b|];
    }
  }

  lemma SameHead<T>(a: seq<T>, b: seq<T>, c: seq<T>)
    ensures a + b == a + c <==> b == c
  {
    if a + b == a + c {
      assert b == (a + b)[|a|..] && c == (a + c)[|a|..];
    }
  }

  /** Deleting 4 from five nodes so loses the node 3. */
  lemma DeletionAsWrittenLosesNode()
    ensures var t := Node(Node(Leaf, 1, Node(Leaf, 2, Node(Leaf, 3, Leaf))), 4, Node(Leaf, 5, Leaf));
      && InOrder(Deletion(t, 4, (x: int) => x)) == [1, 2, 3, 5]
      && InOrder(DeletionAsWritten(t, 4, (x: int) => x)) == [1, 2, 5]
  {
    var lr := Node(Leaf, 2, Node(Leaf, 3, Leaf));
    assert OverwriteMinRight(lr, Node(Leaf, 5, Leaf)) == Node(Leaf, 2, Node(Leaf, 5, Leaf));
    assert GraftRight(lr, Node(Leaf, 5, Leaf)) == Node(Leaf, 2, Node(Leaf, 3, Node(Leaf, 5, Leaf)));
  }

  lemma Misplaced<T>(front: seq<T>, mid: seq<T>, v: T, back: seq<T>, after: seq<T>, s: seq<T>)
    requires s == front + mid + [v] + back && |mid| > 0
    requires |mid| > 1 ==> s[|front| + 1] != s[|front| + |mid|]
    requires |mid| == 1 ==> after == []
    ensures front + [mid[0]] + [v] + back + after == s <==> |mid| == 1
  {
    if |mid| == 1 {
      assert mid == [mid[0]];
    } else {
      assert s[|front| + |mid|] == v;
      assert (front + [mid[0]] + [v] + back + after)[|front| + 1] == v;
    }
  }

  lemma WrittenOrder<T>(t: Tree<T>)
    requires t.Node? && t.l.Node? && t.l.r.Node?
    ensures InOrder(TurnRightAsWritten(t))
         == InOrder(t.l.l) + [t.l.v] + [Leftmost(t.l.r)] + [t.v] + InOrder(t.r) + AfterMin(t.l.r)
  {
    var spun := Node(Leaf, t.v, t.r);
    OverwriteMinInOrder(t.l.r, spun);
    assert InOrder(spun) == [t.v] + InOrder(t.r);
  }

  /** A tree of six nodes of which such a turn loses one and misplaces another. */
  lemma TurnRightAsWrittenLosesNodes()
    ensures var t := Node(Node(Node(Leaf, 1, Leaf), 2, Node(Node(Leaf, 3, Node(Leaf, 4, Leaf)), 5, Leaf)), 6, Leaf);
      Size(t) == 6 && !SidesEven(t) && InOrder(TurnRightAsWritten(t)) == [1, 2, 3, 6, 5]
  {
  }
}
