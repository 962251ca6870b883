/** The search tree on linked nodes again, with find_max as the source has it. */
module TreeHeapAsWritten {
  import opened Trees
  import opened TreeHeap
  import opened TreesAsWritten
  import opened RotationAsWritten

  /** The way to the right link of the node that find_max as written returns. */
  ghost function WrittenPath<T>(t: Tree<T>): seq<bool>
    requires t.Node?
  {
    [true] + if t.r.Leaf? then [] else MinRightPath(t.r)
  }

  ghost function MinRightPath<T>(t: Tree<T>): seq<bool>
    requires t.Node?
  {
    if t.l.Leaf? then [true] else [false] + MinRightPath(t.l)
  }

  lemma {:induction false} MinRightOverwritten<T>(t: Tree<T>, g: Tree<T>)
    requires t.Node?
    ensures var path := MinRightPath(t);
      && PathIn(t, path) && path[|path| - 1] && Put(t, path, g) == OverwriteMinRight(t, g)
      && Holder(t, path) == InOrder(t)[0]
  {
    if t.l.Node? {
      MinRightOverwritten(t.l, g);
      assert MinRightPath(t)[1..] == MinRightPath(t.l);
    }
  }

  lemma WrittenHangs<T>(t: Tree<T>, g: Tree<T>)
    requires t.Node?
    ensures var path := WrittenPath(t);
      && PathIn(t, path) && path[|path| - 1] && Put(t, path, g) == HangAsWritten(t, g)
      && Holder(t, path) == if t.r.Leaf? then t.v else InOrder(t.r)[0]
  {
    if t.r.Node? {
      MinRightOverwritten(t.r, g);
      assert WrittenPath(t)[1..] == MinRightPath(t.r);
    }
  }

  lemma {:induction false} OverwrittenUnshared<D>(t: Tree<Cell<D>>, g: Tree<Cell<D>>)
    requires t.Node? && Unshared(t) && Unshared(g) && Cells(t) !! Cells(g)
    ensures Unshared(OverwriteMinRight(t, g)) && Cells(OverwriteMinRight(t, g)) <= Cells(t) + Cells(g)
  {
    if t.l.Node? {
      OverwrittenUnshared(t.l, g);
    }
  }

  lemma HungUnshared<D>(t: Tree<Cell<D>>, g: Tree<Cell<D>>)
    requires t.Node? && Unshared(t) && Unshared(g) && Cells(t) !! Cells(g)
    ensures Unshared(HangAsWritten(t, g)) && Cells(HangAsWritten(t, g)) <= Cells(t) + Cells(g)
  {
    if t.r.Node? {
      OverwrittenUnshared(t.r, g);
    }
  }

  /** It goes on with find_min, so it returns the least node of the right side. */
  function FindMaxAsWritten<D>(root: Cell<D>, ghost t: Tree<Cell<D>>): (c: Cell<D>)
    requires Linked(root, t)
    reads Cells(t)
    ensures t.Node? && c == if t.r.Leaf? then root else InOrder(t.r)[0]
  {
    NullIffLeaf(root, t);
    NullIffLeaf(root.r, t.r);
    if root.r == null then root else FindMin(root.r, t.r)
  }

  /** What deletion as written does with the two sides of the node it takes out. */
  method HangRightAsWritten<D>(root: Cell<D>, ghost t: Tree<Cell<D>>, p: Cell?<D>, ghost g: Tree<Cell<D>>)
    requires Heap(root, t) && Linked(p, g) && Cells(t) !! Cells(g)
    modifies Cells(t)`r
    ensures t.Node? && Linked(root, HangAsWritten(t, g))
  {
    ghost var was := LinksOf(t);
    Recorded(root, t, was);
    var max := FindMaxAsWritten(root, t);
    WrittenHangs(t, g);
    HolderOutside(t, WrittenPath(t));
    max.r := p;
    Relinked(root, t, WrittenPath(t), was, g, p);
  }

  method TurnRightAsWrittenAt<D>(root: Cell<D>, ghost t: Tree<Cell<D>>) returns (root': Cell<D>)
    requires Heap(root, t) && t.Node? && t.l.Node?
    modifies Cells(t)`l, Cells(t)`r
    ensures Heap(root', TurnRightAsWritten(t)) && Cells(TurnRightAsWritten(t)) <= Cells(t)
  {
    var cur := root;
    NullIffLeaf(cur.l, t.l);
    root' := cur.l;
    cur.l := null;
    assert Linked(cur, Node(Leaf, cur, t.r));
    HangRightAsWritten(root', t.l, cur, Node(Leaf, cur, t.r));
    HungUnshared(t.l, Node(Leaf, cur, t.r));
  }

  method TurnAtAsWritten<D>(root: Cell<D>, ghost t: Tree<Cell<D>>, sub: int) returns (root': Cell<D>)
    requires Heap(root, t) && t.Node? && !SidesEven(t) && sub == Size(t.l) - Size(t.r)
    modifies Cells(t)`l, Cells(t)`r
    ensures Heap(root', TurnAsWritten(t)) && Cells(TurnAsWritten(t)) <= Cells(t)
  {
    root' := root;
    if sub < -1 {
      TurnDistinct(t);
      root' := TurnLeftAt(root', t);
    }
    if sub > 1 {
      root' := TurnRightAsWrittenAt(root', t);
    }
  }

  /** The rotation loop as written, which ends whatever it loses. */
  method SettleAsWritten<D>(root: Cell<D>, ghost t: Tree<Cell<D>>) returns (root': Cell<D>)
    requires Heap(root, t) && t.Node?
    modifies Cells(t)`l, Cells(t)`r
    ensures Heap(root', SettledAsWritten(t)) && Cells(SettledAsWritten(t)) <= Cells(t)
  {
    root' := root;
    ghost var s, k: nat, lo, m, hi := t, 0, Leaf, t, Leaf;
    WholeWindow(t);
    while true
      invariant s.Node? && Heap(root', s) && Cells(s) <= Cells(t)
      invariant Window(s, lo, m, hi) && s == TurnedAsWritten(t, k)
      decreases Size(s), Unkept(s), Size(m)
    {
      var sub := GetNum(root'.l, s.l) - GetNum(root'.r, s.r);
      if -1 <= sub <= 1 {
        SettledIs(t, k);
        break;
      }
      root' := TurnAtAsWritten(root', s, sub);
      lo, m, hi := PassDescends(s, lo, m, hi);
      OnePassMore(t, k);
      s, k := TurnAsWritten(s), k + 1;
    }
  }

  lemma {:induction false} OnePassMore<T>(t: Tree<T>, k: nat)
    requires t.Node? && !SidesEven(TurnedAsWritten(t, k))
    ensures TurnedAsWritten(t, k + 1) == TurnAsWritten(TurnedAsWritten(t, k))
    decreases k
  {
    if k == 0 {
      assert TurnedAsWritten(t, 1) == TurnedAsWritten(TurnAsWritten(t), 0);
    } else {
      OnePassMore(TurnAsWritten(t), k - 1);
    }
  }

  /** balance as the source has it, on linked nodes. */
  method BalanceAsWritten<D>(root: Cell?<D>, ghost t: Tree<Cell<D>>) returns (root': Cell?<D>)
    requires Heap(root, t)
    modifies Cells(t)`l, Cells(t)`r
    ensures Heap(root', RebalancedAsWritten(t)) && Cells(RebalancedAsWritten(t)) <= Cells(t)
    decreases Size(t), 2
  {
    if root == null {
      return null;
    }
    ghost var s := SettledAsWritten(t);
    root' := SettleAsWritten(root, t);
    BalanceLeftAsWritten(root', s.l, s.r);
    BalanceRightAsWritten(root', RebalancedAsWritten(s.l), s.r);
  }

  method BalanceLeftAsWritten<D>(root: Cell<D>, ghost tl: Tree<Cell<D>>, ghost tr: Tree<Cell<D>>)
    requires Heap(root.l, tl) && Heap(root.r, tr)
    requires root !in Cells(tl) && root !in Cells(tr) && Cells(tl) !! Cells(tr)
    modifies root`l, Cells(tl)`l, Cells(tl)`r
    ensures Heap(root.l, RebalancedAsWritten(tl)) && Cells(RebalancedAsWritten(tl)) <= Cells(tl)
    ensures Heap(root.r, tr)
    decreases Size(tl) + 1, 0
  {
    CellsAllocated(tr);
    var l := BalanceAsWritten(root.l, tl);
    assert Heap(root.r, tr);
    root.l := l;
  }

  method BalanceRightAsWritten<D>(root: Cell<D>, ghost tl: Tree<Cell<D>>, ghost tr: Tree<Cell<D>>)
    requires Heap(root.l, tl) && Heap(root.r, tr)
    requires root !in Cells(tl) && root !in Cells(tr) && Cells(tl) !! Cells(tr)
    modifies root`r, Cells(tr)`l, Cells(tr)`r
    ensures Heap(root.r, RebalancedAsWritten(tr)) && Cells(RebalancedAsWritten(tr)) <= Cells(tr)
    ensures Heap(root.l, tl)
    decreases Size(tr) + 1, 0
  {
    CellsAllocated(tl);
    var r := BalanceAsWritten(root.r, tr);
    assert Heap(root.l, tl);
    root.r := r;
  }

  // ----- Deletion -----

  lemma {:induction false} DeletionAsWrittenDown<T>(t: Tree<T>, path: seq<bool>, id: int, key: T -> int)
    requires Descends(t, path, id, key) && PathIn(t, path)
    ensures DeletionAsWritten(t, id, key) == Put(t, path, DeletionAsWritten(Sub(t, path), id, key))
    decreases path
  {
    if path != [] {
      DeletionAsWrittenDown(if path[0] then t.r else t.l, path[1..], id, key);
    }
  }

  lemma {:induction false} DeletionAsWrittenUnshared<D>(t: Tree<Cell<D>>, id: int, key: Cell<D> -> int)
    requires Unshared(t)
    ensures var d := DeletionAsWritten(t, id, key); Unshared(d) && Cells(d) <= Cells(t)
  {
    if t.Node? {
      DeletionAsWrittenUnshared(t.l, id, key);
      DeletionAsWrittenUnshared(t.r, id, key);
      if t.l.Node? {
        HungUnshared(t.l, t.r);
      }
    }
  }

  /** delete as the source has it: the same walk down, and the splicing through find_max as written. */
  method DeleteAsWritten<D>(root: Cell?<D>, ghost t: Tree<Cell<D>>, id: int, key: D -> int) returns (root': Cell?<D>)
    requires Heap(root, t)
    modifies Cells(t)`l, Cells(t)`r
    ensures Heap(root', DeletionAsWritten(t, id, KeyOf(key)))
  {
    var holder, right, node;
    ghost var path;
    CellsAllocated(t);
    holder, right, node, path := Descend(root, t, id, key);
    assert Linked(root, t);
    DeletionAsWrittenDown(t, path, id, KeyOf(key));
    DeletionAsWrittenUnshared(t, id, KeyOf(key));
    if node == null {
      PutBack(t, path);
      return root;
    }
    var up := SpliceAsWritten(root, t, holder, right, node, path);
    root' := if holder == null then up else root;
  }

  method SpliceAsWritten<D>(root: Cell?<D>, ghost t: Tree<Cell<D>>, holder: Cell?<D>, right: bool, cur: Cell<D>,
                            ghost path: seq<bool>) returns (up: Cell?<D>)
    requires Heap(root, t) && PathIn(t, path) && Linked(cur, Sub(t, path))
    requires path == [] ==> holder == null && cur == root
    requires path != [] ==> holder == Holder(t, path) && right == path[|path| - 1]
    modifies Cells(t)`l, Cells(t)`r
    ensures Sub(t, path).Node?
    ensures Linked(if path == [] then up else root, Put(t, path, SplicedAsWritten(Sub(t, path))))
  {
    ghost var st, was := Sub(t, path), LinksOf(t);
    CellsAllocated(t);
    NullIffLeaf(cur, st);
    NullIffLeaf(cur.l, st.l);
    SubDistinct(t, path);
    Recorded(root, t, was);
    up := if cur.l == null then cur.r else cur.l;
    if path != [] {
      HolderOutside(t, path);
    }
    if holder != null {
      if right {
        holder.r := up;
      } else {
        holder.l := up;
      }
    }
    if cur.l != null {
      HangRightAsWritten(cur.l, st.l, cur.r, st.r);
    }
    if path != [] {
      Relinked(root, t, path, was, SplicedAsWritten(st), up);
    }
  }
}
