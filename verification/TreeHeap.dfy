/**
  The search tree of the source as linked nodes that are rewritten in place.
  A ghost Tree of the node objects describes the links; a method that takes the address
  of a root pointer in the source takes the pointer here and returns its new value.
 */
module TreeHeap {
  import opened Trees
  import opened LinkedQueue

  class Cell<D> {
    const data: D
    var l: Cell?<D>
    var r: Cell?<D>

    constructor (data: D)
      ensures this.data == data && l == null && r == null
    {
      this.data := data;
      l, r := null, null;
    }
  }

  ghost function Cells<D>(t: Tree<Cell<D>>): set<Cell<D>> {
    match t
    case Leaf => {}
    case Node(l, c, r) => Cells(l) + {c} + Cells(r)
  }

  lemma CellsAllocated<D>(t: Tree<Cell<D>>)
    ensures forall c :: c in Cells(t) ==> allocated(c)
  {
  }

  /** No node is shared. */
  ghost predicate Unshared<D>(t: Tree<Cell<D>>) {
    t.Node? ==>
      && t.v !in Cells(t.l) && t.v !in Cells(t.r) && Cells(t.l) !! Cells(t.r)
      && Unshared(t.l) && Unshared(t.r)
  }

  /** The links from p on are those of t. */
  ghost predicate Linked<D>(p: Cell?<D>, t: Tree<Cell<D>>)
    reads Cells(t)`l, Cells(t)`r
  {
    match t
    case Leaf => p == null
    case Node(l, c, r) => p == c && Linked(c.l, l) && Linked(c.r, r)
  }

  ghost predicate Heap<D>(p: Cell?<D>, t: Tree<Cell<D>>)
    reads Cells(t)`l, Cells(t)`r
  {
    Linked(p, t) && Unshared(t)
  }

  // ----- Replacing the subtree behind one link -----

  /** A path goes right where it says true. */
  ghost predicate PathIn<T>(t: Tree<T>, path: seq<bool>) {
    path == [] || (t.Node? && PathIn(if path[0] then t.r else t.l, path[1..]))
  }

  ghost function Sub<T>(t: Tree<T>, path: seq<bool>): Tree<T>
    requires PathIn(t, path)
  {
    if path == [] then t else Sub(if path[0] then t.r else t.l, path[1..])
  }

  ghost function Put<T>(t: Tree<T>, path: seq<bool>, s: Tree<T>): Tree<T>
    requires PathIn(t, path)
  {
    if path == [] then s
    else if path[0] then Node(t.l, t.v, Put(t.r, path[1..], s))
    else Node(Put(t.l, path[1..], s), t.v, t.r)
  }

  /** The node whose link the path ends with. */
  ghost function Holder<T>(t: Tree<T>, path: seq<bool>): T
    requires PathIn(t, path) && path != []
  {
    if |path| == 1 then t.v else Holder(if path[0] then t.r else t.l, path[1..])
  }

  lemma HolderOutside<D>(t: Tree<Cell<D>>, path: seq<bool>)
    requires Unshared(t) && PathIn(t, path) && path != []
    ensures Holder(t, path) in Cells(t) && Cells(Sub(t, path)) <= Cells(t)
    ensures Holder(t, path) !in Cells(Sub(t, path))
  {
    if |path| > 1 {
      HolderOutside(if path[0] then t.r else t.l, path[1..]);
    }
  }

  /** A record of both links of some nodes. */
  type Links<D> = map<Cell<D>, (Cell?<D>, Cell?<D>)>

  ghost function LinksOf<D>(t: Tree<Cell<D>>): Links<D>
    reads Cells(t)
  {
    map c | c in Cells(t) :: (c.l, c.r)
  }

  /** The recorded links from p on are those of t. */
  ghost predicate LinkedThen<D>(p: Cell?<D>, t: Tree<Cell<D>>, was: Links<D>) {
    match t
    case Leaf => p == null
    case Node(l, c, r) => p == c && c in was && LinkedThen(was[c].0, l, was) && LinkedThen(was[c].1, r, was)
  }

  lemma Recorded<D>(p: Cell?<D>, t: Tree<Cell<D>>, was: Links<D>)
    requires Cells(t) <= was.Keys && forall c :: c in Cells(t) ==> was[c] == (c.l, c.r)
    ensures Linked(p, t) <==> LinkedThen(p, t, was)
  {
  }

  /** Every node outside the subtree behind the path has the links recorded, but for the one at its end. */
  ghost predicate OnlyLinkMoved<D>(t: Tree<Cell<D>>, path: seq<bool>, was: Links<D>, q: Cell?<D>)
    requires PathIn(t, path) && path != []
    reads Cells(t), Holder(t, path)
  {
    var h := Holder(t, path);
    && Cells(t) <= was.Keys
    && (forall c :: c in Cells(t) && c !in Cells(Sub(t, path)) && c != h ==> was[c] == (c.l, c.r))
    && h in was
    && (if path[|path| - 1] then h.r == q && h.l == was[h].0 else h.l == q && h.r == was[h].1)
  }

  /** After the link at the end of the path was pointed at s, the whole is linked as t with s put there. */
  lemma {:induction false} Relinked<D>(p: Cell<D>, t: Tree<Cell<D>>, path: seq<bool>, was: Links<D>,
                                       s: Tree<Cell<D>>, q: Cell?<D>)
    requires Unshared(t) && PathIn(t, path) && path != []
    requires LinkedThen(p, t, was) && OnlyLinkMoved(t, path, was, q) && Linked(q, s)
    ensures Linked(p, Put(t, path, s))
    decreases path
  {
    HolderOutside(t, path);
    var next, other := if path[0] then t.r else t.l, if path[0] then t.l else t.r;
    if |path| == 1 {
      assert Sub(t, path) == next && Put(next, path[1..], s) == s;
    } else {
      HolderOutside(next, path[1..]);
      assert path[1..][|path[1..]| - 1] == path[|path| - 1];
      Relinked(if path[0] then p.r else p.l, next, path[1..], was, s, q);
    }
    Recorded(if path[0] then p.l else p.r, other, was);
  }

  ghost function Straight<T>(t: Tree<T>, right: bool): seq<bool> {
    if t.Leaf? then [] else [right] + Straight(if right then t.r else t.l, right)
  }

  lemma {:induction false} StraightIsGraft<T>(t: Tree<T>, b: bool, g: Tree<T>)
    ensures var path := Straight(t, b);
      && PathIn(t, path) && Sub(t, path) == Leaf && (t.Node? ==> path[|path| - 1] == b)
      && Put(t, path, g) == if b then GraftRight(t, g) else GraftLeft(t, g)
  {
    if t.Node? {
      var next := if b then t.r else t.l;
      StraightIsGraft(next, b, g);
      assert Straight(t, b)[1..] == Straight(next, b);
    }
  }

  lemma {:induction false} Extreme<T>(t: Tree<T>, b: bool)
    requires t.Node?
    ensures var path := Straight(t, b);
      PathIn(t, path) && path != [] && Holder(t, path) == InOrder(t)[if b then Size(t) - 1 else 0]
  {
    StraightIsGraft(t, b, Leaf);
    var next := if b then t.r else t.l;
    if next.Node? {
      Extreme(next, b);
      assert Straight(t, b)[1..] == Straight(next, b);
    }
  }

  lemma GraftDistinct<D>(t: Tree<Cell<D>>, g: Tree<Cell<D>>)
    requires Unshared(t) && Unshared(g) && Cells(t) !! Cells(g)
    ensures Unshared(GraftLeft(t, g)) && Cells(GraftLeft(t, g)) == Cells(t) + Cells(g)
    ensures Unshared(GraftRight(t, g)) && Cells(GraftRight(t, g)) == Cells(t) + Cells(g)
  {
  }

  lemma TurnDistinct<D>(t: Tree<Cell<D>>)
    requires Unshared(t) && t.Node?
    ensures t.r.Node? ==> Unshared(TurnLeft(t)) && Cells(TurnLeft(t)) == Cells(t)
    ensures t.l.Node? ==> Unshared(TurnRight(t)) && Cells(TurnRight(t)) == Cells(t)
  {
    GraftDistinct(t.r, Node(t.l, t.v, Leaf));
    GraftDistinct(t.l, Node(Leaf, t.v, t.r));
  }

  // ----- Lookups -----

  lemma NullIffLeaf<D>(p: Cell?<D>, t: Tree<Cell<D>>)
    requires Linked(p, t)
    ensures p == null <==> t.Leaf?
  {
  }

  function GetNum<D>(root: Cell?<D>, ghost t: Tree<Cell<D>>): (n: nat)
    requires Linked(root, t)
    reads Cells(t)
    ensures n == Size(t)
    decreases t
  {
    if root == null then 0 else GetNum(root.l, t.l) + GetNum(root.r, t.r) + 1
  }

  /** The key of a node, read from its data. */
  function KeyOf<D>(key: D -> int): Cell<D> -> int {
    (c: Cell<D>) => key(c.data)
  }

  /** The node a lookup in the tree of nodes ends at, or null. */
  function Find<D>(root: Cell?<D>, ghost t: Tree<Cell<D>>, id: int, key: D -> int): (c: Cell?<D>)
    requires Linked(root, t)
    reads Cells(t)
    ensures match Lookup(t, id, KeyOf(key)) case Leaf => c == null case Node(_, v, _) => c == v && c in Cells(t)
    decreases t
  {
    if root == null then null
    else if id == key(root.data) then root
    else if id < key(root.data) then Find(root.l, t.l, id, key)
    else Find(root.r, t.r, id, key)
  }

  function FindMin<D>(root: Cell<D>, ghost t: Tree<Cell<D>>): (c: Cell<D>)
    requires Linked(root, t)
    reads Cells(t)
    ensures t.Node? && PathIn(t, Straight(t, false)) && Straight(t, false) != []
    ensures c == Holder(t, Straight(t, false)) == InOrder(t)[0]
    decreases t
  {
    NullIffLeaf(root, t);
    NullIffLeaf(root.l, t.l);
    Extreme(t, false);
    assert Straight(t, false)[1..] == Straight(t.l, false);
    if root.l == null then root else FindMin(root.l, t.l)
  }

  function FindMax<D>(root: Cell<D>, ghost t: Tree<Cell<D>>): (c: Cell<D>)
    requires Linked(root, t)
    reads Cells(t)
    ensures t.Node? && PathIn(t, Straight(t, true)) && Straight(t, true) != []
    ensures c == Holder(t, Straight(t, true)) == InOrder(t)[Size(t) - 1]
    decreases t
  {
    NullIffLeaf(root, t);
    NullIffLeaf(root.r, t.r);
    Extreme(t, true);
    assert Straight(t, true)[1..] == Straight(t.r, true);
    if root.r == null then root else FindMax(root.r, t.r)
  }

  // ----- Insertion -----

  method Insert<D>(root: Cell?<D>, ghost t: Tree<Cell<D>>, data: D, key: D -> int)
      returns (root': Cell<D>, ghost node: Cell<D>)
    requires Heap(root, t)
    modifies Cells(t)`l, Cells(t)`r
    ensures fresh(node) && node.data == data
    ensures Heap(root', Insertion(t, node, KeyOf(key)))
    ensures Cells(Insertion(t, node, KeyOf(key))) == Cells(t) + {node}
    decreases t
  {
    if root == null {
      root' := new Cell(data);
      return root', root';
    }
    CellsAllocated(t);
    root' := root;
    if key(data) <= key(root.data) {
      var sub;
      sub, node := Insert(root.l, t.l, data, key);
      assert Linked(root.r, t.r);
      root.l := sub;
      assert Linked(root.r, t.r) && Linked(sub, Insertion(t.l, node, KeyOf(key)));
    } else {
      var sub;
      sub, node := Insert(root.r, t.r, data, key);
      assert Linked(root.l, t.l);
      root.r := sub;
      assert Linked(root.l, t.l) && Linked(sub, Insertion(t.r, node, KeyOf(key)));
    }
  }

  // ----- Turning and balancing -----

  method TurnLeftAt<D>(root: Cell<D>, ghost t: Tree<Cell<D>>) returns (root': Cell<D>)
    requires Heap(root, t) && t.Node? && t.r.Node?
    modifies Cells(t)`l, Cells(t)`r
    ensures Heap(root', TurnLeft(t))
  {
    var cur := root;
    NullIffLeaf(cur.r, t.r);
    root' := cur.r;
    cur.r := null;
    var min := FindMin(root', t.r);
    ghost var was := LinksOf(t.r);
    Recorded(root', t.r, was);
    StraightIsGraft(t.r, false, Node(t.l, cur, Leaf));
    HolderOutside(t.r, Straight(t.r, false));
    min.l := cur;
    Relinked(root', t.r, Straight(t.r, false), was, Node(t.l, cur, Leaf), cur);
    TurnDistinct(t);
  }

  /** The right turn, with the maximum looked up on the right as find_max's name says. */
  method TurnRightAt<D>(root: Cell<D>, ghost t: Tree<Cell<D>>) returns (root': Cell<D>)
    requires Heap(root, t) && t.Node? && t.l.Node?
    modifies Cells(t)`l, Cells(t)`r
    ensures Heap(root', TurnRight(t))
  {
    var cur := root;
    NullIffLeaf(cur.l, t.l);
    root' := cur.l;
    cur.l := null;
    var max := FindMax(root', t.l);
    ghost var was := LinksOf(t.l);
    Recorded(root', t.l, was);
    StraightIsGraft(t.l, true, Node(Leaf, cur, t.r));
    HolderOutside(t.l, Straight(t.l, true));
    max.r := cur;
    Relinked(root', t.l, Straight(t.l, true), was, Node(Leaf, cur, t.r), cur);
    TurnDistinct(t);
  }

  /** The rotation loop: turn at the root until the sides differ by at most one node. */
  method Settle<D>(root: Cell<D>, ghost t: Tree<Cell<D>>) returns (root': Cell<D>)
    requires Heap(root, t) && t.Node?
    modifies Cells(t)`l, Cells(t)`r
    ensures Heap(root', Turned(t, Size(t))) && Cells(Turned(t, Size(t))) == Cells(t)
  {
    root' := root;
    ghost var goal, s, k, lo, m, hi := Turned(t, Size(t)), t, Size(t), Leaf, t, Leaf;
    WholeWindow(t);
    while true
      invariant s.Node? && Heap(root', s) && Cells(s) == Cells(t)
      invariant Window(s, lo, m, hi) && Size(m) <= k && Turned(s, k) == goal
      decreases k
    {
      var sub := GetNum(root'.l, s.l) - GetNum(root'.r, s.r);
      if -1 <= sub <= 1 {
        assert s == goal;
        break;
      }
      root' := TurnAt(root', s, sub);
      lo, m, hi := TurnShrinks(s, lo, m, hi);
      s, k := Turn(s), k - 1;
    }
  }

  method TurnAt<D>(root: Cell<D>, ghost t: Tree<Cell<D>>, sub: int) returns (root': Cell<D>)
    requires Heap(root, t) && t.Node? && !SidesEven(t) && sub == Size(t.l) - Size(t.r)
    modifies Cells(t)`l, Cells(t)`r
    ensures Heap(root', Turn(t)) && Cells(Turn(t)) == Cells(t)
  {
    TurnDistinct(t);
    root' := root;
    if sub < -1 {
      root' := TurnLeftAt(root', t);
    }
    if sub > 1 {
      root' := TurnRightAt(root', t);
    }
  }

  method Balance<D>(root: Cell?<D>, ghost t: Tree<Cell<D>>) returns (root': Cell?<D>)
    requires Heap(root, t)
    modifies Cells(t)`l, Cells(t)`r
    ensures Heap(root', Rebalanced(t)) && Cells(Rebalanced(t)) == Cells(t)
    decreases Size(t), 2
  {
    if root == null {
      return null;
    }
    ghost var s := Turned(t, Size(t));
    root' := Settle(root, t);
    BalanceSides(root', s.l, s.r);
  }

  method BalanceSides<D>(root: Cell<D>, ghost tl: Tree<Cell<D>>, ghost tr: Tree<Cell<D>>)
    requires Heap(root.l, tl) && Heap(root.r, tr)
    requires root !in Cells(tl) && root !in Cells(tr) && Cells(tl) !! Cells(tr)
    modifies root`l, root`r, Cells(tl)`l, Cells(tl)`r, Cells(tr)`l, Cells(tr)`r
    ensures Heap(root.l, Rebalanced(tl)) && Cells(Rebalanced(tl)) == Cells(tl)
    ensures Heap(root.r, Rebalanced(tr)) && Cells(Rebalanced(tr)) == Cells(tr)
    decreases Size(tl) + Size(tr) + 1, 1
  {
    BalanceLeft(root, tl, tr);
    BalanceRight(root, Rebalanced(tl), tr);
  }

  method BalanceLeft<D>(root: Cell<D>, ghost tl: Tree<Cell<D>>, ghost tr: Tree<Cell<D>>)
    requires Heap(root.l, tl) && Heap(root.r, tr)
    requires root !in Cells(tl) && root !in Cells(tr) && Cells(tl) !! Cells(tr)
    modifies root`l, Cells(tl)`l, Cells(tl)`r
    ensures Heap(root.l, Rebalanced(tl)) && Cells(Rebalanced(tl)) == Cells(tl)
    ensures Heap(root.r, tr)
    decreases Size(tl) + 1, 0
  {
    CellsAllocated(tr);
    var l := Balance(root.l, tl);
    assert Heap(root.r, tr);
    root.l := l;
  }

  method BalanceRight<D>(root: Cell<D>, ghost tl: Tree<Cell<D>>, ghost tr: Tree<Cell<D>>)
    requires Heap(root.l, tl) && Heap(root.r, tr)
    requires root !in Cells(tl) && root !in Cells(tr) && Cells(tl) !! Cells(tr)
    modifies root`r, Cells(tr)`l, Cells(tr)`r
    ensures Heap(root.r, Rebalanced(tr)) && Cells(Rebalanced(tr)) == Cells(tr)
    ensures Heap(root.l, tl)
    decreases Size(tr) + 1, 0
  {
    CellsAllocated(tl);
    var r := Balance(root.r, tr);
    assert Heap(root.l, tl);
    root.r := r;
  }

  // ----- Deletion -----

  /** The path goes by comparing keys and does not pass a node with the key looked for. */
  ghost predicate Descends<T>(t: Tree<T>, path: seq<bool>, id: int, key: T -> int)
    decreases path
  {
    path == [] || (
      && t.Node? && key(t.v) != id && path[0] == (key(t.v) < id)
      && Descends(if path[0] then t.r else t.l, path[1..], id, key))
  }

  lemma {:induction false} PathDown<T>(t: Tree<T>, path: seq<bool>, id: int, key: T -> int)
    requires Descends(t, path, id, key)
    ensures PathIn(t, path)
    ensures Sub(t, path).Node? && key(Sub(t, path).v) != id ==>
      var st := Sub(t, path); var p := path + [key(st.v) < id];
      && Descends(t, p, id, key) && PathIn(t, p)
      && Holder(t, p) == st.v && Sub(t, p) == if key(st.v) < id then st.r else st.l
    decreases path
  {
    if path == [] {
      if t.Node? {
        var b := key(t.v) < id;
        assert PathIn(if b then t.r else t.l, [b][1..]) && Descends(if b then t.r else t.l, [b][1..], id, key);
      }
    } else {
      var sub := if path[0] then t.r else t.l;
      PathDown(sub, path[1..], id, key);
      if Sub(t, path).Node? {
        var b := key(Sub(t, path).v) < id;
        assert (path + [b])[1..] == path[1..] + [b];
      }
    }
  }

  lemma {:induction false} DeletionDown<T>(t: Tree<T>, path: seq<bool>, id: int, key: T -> int)
    requires Descends(t, path, id, key) && PathIn(t, path)
    ensures Deletion(t, id, key) == Put(t, path, Deletion(Sub(t, path), id, key))
    decreases path
  {
    if path != [] {
      DeletionDown(if path[0] then t.r else t.l, path[1..], id, key);
    }
  }

  lemma PutBack<T>(t: Tree<T>, path: seq<bool>)
    requires PathIn(t, path)
    ensures Put(t, path, Sub(t, path)) == t
  {
  }

  lemma SubDistinct<D>(t: Tree<Cell<D>>, path: seq<bool>)
    requires PathIn(t, path) && Unshared(t)
    ensures Unshared(Sub(t, path)) && Cells(Sub(t, path)) <= Cells(t)
  {
  }

  lemma DeletionDistinct<D>(t: Tree<Cell<D>>, id: int, key: Cell<D> -> int)
    requires Unshared(t)
    ensures Unshared(Deletion(t, id, key)) && Cells(Deletion(t, id, key)) <= Cells(t)
  {
    if t.Node? {
      GraftDistinct(t.l, t.r);
    }
  }

  /** The walk down by the address of a link: the root pointer, or one link of the node holder. */
  method Descend<D>(root: Cell?<D>, ghost t: Tree<Cell<D>>, id: int, key: D -> int)
      returns (holder: Cell?<D>, right: bool, node: Cell?<D>, ghost path: seq<bool>)
    requires Heap(root, t)
    ensures PathIn(t, path) && Descends(t, path, id, KeyOf(key)) && Linked(node, Sub(t, path))
    ensures path == [] ==> holder == null && node == root
    ensures path != [] ==> holder == Holder(t, path) && right == path[|path| - 1]
    ensures node != null ==> key(node.data) == id
  {
    holder, right, node, path := null, false, root, [];
    while node != null && key(node.data) != id
      invariant PathIn(t, path) && Descends(t, path, id, KeyOf(key)) && Linked(node, Sub(t, path))
      invariant path == [] ==> holder == null && node == root
      invariant path != [] ==> holder == Holder(t, path) && right == path[|path| - 1]
      decreases Sub(t, path)
    {
      PathDown(t, path, id, KeyOf(key));
      right := key(node.data) < id;
      holder, path := node, path + [right];
      node := if right then node.r else node.l;
    }
  }

  method Delete<D>(root: Cell?<D>, ghost t: Tree<Cell<D>>, id: int, key: D -> int) returns (root': Cell?<D>)
    requires Heap(root, t)
    modifies Cells(t)`l, Cells(t)`r
    ensures Heap(root', Deletion(t, id, KeyOf(key)))
  {
    var holder, right, node;
    ghost var path;
    CellsAllocated(t);
    holder, right, node, path := Descend(root, t, id, key);
    assert Linked(root, t);
    DeletionDown(t, path, id, KeyOf(key));
    DeletionDistinct(t, id, KeyOf(key));
    if node == null {
      PutBack(t, path);
      return root;
    }
    var up := Splice(root, t, holder, right, node, path);
    root' := if holder == null then up else root;
  }

  /** Hang the tree at p on the rightmost node of the tree at root. */
  method HangRight<D>(root: Cell<D>, ghost t: Tree<Cell<D>>, p: Cell?<D>, ghost g: Tree<Cell<D>>)
    requires Heap(root, t) && Linked(p, g) && Cells(t) !! Cells(g)
    modifies Cells(t)`r
    ensures Linked(root, GraftRight(t, g))
  {
    ghost var was := LinksOf(t);
    Recorded(root, t, was);
    var max := FindMax(root, t);
    HolderOutside(t, Straight(t, true));
    StraightIsGraft(t, true, g);
    max.r := p;
    Relinked(root, t, Straight(t, true), was, g, p);
  }

  /** Take the node at the end of the path out of the tree. */
  method Splice<D>(root: Cell?<D>, ghost t: Tree<Cell<D>>, holder: Cell?<D>, right: bool, cur: Cell<D>,
                   ghost path: seq<bool>) returns (up: Cell?<D>)
    requires Heap(root, t) && PathIn(t, path) && Linked(cur, Sub(t, path))
    requires path == [] ==> holder == null && cur == root
    requires path != [] ==> holder == Holder(t, path) && right == path[|path| - 1]
    modifies Cells(t)`l, Cells(t)`r
    ensures Sub(t, path).Node?
    ensures Linked(if path == [] then up else root, Put(t, path, Spliced(Sub(t, path))))
  {
    ghost var st, was := Sub(t, path), LinksOf(t);
    CellsAllocated(t);
    NullIffLeaf(cur, st);
    NullIffLeaf(cur.l, st.l);
    SubDistinct(t, path);
    Recorded(root, t, was);
    up := if cur.l == null then cur.r else cur.l;
    if path != [] {
      HolderOutside(t, path);
    }
    if holder != null {
      if right {
        holder.r := up;
      } else {
        holder.l := up;
      }
    }
    if cur.l != null {
      HangRight(cur.l, st.l, cur.r, st.r);
    }
    if path != [] {
      Relinked(root, t, path, was, Spliced(st), up);
    }
  }

  // ----- Level-order traversal -----

  /** The queued pointers are the roots of the trees f. */
  ghost predicate Queued<D>(ps: seq<Cell?<D>>, f: seq<Tree<Cell<D>>>, t: Tree<Cell<D>>)
    reads Cells(t)
  {
    && |ps| == |f|
    && (forall u :: u in f ==> u.Node? && Cells(u) <= Cells(t))
    && (forall i :: 0 <= i < |f| ==> Linked(ps[i], f[i]))
  }

  ghost function Links2<D>(c: Cell<D>): seq<Cell?<D>>
    reads c
  {
    (if c.l == null then [] else [c.l]) + (if c.r == null then [] else [c.r])
  }

  lemma QueuedStep<D>(ps: seq<Cell?<D>>, f: seq<Tree<Cell<D>>>, t: Tree<Cell<D>>)
      returns (c: Cell<D>, g: seq<Tree<Cell<D>>>)
    requires Queued(ps, f, t) && f != []
    ensures ps[0] == c && c in Cells(t) && Queued(ps[1..] + Links2(c), g, t)
    ensures Drained(f) == [c] + Drained(g) && ForestSize(g) < ForestSize(f)
  {
    var u := f[0];
    assert u in f;
    c, g := u.v, f[1..] + Children(u);
    NullIffLeaf(u.v.l, u.l);
    NullIffLeaf(u.v.r, u.r);
    ChildrenSize(u);
    ForestSizeAppend(f[1..], Children(u));
    QueuedAppend(ps[1..], f[1..], Links2(u.v), Children(u), t);
  }

  lemma QueuedAppend<D>(ps: seq<Cell?<D>>, f: seq<Tree<Cell<D>>>, qs: seq<Cell?<D>>, g: seq<Tree<Cell<D>>>,
                        t: Tree<Cell<D>>)
    requires Queued(ps, f, t) && Queued(qs, g, t)
    ensures Queued(ps + qs, f + g, t)
  {
  }

  method QueueOf<D>(root: Cell<D>) returns (qu: LList<Cell?<D>>)
    ensures qu.Valid() && fresh(qu.repr) && qu.Contents() == [root]
  {
    qu := new LList<Cell?<D>>();
    qu.QueueEn(root);
  }

  method EnqueueLinks<D>(qu: LList<Cell?<D>>, c: Cell<D>)
    requires qu.Valid() && c !in qu.repr
    modifies qu.repr
    ensures qu.Valid() && fresh(qu.repr - old(qu.repr))
    ensures qu.Contents() == old(qu.Contents()) + Links2(c)
  {
    if c.l != null {
      qu.QueueEn(c.l);
    }
    if c.r != null {
      qu.QueueEn(c.r);
    }
  }

  /** One turn of the loop: take the next node, if there is one, and queue its children. */
  method Visit<D>(qu: LList<Cell?<D>>, ghost f: seq<Tree<Cell<D>>>, ghost t: Tree<Cell<D>>)
      returns (cur: Cell?<D>, ghost g: seq<Tree<Cell<D>>>)
    requires qu.Valid() && Queued(qu.Contents(), f, t) && forall c :: c in Cells(t) ==> c !in qu.repr
    modifies qu.repr
    ensures qu.Valid() && fresh(qu.repr - old(qu.repr))
    ensures cur == null <==> f == []
    ensures cur != null ==>
      Queued(qu.Contents(), g, t) && Drained(f) == [cur] + Drained(g) && ForestSize(g) < ForestSize(f)
  {
    CellsAllocated(t);
    ghost var ps := qu.Contents();
    var ret, head := qu.QueueDe();
    if ret == -1 {
      return null, [];
    }
    ghost var c;
    c, g := QueuedStep(ps, f, t);
    cur := head.value;
    EnqueueLinks(qu, cur);
  }

  /** Prints the nodes level by level, with a queue of node pointers. */
  method Travel<D>(root: Cell?<D>, ghost t: Tree<Cell<D>>) returns (out: seq<Cell<D>>)
    requires Linked(root, t)
    ensures out == LevelOrder(t)
  {
    out := [];
    if root == null {
      return;
    }
    CellsAllocated(t);
    var qu := QueueOf(root);
    ghost var f := [t];
    DrainedIsLevelOrder(t);
    while true
      invariant qu.Valid() && fresh(qu.repr)
      invariant Queued(qu.Contents(), f, t) && out + Drained(f) == LevelOrder(t)
      decreases ForestSize(f)
    {
      var cur;
      ghost var g;
      cur, g := Visit(qu, f, t);
      if cur == null {
        break;
      }
      Assoc(out, [cur], Drained(g));
      out, f := out + [cur], g;
    }
  }
}
