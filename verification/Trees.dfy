/**
  Binary trees as values, with the rotations of the size-balanced search tree.
  The element type is a parameter: the heap model in TreeHeap instantiates it with
  the node objects themselves, so "the in-order sequence is unchanged" speaks of nodes.
 */
module Trees {
  import opened Counting

  datatype Tree<+T> = Leaf | Node(l: Tree<T>, v: T, r: Tree<T>)

  function Size<T>(t: Tree<T>): nat {
    match t
    case Leaf => 0
    case Node(l, _, r) => Size(l) + Size(r) + 1
  }

  function Height<T>(t: Tree<T>): nat {
    match t
    case Leaf => 0
    case Node(l, _, r) => 1 + if Height(l) < Height(r) then Height(r) else Height(l)
  }

  function InOrder<T>(t: Tree<T>): (s: seq<T>)
    ensures |s| == Size(t)
  {
    match t
    case Leaf => []
    case Node(l, v, r) => InOrder(l) + [v] + InOrder(r)
  }

  // ----- Grafting and the two turns -----

  /** Hang g on the leftmost node of t. */
  function GraftLeft<T>(t: Tree<T>, g: Tree<T>): Tree<T> {
    match t
    case Leaf => g
    case Node(l, v, r) => Node(GraftLeft(l, g), v, r)
  }

  /** Hang g on the rightmost node of t. */
  function GraftRight<T>(t: Tree<T>, g: Tree<T>): Tree<T> {
    match t
    case Leaf => g
    case Node(l, v, r) => Node(l, v, GraftRight(r, g))
  }

  /** The right child becomes the root; the old root, with its left side, hangs on its leftmost node. */
  function TurnLeft<T>(t: Tree<T>): Tree<T>
    requires t.Node? && t.r.Node?
  {
    GraftLeft(t.r, Node(t.l, t.v, Leaf))
  }

  function TurnRight<T>(t: Tree<T>): Tree<T>
    requires t.Node? && t.l.Node?
  {
    GraftRight(t.l, Node(Leaf, t.v, t.r))
  }

  lemma {:induction false} GraftLeftInOrder<T>(t: Tree<T>, g: Tree<T>)
    ensures InOrder(GraftLeft(t, g)) == InOrder(g) + InOrder(t)
  {
    if t.Node? {
      GraftLeftInOrder(t.l, g);
    }
  }

  lemma {:induction false} GraftRightInOrder<T>(t: Tree<T>, g: Tree<T>)
    ensures InOrder(GraftRight(t, g)) == InOrder(t) + InOrder(g)
  {
    if t.Node? {
      GraftRightInOrder(t.r, g);
    }
  }

  lemma Assoc<T>(a: seq<T>, b: seq<T>, c: seq<T>)
    ensures a + (b + c) == a + b + c
  {
  }

  lemma AssocNode<T>(t: Tree<T>, l: Tree<T>, r: Tree<T>)
    requires t.Node?
    ensures InOrder(Node(l, t.v, r)) == InOrder(l) + ([t.v] + InOrder(r))
    ensures InOrder(t) == InOrder(t.l) + ([t.v] + InOrder(t.r))
  {
  }

  /** A left turn never moves a node within the in-order sequence. */
  lemma TurnLeftInOrder<T>(t: Tree<T>)
    requires t.Node? && t.r.Node?
    ensures InOrder(TurnLeft(t)) == InOrder(t)
  {
    var g := Node(t.l, t.v, Leaf);
    GraftLeftInOrder(t.r, g);
    assert InOrder(g) == InOrder(t.l) + [t.v];
  }

  lemma TurnRightInOrder<T>(t: Tree<T>)
    requires t.Node? && t.l.Node?
    ensures InOrder(TurnRight(t)) == InOrder(t)
  {
    var g := Node(Leaf, t.v, t.r);
    GraftRightInOrder(t.l, g);
    AssocNode(t, Leaf, t.r);
    assert InOrder(g) == [t.v] + InOrder(t.r);
  }

  // ----- The rotation loop -----

  predicate SidesEven<T>(t: Tree<T>)
    requires t.Node?
  {
    -1 <= Size(t.l) - Size(t.r) <= 1
  }

  /** One pass through the body of the rotation loop. */
  function Turn<T>(t: Tree<T>): Tree<T>
    requires t.Node? && !SidesEven(t)
  {
    if Size(t.l) - Size(t.r) < -1 then TurnLeft(t) else TurnRight(t)
  }

  lemma TurnInOrder<T>(t: Tree<T>)
    requires t.Node? && !SidesEven(t)
    ensures InOrder(Turn(t)) == InOrder(t)
  {
    if Size(t.l) - Size(t.r) < -1 {
      TurnLeftInOrder(t);
    } else {
      TurnRightInOrder(t);
    }
  }

  /** At most k passes, stopping as soon as the sides are even. */
  function Turned<T>(t: Tree<T>, k: nat): (s: Tree<T>)
    requires t.Node?
    ensures s.Node? && InOrder(s) == InOrder(t) && Size(s) == Size(t)
    decreases k
  {
    if k == 0 || SidesEven(t) then t
    else
      TurnInOrder(t);
      assert Size(Turn(t)) == |InOrder(t)|;
      Turned(Turn(t), k - 1)
  }

  /** A middle tree m with lo hanging on its leftmost node and hi on its rightmost. */
  function Assemble<T>(lo: Tree<T>, m: Tree<T>, hi: Tree<T>): Tree<T> {
    GraftRight(GraftLeft(m, lo), hi)
  }

  /** The roots rejected so far sit in lo and hi, and neither holds half of the nodes. */
  ghost predicate Window<T>(t: Tree<T>, lo: Tree<T>, m: Tree<T>, hi: Tree<T>) {
    && m.Node?
    && t == Assemble(lo, m, hi)
    && 2 * Size(lo) < Size(t)
    && 2 * Size(hi) < Size(t)
  }

  lemma GraftSizes<T>(t: Tree<T>, g: Tree<T>)
    ensures Size(GraftLeft(t, g)) == Size(t) + Size(g)
    ensures Size(GraftRight(t, g)) == Size(t) + Size(g)
  {
  }

  /** Every turn strictly shrinks the window; the root it rejects falls outside the new one. */
  lemma TurnShrinks<T>(t: Tree<T>, lo: Tree<T>, m: Tree<T>, hi: Tree<T>)
      returns (lo': Tree<T>, m': Tree<T>, hi': Tree<T>)
    requires Window(t, lo, m, hi) && !SidesEven(t)
    ensures Window(Turn(t), lo', m', hi') && Size(m') < Size(m) && Size(Turn(t)) == Size(t)
    ensures Size(lo) <= Size(lo') && Size(hi) <= Size(hi')
    ensures Size(t.l) < Size(lo') || Size(t) - Size(hi') <= Size(t.l)
  {
    GraftSizes(m.l, lo);
    GraftSizes(m.r, hi);
    assert t == Node(GraftLeft(m.l, lo), m.v, GraftRight(m.r, hi));
    if Size(t.l) - Size(t.r) < -1 {
      lo', m', hi' := Node(t.l, t.v, Leaf), m.r, hi;
      GraftSizes(t.r, lo');
      assert Turn(t) == Assemble(lo', m', hi');
    } else {
      lo', m', hi' := lo, m.l, Node(Leaf, t.v, t.r);
      GraftSizes(t.l, hi');
      assert Turn(t) == Assemble(lo', m', hi');
    }
  }

  /** Termination of the loop: as many passes as the window has nodes always suffice. */
  lemma {:induction false} WindowSettles<T>(t: Tree<T>, lo: Tree<T>, m: Tree<T>, hi: Tree<T>, k: nat)
    requires Window(t, lo, m, hi) && Size(m) <= k
    ensures t.Node? && SidesEven(Turned(t, k))
    decreases k
  {
    if !SidesEven(t) {
      var lo', m', hi' := TurnShrinks(t, lo, m, hi);
      WindowSettles(Turn(t), lo', m', hi', k - 1);
    }
  }

  lemma WholeWindow<T>(t: Tree<T>)
    requires t.Node?
    ensures Window(t, Leaf, t, Leaf)
  {
    GraftLeaf(t);
  }

  lemma GraftLeaf<T>(t: Tree<T>)
    ensures GraftLeft(t, Leaf) == t && GraftRight(t, Leaf) == t
  {
  }

  /** The rotation loop terminates on every tree, within as many turns as there are nodes. */
  lemma RotationTerminates<T>(t: Tree<T>)
    requires t.Node?
    ensures SidesEven(Turned(t, Size(t)))
  {
    WholeWindow(t);
    WindowSettles(t, Leaf, t, Leaf, Size(t));
  }

  lemma {:induction false} RootStaysInWindow<T>(t: Tree<T>, lo: Tree<T>, m: Tree<T>, hi: Tree<T>, k: nat)
    requires Window(t, lo, m, hi)
    ensures t.Node? && Size(lo) <= Size(Turned(t, k).l) < Size(t) - Size(hi)
    decreases k
  {
    GraftSizes(m.l, lo);
    GraftSizes(m.r, hi);
    assert t == Node(GraftLeft(m.l, lo), m.v, GraftRight(m.r, hi));
    if k > 0 && !SidesEven(t) {
      var lo', m', hi' := TurnShrinks(t, lo, m, hi);
      RootStaysInWindow(Turn(t), lo', m', hi', k - 1);
    }
  }

  /** No alternation of left and right turns comes back to a rejected root
      (a root is identified by its place in the unchanging in-order sequence). */
  lemma RejectedRootNeverReturns<T>(t: Tree<T>, i: nat, j: nat)
    requires t.Node? && i < j && !SidesEven(Turned(t, i))
    ensures Size(Turned(t, i).l) != Size(Turned(t, j).l)
  {
    WholeWindow(t);
    RejectedStaysOut(t, Leaf, t, Leaf, i, j);
  }

  lemma {:induction false} RejectedStaysOut<T>(t: Tree<T>, lo: Tree<T>, m: Tree<T>, hi: Tree<T>, i: nat, j: nat)
    requires Window(t, lo, m, hi) && t.Node? && i < j && !SidesEven(Turned(t, i))
    ensures Size(Turned(t, i).l) != Size(Turned(t, j).l)
    decreases i
  {
    var lo', m', hi' := TurnShrinks(t, lo, m, hi);
    if i == 0 {
      RootStaysInWindow(Turn(t), lo', m', hi', j - 1);
    } else {
      RejectedStaysOut(Turn(t), lo', m', hi', i - 1, j - 1);
    }
  }

  // ----- Balancing the whole tree -----

  function Rebalanced<T>(t: Tree<T>): (b: Tree<T>)
    decreases Size(t)
  {
    if t.Leaf? then Leaf
    else
      var s := Turned(t, Size(t));
      Node(Rebalanced(s.l), s.v, Rebalanced(s.r))
  }

  predicate Balanced<T>(t: Tree<T>) {
    t.Leaf? || (SidesEven(t) && Balanced(t.l) && Balanced(t.r))
  }

  /** Balancing keeps the in-order sequence and leaves every node's sides within one of each other. */
  lemma {:induction false} RebalancedCorrect<T>(t: Tree<T>)
    ensures InOrder(Rebalanced(t)) == InOrder(t)
    ensures Balanced(Rebalanced(t))
    decreases Size(t)
  {
    if t.Node? {
      RotationTerminates(t);
      var s := Turned(t, Size(t));
      RebalancedCorrect(s.l);
      RebalancedCorrect(s.r);
      assert Size(Rebalanced(s.l)) == |InOrder(s.l)| && Size(Rebalanced(s.r)) == |InOrder(s.r)|;
    }
  }

  function Log2(n: nat): nat
    requires n > 0
  {
    if n == 1 then 0 else 1 + Log2(n / 2)
  }

  lemma {:induction false} Log2Bounds(n: nat)
    requires n > 0
    ensures Pow2(Log2(n)) <= n < 2 * Pow2(Log2(n))
  {
    if n > 1 {
      Log2Bounds(n / 2);
    }
  }

  lemma {:induction false} Log2Monotone(m: nat, n: nat)
    requires 0 < m <= n
    ensures Log2(m) <= Log2(n)
  {
    if m > 1 {
      Log2Monotone(m / 2, n / 2);
    }
  }

  lemma {:induction false} SizeBelowPow2<T>(t: Tree<T>)
    ensures Size(t) < Pow2(Height(t))
  {
    if t.Node? {
      SizeBelowPow2(t.l);
      SizeBelowPow2(t.r);
      Pow2Monotone(Height(t.l), Height(t) - 1);
      Pow2Monotone(Height(t.r), Height(t) - 1);
    }
  }

  lemma {:induction false} Pow2Monotone(m: nat, n: nat)
    requires m <= n
    ensures Pow2(m) <= Pow2(n)
    decreases n
  {
    if m < n {
      Pow2Monotone(m, n - 1);
    }
  }

  lemma {:induction false} BalancedUpperHeight<T>(t: Tree<T>)
    requires Balanced(t) && t.Node?
    ensures Height(t) <= Log2(Size(t)) + 1
  {
    if t.l.Node? {
      BalancedUpperHeight(t.l);
      Log2Monotone(Size(t.l), Size(t) / 2);
    }
    if t.r.Node? {
      BalancedUpperHeight(t.r);
      Log2Monotone(Size(t.r), Size(t) / 2);
    }
  }

  /** A balanced tree has exactly the least height any tree with that many nodes can have. */
  lemma BalancedHeight<T>(t: Tree<T>, other: Tree<T>)
    requires Balanced(t) && t.Node? && Size(other) == Size(t)
    ensures Height(t) == Log2(Size(t)) + 1 <= Height(other)
  {
    BalancedUpperHeight(t);
    LeastHeight(t);
    LeastHeight(other);
  }

  lemma LeastHeight<T>(t: Tree<T>)
    requires t.Node?
    ensures Log2(Size(t)) + 1 <= Height(t)
  {
    SizeBelowPow2(t);
    Log2Bounds(Size(t));
    if Height(t) <= Log2(Size(t)) {
      Pow2Monotone(Height(t), Log2(Size(t)));
    }
  }

  // ----- The search tree -----

  ghost predicate Sorted<T>(s: seq<T>, key: T -> int) {
    forall i, j :: 0 <= i < j < |s| ==> key(s[i]) <= key(s[j])
  }

  lemma SortedAround<T>(a: seq<T>, x: T, b: seq<T>, key: T -> int)
    ensures Sorted(a + [x] + b, key) <==>
      && Sorted(a, key) && Sorted(b, key)
      && (forall y :: y in a ==> key(y) <= key(x)) && (forall y :: y in b ==> key(x) <= key(y))
  {
    var s := a + [x] + b;
    assert s[|a|] == x && s[..|a|] == a && s[|a| + 1..] == b;
    if Sorted(s, key) {
      assert forall i :: 0 <= i < |a| ==> a[i] == s[i];
      assert forall i :: 0 <= i < |b| ==> b[i] == s[|a| + 1 + i];
    }
  }

  /** A new leaf: smaller or equal keys go left. */
  function Insertion<T>(t: Tree<T>, x: T, key: T -> int): Tree<T> {
    match t
    case Leaf => Node(Leaf, x, Leaf)
    case Node(l, v, r) =>
      if key(x) <= key(v) then Node(Insertion(l, x, key), v, r) else Node(l, v, Insertion(r, x, key))
  }

  /** The place i comes after everything smaller than k and before the rest. */
  predicate LowerBound<T>(s: seq<T>, k: int, key: T -> int, i: nat) {
    i <= |s| && (forall j :: 0 <= j < i ==> key(s[j]) < k) && (i < |s| ==> k <= key(s[i]))
  }

  function Inserted<T>(s: seq<T>, i: nat, x: T): seq<T>
    requires i <= |s|
  {
    s[..i] + [x] + s[i..]
  }

  /** Insertion puts the new element just before the first one that is not smaller. */
  lemma {:induction false} InsertionInOrder<T>(t: Tree<T>, x: T, key: T -> int) returns (i: nat)
    requires Sorted(InOrder(t), key)
    ensures LowerBound(InOrder(t), key(x), key, i)
    ensures InOrder(Insertion(t, x, key)) == Inserted(InOrder(t), i, x)
  {
    i := 0;
    if t.Node? {
      var a, b := InOrder(t.l), InOrder(t.r);
      SortedParts(t, key);
      if key(x) <= key(t.v) {
        i := InsertionInOrder(t.l, x, key);
        InsertedBefore(a, [t.v] + b, i, x, key);
        Assoc(Inserted(a, i, x), [t.v], b);
        Assoc(a, [t.v], b);
      } else {
        i := InsertionInOrder(t.r, x, key);
        InsertedAfter(a + [t.v], b, i, x, key);
        i := |a + [t.v]| + i;
      }
    }
  }

  lemma SortedParts<T>(t: Tree<T>, key: T -> int)
    requires t.Node? && Sorted(InOrder(t), key)
    ensures Sorted(InOrder(t.l), key) && Sorted(InOrder(t.r), key)
    ensures forall j :: 0 <= j < Size(t.l) ==> key(InOrder(t.l)[j]) <= key(t.v)
  {
    SortedAround(InOrder(t.l), t.v, InOrder(t.r), key);
  }

  lemma InsertedBefore<T>(a: seq<T>, c: seq<T>, i: nat, x: T, key: T -> int)
    requires LowerBound(a, key(x), key, i) && c != [] && key(x) <= key(c[0])
    ensures LowerBound(a + c, key(x), key, i) && Inserted(a + c, i, x) == Inserted(a, i, x) + c
  {
    assert (a + c)[..i] == a[..i] && (a + c)[i..] == a[i..] + c;
    Assoc(a[..i] + [x], a[i..], c);
  }

  lemma InsertedAfter<T>(c: seq<T>, b: seq<T>, i: nat, x: T, key: T -> int)
    requires LowerBound(b, key(x), key, i) && forall j :: 0 <= j < |c| ==> key(c[j]) < key(x)
    ensures LowerBound(c + b, key(x), key, |c| + i) && Inserted(c + b, |c| + i, x) == c + Inserted(b, i, x)
  {
    assert (c + b)[..|c| + i] == c + b[..i] && (c + b)[|c| + i..] == b[i..];
    Assoc(c, b[..i] + [x], b[i..]);
    Assoc(c, b[..i], [x]);
  }

  lemma InsertionSorted<T>(t: Tree<T>, x: T, key: T -> int)
    requires Sorted(InOrder(t), key)
    ensures Sorted(InOrder(Insertion(t, x, key)), key)
  {
    var i := InsertionInOrder(t, x, key);
    var s := InOrder(t);
    SortedAround(s[..i], x, s[i..], key);
  }

  /** The left side moves up and the right side hangs on its rightmost node. */
  function Spliced<T>(t: Tree<T>): Tree<T>
    requires t.Node?
  {
    if t.l.Leaf? then t.r else GraftRight(t.l, t.r)
  }

  function Deletion<T>(t: Tree<T>, id: int, key: T -> int): Tree<T> {
    match t
    case Leaf => Leaf
    case Node(l, v, r) =>
      if key(v) == id then Spliced(t)
      else if id < key(v) then Node(Deletion(l, id, key), v, r)
      else Node(l, v, Deletion(r, id, key))
  }

  /** The first node with the wanted key on the way down. */
  function Lookup<T>(t: Tree<T>, id: int, key: T -> int): (c: Tree<T>)
    ensures c.Node? ==> key(c.v) == id
  {
    match t
    case Leaf => Leaf
    case Node(l, v, r) => if key(v) == id then t else if id < key(v) then Lookup(l, id, key) else Lookup(r, id, key)
  }

  /** In a search tree the way down finds a key exactly when the tree holds it. */
  lemma {:induction false} LookupComplete<T>(t: Tree<T>, id: int, key: T -> int)
    requires Sorted(InOrder(t), key)
    ensures Lookup(t, id, key).Node? <==> exists x :: x in InOrder(t) && key(x) == id
    ensures Lookup(t, id, key).Node? ==> Lookup(t, id, key).v in InOrder(t)
  {
    if t.Node? {
      SortedAround(InOrder(t.l), t.v, InOrder(t.r), key);
      LookupComplete(t.l, id, key);
      LookupComplete(t.r, id, key);
    }
  }

  /** Deletion takes out one element with the wanted key and leaves the rest in order;
      without such an element it changes nothing. */
  lemma {:induction false} DeletionInOrder<T>(t: Tree<T>, id: int, key: T -> int) returns (a: seq<T>, b: seq<T>)
    ensures Lookup(t, id, key).Leaf? ==> Deletion(t, id, key) == t
    ensures Lookup(t, id, key).Node? ==>
      InOrder(t) == a + [Lookup(t, id, key).v] + b && InOrder(Deletion(t, id, key)) == a + b
  {
    a, b := [], [];
    if t.Node? {
      if key(t.v) == id {
        GraftRightInOrder(t.l, t.r);
        a, b := InOrder(t.l), InOrder(t.r);
      } else if id < key(t.v) {
        a, b := DeletionInOrder(t.l, id, key);
        if Lookup(t.l, id, key).Node? {
          Assoc(a + [Lookup(t.l, id, key).v], b, [t.v] + InOrder(t.r));
          Assoc(a, b, [t.v] + InOrder(t.r));
        }
        AssocNode(t, Deletion(t.l, id, key), t.r);
        b := b + ([t.v] + InOrder(t.r));
      } else {
        a, b := DeletionInOrder(t.r, id, key);
        if Lookup(t.r, id, key).Node? {
          Assoc(InOrder(t.l) + [t.v], a + [Lookup(t.r, id, key).v], b);
          Assoc(InOrder(t.l) + [t.v], a, [Lookup(t.r, id, key).v]);
          Assoc(InOrder(t.l) + [t.v], a, b);
        }
        a := InOrder(t.l) + [t.v] + a;
      }
    }
  }

  // ----- Level order -----

  /** The nodes at depth d, left to right. */
  function Level<T>(t: Tree<T>, d: nat): seq<T> {
    match t
    case Leaf => []
    case Node(l, v, r) => if d == 0 then [v] else Level(l, d - 1) + Level(r, d - 1)
  }

  /** The levels d, d+1, ... down to the last. */
  function LevelsFrom<T>(t: Tree<T>, d: nat): seq<T>
    decreases Height(t) - d
  {
    if d >= Height(t) then [] else Level(t, d) + LevelsFrom(t, d + 1)
  }

  function LevelOrder<T>(t: Tree<T>): seq<T> {
    LevelsFrom(t, 0)
  }

  function Children<T>(t: Tree<T>): seq<Tree<T>> {
    match t
    case Leaf => []
    case Node(l, _, r) => Alone(l) + Alone(r)
  }

  /** The queue entry for a child pointer: nothing when it is null. */
  function Alone<T>(t: Tree<T>): seq<Tree<T>> {
    if t.Leaf? then [] else [t]
  }

  function ForestSize<T>(f: seq<Tree<T>>): nat {
    if f == [] then 0 else Size(f[0]) + ForestSize(f[1..])
  }

  lemma {:induction false} ForestSizeAppend<T>(f: seq<Tree<T>>, g: seq<Tree<T>>)
    ensures ForestSize(f + g) == ForestSize(f) + ForestSize(g)
  {
    if f == [] {
      assert f + g == g;
    } else {
      assert (f + g)[1..] == f[1..] + g;
      ForestSizeAppend(f[1..], g);
    }
  }

  lemma ChildrenSize<T>(t: Tree<T>)
    requires t.Node?
    ensures ForestSize(Children(t)) == Size(t) - 1
  {
    ForestSizeAppend(Alone(t.l), Alone(t.r));
  }

  /** What a queue holding the trees f will still print. */
  function Drained<T>(f: seq<Tree<T>>): seq<T>
    requires forall t :: t in f ==> t.Node?
    decreases ForestSize(f)
  {
    if f == [] then []
    else
      ForestSizeAppend(f[1..], Children(f[0]));
      ChildrenSize(f[0]);
      [f[0].v] + Drained(f[1..] + Children(f[0]))
  }

  function Roots<T>(f: seq<Tree<T>>): seq<T>
    requires forall t :: t in f ==> t.Node?
  {
    if f == [] then [] else [f[0].v] + Roots(f[1..])
  }

  function AllChildren<T>(f: seq<Tree<T>>): (g: seq<Tree<T>>)
    ensures forall t :: t in g ==> t.Node?
  {
    if f == [] then [] else Children(f[0]) + AllChildren(f[1..])
  }

  /** Draining a whole row f prints its roots and leaves its children behind what was queued. */
  lemma {:induction false} DrainRow<T>(f: seq<Tree<T>>, g: seq<Tree<T>>)
    requires forall t :: t in f + g ==> t.Node?
    ensures forall t :: t in f ==> t in f + g
    ensures forall t :: t in g ==> t in f + g
    ensures Drained(f + g) == Roots(f) + Drained(g + AllChildren(f))
    decreases f
  {
    forall t | t in f ensures t in f + g {}
    forall t | t in g ensures t in f + g {}
    if f == [] {
      assert f + g == g && g + AllChildren(f) == g;
    } else {
      var cs := Children(f[0]);
      assert (f + g)[0] == f[0] && (f + g)[1..] == f[1..] + g;
      Assoc(f[1..], g, cs);
      DrainRow(f[1..], g + cs);
      Assoc(g, cs, AllChildren(f[1..]));
      Assoc([f[0].v], Roots(f[1..]), Drained(g + AllChildren(f)));
    }
  }

  /** The levels of a forest: all its nodes at depth d. */
  function ForestLevel<T>(f: seq<Tree<T>>, d: nat): seq<T> {
    if f == [] then [] else Level(f[0], d) + ForestLevel(f[1..], d)
  }

  lemma {:induction false} ForestLevelAppend<T>(f: seq<Tree<T>>, g: seq<Tree<T>>, d: nat)
    ensures ForestLevel(f + g, d) == ForestLevel(f, d) + ForestLevel(g, d)
  {
    if f == [] {
      assert f + g == g;
    } else {
      assert (f + g)[1..] == f[1..] + g;
      ForestLevelAppend(f[1..], g, d);
    }
  }

  lemma {:induction false} ForestLevelDown<T>(f: seq<Tree<T>>, d: nat)
    requires forall t :: t in f ==> t.Node?
    ensures ForestLevel(f, 0) == Roots(f)
    ensures ForestLevel(AllChildren(f), d) == ForestLevel(f, d + 1)
  {
    if f != [] {
      ForestLevelDown(f[1..], d);
      var t := f[0];
      ForestLevelAppend(Children(t), AllChildren(f[1..]), d);
      ChildrenLevel(t, d);
    }
  }

  lemma ChildrenLevel<T>(t: Tree<T>, d: nat)
    requires t.Node?
    ensures ForestLevel(Children(t), d) == Level(t, d + 1)
  {
    ForestLevelAppend(Alone(t.l), Alone(t.r), d);
  }

  /** The subtrees at depth d, left to right. */
  function RowAt<T>(t: Tree<T>, d: nat): (f: seq<Tree<T>>)
    ensures forall u :: u in f ==> u.Node?
  {
    if d == 0 then Alone(t) else AllChildren(RowAt(t, d - 1))
  }

  lemma {:induction false} RowLevel<T>(t: Tree<T>, d: nat, e: nat)
    ensures ForestLevel(RowAt(t, d), e) == Level(t, d + e)
    decreases d
  {
    if d == 0 {
      assert Alone(t) != [] ==> Alone(t)[1..] == [];
    } else {
      RowLevel(t, d - 1, e + 1);
      ForestLevelDown(RowAt(t, d - 1), e);
    }
  }

  lemma {:induction false} DrainedFrom<T>(t: Tree<T>, d: nat)
    ensures Drained(RowAt(t, d)) == LevelsFrom(t, d)
    decreases ForestSize(RowAt(t, d))
  {
    var f := RowAt(t, d);
    assert Level(t, d) == Roots(f) by {
      RowLevel(t, d, 0);
      ForestLevelDown(f, 0);
    }
    if f == [] {
      EmptyLevel(t, d);
    } else {
      if d >= Height(t) {
        LevelBelow(t, d);
      }
      assert Drained(f) == Roots(f) + Drained(AllChildren(f)) by {
        DrainRow(f, []);
        assert f + [] == f && [] + AllChildren(f) == AllChildren(f);
      }
      RowShrinks(f);
      assert RowAt(t, d + 1) == AllChildren(f);
      DrainedFrom(t, d + 1);
    }
  }

  lemma {:induction false} RowShrinks<T>(f: seq<Tree<T>>)
    requires forall t :: t in f ==> t.Node?
    ensures ForestSize(AllChildren(f)) == ForestSize(f) - |f|
  {
    if f != [] {
      RowShrinks(f[1..]);
      ChildrenSize(f[0]);
      ForestSizeAppend(Children(f[0]), AllChildren(f[1..]));
    }
  }

  lemma EmptyLevel<T>(t: Tree<T>, d: nat)
    requires Level(t, d) == []
    ensures Height(t) <= d
  {
  }

  lemma LevelBelow<T>(t: Tree<T>, d: nat)
    requires Height(t) <= d
    ensures Level(t, d) == []
  {
  }

  /** A queue that starts with the root alone prints the levels one after the other. */
  lemma DrainedIsLevelOrder<T>(t: Tree<T>)
    requires t.Node?
    ensures Drained([t]) == LevelOrder(t)
  {
    DrainedFrom(t, 0);
  }

  /** Level order visits every node exactly once. */
  lemma LevelOrderVisitsOnce<T>(t: Tree<T>)
    requires t.Node?
    ensures multiset(LevelOrder(t)) == multiset(InOrder(t))
  {
    DrainedIsLevelOrder(t);
    DrainedElements([t]);
    assert [t][1..] == [];
  }

  /** part is made of the elements of whole at the places at, in their order. */
  ghost predicate Picks<T>(part: seq<T>, whole: seq<T>, at: seq<nat>) {
    && |at| == |part| && (forall i, j :: 0 <= i < j < |at| ==> at[i] < at[j])
    && forall i :: 0 <= i < |at| ==> at[i] < |whole| && whole[at[i]] == part[i]
  }

  lemma PicksAround<T>(p: seq<T>, a: seq<T>, atA: seq<nat>, v: T, q: seq<T>, b: seq<T>, atB: seq<nat>)
      returns (at: seq<nat>)
    requires Picks(p, a, atA) && Picks(q, b, atB)
    ensures Picks(p + q, a + [v] + b, at)
  {
    var shift := |a| + 1;
    at := atA + seq(|atB|, i requires 0 <= i < |atB| => atB[i] + shift);
    forall i | 0 <= i < |at| ensures at[i] < |a + [v] + b| && (a + [v] + b)[at[i]] == (p + q)[i] {
      if i < |atA| {
        assert at[i] == atA[i];
      } else {
        assert at[i] == atB[i - |atA|] + shift && (a + [v] + b)[at[i]] == b[atB[i - |atA|]];
      }
    }
  }

  /** Each level runs through the tree from left to right: its nodes are in the order of the in-order sequence. */
  lemma {:induction false} LevelLeftToRight<T>(t: Tree<T>, d: nat) returns (at: seq<nat>)
    ensures Picks(Level(t, d), InOrder(t), at)
  {
    if t.Leaf? {
      at := [];
    } else if d == 0 {
      at := [|InOrder(t.l)|];
    } else {
      var a := LevelLeftToRight(t.l, d - 1);
      var b := LevelLeftToRight(t.r, d - 1);
      at := PicksAround(Level(t.l, d - 1), InOrder(t.l), a, t.v, Level(t.r, d - 1), InOrder(t.r), b);
    }
  }

  function ForestElements<T>(f: seq<Tree<T>>): multiset<T> {
    if f == [] then multiset{} else multiset(InOrder(f[0])) + ForestElements(f[1..])
  }

  lemma {:induction false} ForestElementsAppend<T>(f: seq<Tree<T>>, g: seq<Tree<T>>)
    ensures ForestElements(f + g) == ForestElements(f) + ForestElements(g)
  {
    if f == [] {
      assert f + g == g;
    } else {
      assert (f + g)[1..] == f[1..] + g;
      ForestElementsAppend(f[1..], g);
    }
  }

  lemma AloneElements<T>(t: Tree<T>)
    ensures ForestElements(Alone(t)) == multiset(InOrder(t))
  {
    if t.Node? {
      assert Alone(t)[1..] == [];
    }
  }

  lemma ChildrenElements<T>(t: Tree<T>)
    requires t.Node?
    ensures multiset(InOrder(t)) == multiset{t.v} + ForestElements(Children(t))
  {
    ForestElementsAppend(Alone(t.l), Alone(t.r));
    AloneElements(t.l);
    AloneElements(t.r);
    var a, b := InOrder(t.l), InOrder(t.r);
    assert multiset(a + [t.v] + b) == multiset(a) + multiset{t.v} + multiset(b);
  }

  lemma {:induction false} DrainedElements<T>(f: seq<Tree<T>>)
    requires forall t :: t in f ==> t.Node?
    ensures multiset(Drained(f)) == ForestElements(f)
    decreases ForestSize(f)
  {
    if f != [] {
      var t, g := f[0], f[1..] + Children(f[0]);
      ForestSizeAppend(f[1..], Children(t));
      ChildrenSize(t);
      DrainedElements(g);
      ForestElementsAppend(f[1..], Children(t));
      ChildrenElements(t);
    }
  }
}
