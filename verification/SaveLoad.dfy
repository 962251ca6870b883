/**
  A tree of characters written to a file with brackets and read back.
  The source's exit(1) on a malformed file is the None result.
 */
module SaveLoad {
  import opened Wrappers
  import opened Trees
  import opened TreeHeap

  function Text(t: Tree<char>): string {
    match t
    case Leaf => "()"
    case Node(l, v, r) => ['(', v] + Text(l) + Text(r) + [')']
  }

  /** What the loader makes of the characters still unread: the tree and what it leaves unread.
      The last character of a node is skipped unseen, so it need not be a bracket. */
  function Parse(s: string): (r: Option<(Tree<char>, string)>)
    ensures r.Some? ==> |r.value.1| < |s|
    decreases |s|
  {
    if |s| < 2 || s[0] != '(' then None
    else if s[1] == ')' then Some((Leaf, s[2..]))
    else
      match Parse(s[2..])
      case None => None
      case Some((l, sl)) =>
        match Parse(sl)
        case None => None
        case Some((r, sr)) => Some((Node(l, s[1], r), if sr == [] then [] else sr[1..]))
  }

  /** No node holds a closing bracket. */
  predicate Plain(t: Tree<char>) {
    t.Node? ==> t.v != ')' && Plain(t.l) && Plain(t.r)
  }

  lemma TextOfNode(l: Tree<char>, v: char, r: Tree<char>, rest: string)
    ensures var s := Text(Node(l, v, r)) + rest;
      |s| >= 2 && s[0] == '(' && s[1] == v && s[2..] == Text(l) + (Text(r) + ([')'] + rest))
  {
  }

  lemma {:induction false} LoadsBack(t: Tree<char>, rest: string)
    requires Plain(t)
    ensures Parse(Text(t) + rest) == Some((t, rest))
  {
    if t.Node? {
      var close := [')'] + rest;
      LoadsBack(t.l, Text(t.r) + close);
      LoadsBack(t.r, close);
      TextOfNode(t.l, t.v, t.r, rest);
      assert close[1..] == rest;
    } else {
      assert (Text(t) + rest)[2..] == rest;
    }
  }

  lemma {:induction false} ParsedIsPlain(s: string)
    ensures Parse(s).Some? ==> Plain(Parse(s).value.0)
    decreases |s|
  {
    if |s| >= 2 && s[0] == '(' && s[1] != ')' {
      ParsedIsPlain(s[2..]);
      if Parse(s[2..]).Some? {
        ParsedIsPlain(Parse(s[2..]).value.1);
      }
    }
  }

  /** Loading what was saved gives the tree back, and leaves exactly what followed,
      when and only when no node holds a closing bracket. */
  lemma RoundTripIff(t: Tree<char>, rest: string)
    ensures Parse(Text(t) + rest) == Some((t, rest)) <==> Plain(t)
  {
    if Plain(t) {
      LoadsBack(t, rest);
    }
    ParsedIsPlain(Text(t) + rest);
  }

  /** The format is uniquely decodable, also within a longer text. */
  lemma UniquelyDecodable(t: Tree<char>, u: Tree<char>, rest: string, other: string)
    requires Plain(t) && Plain(u) && Text(t) + rest == Text(u) + other
    ensures t == u && rest == other
  {
    LoadsBack(t, rest);
    LoadsBack(u, other);
  }

  /** A single node holding the bracket loads as the empty tree. */
  lemma BracketDatumLost()
    ensures Parse(Text(Node(Leaf, ')', Leaf))) == Some((Leaf, "()())"))
  {
    assert Text(Node(Leaf, ')', Leaf)) == "()()())";
  }

  // ----- What the saved text looks like -----

  function Preorder(t: Tree<char>): string {
    match t
    case Leaf => []
    case Node(l, v, r) => [v] + Preorder(l) + Preorder(r)
  }

  predicate Bracket(c: char) {
    c == '(' || c == ')'
  }

  predicate Bracketless(t: Tree<char>) {
    t.Node? ==> !Bracket(t.v) && Bracketless(t.l) && Bracketless(t.r)
  }

  function WithoutBrackets(s: string): string {
    if s == [] then [] else (if Bracket(s[0]) then [] else [s[0]]) + WithoutBrackets(s[1..])
  }

  /** The brackets opened beyond those closed. */
  function Depth(s: string): int {
    if s == [] then 0 else (if s[0] == '(' then 1 else if s[0] == ')' then -1 else 0) + Depth(s[1..])
  }

  lemma {:induction false} Appended(a: string, b: string)
    ensures WithoutBrackets(a + b) == WithoutBrackets(a) + WithoutBrackets(b)
    ensures Depth(a + b) == Depth(a) + Depth(b)
  {
    if a == [] {
      assert a + b == b;
    } else {
      assert (a + b)[1..] == a[1..] + b;
      Appended(a[1..], b);
    }
  }

  /** Data in preorder, a pair of brackets for every node and every empty side. */
  lemma {:induction false} TextIsPreorder(t: Tree<char>)
    requires Bracketless(t)
    ensures WithoutBrackets(Text(t)) == Preorder(t) && |Text(t)| == 5 * Size(t) + 2 && Depth(Text(t)) == 0
  {
    if t.Node? {
      var (l, r) := (Text(t.l), Text(t.r));
      TextIsPreorder(t.l);
      TextIsPreorder(t.r);
      Appended(['(', t.v] + l + r, [')']);
      Appended(['(', t.v] + l, r);
      Appended(['(', t.v], l);
      Short(t.v);
    } else {
      assert "()"[1..] == ")" && ")"[1..] == "";
    }
  }

  lemma Single(c: char)
    ensures WithoutBrackets([c]) == if Bracket(c) then [] else [c]
    ensures Depth([c]) == if c == '(' then 1 else if c == ')' then -1 else 0
  {
    assert [c][1..] == [];
  }

  lemma Short(v: char)
    requires !Bracket(v)
    ensures WithoutBrackets(['(', v]) == [v] && WithoutBrackets([')']) == []
    ensures Depth(['(', v]) == 1 && Depth([')']) == -1
  {
    Appended(['('], [v]);
    assert ['('] + [v] == ['(', v];
    Single('(');
    Single(v);
    Single(')');
  }

  /** The brackets enclose what belongs to a node: before the last character one is always open. */
  lemma {:induction false} TextEnclosed(t: Tree<char>, i: nat)
    requires Bracketless(t) && 0 < i < |Text(t)|
    ensures Depth(Text(t)[..i]) > 0
    decreases t, 0
  {
    if t.Leaf? || i == 1 {
      assert Text(t)[..i] == "(" && "("[1..] == "";
    } else {
      var (h, l, r) := (['(', t.v], Text(t.l), Text(t.r));
      Short(t.v);
      TextIsPreorder(t.l);
      if i <= 2 + |l| {
        assert Text(t)[..i] == h + l[..i - 2];
        Appended(h, l[..i - 2]);
        NeverBelow(t.l, i - 2);
      } else {
        assert Text(t)[..i] == h + l + r[..i - 2 - |l|];
        Appended(h + l, r[..i - 2 - |l|]);
        Appended(h, l);
        NeverBelow(t.r, i - 2 - |l|);
      }
    }
  }

  lemma NeverBelow(t: Tree<char>, i: nat)
    requires Bracketless(t) && i <= |Text(t)|
    ensures Depth(Text(t)[..i]) >= 0
    decreases t, 1
  {
    if 0 < i < |Text(t)| {
      TextEnclosed(t, i);
    } else {
      TextIsPreorder(t);
      assert i > 0 ==> Text(t)[..i] == Text(t);
    }
  }

  class File {
    var content: string
    var pos: nat

    ghost predicate Valid()
      reads this
    {
      pos <= |content|
    }

    ghost function Unread(): string
      requires Valid()
      reads this
    {
      content[pos..]
    }

    constructor (content: string)
      ensures Valid() && this.content == content && pos == 0
    {
      this.content := content;
      pos := 0;
    }

    method Fputc(c: char)
      modifies this`content
      ensures content == old(content) + [c]
    {
      content := content + [c];
    }

    /** None at the end of the file, where the cursor stays. */
    method Fgetc() returns (c: Option<char>)
      requires Valid()
      modifies this`pos
      ensures Valid()
      ensures if old(Unread()) == [] then c == None && Unread() == []
              else c == Some(old(Unread())[0]) && Unread() == old(Unread())[1..]
    {
      if pos == |content| {
        return None;
      }
      c, pos := Some(content[pos]), pos + 1;
    }
  }

  /** The tree of data that a tree of nodes holds. */
  ghost function Values<D>(t: Tree<Cell<D>>): Tree<D> {
    match t
    case Leaf => Leaf
    case Node(l, c, r) => Node(Values(l), c.data, Values(r))
  }

  method Save(root: Cell?<char>, ghost t: Tree<Cell<char>>, fp: File)
    requires Linked(root, t)
    modifies fp`content
    ensures fp.content == old(fp.content) + Text(Values(t))
    decreases t
  {
    CellsAllocated(t);
    fp.Fputc('(');
    if root == null {
      fp.Fputc(')');
      return;
    }
    fp.Fputc(root.data);
    assert Linked(root, t);
    Save(root.l, t.l, fp);
    assert Linked(root, t);
    Save(root.r, t.r, fp);
    fp.Fputc(')');
  }

  method Load(fp: File) returns (ok: bool, root: Cell?<char>, ghost t: Tree<Cell<char>>)
    requires fp.Valid()
    modifies fp`pos
    ensures fp.Valid() && fp.content == old(fp.content)
    ensures match Parse(old(fp.Unread()))
      case None => !ok
      case Some((d, rest)) => ok && Heap(root, t) && Values(t) == d && fresh(Cells(t)) && fp.Unread() == rest
    decreases |fp.Unread()|, 1
  {
    ok, root, t := false, null, Leaf;
    ghost var s := fp.Unread();
    var c := fp.Fgetc();
    if c != Some('(') {
      return;
    }
    c := fp.Fgetc();
    if c == None {
      // The next call would read past the end again and exit.
      return;
    }
    assert fp.Unread() == s[2..] && c.value == s[1];
    if c == Some(')') {
      ok := true;
      return;
    }
    ok, root, t := LoadNode(fp, c.value, s);
  }

  /** The rest of a node whose bracket and datum have been read: its subtrees and its closing character. */
  method LoadNode(fp: File, data: char, ghost s: string)
      returns (ok: bool, root: Cell?<char>, ghost t: Tree<Cell<char>>)
    requires fp.Valid() && |s| >= 2 && s[0] == '(' && s[1] == data != ')' && fp.Unread() == s[2..]
    modifies fp`pos
    ensures fp.Valid() && fp.content == old(fp.content)
    ensures match Parse(s)
      case None => !ok
      case Some((d, rest)) => ok && Heap(root, t) && Values(t) == d && fresh(Cells(t)) && fp.Unread() == rest
    decreases |fp.Unread()|, 2
  {
    root, t := null, Leaf;
    var l, r;
    ghost var tl, tr;
    ok, l, tl := Load(fp);
    if !ok {
      return;
    }
    CellsAllocated(tl);
    ok, r, tr := Load(fp);
    if !ok {
      return;
    }
    assert Linked(l, tl);
    root, t := Join(data, l, tl, r, tr);
    CellsAllocated(t);
    var _ := fp.Fgetc();
    assert Linked(root, t);
  }

  /** A new node above two loaded trees. */
  method Join(data: char, l: Cell?<char>, ghost tl: Tree<Cell<char>>, r: Cell?<char>, ghost tr: Tree<Cell<char>>)
      returns (root: Cell<char>, ghost t: Tree<Cell<char>>)
    requires Heap(l, tl) && Heap(r, tr) && Cells(tl) !! Cells(tr)
    ensures fresh(root) && Cells(t) == Cells(tl) + {root} + Cells(tr)
    ensures Heap(root, t) && Values(t) == Node(Values(tl), data, Values(tr))
  {
    CellsAllocated(tl);
    CellsAllocated(tr);
    root := new Cell(data);
    root.l, root.r := l, r;
    t := Node(tl, root, tr);
    assert Linked(l, tl) && Linked(r, tr);
  }
}
