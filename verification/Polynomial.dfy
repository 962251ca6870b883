/** Sparse polynomials as linked lists of terms, added in place. */
module Polynomial {

  // ----- On sequences -----

  datatype Mono = Mono(coef: int, exp: int)

  /** Exponents ascend strictly and no coefficient is zero. */
  predicate Proper(s: seq<Mono>) {
    && (forall i :: 0 <= i < |s| ==> s[i].coef != 0)
    && (forall i, j :: 0 <= i < j < |s| ==> s[i].exp < s[j].exp)
  }

  /** The terms summed up, with power giving the value of each power of the variable: taking
      power(e) == x to the e gives the value at x, for any x and any meaning of the powers. */
  function Value(s: seq<Mono>, power: int -> real): real {
    if s == [] then 0.0 else At(s[0], power) + Value(s[1..], power)
  }

  function At(m: Mono, power: int -> real): real {
    (m.coef as real) * power(m.exp)
  }

  /** The merge: terms in order of their exponents, equal ones added, and dropped when they cancel. */
  function Merge(a: seq<Mono>, b: seq<Mono>): seq<Mono>
    decreases |a| + |b|
  {
    if a == [] then b
    else if b == [] then a
    else if a[0].exp < b[0].exp then [a[0]] + Merge(a[1..], b)
    else if a[0].exp > b[0].exp then [b[0]] + Merge(a, b[1..])
    else Sum(a[0], b[0]) + Merge(a[1..], b[1..])
  }

  function Sum(m: Mono, n: Mono): seq<Mono> {
    if m.coef + n.coef != 0 then [Mono(m.coef + n.coef, m.exp)] else []
  }

  lemma ValueFirst(m: Mono, s: seq<Mono>, power: int -> real)
    ensures Value([m] + s, power) == At(m, power) + Value(s, power)
  {
    assert ([m] + s)[1..] == s;
  }

  lemma AtSum(m: Mono, n: Mono, power: int -> real)
    requires m.exp == n.exp
    ensures At(Mono(m.coef + n.coef, m.exp), power) == At(m, power) + At(n, power)
  {
    Distribute(m.coef as real, n.coef as real, power(m.exp));
  }

  lemma Distribute(c: real, d: real, x: real)
    ensures (c + d) * x == c * x + d * x
  {
  }

  lemma AtZero(m: Mono, power: int -> real)
    requires m.coef == 0
    ensures At(m, power) == 0.0
  {
  }

  lemma ValueSum(m: Mono, n: Mono, s: seq<Mono>, power: int -> real)
    requires m.exp == n.exp
    ensures Value(Sum(m, n) + s, power) == At(m, power) + At(n, power) + Value(s, power)
  {
    AtSum(m, n, power);
    if m.coef + n.coef != 0 {
      ValueFirst(Mono(m.coef + n.coef, m.exp), s, power);
    } else {
      AtZero(Mono(m.coef + n.coef, m.exp), power);
      assert Sum(m, n) + s == s;
    }
  }

  /** The sum has at every point the sum of the values. */
  lemma {:induction false} MergeAdds(a: seq<Mono>, b: seq<Mono>, power: int -> real)
    ensures Value(Merge(a, b), power) == Value(a, power) + Value(b, power)
    decreases |a| + |b|, 1
  {
    if a == [] {
      assert Merge(a, b) == b;
    } else if b == [] {
      assert Merge(a, b) == a;
    } else {
      MergeAddsFirst(a, b, power);
    }
  }

  lemma {:induction false} MergeAddsFirst(a: seq<Mono>, b: seq<Mono>, power: int -> real)
    requires a != [] && b != []
    ensures Value(Merge(a, b), power) == Value(a, power) + Value(b, power)
    decreases |a| + |b|, 0
  {
    var m, n, a', b' := a[0], b[0], a[1..], b[1..];
    assert Value(a, power) == At(m, power) + Value(a', power);
    assert Value(b, power) == At(n, power) + Value(b', power);
    if m.exp < n.exp {
      MergeAdds(a', b, power);
      ValueFirst(m, Merge(a', b), power);
    } else if m.exp > n.exp {
      MergeAdds(a, b', power);
      ValueFirst(n, Merge(a, b'), power);
    } else {
      MergeAdds(a', b', power);
      ValueSum(m, n, Merge(a', b'), power);
    }
  }

  predicate Above(s: seq<Mono>, e: int) {
    forall i :: 0 <= i < |s| ==> e < s[i].exp
  }

  lemma ProperFirst(m: Mono, s: seq<Mono>, e: int)
    requires m.coef != 0 && e < m.exp && Proper(s) && Above(s, m.exp)
    ensures Proper([m] + s) && Above([m] + s, e)
  {
  }

  lemma ProperSum(m: Mono, n: Mono, s: seq<Mono>, e: int)
    requires m.exp == n.exp && e < m.exp && Proper(s) && Above(s, m.exp)
    ensures Proper(Sum(m, n) + s) && Above(Sum(m, n) + s, e)
  {
    if m.coef + n.coef != 0 {
      ProperFirst(Mono(m.coef + n.coef, m.exp), s, e);
    } else {
      assert Sum(m, n) + s == s;
    }
  }

  /** The sum of two proper polynomials is proper. */
  lemma {:induction false} MergeProper(a: seq<Mono>, b: seq<Mono>, e: int)
    requires Proper(a) && Proper(b) && Above(a, e) && Above(b, e)
    ensures Proper(Merge(a, b)) && Above(Merge(a, b), e)
    decreases |a| + |b|
  {
    if a != [] && b != [] {
      if a[0].exp < b[0].exp {
        MergeProper(a[1..], b, a[0].exp);
        ProperFirst(a[0], Merge(a[1..], b), e);
      } else if a[0].exp > b[0].exp {
        MergeProper(a, b[1..], b[0].exp);
        ProperFirst(b[0], Merge(a, b[1..]), e);
      } else {
        MergeProper(a[1..], b[1..], a[0].exp);
        ProperSum(a[0], b[0], Merge(a[1..], b[1..]), e);
      }
    }
  }

  /** The coefficient of one power. */
  function Coef(s: seq<Mono>, e: int): int {
    if s == [] then 0 else (if s[0].exp == e then s[0].coef else 0) + Coef(s[1..], e)
  }

  lemma {:induction false} NoCoefBelow(s: seq<Mono>, e: int)
    requires Above(s, e)
    ensures Coef(s, e) == 0
  {
    if s != [] {
      NoCoefBelow(s[1..], e);
    }
  }

  lemma LeastDiffers(s: seq<Mono>, t: seq<Mono>)
    requires s != [] && Proper(s) && Above(t, s[0].exp)
    ensures exists e :: Coef(s, e) != Coef(t, e)
  {
    NoCoefBelow(s[1..], s[0].exp);
    NoCoefBelow(t, s[0].exp);
    assert Coef(s, s[0].exp) != Coef(t, s[0].exp);
  }

  /** A proper polynomial is determined by its coefficients, so the sum has only one form. */
  lemma {:induction false} ProperUnique(s: seq<Mono>, t: seq<Mono>)
    requires Proper(s) && Proper(t) && forall e :: Coef(s, e) == Coef(t, e)
    ensures s == t
    decreases |s| + |t|
  {
    if s != [] && (t == [] || s[0].exp < t[0].exp) {
      LeastDiffers(s, t);
      assert false;
    } else if t != [] && (s == [] || t[0].exp < s[0].exp) {
      LeastDiffers(t, s);
      assert false;
    } else if s != [] {
      NoCoefBelow(s[1..], s[0].exp);
      NoCoefBelow(t[1..], s[0].exp);
      assert Coef(s, s[0].exp) == Coef(t, s[0].exp);
      forall e ensures Coef(s[1..], e) == Coef(t[1..], e) {
        assert Coef(s, e) == Coef(t, e);
      }
      ProperUnique(s[1..], t[1..]);
    }
  }

  lemma {:induction false} MergeCoef(a: seq<Mono>, b: seq<Mono>, e: int)
    ensures Coef(Merge(a, b), e) == Coef(a, e) + Coef(b, e)
    decreases |a| + |b|
  {
    if a != [] && b != [] {
      if a[0].exp < b[0].exp {
        MergeCoef(a[1..], b, e);
        assert Merge(a, b)[1..] == Merge(a[1..], b);
      } else if a[0].exp > b[0].exp {
        MergeCoef(a, b[1..], e);
        assert Merge(a, b)[1..] == Merge(a, b[1..]);
      } else {
        MergeCoef(a[1..], b[1..], e);
        var rest := Merge(a[1..], b[1..]);
        if Sum(a[0], b[0]) == [] {
          assert Merge(a, b) == rest;
        } else {
          assert Merge(a, b)[1..] == rest;
        }
      }
    }
  }

  ghost predicate Adds(sum: seq<Mono>, a: seq<Mono>, b: seq<Mono>) {
    forall e :: Coef(sum, e) == Coef(a, e) + Coef(b, e)
  }

  /** Of two proper polynomials the merge is the one proper polynomial that is their sum. */
  lemma MergeIsTheSum(a: seq<Mono>, b: seq<Mono>, sum: seq<Mono>)
    requires Proper(a) && Proper(b) && Proper(sum)
    ensures Adds(sum, a, b) <==> sum == Merge(a, b)
  {
    var la := Least(a);
    var lb := Least(b);
    MergeProper(a, b, if la < lb then la else lb);
    if sum == Merge(a, b) {
      forall e ensures Coef(sum, e) == Coef(a, e) + Coef(b, e) {
        MergeCoef(a, b, e);
      }
    } else if Adds(sum, a, b) {
      forall e ensures Coef(sum, e) == Coef(Merge(a, b), e) {
        MergeCoef(a, b, e);
      }
      ProperUnique(sum, Merge(a, b));
    }
  }

  lemma {:induction false} Least(s: seq<Mono>) returns (e: int)
    ensures Above(s, e)
  {
    if s == [] {
      e := 0;
    } else {
      e := Least(s[1..]);
      e := if s[0].exp <= e then s[0].exp - 1 else e;
      assert forall i :: 1 <= i < |s| ==> s[i] == s[1..][i - 1];
    }
  }

  // ----- The lists of the source -----

  class Term {
    var coef: int
    const exp: int
    var next: Term?

    constructor (coef: int, exp: int)
      ensures this.coef == coef && this.exp == exp && next == null
    {
      this.coef, this.exp, next := coef, exp, null;
    }
  }

  ghost function Monos(s: seq<Term>): (r: seq<Mono>)
    reads (set x | x in s)`coef
    ensures |r| == |s| && forall i :: 0 <= i < |s| ==> r[i] == Mono(s[i].coef, s[i].exp)
  {
    if s == [] then [] else [Mono(s[0].coef, s[0].exp)] + Monos(s[1..])
  }

  /** Each node of s but the last points to the one after it. */
  ghost predicate Linked(s: seq<Term>)
    reads s
  {
    forall i :: 0 <= i < |s| - 1 ==> s[i].next == s[i + 1]
  }

  /** From p on come exactly the nodes of s, and then the list ends: it has no cycle. */
  ghost predicate Chain(p: Term?, s: seq<Term>)
    reads s
  {
    if s == [] then p == null else p == s[0] && Linked(s) && s[|s| - 1].next == null
  }

  ghost predicate NoDup(s: seq<Term>) {
    forall i, j :: 0 <= i < j < |s| ==> s[i] != s[j]
  }

  ghost predicate Apart(s: seq<Term>, t: seq<Term>) {
    forall i, j :: 0 <= i < |s| && 0 <= j < |t| ==> s[i] != t[j]
  }

  /** A list with a head node that holds no term. */
  method PolyCreate(a: seq<Mono>) returns (me: Term, ghost nodes: seq<Term>)
    ensures fresh(me) && fresh(nodes) && NoDup([me] + nodes)
    ensures Chain(me.next, nodes) && Monos(nodes) == a
  {
    ghost var all;
    me, all := LinkUp(a);
    TailChain(all);
    nodes := all[1..];
    assert [me] + nodes == all && Monos(nodes) == a;
  }

  /** The loop that appends one node for each term. */
  method LinkUp(a: seq<Mono>) returns (me: Term, ghost all: seq<Term>)
    ensures fresh(all) && NoDup(all) && Linked(all) && |all| == |a| + 1
    ensures all[0] == me && all[|a|].next == null
    ensures forall k :: 0 <= k < |a| ==> Mono(all[k + 1].coef, all[k + 1].exp) == a[k]
  {
    me := new Term(0, 0);
    var cur := me;
    all := [me];
    for i := 0 to |a|
      invariant fresh(all) && NoDup(all) && Linked(all) && |all| == i + 1
      invariant all[0] == me && all[i] == cur && cur.next == null
      invariant forall k :: 0 <= k < i ==> Mono(all[k + 1].coef, all[k + 1].exp) == a[k]
    {
      var newnode := new Term(a[i].coef, a[i].exp);
      cur.next := newnode;
      cur := newnode;
      all := all + [newnode];
    }
  }

  lemma TailChain(s: seq<Term>)
    requires s != [] && Linked(s) && s[|s| - 1].next == null
    ensures Chain(s[0].next, s[1..])
  {
    assert |s| > 1 ==> s[0].next == s[1];
    forall i | 0 <= i < |s[1..]| - 1 ensures s[1..][i].next == s[1..][i + 1] {
      assert s[i + 1].next == s[i + 1 + 1];
    }
  }

  /** What one turn of the merging loop does to the part done and the parts still to do. */
  lemma MergeStep(f: seq<Mono>, a: seq<Mono>, b: seq<Mono>)
    requires a != [] && b != []
    ensures a[0].exp < b[0].exp ==> f + Merge(a, b) == f + [a[0]] + Merge(a[1..], b)
    ensures a[0].exp > b[0].exp ==> f + Merge(a, b) == f + [b[0]] + Merge(a, b[1..])
    ensures a[0].exp == b[0].exp ==> f + Merge(a, b) == f + Sum(a[0], b[0]) + Merge(a[1..], b[1..])
  {
  }

  /** The nodes merged so far after the head, and those left of either list, share nothing. */
  ghost predicate Disjoint(front: seq<Term>, s: seq<Term>, t: seq<Term>) {
    NoDup(front) && NoDup(s) && NoDup(t) && Apart(front, s) && Apart(front, t) && Apart(s, t)
  }

  /** Append the first node x of the list s to what is done, whose last node is r. */
  method Take(r: Term, x: Term, ghost front: seq<Term>, ghost s: seq<Term>, other: Term?, ghost t: seq<Term>)
    requires front != [] && r == front[|front| - 1] && Linked(front)
    requires s != [] && Chain(x, s) && Chain(other, t) && Disjoint(front, s, t)
    modifies r`next
    ensures Linked(front + [x]) && Chain(x.next, s[1..]) && Chain(other, t) && Disjoint(front + [x], s[1..], t)
  {
    r.next := x;
    assert |s| > 1 ==> s[0].next == s[1];
  }

  /** Where the merging loop stands: front is done, s and t are left, and f, ms and mt are their terms. */
  ghost predicate Merging(p: Term?, q: Term?, r: Term, front: seq<Term>, s: seq<Term>, t: seq<Term>,
                          f: seq<Mono>, ms: seq<Mono>, mt: seq<Mono>)
    reads front, s, t
  {
    && Chain(p, s) && Chain(q, t) && Linked(front) && front != [] && r == front[|front| - 1]
    && Disjoint(front, s, t)
    && Monos(front[1..]) == f && Monos(s) == ms && Monos(t) == mt
  }

  lemma MonosAppend(s: seq<Term>, x: Term)
    ensures Monos(s + [x]) == Monos(s) + [Mono(x.coef, x.exp)]
  {
  }

  method TakeFirst(p: Term, q: Term?, r: Term, ghost front: seq<Term>, ghost s: seq<Term>, ghost t: seq<Term>,
                   ghost f: seq<Mono>, ghost ms: seq<Mono>, ghost mt: seq<Mono>)
    requires s != [] && Merging(p, q, r, front, s, t, f, ms, mt)
    modifies r`next
    ensures Merging(p.next, q, p, front + [p], s[1..], t, f + [ms[0]], ms[1..], mt)
  {
    Take(r, p, front, s, q, t);
    MonosAppend(front[1..], p);
    assert (front + [p])[1..] == front[1..] + [p];
  }

  lemma {:induction false} MonosConcat(s: seq<Term>, t: seq<Term>)
    ensures Monos(s + t) == Monos(s) + Monos(t)
  {
  }

  lemma ChainRest(p: Term?, s: seq<Term>)
    requires Chain(p, s) && s != []
    ensures p != null && Chain(p.next, s[1..])
  {
    assert |s| > 1 ==> s[0].next == s[1];
  }

  /** Equal exponents: the coefficients are added in the first list's node, which stays unless they cancel. */
  method AddEqual(p: Term, q: Term, r: Term, ghost front: seq<Term>, ghost s: seq<Term>, ghost t: seq<Term>,
                  ghost f: seq<Mono>, ghost ms: seq<Mono>, ghost mt: seq<Mono>)
      returns (r': Term, ghost front': seq<Term>)
    requires s != [] && t != [] && p.exp == q.exp && Merging(p, q, r, front, s, t, f, ms, mt)
    modifies p`coef, r`next
    ensures front' == front || front' == front + [p]
    ensures Merging(p.next, q.next, r', front', s[1..], t[1..], f + Sum(ms[0], mt[0]), ms[1..], mt[1..])
  {
    assert ms[0] == Mono(p.coef, p.exp) && mt[0] == Mono(q.coef, q.exp);
    AddInto(p, q, r, front, s, t, f, ms, mt);
    ghost var added := [Mono(p.coef, p.exp)] + ms[1..];
    assert added[1..] == ms[1..];
    r', front' := KeepOrDrop(p, q, r, front, s, t, f, added, mt);
    DropSecond(p.next, q, r', front', s[1..], t, f + Sum(ms[0], mt[0]), ms[1..], mt);
  }

  /** The node just added into stays unless its coefficient has become zero. */
  method KeepOrDrop(p: Term, q: Term, r: Term, ghost front: seq<Term>, ghost s: seq<Term>, ghost t: seq<Term>,
                    ghost f: seq<Mono>, ghost ms: seq<Mono>, ghost mt: seq<Mono>)
      returns (r': Term, ghost front': seq<Term>)
    requires s != [] && Merging(p, q, r, front, s, t, f, ms, mt)
    modifies r`next
    ensures front' == front || front' == front + [p]
    ensures Merging(p.next, q, r', front', s[1..], t, f + (if ms[0].coef != 0 then [ms[0]] else []), ms[1..], mt)
  {
    assert ms[0] == Mono(p.coef, p.exp);
    if p.coef != 0 {
      TakeFirst(p, q, r, front, s, t, f, ms, mt);
      r', front' := p, front + [p];
    } else {
      assert f + [] == f;
      r', front' := r, front;
      DropFirst(p, q, r, front, s, t, f, ms, mt);
    }
  }

  lemma DropFirst(p: Term, q: Term?, r: Term, front: seq<Term>, s: seq<Term>, t: seq<Term>,
                  f: seq<Mono>, ms: seq<Mono>, mt: seq<Mono>)
    requires s != [] && Merging(p, q, r, front, s, t, f, ms, mt)
    ensures Merging(p.next, q, r, front, s[1..], t, f, ms[1..], mt)
  {
    ChainRest(p, s);
  }

  lemma DropSecond(p: Term?, q: Term, r: Term, front: seq<Term>, s: seq<Term>, t: seq<Term>,
                   f: seq<Mono>, ms: seq<Mono>, mt: seq<Mono>)
    requires t != [] && Merging(p, q, r, front, s, t, f, ms, mt)
    ensures Merging(p, q.next, r, front, s, t[1..], f, ms, mt[1..])
  {
    ChainRest(q, t);
  }

  method AddInto(p: Term, q: Term, r: Term, ghost front: seq<Term>, ghost s: seq<Term>, ghost t: seq<Term>,
                 ghost f: seq<Mono>, ghost ms: seq<Mono>, ghost mt: seq<Mono>)
    requires s != [] && t != [] && Merging(p, q, r, front, s, t, f, ms, mt)
    modifies p`coef
    ensures p.coef == ms[0].coef + mt[0].coef
    ensures Merging(p, q, r, front, s, t, f, [Mono(p.coef, p.exp)] + ms[1..], mt)
  {
    p.coef := p.coef + q.coef;
    assert forall i :: 0 <= i < |front[1..]| ==> front[1..][i] == front[i + 1];
    assert Monos(front[1..]) == f;
    assert Monos(t) == mt;
    assert Monos(s) == [Mono(p.coef, p.exp)] + ms[1..];
  }

  lemma ChainJoin(front: seq<Term>, x: Term?, rest: seq<Term>)
    requires front != [] && Linked(front) && front[|front| - 1].next == x && Chain(x, rest)
    ensures Chain(front[0].next, front[1..] + rest)
  {
    var all := front + rest;
    assert Linked(all);
    assert front[1..] + rest == all[1..];
    TailChain(all);
  }

  lemma DisjointJoin(front: seq<Term>, rest: seq<Term>)
    requires front != [] && NoDup(front) && NoDup(rest) && Apart(front, rest)
    ensures Disjoint([front[0]], front[1..] + rest, [])
  {
    assert front[1..] + rest == (front + rest)[1..];
    assert NoDup(front + rest);
  }

  /** End what is done with what is left of the other list. */
  method Close(x: Term?, r: Term, ghost front: seq<Term>, ghost rest: seq<Term>)
    requires Chain(x, rest) && Linked(front) && front != [] && r == front[|front| - 1]
    requires NoDup(front) && NoDup(rest) && Apart(front, rest)
    modifies r`next
    ensures Chain(front[0].next, front[1..] + rest) && Disjoint([front[0]], front[1..] + rest, [])
  {
    r.next := x;
    ChainJoin(front, x, rest);
    DisjointJoin(front, rest);
  }

  /** Every node of s is one of the given ones. */
  ghost predicate Among(s: seq<Term>, all: set<Term>) {
    forall i :: 0 <= i < |s| ==> s[i] in all
  }

  /** The nodes done, with the head in front, those left of either list, and the terms they hold. */
  datatype Lists = Lists(front: seq<Term>, s: seq<Term>, t: seq<Term>, f: seq<Mono>, ms: seq<Mono>, mt: seq<Mono>) {
    ghost predicate Right(p: Term?, q: Term?, r: Term)
      reads front, s, t
    {
      Merging(p, q, r, front, s, t, f, ms, mt)
    }

    ghost predicate In(all: set<Term>) {
      Among(front, all) && Among(s, all) && Among(t, all)
    }

    ghost function Goal(): seq<Mono> {
      f + Merge(ms, mt)
    }

    ghost function Swapped(): Lists {
      Lists(front, t, s, f, mt, ms)
    }
  }

  lemma SwappedRight(st: Lists, p: Term?, q: Term?, r: Term)
    requires st.Right(p, q, r)
    ensures st.Swapped().Right(q, p, r)
  {
  }

  /** Move the first node left of the first list to what is done. */
  method TakeTurn(p: Term, q: Term?, r: Term, ghost st: Lists, ghost all: set<Term>) returns (ghost st': Lists)
    requires st.s != [] && st.Right(p, q, r) && st.In(all)
    modifies r`next
    ensures st'.Right(p.next, q, p) && st'.In(all) && st'.front[0] == st.front[0]
    ensures st' == Lists(st.front + [st.s[0]], st.s[1..], st.t, st.f + [st.ms[0]], st.ms[1..], st.mt)
  {
    TakeFirst(p, q, r, st.front, st.s, st.t, st.f, st.ms, st.mt);
    st' := Lists(st.front + [st.s[0]], st.s[1..], st.t, st.f + [st.ms[0]], st.ms[1..], st.mt);
  }

  /** Merge the first nodes left of both lists into one. */
  method AddTurn(p: Term, q: Term, r: Term, ghost st: Lists, ghost all: set<Term>)
      returns (r': Term, ghost st': Lists)
    requires st.s != [] && st.t != [] && p.exp == q.exp && st.Right(p, q, r) && st.In(all)
    modifies p`coef, r`next
    ensures st'.Right(p.next, q.next, r') && st'.In(all) && st'.front != [] && st'.front[0] == st.front[0]
    ensures st'.s == st.s[1..] && st'.t == st.t[1..] && st'.f == st.f + Sum(st.ms[0], st.mt[0])
    ensures st'.ms == st.ms[1..] && st'.mt == st.mt[1..]
  {
    ghost var front';
    r', front' := AddEqual(p, q, r, st.front, st.s, st.t, st.f, st.ms, st.mt);
    st' := Lists(front', st.s[1..], st.t[1..], st.f + Sum(st.ms[0], st.mt[0]), st.ms[1..], st.mt[1..]);
  }

  /** One turn of the merging loop. */
  method MergeTurn(p: Term, q: Term, r: Term, ghost st: Lists, ghost all: set<Term>)
      returns (p': Term?, q': Term?, r': Term, ghost st': Lists)
    requires st.Right(p, q, r) && st.In(all)
    modifies all
    ensures st'.Right(p', q', r') && st'.In(all) && st'.front[0] == st.front[0]
    ensures |st'.s| + |st'.t| < |st.s| + |st.t| && st'.Goal() == st.Goal()
  {
    MergeStep(st.f, st.ms, st.mt);
    if p.exp < q.exp {
      st' := TakeTurn(p, q, r, st, all);
      p', q', r' := p.next, q, p;
    } else if p.exp > q.exp {
      SwappedRight(st, p, q, r);
      st' := TakeTurn(q, p, r, st.Swapped(), all);
      SwappedRight(st', q.next, p, q);
      st' := st'.Swapped();
      p', q', r' := p, q.next, q;
    } else {
      r', st' := AddTurn(p, q, r, st, all);
      p', q' := p.next, q.next;
    }
  }

  /** The merging loop, and the hanging on of what is left when one list runs out. */
  method MergeLists(p1: Term, p2: Term, ghost start: Lists, ghost all: set<Term>) returns (ghost c: seq<Term>)
    requires start.Right(p1.next, p2.next, p1) && start.In(all) && start.front == [p1]
    modifies all
    ensures Chain(p1.next, c) && Disjoint([p1], c, []) && Among(c, all) && Monos(c) == start.Goal()
  {
    var p, q, r: Term := p1.next, p2.next, p1;
    ghost var st := start;
    while p != null && q != null
      invariant st.Right(p, q, r) && st.In(all) && st.front[0] == p1 && st.Goal() == start.Goal()
      decreases |st.s| + |st.t|
    {
      p, q, r, st := MergeTurn(p, q, r, st, all);
    }
    if p == null {
      c := Finish(q, r, st.Swapped(), all);
    } else {
      c := Finish(p, r, st, all);
    }
  }

  method Finish(x: Term?, r: Term, ghost st: Lists, ghost all: set<Term>) returns (ghost c: seq<Term>)
    requires st.Right(x, null, r) && st.In(all)
    modifies r`next
    ensures Chain(st.front[0].next, c) && Disjoint([st.front[0]], c, []) && Among(c, all)
    ensures Monos(c) == st.f + st.ms
  {
    c := st.front[1..] + st.s;
    Close(x, r, st.front, st.s);
    MonosConcat(st.front[1..], st.s);
    AmongRest(st.front, st.s, all);
  }

  lemma AmongRest(front: seq<Term>, rest: seq<Term>, all: set<Term>)
    requires Among(front, all) && Among(rest, all) && front != []
    ensures Among(front[1..] + rest, all)
  {
  }

  /** Adds the second polynomial into the first, reusing the nodes of both: afterwards the first list
      holds the merge of what the two held. */
  method PolyUnion(p1: Term, p2: Term, ghost a: seq<Term>, ghost b: seq<Term>) returns (ghost c: seq<Term>)
    requires Chain(p1.next, a) && Chain(p2.next, b) && Disjoint([p1], a, b)
    modifies p1, a, b
    ensures Chain(p1.next, c) && Disjoint([p1], c, [])
    ensures forall x :: x in c ==> x in a || x in b
    ensures Monos(c) == Merge(old(Monos(a)), old(Monos(b)))
  {
    ghost var all := set x | x == p1 || x in a || x in b;
    c := MergeLists(p1, p2, Lists([p1], a, b, [], Monos(a), Monos(b)), all);
    forall x | x in c ensures x in a || x in b {
      assert x in all && x != p1;
    }
  }
}
