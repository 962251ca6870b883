/**
  The two-stack evaluator as a function on its state, and the proof that it computes
  the meaning of the grammar. None stands for leaving the defined behaviour of the
  program: an exit, a division by zero, or a pop that finds nothing.
 */
module Evaluator {
  import opened Wrappers
  import opened Expressions

  /** The sizes of the number stack and of the operator stack. */
  datatype Caps = Caps(num: nat, op: nat)

  /** lost records that some push found its stack full, which the program does not notice. */
  datatype State = State(num: seq<int>, op: string, value: int, flag: bool, lost: bool)

  const START := State([], [], 0, false, false)

  predicate IsDigit(c: char) {
    '0' <= c <= '9'
  }

  function GetPri(op: char): int {
    match op
    case '(' => 0
    case '+' => 1
    case '-' => 1
    case '*' => 2
    case '/' => 2
    case _ => -1
  }

  function PushNum(s: State, x: int, caps: Caps): State {
    if |s.num| == caps.num then s.(lost := true) else s.(num := s.num + [x])
  }

  function PushOp(s: State, op: char, caps: Caps): State {
    if |s.op| == caps.op then s.(lost := true) else s.(op := s.op + [op])
  }

  function TopOp(s: State): char
    requires s.op != []
  {
    s.op[|s.op| - 1]
  }

  function PopOp(s: State): State
    requires s.op != []
  {
    s.(op := s.op[..|s.op| - 1])
  }

  /** None where the program exits or divides by zero. */
  function Apply(op: char, a: int, b: int): Option<int> {
    match op
    case '+' => Some(a + b)
    case '-' => Some(a - b)
    case '*' => Some(a * b)
    case '/' => if b == 0 then None else Some(Quotient(a, b))
    case _ => None
  }

  function Compute(s: State, op: char, caps: Caps): (r: Option<State>)
    ensures r.Some? ==> r.value.op == s.op
  {
    var n := |s.num|;
    if n < 2 then None
    else
      match Apply(op, s.num[n - 2], s.num[n - 1])
      case None => None
      case Some(x) => Some(PushNum(s.(num := s.num[..n - 2]), x, caps))
  }

  function DealBracket(s: State, caps: Caps): Option<State>
    decreases |s.op|
  {
    if s.op == [] then None
    else if TopOp(s) == '(' then Some(PopOp(s))
    else
      match Compute(PopOp(s), TopOp(s), caps)
      case None => None
      case Some(s') => DealBracket(s', caps)
  }

  /** Apply pending operators for as long as op does not bind tighter than them. */
  function ApplyPending(s: State, op: char, caps: Caps): Option<State>
    decreases |s.op|
  {
    if s.op == [] || GetPri(op) > GetPri(TopOp(s)) then Some(s)
    else
      match Compute(PopOp(s), TopOp(s), caps)
      case None => None
      case Some(s') => ApplyPending(s', op, caps)
  }

  function DealOp(s: State, op: char, caps: Caps): Option<State> {
    if s.op == [] || op == '(' then Some(PushOp(s, op, caps))
    else
      match ApplyPending(s, op, caps)
      case None => None
      case Some(s') => Some(PushOp(s', op, caps))
  }

  /** Push the number read so far, if any. */
  function FlushNumber(s: State, caps: Caps): State {
    if s.flag then PushNum(s, s.value, caps).(value := 0, flag := false) else s
  }

  function Step(s: State, c: char, caps: Caps): Option<State> {
    if IsDigit(c) then Some(s.(value := 10 * s.value + (c as int - '0' as int), flag := true))
    else if c == ')' then DealBracket(FlushNumber(s, caps), caps)
    else DealOp(FlushNumber(s, caps), c, caps)
  }

  function Run(s: State, text: string, caps: Caps): Option<State>
    decreases |text|
  {
    if text == [] then Some(s)
    else
      match Step(s, text[0], caps)
      case None => None
      case Some(s') => Run(s', text[1..], caps)
  }

  function Drain(s: State, caps: Caps): (r: Option<State>)
    ensures r.Some? ==> r.value.op == []
    decreases |s.op|
  {
    if s.op == [] then Some(s)
    else
      match Compute(PopOp(s), TopOp(s), caps)
      case None => None
      case Some(s') => Drain(s', caps)
  }

  /** The whole program: scan the text, push the last number, apply what is left. */
  function Eval(text: string, caps: Caps): Option<State> {
    match Run(START, text, caps)
    case None => None
    case Some(s) => Drain(FlushNumber(s, caps), caps)
  }

  // ----- Running -----

  lemma {:induction false} RunAppend(s: State, a: string, b: string, caps: Caps)
    ensures Run(s, a + b, caps) ==
      match Run(s, a, caps) case None => None case Some(s') => Run(s', b, caps)
    decreases |a|
  {
    if a == [] {
      assert a + b == b;
    } else {
      assert (a + b)[1..] == a[1..] + b;
      if Step(s, a[0], caps).Some? {
        RunAppend(Step(s, a[0], caps).value, a[1..], b, caps);
      }
    }
  }

  lemma RunOne(s: State, c: char, caps: Caps)
    ensures Run(s, [c], caps) == Step(s, c, caps)
  {
    if Step(s, c, caps).Some? {
      assert Run(Step(s, c, caps).value, [c][1..], caps) == Step(s, c, caps);
    }
  }

  /** What the program takes for a digit is one, with the value its character code gives it. */
  lemma DigitIs(c: char)
    ensures IsDigit(c) <==> Numeral(c)
    ensures IsDigit(c) ==> DigitValue(c) == c as int - '0' as int
  {
  }

  lemma {:induction false} RunDigits(s: State, ds: string, caps: Caps)
    requires ds != [] && (forall c :: c in ds ==> Numeral(c)) && s.value == 0
    ensures Run(s, ds, caps) == Some(s.(value := Decimal(ds), flag := true))
  {
    var n := |ds| - 1;
    assert ds == ds[..n] + [ds[n]];
    RunAppend(s, ds[..n], [ds[n]], caps);
    DigitIs(ds[n]);
    assert Decimal(ds) == 10 * Decimal(ds[..n]) + DigitValue(ds[n]);
    if n > 0 {
      RunDigits(s, ds[..n], caps);
      RunOne(s.(value := Decimal(ds[..n]), flag := true), ds[n], caps);
    } else {
      assert ds[..n] == [] && Run(s, ds[..n], caps) == Some(s);
      RunOne(s, ds[n], caps);
    }
  }

  // ----- Pending operators -----

  /** Apply the top k operators. */
  function Collapse(s: State, k: nat, caps: Caps): Option<State>
    requires k <= |s.op|
    decreases k
  {
    if k == 0 then Some(s)
    else
      match Compute(PopOp(s), TopOp(s), caps)
      case None => None
      case Some(s') => Collapse(s', k - 1, caps)
  }

  /** Numbers and operators that reading a term leaves waiting; None if a value is missing. */
  function TermPending(t: Term): Option<(seq<int>, string)> {
    match t
    case OneFactor(f) =>
      (match FactorValue(f) case None => None case Some(v) => Some(([v], [])))
    case Product(t', op, f) =>
      if TermValue(t').Some? && FactorValue(f).Some? then
        Some(([TermValue(t').value, FactorValue(f).value], [MulSym(op)]))
      else None
  }

  function ExprPending(e: Expr): Option<(seq<int>, string)> {
    match e
    case OneTerm(t) => TermPending(t)
    case Sum(e', op, t) =>
      if ExprValue(e').Some? && TermPending(t).Some? then
        Some(([ExprValue(e').value] + TermPending(t).value.0, [AddSym(op)] + TermPending(t).value.1))
      else None
  }

  /** The state after reading something that left (ns, os) waiting on top of s. */
  function Waiting(s: State, p: (seq<int>, string)): State {
    s.(num := s.num + p.0, op := s.op + p.1)
  }

  function Finished(s: State, v: Option<int>): Option<State> {
    match v case None => None case Some(x) => Some(s.(num := s.num + [x]))
  }

  /** The program applies its operators as the grammar means them. */
  lemma SumMeans(op: AddOp, a: int, b: Option<int>)
    ensures AddValue(op, Some(a), b) == match b case None => None case Some(y) => Apply(AddSym(op), a, y)
  {
  }

  lemma ProductMeans(op: MulOp, a: int, b: int)
    ensures MulValue(op, Some(a), Some(b)) == Apply(MulSym(op), a, b)
  {
  }

  /** Applying all that a term left waiting yields its value. */
  lemma TermCollapses(t: Term, s: State, caps: Caps)
    requires TermPending(t).Some? && |s.num| < caps.num
    ensures Collapse(Waiting(s, TermPending(t).value), |TermPending(t).value.1|, caps) == Finished(s, TermValue(t))
  {
    if t.Product? {
      var a, b, op := TermValue(t.pt).value, FactorValue(t.f).value, MulSym(t.mop);
      CollapseOne(s, a, b, op, 0, caps);
      ProductMeans(t.mop, a, b);
      assert TermValue(t) == Apply(op, a, b);
    } else {
      assert s.op + [] == s.op;
    }
  }

  lemma ExprCollapses(e: Expr, s: State, caps: Caps)
    requires ExprPending(e).Some? && |s.num| + 1 < caps.num
    ensures Collapse(Waiting(s, ExprPending(e).value), |ExprPending(e).value.1|, caps) == Finished(s, ExprValue(e))
  {
    match e
    case OneTerm(t) => TermCollapses(t, s, caps);
    case Sum(e', op, t) =>
      var a, c := ExprValue(e').value, AddSym(op);
      SumCollapses(t, s, a, c, caps);
      SumMeans(op, a, TermValue(t));
      assert Waiting(s, ExprPending(e).value) == Waiting(Waiting(s, ([a], [c])), TermPending(t).value);
  }

  lemma SumCollapses(t: Term, s: State, a: int, c: char, caps: Caps)
    requires TermPending(t).Some? && |s.num| + 1 < caps.num
    ensures var w := Waiting(Waiting(s, ([a], [c])), TermPending(t).value);
      Collapse(w, 1 + |TermPending(t).value.1|, caps) ==
        match TermValue(t) case None => None case Some(b) => Finished(s, Apply(c, a, b))
  {
    var s1 := Waiting(s, ([a], [c]));
    TermCollapses(t, s1, caps);
    CollapseOneMore(Waiting(s1, TermPending(t).value), |TermPending(t).value.1|, s, a, c, TermValue(t), caps);
  }

  /** Once the top k operators have given b, the operator below them takes it. */
  lemma CollapseOneMore(w: State, k: nat, s: State, a: int, c: char, b: Option<int>, caps: Caps)
    requires k < |w.op| && |s.num| < caps.num
    requires Collapse(w, k, caps) == Finished(Waiting(s, ([a], [c])), b)
    ensures Collapse(w, 1 + k, caps) == match b case None => None case Some(x) => Finished(s, Apply(c, a, x))
  {
    CollapseSplit(w, k, 1, caps);
    if b.Some? {
      assert Finished(Waiting(s, ([a], [c])), b).value == Waiting(s, ([a, b.value], [c]));
      CollapseOne(s, a, b.value, c, 0, caps);
    }
  }

  lemma CollapseOne(s: State, a: int, b: int, op: char, k: nat, caps: Caps)
    requires |s.num| < caps.num && k <= |s.op|
    ensures Collapse(Waiting(s, ([a, b], [op])), k + 1, caps) ==
      match Finished(s, Apply(op, a, b)) case None => None case Some(s') => Collapse(s', k, caps)
  {
    var w := Waiting(s, ([a, b], [op]));
    assert TopOp(w) == op && PopOp(w) == s.(num := s.num + [a, b]);
    assert (s.num + [a, b])[..|s.num|] == s.num;
  }

  lemma {:induction false} CollapseSplit(s: State, j: nat, k: nat, caps: Caps)
    requires j + k <= |s.op|
    ensures Collapse(s, j, caps).Some? ==> |Collapse(s, j, caps).value.op| == |s.op| - j
    ensures Collapse(s, j + k, caps) ==
      match Collapse(s, j, caps) case None => None case Some(s') => Collapse(s', k, caps)
    decreases j
  {
    if j > 0 && Compute(PopOp(s), TopOp(s), caps).Some? {
      CollapseSplit(Compute(PopOp(s), TopOp(s), caps).value, j - 1, k, caps);
    }
  }

  /** An incoming operator applies exactly the waiting ones that bind at least as tightly. */
  lemma {:induction false} ApplyPendingCollapses(s: State, op: char, k: nat, caps: Caps)
    requires k <= |s.op| && (k < |s.op| ==> GetPri(s.op[|s.op| - 1 - k]) < GetPri(op))
    requires forall i :: |s.op| - k <= i < |s.op| ==> GetPri(op) <= GetPri(s.op[i])
    ensures ApplyPending(s, op, caps) == Collapse(s, k, caps)
    decreases k
  {
    if k > 0 && Compute(PopOp(s), TopOp(s), caps).Some? {
      ApplyPendingCollapses(Compute(PopOp(s), TopOp(s), caps).value, op, k - 1, caps);
    }
  }

  /** A closing bracket applies everything back to its opening bracket. */
  lemma {:induction false} DealBracketCollapses(s: State, k: nat, caps: Caps)
    requires k < |s.op| && s.op[|s.op| - 1 - k] == '('
    requires forall i :: |s.op| - k <= i < |s.op| ==> s.op[i] != '('
    ensures DealBracket(s, caps) ==
      match Collapse(s, k, caps) case None => None case Some(s') => if s'.op == [] then None else Some(PopOp(s'))
    decreases k
  {
    if k > 0 && Compute(PopOp(s), TopOp(s), caps).Some? {
      DealBracketCollapses(Compute(PopOp(s), TopOp(s), caps).value, k - 1, caps);
    }
  }

  lemma {:induction false} DrainCollapses(s: State, caps: Caps)
    ensures Drain(s, caps) == Collapse(s, |s.op|, caps)
    decreases |s.op|
  {
    if s.op != [] && Compute(PopOp(s), TopOp(s), caps).Some? {
      DrainCollapses(Compute(PopOp(s), TopOp(s), caps).value, caps);
    }
  }

  // ----- Reading the parts of the grammar -----

  /** Nothing read is waiting to be pushed. */
  predicate Clean(s: State) {
    s.value == 0 && !s.flag && !s.lost
  }

  predicate Room(s: State, nums: nat, ops: nat, caps: Caps) {
    |s.num| + nums <= caps.num && |s.op| + ops <= caps.op
  }

  /** r is the result of reading something that leaves p waiting on top of s. */
  predicate Leaves(r: Option<State>, s: State, p: Option<(seq<int>, string)>, caps: Caps) {
    match p
    case None => r == None
    case Some(w) => r.Some? && FlushNumber(r.value, caps) == Waiting(s, w)
  }

  predicate BelowPri(s: State, p: int) {
    s.op == [] || GetPri(TopOp(s)) < p
  }

  function Single(v: Option<int>): Option<(seq<int>, string)> {
    match v case None => None case Some(x) => Some(([x], []))
  }

  lemma {:induction false} ReadFactor(f: Factor, s: State, caps: Caps)
    requires Clean(s) && Room(s, 2 * FactorDepth(f) + 1, 3 * FactorDepth(f), caps)
    ensures Leaves(Run(s, FactorText(f), caps), s, Single(FactorValue(f)), caps)
    decreases f, 0
  {
    match f
    case Number(ds) => RunDigits(s, ds, caps);
    case Bracketed(e) =>
      var open := PushOp(s, '(', caps);
      RunOne(s, '(', caps);
      RunAppend(s, ['('], ExprText(e), caps);
      RunAppend(s, ['('] + ExprText(e), [')'], caps);
      ReadExpr(e, open, caps);
      var r := Run(open, ExprText(e), caps);
      if r.Some? {
        RunOne(r.value, ')', caps);
        var w := Waiting(open, ExprPending(e).value);
        PendingOps(e);
        DealBracketCollapses(w, |ExprPending(e).value.1|, caps);
        ExprCollapses(e, open, caps);
        assert ExprValue(e).Some? ==>
          PopOp(Finished(open, ExprValue(e)).value) == Waiting(s, ([ExprValue(e).value], []));
      } else {
        PendingNone(e);
      }
  }

  lemma {:induction false} ReadTerm(t: Term, s: State, caps: Caps)
    requires Clean(s) && BelowPri(s, 2) && Room(s, 2 * TermDepth(t) + 2, 3 * TermDepth(t) + 1, caps)
    ensures Leaves(Run(s, TermText(t), caps), s, TermPending(t), caps)
    decreases t, 1
  {
    match t
    case OneFactor(f) => ReadFactor(f, s, caps);
    case Product(t', op, f) =>
      var c := MulSym(op);
      ReadTerm(t', s, caps);
      ReadTimes(t', c, s, caps);
      RunAppend(s, TermText(t') + [c], FactorText(f), caps);
      if TermValue(t').Some? {
        var s1 := Waiting(s, ([TermValue(t').value], [c]));
        ReadFactor(f, s1, caps);
        assert FactorValue(f).Some? ==>
          Waiting(s1, ([FactorValue(f).value], [])) == Waiting(s, TermPending(t).value);
      }
  }

  /** A product sign after a term applies what was waiting of it and waits with the term's value. */
  lemma ReadTimes(t: Term, c: char, s: State, caps: Caps)
    requires c in "*/" && Clean(s) && BelowPri(s, 2) && Room(s, 1, 1, caps)
    requires Leaves(Run(s, TermText(t), caps), s, TermPending(t), caps)
    ensures Run(s, TermText(t) + [c], caps) ==
      match TermValue(t) case None => None case Some(v) => Some(Waiting(s, ([v], [c])))
  {
    RunAppend(s, TermText(t), [c], caps);
    var r := Run(s, TermText(t), caps);
    if r.Some? {
      RunOne(r.value, c, caps);
      ReadOperator(s, Waiting(s, TermPending(t).value), TermPending(t).value.1, c, caps);
      TermCollapses(t, s, caps);
      if TermValue(t).Some? {
        assert PushOp(Finished(s, TermValue(t)).value, c, caps) == Waiting(s, ([TermValue(t).value], [c]));
      }
    }
  }

  lemma {:induction false} ReadExpr(e: Expr, s: State, caps: Caps)
    requires Clean(s) && BelowPri(s, 1) && Room(s, 2 * ExprDepth(e) + 3, 3 * ExprDepth(e) + 2, caps)
    ensures Leaves(Run(s, ExprText(e), caps), s, ExprPending(e), caps)
    decreases e, 2
  {
    match e
    case OneTerm(t) => ReadTerm(t, s, caps);
    case Sum(e', op, t) =>
      var c := AddSym(op);
      ReadExpr(e', s, caps);
      ReadSign(e', c, s, caps);
      RunAppend(s, ExprText(e') + [c], TermText(t), caps);
      if ExprValue(e').Some? {
        var s1 := Waiting(s, ([ExprValue(e').value], [c]));
        ReadTerm(t, s1, caps);
        assert TermPending(t).Some? ==>
          Waiting(s1, TermPending(t).value) == Waiting(s, ExprPending(e).value);
      }
  }

  /** A sign after a sum applies all that was waiting and waits with the sum's value. */
  lemma ReadSign(e: Expr, c: char, s: State, caps: Caps)
    requires c in "+-" && Clean(s) && BelowPri(s, 1) && Room(s, 2, 1, caps)
    requires Leaves(Run(s, ExprText(e), caps), s, ExprPending(e), caps)
    ensures Run(s, ExprText(e) + [c], caps) ==
      match ExprValue(e) case None => None case Some(v) => Some(Waiting(s, ([v], [c])))
  {
    RunAppend(s, ExprText(e), [c], caps);
    var r := Run(s, ExprText(e), caps);
    if r.Some? {
      RunOne(r.value, c, caps);
      PendingOps(e);
      ReadOperator(s, Waiting(s, ExprPending(e).value), ExprPending(e).value.1, c, caps);
      ExprCollapses(e, s, caps);
      if ExprValue(e).Some? {
        assert PushOp(Finished(s, ExprValue(e)).value, c, caps) == Waiting(s, ([ExprValue(e).value], [c]));
      }
    } else {
      PendingNone(e);
    }
  }

  /** An operator met when os is waiting applies all of os, then waits itself. */
  lemma ReadOperator(s: State, w: State, os: string, c: char, caps: Caps)
    requires c != '(' && BelowPri(s, GetPri(c)) && w.op == s.op + os
    requires forall i :: 0 <= i < |os| ==> GetPri(c) <= GetPri(os[i])
    ensures DealOp(w, c, caps) ==
      match Collapse(w, |os|, caps) case None => None case Some(s') => Some(PushOp(s', c, caps))
  {
    ApplyPendingCollapses(w, c, |os|, caps);
  }

  lemma PendingOps(e: Expr)
    requires ExprPending(e).Some?
    ensures forall i :: 0 <= i < |ExprPending(e).value.1| ==> 1 <= GetPri(ExprPending(e).value.1[i])
  {
  }

  lemma PendingNone(e: Expr)
    ensures ExprPending(e) == None ==> ExprValue(e) == None
  {
  }

  /** The evaluator computes the meaning of every expression of the grammar, and stops exactly on those that
      divide by zero, whenever the stacks have room for its nesting; then no push finds a stack full. */
  lemma EvalIsValue(e: Expr, caps: Caps)
    requires 2 * ExprDepth(e) + 3 <= caps.num && 3 * ExprDepth(e) + 2 <= caps.op
    ensures Eval(ExprText(e), caps) ==
      match ExprValue(e) case None => None case Some(v) => Some(State([v], [], 0, false, false))
  {
    ReadExpr(e, START, caps);
    if ExprPending(e).Some? {
      var w := Waiting(START, ExprPending(e).value);
      assert Drain(w, caps) == Finished(START, ExprValue(e)) by {
        assert w.op == ExprPending(e).value.1;
        DrainCollapses(w, caps);
        ExprCollapses(e, START, caps);
      }
      assert ExprValue(e).Some? ==> START.num + [ExprValue(e).value] == [ExprValue(e).value];
    } else {
      PendingNone(e);
    }
  }

  // ----- The operator stack between brackets -----

  predicate Legal(c: char) {
    IsDigit(c) || c in "+-*/()"
  }

  /** Every operator is an opening bracket or binds tighter than the one below it. */
  predicate Layered(op: string) {
    && (forall i :: 0 <= i < |op| ==> op[i] in "+-*/(")
    && (forall i :: 0 < i < |op| && op[i] != '(' ==> GetPri(op[i - 1]) < GetPri(op[i]))
  }

  function Opens(op: string): (n: nat)
    ensures n <= |op|
  {
    if op == [] then 0 else Opens(op[..|op| - 1]) + if op[|op| - 1] == '(' then 1 else 0
  }

  lemma {:induction false} LayeredBound(op: string)
    requires Layered(op)
    ensures |op| <= 3 * Opens(op) + if op == [] then 0 else GetPri(op[|op| - 1])
  {
    if op != [] {
      LayeredBound(op[..|op| - 1]);
    }
  }

  lemma {:induction false} ApplyPendingLayered(s: State, op: char, caps: Caps)
    requires Layered(s.op)
    ensures var r := ApplyPending(s, op, caps);
      r.Some? ==> Layered(r.value.op) && BelowPri(r.value, GetPri(op))
    decreases |s.op|
  {
    if s.op != [] && GetPri(op) <= GetPri(TopOp(s)) && Compute(PopOp(s), TopOp(s), caps).Some? {
      ApplyPendingLayered(Compute(PopOp(s), TopOp(s), caps).value, op, caps);
    }
  }

  lemma {:induction false} DealBracketLayered(s: State, caps: Caps)
    requires Layered(s.op)
    ensures var r := DealBracket(s, caps); r.Some? ==> Layered(r.value.op)
    decreases |s.op|
  {
    if s.op != [] && TopOp(s) != '(' && Compute(PopOp(s), TopOp(s), caps).Some? {
      DealBracketLayered(Compute(PopOp(s), TopOp(s), caps).value, caps);
    }
  }

  /** On any text at all, well formed or not: at most three operators for each open bracket, and two more. */
  lemma {:induction false} OperatorStackBound(text: string, caps: Caps)
    requires forall c :: c in text ==> Legal(c)
    ensures var r := Run(START, text, caps);
      r.Some? ==> Layered(r.value.op) && |r.value.op| <= 3 * Opens(r.value.op) + 2
  {
    if text != [] {
      var n := |text| - 1;
      assert text == text[..n] + [text[n]];
      RunAppend(START, text[..n], [text[n]], caps);
      OperatorStackBound(text[..n], caps);
      var r := Run(START, text[..n], caps);
      if r.Some? {
        RunOne(r.value, text[n], caps);
        StepLayered(r.value, text[n], caps);
      }
    }
    if Run(START, text, caps).Some? {
      LayeredBound(Run(START, text, caps).value.op);
    }
  }

  lemma StepLayered(s: State, c: char, caps: Caps)
    requires Layered(s.op) && Legal(c)
    ensures Step(s, c, caps).Some? ==> Layered(Step(s, c, caps).value.op)
  {
    if c == ')' {
      DealBracketLayered(FlushNumber(s, caps), caps);
    } else if !IsDigit(c) {
      DealOpLayered(FlushNumber(s, caps), c, caps);
    }
  }

  lemma DealOpLayered(s: State, c: char, caps: Caps)
    requires Layered(s.op) && c in "+-*/("
    ensures DealOp(s, c, caps).Some? ==> Layered(DealOp(s, c, caps).value.op)
  {
    if s.op == [] || c == '(' {
      PushLayered(s, c, caps);
    } else {
      ApplyPendingLayered(s, c, caps);
      if ApplyPending(s, c, caps).Some? {
        PushLayered(ApplyPending(s, c, caps).value, c, caps);
      }
    }
  }

  lemma PushLayered(s: State, c: char, caps: Caps)
    requires Layered(s.op) && c in "+-*/(" && (c == '(' || BelowPri(s, GetPri(c)))
    ensures Layered(PushOp(s, c, caps).op)
  {
  }

  // ----- The number stack -----

  /** Where a text stands: an operand is wanted, a number is being read, an operand is complete. */
  datatype Place = Want | Num | Done

  /** Reads on from a place with n brackets open, never opening more than d; None at a character
      that cannot come there. */
  function Scan(p: Place, n: nat, text: string, d: nat): (r: Option<(Place, nat)>)
    ensures r.Some? && n <= d ==> r.value.1 <= d
    decreases |text|
  {
    if text == [] then Some((p, n))
    else
      match ScanOne(p, n, text[0], d)
      case None => None
      case Some((p', n')) => Scan(p', n', text[1..], d)
  }

  function ScanOne(p: Place, n: nat, c: char, d: nat): Option<(Place, nat)> {
    if IsDigit(c) then if p.Done? then None else Some((Num, n))
    else if c == '(' then if p.Want? && n < d then Some((Want, n + 1)) else None
    else if p.Want? then None
    else if c == ')' then if n > 0 then Some((Done, n - 1)) else None
    else if c in "+-*/" then Some((Want, n))
    else None
  }

  lemma {:induction false} ScanAppend(p: Place, n: nat, a: string, b: string, d: nat)
    ensures Scan(p, n, a + b, d) ==
      match Scan(p, n, a, d) case None => None case Some((p', n')) => Scan(p', n', b, d)
    decreases |a|
  {
    if a == [] {
      assert a + b == b;
    } else {
      assert (a + b)[1..] == a[1..] + b;
      if ScanOne(p, n, a[0], d).Some? {
        var (p', n') := ScanOne(p, n, a[0], d).value;
        ScanAppend(p', n', a[1..], b, d);
      }
    }
  }

  lemma ScanSingle(p: Place, n: nat, c: char, d: nat)
    ensures Scan(p, n, [c], d) == ScanOne(p, n, c, d)
  {
  }

  /** The operators that are not brackets. */
  function Pending(op: string): nat {
    |op| - Opens(op)
  }

  /** Every operator waiting has its left operand on the number stack, and nothing else is there
      but the operand just completed. */
  ghost predicate Counted(s: State, p: Place, n: nat) {
    && Layered(s.op) && Opens(s.op) == n && (s.flag <==> p.Num?)
    && |s.num| == Pending(s.op) + if p.Done? then 1 else 0
  }

  /** The same once the number just read has been pushed. */
  ghost predicate CountedFlushed(s: State, n: nat) {
    Layered(s.op) && Opens(s.op) == n && !s.flag && |s.num| == Pending(s.op) + 1
  }

  /** Stacks of these sizes hold what d open brackets allow. */
  predicate Ample(caps: Caps, d: nat) {
    2 * d + 3 <= caps.num && 3 * d + 2 <= caps.op
  }

  lemma FlushCounted(s: State, p: Place, n: nat, d: nat, caps: Caps)
    requires Counted(s, p, n) && !p.Want? && !s.lost && n <= d
    ensures var r := FlushNumber(s, caps); (Ample(caps, d) ==> !r.lost) && (!r.lost ==> CountedFlushed(r, n))
  {
    LayeredBound(s.op);
  }

  lemma ComputeCounted(s: State, d: nat, caps: Caps)
    requires CountedFlushed(s, Opens(s.op)) && Opens(s.op) <= d && s.op != [] && TopOp(s) != '(' && !s.lost
    requires Compute(PopOp(s), TopOp(s), caps).Some?
    ensures var r := Compute(PopOp(s), TopOp(s), caps).value;
      && (Ample(caps, d) ==> !r.lost) && (!r.lost ==> CountedFlushed(r, Opens(s.op)))
  {
    LayeredBound(s.op);
  }

  lemma {:induction false} DealBracketCounted(s: State, d: nat, caps: Caps)
    requires CountedFlushed(s, Opens(s.op)) && Opens(s.op) <= d && !s.lost && DealBracket(s, caps).Some?
    ensures var r := DealBracket(s, caps).value;
      && (Ample(caps, d) ==> !r.lost)
      && (!r.lost ==> Opens(s.op) > 0 && CountedFlushed(r, Opens(s.op) - 1))
    decreases |s.op|
  {
    if TopOp(s) != '(' {
      ComputeCounted(s, d, caps);
      var s' := Compute(PopOp(s), TopOp(s), caps).value;
      if s'.lost {
        BracketStaysLost(s', caps);
      } else {
        DealBracketCounted(s', d, caps);
      }
    }
  }

  lemma {:induction false} BracketStaysLost(s: State, caps: Caps)
    requires s.lost
    ensures DealBracket(s, caps).Some? ==> DealBracket(s, caps).value.lost
    decreases |s.op|
  {
    if s.op != [] && TopOp(s) != '(' && Compute(PopOp(s), TopOp(s), caps).Some? {
      BracketStaysLost(Compute(PopOp(s), TopOp(s), caps).value, caps);
    }
  }

  lemma {:induction false} PendingStaysLost(s: State, c: char, caps: Caps)
    requires s.lost
    ensures ApplyPending(s, c, caps).Some? ==> ApplyPending(s, c, caps).value.lost
    decreases |s.op|
  {
    if s.op != [] && GetPri(c) <= GetPri(TopOp(s)) && Compute(PopOp(s), TopOp(s), caps).Some? {
      PendingStaysLost(Compute(PopOp(s), TopOp(s), caps).value, c, caps);
    }
  }

  lemma {:induction false} ApplyPendingCounted(s: State, c: char, d: nat, caps: Caps)
    requires CountedFlushed(s, Opens(s.op)) && Opens(s.op) <= d && !s.lost && c in "+-*/"
    requires ApplyPending(s, c, caps).Some?
    ensures var r := ApplyPending(s, c, caps).value;
      && (Ample(caps, d) ==> !r.lost)
      && (!r.lost ==> CountedFlushed(r, Opens(s.op)) && BelowPri(r, GetPri(c)))
    decreases |s.op|
  {
    if s.op != [] && GetPri(c) <= GetPri(TopOp(s)) {
      ComputeCounted(s, d, caps);
      var s' := Compute(PopOp(s), TopOp(s), caps).value;
      if s'.lost {
        PendingStaysLost(s', c, caps);
      } else {
        ApplyPendingCounted(s', c, d, caps);
      }
    }
  }

  lemma PushOpCounted(s: State, p: Place, n: nat, c: char, n': nat, d: nat, caps: Caps)
    requires ScanOne(p, n, c, d) == Some((Want, n')) && n <= d && !s.lost
    requires if c == '(' then Counted(s, Want, n) else CountedFlushed(s, n) && BelowPri(s, GetPri(c))
    ensures var r := PushOp(s, c, caps); (Ample(caps, d) ==> !r.lost) && (!r.lost ==> Counted(r, Want, n'))
  {
    RoomForOp(s.op, c, n');
    if |s.op| != caps.op {
      PushLayered(s, c, caps);
      OpensPushed(s.op, c);
    }
  }

  /** Below an operator that may be pushed there are fewer operators than the brackets then open allow. */
  lemma RoomForOp(op: string, c: char, n: nat)
    requires Layered(op) && c in "+-*/(" && (c == '(' || op == [] || GetPri(op[|op| - 1]) < GetPri(c))
    requires n == Opens(op) + if c == '(' then 1 else 0
    ensures |op| < 3 * n + 2
  {
    LayeredBound(op);
  }

  lemma OpensPushed(op: string, c: char)
    ensures Opens(op + [c]) == Opens(op) + if c == '(' then 1 else 0
  {
    assert (op + [c])[..|op|] == op;
  }

  lemma StepCounted(s: State, p: Place, n: nat, c: char, d: nat, caps: Caps)
    requires Counted(s, p, n) && n <= d && !s.lost && ScanOne(p, n, c, d).Some? && Step(s, c, caps).Some?
    ensures var r := Step(s, c, caps).value;
      var (p', n') := ScanOne(p, n, c, d).value;
      (Ample(caps, d) ==> !r.lost) && (!r.lost ==> Counted(r, p', n'))
  {
    if c == '(' {
      PushOpCounted(s, p, n, c, n + 1, d, caps);
    } else if !IsDigit(c) {
      FlushCounted(s, p, n, d, caps);
      var f := FlushNumber(s, caps);
      if c == ')' {
        if f.lost {
          BracketStaysLost(f, caps);
        } else {
          DealBracketCounted(f, d, caps);
        }
      } else if f.lost {
        PendingStaysLost(f, c, caps);
      } else {
        ApplyPendingCounted(f, c, d, caps);
        var a := ApplyPending(f, c, caps).value;
        if !a.lost {
          PushOpCounted(a, p, n, c, n, d, caps);
        }
      }
    }
  }

  lemma StepStaysLost(s: State, c: char, caps: Caps)
    requires s.lost && Step(s, c, caps).Some?
    ensures Step(s, c, caps).value.lost
  {
    BracketStaysLost(FlushNumber(s, caps), caps);
    PendingStaysLost(FlushNumber(s, caps), c, caps);
  }

  lemma {:induction false} RunStaysLost(s: State, text: string, caps: Caps)
    requires s.lost && Run(s, text, caps).Some?
    ensures Run(s, text, caps).value.lost
    decreases |text|
  {
    if text != [] {
      StepStaysLost(s, text[0], caps);
      RunStaysLost(Step(s, text[0], caps).value, text[1..], caps);
    }
  }

  lemma {:induction false} RunCounted(s: State, p: Place, n: nat, text: string, d: nat, caps: Caps)
    requires Counted(s, p, n) && n <= d && !s.lost && Scan(p, n, text, d).Some? && Run(s, text, caps).Some?
    ensures var r := Run(s, text, caps).value;
      var (p', n') := Scan(p, n, text, d).value;
      (Ample(caps, d) ==> !r.lost) && (!r.lost ==> Counted(r, p', n') && n' <= d)
    decreases |text|
  {
    if text != [] {
      StepCounted(s, p, n, text[0], d, caps);
      var s' := Step(s, text[0], caps).value;
      var (p', n') := ScanOne(p, n, text[0], d).value;
      if s'.lost {
        RunStaysLost(s', text[1..], caps);
      } else {
        RunCounted(s', p', n', text[1..], d, caps);
      }
    }
  }

  /** After every text that can be read so far, whether its brackets are closed or not, n open brackets mean at
      most 3n+2 operators and 2n+3 numbers, counting the one being read, unless a push found its stack full;
      and with stacks ample for the deepest nesting met, none does. */
  lemma StackBounds(text: string, d: nat, caps: Caps)
    requires Scan(Want, 0, text, d).Some? && Run(START, text, caps).Some?
    ensures var r, n := Run(START, text, caps).value, Scan(Want, 0, text, d).value.1;
      && (Ample(caps, d) ==> !r.lost && !FlushNumber(r, caps).lost)
      && (!r.lost ==> Opens(r.op) == n && |r.op| <= 3 * n + 2 && |r.num| + (if r.flag then 1 else 0) <= 2 * n + 3)
  {
    RunCounted(START, Want, 0, text, d, caps);
    var r, n := Run(START, text, caps).value, Scan(Want, 0, text, d).value.1;
    if !r.lost {
      LayeredBound(r.op);
    }
  }

  lemma {:induction false} DigitsScan(p: Place, n: nat, ds: string, d: nat)
    requires !p.Done? && ds != [] && forall c :: c in ds ==> Numeral(c)
    ensures Scan(p, n, ds, d) == Some((Num, n))
    decreases |ds|
  {
    DigitIs(ds[0]);
    if |ds| > 1 {
      DigitsScan(Num, n, ds[1..], d);
    }
  }

  /** Reading on from n open brackets, the text has come to the end of an operand at the same depth. */
  predicate Closes(r: Option<(Place, nat)>, n: nat) {
    r.Some? && !r.value.0.Want? && r.value.1 == n
  }

  lemma {:induction false} FactorScans(f: Factor, n: nat, d: nat)
    requires n + FactorDepth(f) <= d
    ensures Closes(Scan(Want, n, FactorText(f), d), n)
    decreases f, 0
  {
    match f
    case Number(ds) => DigitsScan(Want, n, ds, d);
    case Bracketed(e) =>
      ExprScans(e, n + 1, d);
      ScanAppend(Want, n, ['('], ExprText(e), d);
      ScanAppend(Want, n, ['('] + ExprText(e), [')'], d);
      ScanSingle(Want, n, '(', d);
      ScanSingle(Scan(Want, n + 1, ExprText(e), d).value.0, n + 1, ')', d);
  }

  lemma {:induction false} TermScans(t: Term, n: nat, d: nat)
    requires n + TermDepth(t) <= d
    ensures Closes(Scan(Want, n, TermText(t), d), n)
    decreases t, 1
  {
    match t
    case OneFactor(f) => FactorScans(f, n, d);
    case Product(t', op, f) =>
      TermScans(t', n, d);
      FactorScans(f, n, d);
      OperandsScan(TermText(t'), MulSym(op), FactorText(f), n, d);
  }

  lemma {:induction false} ExprScans(e: Expr, n: nat, d: nat)
    requires n + ExprDepth(e) <= d
    ensures Closes(Scan(Want, n, ExprText(e), d), n)
    decreases e, 2
  {
    match e
    case OneTerm(t) => TermScans(t, n, d);
    case Sum(e', op, t) =>
      ExprScans(e', n, d);
      TermScans(t, n, d);
      OperandsScan(ExprText(e'), AddSym(op), TermText(t), n, d);
  }

  lemma OperandsScan(a: string, c: char, b: string, n: nat, d: nat)
    requires Closes(Scan(Want, n, a, d), n) && c in "+-*/" && Closes(Scan(Want, n, b, d), n)
    ensures Closes(Scan(Want, n, a + [c] + b, d), n)
  {
    ScanAppend(Want, n, a, [c], d);
    ScanAppend(Want, n, a + [c], b, d);
    ScanSingle(Scan(Want, n, a, d).value.0, n, c, d);
  }

  const MAXSIZE := 32

  /** Brackets nested up to ten deep never overflow the stacks of the source: not at any point of the scan,
      whether the expression divides by zero further on or not, and what comes out is its value. */
  lemma TenDeepFits(e: Expr, i: nat)
    requires ExprDepth(e) <= 10 && i <= |ExprText(e)|
    ensures var caps := Caps(MAXSIZE, MAXSIZE);
      && (Run(START, ExprText(e)[..i], caps).Some? ==>
            var r := Run(START, ExprText(e)[..i], caps).value; !r.lost && !FlushNumber(r, caps).lost)
      && Eval(ExprText(e), caps) ==
           match ExprValue(e) case None => None case Some(v) => Some(State([v], [], 0, false, false))
  {
    var caps, text := Caps(MAXSIZE, MAXSIZE), ExprText(e);
    EvalIsValue(e, caps);
    ExprScans(e, 0, 10);
    ScanAppend(Want, 0, text[..i], text[i..], 10);
    assert text[..i] + text[i..] == text;
    if Run(START, text[..i], caps).Some? {
      StackBounds(text[..i], 10, caps);
    }
  }

  // ----- The bounds are attained -----

  /** 1+1*1 with the last factor replaced, d times over, by the whole in brackets. */
  function Deep(d: nat): Expr
    decreases d, 1
  {
    Sum(OneTerm(OneFactor(Number("1"))), Plus, Product(OneFactor(Number("1")), Times,
      DeepFactor(d)))
  }

  function DeepFactor(d: nat): Factor
    decreases d, 0
  {
    if d == 0 then Number("1") else Bracketed(Deep(d - 1))
  }

  function DeepPrefix(d: nat): string {
    if d == 0 then "1+1*1" else "1+1*(" + DeepPrefix(d - 1)
  }

  lemma {:induction false} DeepText(d: nat)
    ensures ExprDepth(Deep(d)) == d && DeepPrefix(d) <= ExprText(Deep(d))
  {
    DeepHead(DeepFactor(d));
    if d > 0 {
      DeepText(d - 1);
      var inner := ExprText(Deep(d - 1));
      assert "1+1*" + (['('] + inner + [')']) == ("1+1*(" + inner) + ")";
    }
  }

  lemma DeepHead(f: Factor)
    ensures var one := OneFactor(Number("1"));
      ExprText(Sum(OneTerm(one), Plus, Product(one, Times, f))) == "1+1*" + FactorText(f)
  {
  }

  lemma RunHead(s: State, caps: Caps)
    requires Clean(s) && BelowPri(s, 1) && Room(s, 2, 2, caps)
    ensures Run(s, "1+1*", caps) == Some(s.(num := s.num + [1, 1], op := s.op + "+*"))
  {
    var s1 := s.(value := 1, flag := true);
    var s2 := s.(num := s.num + [1], op := s.op + "+");
    var s3 := s2.(value := 1, flag := true);
    var s4 := s.(num := s.num + [1, 1], op := s.op + "+*");
    RunOne(s, '1', caps);
    RunOne(s1, '+', caps);
    RunOne(s2, '1', caps);
    RunOne(s3, '*', caps);
    assert Step(s, '1', caps) == Some(s1);
    assert Step(s1, '+', caps) == Some(s2);
    assert Step(s2, '1', caps) == Some(s3);
    assert Step(s3, '*', caps) == Some(s4) by {
      assert s2.num + [1] == s4.num && s2.op + "*" == s4.op;
    }
    RunAppend(s, "1", "+", caps);
    RunAppend(s, "1" + "+", "1", caps);
    RunAppend(s, "1" + "+" + "1", "*", caps);
    assert "1+1*" == "1" + "+" + "1" + "*";
  }

  lemma RunHeadOpen(s: State, caps: Caps)
    requires Clean(s) && BelowPri(s, 1) && Room(s, 2, 3, caps)
    ensures Run(s, "1+1*(", caps) == Some(s.(num := s.num + [1, 1], op := s.op + "+*("))
  {
    var s4 := s.(num := s.num + [1, 1], op := s.op + "+*");
    RunHead(s, caps);
    RunAppend(s, "1+1*", "(", caps);
    RunOne(s4, '(', caps);
    assert "1+1*(" == "1+1*" + "(";
    assert s4.op + "(" == s.op + "+*(";
  }

  lemma RunShallow(s: State, caps: Caps)
    requires Clean(s) && BelowPri(s, 1) && Room(s, 3, 2, caps)
    ensures Run(s, "1+1*1", caps) == Some(s.(num := s.num + [1, 1], op := s.op + "+*", value := 1, flag := true))
  {
    var s4 := s.(num := s.num + [1, 1], op := s.op + "+*");
    RunHead(s, caps);
    assert "1+1*1" == "1+1*" + "1";
    RunAppend(s, "1+1*", "1", caps);
    RunOne(s4, '1', caps);
  }

  lemma RunDeeper(d: nat, s: State, caps: Caps)
    requires d > 0 && Clean(s) && BelowPri(s, 1) && Room(s, 2 * d + 3, 3 * d + 2, caps)
    ensures var s' := s.(num := s.num + [1, 1], op := s.op + "+*(");
      && Clean(s') && BelowPri(s', 1) && Room(s', 2 * d + 1, 3 * d - 1, caps)
      && Run(s, DeepPrefix(d), caps) == Run(s', DeepPrefix(d - 1), caps)
  {
    RunHeadOpen(s, caps);
    RunAppend(s, "1+1*(", DeepPrefix(d - 1), caps);
  }

  /** Part way through the expression Deep(d), of depth d, exactly 3d+2 operators
      and, once the number just read is pushed, 2d+3 numbers are on the stacks. */
  lemma {:induction false} BoundsAttained(d: nat, s: State, caps: Caps)
    requires Clean(s) && BelowPri(s, 1) && Room(s, 2 * d + 3, 3 * d + 2, caps)
    ensures var r := Run(s, DeepPrefix(d), caps);
      && r.Some? && |r.value.op| == |s.op| + 3 * d + 2
      && |FlushNumber(r.value, caps).num| == |s.num| + 2 * d + 3
  {
    if d == 0 {
      RunShallow(s, caps);
    } else {
      RunDeeper(d, s, caps);
      BoundsAttained(d - 1, s.(num := s.num + [1, 1], op := s.op + "+*("), caps);
    }
  }
}
