/** What the evaluator does not accept: a text whose brackets do not match, or that holds any other character. */
module Rejection {
  import opened Wrappers
  import opened Expressions
  import opened Evaluator

  /** The brackets opened in a text beyond those closed. */
  function Depth(text: string): int {
    if text == [] then 0
    else
      var n := |text| - 1;
      Depth(text[..n]) + if text[n] == '(' then 1 else if text[n] == ')' then -1 else 0
  }

  /** How many characters are no digit, operator or bracket. */
  function Strange(text: string): nat {
    if text == [] then 0
    else
      var n := |text| - 1;
      Strange(text[..n]) + if Numeral(text[n]) || text[n] in "+-*/()" then 0 else 1
  }

  /** Nothing but an operator can be applied. */
  lemma OnlyOperatorsApply(s: State, caps: Caps)
    requires s.op != [] && Compute(PopOp(s), TopOp(s), caps).Some?
    ensures var r := Compute(PopOp(s), TopOp(s), caps).value;
      && Opens(r.op) == Opens(s.op) && Strange(r.op) == Strange(s.op) && (s.lost ==> r.lost)
  {
    assert TopOp(s) in "+-*/";
  }

  lemma {:induction false} BracketTakesOne(s: State, caps: Caps)
    ensures var r := DealBracket(s, caps);
      r.Some? ==>
        && Opens(s.op) >= 1 && Opens(r.value.op) == Opens(s.op) - 1 && Strange(r.value.op) == Strange(s.op)
        && (s.lost ==> r.value.lost)
    decreases |s.op|
  {
    if s.op != [] && TopOp(s) != '(' && Compute(PopOp(s), TopOp(s), caps).Some? {
      OnlyOperatorsApply(s, caps);
      BracketTakesOne(Compute(PopOp(s), TopOp(s), caps).value, caps);
    }
  }

  lemma {:induction false} PendingTakesNone(s: State, c: char, caps: Caps)
    ensures var r := ApplyPending(s, c, caps);
      r.Some? ==> Opens(r.value.op) == Opens(s.op) && Strange(r.value.op) == Strange(s.op) && (s.lost ==> r.value.lost)
    decreases |s.op|
  {
    if s.op != [] && GetPri(c) <= GetPri(TopOp(s)) && Compute(PopOp(s), TopOp(s), caps).Some? {
      OnlyOperatorsApply(s, caps);
      PendingTakesNone(Compute(PopOp(s), TopOp(s), caps).value, c, caps);
    }
  }

  lemma {:induction false} DrainTakesNone(s: State, caps: Caps)
    ensures var r := Drain(s, caps); r.Some? ==> Opens(s.op) == 0 && Strange(s.op) == 0 && (s.lost ==> r.value.lost)
    decreases |s.op|
  {
    if s.op != [] && Compute(PopOp(s), TopOp(s), caps).Some? {
      OnlyOperatorsApply(s, caps);
      DrainTakesNone(Compute(PopOp(s), TopOp(s), caps).value, caps);
    }
  }

  lemma PushedOnTop(s: State, c: char, caps: Caps)
    requires !PushOp(s, c, caps).lost
    ensures var r := PushOp(s, c, caps);
      && Opens(r.op) == Opens(s.op) + (if c == '(' then 1 else 0)
      && Strange(r.op) == Strange(s.op) + if Numeral(c) || c in "+-*/()" then 0 else 1
  {
    assert (s.op + [c])[..|s.op|] == s.op;
  }

  lemma StepKeeps(s: State, c: char, caps: Caps)
    requires Step(s, c, caps).Some? && !Step(s, c, caps).value.lost
    ensures var r := Step(s, c, caps).value;
      && !s.lost
      && Opens(r.op) == Opens(s.op) + (if c == '(' then 1 else if c == ')' then -1 else 0)
      && Strange(r.op) == Strange(s.op) + if Numeral(c) || c in "+-*/()" then 0 else 1
  {
    DigitIs(c);
    var f := FlushNumber(s, caps);
    if c == ')' {
      BracketTakesOne(f, caps);
    } else if !IsDigit(c) {
      PendingTakesNone(f, c, caps);
      PushedOnTop(if f.op == [] || c == '(' then f else ApplyPending(f, c, caps).value, c, caps);
    }
  }

  /** Until a push finds its stack full, the operator stack holds every bracket still open and every character that
      has no meaning. */
  lemma {:induction false} StackRemembers(text: string, caps: Caps)
    requires Run(START, text, caps).Some? && !Run(START, text, caps).value.lost
    ensures var r := Run(START, text, caps).value; Opens(r.op) == Depth(text) && Strange(r.op) == Strange(text)
    ensures forall i :: 0 <= i <= |text| ==> Depth(text[..i]) >= 0
  {
    if text == [] {
      assert text[..0] == [];
    } else {
      var n := |text| - 1;
      assert text == text[..n] + [text[n]];
      RunAppend(START, text[..n], [text[n]], caps);
      var r := Run(START, text[..n], caps).value;
      RunOne(r, text[n], caps);
      StepKeeps(r, text[n], caps);
      StackRemembers(text[..n], caps);
      forall i | 0 <= i <= |text| ensures Depth(text[..i]) >= 0 {
        assert i <= n ==> text[..i] == text[..n][..i];
        assert i == |text| ==> text[..i] == text;
      }
    }
  }

  /** A text that comes to an end with all pushes made has matching brackets and no other characters than
      digits, operators and brackets. */
  lemma AcceptedMatches(text: string, caps: Caps)
    requires Eval(text, caps).Some? && !Eval(text, caps).value.lost
    ensures Depth(text) == 0 && Strange(text) == 0 && forall i :: 0 <= i <= |text| ==> Depth(text[..i]) >= 0
  {
    var r := Run(START, text, caps).value;
    DrainTakesNone(FlushNumber(r, caps), caps);
    assert FlushNumber(r, caps).op == r.op && (r.lost ==> FlushNumber(r, caps).lost);
    StackRemembers(text, caps);
  }
}
