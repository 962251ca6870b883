/**
  The grammar of infix expressions and its meaning:
  E -> T {(+|-) T},  T -> F {(*|/) F},  F -> decimal | (E).
  The repetitions associate to the left, so they are left-recursive here.
 */
module Expressions {
  import opened Wrappers

  predicate Numeral(c: char) {
    c == '0' || DigitValue(c) > 0
  }

  type Digits = s: string | s != [] && forall c :: c in s ==> Numeral(c) witness "0"

  datatype AddOp = Plus | Minus
  datatype MulOp = Times | Over

  datatype Expr = Sum(e: Expr, aop: AddOp, t: Term) | OneTerm(t: Term)
  datatype Term = Product(pt: Term, mop: MulOp, f: Factor) | OneFactor(f: Factor)
  datatype Factor = Number(ds: Digits) | Bracketed(e: Expr)

  function AddSym(op: AddOp): char {
    if op.Plus? then '+' else '-'
  }

  function MulSym(op: MulOp): char {
    if op.Times? then '*' else '/'
  }

  function ExprText(e: Expr): string {
    match e
    case OneTerm(t) => TermText(t)
    case Sum(e', op, t) => ExprText(e') + [AddSym(op)] + TermText(t)
  }

  function TermText(t: Term): string {
    match t
    case OneFactor(f) => FactorText(f)
    case Product(t', op, f) => TermText(t') + [MulSym(op)] + FactorText(f)
  }

  function FactorText(f: Factor): string {
    match f
    case Number(ds) => ds
    case Bracketed(e) => ['('] + ExprText(e) + [')']
  }

  // ----- Meaning -----

  /** Division as in C: the quotient is truncated towards zero (section 6.5.5 of ISO/IEC 9899:1999). */
  function Quotient(a: int, b: int): int
    requires b != 0
  {
    var q := Abs(a) / Abs(b);
    if (a < 0) == (b < 0) then q else -q
  }

  function Abs(a: int): nat {
    if a < 0 then -a else a
  }

  /** Truncation: the remainder is smaller than the divisor and takes the sign of the dividend. */
  lemma QuotientTruncates(a: int, b: int)
    requires b != 0
    ensures var r := a - Quotient(a, b) * b; Abs(r) < Abs(b) && (r == 0 || (r < 0 <==> a < 0))
  {
    var q, m := Abs(a) / Abs(b), Abs(b);
    DivMod(Abs(a), m);
    Negate(q, m);
  }

  lemma DivMod(a: nat, m: nat)
    requires m > 0
    ensures a == (a / m) * m + a % m && 0 <= a % m < m
  {
  }

  lemma Negate(q: int, m: int)
    ensures (-q) * m == -(q * m) && q * (-m) == -(q * m) && (-q) * (-m) == q * m
  {
  }

  function AddValue(op: AddOp, a: Option<int>, b: Option<int>): Option<int> {
    match (a, b)
    case (Some(x), Some(y)) => (match op case Plus => Some(x + y) case Minus => Some(x - y))
    case _ => None
  }

  function MulValue(op: MulOp, a: Option<int>, b: Option<int>): Option<int> {
    match (a, b)
    case (Some(x), Some(y)) =>
      (match op
       case Times => Some(x * y)
       case Over => if y == 0 then None else Some(Quotient(x, y)))
    case _ => None
  }

  /** The value of an expression; None when evaluating it divides by zero. */
  function ExprValue(e: Expr): Option<int> {
    match e
    case OneTerm(t) => TermValue(t)
    case Sum(e', op, t) => AddValue(op, ExprValue(e'), TermValue(t))
  }

  function TermValue(t: Term): Option<int> {
    match t
    case OneFactor(f) => FactorValue(f)
    case Product(t', op, f) => MulValue(op, TermValue(t'), FactorValue(f))
  }

  function FactorValue(f: Factor): Option<int> {
    match f
    case Number(ds) => Some(Decimal(ds))
    case Bracketed(e) => ExprValue(e)
  }

  function DigitValue(c: char): nat {
    match c
    case '1' => 1
    case '2' => 2
    case '3' => 3
    case '4' => 4
    case '5' => 5
    case '6' => 6
    case '7' => 7
    case '8' => 8
    case '9' => 9
    case _ => 0
  }

  function Decimal(s: string): nat {
    if s == [] then 0 else 10 * Decimal(s[..|s| - 1]) + DigitValue(s[|s| - 1])
  }

  // ----- Nesting depth -----

  function ExprDepth(e: Expr): nat {
    match e
    case OneTerm(t) => TermDepth(t)
    case Sum(e', _, t) => Max(ExprDepth(e'), TermDepth(t))
  }

  function TermDepth(t: Term): nat {
    match t
    case OneFactor(f) => FactorDepth(f)
    case Product(t', _, f) => Max(TermDepth(t'), FactorDepth(f))
  }

  function FactorDepth(f: Factor): nat {
    match f
    case Number(_) => 0
    case Bracketed(e) => 1 + ExprDepth(e)
  }

  function Max(a: nat, b: nat): nat {
    if a < b then b else a
  }
}
