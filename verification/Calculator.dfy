/**
  The evaluator as the source has it: two array stacks updated in place.
  Each method returns false where the program leaves its defined behaviour.
 */
module Calculator {
  import opened Wrappers
  import opened ArrayStack
  import opened Expressions
  import opened Evaluator

  class Machine {
    const snum: SqStack<int>
    const sop: SqStack<char>
    var value: int
    var flag: bool
    ghost var lost: bool

    ghost predicate Valid()
      reads this, snum, sop
    {
      snum.Valid() && sop.Valid()
    }

    ghost function View(): State
      requires Valid()
      reads this, snum, sop, snum.data, sop.data
    {
      State(snum.Contents(), sop.Contents(), value, flag, lost)
    }

    ghost function Limits(): Caps
      reads snum, sop
    {
      Caps(snum.data.Length, sop.data.Length)
    }

    constructor (numSize: nat, opSize: nat)
      ensures Valid() && View() == START && Limits() == Caps(numSize, opSize)
      ensures fresh(snum) && fresh(snum.data) && fresh(sop) && fresh(sop.data)
    {
      var nums := new SqStack<int>(numSize);
      var ops := new SqStack<char>(opSize);
      snum, sop := nums, ops;
      value, flag, lost := 0, false, false;
    }

    method PushNum(x: int)
      requires Valid()
      modifies this`lost, snum`top, snum.data
      ensures Valid() && View() == Evaluator.PushNum(old(View()), x, Limits())
    {
      var code := snum.Push(x);
      lost := lost || code == -1;
    }

    method PushOp(op: char)
      requires Valid()
      modifies this`lost, sop`top, sop.data
      ensures Valid() && View() == Evaluator.PushOp(old(View()), op, Limits())
    {
      var code := sop.Push(op);
      lost := lost || code == -1;
    }

    method Compute(op: char) returns (ok: bool)
      requires Valid()
      modifies this`lost, snum`top, snum.data
      ensures Valid() && View().op == old(View()).op
      ensures match Evaluator.Compute(old(View()), op, Limits()) case None => !ok case Some(s) => ok && View() == s
    {
      var n2 := snum.Pop();
      var n1 := snum.Pop();
      if n1 == None || n2 == None {
        return false;
      }
      var n;
      match op {
        case '+' => n := n1.value + n2.value;
        case '-' => n := n1.value - n2.value;
        case '*' => n := n1.value * n2.value;
        case '/' =>
          if n2.value == 0 {
            return false;
          }
          n := Quotient(n1.value, n2.value);
        case _ => return false;
      }
      PushNum(n);
      ok := true;
    }

    /** The body of all three loops: pop an operator and apply it. */
    method ApplyTop() returns (ok: bool)
      requires Valid() && View().op != []
      modifies this`lost, snum`top, snum.data, sop`top
      ensures Valid() && |View().op| == |old(View()).op| - 1
      ensures match Evaluator.Compute(PopOp(old(View())), TopOp(old(View())), Limits())
        case None => !ok
        case Some(s) => ok && View() == s
    {
      var oldOp := sop.Pop();
      ok := Compute(oldOp.value);
    }

    method PeekOp() returns (oldOp: Option<char>)
      requires Valid()
      ensures oldOp == if View().op == [] then None else Some(TopOp(View()))
    {
      oldOp := sop.Top();
    }

    method NoOps() returns (b: bool)
      requires Valid()
      ensures b <==> View().op == []
    {
      b := sop.IsEmpty();
    }

    method DealBracket() returns (ok: bool)
      requires Valid()
      modifies this`lost, snum`top, snum.data, sop`top
      ensures Valid()
      ensures match Evaluator.DealBracket(old(View()), Limits()) case None => !ok case Some(s) => ok && View() == s
    {
      ghost var s, goal := View(), Evaluator.DealBracket(View(), Limits());
      var oldOp := PeekOp();
      while oldOp != Some('(')
        invariant Valid() && View() == s && Evaluator.DealBracket(s, Limits()) == goal
        invariant oldOp == if s.op == [] then None else Some(TopOp(s))
        decreases |s.op|
      {
        if oldOp == None {
          return false;
        }
        ok := ApplyTop();
        if !ok {
          return;
        }
        s := View();
        oldOp := PeekOp();
      }
      var _ := sop.Pop();
      ok := true;
    }

    method DealOp(op: char) returns (ok: bool)
      requires Valid()
      modifies this`lost, snum`top, snum.data, sop`top, sop.data
      ensures Valid()
      ensures match Evaluator.DealOp(old(View()), op, Limits()) case None => !ok case Some(s) => ok && View() == s
    {
      var empty := NoOps();
      if empty || op == '(' {
        PushOp(op);
        return true;
      }
      var oldOp := PeekOp();
      if GetPri(op) > GetPri(oldOp.value) {
        PushOp(op);
        return true;
      }
      ghost var s, goal := View(), ApplyPending(View(), op, Limits());
      while GetPri(op) <= GetPri(oldOp.value)
        invariant Valid() && View() == s && ApplyPending(s, op, Limits()) == goal
        invariant s.op != [] && oldOp == Some(TopOp(s))
        decreases |s.op|
      {
        ok := ApplyTop();
        if !ok {
          return;
        }
        s := View();
        empty := NoOps();
        if empty {
          break;
        }
        oldOp := PeekOp();
      }
      PushOp(op);
      ok := true;
    }

    method Digit(c: char)
      requires Valid() && IsDigit(c)
      modifies this`value, this`flag
      ensures Some(View()) == Step(old(View()), c, Limits())
    {
      value, flag := 10 * value + (c as int - '0' as int), true;
    }

    method Other(c: char) returns (ok: bool)
      requires Valid() && !IsDigit(c)
      modifies this, snum`top, snum.data, sop`top, sop.data
      ensures Valid()
      ensures match Step(old(View()), c, Limits()) case None => !ok case Some(s) => ok && View() == s
    {
      if flag {
        PushNum(value);
        flag, value := false, 0;
      }
      if c == ')' {
        ok := DealBracket();
      } else {
        ok := DealOp(c);
      }
    }

    /** The scanning loop and the final flush. */
    method Evaluate(text: string) returns (ok: bool)
      requires Valid() && View() == START
      modifies this, snum`top, snum.data, sop`top, sop.data
      ensures Valid()
      ensures match Eval(text, Limits())
        case None => !ok
        case Some(s) => ok && snum.Contents() == s.num && sop.Contents() == s.op && lost == s.lost
    {
      ghost var goal, s := Run(START, text, Limits()), START;
      var i := 0;
      while i < |text|
        invariant 0 <= i <= |text| && Valid() && View() == s && Run(s, text[i..], Limits()) == goal
      {
        if IsDigit(text[i]) {
          Digit(text[i]);
        } else {
          ok := Other(text[i]);
          if !ok {
            return;
          }
        }
        i, s := i + 1, View();
      }
      ok := Flush();
    }

    /** Push the last number and apply what is left. */
    method Flush() returns (ok: bool)
      requires Valid()
      modifies this, snum`top, snum.data, sop`top, sop.data
      ensures Valid()
      ensures match Drain(FlushNumber(old(View()), Limits()), Limits())
        case None => !ok
        case Some(s) => ok && snum.Contents() == s.num && sop.Contents() == s.op && lost == s.lost
    {
      ghost var goal := Drain(FlushNumber(View(), Limits()), Limits());
      if flag {
        PushNum(value);
      }
      ghost var s := View();
      DrainIgnoresNumber(s, 0, false, Limits());
      var empty := NoOps();
      while !empty
        invariant Valid() && View() == s && (empty <==> s.op == [])
        invariant SameStacks(Drain(s, Limits()), goal)
        decreases |s.op|
      {
        ok := ApplyTop();
        if !ok {
          return;
        }
        s := View();
        empty := NoOps();
      }
      ok := true;
    }
  }

  lemma {:induction false} DrainIgnoresNumber(s: State, value: int, flag: bool, caps: Caps)
    ensures SameStacks(Drain(s, caps), Drain(s.(value := value, flag := flag), caps))
    decreases |s.op|
  {
    if s.op != [] && Evaluator.Compute(PopOp(s), TopOp(s), caps).Some? {
      DrainIgnoresNumber(Evaluator.Compute(PopOp(s), TopOp(s), caps).value, value, flag, caps);
    }
  }

  /** The same but for the number being read, which nothing looks at any more. */
  ghost predicate SameStacks(a: Option<State>, b: Option<State>) {
    match (a, b)
    case (None, None) => true
    case (Some(s), Some(s')) => s.num == s'.num && s.op == s'.op && s.lost == s'.lost
    case _ => false
  }
}
