/** The bounded array stack. Both copies in the source differ only in the names of their constants. */
module ArrayStack {
  import opened Wrappers

  class SqStack<T(0)> {
    const data: array<T>
    var top: int

    ghost predicate Valid()
      reads this
    {
      -1 <= top < data.Length
    }

    /** Bottom first. */
    ghost function Contents(): (s: seq<T>)
      requires Valid()
      reads this, data
      ensures |s| == top + 1
    {
      data[..top + 1]
    }

    constructor (maxSize: nat)
      ensures Valid() && fresh(data) && data.Length == maxSize && Contents() == []
    {
      data := new T[maxSize];
      top := -1;
    }

    method IsEmpty() returns (b: bool)
      requires Valid()
      ensures b <==> Contents() == []
    {
      b := -1 == top;
    }

    /** A push onto a full stack fails and changes nothing. */
    method Push(x: T) returns (code: int)
      requires Valid()
      modifies this`top, data
      ensures Valid()
      ensures var s := old(Contents());
        if |s| == data.Length then code == -1 && Contents() == s
        else code == 0 && Contents() == s + [x]
    {
      if data.Length - 1 == top {
        return -1;
      }
      top := top + 1;
      data[top] := x;
      code := 0;
    }

    method Pop() returns (x: Option<T>)
      requires Valid()
      modifies this`top
      ensures Valid()
      ensures var s := old(Contents());
        if s == [] then x == None && Contents() == []
        else x == Some(s[|s| - 1]) && Contents() == s[..|s| - 1]
    {
      if top == -1 {
        return None;
      }
      x := Some(data[top]);
      top := top - 1;
    }

    method Top() returns (x: Option<T>)
      requires Valid()
      ensures x == if Contents() == [] then None else Some(Contents()[|Contents()| - 1])
    {
      if top == -1 {
        return None;
      }
      x := Some(data[top]);
    }
  }
}
