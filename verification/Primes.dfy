/** The workers' trial division, which stops short of half of the number. */
module Primes {

  ghost predicate Prime(n: int) {
    n >= 2 && forall j :: 2 <= j < n ==> n % j != 0
  }

  /** What the loop leaves in mark. */
  ghost predicate Marked(i: nat) {
    forall j :: 2 <= j < i / 2 ==> i % j != 0
  }

  method TrialDivision(i: nat) returns (mark: bool)
    ensures mark <==> Marked(i)
  {
    mark := true;
    var j := 2;
    while j < i / 2
      invariant j >= 2 && mark && forall k :: 2 <= k < j && k < i / 2 ==> i % k != 0
    {
      if i % j == 0 {
        mark := false;
        break;
      }
      j := j + 1;
    }
  }

  lemma Cofactor(i: nat, j: nat) returns (k: nat)
    requires 2 <= j < i && i % j == 0
    ensures k * j == i && 2 <= k
  {
    k := i / j;
    assert i == k * j + i % j;
    AtMostOne(k, j);
  }

  lemma AtMostOne(k: nat, j: nat)
    ensures k <= 1 ==> k * j <= j
    ensures 3 <= k ==> 3 * j <= k * j
  {
  }

  /** A number with a proper divisor, other than 4, has one below the bound of the loop. */
  lemma SmallDivisor(i: nat, j: nat) returns (d: nat)
    requires i != 4 && 2 <= j < i && i % j == 0
    ensures 2 <= d < i / 2 && i % d == 0
  {
    var k := Cofactor(i, j);
    AtMostOne(k, j);
    d := if k >= 3 then j else 2;
  }

  lemma MarkedIsPrime(i: nat)
    requires i >= 2 && i != 4 && Marked(i)
    ensures Prime(i)
  {
    forall j | 2 <= j < i ensures i % j != 0 {
      if i % j == 0 {
        var d := SmallDivisor(i, j);
        assert false;
      }
    }
  }

  /** The short bound is exact for every positive number but 1 and 4, which it reports as primes. */
  lemma MarkedExact(i: nat)
    requires i >= 1
    ensures (Marked(i) <==> Prime(i)) <==> i != 1 && i != 4
  {
    if i >= 2 && i != 4 && Marked(i) {
      MarkedIsPrime(i);
    }
    assert 4 % 2 == 0;
  }
}
