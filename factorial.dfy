/** The factorial helper, with Python's argument checks. */
module Factorial {
  import opened Common

  /** A Python argument: an int, a bool (a subclass of int), or any other value. */
  datatype PyValue = PyInt(i: int) | PyBool(b: bool) | PyOther

  datatype PyError = TypeError | ValueError

  /** The integer value Python compares for an int argument. */
  predicate IsInt(x: PyValue) {
    x.PyInt? || x.PyBool?
  }

  function IntValue(x: PyValue): int
    requires IsInt(x)
  {
    if x.PyInt? then x.i else if x.b then 1 else 0
  }

  /** The mathematical factorial. */
  function Fact(n: nat): nat {
    if n == 0 then 1 else n * Fact(n - 1)
  }

  /** The factorial is at least 1 and at least n. */
  lemma {:induction false} FactBounds(n: nat)
    ensures Fact(n) >= 1 && Fact(n) >= n
  {
    if n > 0 {
      FactBounds(n - 1);
      assert n * Fact(n - 1) >= n * 1;
    }
  }

  lemma FactSmall()
    ensures Fact(0) == 1 && Fact(1) == 1 && Fact(5) == 120
  {
  }

  /** `factorial`: a TypeError for a non-int, a ValueError for a negative int, n! otherwise. */
  method Factorial(x: PyValue) returns (r: Result<int, PyError>)
    ensures !IsInt(x) <==> r == Err(TypeError)
    ensures IsInt(x) && IntValue(x) < 0 <==> r == Err(ValueError)
    ensures IsInt(x) && IntValue(x) >= 0 ==> r == Ok(Fact(IntValue(x)))
    ensures r.Ok? ==> r.value >= 1
  {
    if !IsInt(x) {
      return Err(TypeError);
    }
    var n := IntValue(x);
    if n < 0 {
      return Err(ValueError);
    }
    FactBounds(n);
    if n == 0 || n == 1 {
      return Ok(1);
    }
    var result := 1;
    for i := 2 to n + 1
      invariant result == Fact(i - 1)
    {
      result := result * i;
    }
    r := Ok(result);
  }
}
