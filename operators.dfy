/**
 * The primitive operators exposed as callable methods, with C#'s integer
 * semantics written out: unchecked 32- and 64-bit two's-complement wrap-around
 * and division that truncates toward zero.
 */
module Operators {

  const Modulus32: int := 0x1_0000_0000
  const Half32: int := 0x8000_0000
  const Modulus64: int := 0x1_0000_0000_0000_0000
  const Half64: int := 0x8000_0000_0000_0000

  newtype Int32 = x: int | -0x8000_0000 <= x < 0x8000_0000
  newtype Int64 = x: int | -0x8000_0000_0000_0000 <= x < 0x8000_0000_0000_0000

  /** How a division ended: a quotient, or the exception .NET throws. */
  datatype Quotient<T> = Quotient(value: T) | DivideByZeroException | OverflowException

  function Abs(x: int): nat
  {
    if x < 0 then -x else x
  }

  /* ----------------------------------------------------------- wrap-around */

  /** The 32-bit value an unchecked operation leaves: `x` reduced modulo 2^32 into the signed range. */
  function Wrap32(x: int): (r: Int32)
    ensures (r as int - x) % Modulus32 == 0
    ensures -Half32 <= x < Half32 ==> r as int == x
  {
    var m := (x + Half32) % Modulus32;
    assert x + Half32 == Modulus32 * ((x + Half32) / Modulus32) + m;
    (m - Half32) as Int32
  }

  /** The 64-bit value an unchecked operation leaves. */
  function Wrap64(x: int): (r: Int64)
    ensures (r as int - x) % Modulus64 == 0
    ensures -Half64 <= x < Half64 ==> r as int == x
  {
    var m := (x + Half64) % Modulus64;
    assert x + Half64 == Modulus64 * ((x + Half64) / Modulus64) + m;
    (m - Half64) as Int64
  }

  /** Values that agree modulo 2^32 wrap to the same 32-bit value. */
  lemma {:induction false} Wrap32Congruent(x: int, y: int)
    requires (x - y) % Modulus32 == 0
    ensures Wrap32(x) == Wrap32(y)
  {
    var k := (x - y) / Modulus32;
    assert x - y == Modulus32 * k;
    var qy := (y + Half32) / Modulus32;
    var my := (y + Half32) % Modulus32;
    assert x + Half32 == Modulus32 * (qy + k) + my;
    assert (x + Half32) % Modulus32 == my;
  }

  /** Values that agree modulo 2^64 wrap to the same 64-bit value. */
  lemma {:induction false} Wrap64Congruent(x: int, y: int)
    requires (x - y) % Modulus64 == 0
    ensures Wrap64(x) == Wrap64(y)
  {
    var k := (x - y) / Modulus64;
    assert x - y == Modulus64 * k;
    var qy := (y + Half64) / Modulus64;
    var my := (y + Half64) % Modulus64;
    assert x + Half64 == Modulus64 * (qy + k) + my;
    assert (x + Half64) % Modulus64 == my;
  }

  /* -------------------------------------------------------- truncation */

  /** Euclidean division of naturals brackets the dividend between consecutive multiples. */
  lemma {:induction false} NatDivBounds(x: nat, y: nat)
    requires y > 0
    ensures (x / y) * y <= x < (x / y) * y + y
    ensures x / y <= x
  {
    var q := x / y;
    var r := x % y;
    assert x == y * q + r && 0 <= r < y;
    MulAtLeast(q, y);
  }

  lemma {:induction false} MulAtLeast(q: nat, y: nat)
    requires y >= 1
    ensures q * y >= q
  {
    var z: nat := y - 1;
    assert q * y == q * z + q;
  }

  /** Division of magnitudes. */
  function Quot(x: nat, y: nat): nat
    requires y > 0
  {
    x / y
  }

  /** C#'s integer division: the quotient rounded toward zero. */
  function TruncDiv(a: int, b: int): (q: int)
    requires b != 0
    ensures Abs(q) == Quot(Abs(a), Abs(b))
    ensures q != 0 ==> (q < 0 <==> (a < 0) != (b < 0))
  {
    var n := Quot(Abs(a), Abs(b));
    if (a < 0) != (b < 0) then -(n as int) else n as int
  }

  /** The remainder C# leaves beside `TruncDiv` is smaller than the divisor and takes the dividend's sign. */
  lemma {:induction false} TruncDivRemainder(a: int, b: int)
    requires b != 0
    ensures var rem := a - TruncDiv(a, b) * b;
      Abs(rem) < Abs(b) && (rem == 0 || (rem < 0 <==> a < 0))
  {
    var q := TruncDiv(a, b);
    var n := Abs(a) / Abs(b);
    NatDivBounds(Abs(a), Abs(b));
    var p := n * Abs(b);
    assert p <= Abs(a) < p + Abs(b);
    if (a < 0) != (b < 0) {
      assert q == -n;
      assert q * b == -n * b;
      if b < 0 {
        assert -n * b == n * Abs(b);
      } else {
        assert -n * b == -(n * Abs(b));
      }
    } else {
      assert q == n;
      if b < 0 {
        assert n * b == -(n * Abs(b));
      } else {
        assert n * b == n * Abs(b);
      }
    }
  }

  /** Only `int.MinValue / -1` leaves the 32-bit range. */
  lemma {:induction false} TruncDivInRange32(a: int, b: int)
    requires b != 0 && -Half32 <= a < Half32
    requires !(a == -Half32 && b == -1)
    ensures -Half32 <= TruncDiv(a, b) < Half32
  {
    var n := Abs(a) / Abs(b);
    NatDivBounds(Abs(a), Abs(b));
    if n >= Half32 {
      assert n == 0x8000_0000 && Abs(a) == 0x8000_0000;
      assert 0x8000_0000 * Abs(b) <= 0x8000_0000;
      assert Abs(b) == 1;
      assert TruncDiv(a, b) == -n;
    }
  }

  /** Only `long.MinValue / -1` leaves the 64-bit range. */
  lemma {:induction false} TruncDivInRange64(a: int, b: int)
    requires b != 0 && -Half64 <= a < Half64
    requires !(a == -Half64 && b == -1)
    ensures -Half64 <= TruncDiv(a, b) < Half64
  {
    var n := Abs(a) / Abs(b);
    NatDivBounds(Abs(a), Abs(b));
    if n >= Half64 {
      assert n == 0x8000_0000_0000_0000 && Abs(a) == 0x8000_0000_0000_0000;
      assert 0x8000_0000_0000_0000 * Abs(b) <= 0x8000_0000_0000_0000;
      assert Abs(b) == 1;
      assert TruncDiv(a, b) == -n;
    }
  }

  /* ------------------------------------------------------------ bool */

  function InvertBool(value: bool): (r: bool)
    ensures r != value
  {
    !value
  }

  function EqualsBool(a: bool, b: bool): (r: bool)
    ensures r <==> a == b
  {
    a == b
  }

  /* ------------------------------------------------------------- int */

  function AddInt(a: Int32, b: Int32): (r: Int32)
    ensures (r as int - (a as int + b as int)) % Modulus32 == 0
  {
    Wrap32(a as int + b as int)
  }

  function SubtractInt(a: Int32, b: Int32): (r: Int32)
    ensures (r as int - (a as int - b as int)) % Modulus32 == 0
  {
    Wrap32(a as int - b as int)
  }

  function MultiplyInt(a: Int32, b: Int32): (r: Int32)
    ensures (r as int - a as int * b as int) % Modulus32 == 0
  {
    Wrap32(a as int * b as int)
  }

  /** Division toward zero; zero divisors and `int.MinValue / -1` throw. */
  function DivideInt(a: Int32, b: Int32): (r: Quotient<Int32>)
    ensures b == 0 <==> r == DivideByZeroException
    ensures (a as int == -Half32 && b == -1) <==> r == OverflowException
    ensures r.Quotient? ==> r.value as int == TruncDiv(a as int, b as int)
  {
    if b == 0 then DivideByZeroException
    else if a as int == -Half32 && b == -1 then OverflowException
    else
      TruncDivInRange32(a as int, b as int);
      Quotient(TruncDiv(a as int, b as int) as Int32)
  }

  function EqualsInt(a: Int32, b: Int32): (r: bool)
    ensures r <==> a as int == b as int
  {
    a == b
  }

  /** Adding then subtracting the same value gives back the original, overflow or not. */
  lemma {:induction false} AddThenSubtractInt(a: Int32, b: Int32)
    ensures SubtractInt(AddInt(a, b), b) == a
  {
    var s := AddInt(a, b);
    assert ((s as int - b as int) - a as int) % Modulus32 == 0 by {
      assert (s as int - (a as int + b as int)) % Modulus32 == 0;
    }
    Wrap32Congruent(s as int - b as int, a as int);
  }

  /** The sum is the mathematical sum exactly when it does not overflow. */
  lemma {:induction false} AddIntExactInRange(a: Int32, b: Int32)
    ensures (AddInt(a, b) as int == a as int + b as int) <==> -Half32 <= a as int + b as int < Half32
  {
  }

  /* ------------------------------------------------------------ long */

  function AddLong(a: Int64, b: Int64): (r: Int64)
    ensures (r as int - (a as int + b as int)) % Modulus64 == 0
  {
    Wrap64(a as int + b as int)
  }

  function SubtractLong(a: Int64, b: Int64): (r: Int64)
    ensures (r as int - (a as int - b as int)) % Modulus64 == 0
  {
    Wrap64(a as int - b as int)
  }

  function MultiplyLong(a: Int64, b: Int64): (r: Int64)
    ensures (r as int - a as int * b as int) % Modulus64 == 0
  {
    Wrap64(a as int * b as int)
  }

  /** Division toward zero; zero divisors and `long.MinValue / -1` throw. */
  function DivideLong(a: Int64, b: Int64): (r: Quotient<Int64>)
    ensures b == 0 <==> r == DivideByZeroException
    ensures (a as int == -Half64 && b == -1) <==> r == OverflowException
    ensures r.Quotient? ==> r.value as int == TruncDiv(a as int, b as int)
  {
    if b == 0 then DivideByZeroException
    else if a as int == -Half64 && b == -1 then OverflowException
    else
      TruncDivInRange64(a as int, b as int);
      Quotient(TruncDiv(a as int, b as int) as Int64)
  }

  function EqualsLong(a: Int64, b: Int64): (r: bool)
    ensures r <==> a as int == b as int
  {
    a == b
  }

  /** Adding then subtracting the same value gives back the original, overflow or not. */
  lemma {:induction false} AddThenSubtractLong(a: Int64, b: Int64)
    ensures SubtractLong(AddLong(a, b), b) == a
  {
    var s := AddLong(a, b);
    assert ((s as int - b as int) - a as int) % Modulus64 == 0 by {
      assert (s as int - (a as int + b as int)) % Modulus64 == 0;
    }
    Wrap64Congruent(s as int - b as int, a as int);
  }

  /** `int.MaxValue + 1` wraps to `int.MinValue`. */
  lemma AddIntWrapsAtMax()
    ensures AddInt(0x7FFF_FFFF, 1) as int == -Half32
  {
  }
}
