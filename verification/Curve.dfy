/** Is a 32-byte address on the Ed25519 curve? */
module Curve {
  import opened Bytes
  import opened NumberTheory

  const P := 0x7fffffffffffffffffffffffffffffffffffffffffffffffffffffffffffffed
  const D := 37095705934669439343138083508754565189542113879843219016388785533085940283555

  // ---- Modular powers ----

  lemma {:induction false} HalvedPower(acc: int, e: nat, p: int)
    requires p > 0
    ensures Cong(Pow(acc * acc % p, e / 2) * (if e % 2 == 1 then acc else 1), Pow(acc, e), p)
  {
    var h := e / 2;
    CongMod(acc * acc, p);
    PowCong(acc * acc % p, acc * acc, h, p);
    PowOfProduct(acc, acc, h);
    PowAdd(acc, h, h);
    assert Pow(acc * acc, h) == Pow(acc, 2 * h);
    if e % 2 == 1 {
      assert Pow(acc, e) == acc * Pow(acc, 2 * h);
      CongMulRight(Pow(acc * acc % p, h), Pow(acc, 2 * h), acc, p);
    }
  }

  /** One turn of the loop: what the accumulator gives up, the result takes on. */
  lemma ModPowTurn(result: int, acc: int, e: nat, goal: int, p: int)
    requires p > 0 && e > 0 && Cong(result * Pow(acc, e), goal, p)
    ensures Cong((if e % 2 == 1 then result * acc % p else result) * Pow(acc * acc % p, e / 2), goal, p)
  {
    var factor := if e % 2 == 1 then acc else 1;
    var next := if e % 2 == 1 then result * acc % p else result;
    var rest := Pow(acc * acc % p, e / 2);
    HalvedPower(acc, e, p);
    hide Pow;
    CongMod(result * acc, p);
    assert Cong(next, result * factor, p);
    CongMulRight(next, result * factor, rest, p);
    CongMulRight(rest * factor, Pow(acc, e), result, p);
    assert (result * factor) * rest == result * (rest * factor);
  }

  /** Square and multiply, reducing at every step. */
  method ModPow(base: int, exponent: nat, p: int) returns (result: int)
    requires p > 1
    ensures result == Pow(base, exponent) % p
  {
    result := 1;
    var acc := base % p;
    var e := exponent;
    CongMod(base, p);
    PowCong(acc, base, exponent, p);
    while e > 0
      invariant 0 <= result < p
      invariant Cong(result * Pow(acc, e), Pow(base, exponent), p)
    {
      ModPowTurn(result, acc, e, Pow(base, exponent), p);
      hide Pow, Cong;
      if e % 2 == 1 {
        result := result * acc % p;
      }
      acc := acc * acc % p;
      e := e / 2;
    }
    DivisionIsUnique(result, p, 0, result);
  }

  method Inverse(value: int, p: int) returns (r: int)
    requires p > 1
    ensures r == Pow(value, p - 2) % p
    ensures IsPrime(p) && value % p != 0 ==> Cong(value * r, 1, p)
  {
    r := ModPow(value, p - 2, p);
    if value % p != 0 {
      PowerIsInverse(value, p);
    }
  }

  lemma PowerIsInverse(v: int, p: int)
    requires p > 1 && v % p != 0
    ensures IsPrime(p) ==> Cong(v * (Pow(v, p - 2) % p), 1, p)
  {
    if IsPrime(p) {
      Fermat(v, p);
      CongMod(Pow(v, p - 2), p);
      CongMulRight(Pow(v, p - 2) % p, Pow(v, p - 2), v, p);
    }
  }

  method IsSquare(w: int, p: int) returns (r: bool)
    requires p > 1 && 0 <= w < p
    ensures r <==> HasPowerOne(w, p)
    ensures IsPrime(p) && p % 8 == 5 ==> (r <==> exists x :: IsRoot(x, w, p))
  {
    if w == 0 {
      r := true;
    } else {
      var power := ModPow(w, (p - 1) / 2, p);
      r := power == 1;
    }
    CriterionWhenPrime(w, p);
  }

  lemma CriterionWhenPrime(w: int, p: int)
    requires p > 1 && 0 <= w < p
    ensures IsPrime(p) && p % 8 == 5 ==> (HasPowerOne(w, p) <==> exists x :: IsRoot(x, w, p))
  {
    if IsPrime(p) && p % 8 == 5 {
      EulersCriterion(w, p);
    }
  }

  // ---- Decompression ----

  /** x is on the curve beside y: x^2 (d y^2 + 1) = y^2 - 1. */
  predicate OnCurve(x: int, y: int, d: int, p: int)
    requires p > 0
  {
    Cong(x * x * (d * (y * y) + 1), y * y - 1, p)
  }

  /** What decompression is for: a coordinate on the curve whose parity is the sign bit. */
  ghost predicate Decompresses(y: int, sign: int, d: int, p: int)
    requires p > 0
  {
    exists x :: 0 <= x < p && OnCurve(x, y, d, p) && x % 2 == sign
  }

  function ReducedU(y: int, p: int): int
    requires p > 0
  {
    (y * y % p - 1) % p
  }

  function ReducedV(y: int, d: int, p: int): int
    requires p > 0
  {
    (d * (y * y % p) + 1) % p
  }

  lemma ReducedAreCongruent(y: int, d: int, p: int)
    requires p > 0
    ensures Cong(ReducedU(y, p), y * y - 1, p) && Cong(ReducedV(y, d, p), d * (y * y) + 1, p)
  {
    var s := y * y % p;
    CongMod(y * y, p);
    CongSub(s, y * y, 1, 1, p);
    CongMod(s - 1, p);
    CongMulRight(s, y * y, d, p);
    CongSub(d * s, d * (y * y), -1, -1, p);
    CongMod(d * s + 1, p);
  }

  /** No y makes the denominator vanish together with the numerator. */
  lemma VanishingDenominator(x: int, y: int, d: int, p: int)
    requires p > 0 && (d + 1) % p != 0 && Cong(d * (y * y) + 1, 0, p)
    ensures !OnCurve(x, y, d, p)
  {
    assert d * (y * y) + 1 - d * (y * y - 1) == d + 1;
    if OnCurve(x, y, d, p) {
      CongMulRight(d * (y * y) + 1, 0, x * x, p);
      assert Cong(y * y - 1, 0, p);
      CongMulRight(y * y - 1, 0, d, p);
      CongSub(d * (y * y) + 1, 0, d * (y * y - 1), d * 0, p);
      assert false;
    }
  }

  /** Dividing by v: the curve equation is x^2 = u / v. */
  lemma Divided(t: int, u: int, v: int, inv: int, p: int)
    requires p > 1 && Cong(v * inv, 1, p) && Cong(t * v, u, p)
    ensures Cong(t, u * inv, p)
  {
    CongMulRight(t * v, u, inv, p);
    CongMulRight(v * inv, 1, t, p);
    assert t * v * inv == t * (v * inv);
  }

  lemma Multiplied(t: int, u: int, v: int, inv: int, p: int)
    requires p > 1 && Cong(v * inv, 1, p) && Cong(t, u * inv, p)
    ensures Cong(t * v, u, p)
  {
    CongMulRight(t, u * inv, v, p);
    CongMulRight(v * inv, 1, u, p);
    assert u * inv * v == u * (v * inv);
  }

  lemma DividedEquation(x: int, u: int, v: int, inv: int, p: int)
    requires p > 1 && Cong(v * inv, 1, p)
    ensures Cong(x * x * v, u, p) <==> Cong(x * x, u * inv % p, p)
  {
    CongMod(u * inv, p);
    if Cong(x * x * v, u, p) {
      Divided(x * x, u, v, inv, p);
    }
    if Cong(x * x, u * inv % p, p) {
      Multiplied(x * x, u, v, inv, p);
    }
  }

  lemma RootsOfZero(x: int, w: int, p: int)
    requires IsPrime(p) && IsRoot(x, w, p) && 0 <= w < p
    ensures x == 0 <==> w == 0
  {
    if w == 0 {
      PrimeDividesFactor(x, x, p);
    } else {
      SmallIsNotMultiple(w, p);
    }
    if x != 0 {
      SmallIsNotMultiple(x, p);
    }
  }

  /** A non-zero square has a root of either parity; zero only the even one. */
  lemma RootsOfBothParities(w: int, sign: int, p: int)
    requires IsPrime(p) && p % 2 == 1 && 0 <= w < p && (sign == 0 || sign == 1)
    ensures (exists x :: IsRoot(x, w, p) && x % 2 == sign)
            <==> (exists x :: IsRoot(x, w, p)) && !(w == 0 && sign == 1)
  {
    if x :| IsRoot(x, w, p) && x % 2 == sign {
      RootsOfZero(x, w, p);
    }
    if x :| IsRoot(x, w, p) {
      OtherRoot(x, w, sign, p);
    }
  }

  lemma OppositeParity(x: int, p: int)
    requires p % 2 == 1
    ensures (p - x) % 2 != x % 2
  {
  }

  /** Of a root and its negative, one has the wanted parity, unless the root is zero. */
  lemma OtherRoot(x: int, w: int, sign: int, p: int)
    requires IsPrime(p) && p % 2 == 1 && IsRoot(x, w, p) && 0 <= w < p && (sign == 0 || sign == 1)
    ensures !(w == 0 && sign == 1) ==> exists y :: IsRoot(y, w, p) && y % 2 == sign
  {
    RootsOfZero(x, w, p);
    if x != 0 {
      NegatedRoot(x, w, p);
    }
    hide IsPrime, IsRoot;
    OppositeParity(x, p);
    if x != 0 && x % 2 != sign {
      assert (p - x) % 2 == sign;
    }
  }

  lemma NegatedRoot(x: int, w: int, p: int)
    requires p > 0 && IsRoot(x, w, p) && x != 0
    ensures IsRoot(p - x, w, p)
  {
    SquareOfDifference(p, x);
    ModOfMultiple(p - 2 * x, x * x, p);
  }

  lemma SquareOfDifference(p: int, x: int)
    ensures (p - x) * (p - x) == (p - 2 * x) * p + x * x
  {
    assert (p - x) * (p - x) == (p - x) * p - (p - x) * x;
    assert (p - x) * x == p * x - x * x;
    assert (p - 2 * x) * p == (p - x) * p - x * p;
  }

  /** The value whose square root x would be. */
  function Quotient(y: int, d: int, p: int): int
    requires p > 1
  {
    ReducedU(y, p) * (Pow(ReducedV(y, d, p), p - 2) % p) % p
  }

  ghost predicate PassesCheck(y: int, sign: int, d: int, p: int)
    requires p > 1
  {
    && ReducedV(y, d, p) != 0
    && HasPowerOne(Quotient(y, d, p), p)
    && !(Quotient(y, d, p) == 0 && sign == 1)
  }

  lemma OnCurveIffRoot(x: int, y: int, d: int, p: int)
    requires IsPrime(p) && ReducedV(y, d, p) != 0
    ensures OnCurve(x, y, d, p) <==> Cong(x * x, Quotient(y, d, p), p)
  {
    var u, v := ReducedU(y, p), ReducedV(y, d, p);
    var inv := Pow(v, p - 2) % p;
    ReducedAreCongruent(y, d, p);
    SmallIsNotMultiple(v, p);
    PowerIsInverse(v, p);
    hide Pow;
    DividedEquation(x, u, v, inv, p);
    CongMulRight(v, d * (y * y) + 1, x * x, p);
  }

  /** For a prime that is 5 modulo 8, the check decides decompression, whatever y and sign are. */
  lemma CheckIsDecompression(y: int, sign: int, d: int, p: int)
    requires IsPrime(p) && p % 8 == 5 && (d + 1) % p != 0 && (sign == 0 || sign == 1)
    ensures PassesCheck(y, sign, d, p) <==> Decompresses(y, sign, d, p)
  {
    ReducedAreCongruent(y, d, p);
    if ReducedV(y, d, p) == 0 {
      forall x ensures !OnCurve(x, y, d, p) {
        VanishingDenominator(x, y, d, p);
      }
    } else {
      var w := Quotient(y, d, p);
      EulersCriterion(w, p);
      RootsOfBothParities(w, sign, p);
      forall x ensures OnCurve(x, y, d, p) <==> Cong(x * x, w, p) {
        OnCurveIffRoot(x, y, d, p);
      }
      hide OnCurve, Cong, Quotient, HasPowerOne, ReducedV;
      if Decompresses(y, sign, d, p) {
        var x :| 0 <= x < p && OnCurve(x, y, d, p) && x % 2 == sign;
        assert IsRoot(x, w, p);
      }
      if x :| IsRoot(x, w, p) && x % 2 == sign {
        assert OnCurve(x, y, d, p);
      }
    }
  }

  const TOP := 0x8000000000000000000000000000000000000000000000000000000000000000

  /** The sign bit of a 32-byte encoding, and its y: reduced, not rejected, when it is not below P. */
  function SignOf(bytes: seq<Byte>): int {
    LittleEndian(bytes) / TOP % 2
  }

  function YOf(bytes: seq<Byte>): int {
    LittleEndian(bytes) % TOP % P
  }

  /** Thirty-two bytes that decode to a curve point with a matching sign. */
  ghost predicate IsPoint(bytes: seq<Byte>) {
    |bytes| == 32 && Decompresses(YOf(bytes), SignOf(bytes), D, P)
  }

  method IsOnCurve(bytes: seq<Byte>) returns (r: bool)
    ensures IsPrime(P) ==> (r <==> IsPoint(bytes))
    ensures r <==> |bytes| == 32 && PassesCheck(YOf(bytes), SignOf(bytes), D, P)
  {
    if |bytes| != 32 {
      return false;
    }
    var y := 0;
    for i := 32 downto 0
      invariant y == LittleEndian(bytes[i..])
    {
      assert bytes[i..][1..] == bytes[i + 1..];
      y := y * 256 + bytes[i];
    }
    assert bytes[0..] == bytes;
    var signBit := y / TOP % 2;
    y := y % TOP % P;
    r := CheckPoint(y, signBit, D, P);
    CurveConstants();
    DecisionWhenPrime(y, signBit);
  }

  /** The curve's constants: P is 2^255 - 19 and d is -121665/121666. */
  lemma CurveConstants()
    ensures P == TOP - 19 && (D * 121666 + 121665) % P == 0
    ensures P > 1 && P % 8 == 5 && (D + 1) % P != 0
  {
  }

  lemma DecisionWhenPrime(y: int, sign: int)
    requires sign == 0 || sign == 1
    ensures IsPrime(P) ==> (PassesCheck(y, sign, D, P) <==> Decompresses(y, sign, D, P))
  {
    CurveConstants();
    hide IsPrime, PassesCheck, Decompresses;
    if IsPrime(P) {
      CheckIsDecompression(y, sign, D, P);
    }
  }

  method CheckPoint(y: int, signBit: int, d: int, p: int) returns (r: bool)
    requires p > 1
    ensures r <==> PassesCheck(y, signBit, d, p)
  {
    var ySquared := y * y % p;
    var u := (ySquared - 1) % p;
    var v := (d * ySquared + 1) % p;
    if v == 0 {
      return false;
    }
    var inverse := Inverse(v, p);
    var w := u * inverse % p;
    var square := IsSquare(w, p);
    if !square {
      return false;
    }
    if w == 0 && signBit == 1 {
      return false;
    }
    return true;
  }
}
