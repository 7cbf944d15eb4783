/**
 Fixed-width integer spaces (qy/std/numeric_spaces.py). Numbers are Python's unbounded
 integers; the bit operations of a space do not check their range, because they are meant to
 stay in it.
 */
module Numeric {
  import opened Wrappers

  datatype Space = Space(bits: nat, signed: bool)

  function Pow2(k: nat): nat { if k == 0 then 1 else 2 * Pow2(k - 1) }

  function Min(s: Space): int
    requires s.bits > 0
  {
    if s.signed then 0 - Pow2(s.bits - 1) else 0
  }

  function Max(s: Space): int
    requires s.bits > 0
  {
    if s.signed then Pow2(s.bits - 1) - 1 else Pow2(s.bits) - 1
  }

  predicate InSpace(s: Space, a: int)
    requires s.bits > 0
  {
    Min(s) <= a <= Max(s)
  }

  datatype Effect = Overflow | DivideByZero | NegativeShift

  function Checked(s: Space, a: int): Result<int, Effect>
    requires s.bits > 0
  {
    if InSpace(s, a) then Success(a) else Failure(Overflow)
  }

  function Abs(a: int): nat { if a < 0 then -a else a }

  // --- division ------------------------------------------------------------------------------

  /** `_trunc_quotient`. */
  function TruncQuotient(a: int, b: int): int
    requires b != 0
  {
    var quotient := Abs(a) / Abs(b);
    if (a < 0) != (b < 0) then -quotient else quotient
  }

  /** What `rem` computes. */
  function TruncRemainder(a: int, b: int): int
    requires b != 0
  {
    a - b * TruncQuotient(a, b)
  }

  /** `_integer_remainder` (qy/session/number_ops.py). */
  function SessionRemainder(a: int, b: int): int
    requires b != 0
  {
    var remainder := Abs(a) % Abs(b);
    if a < 0 then -remainder else remainder
  }

  lemma DivMod(a: nat, b: nat)
    requires b > 0
    ensures a == b * (a / b) + a % b && a % b < b
  {
  }

  /** A quotient is no larger than its dividend, and smaller when the divisor is not one. */
  lemma QuotientBound(a: nat, b: nat, q: int, r: nat)
    requires b > 0 && a == b * q + r && r < b
    ensures 0 <= q <= a && (b >= 2 && a > 0 ==> q < a) && (b == 1 ==> q == a)
  {
    if q < 0 {
      assert b * q <= b * -1 by { TimesKeepsOrder(b, q, -1); }
    }
    TimesKeepsOrder(q, 1, b);
    if b >= 2 { TimesKeepsOrder(q, 2, b); }
  }

  lemma TimesKeepsOrder(k: int, x: int, y: int)
    requires x <= y
    ensures k >= 0 ==> k * x <= k * y
  {
    if k >= 0 { assert k * (y - x) >= 0; }
  }

  /** The two remainders are one: smaller than the divisor, with the sign of the dividend. */
  lemma RemaindersAgree(a: int, b: int)
    requires b != 0
    ensures TruncRemainder(a, b) == SessionRemainder(a, b)
    ensures a == b * TruncQuotient(a, b) + TruncRemainder(a, b)
    ensures Abs(TruncRemainder(a, b)) < Abs(b)
    ensures TruncRemainder(a, b) == 0 || (TruncRemainder(a, b) < 0 <==> a < 0)
  {
    var x, y := Abs(a), Abs(b);
    DivMod(x, y);
    var q: int := x / y;
    var r: int := x % y;
    Signs(b, q);
    assert y * q == x - r;
  }

  lemma Signs(b: int, q: int)
    ensures b * (0 - q) == 0 - b * q && (0 - b) * q == 0 - b * q && (0 - b) * (0 - q) == b * q
  {
  }

  lemma {:induction false} Pow2Positive(k: nat)
    ensures Pow2(k) >= 1
  {
    if k > 0 { Pow2Positive(k - 1); }
  }

  /** The quotient of two members overflows at exactly one place. */
  lemma DivisionOverflows(s: Space, a: int, b: int)
    requires s.bits > 0 && InSpace(s, a) && InSpace(s, b) && b != 0
    ensures Checked(s, TruncQuotient(a, b)).Failure? <==> s.signed && a == Min(s) && b == -1
    ensures InSpace(s, TruncRemainder(a, b))
  {
    Pow2Positive(s.bits);
    if s.signed { Pow2Positive(s.bits - 1); }
    RemaindersAgree(a, b);
    DivMod(Abs(a), Abs(b));
    QuotientBound(Abs(a), Abs(b), Abs(a) / Abs(b), Abs(a) % Abs(b));
    var q, t, r := Abs(a) / Abs(b), TruncQuotient(a, b), TruncRemainder(a, b);
    assert t == if (a < 0) != (b < 0) then 0 - q else q;
    hide *;
    if s.signed {
      InSignedSpace(s, a);
      InSignedSpace(s, b);
      InSignedSpace(s, t);
      InSignedSpace(s, r);
      SignedQuotient(Pow2(s.bits - 1), a, b, q, t, r);
    } else {
      InUnsignedSpace(s, a);
      InUnsignedSpace(s, b);
      InUnsignedSpace(s, t);
      InUnsignedSpace(s, r);
      UnsignedQuotient(Pow2(s.bits), a, b, q, t, r);
    }
  }

  lemma InSignedSpace(s: Space, a: int)
    requires s.bits > 0 && s.signed
    ensures InSpace(s, a) <==> 0 - Pow2(s.bits - 1) <= a < Pow2(s.bits - 1)
    ensures Checked(s, a).Failure? <==> !InSpace(s, a)
    ensures a == Min(s) <==> a == 0 - Pow2(s.bits - 1)
  {
  }

  lemma InUnsignedSpace(s: Space, a: int)
    requires s.bits > 0 && !s.signed
    ensures InSpace(s, a) <==> 0 <= a < Pow2(s.bits)
    ensures Checked(s, a).Failure? <==> !InSpace(s, a)
  {
  }

  lemma SignedQuotient(p: int, a: int, b: int, q: int, t: int, r: int)
    requires p >= 1 && 0 - p <= a < p && 0 - p <= b < p && b != 0
    requires 0 <= q <= Abs(a) && (Abs(b) >= 2 && Abs(a) > 0 ==> q < Abs(a)) && (Abs(b) == 1 ==> q == Abs(a))
    requires t == if (a < 0) != (b < 0) then 0 - q else q
    requires Abs(r) < Abs(b)
    ensures !(0 - p <= t < p) <==> a == 0 - p && b == -1
    ensures 0 - p <= r < p
  {
  }

  lemma UnsignedQuotient(p: int, a: int, b: int, q: int, t: int, r: int)
    requires 0 <= a < p && 0 <= b < p && b != 0 && 0 <= q <= Abs(a)
    requires t == if (a < 0) != (b < 0) then 0 - q else q
    requires Abs(r) < Abs(b) && (r == 0 || (r < 0 <==> a < 0))
    ensures 0 <= t < p && 0 <= r < p
  {
  }

  // --- bits --------------------------------------------------------------------------------

  datatype BitOp = And | Or | Xor

  function OnBits(op: BitOp, x: int, y: int): int
    requires 0 <= x <= 1 && 0 <= y <= 1
  {
    match op
    case And => if x == 1 && y == 1 then 1 else 0
    case Or => if x == 1 || y == 1 then 1 else 0
    case Xor => if x != y then 1 else 0
  }

  /** How far a number is from having no digits left: 0 and -1 have none. */
  function Magnitude(a: int): nat { if a < 0 then -a - 1 else a }

  /** Python's `&`, `|` and `^` on integers of any size, with endless sign bits. */
  function Bitwise(op: BitOp, a: int, b: int): int
    decreases Magnitude(a) + Magnitude(b)
  {
    if Magnitude(a) == 0 && Magnitude(b) == 0 then 0 - OnBits(op, -a, -b)
    else 2 * Bitwise(op, a / 2, b / 2) + OnBits(op, a % 2, b % 2)
  }

  /** The `i`-th bit of a number, in two's complement. */
  function Bit(a: int, i: nat): int
    decreases i
  {
    if i == 0 then a % 2 else Bit(a / 2, i - 1)
  }

  lemma {:induction false} BitIsBit(a: int, i: nat)
    ensures 0 <= Bit(a, i) <= 1
    decreases i
  {
    if i > 0 { BitIsBit(a / 2, i - 1); }
  }

  /** The last bit of a result, and the rest of it. */
  lemma BitwiseStep(op: BitOp, a: int, b: int)
    ensures Bitwise(op, a, b) % 2 == OnBits(op, a % 2, b % 2)
    ensures Bitwise(op, a, b) / 2 == Bitwise(op, a / 2, b / 2)
  {
    Digits(op, a, b);
    var rest, last := Bitwise(op, a / 2, b / 2), OnBits(op, a % 2, b % 2);
    hide *;
    HalfOf(rest, last);
  }

  lemma Digits(op: BitOp, a: int, b: int)
    ensures 0 <= OnBits(op, a % 2, b % 2) <= 1
    ensures Bitwise(op, a, b) == 2 * Bitwise(op, a / 2, b / 2) + OnBits(op, a % 2, b % 2)
  {
    if Magnitude(a) == 0 && Magnitude(b) == 0 {
      SignsOnly(a);
      SignsOnly(b);
      NoDigits(a);
      NoDigits(b);
    }
  }

  lemma SignsOnly(a: int)
    requires Magnitude(a) == 0
    ensures a == 0 || a == -1
  {
  }

  lemma NoDigits(a: int)
    requires a == 0 || a == -1
    ensures a / 2 == a && a % 2 == -a
  {
  }

  lemma HalfOf(x: int, c: int)
    requires 0 <= c <= 1
    ensures (2 * x + c) / 2 == x && (2 * x + c) % 2 == c
  {
  }

  /** Bit operations work on each bit. */
  lemma {:induction false} BitwiseAt(op: BitOp, a: int, b: int, i: nat)
    ensures 0 <= Bit(a, i) <= 1 && 0 <= Bit(b, i) <= 1
    ensures Bit(Bitwise(op, a, b), i) == OnBits(op, Bit(a, i), Bit(b, i))
    decreases i
  {
    BitIsBit(a, i);
    BitIsBit(b, i);
    BitwiseStep(op, a, b);
    hide Bitwise, OnBits;
    if i > 0 { BitwiseAt(op, a / 2, b / 2, i - 1); }
  }

  /** Two different numbers differ in some bit, so the bits say all there is to a result. */
  lemma {:induction false} DifferentBit(a: int, b: int) returns (i: nat)
    requires a != b
    ensures Bit(a, i) != Bit(b, i)
    decreases Magnitude(a) + Magnitude(b)
  {
    if a % 2 != b % 2 { return 0; }
    i := DifferentBit(a / 2, b / 2);
    i := i + 1;
  }

  lemma {:induction false} BitwiseSigned(op: BitOp, a: int, b: int, k: nat)
    requires 0 - Pow2(k) <= a < Pow2(k) && 0 - Pow2(k) <= b < Pow2(k)
    ensures 0 - Pow2(k) <= Bitwise(op, a, b) < Pow2(k)
    decreases k
  {
    if k > 0 { BitwiseSigned(op, a / 2, b / 2, k - 1); }
  }

  lemma {:induction false} BitwiseUnsigned(op: BitOp, a: int, b: int, k: nat)
    requires 0 <= a < Pow2(k) && 0 <= b < Pow2(k)
    ensures 0 <= Bitwise(op, a, b) < Pow2(k)
    decreases k
  {
    if k > 0 { BitwiseUnsigned(op, a / 2, b / 2, k - 1); }
  }

  /** The unchecked bit operations stay in their space. */
  lemma BitwiseStays(s: Space, op: BitOp, a: int, b: int)
    requires s.bits > 0 && InSpace(s, a) && InSpace(s, b)
    ensures InSpace(s, Bitwise(op, a, b))
  {
    hide Bitwise, Pow2;
    if s.signed { BitwiseSigned(op, a, b, s.bits - 1); } else { BitwiseUnsigned(op, a, b, s.bits); }
  }

  // --- complement --------------------------------------------------------------------------

  /** `_bit_not`: complement, mask, and back to a negative number where the top bit is set. */
  function BitNot(s: Space, a: int): int
    requires s.bits > 0
  {
    var result := Bitwise(And, -a - 1, Pow2(s.bits) - 1);
    if s.signed && result >= Pow2(s.bits - 1) then result - Pow2(s.bits) else result
  }

  lemma {:induction false} MaskIsModulo(a: int, k: nat)
    ensures Bitwise(And, a, Pow2(k) - 1) == a % Pow2Nat(k)
    decreases k
  {
    Pow2Positive(k);
    if k == 0 {
      AndZero(a);
    } else {
      Pow2Positive(k - 1);
      var m := Pow2(k - 1);
      assert Pow2(k) == 2 * m && Pow2Nat(k) == 2 * m && Pow2Nat(k - 1) == m;
      MaskIsModulo(a / 2, k - 1);
      Digits(And, a, 2 * m - 1);
      KeptBit(a % 2);
      hide *;
      HalfModulo(a, m);
      assert 2 * m - 1 == 2 * (m - 1) + 1;
      HalfOf(m - 1, 1);
    }
  }

  lemma KeptBit(x: int)
    requires 0 <= x <= 1
    ensures OnBits(And, x, 1) == x
  {
  }

  lemma {:induction false} AndZero(a: int)
    ensures Bitwise(And, a, 0) == 0
    decreases Magnitude(a)
  {
    if Magnitude(a) > 0 { AndZero(a / 2); }
  }

  lemma HalfModulo(a: int, m: int)
    requires m >= 1
    ensures a % (2 * m) == 2 * (a / 2 % m) + a % 2
  {
    var q, r := a / 2 / m, a / 2 % m;
    assert a == 2 * (m * q + r) + a % 2;
    assert a == (2 * m) * q + (2 * r + a % 2) by { assert 2 * (m * q) == (2 * m) * q; }
    ModuloIs(a, 2 * m, q, 2 * r + a % 2);
  }

  lemma ModuloIs(a: int, m: int, q: int, r: int)
    requires m > 0 && a == m * q + r && 0 <= r < m
    ensures a % m == r
  {
    var d := a / m - q;
    assert m * d == r - a % m;
    if d >= 1 { TimesKeepsOrder(m, 1, d); }
    if d <= -1 { TimesKeepsOrder(m, d, -1); }
  }

  /** Complement: one off the negation in a signed space, from the top in an unsigned one. */
  lemma BitNotIs(s: Space, a: int)
    requires s.bits > 0 && InSpace(s, a)
    ensures BitNot(s, a) == if s.signed then -a - 1 else Max(s) - a
    ensures InSpace(s, BitNot(s, a)) && BitNot(s, BitNot(s, a)) == a
  {
    Complemented(s, a);
    Complemented(s, if s.signed then -a - 1 else Max(s) - a);
  }

  lemma Complemented(s: Space, a: int)
    requires s.bits > 0 && InSpace(s, a)
    ensures BitNot(s, a) == if s.signed then -a - 1 else Max(s) - a
  {
    var p := Pow2(s.bits);
    Pow2Positive(s.bits - 1);
    MaskIsModulo(-a - 1, s.bits);
    assert p == 2 * Pow2(s.bits - 1);
    hide Bitwise, Pow2;
    if a >= 0 {
      ModuloIs(-a - 1, p, -1, p - a - 1);
    } else {
      ModuloIs(-a - 1, p, 0, -a - 1);
    }
  }

  lemma {:induction false} ComplementBit(a: int, i: nat)
    ensures Bit(-a - 1, i) == 1 - Bit(a, i)
    decreases i
  {
    assert (-a - 1) / 2 == -(a / 2) - 1 && (-a - 1) % 2 == 1 - a % 2;
    if i > 0 { ComplementBit(a / 2, i - 1); }
  }

  /** De Morgan, first on unbounded integers: no bit tells the two sides apart. */
  lemma ComplementSwaps(a: int, b: int)
    ensures Bitwise(Or, -a - 1, -b - 1) == 0 - Bitwise(And, a, b) - 1
  {
    hide Bitwise;
    var x, y := Bitwise(Or, -a - 1, -b - 1), -Bitwise(And, a, b) - 1;
    if x != y {
      var i := DifferentBit(x, y);
      BitwiseAt(Or, -a - 1, -b - 1, i);
      BitwiseAt(And, a, b, i);
      ComplementBit(a, i);
      ComplementBit(b, i);
      ComplementBit(Bitwise(And, a, b), i);
    }
  }

  lemma MirrorHalf(m: int, a: int)
    ensures (2 * m - 1 - a) / 2 == m - 1 - a / 2 && (2 * m - 1 - a) % 2 == 1 - a % 2
  {
  }

  lemma HalfBelow(a: int, m: int)
    requires 0 <= a < 2 * m
    ensures 0 <= a / 2 < m
  {
  }

  lemma {:induction false} MirrorBit(a: int, k: nat, i: nat)
    requires 0 <= a < Pow2(k)
    ensures Bit(Pow2(k) - 1 - a, i) == if i < k then 1 - Bit(a, i) else 0
    ensures i >= k ==> Bit(a, i) == 0
    decreases i
  {
    if k == 0 {
      ZeroBit(i);
    } else {
      var m := Pow2(k - 1);
      HalfBelow(a, m);
      MirrorHalf(m, a);
      if i > 0 { MirrorBit(a / 2, k - 1, i - 1); }
    }
  }

  lemma {:induction false} ZeroBit(i: nat)
    ensures Bit(0, i) == 0
    decreases i
  {
    if i > 0 { ZeroBit(i - 1); }
  }

  lemma SwappedBits(x: int, y: int)
    requires 0 <= x <= 1 && 0 <= y <= 1
    ensures OnBits(Or, 1 - x, 1 - y) == 1 - OnBits(And, x, y) && OnBits(Or, 0, 0) == 0
  {
  }

  /** De Morgan on the low `k` bits. */
  lemma MirrorSwaps(a: int, b: int, k: nat)
    requires 0 <= a < Pow2(k) && 0 <= b < Pow2(k)
    ensures Bitwise(Or, Pow2(k) - 1 - a, Pow2(k) - 1 - b) == Pow2(k) - 1 - Bitwise(And, a, b)
  {
    hide *;
    BitwiseUnsigned(And, a, b, k);
    var x, y := Bitwise(Or, Pow2(k) - 1 - a, Pow2(k) - 1 - b), Pow2(k) - 1 - Bitwise(And, a, b);
    if x != y {
      var i := DifferentBit(x, y);
      BitwiseAt(Or, Pow2(k) - 1 - a, Pow2(k) - 1 - b, i);
      BitwiseAt(And, a, b, i);
      MirrorBit(a, k, i);
      MirrorBit(b, k, i);
      MirrorBit(Bitwise(And, a, b), k, i);
      SwappedBits(Bit(a, i), Bit(b, i));
    }
  }

  /** De Morgan's law in every space. */
  lemma DeMorgan(s: Space, a: int, b: int)
    requires s.bits > 0 && InSpace(s, a) && InSpace(s, b)
    ensures BitNot(s, Bitwise(And, a, b)) == Bitwise(Or, BitNot(s, a), BitNot(s, b))
  {
    hide Bitwise, Pow2, BitNot;
    BitwiseStays(s, And, a, b);
    BitNotIs(s, a);
    BitNotIs(s, b);
    BitNotIs(s, Bitwise(And, a, b));
    if s.signed { ComplementSwaps(a, b); } else { MirrorSwaps(a, b, s.bits); }
  }

  // --- shifts --------------------------------------------------------------------------------

  function Pow2Nat(n: nat): (p: int)
    ensures p == Pow2(n) && p >= 1
  {
    Pow2Positive(n);
    Pow2(n)
  }

  /** A right shift by `n` places: Python's floor, for either sign. */
  function ShiftRight(a: int, n: nat): int { a / Pow2Nat(n) }

  lemma QuotientIs(a: int, m: int, q: int, r: int)
    requires m > 0 && a == m * q + r && 0 <= r < m
    ensures a / m == q
  {
    var d := a / m - q;
    assert m * d == r - a % m;
    if d >= 1 { TimesKeepsOrder(m, 1, d); }
    if d <= -1 { TimesKeepsOrder(m, d, -1); }
  }

  lemma FloorBounds(a: int, p: int)
    requires p >= 1
    ensures if a >= 0 then 0 <= a / p <= a else a <= a / p <= -1
  {
    if a >= 0 {
      DivMod(a, p);
      QuotientBound(a, p, a / p, a % p);
    } else {
      var mirror := -a - 1;
      DivMod(mirror, p);
      var q, r: int := mirror / p, mirror % p;
      QuotientBound(mirror, p, q, r);
      Signs(p, q + 1);
      assert p * (q + 1) == p * q + p;
      QuotientIs(a, p, 0 - (q + 1), p - 1 - r);
    }
  }

  /** The unchecked right shift stays in its space, by any number of places. */
  lemma ShiftStays(s: Space, a: int, n: nat)
    requires s.bits > 0 && InSpace(s, a)
    ensures InSpace(s, ShiftRight(a, n))
  {
    FloorBounds(a, Pow2Nat(n));
    hide Pow2;
  }

  /** `_shr`: no range check. Python refuses a negative number of places. */
  method ShiftRightBy(s: Space, a: int, places: int) returns (r: Result<int, Effect>)
    requires s.bits > 0 && InSpace(s, a)
    ensures r.Failure? <==> places < 0
    ensures r.Failure? ==> r.error == NegativeShift
    ensures r.Success? ==> r.value == ShiftRight(a, places) && InSpace(s, r.value)
  {
    if places < 0 { return Failure(NegativeShift); }
    ShiftStays(s, a, places);
    return Success(ShiftRight(a, places));
  }

  // --- the operators as written -----------------------------------------------------------------

  /** The value of an operation without arguments. */
  function Neutral(op: BitOp): int { if op == And then -1 else 0 }

  function Folded(op: BitOp, args: seq<int>): int {
    if args == [] then Neutral(op)
    else if |args| == 1 then args[0]
    else Bitwise(op, Folded(op, args[..|args| - 1]), args[|args| - 1])
  }

  /** `_bit_and`, `_bit_or` and `_bit_xor`: no range check, and none is needed as long as there
      is an argument or the space is signed or the operation is not `bit-and`. */
  method BitOperation(s: Space, op: BitOp, args: seq<int>) returns (r: int)
    requires s.bits > 0 && forall k :: 0 <= k < |args| ==> InSpace(s, args[k])
    ensures r == Folded(op, args)
    ensures InSpace(s, r) <==> args != [] || s.signed || op != And
  {
    Pow2Positive(s.bits);
    Pow2Positive(s.bits - 1);
    if |args| == 0 { return Neutral(op); }
    r := args[0];
    assert args[..1] == [args[0]];
    for k := 1 to |args|
      invariant r == Folded(op, args[..k]) && InSpace(s, r)
    {
      assert args[..k + 1][..k] == args[..k];
      BitwiseStays(s, op, r, args[k]);
      r := Bitwise(op, r, args[k]);
    }
    assert args[..|args|] == args;
  }

  /** The running quotient of `/`, unchecked on the way. */
  function Quotients(first: int, rest: seq<int>): int
    requires forall k :: 0 <= k < |rest| ==> rest[k] != 0
  {
    if rest == [] then first else TruncQuotient(Quotients(first, rest[..|rest| - 1]), rest[|rest| - 1])
  }

  /** `_div`. The reciprocal rounds down, the quotient of several numbers towards zero. */
  method Divide(s: Space, first: int, rest: seq<int>) returns (r: Result<int, Effect>)
    requires s.bits > 0
    ensures (exists k :: 0 <= k < |rest| && rest[k] == 0) || (rest == [] && first == 0) ==> r == Failure(DivideByZero)
    ensures rest == [] && first != 0 ==> r == Checked(s, if first == 1 then 1 else if first > 0 then 0 else -1)
    ensures rest != [] && (forall k :: 0 <= k < |rest| ==> rest[k] != 0) ==> r == Checked(s, Quotients(first, rest))
  {
    if |rest| == 0 {
      if first == 0 { return Failure(DivideByZero); }
      Reciprocal(first);
      return Checked(s, FloorQuotient(1, first));
    }
    var result := first;
    for k := 0 to |rest|
      invariant forall i :: 0 <= i < k ==> rest[i] != 0
      invariant result == Quotients(first, rest[..k])
    {
      var divisor := rest[k];
      if divisor == 0 { return Failure(DivideByZero); }
      assert rest[..k + 1][..k] == rest[..k];
      result := TruncQuotient(result, divisor);
    }
    assert rest[..|rest|] == rest;
    return Checked(s, result);
  }

  /** Python's `//`. */
  function FloorQuotient(a: int, b: int): int
    requires b != 0
  {
    if b > 0 then a / b else (0 - a) / (0 - b)
  }

  lemma Reciprocal(b: int)
    requires b != 0
    ensures FloorQuotient(1, b) == if b == 1 then 1 else if b > 0 then 0 else -1
  {
    if b > 1 {
      QuotientIs(1, b, 0, 1);
    } else if b < 0 {
      QuotientIs(-1, 0 - b, -1, 0 - b - 1);
    }
  }

  /** Dividing one by a number and taking its reciprocal differ for all numbers below -1. */
  lemma ReciprocalIsNotTruncated(b: int)
    requires b != 0
    ensures FloorQuotient(1, b) == TruncQuotient(1, b) <==> b >= -1
  {
    Reciprocal(b);
    if b > 1 { QuotientIs(1, b, 0, 1); }
    if b < -1 { QuotientIs(1, 0 - b, 0, 1); }
  }

  method Remainder(s: Space, a: int, b: int) returns (r: Result<int, Effect>)
    requires s.bits > 0 && InSpace(s, a) && InSpace(s, b)
    ensures r == if b == 0 then Failure(DivideByZero) else Success(SessionRemainder(a, b))
  {
    if b == 0 { return Failure(DivideByZero); }
    RemaindersAgree(a, b);
    DivisionOverflows(s, a, b);
    return Checked(s, a - b * TruncQuotient(a, b));
  }
}
