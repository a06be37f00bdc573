/** The user-variable instruction of `src/bin/play.rs` (lines 173-204): one
    operation of `i16` arithmetic, bit logic or comparison between a track
    variable and an immediate. Rust's debug-build checks are kept: an
    arithmetic overflow, a division by zero and an oversized shift stop the
    player, and each is a `Fault` here. */
module PlayUser {
  import opened Common
  import opened Instructions
  import opened PlayEvents

  /** What one operation does to the track: write the variable, set the
      comparison flag, or nothing. */
  datatype Effect = SetVariable(value: i16) | SetFlag(flag: bool) | NoEffect

  predicate InI16(x: int)
  {
    -0x8000 <= x < 0x8000
  }

  /** A checked `i16` result: the value if it fits, the overflow panic
      otherwise. */
  function Checked(x: int): (r: Result<Effect, Fault>)
    ensures r.Success? <==> InI16(x)
    ensures r.Success? ==> r.value == SetVariable(x)
    ensures r.Failure? ==> r.error == ArithmeticOverflow
  {
    if InI16(x) then Success(SetVariable(x)) else Failure(ArithmeticOverflow)
  }

  function Abs(x: int): nat
  {
    if x < 0 then -x else x
  }

  /** Rust's `/` on integers: the quotient rounded toward zero. */
  function TruncDiv(a: int, b: int): int
    requires b != 0
  {
    if (a < 0) == (b < 0) then Abs(a) / Abs(b) else -(Abs(a) / Abs(b))
  }

  /** Rust's `%` on integers: the remainder of `TruncDiv`, with the sign of
      the dividend. */
  function TruncRem(a: int, b: int): int
    requires b != 0
  {
    a - b * TruncDiv(a, b)
  }

  /** The quotient and remainder of a truncating division recombine to the
      dividend; the remainder is smaller than the divisor in magnitude and is
      zero or has the dividend's sign; the quotient is never larger in
      magnitude than the dividend. */
  lemma TruncDivRem(a: int, b: int)
    requires b != 0
    ensures a == b * TruncDiv(a, b) + TruncRem(a, b)
    ensures Abs(TruncRem(a, b)) < Abs(b)
    ensures TruncRem(a, b) == 0 || ((TruncRem(a, b) < 0) <==> (a < 0))
    ensures Abs(TruncDiv(a, b)) <= Abs(a)
  {
    var q := Abs(a) / Abs(b);
    var m := Abs(a) % Abs(b);
    assert Abs(a) == Abs(b) * q + m;
    QuotientBound(Abs(a), Abs(b), q, m);
    SignedProduct(a, b, q, Abs(b) * q);
    assert TruncRem(a, b) == if a < 0 then -m else m;
  }

  /** The divisor times the signed quotient has the dividend's sign. */
  lemma SignedProduct(a: int, b: int, q: int, p: int)
    requires b != 0 && q >= 0 && p == Abs(b) * q
    ensures b * (if (a < 0) == (b < 0) then q else -q) == if a < 0 then -p else p
  {
    if b < 0 {
      assert b * q == -p;
      assert b * -q == p;
    } else {
      assert b * -q == -p;
    }
  }

  lemma QuotientBound(x: nat, y: nat, q: nat, m: nat)
    requires y >= 1 && x == y * q + m
    ensures q <= x
  {
    assert y * q >= q by {
      assert y * q == (y - 1) * q + q;
      assert (y - 1) * q >= 0;
    }
  }

  /** A division or remainder of `i16` values overflows only for
      `i16::MIN / -1`. */
  lemma TruncDivFits(a: i16, b: i16)
    requires b != 0 && !(a == -0x8000 && b == -1)
    ensures InI16(TruncDiv(a, b)) && InI16(TruncRem(a, b))
  {
    TruncDivRem(a, b);
    if a == -0x8000 && b < -1 {
      var q := Abs(a) / Abs(b);
      QuotientHalf(Abs(a), Abs(b));
    }
  }

  lemma QuotientHalf(x: nat, y: nat)
    requires y >= 2
    ensures x / y <= x / 2
  {
    var q := x / y;
    assert x == y * q + x % y;
    assert y * q >= 2 * q by {
      assert y * q == (y - 2) * q + 2 * q;
      assert (y - 2) * q >= 0;
    }
  }

  function Pow2(k: nat): (r: nat)
    ensures r >= 1
  {
    if k == 0 then 1 else 2 * Pow2(k - 1)
  }

  /** `v >> k` on an `i16`: the arithmetic shift, one bit at a time. */
  function ShiftRight(v: i16, k: nat): i16
  {
    if k == 0 then v else ShiftRight(v, k - 1) / 2
  }

  /** Shifting right by `k` rounds `v / 2^k` down. */
  lemma {:induction false} ShiftRightFloor(v: i16, k: nat)
    ensures ShiftRight(v, k) * Pow2(k) <= v < (ShiftRight(v, k) + 1) * Pow2(k)
  {
    if k > 0 {
      ShiftRightFloor(v, k - 1);
      FloorHalf(v, ShiftRight(v, k - 1), ShiftRight(v, k), Pow2(k - 1));
    }
  }

  /** Halving a floor quotient gives the floor quotient by twice the
      divisor. */
  lemma FloorHalf(v: int, r0: int, r: int, p0: int)
    requires p0 >= 1 && r0 * p0 <= v < (r0 + 1) * p0 && r == r0 / 2
    ensures r * (2 * p0) <= v < (r + 1) * (2 * p0)
  {
    assert 2 * r <= r0 <= 2 * r + 1;
    MulLe(2 * r, r0, p0);
    MulLe(r0 + 1, 2 * r + 2, p0);
    assert r * (2 * p0) == (2 * r) * p0;
    assert (r + 1) * (2 * p0) == (2 * r + 2) * p0;
  }

  lemma MulLe(a: int, b: int, c: int)
    requires a <= b && c >= 0
    ensures a * c <= b * c
  {
    assert b * c - a * c == (b - a) * c;
  }

  /** The `i16` whose two's-complement bits are the low 16 bits of `x`. */
  function Wrap(x: int): (r: i16)
    ensures (r - x) % 0x1_0000 == 0
    ensures InI16(x) ==> r == x
  {
    (x + 0x8000) % 0x1_0000 - 0x8000
  }

  /** The two's-complement bits of an `i16`, read as an unsigned number. */
  function Unsigned(v: i16): (r: nat)
    ensures r < 0x1_0000
  {
    if v < 0 then v + 0x1_0000 else v
  }

  /** The `i16` with the given 16 bits. */
  function Signed(u: nat): i16
    requires u < 0x1_0000
  {
    if u < 0x8000 then u else u - 0x1_0000
  }

  /** The two readings of 16 bits are inverse. */
  lemma SignedUnsigned(v: i16, u: nat)
    requires u < 0x1_0000
    ensures Signed(Unsigned(v)) == v
    ensures Unsigned(Signed(u)) == u
  {
  }

  /** Bitwise `and`, `or`, `xor` and complement of the low `n` bits, lowest
      bit first. */
  function BitAnd(x: nat, y: nat, n: nat): (r: nat)
    ensures r < Pow2(n)
  {
    if n == 0 then 0 else 2 * BitAnd(x / 2, y / 2, n - 1) + (if x % 2 == 1 && y % 2 == 1 then 1 else 0)
  }

  function BitOr(x: nat, y: nat, n: nat): (r: nat)
    ensures r < Pow2(n)
  {
    if n == 0 then 0 else 2 * BitOr(x / 2, y / 2, n - 1) + (if x % 2 == 1 || y % 2 == 1 then 1 else 0)
  }

  function BitXor(x: nat, y: nat, n: nat): (r: nat)
    ensures r < Pow2(n)
  {
    if n == 0 then 0 else 2 * BitXor(x / 2, y / 2, n - 1) + (if x % 2 != y % 2 then 1 else 0)
  }

  function BitNot(x: nat, n: nat): (r: nat)
    ensures r < Pow2(n)
  {
    if n == 0 then 0 else 2 * BitNot(x / 2, n - 1) + (1 - x % 2)
  }

  lemma Pow2Sixteen()
    ensures Pow2(16) == 0x1_0000
  {
    assert Pow2(4) == 16 by {
      assert Pow2(1) == 2;
      assert Pow2(2) == 4;
      assert Pow2(3) == 8;
    }
    assert Pow2(8) == 256 by {
      assert Pow2(5) == 32;
      assert Pow2(6) == 64;
      assert Pow2(7) == 128;
    }
    assert Pow2(12) == 4096 by {
      assert Pow2(9) == 512;
      assert Pow2(10) == 1024;
      assert Pow2(11) == 2048;
    }
    assert Pow2(13) == 8192;
    assert Pow2(14) == 16384;
    assert Pow2(15) == 32768;
  }

  /** The 16-bit operations on `i16` values. */
  function I16And(v: i16, w: i16): i16
  {
    Pow2Sixteen();
    Signed(BitAnd(Unsigned(v), Unsigned(w), 16))
  }

  function I16Or(v: i16, w: i16): i16
  {
    Pow2Sixteen();
    Signed(BitOr(Unsigned(v), Unsigned(w), 16))
  }

  function I16Xor(v: i16, w: i16): i16
  {
    Pow2Sixteen();
    Signed(BitXor(Unsigned(v), Unsigned(w), 16))
  }

  function I16Not(v: i16): i16
  {
    Pow2Sixteen();
    Signed(BitNot(Unsigned(v), 16))
  }

  /** The complement of an `n`-bit number is `2^n - 1` minus it. */
  lemma {:induction false} BitNotIs(x: nat, n: nat)
    requires x < Pow2(n)
    ensures BitNot(x, n) == Pow2(n) - 1 - x
  {
    if n > 0 {
      BitNotIs(x / 2, n - 1);
    }
  }

  /** `xor` with the same bits twice gives back the low `n` bits. */
  lemma {:induction false} BitXorTwice(x: nat, y: nat, n: nat)
    requires x < Pow2(n)
    ensures BitXor(BitXor(x, y, n), y, n) == x
  {
    if n > 0 {
      var z := BitXor(x / 2, y / 2, n - 1);
      var b := if x % 2 != y % 2 then 1 else 0;
      assert (2 * z + b) / 2 == z && (2 * z + b) % 2 == b;
      BitXorTwice(x / 2, y / 2, n - 1);
    }
  }

  lemma {:induction false} BitAndComm(x: nat, y: nat, n: nat)
    ensures BitAnd(x, y, n) == BitAnd(y, x, n)
  {
    if n > 0 {
      BitAndComm(x / 2, y / 2, n - 1);
    }
  }

  /** `and` with all ones keeps the low `n` bits; `or` with all ones gives all
      ones. */
  lemma {:induction false} BitOnes(x: nat, n: nat)
    requires x < Pow2(n)
    ensures BitAnd(x, Pow2(n) - 1, n) == x
    ensures BitOr(x, Pow2(n) - 1, n) == Pow2(n) - 1
  {
    if n > 0 {
      assert (Pow2(n) - 1) / 2 == Pow2(n - 1) - 1 && (Pow2(n) - 1) % 2 == 1;
      BitOnes(x / 2, n - 1);
    }
  }

  /** The right-hand comparison of each `Cmp` operation, as the flag should
      be set. */
  function Compare(op: UserOp, v: i16, imm: i16): bool
  {
    match op
    case CmpEq => v == imm
    case CmpGe => v >= imm
    case CmpGt => v > imm
    case CmpLe => v <= imm
    case CmpLt => v < imm
    case CmpNe => v != imm
    case _ => false
  }

  predicate IsCompare(op: UserOp)
  {
    op.CmpEq? || op.CmpGe? || op.CmpGt? || op.CmpLe? || op.CmpLt? || op.CmpNe?
  }

  /** The six comparisons are the three pairs of negations of each other,
      and strict and non-strict agree except on equal values. */
  lemma CompareDuals(v: i16, imm: i16)
    ensures Compare(CmpEq, v, imm) != Compare(CmpNe, v, imm)
    ensures Compare(CmpGt, v, imm) != Compare(CmpLe, v, imm)
    ensures Compare(CmpLt, v, imm) != Compare(CmpGe, v, imm)
    ensures Compare(CmpGe, v, imm) <==> Compare(CmpGt, v, imm) || Compare(CmpEq, v, imm)
    ensures Compare(CmpGt, v, imm) <==> Compare(CmpLt, imm, v)
  {
  }

  /** The match of lines 175-203 on the variable's value `v`. */
  function Apply(op: UserOp, v: i16, imm: i16): Result<Effect, Fault>
  {
    match op
    case Set => Success(SetVariable(imm))
    case Add => Checked(v + imm)
    case Sub => Checked(v - imm)
    case Mul => Checked(v * imm)
    case Div => if imm == 0 then Failure(DivisionByZero) else Checked(TruncDiv(v, imm))
    case Mod =>
      if imm == 0 then Failure(DivisionByZero)
      else if v == -0x8000 && imm == -1 then Failure(ArithmeticOverflow)
      else Checked(TruncRem(v, imm))
    case Shift =>
      if imm < 0 then
        if imm == -0x8000 then Failure(ArithmeticOverflow)
        else if -imm >= 16 then Failure(ShiftOverflow)
        else Success(SetVariable(ShiftRight(v, -imm)))
      else if imm >= 16 then Failure(ShiftOverflow)
      else Success(SetVariable(Wrap(v * Pow2(imm))))
    case Rand => Success(SetVariable(4))
    case And => Success(SetVariable(I16And(v, imm)))
    case Or => Success(SetVariable(I16Or(v, imm)))
    case Xor => Success(SetVariable(I16Xor(v, imm)))
    case Not => Success(SetVariable(I16Not(v)))
    case User => Success(NoEffect)
    case _ => Success(SetFlag(Compare(op, v, imm)))
  }

  /** The arithmetic operations compute the exact mathematical result and
      fail exactly when it does not fit in an `i16`; division and remainder
      round toward zero and fail on a zero divisor. */
  lemma ApplyArithmetic(v: i16, imm: i16)
    ensures Apply(Add, v, imm).Success? <==> InI16(v + imm)
    ensures Apply(Add, v, imm).Success? ==> Apply(Add, v, imm).value == SetVariable(v + imm)
    ensures Apply(Sub, v, imm).Success? <==> InI16(v - imm)
    ensures Apply(Sub, v, imm).Success? ==> Apply(Sub, v, imm).value == SetVariable(v - imm)
    ensures Apply(Mul, v, imm).Success? <==> InI16(v * imm)
    ensures Apply(Mul, v, imm).Success? ==> Apply(Mul, v, imm).value == SetVariable(v * imm)
    ensures Apply(Div, v, imm) == Failure(DivisionByZero) <==> imm == 0
    ensures Apply(Mod, v, imm) == Failure(DivisionByZero) <==> imm == 0
  {
  }

  /** Division and remainder succeed on every nonzero divisor except
      `i16::MIN` by `-1`; then the quotient times the divisor plus the
      remainder is the variable, and the remainder is smaller in magnitude
      than the divisor. */
  lemma ApplyDivision(v: i16, imm: i16)
    requires imm != 0
    ensures Apply(Div, v, imm).Success? <==> !(v == -0x8000 && imm == -1)
    ensures Apply(Mod, v, imm).Success? <==> !(v == -0x8000 && imm == -1)
    ensures Apply(Div, v, imm).Success? ==>
      Apply(Div, v, imm).value.SetVariable? && Apply(Mod, v, imm).value.SetVariable? &&
      v == imm * Apply(Div, v, imm).value.value + Apply(Mod, v, imm).value.value &&
      Abs(Apply(Mod, v, imm).value.value) < Abs(imm)
  {
    if v == -0x8000 && imm == -1 {
      assert TruncDiv(v, imm) == 0x8000;
    } else {
      TruncDivFits(v, imm);
      TruncDivRem(v, imm);
    }
  }

  /** A negative immediate shifts right arithmetically: the result is the
      floor of `v / 2^k`. A non-negative one shifts left, dropping the bits
      shifted out of 16: the result agrees with `v * 2^k` modulo 2^16, and
      equals it when that fits. Shift amounts of 16 or more fail. */
  lemma ApplyShift(v: i16, imm: i16)
    ensures Apply(Shift, v, imm).Failure? <==> imm <= -16 || imm >= 16
    ensures -16 < imm < 0 ==>
      var r := Apply(Shift, v, imm).value.value;
      r * Pow2(-imm) <= v < (r + 1) * Pow2(-imm)
    ensures 0 <= imm < 16 ==>
      var r := Apply(Shift, v, imm).value.value;
      (r - v * Pow2(imm)) % 0x1_0000 == 0 && (InI16(v * Pow2(imm)) ==> r == v * Pow2(imm))
  {
    if -16 < imm < 0 {
      ShiftRightFloor(v, -imm);
    }
  }

  /** `!v` is `-v - 1`. */
  lemma ApplyNot(v: i16, imm: i16)
    ensures Apply(Not, v, imm).Success? && Apply(Not, v, imm).value.SetVariable?
    ensures Apply(Not, v, imm).value.value == -(v as int) - 1
  {
    Pow2Sixteen();
    BitNotIs(Unsigned(v), 16);
  }

  /** `xor` with the same immediate twice restores the variable. */
  lemma ApplyXorTwice(v: i16, imm: i16)
    ensures Apply(Xor, I16Xor(v, imm), imm) == Success(SetVariable(v))
  {
    Pow2Sixteen();
    var x := BitXor(Unsigned(v), Unsigned(imm), 16);
    SignedUnsigned(v, x);
    BitXorTwice(Unsigned(v), Unsigned(imm), 16);
  }

  /** `and` is symmetric; all ones (`-1`) is the identity of `and` and
      absorbs `or`. */
  lemma ApplyAndOr(v: i16, imm: i16)
    ensures Apply(And, v, imm) == Apply(And, imm, v)
    ensures Apply(Or, v, -1) == Success(SetVariable(-1))
    ensures Apply(And, v, -1) == Success(SetVariable(v))
  {
    Pow2Sixteen();
    BitAndComm(Unsigned(v), Unsigned(imm), 16);
    BitOnes(Unsigned(v), 16);
  }

  /** The comparisons only set the flag, `Rand` always writes 4 and `User`
      does nothing; every other operation writes the variable. */
  lemma ApplyKinds(op: UserOp, v: i16, imm: i16)
    ensures IsCompare(op) ==> Apply(op, v, imm) == Success(SetFlag(Compare(op, v, imm)))
    ensures Apply(Rand, v, imm) == Success(SetVariable(4))
    ensures Apply(Set, v, imm) == Success(SetVariable(imm))
    ensures Apply(User, v, imm) == Success(NoEffect)
    ensures !IsCompare(op) && !op.User? && Apply(op, v, imm).Success? ==> Apply(op, v, imm).value.SetVariable?
  {
  }

  /** Line 198 as written: `CmpGt` sets the flag to `v < imm`. */
  function ApplyAsWritten(op: UserOp, v: i16, imm: i16): Result<Effect, Fault>
  {
    if op.CmpGt? then Success(SetFlag(v < imm)) else Apply(op, v, imm)
  }

  /** As written, `CmpGt` is the same test as `CmpLt`, and on `1 > 0` it
      clears the flag. */
  lemma CmpGtAsWritten(v: i16, imm: i16)
    ensures ApplyAsWritten(CmpGt, v, imm) == ApplyAsWritten(CmpLt, v, imm)
    ensures ApplyAsWritten(CmpGt, 1, 0) == Success(SetFlag(false))
    ensures Apply(CmpGt, 1, 0) == Success(SetFlag(true))
  {
  }

  /** The effect written into the track. */
  function Commit(s: State, variable: nat, e: Effect): State
    requires variable < |s.variables|
  {
    match e
    case SetVariable(x) => s.(variables := s.variables[variable := x])
    case SetFlag(b) => s.(flag := b)
    case NoEffect => s
  }

  /** One `UserProcess` step, with the `User` callback, which does not use a
      variable, not indexing the variable array. */
  function UserStep(s: State, op: UserOp, variable: u8, imm: i16): Result<State, Fault>
    requires |s.variables| == VariableCount
  {
    if op.User? then Success(s)
    else if variable >= VariableCount then Failure(VariableIndex)
    else match Apply(op, s.variables[variable], imm)
      case Failure(f) => Failure(f)
      case Success(e) => Success(Commit(s, variable, e))
  }

  /** Lines 173-204 as written: the variable is indexed before the match,
      and `CmpGt` tests `<`. */
  function UserStepAsWritten(s: State, op: UserOp, variable: u8, imm: i16): Result<State, Fault>
    requires |s.variables| == VariableCount
  {
    if variable >= VariableCount then Failure(VariableIndex)
    else match ApplyAsWritten(op, s.variables[variable], imm)
      case Failure(f) => Failure(f)
      case Success(e) => Success(Commit(s, variable, e))
  }

  /** The decoder gives every `User` operation the variable index 0xFF, so
      as written every decoded `User` instruction stops the player at the
      index, while the step that skips the index leaves the track as it is. */
  lemma UserCallbackAsWritten(s: State, imm: i16)
    requires |s.variables| == VariableCount
    ensures UserStepAsWritten(s, User, 0xFF, imm) == Failure(VariableIndex)
    ensures UserStep(s, User, 0xFF, imm) == Success(s)
  {
  }

  /** A step fails exactly on an out-of-range variable or a failing
      operation. On success it changes either variable `variable` alone, or
      the flag alone, as the operation's effect says, and nothing else. */
  lemma UserStepEffect(s: State, op: UserOp, variable: u8, imm: i16)
    requires |s.variables| == VariableCount && !op.User?
    ensures UserStep(s, op, variable, imm).Failure? <==>
      variable >= VariableCount || Apply(op, s.variables[variable], imm).Failure?
    ensures UserStep(s, op, variable, imm).Success? ==>
      var t := UserStep(s, op, variable, imm).value;
      var e := Apply(op, s.variables[variable], imm).value;
      && |t.variables| == VariableCount
      && (e.SetVariable? ==> t.variables[variable] == e.value && t.flag == s.flag)
      && (e.SetFlag? ==> t.flag == e.flag && t.variables == s.variables)
      && (forall k :: 0 <= k < VariableCount && k != variable ==> t.variables[k] == s.variables[k])
      && t.pending == s.pending && t.messages == s.messages && t.pos == s.pos
      && t.stack == s.stack && t.tickPos == s.tickPos && t.lastPos == s.lastPos
  {
  }

  /** A user step keeps the track invariant. */
  lemma UserStepInv(s: State, op: UserOp, variable: u8, imm: i16)
    requires Inv(s)
    ensures UserStep(s, op, variable, imm).Success? ==> Inv(UserStep(s, op, variable, imm).value)
  {
  }
}
