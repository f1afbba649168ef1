/** What the integer operators compute, said of the numbers that operand and result
    bytes stand for. Both implementations leave these bytes, as `IntOps` proves. */
module IntLaws {
  import opened Bits
  import opened IntOps

  /** The one number of the width that differs from `x` by a multiple of its span. */
  predicate Wraps(w: IntWidth, x: int, v: int) {
    InRange(w, v) && v % Span(w) == x % Span(w)
  }

  /** Cutting a number down to bytes wraps it. */
  lemma BytesWrap(w: IntWidth, x: int)
    ensures Wraps(w, x, IntValue(IntBytes(x, Bytes(w)), w))
  {
    hide IntValue, IntBytes, ToLe, FromLe, Pow2, Decode, InRange, Span;
    var p := x % Span(w);
    IntBytesIs(x, w);
    IntValueIs(IntBytes(x, Bytes(w)), w);
    ValueRoundTrip(p, Bytes(w));
    SpanIs(w);
    Quotient(p, Span(w), 0, p);
    DecodeSame(w, p);
  }

  // ---------------------------------------------------------------
  // sums, differences, products
  // ---------------------------------------------------------------

  /** In release, and by the wrapping operators in either profile, the result is the
      true one wrapped to the width. */
  lemma ArithmeticWraps(op: BinOp, w: IntWidth, profile: Profile, a: int, b: int)
    requires InRange(w, a) && InRange(w, b)
    requires ((op.Add? || op.Sub? || op.Mul?) && profile.Release?) || op.WrappingAdd? || op.WrappingSub? || op.WrappingMul?
    ensures var exact := if op.Add? || op.WrappingAdd? then a + b else if op.Sub? || op.WrappingSub? then a - b else a * b;
      var r := IntBinary(op, a, b, w, profile);
      r.Ok? && |r.bytes| == Bytes(w) && Wraps(w, exact, IntValue(r.bytes, w))
  {
    hide Wrap128, IntValue, IntBytes, InRange, Span, Shift, BitOp, TruncDiv, TruncRem;
    Wrap128Mod(a * b, w);
    BytesWrap(w, a + b);
    BytesWrap(w, a - b);
    BytesWrap(w, Wrap128(a * b));
  }

  // ---------------------------------------------------------------
  // quotients and remainders
  // ---------------------------------------------------------------

  function Abs(x: int): nat {
    if x < 0 then -x else x
  }

  lemma EuclidSigns(a: nat, b: int)
    requires b != 0
    ensures a == b * (a / b) + a % b && 0 <= a % b < Abs(b)
  {
  }

  lemma NegProduct(b: int, q: int)
    ensures b * -q == -(b * q)
  {
  }

  lemma FromEuclid(a: int, b: int, m: int, q0: int, r0: int, q: int)
    requires b != 0 && m == b * q0 + r0 && 0 <= r0 < Abs(b)
    requires m >= 0 && if a >= 0 then a == m && q == q0 else a == -m && q == -q0
    ensures var r := a - b * q; Abs(r) < Abs(b) && (r == 0 || (r > 0 <==> a > 0))
  {
    NegProduct(b, q0);
  }

  /** Division toward zero: the remainder is smaller than the divisor and has the
      sign of the dividend. */
  lemma Truncates(a: int, b: int)
    requires b != 0
    ensures var q, r := TruncDiv(a, b), TruncRem(a, b);
      a == b * q + r && Abs(r) < Abs(b) && (r == 0 || (r > 0 <==> a > 0))
  {
    var m := if a >= 0 then a else -a;
    var q := TruncDiv(a, b);
    assert q == if a >= 0 then m / b else -(m / b);
    EuclidSigns(m, b);
    hide TruncDiv;
    FromEuclid(a, b, m, m / b, m % b, q);
  }

  /** A product, if not zero, is no smaller than its factors. */
  lemma ProductSize(b: int, q: int)
    ensures b * q == 0 || Abs(b * q) >= Abs(b)
    ensures b > 0 && q < 0 ==> b * q <= -b
    ensures b != 0 ==> Abs(b * q) >= Abs(q)
    ensures Abs(b) >= 2 ==> Abs(b * q) >= 2 * Abs(q)
  {
    Positive(Abs(b), Abs(q));
    if b < 0 {
      assert -b * q == -(b * q);
    }
    if q < 0 {
      NegProduct(b, q);
      NegProduct(-b, q);
    }
  }

  lemma Positive(b: nat, q: nat)
    ensures b >= 1 && q >= 1 ==> b * q >= b && b * q >= q
    ensures b >= 2 ==> b * q >= 2 * q
    ensures b == 0 || q == 0 ==> b * q == 0
  {
  }

  lemma SameSide(a: int, b: int, q: int, r: int)
    requires b != 0 && a == b * q + r && Abs(r) < Abs(b) && (r == 0 || (r > 0 <==> a > 0))
    ensures Abs(b * q) <= Abs(a) && (a >= 0 && b > 0 ==> q >= 0)
  {
    ProductSize(b, q);
  }

  /** A quotient is no larger than the dividend, and by anything but plus or minus
      one no larger than half of it. */
  lemma QuotientSize(a: int, b: int)
    requires b != 0
    ensures var q := TruncDiv(a, b); (Abs(b) >= 2 ==> 2 * Abs(q) <= Abs(a)) && (b == 1 ==> q == a) && (b == -1 ==> q == -a)
    ensures a >= 0 && b > 0 ==> TruncDiv(a, b) >= 0
  {
    var q, r := TruncDiv(a, b), TruncRem(a, b);
    Truncates(a, b);
    hide TruncDiv, TruncRem;
    ProductSize(b, q);
    SameSide(a, b, q, r);
  }

  lemma PartsInRange(w: IntWidth, a: int, b: int)
    requires InRange(w, a) && InRange(w, b) && b != 0
    ensures !(Signed(w) && a == Lo(w) && b == -1) ==> InRange(w, TruncDiv(a, b))
    ensures InRange(w, TruncRem(a, b))
  {
    Truncates(a, b);
    QuotientSize(a, b);
    hide TruncDiv, TruncRem;
  }

  /** Division fails exactly by zero, and for the smallest number by minus one; the
      remainder fails exactly by zero. Otherwise the bytes decode to the quotient and
      remainder that round toward zero. */
  lemma DivisionTruncates(w: IntWidth, profile: Profile, a: int, b: int)
    requires InRange(w, a) && InRange(w, b)
    ensures var d, m := IntBinary(Div, a, b, w, profile), IntBinary(Rem, a, b, w, profile);
      && (d.Fail? <==> b == 0 || (Signed(w) && a == Lo(w) && b == -1)) && (m.Fail? <==> b == 0)
      && (b == 0 ==> d.message == "division by zero" && m.message == "remainder by zero")
      && (d.Fail? && b != 0 ==> d.message == "attempt to divide with overflow" && IntValue(m.bytes, w) == 0)
      && (d.Ok? ==>
        && |d.bytes| == |m.bytes| == Bytes(w)
        && var q, r := IntValue(d.bytes, w), IntValue(m.bytes, w);
          a == b * q + r && Abs(r) < Abs(b) && (r == 0 || (r > 0 <==> a > 0)))
  {
    hide IntValue, IntBytes, TruncDiv, TruncRem, Wrap128, BitOp, Shift;
    Decoded(w, 0);
    if b != 0 {
      Truncates(a, b);
      PartsInRange(w, a, b);
      hide InRange, Lo;
      Decoded(w, TruncRem(a, b));
      if !(Signed(w) && a == Lo(w) && b == -1) {
        Decoded(w, TruncDiv(a, b));
      }
    }
  }

  // ---------------------------------------------------------------
  // shifts
  // ---------------------------------------------------------------

  /** In debug a shift fails exactly if the amount is not below the width; otherwise
      the amount counts modulo the width, a left shift multiplies and wraps, and a
      right shift divides and rounds down. */
  lemma ShiftScales(op: BinOp, w: IntWidth, profile: Profile, a: int, amount: int)
    requires InRange(w, a) && (op.Shl? || op.Shr?)
    ensures var bits, r := 8 * Bytes(w), IntBinary(op, a, amount, w, profile);
      && (r.Fail? <==> profile.Debug? && !(0 <= amount < bits))
      && (r.Fail? ==> r.message == if op.Shl? then "attempt to shift left with overflow" else "attempt to shift right with overflow")
      && (r.Ok? ==>
        && |r.bytes| == Bytes(w)
        && var k, v := amount % bits, IntValue(r.bytes, w);
          if op.Shl? then Wraps(w, a * Pow2(k), v) else v == a / Pow2(k))
  {
    hide IntValue, IntBytes, Pow2, BitOp, Wrap128, LogBits, Span;
    BitsIs(w);
    AndMask(amount, LogBits(w), 128);
    var k := amount % (8 * Bytes(w));
    Wrap128Mod(a * Pow2(k), w);
    BytesWrap(w, Wrap128(a * Pow2(k)));
    Halves(a, Pow2(k));
    assert InRange(w, a / Pow2(k));
    Decoded(w, a / Pow2(k));
  }

  lemma Halves(a: int, d: int)
    requires d > 0
    ensures a >= 0 ==> 0 <= a / d <= a
    ensures a < 0 ==> a <= a / d < 0
  {
    HalvesBy(a, d, a / d, a % d);
  }

  lemma HalvesBy(a: int, d: int, q: int, r: int)
    requires d > 0 && a == d * q + r && 0 <= r < d
    ensures a >= 0 ==> 0 <= q <= a
    ensures a < 0 ==> a <= q < 0
  {
    Scale(d, q);
    Farther(d, q);
    Scale(d, q + 1);
    assert d * (q + 1) == d * q + d;
  }

  lemma Scale(d: int, q: int)
    requires d > 0
    ensures q >= 0 ==> d * q >= q
    ensures q <= 0 ==> d * q <= q
  {
  }

  // ---------------------------------------------------------------
  // single bits
  // ---------------------------------------------------------------

  /** Bit `i` of a number in two's complement. */
  function BitAt(x: int, i: nat): (r: nat)
    ensures r <= 1
  {
    x / Pow2(i) % 2
  }

  lemma NextBit(x: int, i: nat)
    ensures BitAt(x, i + 1) == BitAt(x / 2, i)
  {
    Pow2Half(i + 1);
    Split(x, 2, Pow2(i));
  }

  lemma FirstBit(x: int)
    ensures BitAt(x, 0) == x % 2
  {
    assert Pow2(0) == 1;
  }

  lemma BitOpParts(f: Bitwise, a: int, b: int, n: nat)
    requires n > 0
    ensures BitOp(f, a, b, n) % 2 == Bit(f, a % 2, b % 2) && BitOp(f, a, b, n) / 2 == BitOp(f, a / 2, b / 2, n - 1)
  {
    Quotient(BitOp(f, a, b, n), 2, BitOp(f, a / 2, b / 2, n - 1), Bit(f, a % 2, b % 2));
  }

  lemma {:induction false} BitOpAt(f: Bitwise, a: int, b: int, n: nat, i: nat)
    requires i < n
    ensures BitAt(BitOp(f, a, b, n), i) == Bit(f, BitAt(a, i), BitAt(b, i))
    decreases i
  {
    hide BitAt, BitOp, Bit;
    BitOpParts(f, a, b, n);
    if i == 0 {
      FirstBit(a);
      FirstBit(b);
      FirstBit(BitOp(f, a, b, n));
    } else {
      BitOpAt(f, a / 2, b / 2, n - 1, i - 1);
      NextBit(BitOp(f, a, b, n), i - 1);
      NextBit(a, i - 1);
      NextBit(b, i - 1);
    }
  }

  /** The low bits survive the remainder. */
  lemma LowBit(x: int, n: nat, i: nat)
    requires i < n
    ensures BitAt(x % Pow2(n), i) == BitAt(x, i)
  {
    hide Pow2;
    var a, b := Pow2(i), Pow2(n - i);
    Pow2Add(i, n - i);
    Split(x, a, b);
    Quotient(x % Pow2(n), a, x / a % b, x % a);
    Pow2Half(n - i);
    ModMod(x / a, 2, Pow2(n - i - 1));
  }

  lemma WrappedBit(w: IntWidth, x: int, v: int, i: nat)
    requires Wraps(w, x, v) && i < 8 * Bytes(w)
    ensures BitAt(v, i) == BitAt(x, i)
  {
    SpanIs(w);
    hide BitAt, Pow2, Span, InRange;
    LowBit(x, 8 * Bytes(w), i);
    LowBit(v, 8 * Bytes(w), i);
  }

  lemma BitIs(f: Bitwise, x: int, y: int)
    requires 0 <= x <= 1 && 0 <= y <= 1
    ensures Bit(f, x, y) == 1 <==> match f case And => x == 1 && y == 1 case Or => x == 1 || y == 1 case Xor => x != y
  {
  }

  lemma BitwiseBytes(op: BinOp, f: Bitwise, w: IntWidth, profile: Profile, a: int, b: int)
    requires (op.BitAnd? && f.And?) || (op.BitOr? && f.Or?) || (op.BitXor? && f.Xor?)
    ensures IntBinary(op, a, b, w, profile) == Ok(IntBytes(Wrap128(BitOp(f, a, b, 128)), Bytes(w)))
  {
    hide IntBytes, BitOp, Wrap128, Shift, TruncDiv, TruncRem;
  }

  /** Each bit of a bitwise operator's result, from those of its operands. */
  lemma EachBit(op: BinOp, w: IntWidth, profile: Profile, a: int, b: int, i: nat)
    requires (op.BitAnd? || op.BitOr? || op.BitXor?) && i < 8 * Bytes(w)
    ensures var r := IntBinary(op, a, b, w, profile);
      && r.Ok? && |r.bytes| == Bytes(w)
      && var x, y, z := BitAt(a, i) == 1, BitAt(b, i) == 1, BitAt(IntValue(r.bytes, w), i) == 1;
        z <==> if op.BitAnd? then x && y else if op.BitOr? then x || y else x != y
  {
    var f := if op.BitAnd? then And else if op.BitOr? then Or else Xor;
    var x := BitOp(f, a, b, 128);
    hide IntBinary, IntValue, IntBytes, BitOp, Wrap128, Span, BitAt, Bit;
    BitwiseBytes(op, f, w, profile, a, b);
    BytesWrap(w, Wrap128(x));
    Wrap128Mod(x, w);
    WrappedBit(w, x, IntValue(IntBytes(Wrap128(x), Bytes(w)), w), i);
    BitOpAt(f, a, b, 128, i);
    BitIs(f, BitAt(a, i), BitAt(b, i));
  }

  // ---------------------------------------------------------------
  // flags, negation, casts
  // ---------------------------------------------------------------

  /** Comparisons leave one byte, 1 if the numbers are so related and 0 if not. */
  lemma Compares(op: BinOp, w: IntWidth, profile: Profile, a: int, b: int)
    requires op.Eq? || op.Ne? || op.Lt? || op.Le? || op.Gt? || op.Ge?
    ensures var holds :=
        if op.Eq? then a == b else if op.Ne? then a != b else if op.Lt? then a < b
        else if op.Le? then a <= b else if op.Gt? then b < a else b <= a;
      IntBinary(op, a, b, w, profile) == Ok([if holds then 1 else 0])
  {
    hide IntBytes, BitOp, Wrap128, Shift, TruncDiv, TruncRem;
  }

  /** Negation and bitwise not, wrapped; in debug negating the smallest number fails. */
  lemma Negates(w: IntWidth, profile: Profile, a: int)
    requires InRange(w, a)
    ensures var r := IntNeg(a, w, profile);
      && (r.Fail? <==> profile.Debug? && Signed(w) && a == Lo(w))
      && (r.Ok? ==> |r.bytes| == Bytes(w) && Wraps(w, -a, IntValue(r.bytes, w)))
    ensures var r := IntNot(a, w);
      r.Ok? && |r.bytes| == Bytes(w) && Wraps(w, -a - 1, IntValue(r.bytes, w))
  {
    hide IntValue, IntBytes;
    BytesWrap(w, -a);
    BytesWrap(w, -a - 1);
  }

  /** Bitwise not flips each bit. */
  lemma FlipsBits(x: int, i: nat)
    ensures BitAt(-x - 1, i) == 1 - BitAt(x, i)
  {
    var d := Pow2(i);
    hide Pow2;
    Quotient(-x - 1, d, -(x / d) - 1, d - 1 - x % d) by {
      assert d * (-(x / d) - 1) == -(d * (x / d)) - d;
    }
  }

  /** A cast keeps the number if the new width has it, and wraps it otherwise. */
  lemma CastWraps(bytes: seq<Byte>, from: IntWidth, to: IntWidth)
    requires |bytes| == Bytes(from)
    ensures |Cast(bytes, from, to)| == Bytes(to)
    ensures Wraps(to, IntValue(bytes, from), IntValue(Cast(bytes, from, to), to))
    ensures InRange(to, IntValue(bytes, from)) ==> IntValue(Cast(bytes, from, to), to) == IntValue(bytes, from)
  {
    hide IntBytes, IntValue;
    var x := IntValue(bytes, from);
    PlainValue(bytes, from);
    BytesWrap(to, x);
    if InRange(to, x) {
      Decoded(to, x);
    }
  }

  lemma PlainValue(bytes: seq<Byte>, w: IntWidth)
    requires |bytes| == Bytes(w)
    ensures !Signed(w) ==> IntValue(bytes, Plain(w)) == IntValue(bytes, w)
  {
  }
}
