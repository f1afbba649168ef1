/** Integer arithmetic twice: as the compile-time machine computes it, on wide
    integers that are cut down to bytes, and as the LLVM backend lowers it, on
    bit patterns of the operand's own width. */
module IntOps {
  import opened Bits

  datatype IntWidth = I8 | I16 | I32 | I64 | U8 | U16 | U32 | U64

  datatype Profile = Debug | Release

  datatype BinOp =
    | Add | Sub | Mul | Div | Rem
    | Eq | Ne | Lt | Le | Gt | Ge
    | BitAnd | BitOr | BitXor | Shl | Shr
    | WrappingAdd | WrappingSub | WrappingMul
    | AddOverflows | SubOverflows | MulOverflows
    | LogicalAnd | LogicalOr

  datatype Outcome = Ok(bytes: seq<Byte>) | Fail(message: string)

  function Bytes(w: IntWidth): (n: nat)
    ensures n <= 8
  {
    match w
    case I8 => 1 case U8 => 1
    case I16 => 2 case U16 => 2
    case I32 => 4 case U32 => 4
    case I64 => 8 case U64 => 8
  }

  predicate Signed(w: IntWidth) {
    w.I8? || w.I16? || w.I32? || w.I64?
  }

  /** How many values a width has. */
  function Span(w: IntWidth): (r: nat)
    ensures r >= 0x100
  {
    match Bytes(w)
    case 1 => 0x100
    case 2 => 0x1_0000
    case 4 => 0x1_0000_0000
    case _ => 0x1_0000_0000_0000_0000
  }

  function Lo(w: IntWidth): int {
    if Signed(w) then -(Span(w) / 2) else 0
  }

  function Hi(w: IntWidth): int {
    if Signed(w) then Span(w) / 2 - 1 else Span(w) - 1
  }

  predicate InRange(w: IntWidth, v: int) {
    Lo(w) <= v <= Hi(w)
  }

  lemma SpanIs(w: IntWidth)
    ensures Span(w) == Pow2(8 * Bytes(w))
  {
    Pow2Values();
  }

  /** Quotient and remainder that round toward zero. */
  function TruncDiv(a: int, b: int): int
    requires b != 0
  {
    if a >= 0 then a / b else -((-a) / b)
  }

  function TruncRem(a: int, b: int): int
    requires b != 0
  {
    a - b * TruncDiv(a, b)
  }

  // ---------------------------------------------------------------
  // the compile-time machine
  // ---------------------------------------------------------------

  function AsSigned64(bits: nat): int {
    if bits >= Pow2(63) then bits - Pow2(64) else bits
  }

  /** Shifts the sign bit to the top of 64 bits and back down. */
  function SignExtend(bits: nat, size: nat): int
    requires size <= 64
  {
    AsSigned64(bits * Pow2(64 - size) % Pow2(64)) / Pow2(64 - size)
  }

  /** The number held in the bytes of an operand. */
  function IntValue(bytes: seq<Byte>, w: IntWidth): int
    requires |bytes| == Bytes(w)
  {
    var bits := FromLe(bytes);
    var size := 8 * Bytes(w);
    if Signed(w) then SignExtend(bits, size)
    else if size == 64 then bits
    else BitOp(And, bits, Pow2(size) - 1, 64)
  }

  function IntBytes(value: int, n: nat): (bytes: seq<Byte>)
    requires n <= 8
    ensures |bytes| == n
  {
    ToLe(value % Pow2(64), 8)[..n]
  }

  /** A 128-bit result kept in two's complement. */
  function Wrap128(x: int): int {
    var r := x % Pow2(128);
    if r >= Pow2(127) then r - Pow2(128) else r
  }

  function Flag(b: bool): Outcome {
    Ok([if b then 1 else 0])
  }

  function Checked(w: IntWidth, profile: Profile, result: int, message: string): Outcome {
    if profile.Debug? && !InRange(w, result) then Fail(message) else Ok(IntBytes(result, Bytes(w)))
  }

  function Shift(op: BinOp, value: int, amount: int, w: IntWidth, profile: Profile): Outcome {
    var bits := 8 * Bytes(w);
    if profile.Debug? && !(0 <= amount < bits) then
      Fail(if op.Shl? then "attempt to shift left with overflow" else "attempt to shift right with overflow")
    else
      var k := BitOp(And, amount, bits - 1, 128);
      Ok(IntBytes(if op.Shl? then Wrap128(value * Pow2(k)) else value / Pow2(k), Bytes(w)))
  }

  function IntBinary(op: BinOp, left: int, right: int, w: IntWidth, profile: Profile): Outcome {
    var n := Bytes(w);
    match op
    case Add => Checked(w, profile, left + right, "attempt to add with overflow")
    case Sub => Checked(w, profile, left - right, "attempt to subtract with overflow")
    case Mul => Checked(w, profile, Wrap128(left * right), "attempt to multiply with overflow")
    case Div =>
      if right == 0 then Fail("division by zero")
      else if Signed(w) && left == Lo(w) && right == -1 then Fail("attempt to divide with overflow")
      else Ok(IntBytes(TruncDiv(left, right), n))
    case Rem =>
      if right == 0 then Fail("remainder by zero")
      else if Signed(w) && right == -1 then Ok(IntBytes(0, n))
      else Ok(IntBytes(TruncRem(left, right), n))
    case Eq => Flag(left == right)
    case Ne => Flag(left != right)
    case Lt => Flag(left < right)
    case Le => Flag(left <= right)
    case Gt => Flag(left > right)
    case Ge => Flag(left >= right)
    case BitAnd => Ok(IntBytes(Wrap128(BitOp(And, left, right, 128)), n))
    case BitOr => Ok(IntBytes(Wrap128(BitOp(Or, left, right, 128)), n))
    case BitXor => Ok(IntBytes(Wrap128(BitOp(Xor, left, right, 128)), n))
    case Shl => Shift(op, left, right, w, profile)
    case Shr => Shift(op, left, right, w, profile)
    case WrappingAdd => Ok(IntBytes(left + right, n))
    case WrappingSub => Ok(IntBytes(left - right, n))
    case WrappingMul => Ok(IntBytes(Wrap128(left * right), n))
    case AddOverflows => Flag(!InRange(w, left + right))
    case SubOverflows => Flag(!InRange(w, left - right))
    case MulOverflows => Flag(Wrap128(left * right) != left * right || !InRange(w, left * right))
    case LogicalAnd => Fail("logical operator over int operands is not valid")
    case LogicalOr => Fail("logical operator over int operands is not valid")
  }

  function IntNeg(operand: int, w: IntWidth, profile: Profile): Outcome {
    if profile.Debug? && Signed(w) && operand == Lo(w) then Fail("attempt to negate with overflow")
    else Ok(IntBytes(-operand, Bytes(w)))
  }

  function IntNot(operand: int, w: IntWidth): Outcome {
    Ok(IntBytes(-operand - 1, Bytes(w)))
  }

  /** The unsigned width of the same size. */
  function Plain(w: IntWidth): (r: IntWidth)
    ensures Bytes(r) == Bytes(w) && !Signed(r)
  {
    match Bytes(w)
    case 1 => U8
    case 2 => U16
    case 4 => U32
    case _ => U64
  }

  function Cast(bytes: seq<Byte>, from: IntWidth, to: IntWidth): seq<Byte>
    requires |bytes| == Bytes(from)
  {
    IntBytes(if Signed(from) then IntValue(bytes, from) else IntValue(bytes, Plain(from)), Bytes(to))
  }

  // ---------------------------------------------------------------
  // the LLVM lowering, on bit patterns
  // ---------------------------------------------------------------

  datatype Lowered = Pattern(p: nat) | Bool(b: bool) | Trap(message: string) | Undefined

  /** What a pattern stands for. */
  function Decode(w: IntWidth, p: nat): int {
    if Signed(w) && p >= Span(w) / 2 then p - Span(w) else p
  }

  /** The wrapped result of an add, subtract or multiply and whether it is not
      the true one. */
  function WithOverflow(op: BinOp, p: nat, q: nat, w: IntWidth): (nat, bool) {
    var (wrapped, exact) :=
      if op.Add? || op.AddOverflows? then ((p + q) % Span(w), Decode(w, p) + Decode(w, q))
      else if op.Sub? || op.SubOverflows? then ((p - q) % Span(w), Decode(w, p) - Decode(w, q))
      else (p * q % Span(w), Decode(w, p) * Decode(w, q));
    (wrapped, Decode(w, wrapped) != exact)
  }

  function LowerChecked(op: BinOp, p: nat, q: nat, w: IntWidth, profile: Profile): Lowered {
    var (result, overflow) := WithOverflow(op, p, q, w);
    if profile.Debug? && overflow then
      Trap(if op.Add? then "attempt to add with overflow"
           else if op.Sub? then "attempt to subtract with overflow"
           else "attempt to multiply with overflow")
    else Pattern(result)
  }

  /** The top `k` of `n` bits. */
  function TopBits(n: nat, k: nat): nat
    requires k <= n
  {
    if k == 0 then 0 else TopBits(n, k - 1) + Pow2(n - k)
  }

  function Halved(p: nat, k: nat): nat {
    if k == 0 then p else Halved(p / 2, k - 1)
  }

  /** Shifts right and fills up with the sign bit, if there is one. */
  function ShiftRight(p: nat, k: nat, w: IntWidth): nat
    requires k < 8 * Bytes(w)
  {
    Halved(p, k) + (if Signed(w) && p >= Span(w) / 2 then TopBits(8 * Bytes(w), k) else 0)
  }

  /** The amount has a width `v` of its own: it is compared and masked there, then
      cut down or extended with zeros to the width of the shifted operand. A shift
      by the whole width or more would be undefined and is kept apart. */
  function LowerShift(op: BinOp, p: nat, q: nat, w: IntWidth, v: IntWidth, profile: Profile): Lowered {
    var bits := 8 * Bytes(w);
    if profile.Debug? && q >= bits % Span(v) then
      Trap(if op.Shl? then "attempt to shift left with overflow" else "attempt to shift right with overflow")
    else
      var masked := BitOp(And, q, (bits - 1) % Span(v), 8 * Bytes(v));
      var k := LowerCast(masked, Plain(v), w);
      if k >= bits then Undefined
      else Pattern(if op.Shl? then p * Pow2(k) % Span(w) else ShiftRight(p, k, w))
  }

  /** Unsigned and signed division instructions. */
  function UDiv(p: nat, q: nat): nat
    requires q != 0
  {
    p / q
  }

  function URem(p: nat, q: nat): nat
    requires q != 0
  {
    p % q
  }

  function SDiv(p: nat, q: nat, w: IntWidth): nat
    requires Decode(w, q) != 0
  {
    TruncDiv(Decode(w, p), Decode(w, q)) % Span(w)
  }

  function SRem(p: nat, q: nat, w: IntWidth): nat
    requires Decode(w, q) != 0
  {
    TruncRem(Decode(w, p), Decode(w, q)) % Span(w)
  }

  function LowerDivide(op: BinOp, p: nat, q: nat, w: IntWidth): Lowered
    requires q < Span(w)
  {
    if q == 0 then Trap(if op.Div? then "division by zero" else "remainder by zero")
    else if !Signed(w) then Pattern(if op.Div? then UDiv(p, q) else URem(p, q))
    else
      var minusOne := q == Span(w) - 1;
      var isMin := p == Span(w) / 2;
      if op.Div? then
        if minusOne && isMin then Trap("attempt to divide with overflow") else Pattern(SDiv(p, q, w))
      else
        var remainder := SRem(p, if minusOne then 1 else q, w);
        Pattern(if minusOne then 0 else remainder)
  }

  /** Operators take two operands of one width, but for the amount of a shift. */
  predicate Typed(op: BinOp, w: IntWidth, v: IntWidth) {
    !op.LogicalAnd? && !op.LogicalOr? && (op.Shl? || op.Shr? || v == w)
  }

  function LowerBinary(op: BinOp, p: nat, q: nat, w: IntWidth, v: IntWidth, profile: Profile): Lowered
    requires Typed(op, w, v) && q < Span(v)
  {
    var bits := 8 * Bytes(w);
    match op
    case Add => LowerChecked(op, p, q, w, profile)
    case Sub => LowerChecked(op, p, q, w, profile)
    case Mul => LowerChecked(op, p, q, w, profile)
    case Div => LowerDivide(op, p, q, w)
    case Rem => LowerDivide(op, p, q, w)
    case Eq => Bool(p == q)
    case Ne => Bool(p != q)
    case Lt => Bool(Decode(w, p) < Decode(w, q))
    case Le => Bool(Decode(w, p) <= Decode(w, q))
    case Gt => Bool(Decode(w, p) > Decode(w, q))
    case Ge => Bool(Decode(w, p) >= Decode(w, q))
    case BitAnd => Pattern(BitOp(And, p, q, bits))
    case BitOr => Pattern(BitOp(Or, p, q, bits))
    case BitXor => Pattern(BitOp(Xor, p, q, bits))
    case Shl => LowerShift(op, p, q, w, v, profile)
    case Shr => LowerShift(op, p, q, w, v, profile)
    case WrappingAdd => Pattern((p + q) % Span(w))
    case WrappingSub => Pattern((p - q) % Span(w))
    case WrappingMul => Pattern(p * q % Span(w))
    case AddOverflows => Bool(WithOverflow(op, p, q, w).1)
    case SubOverflows => Bool(WithOverflow(op, p, q, w).1)
    case MulOverflows => Bool(WithOverflow(op, p, q, w).1)
  }

  function LowerNeg(p: nat, w: IntWidth, profile: Profile): Lowered {
    if profile.Debug? && Signed(w) && p == Lo(w) % Span(w) then Trap("attempt to negate with overflow")
    else Pattern((0 - p) % Span(w))
  }

  function LowerNot(p: nat, w: IntWidth): Lowered
    requires p < Span(w)
  {
    Pattern(Span(w) - 1 - p)
  }

  /** Truncation, or extension with the sign bit or with zeros. */
  function LowerCast(p: nat, from: IntWidth, to: IntWidth): nat {
    if Bytes(to) == Bytes(from) then p
    else if Bytes(to) < Bytes(from) then p % Span(to)
    else if Signed(from) && p >= Span(from) / 2 && Span(to) >= Span(from) then p + (Span(to) - Span(from))
    else p
  }

  /** The bytes a lowered operation leaves in memory. */
  function Render(r: Lowered, w: IntWidth): Outcome {
    match r
    case Pattern(p) => Ok(ToLe(p, Bytes(w)))
    case Bool(b) => Ok(ToLe(if b then 1 else 0, 1))
    case Trap(message) => Fail(message)
    case Undefined => Fail("undefined")
  }

  // ---------------------------------------------------------------
  // bytes and numbers
  // ---------------------------------------------------------------

  lemma PatternBound(bytes: seq<Byte>, w: IntWidth)
    requires |bytes| == Bytes(w)
    ensures FromLe(bytes) < Span(w)
  {
    FromLeBound(bytes);
    SpanIs(w);
  }

  /** Reading an operand's bytes gives the number its pattern stands for. */
  lemma IntValueIs(bytes: seq<Byte>, w: IntWidth)
    requires |bytes| == Bytes(w)
    ensures FromLe(bytes) < Span(w) && IntValue(bytes, w) == Decode(w, FromLe(bytes))
  {
    hide Pow2, BitOp, FromLe, Span, SignExtend;
    PatternBound(bytes, w);
    SpanIs(w);
    var p, size := FromLe(bytes), 8 * Bytes(w);
    if Signed(w) {
      ShiftUpDown(p, size);
    } else if size < 64 {
      AndMask(p, size, 64);
      Quotient(p, Pow2(size), 0, p);
    }
  }

  lemma SpreadOrder(p: int, k: int, half: int, big: int)
    requires k > 0 && 0 <= p < 2 * half && big == half * k
    ensures 0 <= p * k <= 2 * big - k && (p * k >= big <==> p >= half)
  {
    Ordered(0, p, k);
    Ordered(p, 2 * half - 1, k);
    Ordered(half, p, k);
    Ordered(p, half - 1, k);
    assert (2 * half - 1) * k == 2 * (half * k) - k;
    assert (half - 1) * k == half * k - k;
  }

  lemma SpreadBack(x: int, k: int, p: int, half: int, big: int)
    requires k > 0 && x == k * p && big == k * half
    ensures x / k == p && (x - 2 * big) / k == p - 2 * half
  {
    Quotient(x, k, p, 0);
    AddMultiple(x, -2 * half, k);
    assert k * (-2 * half) == -2 * (k * half);
  }

  lemma Ordered(a: int, b: int, k: int)
    requires k > 0
    ensures a <= b ==> a * k <= b * k
  {
  }

  lemma ShiftUpDown(p: nat, size: nat)
    requires 0 < size <= 64 && p < Pow2(size)
    ensures SignExtend(p, size) == if p >= Pow2(size) / 2 then p - Pow2(size) else p
  {
    hide Pow2;
    var k, half, big := Pow2(64 - size), Pow2(size - 1), Pow2(63);
    Pow2Add(size - 1, 64 - size);
    Pow2Half(size);
    Pow2Half(64);
    var x := p * k;
    assert x % Pow2(64) == x && 0 <= x && (x >= big <==> p >= half) by {
      SpreadOrder(p, k, half, big);
      Quotient(x, 2 * big, 0, x);
    }
    assert x / k == p && (x - 2 * big) / k == p - 2 * half by {
      SpreadBack(x, k, p, half, big);
    }
    assert SignExtend(p, size) == AsSigned64(x) / k;
  }

  /** Cutting a number down to bytes keeps it modulo the width's span. */
  lemma IntBytesIs(value: int, w: IntWidth)
    ensures IntBytes(value, Bytes(w)) == ToLe(value % Span(w), Bytes(w))
  {
    SpanIs(w);
    LowBytes(value % Pow2(64), 8, Bytes(w));
    ModPow2(value, 8 * Bytes(w), 64);
  }

  lemma WrapMod(x: int, m: int, j: int)
    requires m > 0 && j > 0
    ensures m * j > 0 && x % (m * j) % m == x % m && (x % (m * j) - m * j) % m == x % m
  {
    ModMod(x, m, j);
    AddMultiple(x % (m * j), -j, m);
    assert m * -j == -(m * j);
  }

  lemma Wrap128Mod(x: int, w: IntWidth)
    ensures Wrap128(x) % Span(w) == x % Span(w)
  {
    SpanIs(w);
    var n := 8 * Bytes(w);
    Pow2Add(n, 128 - n);
    hide Pow2, Span, Bytes;
    WrapMod(x, Pow2(n), Pow2(128 - n));
  }

  /** A number survives being cut down exactly when it is in range. */
  lemma DecodeMod(w: IntWidth, x: int)
    ensures Decode(w, x % Span(w)) == x <==> InRange(w, x)
    ensures InRange(w, x) ==> 0 <= x % Span(w) < Span(w)
  {
    var m := Span(w);
    if InRange(w, x) {
      if x < 0 {
        Quotient(x, m, -1, x + m);
      } else {
        Quotient(x, m, 0, x);
      }
    }
  }

  /** A pattern and what it stands for differ by a multiple of the span. */
  lemma DecodeSame(w: IntWidth, p: nat)
    requires p < Span(w)
    ensures Decode(w, p) % Span(w) == p && InRange(w, Decode(w, p))
  {
    AddMultiple(p, -1, Span(w));
    Quotient(p, Span(w), 0, p);
  }

  // ---------------------------------------------------------------
  // the same bits
  // ---------------------------------------------------------------

  lemma SumMod(w: IntWidth, p: nat, q: nat)
    requires p < Span(w) && q < Span(w)
    ensures (Decode(w, p) + Decode(w, q)) % Span(w) == (p + q) % Span(w)
    ensures (Decode(w, p) - Decode(w, q)) % Span(w) == (p - q) % Span(w)
  {
    var m := Span(w);
    hide Span;
    AddMultiple(p + q, -1, m);
    AddMultiple(p + q, -2, m);
    AddMultiple(p - q, -1, m);
    AddMultiple(p - q, 1, m);
  }

  lemma ProductMod(w: IntWidth, p: nat, q: nat)
    requires p < Span(w) && q < Span(w)
    ensures Decode(w, p) * Decode(w, q) % Span(w) == p * q % Span(w)
  {
    var m := Span(w);
    hide Span;
    var s, t := if Decode(w, p) == p then 0 else 1, if Decode(w, q) == q then 0 else 1;
    ProductShift(p, q, s, t, m);
  }

  lemma ProductShift(p: int, q: int, s: int, t: int, m: int)
    requires m > 0
    ensures (p - m * s) * (q - m * t) % m == p * q % m
  {
    var k := m * s * t - s * q - t * p;
    assert (p - m * s) * (q - m * t) == p * q + m * k;
    AddMultiple(p * q, k, m);
  }

  /** An i128 product that wrapped is out of range of every width, so reporting
      overflow from the wrapped product is exact. */
  lemma ProductRange(w: IntWidth, a: int, b: int)
    requires InRange(w, a) && InRange(w, b)
    ensures InRange(w, Wrap128(a * b)) <==> InRange(w, a * b)
    ensures InRange(w, a * b) ==> Wrap128(a * b) == a * b
  {
    hide Wrap128;
    ProductBound(w, a, b);
    Wrap128Is(a * b);
  }

  lemma Wrap128Is(x: int)
    requires -0x8000_0000_0000_0000_0000_0000_0000_0000 <= x < 0x1_0000_0000_0000_0000_0000_0000_0000_0000
    ensures Wrap128(x) ==
      if x < 0x8000_0000_0000_0000_0000_0000_0000_0000 then x else x - 0x1_0000_0000_0000_0000_0000_0000_0000_0000
  {
    Pow2Values();
    hide Pow2;
    if x < 0 {
      Quotient(x, Pow2(128), -1, x + Pow2(128));
    } else {
      Quotient(x, Pow2(128), 0, x);
    }
  }

  lemma ProductBound(w: IntWidth, a: int, b: int)
    requires InRange(w, a) && InRange(w, b)
    ensures !Signed(w) ==> 0 <= a * b < 0x1_0000_0000_0000_0000_0000_0000_0000_0000
    ensures Signed(w) ==>
      -0x4000_0000_0000_0000_0000_0000_0000_0000 <= a * b <= 0x4000_0000_0000_0000_0000_0000_0000_0000
  {
    if Signed(w) {
      Box(a, b, 0x8000_0000_0000_0000);
    } else {
      Box(a, b, 0x1_0000_0000_0000_0000 - 1);
      Ordered0(a, b);
    }
  }

  lemma Ordered0(a: int, b: int)
    requires a >= 0 && b >= 0
    ensures a * b >= 0
  {
  }

  lemma Box(a: int, b: int, k: int)
    requires -k <= a <= k && -k <= b <= k
    ensures -(k * k) <= a * b <= k * k
  {
    assert (k - a) * (k + b) >= 0 && (k + a) * (k - b) >= 0;
    assert (k - a) * (k - b) >= 0 && (k + a) * (k + b) >= 0;
    assert (k - a) * (k + b) + (k + a) * (k - b) == 2 * (k * k) - 2 * (a * b);
    assert (k - a) * (k - b) + (k + a) * (k + b) == 2 * (k * k) + 2 * (a * b);
  }

  /** The wrapped sums and differences and their overflow flags. */
  lemma SumAgrees(w: IntWidth, p: nat, q: nat)
    requires p < Span(w) && q < Span(w)
    ensures var (a, b) := (Decode(w, p), Decode(w, q));
      && WithOverflow(Add, p, q, w) == ((a + b) % Span(w), !InRange(w, a + b))
      && WithOverflow(Sub, p, q, w) == ((a - b) % Span(w), !InRange(w, a - b))
  {
    hide Span, InRange;
    SumMod(w, p, q);
    DecodeMod(w, Decode(w, p) + Decode(w, q));
    DecodeMod(w, Decode(w, p) - Decode(w, q));
  }

  /** The wrapped product and its overflow flag, although the machine looks only
      at the product as it wraps in 128 bits. */
  lemma ProductAgrees(w: IntWidth, p: nat, q: nat)
    requires p < Span(w) && q < Span(w)
    ensures var x := Decode(w, p) * Decode(w, q);
      && WithOverflow(Mul, p, q, w) == (Wrap128(x) % Span(w), !InRange(w, Wrap128(x)))
      && (InRange(w, Wrap128(x)) <==> InRange(w, x)) && (InRange(w, x) ==> Wrap128(x) == x)
  {
    hide Span, InRange, Wrap128;
    var x := Decode(w, p) * Decode(w, q);
    ProductMod(w, p, q);
    Wrap128Mod(x, w);
    DecodeSame(w, p);
    DecodeSame(w, q);
    ProductRange(w, Decode(w, p), Decode(w, q));
    DecodeMod(w, x);
  }

  lemma ShiftLeftAgrees(w: IntWidth, p: nat, k: nat)
    requires p < Span(w)
    ensures Wrap128(Decode(w, p) * Pow2(k)) % Span(w) == p * Pow2(k) % Span(w)
  {
    var m := Span(w);
    Wrap128Mod(Decode(w, p) * Pow2(k), w);
    hide Span, Pow2, Wrap128;
    ProductShift(p, Pow2(k), if Decode(w, p) == p then 0 else 1, 0, m);
  }

  lemma ShiftRightAgrees(w: IntWidth, p: nat, k: nat)
    requires p < Span(w) && k < 8 * Bytes(w)
    ensures Decode(w, p) / Pow2(k) % Span(w) == ShiftRight(p, k, w)
  {
    hide Pow2, Span, Bytes, TopBits, Halved;
    var n := 8 * Bytes(w);
    SpanIs(w);
    Pow2Add(k, n - k);
    TopBitsIs(n, k);
    HalvedIs(p, k);
    Filled(p, Pow2(k), Pow2(n - k));
  }

  lemma {:induction false} HalvedIs(p: nat, k: nat)
    ensures Halved(p, k) == p / Pow2(k)
  {
    if k > 0 {
      HalvedIs(p / 2, k - 1);
      Split(p, 2, Pow2(k - 1));
    }
  }

  lemma {:induction false} TopBitsIs(n: nat, k: nat)
    requires k <= n
    ensures TopBits(n, k) == Pow2(n) - Pow2(n - k)
  {
    if k > 0 {
      TopBitsIs(n, k - 1);
    }
  }

  lemma Filled(p: nat, d: int, j: int)
    requires d > 0 && j > 0 && p < d * j
    ensures p / d % (d * j) == p / d
    ensures (p - d * j) / d % (d * j) == p / d + d * j - j
  {
    QuotientLess(p, d, j);
    QuotientBelow(p, d, j);
    Around(p / d, j, d * j);
  }

  lemma QuotientLess(p: int, d: int, j: int)
    requires d > 0
    ensures (p - d * j) / d == p / d - j
  {
    AddMultiple(p, -j, d);
    assert d * -j == -(d * j);
  }

  lemma QuotientBelow(p: nat, d: int, j: int)
    requires d > 0 && j > 0 && p < d * j
    ensures 0 <= p / d < j <= d * j
  {
    Ordered(j, p / d, d);
    Ordered(1, d, j);
  }

  lemma Around(q: int, j: int, m: int)
    requires 0 <= q < j <= m
    ensures q % m == q && (q - j) % m == q + m - j
  {
    Quotient(q, m, 0, q);
    Quotient(q - j, m, -1, q - j + m);
  }

  function LogBits(w: IntWidth): nat {
    match Bytes(w)
    case 1 => 3
    case 2 => 4
    case 4 => 5
    case _ => 6
  }

  lemma BitsIs(w: IntWidth)
    ensures 8 * Bytes(w) == Pow2(LogBits(w)) && LogBits(w) <= 8 * Bytes(w) <= 64
  {
    assert Pow2(3) == 8;
    assert Pow2(4) == 16;
    assert Pow2(5) == 32;
    assert Pow2(6) == 64;
  }

  /** Masking a shift amount of any width as a wide number or as a pattern is the
      same, the cast to the shifted operand's width keeps it, and in debug both
      sides find the same amounts too large. */
  lemma AmountAgrees(w: IntWidth, v: IntWidth, q: nat)
    requires q < Span(v)
    ensures var (b, bits) := (Decode(v, q), 8 * Bytes(w));
      && (0 <= b < bits <==> q < bits % Span(v))
      && BitOp(And, b, bits - 1, 128) == q % bits < bits
      && LowerCast(BitOp(And, q, (bits - 1) % Span(v), 8 * Bytes(v)), Plain(v), w) == q % bits
  {
    hide BitOp, Pow2, LogBits;
    BitsIs(w);
    AmountRange(w, v, q);
    AndMask(Decode(v, q), LogBits(w), 128);
    AndMask(q, LogBits(w), 8 * Bytes(v));
    AmountMod(w, v, q);
    SmallCast(q % (8 * Bytes(w)), v, w);
  }

  lemma AmountMod(w: IntWidth, v: IntWidth, q: nat)
    requires q < Span(v)
    ensures Decode(v, q) % Pow2(LogBits(w)) == q % Pow2(LogBits(w))
  {
    assert LogBits(w) <= 8 * Bytes(v);
    hide Pow2, Span, LogBits, Decode;
    SpanIs(v);
    DecodeSame(v, q);
    ModPow2(Decode(v, q), LogBits(w), 8 * Bytes(v));
  }

  lemma AmountRange(w: IntWidth, v: IntWidth, q: nat)
    requires q < Span(v)
    ensures LogBits(w) <= 8 * Bytes(v) && (8 * Bytes(w) - 1) % Span(v) == 8 * Bytes(w) - 1
    ensures 0 <= Decode(v, q) < 8 * Bytes(w) <==> q < 8 * Bytes(w) % Span(v)
  {
  }

  lemma SmallCast(k: nat, v: IntWidth, w: IntWidth)
    requires k < 64
    ensures LowerCast(k, Plain(v), w) == k
  {
  }

  /** Shifts agree for every width of the operand and every width of the amount. */
  lemma ShiftAgrees(op: BinOp, w: IntWidth, v: IntWidth, profile: Profile, p: nat, q: nat)
    requires p < Span(w) && q < Span(v) && (op.Shl? || op.Shr?)
    ensures Render(LowerShift(op, p, q, w, v, profile), w) == Shift(op, Decode(w, p), Decode(v, q), w, profile)
  {
    hide BitOp, Pow2, Span, Wrap128, Decode, ShiftRight, IntBytes, ToLe, LowerCast;
    AmountAgrees(w, v, q);
    var k := q % (8 * Bytes(w));
    var a := Decode(w, p);
    ShiftLeftAgrees(w, p, k);
    ShiftRightAgrees(w, p, k);
    IntBytesIs(Wrap128(a * Pow2(k)), w);
    IntBytesIs(a / Pow2(k), w);
  }

  lemma UnsignedDivide(p: nat, q: nat, m: int)
    requires q > 0 && p < m && q < m
    ensures TruncDiv(p, q) % m == p / q && TruncRem(p, q) % m == p % q
  {
    var d, r := p / q, p % q;
    assert p == q * d + r;
    Farther(q, d);
    if d > 0 {
      Ordered(1, q, d);
    }
    Quotient(d, m, 0, d);
    Quotient(r, m, 0, r);
  }

  lemma SpecialPatterns(w: IntWidth, p: nat, q: nat)
    requires p < Span(w) && q < Span(w)
    ensures Decode(w, p) == Decode(w, q) <==> p == q
    ensures Decode(w, q) == 0 <==> q == 0
    ensures Signed(w) ==> (Decode(w, q) == -1 <==> q == Span(w) - 1)
    ensures Signed(w) ==> (Decode(w, p) == Lo(w) <==> p == Span(w) / 2)
    ensures !Signed(w) ==> Decode(w, p) == p
    ensures Decode(w, 0) == 0
  {
  }

  lemma DivideAgrees(op: BinOp, w: IntWidth, profile: Profile, p: nat, q: nat)
    requires p < Span(w) && q < Span(w) && (op.Div? || op.Rem?)
    ensures Render(LowerDivide(op, p, q, w), w) == IntBinary(op, Decode(w, p), Decode(w, q), w, profile)
  {
    hide Span, Lo, IntBytes, ToLe, Decode, SDiv, SRem, UDiv, URem, TruncDiv, TruncRem;
    SpecialPatterns(w, p, q);
    ZeroBytes(w);
    if q != 0 {
      DivideParts(w, p, q);
    }
  }

  lemma ZeroBytes(w: IntWidth)
    ensures IntBytes(0, Bytes(w)) == ToLe(0, Bytes(w))
  {
    IntBytesIs(0, w);
  }

  /** The instructions leave the bytes of the quotient and the remainder. */
  lemma DivideParts(w: IntWidth, p: nat, q: nat)
    requires p < Span(w) && q < Span(w) && q != 0
    ensures Decode(w, q) != 0
    ensures IntBytes(TruncDiv(Decode(w, p), Decode(w, q)), Bytes(w)) == ToLe(if Signed(w) then SDiv(p, q, w) else UDiv(p, q), Bytes(w))
    ensures IntBytes(TruncRem(Decode(w, p), Decode(w, q)), Bytes(w)) == ToLe(if Signed(w) then SRem(p, q, w) else URem(p, q), Bytes(w))
  {
    hide Span, Lo, IntBytes, ToLe, Decode, TruncDiv, TruncRem;
    SpecialPatterns(w, p, q);
    IntBytesIs(TruncDiv(Decode(w, p), Decode(w, q)), w);
    IntBytesIs(TruncRem(Decode(w, p), Decode(w, q)), w);
    if !Signed(w) {
      SpecialPatterns(w, q, p);
      UnsignedDivide(p, q, Span(w));
    }
  }

  lemma BitwiseAgrees(f: Bitwise, w: IntWidth, p: nat, q: nat)
    requires p < Span(w) && q < Span(w)
    ensures IntBytes(Wrap128(BitOp(f, Decode(w, p), Decode(w, q), 128)), Bytes(w)) == ToLe(BitOp(f, p, q, 8 * Bytes(w)), Bytes(w))
  {
    var a, b, n := Decode(w, p), Decode(w, q), 8 * Bytes(w);
    hide BitOp, Span, Pow2, Wrap128, IntBytes, ToLe, Decode;
    SpanIs(w);
    DecodeSame(w, p);
    DecodeSame(w, q);
    BitOpLow(f, a, b, 128, n);
    BitOpOperands(f, a, b, n);
    Wrap128Mod(BitOp(f, a, b, 128), w);
    IntBytesIs(Wrap128(BitOp(f, a, b, 128)), w);
  }

  lemma CheckedAgrees(op: BinOp, w: IntWidth, profile: Profile, p: nat, q: nat)
    requires p < Span(w) && q < Span(w) && (op.Add? || op.Sub? || op.Mul?)
    ensures Render(LowerChecked(op, p, q, w, profile), w) == IntBinary(op, Decode(w, p), Decode(w, q), w, profile)
  {
    hide Span, InRange, Wrap128, IntBytes, ToLe, Decode, WithOverflow;
    var a, b := Decode(w, p), Decode(w, q);
    SumAgrees(w, p, q);
    ProductAgrees(w, p, q);
    IntBytesIs(a + b, w);
    IntBytesIs(a - b, w);
    IntBytesIs(Wrap128(a * b), w);
  }

  lemma WrappingAgrees(op: BinOp, w: IntWidth, profile: Profile, p: nat, q: nat)
    requires p < Span(w) && q < Span(w) && (op.WrappingAdd? || op.WrappingSub? || op.WrappingMul?)
    ensures Render(LowerBinary(op, p, q, w, w, profile), w) == IntBinary(op, Decode(w, p), Decode(w, q), w, profile)
  {
    hide Span, InRange, Wrap128, IntBytes, ToLe, Decode;
    var a, b := Decode(w, p), Decode(w, q);
    SumMod(w, p, q);
    ProductMod(w, p, q);
    Wrap128Mod(a * b, w);
    IntBytesIs(a + b, w);
    IntBytesIs(a - b, w);
    IntBytesIs(Wrap128(a * b), w);
  }

  lemma FlagAgrees(b: bool, w: IntWidth)
    ensures Render(Bool(b), w) == Flag(b)
  {
    assert ToLe(0, 1) == [0] && ToLe(1, 1) == [1] by {
      assert ToLe(0, 0) == [];
      assert 1 / 256 == 0;
    }
  }

  lemma OverflowsAgree(op: BinOp, w: IntWidth, profile: Profile, p: nat, q: nat)
    requires p < Span(w) && q < Span(w) && (op.AddOverflows? || op.SubOverflows? || op.MulOverflows?)
    ensures Render(LowerBinary(op, p, q, w, w, profile), w) == IntBinary(op, Decode(w, p), Decode(w, q), w, profile)
  {
    SameFlags(p, q, w);
    hide Span, InRange, Wrap128, ToLe, Decode, WithOverflow;
    SumAgrees(w, p, q);
    ProductAgrees(w, p, q);
    FlagAgrees(true, w);
    FlagAgrees(false, w);
  }

  lemma SameFlags(p: nat, q: nat, w: IntWidth)
    ensures WithOverflow(AddOverflows, p, q, w) == WithOverflow(Add, p, q, w)
    ensures WithOverflow(SubOverflows, p, q, w) == WithOverflow(Sub, p, q, w)
    ensures WithOverflow(MulOverflows, p, q, w) == WithOverflow(Mul, p, q, w)
  {
  }

  lemma CompareAgrees(op: BinOp, w: IntWidth, profile: Profile, p: nat, q: nat)
    requires p < Span(w) && q < Span(w) && (op.Eq? || op.Ne? || op.Lt? || op.Le? || op.Gt? || op.Ge?)
    ensures Render(LowerBinary(op, p, q, w, w, profile), w) == IntBinary(op, Decode(w, p), Decode(w, q), w, profile)
  {
    SpecialPatterns(w, p, q);
    hide ToLe, Decode;
    FlagAgrees(true, w);
    FlagAgrees(false, w);
  }

  // ---------------------------------------------------------------
  // results
  // ---------------------------------------------------------------

  /** Every binary operator, on every width, in both profiles and on all operand
      bytes, leaves the same bytes or fails with the same message in the machine
      and in lowered code; the amount of a shift may have any width. */
  lemma BinaryAgrees(op: BinOp, w: IntWidth, v: IntWidth, profile: Profile, left: seq<Byte>, right: seq<Byte>)
    requires |left| == Bytes(w) && |right| == Bytes(v) && Typed(op, w, v)
    ensures FromLe(right) < Span(v)
    ensures Render(LowerBinary(op, FromLe(left), FromLe(right), w, v, profile), w)
            == IntBinary(op, IntValue(left, w), IntValue(right, v), w, profile)
  {
    hide Span, Decode, IntValue, FromLe, Wrap128, InRange, ToLe, IntBytes, WithOverflow, LowerDivide, LowerShift, LowerChecked, Shift;
    var p, q := FromLe(left), FromLe(right);
    IntValueIs(left, w);
    IntValueIs(right, v);
    match op
    case Add => CheckedAgrees(op, w, profile, p, q);
    case Sub => CheckedAgrees(op, w, profile, p, q);
    case Mul => CheckedAgrees(op, w, profile, p, q);
    case Div => DivideAgrees(op, w, profile, p, q);
    case Rem => DivideAgrees(op, w, profile, p, q);
    case Shl => ShiftAgrees(op, w, v, profile, p, q);
    case Shr => ShiftAgrees(op, w, v, profile, p, q);
    case BitAnd => BitwiseAgrees(And, w, p, q);
    case BitOr => BitwiseAgrees(Or, w, p, q);
    case BitXor => BitwiseAgrees(Xor, w, p, q);
    case WrappingAdd => WrappingAgrees(op, w, profile, p, q);
    case WrappingSub => WrappingAgrees(op, w, profile, p, q);
    case WrappingMul => WrappingAgrees(op, w, profile, p, q);
    case AddOverflows => OverflowsAgree(op, w, profile, p, q);
    case SubOverflows => OverflowsAgree(op, w, profile, p, q);
    case MulOverflows => OverflowsAgree(op, w, profile, p, q);
    case _ => CompareAgrees(op, w, profile, p, q);
  }

  lemma NegAgrees(w: IntWidth, profile: Profile, bytes: seq<Byte>)
    requires |bytes| == Bytes(w)
    ensures Render(LowerNeg(FromLe(bytes), w, profile), w) == IntNeg(IntValue(bytes, w), w, profile)
  {
    hide IntValue, FromLe, ToLe, IntBytes, Span, Decode, Lo;
    IntValueIs(bytes, w);
    var p := FromLe(bytes);
    IsSmallest(w, p);
    NegMod(w, p);
    IntBytesIs(-Decode(w, p), w);
  }

  lemma NegMod(w: IntWidth, p: nat)
    requires p < Span(w)
    ensures (-Decode(w, p)) % Span(w) == (0 - p) % Span(w)
  {
    var m := Span(w);
    hide Span;
    AddMultiple(0 - p, 1, m);
  }

  lemma IsSmallest(w: IntWidth, p: nat)
    requires p < Span(w)
    ensures Signed(w) ==> (p == Lo(w) % Span(w) <==> Decode(w, p) == Lo(w))
  {
  }

  lemma NotMod(w: IntWidth, p: nat)
    requires p < Span(w)
    ensures (-Decode(w, p) - 1) % Span(w) == Span(w) - 1 - p
  {
    var m := Span(w);
    hide Span;
    var r := m - 1 - p;
    Quotient(r, m, 0, r);
    AddMultiple(r, -1, m);
  }

  lemma NotAgrees(w: IntWidth, bytes: seq<Byte>)
    requires |bytes| == Bytes(w)
    ensures FromLe(bytes) < Span(w) && Render(LowerNot(FromLe(bytes), w), w) == IntNot(IntValue(bytes, w), w)
  {
    hide IntValue, FromLe, ToLe, IntBytes, Span, Decode;
    IntValueIs(bytes, w);
    IntBytesIs(-Decode(w, FromLe(bytes)) - 1, w);
    NotMod(w, FromLe(bytes));
  }

  /** Casts between integer widths leave the same bytes on both sides. */
  lemma CastAgrees(from: IntWidth, to: IntWidth, bytes: seq<Byte>)
    requires |bytes| == Bytes(from)
    ensures ToLe(LowerCast(FromLe(bytes), from, to), Bytes(to)) == Cast(bytes, from, to)
  {
    IntValueIs(bytes, from);
    IntValueIs(bytes, Plain(from));
    hide IntValue, FromLe, ToLe, IntBytes;
    var p := FromLe(bytes);
    var v := if Signed(from) then Decode(from, p) else p;
    IntBytesIs(v, to);
    CastPattern(from, to, p);
  }

  lemma CastPattern(from: IntWidth, to: IntWidth, p: nat)
    requires p < Span(from)
    ensures Decode(from, p) % Span(to) == LowerCast(p, from, to)
  {
    Spans(from, to);
    hide Span;
    var v, m := Decode(from, p), Span(to);
    if Bytes(to) < Bytes(from) {
      Narrowed(from, to, p);
    } else if v == p {
      Quotient(p, m, 0, p);
    } else {
      Quotient(v, m, -1, v + m);
    }
  }

  lemma Spans(a: IntWidth, b: IntWidth)
    ensures Bytes(a) == Bytes(b) ==> Span(a) == Span(b)
    ensures Bytes(a) <= Bytes(b) ==> Span(a) <= Span(b)
  {
  }

  lemma Narrowed(from: IntWidth, to: IntWidth, p: nat)
    requires p < Span(from) && Bytes(to) < Bytes(from)
    ensures Decode(from, p) % Span(to) == p % Span(to)
  {
    hide Span, Decode, Pow2;
    SpanIs(from);
    SpanIs(to);
    DecodeSame(from, p);
    ModPow2(Decode(from, p), 8 * Bytes(to), 8 * Bytes(from));
  }

  /** In debug, arithmetic is exact: it fails if and only if the true result is
      out of the width's range, and otherwise the bytes decode to it. */
  lemma DebugIsExact(op: BinOp, w: IntWidth, a: int, b: int)
    requires InRange(w, a) && InRange(w, b) && (op.Add? || op.Sub? || op.Mul?)
    ensures var exact := if op.Add? then a + b else if op.Sub? then a - b else a * b;
      var r := IntBinary(op, a, b, w, Debug);
      && (r.Fail? <==> !InRange(w, exact))
      && (r.Fail? ==> r.message == if op.Add? then "attempt to add with overflow"
                                   else if op.Sub? then "attempt to subtract with overflow"
                                   else "attempt to multiply with overflow")
      && (r.Ok? ==> |r.bytes| == Bytes(w) && IntValue(r.bytes, w) == exact)
  {
    var exact := if op.Add? then a + b else if op.Sub? then a - b else a * b;
    ProductRange(w, a, b);
    hide Wrap128, IntValue, IntBytes, InRange;
    if InRange(w, exact) {
      Decoded(w, exact);
    }
  }

  lemma Decoded(w: IntWidth, v: int)
    requires InRange(w, v)
    ensures IntValue(IntBytes(v, Bytes(w)), w) == v
  {
    hide IntValue, IntBytes, ToLe, FromLe, Pow2;
    IntBytesIs(v, w);
    IntValueIs(IntBytes(v, Bytes(w)), w);
    DecodeMod(w, v);
    ValueRoundTrip(v % Span(w), Bytes(w));
    SpanIs(w);
    Quotient(v % Span(w), Span(w), 0, v % Span(w));
  }

  /** The overflow predicates say whether debug arithmetic would fail, and the
      wrapping operators are what release arithmetic does. */
  lemma ProfilesRelate(op: BinOp, w: IntWidth, a: int, b: int)
    requires InRange(w, a) && InRange(w, b) && (op.Add? || op.Sub? || op.Mul?)
    ensures var (overflows, wrapping) :=
        if op.Add? then (AddOverflows, WrappingAdd) else if op.Sub? then (SubOverflows, WrappingSub) else (MulOverflows, WrappingMul);
      && IntBinary(overflows, a, b, w, Release) == Flag(IntBinary(op, a, b, w, Debug).Fail?)
      && IntBinary(wrapping, a, b, w, Debug) == IntBinary(op, a, b, w, Release)
  {
    hide Wrap128, InRange, IntBytes, Shift, BitOp, TruncDiv, TruncRem, Lo, Signed;
    ProductRange(w, a, b);
  }

  /** The smallest number by minus one: the quotient fails, the remainder is 0. */
  lemma MinByMinusOne(w: IntWidth, profile: Profile)
    requires Signed(w)
    ensures IntBinary(Div, Lo(w), -1, w, profile) == Fail("attempt to divide with overflow")
    ensures IntBinary(Rem, Lo(w), -1, w, profile) == Ok(IntBytes(0, Bytes(w)))
    ensures IntValue(IntBytes(0, Bytes(w)), w) == 0
  {
    hide IntValue, IntBytes;
    Decoded(w, 0);
  }
}
