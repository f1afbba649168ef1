/** Powers of two, remainders, little-endian bytes and bitwise operations on
    unbounded integers in two's complement. */
module Bits {

  type Byte = n: int | 0 <= n < 256

  function Pow2(n: nat): (r: nat)
    ensures r > 0
  {
    if n == 0 then 1 else 2 * Pow2(n - 1)
  }

  lemma {:induction false} Pow2Add(a: nat, b: nat)
    ensures Pow2(a + b) == Pow2(a) * Pow2(b)
  {
    if a > 0 {
      Pow2Add(a - 1, b);
    }
  }

  lemma Pow2Byte()
    ensures Pow2(8) == 0x100
  {
    assert Pow2(4) == 0x10;
  }

  lemma Pow2Half(n: nat)
    requires n > 0
    ensures Pow2(n) == 2 * Pow2(n - 1)
  {
  }

  lemma Pow2Values()
    ensures Pow2(8) == 0x100 && Pow2(16) == 0x1_0000 && Pow2(32) == 0x1_0000_0000
    ensures Pow2(63) == 0x8000_0000_0000_0000 && Pow2(64) == 0x1_0000_0000_0000_0000
    ensures Pow2(127) == 0x8000_0000_0000_0000_0000_0000_0000_0000
    ensures Pow2(128) == 0x1_0000_0000_0000_0000_0000_0000_0000_0000
  {
    hide Pow2;
    Pow2Byte();
    Pow2Add(8, 8);
    Pow2Add(16, 16);
    Pow2Add(32, 32);
    Pow2Add(64, 64);
    Pow2Half(64);
    Pow2Half(128);
  }

  // ---------------------------------------------------------------
  // quotients and remainders
  // ---------------------------------------------------------------

  lemma Quotient(v: int, d: int, q: int, r: int)
    requires d > 0 && v == d * q + r && 0 <= r < d
    ensures v / d == q && v % d == r
  {
    var k := q - v / d;
    assert d * k == v % d - r by {
      assert d * k == d * q - d * (v / d);
    }
    Farther(d, k);
  }

  lemma Farther(d: int, k: int)
    requires d > 0
    ensures k >= 1 ==> d * k >= d
    ensures k <= -1 ==> d * k <= -d
  {
  }

  /** Multiples of the modulus do not change a remainder. */
  lemma AddMultiple(x: int, k: int, m: int)
    requires m > 0
    ensures (x + m * k) % m == x % m && (x + m * k) / m == x / m + k
  {
    Quotient(x + m * k, m, x / m + k, x % m) by {
      assert m * (x / m + k) == m * (x / m) + m * k;
    }
  }

  /** A remainder by a product, from the remainder by one factor. */
  lemma Split(v: int, a: int, b: int)
    requires a > 0 && b > 0
    ensures a * b > 0 && v % (a * b) == v % a + a * ((v / a) % b) && v / (a * b) == v / a / b
  {
    var q, r := v / a / b, v / a % b;
    assert a * r <= a * (b - 1);
    assert a * (b - 1) == a * b - a;
    assert v / a == b * q + r;
    assert v == a * b * q + (a * r + v % a) by {
      assert v == a * (b * q + r) + v % a;
      assert a * (b * q + r) == a * (b * q) + a * r;
      assert a * (b * q) == a * b * q;
    }
    assert a * b > 0;
    Quotient(v, a * b, q, a * r + v % a);
  }

  lemma Digit(d: int, rest: int, p: int)
    requires 0 <= d < 2 && p > 0
    ensures (d + 2 * rest) % (2 * p) == d + 2 * (rest % p)
  {
    Quotient(d + 2 * rest, 2, rest, d);
    Split(d + 2 * rest, 2, p);
  }

  lemma LastDigit(a: int, p: int, q: int)
    requires p > 0 && q == 2 * p
    ensures a % q == a % 2 + 2 * (a / 2 % p)
  {
    Digit(a % 2, a / 2, p);
    assert a % 2 + 2 * (a / 2) == a;
  }

  lemma ModMod(v: int, a: int, b: int)
    requires a > 0 && b > 0
    ensures a * b > 0 && v % (a * b) % a == v % a
  {
    Split(v, a, b);
    var r, k := v % a, v / a % b;
    AddMultiple(r, k, a);
    Quotient(r, a, 0, r);
  }

  /** Reducing by a larger power of two first changes nothing. */
  lemma ModPow2(v: int, n: nat, m: nat)
    requires n <= m
    ensures v % Pow2(m) % Pow2(n) == v % Pow2(n)
  {
    Pow2Add(n, m - n);
    ModMod(v, Pow2(n), Pow2(m - n));
  }

  // ---------------------------------------------------------------
  // bytes
  // ---------------------------------------------------------------

  function FromLe(bytes: seq<Byte>): nat {
    if bytes == [] then 0 else bytes[0] + 256 * FromLe(bytes[1..])
  }

  function ToLe(v: nat, n: nat): (bytes: seq<Byte>)
    ensures |bytes| == n
  {
    if n == 0 then [] else [v % 256] + ToLe(v / 256, n - 1)
  }

  lemma {:induction false} FromLeBound(bytes: seq<Byte>)
    ensures FromLe(bytes) < Pow2(8 * |bytes|)
  {
    if bytes != [] {
      FromLeBound(bytes[1..]);
      Pow2Add(8, 8 * |bytes[1..]|);
      Pow2Values();
    }
  }

  /** Bytes written and read back. */
  lemma {:induction false} BytesRoundTrip(bytes: seq<Byte>)
    ensures ToLe(FromLe(bytes), |bytes|) == bytes
  {
    if bytes != [] {
      BytesRoundTrip(bytes[1..]);
      Quotient(FromLe(bytes), 256, FromLe(bytes[1..]), bytes[0]);
    }
  }

  lemma {:induction false} ValueRoundTrip(v: nat, n: nat)
    ensures FromLe(ToLe(v, n)) == v % Pow2(8 * n)
  {
    if n == 0 {
      assert Pow2(0) == 1;
    } else {
      hide Pow2;
      ValueRoundTrip(v / 256, n - 1);
      Pow2Byte();
      Pow2Add(8, 8 * (n - 1));
      Split(v, 256, Pow2(8 * (n - 1)));
      assert ToLe(v, n)[1..] == ToLe(v / 256, n - 1);
    }
  }

  /** The first bytes of a number are those of its remainder. */
  lemma {:induction false} LowBytes(v: nat, m: nat, n: nat)
    requires n <= m
    ensures ToLe(v, m)[..n] == ToLe(v % Pow2(8 * n), n)
  {
    if n > 0 {
      hide Pow2;
      var low := v % Pow2(8 * n);
      Pow2Byte();
      Pow2Add(8, 8 * (n - 1));
      Split(v, 256, Pow2(8 * (n - 1)));
      Quotient(low, 256, v / 256 % Pow2(8 * (n - 1)), v % 256);
      LowBytes(v / 256, m - 1, n - 1);
      assert ToLe(v, m)[..n] == [v % 256] + ToLe(v / 256, m - 1)[..n - 1];
    }
  }

  // ---------------------------------------------------------------
  // bitwise operations
  // ---------------------------------------------------------------

  datatype Bitwise = And | Or | Xor

  function Bit(f: Bitwise, x: int, y: int): (r: nat)
    requires 0 <= x <= 1 && 0 <= y <= 1
    ensures r <= 1
  {
    match f
    case And => x * y
    case Or => x + y - x * y
    case Xor => if x == y then 0 else 1
  }

  /** The low `n` bits of two numbers combined bit by bit. */
  function BitOp(f: Bitwise, a: int, b: int, n: nat): (r: nat)
    decreases n
  {
    if n == 0 then 0 else Bit(f, a % 2, b % 2) + 2 * BitOp(f, a / 2, b / 2, n - 1)
  }

  lemma {:induction false} BitOpBound(f: Bitwise, a: int, b: int, n: nat)
    ensures BitOp(f, a, b, n) < Pow2(n)
    decreases n
  {
    if n > 0 {
      BitOpBound(f, a / 2, b / 2, n - 1);
    }
  }

  /** Combining more bits and keeping the low ones is combining the low ones. */
  lemma {:induction false} BitOpLow(f: Bitwise, a: int, b: int, m: nat, n: nat)
    requires n <= m
    ensures BitOp(f, a, b, m) % Pow2(n) == BitOp(f, a, b, n)
    decreases n
  {
    if n > 0 {
      var d, rest := Bit(f, a % 2, b % 2), BitOp(f, a / 2, b / 2, m - 1);
      BitOpLow(f, a / 2, b / 2, m - 1, n - 1);
      Digit(d, rest, Pow2(n - 1));
    }
  }

  /** Only the low bits of the operands count. */
  lemma {:induction false} BitOpOperands(f: Bitwise, a: int, b: int, n: nat)
    ensures BitOp(f, a, b, n) == BitOp(f, a % Pow2(n), b % Pow2(n), n)
    decreases n
  {
    if n > 0 {
      BitOpOperands(f, a / 2, b / 2, n - 1);
      var p := Pow2(n - 1);
      Split(a, 2, p);
      Split(b, 2, p);
      Quotient(a % (2 * p), 2, a / 2 % p, a % 2);
      Quotient(b % (2 * p), 2, b / 2 % p, b % 2);
    }
  }

  lemma {:induction false} AndZero(a: int, n: nat)
    ensures BitOp(And, a, 0, n) == 0
    decreases n
  {
    if n > 0 {
      AndZero(a / 2, n - 1);
    }
  }

  /** Masking with the low `k` bits set is the remainder by their span. */
  lemma AndOdd(a: int, b: int, n: nat)
    requires n > 0
    ensures BitOp(And, a, 2 * b + 1, n) == a % 2 + 2 * BitOp(And, a / 2, b, n - 1)
  {
    assert (2 * b + 1) % 2 == 1 && (2 * b + 1) / 2 == b;
  }

  lemma MaskOneMore(a: int, p: int, q: int, n: nat)
    requires p > 0 && q == 2 * p && n > 0 && BitOp(And, a / 2, p - 1, n - 1) == a / 2 % p
    ensures BitOp(And, a, q - 1, n) == a % q
  {
    hide BitOp;
    assert 2 * (p - 1) + 1 == q - 1;
    AndOdd(a, p - 1, n);
    LastDigit(a, p, q);
  }

  lemma {:induction false} AndMask(a: int, k: nat, n: nat)
    requires k <= n
    ensures BitOp(And, a, Pow2(k) - 1, n) == a % Pow2(k)
    decreases n
  {
    if k == 0 {
      AndZero(a, n);
    } else {
      hide Pow2, BitOp;
      AndMask(a / 2, k - 1, n - 1);
      Pow2Half(k);
      MaskOneMore(a, Pow2(k - 1), Pow2(k), n);
    }
  }
}
