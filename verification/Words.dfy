/**
 Machine words: bytes, little-endian fields, bitwise AND on naturals, and the
 power-of-two masks that the ring indices rely on.
 */
module Words {

  type byte = x: int | 0 <= x < 256

  const U16: nat := 0x1_0000
  const U31: nat := 0x8000_0000
  const U32: nat := 0x1_0000_0000
  const U64: nat := 0x1_0000_0000_0000_0000

  function Min(a: int, b: int): int {
    if a < b then a else b
  }

  function Max(a: int, b: int): int {
    if a < b then b else a
  }

  /** The conversion of an unsigned 32-bit value to a C int. */
  function ToInt32(u: nat): (r: int)
    requires u < U32
    ensures -0x8000_0000 <= r < 0x8000_0000 && (r == u || r == u - 0x1_0000_0000)
  {
    if u < U31 then u else u - U32
  }

  // Little-endian fields of a byte string

  function Get16(m: seq<byte>, a: nat): nat
    requires a + 2 <= |m|
  {
    m[a] as int + 0x100 * (m[a + 1] as int)
  }

  function Get32(m: seq<byte>, a: nat): nat
    requires a + 4 <= |m|
  {
    Get16(m, a) + U16 * Get16(m, a + 2)
  }

  function Get64(m: seq<byte>, a: nat): nat
    requires a + 8 <= |m|
  {
    Get32(m, a) + U32 * Get32(m, a + 4)
  }

  /** The fields, byte by byte. */
  lemma LittleEndian(m: seq<byte>, a: nat)
    ensures a + 2 <= |m| ==> Get16(m, a) == m[a] as int + 0x100 * m[a + 1] as int
    ensures a + 4 <= |m| ==>
              Get32(m, a) == m[a] as int + 0x100 * m[a + 1] as int + 0x1_0000 * m[a + 2] as int
                             + 0x100_0000 * m[a + 3] as int
    ensures a + 8 <= |m| ==>
              Get64(m, a) == m[a] as int + 0x100 * m[a + 1] as int + 0x1_0000 * m[a + 2] as int
                             + 0x100_0000 * m[a + 3] as int + 0x1_0000_0000 * m[a + 4] as int
                             + 0x100_0000_0000 * m[a + 5] as int + 0x1_0000_0000_0000 * m[a + 6] as int
                             + 0x100_0000_0000_0000 * m[a + 7] as int
  {
  }

  function Put16(v: nat): (b: seq<byte>)
    ensures |b| == 2
    ensures Get16(b, 0) == v % U16
  {
    [v % 0x100, v / 0x100 % 0x100]
  }

  function Put32(v: nat): (b: seq<byte>)
    ensures |b| == 4
    ensures Get32(b, 0) == v % U32
  {
    Put16(v) + Put16(v / U16)
  }

  /** A 16-bit store keeps the value modulo 2^16. */
  lemma Put16Wraps(v: nat)
    ensures Put16(v) == Put16(v % U16)
  {
    var q, r := v / U16, v % U16;
    assert v == 0x100 * (0x100 * q) + r;
    assert v / 0x100 == 0x100 * q + r / 0x100;
    assert v % 0x100 == r % 0x100;
  }

  lemma WrapNext(k: nat)
    ensures (k % U16 + 1) % U16 == (k + 1) % U16
  {
  }

  lemma Put16Next(k: nat)
    ensures Put16(k % U16 + 1) == Put16(k + 1)
  {
    hide Put16, Get16;
    Put16Wraps(k % U16 + 1);
    Put16Wraps(k + 1);
    WrapNext(k);
  }

  // Bitwise AND and masks

  function BitAnd(x: nat, y: nat): nat
    decreases x
  {
    if x == 0 || y == 0 then 0
    else (if x % 2 == 1 && y % 2 == 1 then 1 else 0) + 2 * BitAnd(x / 2, y / 2)
  }

  predicate IsPow2(n: nat) {
    n == 1 || (n > 1 && n % 2 == 0 && IsPow2(n / 2))
  }

  lemma {:induction false} AndSelf(x: nat)
    ensures BitAnd(x, x) == x
  {
    if x > 0 {
      AndSelf(x / 2);
    }
  }

  /** The queue-size test `(val & (val - 1)) == 0` accepts exactly the powers of two. */
  lemma {:induction false} PowerOfTwoTest(v: nat)
    requires v > 0
    ensures BitAnd(v, v - 1) == 0 <==> IsPow2(v)
  {
    if v % 2 == 1 {
      assert (v - 1) / 2 == v / 2;
      AndSelf(v / 2);
    } else {
      assert (v - 1) / 2 == v / 2 - 1;
      PowerOfTwoTest(v / 2);
    }
  }

  lemma ModUnique(x: int, n: int, q: int, r: int)
    requires n > 0 && 0 <= r < n && x == q * n + r
    ensures x % n == r && x / n == q
  {
    var d := x / n - q;
    assert x == (x / n) * n + x % n;
    assert d * n == r - x % n;
    assert d >= 1 ==> d * n >= n;
    assert d <= -1 ==> d * n <= -n;
  }

  /** Fewer than n consecutive numbers are distinct modulo n. */
  lemma ModDistinct(a: nat, b: nat, n: nat)
    requires n > 0 && a < b < a + n
    ensures a % n != b % n
  {
    var q, r := a / n, a % n;
    if r + (b - a) < n {
      ModUnique(b, n, q, r + (b - a));
    } else {
      assert (q + 1) * n == q * n + n;
      ModUnique(b, n, q + 1, r + (b - a) - n);
    }
  }

  lemma ModSame(a: nat, b: nat, n: nat)
    requires n > 0 && a <= b < a + n
    ensures a % n == b % n <==> a == b
  {
    if a < b {
      ModDistinct(a, b, n);
    }
  }

  /** Two counts at most 2^16 apart have the same index when they are equal, or exactly 2^16 apart. */
  lemma SameIndex(a: nat, b: nat)
    requires a <= b <= a + U16
    ensures a % U16 == b % U16 <==> a == b || b == a + U16
  {
    if b < a + U16 {
      ModSame(a, b, U16);
    }
  }

  /** Four-byte alignment is enough for the neighbouring words and half words. */
  lemma Aligned(a: nat)
    requires a % 4 == 0
    ensures a % 2 == 0 && (a + 2) % 2 == 0 && (a + 4) % 4 == 0
  {
    var q := a / 4;
    assert a == 4 * q;
    ModUnique(a, 2, 2 * q, 0);
    ModUnique(a + 2, 2, 2 * q + 1, 0);
    ModUnique(a + 4, 4, q + 1, 0);
  }

  lemma ModDouble(x: nat, k: nat)
    requires k > 0
    ensures x % (2 * k) == x % 2 + 2 * (x / 2 % k)
  {
    var h := x / 2;
    assert h == (h / k) * k + h % k;
    assert (h / k) * (2 * k) == 2 * ((h / k) * k);
    ModUnique(x, 2 * k, h / k, x % 2 + 2 * (h % k));
  }

  /** Masking with a power of two minus one is the remainder. */
  lemma {:induction false} MaskIsMod(x: nat, n: nat)
    requires IsPow2(n)
    ensures BitAnd(x, n - 1) == x % n
  {
    if n > 1 {
      var k := n / 2;
      assert (n - 1) / 2 == k - 1 && (n - 1) % 2 == 1;
      MaskIsMod(x / 2, k);
      ModDouble(x, k);
    }
  }

  lemma ModOfMod(x: nat, q: nat, n: nat)
    requires n > 0 && q > 0
    ensures x % (q * n) % n == x % n
  {
    var b := q * n;
    assert b > 0;
    var d, r := x / b, x % b;
    assert x == d * b + r;
    assert r == (r / n) * n + r % n;
    assert x == (d * q + r / n) * n + r % n by {
      assert d * b == (d * q) * n;
      assert (d * q + r / n) * n == (d * q) * n + (r / n) * n;
    }
    ModUnique(x, n, d * q + r / n, r % n);
  }

  /** A power of two up to 2^e divides 2^e; here for the 16-bit index space. */
  lemma {:induction false} Pow2Divides(n: nat, b: nat) returns (q: nat)
    requires IsPow2(n) && IsPow2(b) && n <= b
    ensures q > 0 && b == q * n
    decreases n
  {
    if n == 1 {
      q := b;
    } else {
      q := Pow2Divides(n / 2, b / 2);
      assert b == 2 * (b / 2) && n == 2 * (n / 2);
      assert 2 * (q * (n / 2)) == q * n;
    }
  }

  lemma TwiceIsPow2(n: nat)
    requires IsPow2(n)
    ensures IsPow2(2 * n)
  {
    assert 2 * n / 2 == n;
  }

  lemma TimesSixteen(n: nat)
    requires IsPow2(n)
    ensures IsPow2(16 * n)
  {
    hide IsPow2;
    TwiceIsPow2(n);
    TwiceIsPow2(2 * n);
    TwiceIsPow2(4 * n);
    TwiceIsPow2(8 * n);
  }

  lemma SixteenBitsIsPow2()
    ensures IsPow2(U16)
  {
    assert IsPow2(1);
    hide IsPow2;
    TimesSixteen(1);
    TimesSixteen(0x10);
    TimesSixteen(0x100);
    TimesSixteen(0x1000);
  }

  lemma SlotOf(k: nat, n: nat)
    requires IsPow2(n) && n <= U16
    ensures BitAnd(k % U16, n - 1) == k % n
  {
    SixteenBitsIsPow2();
    var q := Pow2Divides(n, U16);
    MaskIsMod(k % U16, n);
    ModOfMod(k, q, n);
  }

  /** The slot the device computes from its 16-bit index is the slot of the count k. */
  predicate SlotAgrees(k: nat, n: nat)
    requires n > 0
  {
    BitAnd(k % U16, n - 1) == k % n
  }

  /** The two lowest bits, as masks. */
  lemma LowBits(x: nat)
    ensures BitAnd(x, 1) == x % 2
    ensures BitAnd(x, 2) == 2 * (x / 2 % 2)
  {
    assert x > 0 ==> BitAnd(x / 2, 0) == 0;
    assert x / 2 > 0 ==> BitAnd(x / 2, 1) == x / 2 % 2 + 2 * BitAnd(x / 2 / 2, 0);
  }

  /**
   The 16-bit index selects the slot of the unbounded count for every count
   exactly when the queue size is at most 2^16.
   */
  lemma SlotAcrossWrap(n: nat)
    requires IsPow2(n)
    ensures (forall k: nat :: SlotAgrees(k, n)) <==> n <= U16
  {
    if n <= U16 {
      forall k: nat
        ensures SlotAgrees(k, n)
      {
        SlotOf(k, n);
      }
    } else {
      assert !SlotAgrees(U16, n) by {
        assert BitAnd(0, n - 1) == 0;
      }
    }
  }
}
