/** Byte strings, fixed-width readers and writers, and in-place patches. */
module MachoBytes {
  type byte = x: int | 0 <= x < 256
  type bytes = seq<byte>

  const TWO32: int := 0x1_0000_0000
  const TWO64: int := 0x1_0000_0000_0000_0000

  /** Little-endian unsigned 32-bit word. */
  function U32(d: bytes, o: int): (r: int)
    requires 0 <= o && o + 4 <= |d|
    ensures 0 <= r < TWO32
  {
    var a: int, b: int, c: int, e: int := d[o], d[o + 1], d[o + 2], d[o + 3];
    a + 0x100 * b + 0x1_0000 * c + 0x100_0000 * e
  }

  /** Little-endian unsigned 64-bit word. */
  function U64(d: bytes, o: int): (r: int)
    requires 0 <= o && o + 8 <= |d|
    ensures 0 <= r < TWO64
  {
    U32(d, o) + TWO32 * U32(d, o + 4)
  }

  /** Little-endian two's-complement 32-bit word. */
  function I32(d: bytes, o: int): (r: int)
    requires 0 <= o && o + 4 <= |d|
    ensures -0x8000_0000 <= r < 0x8000_0000
  {
    var u := U32(d, o);
    if u < 0x8000_0000 then u else u - TWO32
  }

  /** Big-endian unsigned 32-bit word. */
  function B32(d: bytes, o: int): (r: int)
    requires 0 <= o && o + 4 <= |d|
    ensures 0 <= r < TWO32
  {
    var a: int, b: int, c: int, e: int := d[o + 3], d[o + 2], d[o + 1], d[o];
    a + 0x100 * b + 0x1_0000 * c + 0x100_0000 * e
  }

  function E32(v: int): (r: bytes)
    requires 0 <= v < TWO32
    ensures |r| == 4
  {
    [v % 0x100, v / 0x100 % 0x100, v / 0x1_0000 % 0x100, v / 0x100_0000]
  }

  function E64(v: int): (r: bytes)
    requires 0 <= v < TWO64
    ensures |r| == 8
  {
    E32(v % TWO32) + E32(v / TWO32)
  }

  function EB32(v: int): (r: bytes)
    requires 0 <= v < TWO32
    ensures |r| == 4
  {
    [v / 0x100_0000, v / 0x1_0000 % 0x100, v / 0x100 % 0x100, v % 0x100]
  }

  /** not any(d[start:stop]); like a Python slice it stops at the end of d. */
  predicate AllZero(d: bytes, start: int, stop: int)
    requires 0 <= start
  {
    forall k | start <= k < stop && k < |d| :: d[k] == 0
  }

  function Zeros(n: nat): (r: bytes)
    ensures |r| == n && forall k | 0 <= k < n :: r[k] == 0
  {
    seq(n, _ => 0)
  }

  /** d with the bytes at o replaced by b. */
  function Patch(d: bytes, o: int, b: bytes): (r: bytes)
    requires 0 <= o && o + |b| <= |d|
    ensures |r| == |d|
    ensures forall k | 0 <= k < |d| :: r[k] == if o <= k < o + |b| then b[k - o] else d[k]
  {
    d[..o] + b + d[o + |b|..]
  }

  /** The next multiple of the unit. */
  function RoundUp(n: int, unit: int): (r: int)
    requires 0 <= n && unit > 0
    ensures r >= n && r - n < unit && r % unit == 0
  {
    var m := n + unit - 1;
    var q := m / unit;
    assert m == q * unit + m % unit;
    MultipleMod(q, unit);
    q * unit
  }

  lemma {:induction false} MultipleMod(q: int, unit: int)
    requires unit > 0 && q >= 0
    ensures (q * unit) % unit == 0
  {
    if q > 0 {
      MultipleMod(q - 1, unit);
      assert q * unit == (q - 1) * unit + unit;
      ModPlusUnit((q - 1) * unit, unit);
    }
  }

  lemma ModPlusUnit(a: int, unit: int)
    requires unit > 0
    ensures (a + unit) % unit == a % unit
  {
    var q, r := a / unit, a % unit;
    var q', r' := (a + unit) / unit, (a + unit) % unit;
    assert a == q * unit + r && a + unit == q' * unit + r';
    var d := q' - q - 1;
    assert d * unit == r - r';
    MulBounds(d, unit);
  }

  lemma MulBounds(d: int, unit: int)
    requires unit > 0
    ensures d >= 1 ==> d * unit >= unit
    ensures d <= -1 ==> d * unit <= -unit
  {
  }

  lemma ReadOfE32(v: int)
    requires 0 <= v < TWO32
    ensures U32(E32(v), 0) == v
  {
    var v1 := v / 0x100;
    var v2 := v1 / 0x100;
    assert v / 0x1_0000 == v2 && v / 0x100_0000 == v2 / 0x100;
    assert v == v % 0x100 + 0x100 * v1 && v1 == v1 % 0x100 + 0x100 * v2 && v2 == v2 % 0x100 + 0x100 * (v2 / 0x100);
  }

  lemma FourDigits(a: int, b: int, c: int, e: int)
    requires 0 <= a < 0x100 && 0 <= b < 0x100 && 0 <= c < 0x100 && 0 <= e < 0x100
    ensures var v := a + 0x100 * b + 0x1_0000 * c + 0x100_0000 * e;
            && 0 <= v < TWO32 && v % 0x100 == a && v / 0x100 % 0x100 == b
            && v / 0x1_0000 % 0x100 == c && v / 0x100_0000 == e
  {
    var v := a + 0x100 * b + 0x1_0000 * c + 0x100_0000 * e;
    assert v == a + 0x100 * (b + 0x100 * c + 0x1_0000 * e);
    assert v == (a + 0x100 * b) + 0x1_0000 * (c + 0x100 * e);
    assert v == (a + 0x100 * b + 0x1_0000 * c) + 0x100_0000 * e;
    assert b + 0x100 * c + 0x1_0000 * e == b + 0x100 * (c + 0x100 * e);
  }

  /** Reading a word and writing it back gives the same four bytes. */
  lemma WriteOfU32(d: bytes, o: int)
    requires 0 <= o && o + 4 <= |d|
    ensures E32(U32(d, o)) == d[o..o + 4]
  {
    var a: int, b: int, c: int, e: int := d[o], d[o + 1], d[o + 2], d[o + 3];
    var v := U32(d, o);
    FourDigits(a, b, c, e);
  }

  lemma HighAndLow(lo: int, hi: int)
    requires 0 <= lo < TWO32
    ensures (lo + TWO32 * hi) % TWO32 == lo && (lo + TWO32 * hi) / TWO32 == hi
  {
  }

  lemma WriteOfU64(d: bytes, o: int)
    requires 0 <= o && o + 8 <= |d|
    ensures E64(U64(d, o)) == d[o..o + 8]
  {
    WriteOfU32(d, o);
    WriteOfU32(d, o + 4);
    hide U32, E32;
    HighAndLow(U32(d, o), U32(d, o + 4));
    assert d[o..o + 8] == d[o..o + 4] + d[o + 4..o + 8];
  }

  lemma WriteOfB32(d: bytes, o: int)
    requires 0 <= o && o + 4 <= |d|
    ensures EB32(B32(d, o)) == d[o..o + 4]
  {
    var a: int, b: int, c: int, e: int := d[o + 3], d[o + 2], d[o + 1], d[o];
    var v := B32(d, o);
    FourDigits(a, b, c, e);
  }

  /** Four equal bytes read as the same word. */
  lemma SameU32(a: bytes, b: bytes, o: int)
    requires 0 <= o && o + 4 <= |a| && o + 4 <= |b|
    requires forall k | o <= k < o + 4 :: a[k] == b[k]
    ensures U32(a, o) == U32(b, o)
  {
  }

  lemma SameU64(a: bytes, b: bytes, o: int)
    requires 0 <= o && o + 8 <= |a| && o + 8 <= |b|
    requires forall k | o <= k < o + 8 :: a[k] == b[k]
    ensures U64(a, o) == U64(b, o)
  {
    SameU32(a, b, o);
    SameU32(a, b, o + 4);
  }

  /** A region that holds E32(v) reads as v, and conversely. */
  lemma ReadBack32(d: bytes, o: int, v: int)
    requires 0 <= o && o + 4 <= |d| && 0 <= v < TWO32
    ensures U32(d, o) == v <==> forall k | 0 <= k < 4 :: d[o + k] == E32(v)[k]
  {
    WriteOfU32(d, o);
    ReadOfE32(v);
    if forall k | 0 <= k < 4 :: d[o + k] == E32(v)[k] {
      assert d[o..o + 4] == E32(v);
    }
    if U32(d, o) == v {
      forall k | 0 <= k < 4 ensures d[o + k] == E32(v)[k] { assert d[o..o + 4][k] == d[o + k]; }
    }
  }

  lemma ReadBack64(d: bytes, o: int, v: int)
    requires 0 <= o && o + 8 <= |d| && 0 <= v < TWO64
    ensures U64(d, o) == v <==> forall k | 0 <= k < 8 :: d[o + k] == E64(v)[k]
  {
    var lo, hi := v % TWO32, v / TWO32;
    ReadBack32(d, o, lo);
    ReadBack32(d, o + 4, hi);
    if U64(d, o) == v {
      WriteOfU64(d, o);
      forall k | 0 <= k < 8 ensures d[o + k] == E64(v)[k] { assert d[o..o + 8][k] == d[o + k]; }
    }
    if forall k | 0 <= k < 8 :: d[o + k] == E64(v)[k] {
      forall k | 0 <= k < 4 ensures d[o + k] == E32(lo)[k] { assert E64(v)[k] == E32(lo)[k]; }
      forall k | 0 <= k < 4 ensures d[o + 4 + k] == E32(hi)[k] { assert E64(v)[k + 4] == E32(hi)[k]; }
    }
  }
}
