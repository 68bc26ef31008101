// Java integer widths and the parts of java.nio.ByteBuffer that the
// Parallel Java message buffers use: big-endian shorts and ints, a position
// and a limit.

module JavaInts {

  /** Java `int`. */
  newtype int32 = x: int | -0x8000_0000 <= x < 0x8000_0000

  /** Java `short`. */
  newtype int16 = x: int | -0x8000 <= x < 0x8000

  function Min(a: int, b: int): int { if a <= b then a else b }

  function Max(a: int, b: int): int { if a <= b then b else a }

  /** Java `int` addition: the mathematical sum wrapped to 32 bits. */
  function AddInt(a: int32, b: int32): (r: int32)
    ensures (r as int - (a as int + b as int)) % 0x1_0000_0000 == 0
    ensures -0x8000_0000 <= a as int + b as int < 0x8000_0000 ==> r as int == a as int + b as int
  {
    var u := (a as int + b as int) % 0x1_0000_0000;
    if u < 0x8000_0000 then u as int32 else (u - 0x1_0000_0000) as int32
  }

  /** The cast `(short) x`: keeps the low 16 bits, read as a signed value. */
  function ToShort(x: int32): (s: int16)
    ensures (s as int - x as int) % 0x1_0000 == 0
  {
    var u := x as int % 0x1_0000;
    if u < 0x8000 then u as int16 else (u - 0x1_0000) as int16
  }

  /** `s & 0xFFFF` on a short promoted to int: its low 16 bits, unsigned. */
  function LowBits16(s: int16): (u: int32)
    ensures 0 <= u as int < 0x1_0000
    ensures (u as int - s as int) % 0x1_0000 == 0
  {
    (s as int % 0x1_0000) as int32
  }

  /** Zero-extending the truncated value gives back the value modulo 2^16. */
  lemma LowBitsOfShort(x: int32)
    ensures LowBits16(ToShort(x)) as int == x as int % 0x1_0000
  {
    var s := ToShort(x) as int;
    assert (s - x as int) % 0x1_0000 == 0;
    ModOfDifference(s, x as int, 0x1_0000);
  }

  lemma ModOfDifference(a: int, b: int, m: int)
    requires m > 0 && (a - b) % m == 0
    ensures a % m == b % m
  {
    var q := (a - b) / m;
    assert a - b == m * q;
    assert a == b + m * q;
    ModPlusMultiple(b, q, m);
  }

  lemma ModPlusMultiple(b: int, q: int, m: int)
    requires m > 0
    ensures (b + m * q) % m == b % m
  {
    var r := b % m;
    var d := b / m;
    assert b == m * d + r;
    assert b + m * q == m * (d + q) + r;
    DivModUnique(b + m * q, d + q, r, m);
  }

  lemma DivModFacts(x: int, m: int)
    requires 0 <= x && m > 0
    ensures 0 <= x / m && x == m * (x / m) + x % m && 0 <= x % m < m
  {
  }

  /** Division by a positive modulus has only one quotient and remainder. */
  lemma DivModUnique(x: int, q: int, r: int, m: int)
    requires m > 0 && 0 <= r < m && x == m * q + r
    ensures x / m == q && x % m == r
  {
    var q' := x / m;
    var r' := x % m;
    assert x == m * q' + r';
    assert m * (q - q') == r' - r;
    if q > q' {
      assert m * (q - q') >= m * 1 by { MulMono(m, 1, q - q'); }
      assert false;
    } else if q < q' {
      assert m * (q' - q) >= m * 1 by { MulMono(m, 1, q' - q); }
      assert false;
    }
  }

  lemma MulMono(m: int, a: int, b: int)
    requires m >= 0 && a <= b
    ensures m * a <= m * b && a * m <= b * m
  {
    assert m * b - m * a == m * (b - a);
  }
}

module ByteBuffers {
  import opened JavaInts

  predicate IsByte(b: int) { 0 <= b < 256 }

  predicate AllBytes(d: seq<int>) { forall k :: 0 <= k < |d| ==> IsByte(d[k]) }

  /** The two bytes `putShort` stores, high byte first. */
  function ShortBytes(s: int16): (b: seq<int>)
    ensures |b| == 2 && AllBytes(b)
  {
    var u := s as int % 0x1_0000;
    [u / 0x100, u % 0x100]
  }

  /** The short `getShort` reads from two bytes, high byte first. */
  function ShortOf(hi: int, lo: int): int16
    requires IsByte(hi) && IsByte(lo)
  {
    var u := hi * 0x100 + lo;
    if u < 0x8000 then u as int16 else (u - 0x1_0000) as int16
  }

  /** Reading back the two bytes of a short gives the short. */
  lemma ShortRoundTrip(s: int16)
    ensures ShortOf(ShortBytes(s)[0], ShortBytes(s)[1]) == s
  {
    var u := s as int % 0x1_0000;
    DivModUnique(u, u / 0x100, u % 0x100, 0x100);
    assert (u / 0x100) * 0x100 + u % 0x100 == u;
    if s >= 0 {
      DivModUnique(s as int, 0, s as int, 0x1_0000);
    } else {
      DivModUnique(s as int, -1, s as int + 0x1_0000, 0x1_0000);
    }
  }

  /** The four bytes `putInt` stores, most significant first. */
  function IntBytes(v: int32): (b: seq<int>)
    ensures |b| == 4 && AllBytes(b)
  {
    var u := v as int % 0x1_0000_0000;
    [u / 0x100_0000, (u / 0x1_0000) % 0x100, (u / 0x100) % 0x100, u % 0x100]
  }

  /** The int `getInt` reads from four bytes, most significant first. */
  function IntOf(b0: int, b1: int, b2: int, b3: int): int32
    requires IsByte(b0) && IsByte(b1) && IsByte(b2) && IsByte(b3)
  {
    var u := ((b0 * 0x100 + b1) * 0x100 + b2) * 0x100 + b3;
    if u < 0x8000_0000 then u as int32 else (u - 0x1_0000_0000) as int32
  }

  /** Reading back the four bytes of an int gives the int. */
  lemma IntRoundTrip(v: int32)
    ensures var b := IntBytes(v); IntOf(b[0], b[1], b[2], b[3]) == v
  {
    var u := v as int % 0x1_0000_0000;
    var b := IntBytes(v);
    var u1 := u / 0x100;
    var u2 := u1 / 0x100;
    DivModUnique(u, u1, u % 0x100, 0x100);
    DivModUnique(u1, u2, u1 % 0x100, 0x100);
    DivModUnique(u2, u2 / 0x100, u2 % 0x100, 0x100);
    NestedDiv(u, 0x100, 0x100);
    NestedDiv(u1, 0x100, 0x100);
    NestedDiv(u, 0x100, 0x1_0000);
    assert b[1] == u2 % 0x100 && b[2] == u1 % 0x100 && b[0] == u2 / 0x100;
    assert (b[0] * 0x100 + b[1]) == u2;
    assert (u2 * 0x100 + b[2]) == u1;
    assert (u1 * 0x100 + b[3]) == u;
    if v >= 0 {
      DivModUnique(v as int, 0, v as int, 0x1_0000_0000);
    } else {
      DivModUnique(v as int, -1, v as int + 0x1_0000_0000, 0x1_0000_0000);
    }
  }

  lemma NestedDiv(x: int, a: int, b: int)
    requires x >= 0 && a > 0 && b > 0
    ensures x / a / b == x / (a * b)
  {
    var q := x / a / b;
    var r := x / a % b;
    var s := x % a;
    assert x / a == b * q + r;
    assert x == a * (x / a) + s;
    assert x == (a * b) * q + (a * r + s) by {
      assert a * (b * q + r) == (a * b) * q + a * r;
    }
    assert a * r + s < a * b by {
      MulMono(a, r, b - 1);
      assert a * (b - 1) == a * b - a;
    }
    assert 0 <= a * r by { MulMono(a, 0, r); }
    DivModUnique(x, q, a * r + s, a * b);
  }

  /** The bytes of a sequence of ints, one after another. */
  function EncodeInts(vs: seq<int32>): (b: seq<int>)
    ensures |b| == 4 * |vs| && AllBytes(b)
  {
    if vs == [] then [] else EncodeInts(vs[..|vs| - 1]) + IntBytes(vs[|vs| - 1])
  }

  /** The bytes of a sequence of shorts, one after another. */
  function EncodeShorts(vs: seq<int16>): (b: seq<int>)
    ensures |b| == 2 * |vs| && AllBytes(b)
  {
    if vs == [] then [] else EncodeShorts(vs[..|vs| - 1]) + ShortBytes(vs[|vs| - 1])
  }

  /** The int whose four bytes start at byte `at`. */
  function IntAt(d: seq<int>, at: int): int32
    requires AllBytes(d) && 0 <= at && at + 4 <= |d|
  {
    IntOf(d[at], d[at + 1], d[at + 2], d[at + 3])
  }

  /** The short whose two bytes start at byte `at`. */
  function ShortAt(d: seq<int>, at: int): int16
    requires AllBytes(d) && 0 <= at && at + 2 <= |d|
  {
    ShortOf(d[at], d[at + 1])
  }

  /** `d` with `w` written over it starting at byte `at`. */
  function Overwrite(d: seq<int>, at: int, w: seq<int>): (r: seq<int>)
    requires 0 <= at && at + |w| <= |d|
    ensures |r| == |d|
  {
    d[..at] + w + d[at + |w|..]
  }

  /** Int `k` of an encoded run is `vs[k]`. */
  lemma {:induction false} IntAtEncoded(d: seq<int>, at: int, vs: seq<int32>, k: int)
    requires AllBytes(d) && 0 <= at && at + 4 * |vs| <= |d| && 0 <= k < |vs|
    ensures AllBytes(Overwrite(d, at, EncodeInts(vs)))
    ensures IntAt(Overwrite(d, at, EncodeInts(vs)), at + 4 * k) == vs[k]
  {
    var e := EncodeInts(vs);
    var o := Overwrite(d, at, e);
    assert forall j :: 0 <= j < |o| ==> o[j] == if j < at then d[j] else if j < at + |e| then e[j - at] else d[j];
    var p := vs[..|vs| - 1];
    if k == |vs| - 1 {
      assert e == EncodeInts(p) + IntBytes(vs[k]);
      assert o[at + 4 * k .. at + 4 * k + 4] == IntBytes(vs[k]);
      IntRoundTrip(vs[k]);
    } else {
      assert e == EncodeInts(p) + IntBytes(vs[|vs| - 1]);
      IntAtEncoded(d, at, p, k);
      var o' := Overwrite(d, at, EncodeInts(p));
      assert forall j :: at + 4 * k <= j < at + 4 * k + 4 ==> o[j] == o'[j];
    }
  }

  /** Short `k` of an encoded run is `vs[k]`. */
  lemma {:induction false} ShortAtEncoded(d: seq<int>, at: int, vs: seq<int16>, k: int)
    requires AllBytes(d) && 0 <= at && at + 2 * |vs| <= |d| && 0 <= k < |vs|
    ensures AllBytes(Overwrite(d, at, EncodeShorts(vs)))
    ensures ShortAt(Overwrite(d, at, EncodeShorts(vs)), at + 2 * k) == vs[k]
  {
    var e := EncodeShorts(vs);
    var o := Overwrite(d, at, e);
    assert forall j :: 0 <= j < |o| ==> o[j] == if j < at then d[j] else if j < at + |e| then e[j - at] else d[j];
    var p := vs[..|vs| - 1];
    if k == |vs| - 1 {
      assert e == EncodeShorts(p) + ShortBytes(vs[k]);
      assert o[at + 2 * k .. at + 2 * k + 2] == ShortBytes(vs[k]);
      ShortRoundTrip(vs[k]);
    } else {
      assert e == EncodeShorts(p) + ShortBytes(vs[|vs| - 1]);
      ShortAtEncoded(d, at, p, k);
      var o' := Overwrite(d, at, EncodeShorts(p));
      assert forall j :: at + 2 * k <= j < at + 2 * k + 2 ==> o[j] == o'[j];
    }
  }

  /** Two writes side by side are one write of their concatenation. */
  lemma OverwriteAdjacent(d: seq<int>, at: int, e: seq<int>, b: seq<int>, next: int)
    requires 0 <= at && next == at + |e| && next + |b| <= |d|
    ensures Overwrite(Overwrite(d, at, e), next, b) == Overwrite(d, at, e + b)
  {
    var l := Overwrite(Overwrite(d, at, e), next, b);
    var r := Overwrite(d, at, e + b);
    forall j | 0 <= j < |d|
      ensures l[j] == r[j]
    {
      if j < at {
      } else if j < at + |e| {
        assert l[j] == e[j - at];
      } else if j < at + |e| + |b| {
        assert l[j] == b[j - at - |e|];
      }
    }
  }

  /** Writing one more int right after an encoded run extends the run. */
  lemma ExtendInts(d: seq<int>, at: int, vs: seq<int32>, v: int32, next: int)
    requires 0 <= at && next == at + 4 * |vs| && next + 4 <= |d|
    ensures Overwrite(Overwrite(d, at, EncodeInts(vs)), next, IntBytes(v))
         == Overwrite(d, at, EncodeInts(vs + [v]))
  {
    EncodeIntsSnoc(vs, v);
    OverwriteAdjacent(d, at, EncodeInts(vs), IntBytes(v), next);
  }

  lemma EncodeIntsSnoc(vs: seq<int32>, v: int32)
    ensures EncodeInts(vs + [v]) == EncodeInts(vs) + IntBytes(v)
  {
    var w := vs + [v];
    assert w[..|w| - 1] == vs;
  }

  /** Writing one more short right after an encoded run extends the run. */
  lemma ExtendShorts(d: seq<int>, at: int, vs: seq<int16>, v: int16, next: int)
    requires 0 <= at && next == at + 2 * |vs| && next + 2 <= |d|
    ensures Overwrite(Overwrite(d, at, EncodeShorts(vs)), next, ShortBytes(v))
         == Overwrite(d, at, EncodeShorts(vs + [v]))
  {
    EncodeShortsSnoc(vs, v);
    OverwriteAdjacent(d, at, EncodeShorts(vs), ShortBytes(v), next);
  }

  lemma EncodeShortsSnoc(vs: seq<int16>, v: int16)
    ensures EncodeShorts(vs + [v]) == EncodeShorts(vs) + ShortBytes(v)
  {
    var w := vs + [v];
    assert w[..|w| - 1] == vs;
  }

  /**
   * A java.nio.ByteBuffer: its backing bytes (each 0..255), the position of
   * the next relative get or put, and the limit.
   */
  class ByteBuffer {
    var data: seq<int>
    var position: int
    var limit: int

    ghost predicate Valid()
      reads this
    {
      0 <= position <= limit <= |data| && AllBytes(data)
    }

    function Remaining(): int
      reads this
    {
      limit - position
    }

    /** `ByteBuffer.allocate(capacity)`: zero bytes, position 0, limit the capacity. */
    constructor Allocate(capacity: nat)
      ensures Valid() && data == seq(capacity, _ => 0) && position == 0 && limit == capacity
    {
      data := seq(capacity, _ => 0);
      position := 0;
      limit := capacity;
    }

    /** Relative `putShort`; the callers check that two bytes remain. */
    method PutShort(s: int16)
      requires Valid() && Remaining() >= 2
      modifies this
      ensures Valid() && limit == old(limit) && position == old(position) + 2
      ensures data == Overwrite(old(data), old(position), ShortBytes(s))
    {
      data := Overwrite(data, position, ShortBytes(s));
      position := position + 2;
    }

    /** Relative `getShort`; the callers check that two bytes remain. */
    method GetShort() returns (s: int16)
      requires Valid() && Remaining() >= 2
      modifies this
      ensures Valid() && data == old(data) && limit == old(limit) && position == old(position) + 2
      ensures s == ShortAt(data, old(position))
    {
      s := ShortOf(data[position], data[position + 1]);
      position := position + 2;
    }

    /** Absolute `putInt`, as done by `put` on the int view made by `asIntBuffer`. */
    method PutIntAt(at: int, v: int32)
      requires Valid() && position <= at && at + 4 <= limit
      modifies this
      ensures Valid() && position == old(position) && limit == old(limit)
      ensures data == Overwrite(old(data), at, IntBytes(v))
    {
      data := Overwrite(data, at, IntBytes(v));
    }

    /** Absolute `getInt`, as done by `get` on the int view made by `asIntBuffer`. */
    method GetIntAt(at: int) returns (v: int32)
      requires Valid() && position <= at && at + 4 <= limit
      ensures v == IntAt(data, at)
    {
      v := IntOf(data[at], data[at + 1], data[at + 2], data[at + 3]);
    }

    /**
     * `position(p)`: moves the position, or throws IllegalArgumentException
     * (`ok` false, nothing changed) when `p` is negative or past the limit.
     */
    method SetPosition(p: int) returns (ok: bool)
      requires Valid()
      modifies this
      ensures Valid() && data == old(data) && limit == old(limit)
      ensures ok <==> 0 <= p <= limit
      ensures position == if ok then p else old(position)
    {
      ok := 0 <= p <= limit;
      if ok {
        position := p;
      }
    }
  }
}

module Ranges {
  import opened JavaInts

  /**
   * An edu.rit.util.Range as the buffers use it: lower bound, stride and
   * number of indices. A Range never has a stride below 1.
   */
  datatype Range = Range(lb: int, stride: int, length: nat)
  {
    ghost predicate Valid() { stride >= 1 }

    /** Index `k` of the range. */
    function At(k: int): int { lb + k * stride }

    /** The range's indices all lie in [0, bound). */
    ghost predicate Within(bound: int) {
      0 <= lb && (length == 0 || At(length - 1) < bound)
    }
  }

  /** Distinct positions of a range name distinct indices, all inside the bound. */
  lemma RangeIndex(r: Range, bound: int, j: int, k: int)
    requires r.Valid() && r.Within(bound) && 0 <= j < r.length && 0 <= k < r.length
    ensures 0 <= r.At(j) < bound
    ensures r.At(j) == r.At(k) ==> j == k
  {
    MulMono(r.stride, 0, j);
    MulMono(r.stride, j, r.length - 1);
    if j < k {
      MulMono(r.stride, j + 1, k);
    } else if k < j {
      MulMono(r.stride, k + 1, j);
    }
  }
}
