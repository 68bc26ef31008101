// Unsigned16BitIntegerArrayBuf: a strided view of an int array whose items
// travel as 16-bit values. Sending keeps the low 16 bits of each item;
// receiving zero-extends them.

module Unsigned16Bufs {
  import opened JavaInts
  import opened ByteBuffers
  import opened Ranges

  /** The shorts that the `(short)` cast makes of a run of ints. */
  function ShortsOf(vals: seq<int32>): (r: seq<int16>)
    ensures |r| == |vals| && forall k :: 0 <= k < |vals| ==> r[k] == ToShort(vals[k])
  {
    seq(|vals|, k requires 0 <= k < |vals| => ToShort(vals[k]))
  }

  /**
   * Receiving the shorts that a send wrote gives back every sent item modulo
   * 2^16, so an item already in 0..65535 comes back unchanged.
   */
  lemma SendReceiveRoundTrip(d: seq<int>, at: int, vals: seq<int32>, k: int)
    requires AllBytes(d) && 0 <= at && at + 2 * |vals| <= |d| && 0 <= k < |vals|
    ensures AllBytes(Overwrite(d, at, EncodeShorts(ShortsOf(vals))))
    ensures LowBits16(ShortAt(Overwrite(d, at, EncodeShorts(ShortsOf(vals))), at + 2 * k)) as int
         == vals[k] as int % 0x1_0000
    ensures 0 <= vals[k] as int < 0x1_0000 ==>
              LowBits16(ShortAt(Overwrite(d, at, EncodeShorts(ShortsOf(vals))), at + 2 * k)) == vals[k]
  {
    ShortAtEncoded(d, at, ShortsOf(vals), k);
    LowBitsOfShort(vals[k]);
  }

  /** Number of items `receiveItems` takes, given the 32-bit sum `i + num`. */
  function ReceiveCount(i: int32, num: int32, length: int, remainingBytes: int): int
  {
    Max(0, Min(Min(AddInt(i, num) as int, length) - i as int, remainingBytes / 2))
  }

  /**
   * Without 32-bit overflow in `i + num`, the count is the smallest of num,
   * the items left after i, and the shorts left in the byte buffer (never
   * below zero).
   */
  lemma ReceiveCountNoOverflow(i: int32, num: int32, length: int, remainingBytes: int)
    requires 0 <= i as int <= length && remainingBytes >= 0
    requires i as int + num as int < 0x8000_0000
    ensures ReceiveCount(i, num, length, remainingBytes)
         == Max(0, Min(Min(num as int, length - i as int), remainingBytes / 2))
  {
  }

  /**
   * With `i + num` past the int range the sum wraps negative, so nothing is
   * received even though items and bytes are available.
   */
  lemma ReceiveCountOverflow()
    ensures ReceiveCount(1, 0x7FFF_FFFF, 5, 10) == 0
    ensures Min(Min(0x7FFF_FFFF, 5 - 1), 10 / 2) == 4
  {
  }

  class Unsigned16BitIntegerArrayBuf {
    const items: array<int32>
    const range: Range
    const offset: int
    const stride: int
    const length: int

    ghost predicate Valid()
    {
      range.Valid() && range.Within(items.Length) && items.Length < 0x8000_0000
      && offset == range.lb && stride == range.stride && length == range.length
    }

    /** Buffer over the elements of `theArray` that `theRange` selects. */
    constructor(theArray: array<int32>, theRange: Range)
      requires theRange.Valid() && theRange.Within(theArray.Length) && theArray.Length < 0x8000_0000
      ensures Valid() && items == theArray && range == theRange
      ensures length == theRange.length
    {
      items := theArray;
      range := theRange;
      offset := theRange.lb;
      stride := theRange.stride;
      length := theRange.length;
    }

    /** Array index of item `i`. */
    function Slot(i: int): int
    {
      offset + i * stride
    }

    lemma SlotFacts(i: int, j: int)
      requires Valid() && 0 <= i < length && 0 <= j < length
      ensures 0 <= Slot(i) < items.Length
      ensures Slot(i) == Slot(j) ==> i == j
    {
      RangeIndex(range, items.Length, i, j);
    }

    lemma SlotStep(k: int, next: int)
      requires next == k + 1
      ensures Slot(next) == Slot(k) + stride
    {
      assert next * stride == k * stride + stride;
    }

    /** No item other than i lives at item i's slot. */
    lemma SlotOwn(i: int)
      requires Valid() && 0 <= i < length
      ensures forall j :: 0 <= j < length && j != i ==> Slot(j) != Slot(i)
    {
      forall j | 0 <= j < length && j != i ensures Slot(j) != Slot(i) {
        SlotFacts(j, i);
      }
    }

    /**
     * `get(i)`: the array element at the item's slot, which lies in the
     * array and belongs to no other item, so a put to another item never
     * changes it.
     */
    function Get(i: int): (v: int32)
      requires Valid() && 0 <= i < length
      reads items
      ensures 0 <= Slot(i) < items.Length && v == items[Slot(i)]
      ensures forall j :: 0 <= j < length && j != i ==> Slot(j) != Slot(i)
    {
      SlotFacts(i, i);
      SlotOwn(i);
      items[Slot(i)]
    }

    /** Items lo..hi-1 as a sequence. */
    ghost function Items(lo: int, hi: int): (r: seq<int32>)
      requires Valid() && 0 <= lo <= hi <= length
      reads items
      ensures |r| == hi - lo && forall k :: 0 <= k < hi - lo ==> r[k] == Get(lo + k)
    {
      seq(hi - lo, k requires 0 <= k < hi - lo reads items => Get(lo + k))
    }

    /** `put(i, item)`: stores the item, untruncated, at its slot and nowhere else. */
    method Put(i: int, item: int32)
      requires Valid() && 0 <= i < length
      modifies items
      ensures Get(i) == item
      ensures forall j :: 0 <= j < length && j != i ==> Get(j) == old(Get(j))
      ensures forall s :: 0 <= s < items.Length && s != Slot(i) ==> items[s] == old(items[s])
    {
      SlotFacts(i, i);
      items[offset + i * stride] := item;
      forall j | 0 <= j < length && j != i
        ensures Get(j) == old(Get(j))
      {
        SlotFacts(i, j);
      }
    }

    /** `copy(this)`: copying a buffer onto itself does nothing. */
    method Copy(src: Unsigned16BitIntegerArrayBuf)
      requires src == this
      ensures items[..] == old(items[..])
    {
      if src == this {
      }
    }

    /**
     * `sendItems(i, buffer)`: puts items i, i+1, ... as shorts, stopping at
     * the end of the buffer's items or when fewer than two bytes remain.
     */
    method SendItems(i: int, buffer: ByteBuffer) returns (n: int)
      requires Valid() && buffer.Valid() && 0 <= i <= length
      modifies buffer
      ensures n == Min(length - i, old(buffer.Remaining()) / 2)
      ensures buffer.Valid() && buffer.limit == old(buffer.limit)
      ensures buffer.position == old(buffer.position) + 2 * n
      ensures buffer.data == Overwrite(old(buffer.data), old(buffer.position), EncodeShorts(ShortsOf(Items(i, i + n))))
    {
      ghost var p0 := buffer.position;
      ghost var d0 := buffer.data;
      var index := i;
      var off := offset + i * stride;
      while index < length && buffer.Remaining() >= 2
        invariant i <= index <= length && off == Slot(index)
        invariant buffer.Valid() && buffer.limit == old(buffer.limit) && |buffer.data| == |d0|
        invariant buffer.position == p0 + 2 * (index - i)
        invariant buffer.data == Overwrite(d0, p0, EncodeShorts(ShortsOf(Items(i, index))))
        decreases length - index
      {
        index, off := SendOne(buffer, i, index, off, p0, d0);
      }
      n := index - i;
      assert Items(i, i + n) == Items(i, index);
    }

    /** One pass of the send loop: put item `index`, then step to the next item. */
    method SendOne(buffer: ByteBuffer, i: int, index: int, off: int, ghost p0: int, ghost d0: seq<int>)
      returns (next: int, nextOff: int)
      requires Valid() && buffer.Valid() && 0 <= i <= index < length && off == Slot(index)
      requires 0 <= p0 && buffer.Remaining() >= 2 && buffer.position == p0 + 2 * (index - i)
      requires |buffer.data| == |d0|
      requires buffer.data == Overwrite(d0, p0, EncodeShorts(ShortsOf(Items(i, index))))
      modifies buffer
      ensures buffer.Valid() && buffer.limit == old(buffer.limit) && |buffer.data| == |d0|
      ensures buffer.position == p0 + 2 * (index + 1 - i)
      ensures buffer.data == Overwrite(d0, p0, EncodeShorts(ShortsOf(Items(i, index + 1))))
      ensures next == index + 1 && nextOff == Slot(next)
    {
      SlotFacts(index, index);
      buffer.PutShort(ToShort(items[off]));
      assert ShortsOf(Items(i, index + 1)) == ShortsOf(Items(i, index)) + [ToShort(Get(index))];
      ExtendShorts(d0, p0, ShortsOf(Items(i, index)), ToShort(Get(index)), p0 + 2 * (index - i));
      next := index + 1;
      nextOff := off + stride;
      SlotStep(index, next);
    }

    /**
     * `receiveItems(i, num, buffer)`: gets shorts into items i, i+1, ...,
     * each zero-extended to 0..65535, up to the 32-bit sum `i + num`, the end
     * of the buffer's items, or fewer than two bytes remaining.
     */
    method ReceiveItems(i: int32, num: int32, buffer: ByteBuffer) returns (n: int)
      requires Valid() && buffer.Valid() && 0 <= i as int <= length
      modifies items, buffer
      ensures n == ReceiveCount(i, num, length, old(buffer.Remaining()))
      ensures buffer.Valid() && buffer.data == old(buffer.data) && buffer.limit == old(buffer.limit)
      ensures buffer.position == old(buffer.position) + 2 * n
      ensures forall j :: i as int <= j < i as int + n ==>
                Get(j) == LowBits16(ShortAt(old(buffer.data), old(buffer.position) + 2 * (j - i as int)))
      ensures forall j :: i as int <= j < i as int + n ==> 0 <= Get(j) as int < 0x1_0000
      ensures forall s :: 0 <= s < items.Length && items[s] != old(items[s]) ==>
                exists k :: i as int <= k < i as int + n && s == Slot(k)
    {
      ghost var p0 := buffer.position;
      ghost var a0 := items[..];
      var index: int := i as int;
      var off := offset + i as int * stride;
      var max := Min(AddInt(i, num) as int, length);
      while index < max && buffer.Remaining() >= 2
        invariant i as int <= index && (index <= max || index == i as int) && index <= length
        invariant off == Slot(index)
        invariant buffer.Valid() && buffer.data == old(buffer.data) && buffer.limit == old(buffer.limit)
        invariant buffer.position == p0 + 2 * (index - i as int)
        invariant forall j :: i as int <= j < index ==> Get(j) == LowBits16(ShortAt(buffer.data, p0 + 2 * (j - i as int)))
        invariant forall s :: 0 <= s < items.Length && items[s] != a0[s] ==>
                    exists k :: i as int <= k < index && s == Slot(k)
        decreases length - index
      {
        index, off := ReceiveOne(buffer, i as int, index, off, p0, a0);
      }
      n := index - i as int;
    }

    /** One pass of the receive loop: get a short into item `index`, then step to the next item. */
    method ReceiveOne(buffer: ByteBuffer, i: int, index: int, off: int, ghost p0: int, ghost a0: seq<int32>)
      returns (next: int, nextOff: int)
      requires Valid() && buffer.Valid() && 0 <= i <= index < length && off == Slot(index)
      requires 0 <= p0 && buffer.Remaining() >= 2 && buffer.position == p0 + 2 * (index - i)
      requires |a0| == items.Length
      requires forall j :: i <= j < index ==> Get(j) == LowBits16(ShortAt(buffer.data, p0 + 2 * (j - i)))
      requires forall s :: 0 <= s < items.Length && items[s] != a0[s] ==> exists k :: i <= k < index && s == Slot(k)
      modifies items, buffer
      ensures buffer.Valid() && buffer.data == old(buffer.data) && buffer.limit == old(buffer.limit)
      ensures buffer.position == p0 + 2 * (index + 1 - i)
      ensures forall j :: i <= j < index + 1 ==> Get(j) == LowBits16(ShortAt(buffer.data, p0 + 2 * (j - i)))
      ensures forall s :: 0 <= s < items.Length && items[s] != a0[s] ==> exists k :: i <= k < index + 1 && s == Slot(k)
      ensures next == index + 1 && nextOff == Slot(next)
    {
      SlotFacts(index, index);
      var s := buffer.GetShort();
      items[off] := LowBits16(s);
      forall j | i <= j < index
        ensures Get(j) == old(Get(j))
      {
        SlotFacts(index, j);
      }
      next := index + 1;
      nextOff := off + stride;
      SlotStep(index, next);
    }
  }
}
