// ObjectItemReductionBuf: a one-item buffer that, instead of storing what it
// receives, folds each received item into the item of the buffer it wraps
// using a binary operation.

module ObjectReductionBufs {

  /** The unchecked exceptions the buffer's operations throw. */
  datatype JavaException = NullPointerException | UnsupportedOperationException

  datatype Result<T> = Success(value: T) | Failure(error: JavaException)

  /** A Java reference that may be null. */
  datatype Option<T> = None | Some(value: T)

  /** Left fold: op(...op(op(acc, xs[0]), xs[1])..., xs[|xs|-1]). */
  function FoldLeft<T>(op: (T, T) -> T, acc: T, xs: seq<T>): T
    decreases |xs|
  {
    if |xs| == 0 then acc else op(FoldLeft(op, acc, xs[..|xs| - 1]), xs[|xs| - 1])
  }

  /** Folding one more item applies op once more to the previous result. */
  lemma FoldLeftSnoc<T>(op: (T, T) -> T, acc: T, xs: seq<T>, x: T)
    ensures FoldLeft(op, acc, xs + [x]) == op(FoldLeft(op, acc, xs), x)
  {
    assert (xs + [x])[..|xs + [x]| - 1] == xs;
  }

  /** Folding xs and then ys is folding xs + ys. */
  lemma {:induction false} FoldLeftAppend<T>(op: (T, T) -> T, acc: T, xs: seq<T>, ys: seq<T>)
    ensures FoldLeft(op, acc, xs + ys) == FoldLeft(op, FoldLeft(op, acc, xs), ys)
    decreases |ys|
  {
    if |ys| == 0 {
      assert xs + ys == xs;
    } else {
      var ys' := ys[..|ys| - 1];
      var y := ys[|ys| - 1];
      assert ys == ys' + [y];
      assert xs + ys == (xs + ys') + [y];
      FoldLeftSnoc(op, acc, xs + ys', y);
      FoldLeftAppend(op, acc, xs, ys');
      FoldLeftSnoc(op, FoldLeft(op, acc, xs), ys', y);
    }
  }

  /**
   * The wrapped one-item buffer: its item, and how many times the message
   * layer's `reset()` has been called on it (what reset does is not part of
   * this model).
   */
  class ObjectItemBuf<T> {
    var item: T
    var resets: nat

    constructor(theItem: T)
      ensures item == theItem && resets == 0
    {
      item := theItem;
      resets := 0;
    }
  }

  class ObjectItemReductionBuf<T> {
    /** The buffer whose item accumulates the reduction. */
    const myBuf: ObjectItemBuf<T>
    /** The binary operation. */
    const op: (T, T) -> T
    /** Number of items, fixed at 1 by the constructor. */
    const length: nat
    /** Calls of `reset()` on this buffer. */
    var resets: nat
    /** The wrapped item when this buffer was made, and the items put since. */
    ghost const start: T
    ghost var received: seq<T>

    /** The wrapped item is the fold of everything put since construction. */
    ghost predicate Folded()
      reads this, myBuf
    {
      myBuf.item == FoldLeft(op, start, received)
    }

    /** The constructor after its null check on `op`. */
    constructor Init(buf: ObjectItemBuf<T>, theOp: (T, T) -> T)
      ensures myBuf == buf && op == theOp && length == 1 && resets == 0
      ensures start == buf.item && received == [] && Folded()
    {
      myBuf := buf;
      op := theOp;
      length := 1;
      resets := 0;
      start := buf.item;
      received := [];
    }

    /** `get(i)`: the wrapped buffer's item, whatever i is. */
    function Get(i: int): T
      reads myBuf
    {
      myBuf.item
    }

    /** Every index reads the same item. */
    lemma GetIgnoresIndex(i: int, j: int)
      ensures Get(i) == Get(j) == myBuf.item
    {
    }

    /**
     * `put(i, item)`: combines the wrapped item with the new one, whatever
     * i is, then resets this buffer and the wrapped one. The fold of the
     * items put so far stays the wrapped item.
     */
    method Put(i: int, x: T)
      modifies this, myBuf
      ensures myBuf.item == op(old(myBuf.item), x)
      ensures resets == old(resets) + 1 && myBuf.resets == old(myBuf.resets) + 1
      ensures received == old(received) + [x]
      ensures old(Folded()) ==> Folded()
    {
      myBuf.item := op(myBuf.item, x);
      received := received + [x];
      FoldLeftSnoc(op, start, old(received), x);
      resets := resets + 1;
      myBuf.resets := myBuf.resets + 1;
    }

    /** `getReductionBuf(op)`: not supported for this buffer. */
    method GetReductionBuf<U>(reductionOp: U) returns (r: Result<ObjectItemReductionBuf<T>>)
      ensures r == Failure(UnsupportedOperationException)
    {
      r := Failure(UnsupportedOperationException);
    }
  }

  /**
   * `new ObjectItemReductionBuf(buf, op)`: NullPointerException when op is
   * null, otherwise a length-1 buffer folding into buf's item.
   */
  method NewObjectItemReductionBuf<T>(buf: ObjectItemBuf<T>, op: Option<(T, T) -> T>)
    returns (r: Result<ObjectItemReductionBuf<T>>)
    ensures r.Failure? <==> op.None?
    ensures r.Failure? ==> r.error == NullPointerException
    ensures r.Success? ==> fresh(r.value) && r.value.myBuf == buf && r.value.op == op.value
                           && r.value.length == 1 && r.value.received == [] && r.value.Folded()
  {
    if op.None? {
      return Failure(NullPointerException);
    }
    var b := new ObjectItemReductionBuf.Init(buf, op.value);
    r := Success(b);
  }
}
