// IntegerMatrixBuf: a strided 2-D view of an int matrix, sent and received
// through a byte buffer as big-endian ints in row-major item order.

module IntegerMatrixBufs {
  import opened JavaInts
  import opened ByteBuffers
  import opened Ranges

  /**
   * How many ints `sendItems` puts from the starting row, how many from the
   * rows after it, and how many it reports as sent.
   */
  datatype SendPlan = SendPlan(firstRow: int, laterRows: int, counted: int)

  /**
   * What `sendItems` as written does when started at item `i` of a
   * rowCount x colCount view with `rem` ints of room. The starting row runs
   * its column counter from i's column up to `ncols`, a count, so it puts
   * only max(0, ncols - column) ints but counts `ncols`; the later rows
   * start at column 0 and put what they count.
   */
  function AsWrittenPlan(rowCount: int, colCount: int, i: int, rem: int): SendPlan
    requires rowCount >= 0 && colCount >= 0 && 0 <= i && rem >= 0
  {
    if colCount == 0 then SendPlan(0, 0, 0)
    else
      var r0 := i / colCount;
      var c0 := i % colCount;
      var nc0 := Min(colCount - c0, rem);
      if r0 >= rowCount || nc0 <= 0 then SendPlan(0, 0, 0)
      else
        var w0 := Max(0, nc0 - c0);
        var m := Min(rem - w0, (rowCount - r0 - 1) * colCount);
        SendPlan(w0, m, nc0 + m)
  }

  /** Number of items a send from item i moves: as many as fit, up to the last item. */
  function SendCount(rowCount: int, colCount: int, i: int, rem: int): int
  {
    Min(rem, rowCount * colCount - i)
  }

  /** The ints of an as-written send stay inside the view, and the count bounds them. */
  lemma AsWrittenPlanBounds(rowCount: int, colCount: int, i: int, rem: int)
    requires rowCount >= 0 && colCount >= 0 && 0 <= i <= rowCount * colCount && rem >= 0
    ensures var p := AsWrittenPlan(rowCount, colCount, i, rem);
      0 <= p.firstRow && 0 <= p.laterRows && p.firstRow + p.laterRows <= p.counted
      && (p.counted > 0 ==>
            colCount > 0 && p.firstRow + p.laterRows <= rem
            && i + p.firstRow <= rowCount * colCount
            && 0 <= (i / colCount + 1) * colCount
            && (i / colCount + 1) * colCount + p.laterRows <= rowCount * colCount)
  {
    var p := AsWrittenPlan(rowCount, colCount, i, rem);
    if colCount > 0 {
      DivModFacts(i, colCount);
      if i / colCount < rowCount {
        RowArithmetic(rowCount, colCount, i / colCount);
      }
    }
  }

  lemma MulStep(a: int, b: int, m: int)
    requires b == a + 1
    ensures b * m == a * m + m
  {
  }

  /** Rows r0 and r0 + 1 of a rowCount x colCount view, in item indices. */
  lemma RowArithmetic(rowCount: int, colCount: int, r0: int)
    requires 0 <= r0 < rowCount && colCount > 0
    ensures (r0 + 1) * colCount == r0 * colCount + colCount
    ensures (rowCount - r0 - 1) * colCount == rowCount * colCount - (r0 + 1) * colCount
    ensures 0 <= (rowCount - r0 - 1) * colCount
    ensures (r0 + 1) * colCount <= rowCount * colCount
  {
    MulMono(colCount, r0 + 1, rowCount);
    MulMono(colCount, 0, rowCount - r0 - 1);
  }

  /**
   * From the start of a row the as-written send is right: it puts exactly
   * the ints it counts, SendCount of them, and its two runs join up.
   */
  lemma AsWrittenAtRowStart(rowCount: int, colCount: int, i: int, rem: int)
    requires rowCount >= 0 && colCount > 0 && 0 <= i <= rowCount * colCount && rem >= 0
    requires i % colCount == 0
    ensures var p := AsWrittenPlan(rowCount, colCount, i, rem);
      p.firstRow + p.laterRows == p.counted == SendCount(rowCount, colCount, i, rem)
      && (p.laterRows > 0 ==> i + p.firstRow == (i / colCount + 1) * colCount)
  {
    var r0 := i / colCount;
    assert i == r0 * colCount;
    assert rowCount * colCount - i == (rowCount - r0) * colCount;
    assert (rowCount - r0) * colCount == (rowCount - r0 - 1) * colCount + colCount;
    if r0 >= rowCount {
      MulMono(colCount, rowCount, r0);
    } else {
      MulMono(colCount, 0, rowCount - r0 - 1);
    }
  }

  /**
   * Started inside a row, the as-written send puts fewer ints than it
   * reports whenever it reports any.
   */
  lemma AsWrittenMidRowUndercounts(rowCount: int, colCount: int, i: int, rem: int)
    requires rowCount >= 0 && colCount > 0 && 0 <= i <= rowCount * colCount && rem >= 0
    requires i % colCount > 0
    requires AsWrittenPlan(rowCount, colCount, i, rem).counted > 0
    ensures var p := AsWrittenPlan(rowCount, colCount, i, rem);
      p.firstRow + p.laterRows < p.counted
  {
  }

  /**
   * A 2 x 3 view, item 2 (row 0, column 2), room for 3 ints: the send puts
   * 0 + 3 ints but reports 4, more than fit, whereas 3 items should go.
   */
  lemma AsWrittenMidRowExample()
    ensures AsWrittenPlan(2, 3, 2, 3) == SendPlan(0, 3, 4)
    ensures SendCount(2, 3, 2, 3) == 3
  {
  }

  /** Item i of a rows x cols view, i up to the length, has a row in 0..rows and a column below cols. */
  lemma ItemPosition(i: int, rows: int, cols: int)
    requires cols > 0 && rows >= 0 && 0 <= i <= rows * cols
    ensures 0 <= i / cols <= rows && 0 <= i % cols < cols
    ensures i == (i / cols) * cols + i % cols
  {
    DivModFacts(i, cols);
    if i / cols > rows {
      MulMono(cols, rows + 1, i / cols);
    }
  }

  class IntegerMatrixBuf {
    const matrix: array2<int32>
    const rowRange: Range
    const colRange: Range
    const lowerRow: int
    const rowCount: int
    const rowStride: int
    const lowerCol: int
    const colCount: int
    const colStride: int
    /** Number of items, the `length` of the buffer. */
    const length: int

    ghost predicate Valid()
    {
      rowRange.Valid() && colRange.Valid()
      && rowRange.Within(matrix.Length0) && colRange.Within(matrix.Length1)
      && lowerRow == rowRange.lb && rowCount == rowRange.length && rowStride == rowRange.stride
      && lowerCol == colRange.lb && colCount == colRange.length && colStride == colRange.stride
      && length == rowCount * colCount
    }

    /** Buffer over the rows and columns of `theMatrix` that the two ranges select. */
    constructor(theMatrix: array2<int32>, theRowRange: Range, theColRange: Range)
      requires theRowRange.Valid() && theColRange.Valid()
      requires theRowRange.Within(theMatrix.Length0) && theColRange.Within(theMatrix.Length1)
      ensures Valid() && matrix == theMatrix && rowRange == theRowRange && colRange == theColRange
      ensures length == theRowRange.length * theColRange.length
    {
      length := theRowRange.length * theColRange.length;
      matrix := theMatrix;
      rowRange := theRowRange;
      colRange := theColRange;
      lowerRow := theRowRange.lb;
      rowCount := theRowRange.length;
      rowStride := theRowRange.stride;
      lowerCol := theColRange.lb;
      colCount := theColRange.length;
      colStride := theColRange.stride;
    }

    /** `i2r`: the row position of item i. */
    function I2R(i: int): int
    {
      if colCount == 0 then i else i / colCount
    }

    /** `i2c`: the column position of item i. */
    function I2C(i: int): int
    {
      if colCount == 0 then 0 else i % colCount
    }

    /** Row and column positions split an item index (row-major order). */
    lemma SplitIndex(i: int)
      requires Valid() && 0 <= i
      ensures colCount > 0 ==> i == I2R(i) * colCount + I2C(i) && 0 <= I2C(i) < colCount
      ensures colCount == 0 ==> I2R(i) == i && I2C(i) == 0
    {
    }

    /** Row r, column c is item r * colCount + c. */
    lemma {:induction false} JoinIndex(r: int, c: int, item: int)
      requires Valid() && 0 <= r < rowCount && 0 <= c < colCount && item == r * colCount + c
      ensures 0 <= item < length && I2R(item) == r && I2C(item) == c
    {
      DivModUnique(item, r, c, colCount);
      MulMono(colCount, r + 1, rowCount);
    }

    /** Matrix row of item i. */
    function CellRow(i: int): int
    {
      rowRange.At(I2R(i))
    }

    /** Matrix column of item i. */
    function CellCol(i: int): int
    {
      colRange.At(I2C(i))
    }

    lemma CellFacts(i: int, j: int)
      requires Valid() && 0 <= i < length && 0 <= j < length
      ensures 0 <= I2R(i) < rowCount && 0 <= I2C(i) < colCount
      ensures 0 <= CellRow(i) < matrix.Length0 && 0 <= CellCol(i) < matrix.Length1
      ensures CellRow(i) == CellRow(j) && CellCol(i) == CellCol(j) ==> i == j
    {
      assert colCount > 0;
      ItemRow(i);
      ItemRow(j);
      RangeIndex(rowRange, matrix.Length0, I2R(i), I2R(j));
      RangeIndex(colRange, matrix.Length1, I2C(i), I2C(j));
    }

    lemma ItemRow(i: int)
      requires Valid() && 0 <= i < length && colCount > 0
      ensures 0 <= I2R(i) < rowCount && 0 <= I2C(i) < colCount
      ensures i == I2R(i) * colCount + I2C(i)
    {
      if I2R(i) >= rowCount {
        MulMono(colCount, rowCount, I2R(i));
      }
    }

    /** `get(i)`: the matrix cell of item i. */
    function Get(i: int): int32
      requires Valid() && 0 <= i < length
      reads matrix
    {
      CellFacts(i, i);
      matrix[CellRow(i), CellCol(i)]
    }

    /**
     * Items are numbered row by row: item r * colCount + c is the matrix
     * cell of view row r and view column c, which lies in the matrix.
     */
    lemma GetAt(r: int, c: int)
      requires Valid() && 0 <= r < rowCount && 0 <= c < colCount
      ensures 0 <= r * colCount + c < length
      ensures 0 <= rowRange.At(r) < matrix.Length0 && 0 <= colRange.At(c) < matrix.Length1
      ensures Get(r * colCount + c) == matrix[rowRange.At(r), colRange.At(c)]
    {
      var i := r * colCount + c;
      JoinIndex(r, c, i);
      CellFacts(i, i);
    }

    /** Items lo..hi-1 as a sequence. */
    ghost function Items(lo: int, hi: int): (r: seq<int32>)
      requires Valid() && 0 <= lo <= hi <= length
      reads matrix
      ensures |r| == hi - lo && forall k :: 0 <= k < hi - lo ==> r[k] == Get(lo + k)
    {
      seq(hi - lo, k requires 0 <= k < hi - lo reads matrix => Get(lo + k))
    }

    lemma ItemsSplit(a: int, b: int, c: int)
      requires Valid() && 0 <= a <= b <= c <= length
      ensures Items(a, b) + Items(b, c) == Items(a, c)
    {
    }

    /** `put(i, item)`: writes item i's cell and no other. */
    method Put(i: int, item: int32)
      requires Valid() && 0 <= i < length
      modifies matrix
      ensures Get(i) == item
      ensures forall j :: 0 <= j < length && j != i ==> Get(j) == old(Get(j))
      ensures forall r, c :: 0 <= r < matrix.Length0 && 0 <= c < matrix.Length1 && (r, c) != (CellRow(i), CellCol(i))
                ==> matrix[r, c] == old(matrix[r, c])
    {
      CellFacts(i, i);
      matrix[I2R(i) * rowStride + lowerRow, I2C(i) * colStride + lowerCol] := item;
      forall j | 0 <= j < length && j != i
        ensures Get(j) == old(Get(j))
      {
        CellFacts(i, j);
      }
    }

    /** `copy(this)`: copying a buffer onto itself does nothing. */
    method Copy(src: IntegerMatrixBuf)
      requires src == this
      ensures forall r, c :: 0 <= r < matrix.Length0 && 0 <= c < matrix.Length1 ==> matrix[r, c] == old(matrix[r, c])
    {
      if src == this {
      }
    }

    /** The ints an as-written send from item i puts, with room for `rem` ints. */
    ghost function SentAsWritten(i: int, rem: int): seq<int32>
      requires Valid() && 0 <= i <= length && rem >= 0
      reads matrix
    {
      var p := AsWrittenPlan(rowCount, colCount, i, rem);
      AsWrittenPlanBounds(rowCount, colCount, i, rem);
      if p.counted == 0 then []
      else
        var next := (i / colCount + 1) * colCount;
        Items(i, i + p.firstRow) + Items(next, next + p.laterRows)
    }

    /** From a row start the as-written send puts items i .. i+n-1 and reports n. */
    lemma SendAtRowStart(i: int, rem: int)
      requires Valid() && 0 <= i <= length && rem >= 0 && I2C(i) == 0
      ensures AsWrittenPlan(rowCount, colCount, i, rem).counted == SendCount(rowCount, colCount, i, rem)
      ensures SentAsWritten(i, rem) == Items(i, i + SendCount(rowCount, colCount, i, rem))
    {
      if colCount == 0 {
      } else {
        AsWrittenAtRowStart(rowCount, colCount, i, rem);
        AsWrittenPlanBounds(rowCount, colCount, i, rem);
        var p := AsWrittenPlan(rowCount, colCount, i, rem);
        if p.counted > 0 {
          var next := (i / colCount + 1) * colCount;
          if p.laterRows > 0 {
            ItemsSplit(i, next, next + p.laterRows);
          }
        }
      }
    }

    /**
     * The inner loop of a send, `while (c < end)`: puts the cells of row r
     * from column c on, one int each, into the int view at int `k`.
     */
    method SendCells(buffer: ByteBuffer, row: int, r: int, c: int, col: int, end: int, k: int,
                     ghost first: int, ghost p0: int, ghost d0: seq<int>, ghost sent: seq<int32>)
      returns (k': int)
      requires Valid() && buffer.Valid() && 0 <= r < rowCount && row == rowRange.At(r)
      requires 0 <= c <= colCount && end <= colCount && col == colRange.At(c) && first == r * colCount + c
      requires 0 <= p0 == buffer.position && |buffer.data| == |d0| && k == |sent|
      requires p0 + 4 * (k + Max(0, end - c)) <= buffer.limit
      requires buffer.data == Overwrite(d0, p0, EncodeInts(sent))
      modifies buffer
      ensures buffer.Valid() && buffer.position == p0 && buffer.limit == old(buffer.limit) && |buffer.data| == |d0|
      ensures k' == k + Max(0, end - c) && 0 <= first && first + Max(0, end - c) <= length
      ensures buffer.data == Overwrite(d0, p0, EncodeInts(sent + Items(first, first + Max(0, end - c))))
    {
      var cc := c;
      var cl := col;
      k' := k;
      ghost var cur := first;
      RowSpan(r, c, end, first);
      assert sent + Items(first, first) == sent;
      while cc < end
        invariant c <= cc && (cc <= end || cc == c) && cl == colRange.At(cc)
        invariant cur == first + (cc - c) && cur == r * colCount + cc && k' == k + (cc - c)
        invariant cur <= length
        invariant buffer.Valid() && buffer.position == p0 && buffer.limit == old(buffer.limit) && |buffer.data| == |d0|
        invariant buffer.data == Overwrite(d0, p0, EncodeInts(sent + Items(first, cur)))
        decreases end - cc
      {
        cc, cl, k' := SendCell(buffer, row, r, cc, cl, k', cur, first, p0, d0, sent);
        cur := cur + 1;
      }
      assert first + Max(0, end - c) == cur;
    }

    /** One pass of the inner send loop: put one cell, step to the next column. */
    method SendCell(buffer: ByteBuffer, row: int, r: int, c: int, col: int, k: int, ghost cur: int,
                    ghost first: int, ghost p0: int, ghost d0: seq<int>, ghost sent: seq<int32>)
      returns (c': int, col': int, k': int)
      requires Valid() && buffer.Valid() && 0 <= r < rowCount && row == rowRange.At(r)
      requires 0 <= c < colCount && col == colRange.At(c) && cur == r * colCount + c
      requires 0 <= first <= cur && k == |sent| + (cur - first)
      requires 0 <= p0 == buffer.position && |buffer.data| == |d0| && p0 + 4 * (k + 1) <= buffer.limit
      requires buffer.data == Overwrite(d0, p0, EncodeInts(sent + Items(first, cur)))
      modifies buffer
      ensures buffer.Valid() && buffer.position == p0 && buffer.limit == old(buffer.limit) && |buffer.data| == |d0|
      ensures c' == c + 1 && col' == colRange.At(c') && k' == k + 1 && cur + 1 <= length
      ensures buffer.data == Overwrite(d0, p0, EncodeInts(sent + Items(first, cur + 1)))
    {
      JoinIndex(r, c, cur);
      CellFacts(cur, cur);
      buffer.PutIntAt(buffer.position + 4 * k, matrix[row, col]);
      assert sent + Items(first, cur + 1) == (sent + Items(first, cur)) + [Get(cur)];
      ExtendInts(d0, p0, sent + Items(first, cur), Get(cur), p0 + 4 * k);
      c' := c + 1;
      col' := col + colStride;
      k' := k + 1;
      ColStep(c, c');
    }

    /** Columns c .. end-1 of row r are items first .. first + (end - c) - 1. */
    lemma RowSpan(r: int, c: int, end: int, first: int)
      requires Valid() && 0 <= r < rowCount && 0 <= c <= colCount && end <= colCount
      requires first == r * colCount + c
      ensures 0 <= first && first + Max(0, end - c) <= length
    {
      MulMono(colCount, 0, r);
      if colCount > 0 {
        RowArithmetic(rowCount, colCount, r);
      }
    }

    /**
     * Where the as-written send loop of `sendItems` stands before testing its
     * condition: the row `r`, the starting column `c` and its matrix column
     * `col`, the `ncols` bound, the ints `k` put so far (the int view's
     * position), the count `n`, and the ints `sent` put so far. Before the
     * first row nothing has happened; after it the ints are the first row's
     * `firstRow` items followed by whole later rows, the last one possibly
     * cut short by the room `rem`.
     */
    ghost predicate SendState(i: int, rem: int, r: int, c: int, col: int, ncols: int, k: int, n: int,
                              sent: seq<int32>)
      requires Valid() && 0 <= i <= length && 0 <= rem
      reads matrix
    {
      if colCount == 0 then ncols <= 0 && k == 0 && n == 0 && sent == []
      else
        var r0 := i / colCount;
        var c0 := i % colCount;
        var nc0 := Min(colCount - c0, rem);
        var w0 := Max(0, nc0 - c0);
        var base := (r0 + 1) * colCount;
        var later := k - w0;
        0 <= r0 <= r <= rowCount && 0 <= c0 < colCount && col == colRange.At(c) && |sent| == k
        && if r == r0 then c == c0 && ncols == nc0 && k == 0 && n == 0 && sent == []
           else
             0 < nc0 && c == 0 && ncols == Min(colCount, rem - k) && 0 <= later && k <= rem
             && n == nc0 + later && i + w0 <= length && 0 <= base && base + later <= length
             && later <= (r - r0 - 1) * colCount && (later == (r - r0 - 1) * colCount || k == rem)
             && sent == Items(i, i + w0) + Items(base, base + later)
    }

    /** The as-written send loop starts in SendState. */
    lemma SendEntry(i: int, rem: int, r: int, c: int, col: int, ncols: int)
      requires Valid() && 0 <= i <= length && 0 <= rem
      requires r == I2R(i) && c == I2C(i) && col == c * colStride + lowerCol && ncols == Min(colCount - c, rem)
      ensures SendState(i, rem, r, c, col, ncols, 0, 0, [])
    {
      if colCount > 0 {
        ItemPosition(i, rowCount, colCount);
        assert r == i / colCount && c == i % colCount && col == colRange.At(c);
      }
    }

    /** Once the as-written send loop stops, it has put SentAsWritten and counted `counted`. */
    lemma SendExit(i: int, rem: int, r: int, c: int, col: int, ncols: int, k: int, n: int, sent: seq<int32>)
      requires Valid() && 0 <= i <= length && 0 <= rem
      requires SendState(i, rem, r, c, col, ncols, k, n, sent) && !(r < rowCount && ncols > 0)
      ensures n == AsWrittenPlan(rowCount, colCount, i, rem).counted
      ensures sent == SentAsWritten(i, rem) && k <= rem
    {
      if colCount > 0 {
        ItemPosition(i, rowCount, colCount);
        if i / colCount < rowCount {
          RowArithmetic(rowCount, colCount, i / colCount);
        }
      }
    }

    /** What a pass of the as-written send loop needs, in SendState with the loop condition true. */
    lemma SendRowPre(i: int, rem: int, r: int, c: int, col: int, ncols: int, k: int, n: int, sent: seq<int32>)
      requires Valid() && 0 <= i <= length && 0 <= rem
      requires SendState(i, rem, r, c, col, ncols, k, n, sent) && r < rowCount && ncols > 0
      ensures colCount > 0 && 0 <= c <= colCount && ncols <= colCount && col == colRange.At(c)
      ensures 0 <= r && k == |sent| && k + Max(0, ncols - c) <= rem
    {
      DivModFacts(i, colCount);
    }

    /** A pass of the as-written send loop takes SendState to SendState on the next row. */
    lemma SendRowPost(i: int, rem: int, r: int, c: int, col: int, ncols: int, k: int, n: int, sent: seq<int32>,
                      first: int, r2: int, c2: int, col2: int, ncols2: int, k2: int, n2: int, sent2: seq<int32>)
      requires Valid() && 0 <= i <= length && 0 <= rem
      requires SendState(i, rem, r, c, col, ncols, k, n, sent) && r < rowCount && ncols > 0
      requires first == r * colCount + c && 0 <= first && first + Max(0, ncols - c) <= length
      requires k2 == k + Max(0, ncols - c) && sent2 == sent + Items(first, first + Max(0, ncols - c))
      requires r2 == r + 1 && c2 == 0 && col2 == lowerCol && ncols2 == Min(colCount, rem - k2) && n2 == n + ncols
      ensures SendState(i, rem, r2, c2, col2, ncols2, k2, n2, sent2)
    {
      DivModFacts(i, colCount);
      RowArithmetic(rowCount, colCount, r);
      if r == i / colCount {
        SendFirstRowPost(i, rem, r, c, ncols, first, k2, sent2);
      } else {
        SendLaterRowPost(i, rem, r, ncols, k, sent, first, k2, sent2);
      }
    }

    lemma SendFirstRowPost(i: int, rem: int, r: int, c: int, ncols: int, first: int, k2: int, sent2: seq<int32>)
      requires Valid() && colCount > 0 && 0 <= i <= length && 0 <= rem
      requires r == i / colCount && c == i % colCount && i == colCount * r + c && 0 <= c < colCount
      requires 0 <= r < rowCount && ncols == Min(colCount - c, rem) && ncols > 0
      requires (r + 1) * colCount <= rowCount * colCount
      requires first == i && first + Max(0, ncols - c) <= length
      requires k2 == Max(0, ncols - c) && sent2 == [] + Items(first, first + Max(0, ncols - c))
      ensures SendState(i, rem, r + 1, 0, lowerCol, Min(colCount, rem - k2), k2, 0 + ncols, sent2)
    {
      var base := (r + 1) * colCount;
      assert sent2 == Items(i, i + k2) + Items(base, base);
    }

    lemma SendLaterRowPost(i: int, rem: int, r: int, ncols: int, k: int, sent: seq<int32>,
                           first: int, k2: int, sent2: seq<int32>)
      requires Valid() && colCount > 0 && 0 <= i <= length && 0 <= rem
      requires 0 <= i / colCount < r < rowCount && 0 <= i % colCount
      requires (r + 1) * colCount == r * colCount + colCount && (r + 1) * colCount <= rowCount * colCount
      requires var nc0 := Min(colCount - i % colCount, rem);
        var w0 := Max(0, nc0 - i % colCount);
        var base := (i / colCount + 1) * colCount;
        0 < nc0 && 0 <= k - w0 && k < rem && ncols == Min(colCount, rem - k) && ncols > 0
        && i + w0 <= length && 0 <= base && k - w0 == (r - i / colCount - 1) * colCount
        && sent == Items(i, i + w0) + Items(base, base + (k - w0))
      requires first == r * colCount && first + ncols <= length
      requires k2 == k + ncols && sent2 == sent + Items(first, first + ncols)
      ensures var nc0 := Min(colCount - i % colCount, rem);
        var w0 := Max(0, nc0 - i % colCount);
        var base := (i / colCount + 1) * colCount;
        SendState(i, rem, r + 1, 0, lowerCol, Min(colCount, rem - k2), k2, nc0 + (k - w0) + ncols, sent2)
    {
      var r0 := i / colCount;
      var w0 := Max(0, Min(colCount - i % colCount, rem) - i % colCount);
      var base := (r0 + 1) * colCount;
      var later := k - w0;
      MulStep(r - r0 - 1, r - r0, colCount);
      MulStep(r0, r0 + 1, colCount);
      MulStep(r - r0 - 1 + r0, r, colCount);
      assert first == base + later;
      ItemsSplit(base, first, first + ncols);
      assert sent2 == Items(i, i + w0) + Items(base, base + later + ncols);
    }

    /**
     * One pass of the as-written send loop: the inner loop over the row's
     * columns, then the count goes up by `ncols` and the next row starts at
     * column 0.
     */
    method SendRow(buffer: ByteBuffer, i: int, rem: int, r: int, row: int, c: int, col: int, ncols: int,
                   k: int, n: int, ghost sent: seq<int32>, ghost p0: int, ghost d0: seq<int>)
      returns (r': int, row': int, c': int, col': int, ncols': int, k': int, n': int, ghost sent': seq<int32>)
      requires Valid() && buffer.Valid() && 0 <= i <= length && 0 <= rem
      requires 0 <= p0 == buffer.position && p0 + 4 * rem <= buffer.limit && |buffer.data| == |d0|
      requires r < rowCount && ncols > 0 && row == rowRange.At(r)
      requires SendState(i, rem, r, c, col, ncols, k, n, sent)
      requires buffer.data == Overwrite(d0, p0, EncodeInts(sent))
      modifies buffer
      ensures buffer.Valid() && buffer.position == p0 && buffer.limit == old(buffer.limit) && |buffer.data| == |d0|
      ensures r' == r + 1 && row' == rowRange.At(r')
      ensures SendState(i, rem, r', c', col', ncols', k', n', sent')
      ensures buffer.data == Overwrite(d0, p0, EncodeInts(sent'))
    {
      SendRowPre(i, rem, r, c, col, ncols, k, n, sent);
      ghost var first := r * colCount + c;
      k' := SendCells(buffer, row, r, c, col, ncols, k, first, p0, d0, sent);
      sent' := sent + Items(first, first + Max(0, ncols - c));
      n' := n + ncols;
      r' := r + 1;
      row' := row + rowStride;
      c' := 0;
      col' := lowerCol;
      ncols' := Min(colCount, rem - k');
      RowStep(r, r');
      SendRowPost(i, rem, r, c, col, ncols, k, n, sent, first, r', c', col', ncols', k', n', sent');
    }

    /**
     * `sendItems(i, buffer)` as written: puts the ints SentAsWritten lays
     * out through the int view, reports AsWrittenPlan's count, and moves the
     * position by four bytes per counted item, which fails with
     * IllegalArgumentException (`ok` false) when that passes the limit.
     */
    method SendItems(i: int, buffer: ByteBuffer) returns (n: int, ok: bool)
      requires Valid() && buffer.Valid() && 0 <= i <= length
      modifies buffer
      ensures n == AsWrittenPlan(rowCount, colCount, i, old(buffer.Remaining()) / 4).counted
      ensures buffer.Valid() && buffer.limit == old(buffer.limit)
      ensures buffer.data
           == Overwrite(old(buffer.data), old(buffer.position), EncodeInts(SentAsWritten(i, old(buffer.Remaining()) / 4)))
      ensures ok <==> old(buffer.position) + 4 * n <= buffer.limit
      ensures buffer.position == if ok then old(buffer.position) + 4 * n else old(buffer.position)
    {
      ghost var p0 := buffer.position;
      ghost var d0 := buffer.data;
      ghost var sent: seq<int32> := [];
      var rem := buffer.Remaining() / 4;
      var k := 0;
      n := 0;
      var r := I2R(i);
      var row := r * rowStride + lowerRow;
      var c := I2C(i);
      var col := c * colStride + lowerCol;
      var ncols := Min(colCount - c, rem);
      SendEntry(i, rem, r, c, col, ncols);
      assert Overwrite(d0, p0, EncodeInts(sent)) == d0;
      while r < rowCount && ncols > 0
        invariant SendState(i, rem, r, c, col, ncols, k, n, sent) && row == rowRange.At(r)
        invariant buffer.Valid() && buffer.position == p0 && buffer.limit == old(buffer.limit) && |buffer.data| == |d0|
        invariant buffer.data == Overwrite(d0, p0, EncodeInts(sent))
        decreases rowCount - r
      {
        r, row, c, col, ncols, k, n, sent := SendRow(buffer, i, rem, r, row, c, col, ncols, k, n, sent, p0, d0);
      }
      SendExit(i, rem, r, c, col, ncols, k, n, sent);
      ok := buffer.SetPosition(buffer.position + 4 * n);
    }

    /**
     * Where a row-by-row walk stands before testing its loop condition: the
     * loop shared by `receiveItems` and the corrected `sendItems`. It is at
     * row `r`, starting column `c` (matrix column `col`), has moved `n`
     * items out of at most `total`, and will move `ncols` items from this
     * row. Unless the walk has used up `total`, item i + n is the cell at
     * row r, column c.
     */
    ghost predicate WalkState(i: int, total: int, r: int, c: int, col: int, ncols: int, n: int)
      requires Valid() && 0 <= i <= length
    {
      if colCount == 0 then ncols <= 0 && n == 0
      else
        var r0 := i / colCount;
        0 <= r0 <= r <= rowCount && 0 <= c < colCount && col == colRange.At(c)
        && (if r == r0 then c == i % colCount && n == 0 else c == 0)
        && 0 <= n && (n == 0 || n <= total) && ncols == Min(colCount - c, total - n) && i + n <= length
        && (i + n == r * colCount + c || n == total)
    }

    /** The walk starts at item i's row and column with nothing moved. */
    lemma WalkEntry(i: int, total: int, r: int, c: int, col: int, ncols: int)
      requires Valid() && 0 <= i <= length
      requires r == I2R(i) && c == I2C(i) && col == c * colStride + lowerCol && ncols == Min(colCount - c, total)
      ensures WalkState(i, total, r, c, col, ncols, 0)
    {
      if colCount > 0 {
        ItemPosition(i, rowCount, colCount);
        assert i == I2R(i) * colCount + I2C(i);
      }
    }

    /** When the walk stops it has moved as many items as `total` allows, up to the last item. */
    lemma WalkExit(i: int, total: int, r: int, c: int, col: int, ncols: int, n: int)
      requires Valid() && 0 <= i <= length
      requires WalkState(i, total, r, c, col, ncols, n) && !(r < rowCount && ncols > 0)
      ensures n == Max(0, Min(total, length - i))
    {
      if colCount > 0 {
        DivModFacts(i, colCount);
      }
    }

    /**
     * A pass of the walk with the loop condition true moves items
     * i + n .. i + n + ncols - 1, the cells of row r from column c on, and
     * leaves the walk at the start of row r + 1.
     */
    lemma WalkStep(i: int, total: int, r: int, c: int, col: int, ncols: int, n: int,
                   r2: int, c2: int, col2: int, ncols2: int, n2: int)
      requires Valid() && 0 <= i <= length
      requires WalkState(i, total, r, c, col, ncols, n) && r < rowCount && ncols > 0
      requires r2 == r + 1 && c2 == 0 && col2 == lowerCol && n2 == n + ncols && ncols2 == Min(colCount, total - n2)
      ensures colCount > 0 && 0 <= r && 0 <= c && c + ncols <= colCount && col == colRange.At(c)
      ensures i + n == r * colCount + c && n + ncols <= total && i + n + ncols <= length
      ensures WalkState(i, total, r2, c2, col2, ncols2, n2)
    {
      DivModFacts(i, colCount);
      RowArithmetic(rowCount, colCount, r);
      RowSpan(r, c, c + ncols, i + n);
    }

    /**
     * One pass of the corrected send loop: the row's `ncols` cells from
     * column c on, then the count goes up by `ncols` and the next row starts
     * at column 0.
     */
    method SendRowCorrected(buffer: ByteBuffer, i: int, rem: int, r: int, row: int, c: int, col: int, ncols: int,
                            n: int, ghost p0: int, ghost d0: seq<int>)
      returns (r': int, row': int, c': int, col': int, ncols': int, n': int)
      requires Valid() && buffer.Valid() && 0 <= i <= length
      requires 0 <= p0 == buffer.position && p0 + 4 * rem <= buffer.limit && |buffer.data| == |d0|
      requires r < rowCount && ncols > 0 && row == rowRange.At(r)
      requires WalkState(i, rem, r, c, col, ncols, n)
      requires buffer.data == Overwrite(d0, p0, EncodeInts(Items(i, i + n)))
      modifies buffer
      ensures buffer.Valid() && buffer.position == p0 && buffer.limit == old(buffer.limit) && |buffer.data| == |d0|
      ensures r' == r + 1 && row' == rowRange.At(r')
      ensures WalkState(i, rem, r', c', col', ncols', n')
      ensures buffer.data == Overwrite(d0, p0, EncodeInts(Items(i, i + n')))
    {
      n' := n + ncols;
      r' := r + 1;
      c' := 0;
      col' := lowerCol;
      ncols' := Min(colCount, rem - n');
      WalkStep(i, rem, r, c, col, ncols, n, r', c', col', ncols', n');
      var k := SendCells(buffer, row, r, c, col, c + ncols, n, i + n, p0, d0, Items(i, i + n));
      ItemsSplit(i, i + n, i + n');
      row' := row + rowStride;
      RowStep(r, r');
    }

    /**
     * `sendItems(i, buffer)` with its inner loop corrected to put `ncols`
     * cells from the starting column on: puts items i .. i+n-1 through the
     * int view, where n is SendCount (as many as fit, up to the last item),
     * and moves the position past them.
     */
    method SendItemsCorrected(i: int, buffer: ByteBuffer) returns (n: int)
      requires Valid() && buffer.Valid() && 0 <= i <= length
      modifies buffer
      ensures n == SendCount(rowCount, colCount, i, old(buffer.Remaining()) / 4)
      ensures buffer.Valid() && buffer.limit == old(buffer.limit) && buffer.position == old(buffer.position) + 4 * n
      ensures buffer.data == Overwrite(old(buffer.data), old(buffer.position), EncodeInts(Items(i, i + n)))
    {
      ghost var p0 := buffer.position;
      ghost var d0 := buffer.data;
      var rem := buffer.Remaining() / 4;
      n := 0;
      var r := I2R(i);
      var row := r * rowStride + lowerRow;
      var c := I2C(i);
      var col := c * colStride + lowerCol;
      var ncols := Min(colCount - c, rem);
      WalkEntry(i, rem, r, c, col, ncols);
      assert Overwrite(d0, p0, EncodeInts(Items(i, i))) == d0;
      while r < rowCount && ncols > 0
        invariant WalkState(i, rem, r, c, col, ncols, n) && row == rowRange.At(r)
        invariant buffer.Valid() && buffer.position == p0 && buffer.limit == old(buffer.limit) && |buffer.data| == |d0|
        invariant buffer.data == Overwrite(d0, p0, EncodeInts(Items(i, i + n)))
        decreases rowCount - r
      {
        r, row, c, col, ncols, n := SendRowCorrected(buffer, i, rem, r, row, c, col, ncols, n, p0, d0);
      }
      WalkExit(i, rem, r, c, col, ncols, n);
      var ok := buffer.SetPosition(buffer.position + 4 * n);
    }

    /**
     * The inner loop of a receive, `for (c = 0; c < ncols; ++ c)`: gets
     * `ncols` ints from the int view, from int k on, into the cells of row r
     * from column `start` on, which are items first .. first + ncols - 1.
     */
    method ReceiveCells(buffer: ByteBuffer, row: int, r: int, ghost start: int, col: int, ncols: int, k: int,
                        ghost i: int, ghost first: int)
      requires Valid() && buffer.Valid() && 0 <= r < rowCount && row == rowRange.At(r)
      requires 0 <= start && 0 <= ncols && start + ncols <= colCount && col == colRange.At(start)
      requires first == r * colCount + start && 0 <= i <= first && k == first - i
      requires buffer.position + 4 * (k + ncols) <= buffer.limit
      requires forall j :: i <= j < first ==> first <= length && Get(j) == IntAt(buffer.data, buffer.position + 4 * (j - i))
      modifies matrix
      ensures first + ncols <= length
      ensures forall j :: i <= j < first + ncols ==> Get(j) == IntAt(buffer.data, buffer.position + 4 * (j - i))
      ensures forall rr, cc :: 0 <= rr < matrix.Length0 && 0 <= cc < matrix.Length1 && matrix[rr, cc] != old(matrix[rr, cc])
                ==> exists j :: first <= j < first + ncols && rr == CellRow(j) && cc == CellCol(j)
    {
      RowSpan(r, start, start + ncols, first);
      var t := 0;
      var cl := col;
      while t < ncols
        invariant 0 <= t <= ncols && cl == colRange.At(start + t)
        invariant forall j :: i <= j < first + t ==> Get(j) == IntAt(buffer.data, buffer.position + 4 * (j - i))
        invariant forall rr, cc :: 0 <= rr < matrix.Length0 && 0 <= cc < matrix.Length1 && matrix[rr, cc] != old(matrix[rr, cc])
                    ==> exists j :: first <= j < first + t && rr == CellRow(j) && cc == CellCol(j)
        decreases ncols - t
      {
        t, cl := ReceiveCell(buffer, row, r, start, t, cl, k + t, i, first);
      }
    }

    /** One pass of the inner receive loop: get one int into a cell, step to the next column. */
    method ReceiveCell(buffer: ByteBuffer, row: int, r: int, ghost start: int, t: int, col: int, k: int,
                       ghost i: int, ghost first: int)
      returns (t': int, col': int)
      requires Valid() && buffer.Valid() && 0 <= r < rowCount && row == rowRange.At(r)
      requires 0 <= start && 0 <= t && start + t < colCount && col == colRange.At(start + t)
      requires first == r * colCount + start && 0 <= i <= first && k == first + t - i
      requires buffer.position + 4 * (k + 1) <= buffer.limit
      requires forall j :: i <= j < first + t ==> first + t <= length && Get(j) == IntAt(buffer.data, buffer.position + 4 * (j - i))
      modifies matrix
      ensures first + t' <= length && t' == t + 1 && col' == colRange.At(start + t')
      ensures forall j :: i <= j < first + t' ==> Get(j) == IntAt(buffer.data, buffer.position + 4 * (j - i))
      ensures forall rr, cc :: 0 <= rr < matrix.Length0 && 0 <= cc < matrix.Length1 && (rr, cc) != (row, col)
                ==> matrix[rr, cc] == old(matrix[rr, cc])
      ensures row == CellRow(first + t) && col == CellCol(first + t)
    {
      ghost var cur := first + t;
      JoinIndex(r, start + t, cur);
      CellFacts(cur, cur);
      var v := buffer.GetIntAt(buffer.position + 4 * k);
      matrix[row, col] := v;
      forall j | i <= j < cur
        ensures Get(j) == old(Get(j))
      {
        CellFacts(cur, j);
      }
      t' := t + 1;
      col' := col + colStride;
      ColStep(start + t, start + t');
    }

    /**
     * One pass of the receive loop: the inner loop over `ncols` cells, then
     * `num` goes down and the count up by `ncols`, and the next row starts at
     * the first column.
     */
    method ReceiveRow(buffer: ByteBuffer, i: int, ghost total: int, r: int, row: int, ghost c: int, col: int,
                      ncols: int, num: int, n: int)
      returns (r': int, row': int, ghost c': int, col': int, ncols': int, num': int, n': int)
      requires Valid() && buffer.Valid() && 0 <= i <= length
      requires r < rowCount && ncols > 0 && row == rowRange.At(r)
      requires WalkState(i, total, r, c, col, ncols, n) && num == total - n && total <= buffer.Remaining() / 4
      requires forall j :: i <= j < i + n ==> Get(j) == IntAt(buffer.data, buffer.position + 4 * (j - i))
      modifies matrix
      ensures r' == r + 1 && row' == rowRange.At(r')
      ensures WalkState(i, total, r', c', col', ncols', n') && num' == total - n' && n' == n + ncols
      ensures forall j :: i <= j < i + n' ==> Get(j) == IntAt(buffer.data, buffer.position + 4 * (j - i))
      ensures forall rr, cc :: 0 <= rr < matrix.Length0 && 0 <= cc < matrix.Length1 && matrix[rr, cc] != old(matrix[rr, cc])
                ==> exists j :: i + n <= j < i + n' && rr == CellRow(j) && cc == CellCol(j)
    {
      num' := num - ncols;
      n' := n + ncols;
      r' := r + 1;
      c' := 0;
      col' := lowerCol;
      ncols' := Min(colCount, num');
      WalkStep(i, total, r, c, col, ncols, n, r', c', col', ncols', n');
      ReceiveCells(buffer, row, r, c, col, ncols, n, i, i + n);
      row' := row + rowStride;
      RowStep(r, r');
    }

    /**
     * `receiveItems(i, num, buffer)`: gets ints from the int view into items
     * i, i+1, ..., as many as `num`, the ints left and the items left allow,
     * changes no other cell, and moves the position past the ints it read.
     */
    method ReceiveItems(i: int, num: int, buffer: ByteBuffer) returns (n: int)
      requires Valid() && buffer.Valid() && 0 <= i <= length
      modifies matrix, buffer
      ensures n == Max(0, Min(Min(num, old(buffer.Remaining()) / 4), length - i))
      ensures buffer.Valid() && buffer.data == old(buffer.data) && buffer.limit == old(buffer.limit)
      ensures buffer.position == old(buffer.position) + 4 * n
      ensures forall j :: i <= j < i + n ==> Get(j) == IntAt(old(buffer.data), old(buffer.position) + 4 * (j - i))
      ensures forall rr, cc :: 0 <= rr < matrix.Length0 && 0 <= cc < matrix.Length1 && matrix[rr, cc] != old(matrix[rr, cc])
                ==> exists j :: i <= j < i + n && rr == CellRow(j) && cc == CellCol(j)
    {
      var left := Min(num, buffer.Remaining() / 4);
      ghost var total := left;
      n := 0;
      var r := I2R(i);
      var row := r * rowStride + lowerRow;
      ghost var c := I2C(i);
      var col := I2C(i) * colStride + lowerCol;
      var ncols := Min(colCount - I2C(i), left);
      WalkEntry(i, total, r, c, col, ncols);
      while r < rowCount && ncols > 0
        invariant WalkState(i, total, r, c, col, ncols, n) && row == rowRange.At(r) && left == total - n
        invariant buffer.Valid() && buffer.data == old(buffer.data) && buffer.limit == old(buffer.limit)
        invariant buffer.position == old(buffer.position) && total <= buffer.Remaining() / 4
        invariant forall j :: i <= j < i + n ==> Get(j) == IntAt(buffer.data, buffer.position + 4 * (j - i))
        invariant forall rr, cc :: 0 <= rr < matrix.Length0 && 0 <= cc < matrix.Length1 && matrix[rr, cc] != old(matrix[rr, cc])
                    ==> exists j :: i <= j < i + n && rr == CellRow(j) && cc == CellCol(j)
        decreases rowCount - r
      {
        ghost var n0 := n;
        label Pass:
        r, row, c, col, ncols, left, n := ReceiveRow(buffer, i, total, r, row, c, col, ncols, left, n);
        forall rr, cc | 0 <= rr < matrix.Length0 && 0 <= cc < matrix.Length1 && matrix[rr, cc] != old(matrix[rr, cc])
          ensures exists j :: i <= j < i + n && rr == CellRow(j) && cc == CellCol(j)
        {
          var j;
          if matrix[rr, cc] != old@Pass(matrix[rr, cc]) {
            j :| i + n0 <= j < i + n && rr == CellRow(j) && cc == CellCol(j);
          } else {
            assert old@Pass(matrix[rr, cc]) != old(matrix[rr, cc]);
            j :| i <= j < i + n0 && rr == CellRow(j) && cc == CellCol(j);
          }
          assert i <= j < i + n && rr == CellRow(j) && cc == CellCol(j);
        }
      }
      WalkExit(i, total, r, c, col, ncols, n);
      var ok := buffer.SetPosition(buffer.position + 4 * n);
    }

    /**
     * A receive at the byte offset where a corrected send started reads
     * back every sent item.
     */
    lemma SendReceiveRoundTrip(d: seq<int>, at: int, i: int, n: int, j: int)
      requires Valid() && AllBytes(d) && 0 <= at && 0 <= i && i + n <= length && at + 4 * n <= |d|
      requires i <= j < i + n
      ensures AllBytes(Overwrite(d, at, EncodeInts(Items(i, i + n))))
      ensures IntAt(Overwrite(d, at, EncodeInts(Items(i, i + n))), at + 4 * (j - i)) == Get(j)
    {
      IntAtEncoded(d, at, Items(i, i + n), j - i);
    }

    lemma ColStep(c: int, next: int)
      requires next == c + 1
      ensures colRange.At(next) == colRange.At(c) + colRange.stride
    {
      assert next * colRange.stride == c * colRange.stride + colRange.stride;
    }

    lemma RowStep(r: int, next: int)
      requires next == r + 1
      ensures rowRange.At(next) == rowRange.At(r) + rowRange.stride
    {
      assert next * rowRange.stride == r * rowRange.stride + rowRange.stride;
    }
  }
}
