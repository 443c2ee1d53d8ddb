/// The row cursor of MySql.XDevAPI.ResultSet as a state machine on values:
/// the buffered rows, the position, the completion flag and how far the row
/// stream `src` of the result has been read. The class in resultset.dfy is
/// proved to take exactly these steps; the properties of the cursor are
/// proved here, about the steps.
module Paging {
  import opened Utf8

  /** A row: the raw bytes of each of its fields. */
  type Row = seq<Bytes>

  datatype Cursor = Cursor(rows: seq<Row>, position: int, complete: bool, read: nat)

  /**
   * The buffer is the first rows of the stream. Until completion every row
   * read has been buffered; completion means the stream is used up (Dump
   * reads the rest of the stream without buffering it).
   */
  predicate Consistent(c: Cursor, src: seq<Row>) {
    && c.read <= |src|
    && |c.rows| <= c.read
    && c.rows == src[..|c.rows|]
    && (c.complete ==> c.read == |src|)
    && (!c.complete ==> |c.rows| == c.read)
  }

  /** Between calls the position is never below -1, and before completion it is on a buffered row or -1. */
  predicate ValidCursor(c: Cursor, src: seq<Row>) {
    && Consistent(c, src)
    && -1 <= c.position
    && (!c.complete ==> c.position < |c.rows|)
  }

  /** A fresh cursor: nothing buffered, before the first row. */
  const Initial := Cursor([], -1, false, 0)

  function Min(a: int, b: int): int {
    if a <= b then a else b
  }

  /**
   * PageInRows: read up to `pageSize` rows, stopping early at the end of the
   * stream, and buffer each one in stream order.
   */
  function PageIn(c: Cursor, src: seq<Row>, pageSize: nat): (r: Cursor)
    requires c.read <= |src|
    ensures c.read <= r.read <= c.read + pageSize && r.read <= |src|
    ensures c.rows <= r.rows && r.rows == c.rows + src[c.read..r.read]
    ensures r.read < c.read + pageSize ==> r.read == |src|
    ensures r.position == c.position && r.complete == c.complete
  {
    var n := Min(pageSize, |src| - c.read);
    c.(rows := c.rows + src[c.read..c.read + n], read := c.read + n)
  }

  /**
   * Next: move to the next position; on reaching the end of the buffer of an
   * incomplete cursor, page rows in, and complete the cursor if none came.
   * The flag says whether there is a row at the new position.
   */
  function Advance(c: Cursor, src: seq<Row>, pageSize: nat): (r: (Cursor, bool))
    requires ValidCursor(c, src) && pageSize > 0
    ensures ValidCursor(r.0, src)
    ensures r.0.position == c.position + 1
  {
    var p := c.position + 1;
    if p == |c.rows| then
      if c.complete then (c.(position := p), false)
      else
        var paged := PageIn(c.(position := p), src, pageSize);
        if p < |paged.rows| then (paged, true)
        else (paged.(complete := true), false)
    else
      (c.(position := p), true)
  }

  /** `while (Next()) ;` from a position on a buffered row. */
  function Drain(c: Cursor, src: seq<Row>, pageSize: nat): (r: Cursor)
    requires ValidCursor(c, src) && c.position < |c.rows| && pageSize > 0
    ensures ValidCursor(r, src)
    decreases |src| - c.read, |c.rows| - c.position
  {
    var (next, more) := Advance(c, src, pageSize);
    if more then Drain(next, src, pageSize) else next
  }

  /**
   * FinishLoading: drain, then return to the old position, or to 0 from -1.
   * Every row left in the stream ends up buffered and the cursor complete.
   */
  function Finish(c: Cursor, src: seq<Row>, pageSize: nat): (r: Cursor)
    requires ValidCursor(c, src) && c.position < |c.rows| && pageSize > 0
    ensures r.complete && r.read == |src|
    ensures r.rows == c.rows + src[c.read..]
    ensures r.position == (if c.position == -1 then 0 else c.position)
    ensures ValidCursor(r, src)
  {
    DrainBuffersAll(c, src, pageSize);
    Drain(c, src, pageSize).(position := if c.position == -1 then 0 else c.position)
  }

  /** Dump: read the rest of the stream without buffering it, and complete. */
  function DumpAll(c: Cursor, src: seq<Row>): (r: Cursor)
    requires Consistent(c, src)
    ensures r.complete && r.read == |src| && r.rows == c.rows && r.position == c.position
    ensures c.complete ==> r == c
  {
    if c.complete then c else c.(read := |src|, complete := true)
  }

  /**
   * Rows are only ever appended, in stream order, and one Next appends at most
   * one page. Only a Next that reaches the end of the buffer of an incomplete
   * cursor reads, and then it reads a full page unless the stream ends first.
   */
  lemma AdvanceAppendsOnePage(c: Cursor, src: seq<Row>, pageSize: nat)
    requires ValidCursor(c, src) && pageSize > 0
    ensures var next := Advance(c, src, pageSize).0;
            && c.read <= next.read <= c.read + pageSize
            && next.rows == c.rows + src[c.read..next.read]
            && (next.read != c.read ==> c.position + 1 == |c.rows| && !c.complete)
            && (c.position + 1 == |c.rows| && !c.complete ==>
                  next.read == c.read + Min(pageSize, |src| - c.read))
  {
  }

  /**
   * Next returns false exactly when the new position is the old buffer length
   * and nothing was appended; then the cursor is complete. A call that
   * returns true leaves the completion flag as it was, even after a partial page.
   */
  lemma AdvanceFalseExactly(c: Cursor, src: seq<Row>, pageSize: nat)
    requires ValidCursor(c, src) && pageSize > 0
    ensures var (next, more) := Advance(c, src, pageSize);
            && (!more <==> next.position == |c.rows| && next.rows == c.rows)
            && (!more ==> next.complete)
            && (more ==> next.complete == c.complete)
  {
  }

  /** Once complete, Next never reads the stream again nor changes the buffer. */
  lemma CompleteReadsNothing(c: Cursor, src: seq<Row>, pageSize: nat)
    requires ValidCursor(c, src) && pageSize > 0 && c.complete
    ensures var next := Advance(c, src, pageSize).0;
            next == c.(position := c.position + 1)
  {
  }

  /**
   * After Next has returned false, the next Next skips the end-of-buffer test,
   * moves one past the end and returns true: the cursor is not idempotent
   * once exhausted, and it keeps returning true from then on.
   */
  lemma AdvanceAfterFalse(c: Cursor, src: seq<Row>, pageSize: nat)
    requires ValidCursor(c, src) && pageSize > 0 && !Advance(c, src, pageSize).1
    ensures var next := Advance(c, src, pageSize).0;
            && Advance(next, src, pageSize) == (next.(position := |next.rows| + 1), true)
            && forall k: nat :: k > |next.rows| ==>
                 Advance(next.(position := k), src, pageSize) == (next.(position := k + 1), true)
  {
  }

  /**
   * Drain completeness: draining buffers every row left in the stream, in
   * order, uses the stream up, completes the cursor and stops at the end of
   * the buffer. From an incomplete cursor the buffer is then the whole stream.
   */
  lemma {:induction false} DrainBuffersAll(c: Cursor, src: seq<Row>, pageSize: nat)
    requires ValidCursor(c, src) && c.position < |c.rows| && pageSize > 0
    ensures var d := Drain(c, src, pageSize);
            && d.complete && d.read == |src|
            && d.rows == c.rows + src[c.read..]
            && d.position == |d.rows|
            && (!c.complete ==> d.rows == src)
    decreases |src| - c.read, |c.rows| - c.position
  {
    var (next, more) := Advance(c, src, pageSize);
    AdvanceAppendsOnePage(c, src, pageSize);
    AdvanceFalseExactly(c, src, pageSize);
    if more {
      DrainBuffersAll(next, src, pageSize);
      assert c.rows + src[c.read..next.read] + src[next.read..] == c.rows + src[c.read..];
    } else {
      assert src[c.read..next.read] == src[c.read..];
    }
  }

  /** After Dump no later Next reads the stream: it only moves the position. */
  lemma DumpThenAdvance(c: Cursor, src: seq<Row>, pageSize: nat)
    requires ValidCursor(c, src) && pageSize > 0
    ensures var d := DumpAll(c, src);
            && ValidCursor(d, src) && d.complete && d.read == |src| && d.rows == c.rows
            && Advance(d, src, pageSize).0 == d.(position := d.position + 1)
  {
  }

  /**
   * A two-row result: the first Next pages both rows in, the third finds no
   * more and returns false, and a fourth returns true again.
   */
  lemma TwoRowExample(r0: Row, r1: Row)
    ensures var src := [r0, r1];
            var (c1, m1) := Advance(Initial, src, 20);
            var (c2, m2) := Advance(c1, src, 20);
            var (c3, m3) := Advance(c2, src, 20);
            var (c4, m4) := Advance(c3, src, 20);
            && m1 && c1.rows == src && c1.position == 0 && c1.rows[c1.position] == r0
            && m2 && c2.position == 1
            && !m3 && c3.position == 2 && c3.complete
            && m4 && c4.position == 3
  {
  }
}
