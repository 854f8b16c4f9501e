/**
 The batching iterator over a forward-only result set: `hasNext` asks
 whether the cursor is past its last row, `next` pulls up to `bufferSize`
 rows.
 */
module Batching {
  import opened Wrappers

  /** Where the result set stands: still readable, past its last row, or failed. */
  datatype State = Open | AfterLast | Broken

  /**
   A forward-only result set: the rows the query yields, the position (if
   any) at which fetching raises an SQLException, how many rows have been
   fetched, and its state.
   */
  datatype Cursor<T> = Cursor(rows: seq<T>, errorAt: Option<nat>, pos: nat, state: State)

  /** `SQLiteIterator`: a cursor and the largest batch `next` returns. */
  datatype Iterator<T> = Iterator(cursor: Cursor<T>, bufferSize: int)

  /** The cursor never stands beyond its rows. */
  predicate Valid<T>(it: Iterator<T>) {
    it.cursor.pos <= |it.cursor.rows|
  }

  /** The iterator right after its query ran: before the first row. */
  function NewIterator<T>(rows: seq<T>, errorAt: Option<nat>, bufferSize: int): (it: Iterator<T>)
    ensures Valid(it)
  {
    Iterator(Cursor(rows, errorAt, 0, Open), bufferSize)
  }

  /** What one `rs.next()` does: yields the next row, reports the end, or throws. */
  datatype Step<T> = Row(row: T, after: Cursor<T>) | End(after: Cursor<T>) | Threw(after: Cursor<T>)

  function Advance<T>(c: Cursor<T>): Step<T> {
    match c.state
    case Open =>
      if c.errorAt == Some(c.pos) then Threw(c.(state := Broken))
      else if c.pos < |c.rows| then Row(c.rows[c.pos], c.(pos := c.pos + 1))
      else End(c.(state := AfterLast))
    case AfterLast => End(c)
    case Broken => Threw(c)
  }

  /**
   `hasNext`: not past the last row. A failed cursor is taken to throw from
   `isAfterLast` as well, which the source's catch turns into false.
   */
  predicate HasNext<T>(it: Iterator<T>) {
    it.cursor.state == Open
  }

  /** A fetch will throw before the rows run out. */
  predicate FailsAhead<T>(c: Cursor<T>) {
    c.errorAt.Some? && c.pos <= c.errorAt.value <= |c.rows|
  }

  /** The position at which fetching stops, by the end of the rows or by an exception. */
  function Stop<T>(c: Cursor<T>): (s: nat)
    requires c.pos <= |c.rows|
    ensures c.pos <= s <= |c.rows|
  {
    if FailsAhead(c) then c.errorAt.value else |c.rows|
  }

  /** The rows a drained iterator can still produce, in cursor order. */
  function Reachable<T>(it: Iterator<T>): seq<T>
    requires Valid(it)
  {
    if HasNext(it) then it.cursor.rows[it.cursor.pos..Stop(it.cursor)] else []
  }

  /** The rows a fresh result set delivers before its end or its first exception. */
  function Readable<T>(rows: seq<T>, errorAt: Option<nat>): seq<T> {
    if errorAt.Some? && errorAt.value <= |rows| then rows[..errorAt.value] else rows
  }

  lemma ReachableFresh<T>(rows: seq<T>, errorAt: Option<nat>, bufferSize: int)
    ensures Reachable(NewIterator(rows, errorAt, bufferSize)) == Readable(rows, errorAt)
  {
  }

  /** A batch and the iterator after it. */
  datatype Pull<T> = Pull(batch: seq<T>, rest: Iterator<T>)

  /**
   Reference definition of one `next()`: a full batch leaves the cursor on
   the last row it returned; a short batch means the cursor hit the end or
   an exception.
   */
  function Pulled<T>(it: Iterator<T>): (p: Pull<T>)
    requires Valid(it)
    ensures Valid(p.rest)
  {
    var c := it.cursor;
    if it.bufferSize <= 0 || c.state != Open then Pull([], it)
    else if Stop(c) - c.pos >= it.bufferSize then
      Pull(c.rows[c.pos..c.pos + it.bufferSize], it.(cursor := c.(pos := c.pos + it.bufferSize)))
    else
      Pull(c.rows[c.pos..Stop(c)],
           it.(cursor := c.(pos := Stop(c), state := if FailsAhead(c) then Broken else AfterLast)))
  }

  /**
   `next()`: keep fetching while the batch has room and `rs.next()` yields
   a row. The size test comes first, so a full batch never fetches a row it
   would then drop; an exception ends the batch with what it holds.
   */
  method Next<T>(it: Iterator<T>) returns (batch: seq<T>, it': Iterator<T>)
    requires Valid(it)
    ensures Pull(batch, it') == Pulled(it)
  {
    batch := [];
    var c := it.cursor;
    while |batch| < it.bufferSize
      invariant c.rows == it.cursor.rows && c.errorAt == it.cursor.errorAt && c.state == it.cursor.state
      invariant c.pos == it.cursor.pos + |batch|
      invariant |batch| > 0 ==> c.state == Open
      invariant |batch| == 0 || |batch| <= it.bufferSize
      invariant c.state == Open ==> c.pos <= Stop(it.cursor)
      invariant batch == it.cursor.rows[it.cursor.pos..c.pos]
      decreases it.bufferSize - |batch|
    {
      var prev := c;
      var step := Advance(c);
      c := step.after;
      if !step.Row? {
        assert prev.state == Open ==> prev.pos == Stop(it.cursor);
        assert prev.state == Open ==> c.state == (if FailsAhead(it.cursor) then Broken else AfterLast);
        break;
      }
      batch := batch + [step.row];
    }
    it' := it.(cursor := c);
  }

  /**
   What one pull guarantees: at most `bufferSize` rows, the next ones in
   cursor order, the same result set underneath; a short batch means
   `hasNext()` is false afterwards, and a failed cursor stopped at the row
   that threw.
   */
  lemma PulledShape<T>(it: Iterator<T>)
    requires Valid(it)
    ensures var p := Pulled(it);
      && (|p.batch| == 0 || |p.batch| <= it.bufferSize)
      && p.rest.bufferSize == it.bufferSize
      && p.rest.cursor.rows == it.cursor.rows && p.rest.cursor.errorAt == it.cursor.errorAt
      && p.rest.cursor.pos == it.cursor.pos + |p.batch|
      && p.batch == it.cursor.rows[it.cursor.pos..p.rest.cursor.pos]
      && (|p.batch| < it.bufferSize ==> !HasNext(p.rest))
      && (HasNext(it) && p.rest.cursor.state == Broken ==> p.rest.cursor.errorAt == Some(p.rest.cursor.pos))
  {
  }

  /**
   `next()` as written, against a driver that keeps the JDBC contract for
   `isAfterLast`: false on a result set without rows, so a cursor over an
   empty stream still reports `hasNext()` after it has run out.
   */
  function PulledAsWritten<T>(it: Iterator<T>): (p: Pull<T>)
    requires Valid(it)
    ensures |it.cursor.rows| > 0 || it.cursor.errorAt.Some? || !HasNext(it) ==> p == Pulled(it)
  {
    if |it.cursor.rows| == 0 && it.cursor.errorAt.None? && HasNext(it) then Pull([], it) else Pulled(it)
  }

  /** Over an empty stream a pull returns nothing and leaves the iterator as it was: the drain never ends. */
  lemma EmptyStreamNeverEnds<T>(bufferSize: int)
    ensures var it := NewIterator<T>([], None, bufferSize);
      PulledAsWritten(it) == Pull([], it) && HasNext(PulledAsWritten(it).rest)
  {
  }

  /** With the end reported, an empty stream gives one empty batch and then `hasNext()` is false. */
  lemma EmptyStreamEnds<T>(bufferSize: int)
    requires bufferSize >= 1
    ensures Batches(NewIterator<T>([], None, bufferSize)) == [[]]
  {
    var it := NewIterator<T>([], None, bufferSize);
    assert !HasNext(Pulled(it).rest);
  }

  /** A pull splits the reachable rows into the batch and what is still reachable after it. */
  lemma PullSplits<T>(it: Iterator<T>)
    requires Valid(it) && HasNext(it)
    ensures Reachable(it) == Pulled(it).batch + Reachable(Pulled(it).rest)
  {
  }

  /** One pull of a drain loop: what was consumed plus what is still reachable stays the same. */
  lemma DrainStep<T>(it0: Iterator<T>, it: Iterator<T>, consumed: seq<T>)
    requires Valid(it0) && Valid(it) && it.bufferSize >= 1 && HasNext(it)
    requires consumed + Reachable(it) == Reachable(it0)
    ensures (consumed + Pulled(it).batch) + Reachable(Pulled(it).rest) == Reachable(it0)
    ensures Remaining(Pulled(it).rest) < Remaining(it)
    ensures Pulled(it).rest.bufferSize == it.bufferSize
    ensures Pulled(it).rest.cursor.rows == it.cursor.rows && Pulled(it).rest.cursor.errorAt == it.cursor.errorAt
  {
    PullSplits(it);
    Progress(it);
  }

  /** A measure that every pull from a live iterator decreases. */
  function Remaining<T>(it: Iterator<T>): nat
    requires Valid(it)
  {
    |it.cursor.rows| - it.cursor.pos + (if HasNext(it) then 1 else 0)
  }

  /** With room for at least one row, a pull consumes a row or reaches the end. */
  lemma Progress<T>(it: Iterator<T>)
    requires Valid(it) && it.bufferSize >= 1 && HasNext(it)
    ensures Remaining(Pulled(it).rest) < Remaining(it)
    ensures |Pulled(it).batch| >= 1 || !HasNext(Pulled(it).rest)
  {
  }

  /** The batches returned by `next()` while `hasNext()` holds. */
  function Batches<T>(it: Iterator<T>): seq<seq<T>>
    requires Valid(it) && it.bufferSize >= 1
    decreases Remaining(it)
  {
    if !HasNext(it) then []
    else
      var p := Pulled(it);
      [p.batch] + Batches(p.rest)
  }

  /** Pulling from a live iterator takes the next batch off the list of batches still to come. */
  lemma BatchStep<T>(it: Iterator<T>, all: seq<seq<T>>, n: nat)
    requires Valid(it) && it.bufferSize >= 1 && HasNext(it)
    requires n + |Batches(it)| == |all| && all[n..] == Batches(it)
    ensures n < |all| && all[n] == Pulled(it).batch
    ensures n + 1 + |Batches(Pulled(it).rest)| == |all| && all[n + 1..] == Batches(Pulled(it).rest)
  {
    assert Batches(it) == [Pulled(it).batch] + Batches(Pulled(it).rest);
    assert all[n + 1..] == all[n..][1..];
  }

  function Flatten<T>(bs: seq<seq<T>>): seq<T>
    decreases |bs|
  {
    if |bs| == 0 then [] else bs[0] + Flatten(bs[1..])
  }

  lemma {:induction false} FlattenConcat<T>(a: seq<seq<T>>, b: seq<seq<T>>)
    ensures Flatten(a + b) == Flatten(a) + Flatten(b)
    decreases |a|
  {
    if |a| > 0 {
      FlattenConcat(a[1..], b);
      assert (a + b)[0] == a[0];
      assert (a + b)[1..] == a[1..] + b;
      assert Flatten(a + b) == a[0] + (Flatten(a[1..]) + Flatten(b));
    } else {
      assert a + b == b;
    }
  }

  /**
   Draining loses, duplicates and reorders nothing: the batches, one after
   another, are exactly the rows still reachable.
   */
  lemma {:induction false} DrainComplete<T>(it: Iterator<T>)
    requires Valid(it) && it.bufferSize >= 1
    ensures Flatten(Batches(it)) == Reachable(it)
    decreases Remaining(it)
  {
    if HasNext(it) {
      var p := Pulled(it);
      DrainComplete(p.rest);
      assert ([p.batch] + Batches(p.rest))[1..] == Batches(p.rest);
    }
  }

  /**
   Every batch but the last is full and the last is short (possibly empty),
   so the reachable rows number (batches - 1) * bufferSize plus the last
   batch's size.
   */
  lemma {:induction false} DrainShape<T>(it: Iterator<T>)
    requires Valid(it) && it.bufferSize >= 1 && HasNext(it)
    ensures |Batches(it)| >= 1
    ensures forall i :: 0 <= i < |Batches(it)| - 1 ==> |Batches(it)[i]| == it.bufferSize
    ensures |Batches(it)[|Batches(it)| - 1]| < it.bufferSize
    ensures (|Batches(it)| - 1) * it.bufferSize + |Batches(it)[|Batches(it)| - 1]| == |Reachable(it)|
    decreases Remaining(it)
  {
    var p := Pulled(it);
    var bs := Batches(it);
    assert bs == [p.batch] + Batches(p.rest);
    if !HasNext(p.rest) {
      assert |bs| == 1;
      assert Reachable(it) == p.batch;
    } else {
      DrainShape(p.rest);
      var tail := Batches(p.rest);
      assert |p.batch| == it.bufferSize;
      assert bs[1..] == tail;
      assert forall i :: 1 <= i < |bs| ==> bs[i] == tail[i - 1];
      assert |Reachable(it)| == it.bufferSize + |Reachable(p.rest)|;
      MulSucc(|tail| - 1, it.bufferSize);
    }
  }

  lemma MulSucc(k: nat, d: nat)
    ensures (k + 1) * d == d + k * d
  {
  }

  lemma {:induction false} MulAtLeast(k: nat, d: nat)
    requires k >= 1
    ensures k * d >= d
    decreases k
  {
    if k > 1 {
      MulAtLeast(k - 1, d);
      MulSucc(k - 1, d);
    }
  }

  lemma DivUnique(n: nat, d: nat, q: nat, r: nat)
    requires d >= 1 && r < d && n == q * d + r
    ensures n / d == q && n % d == r
  {
    var q', r' := n / d, n % d;
    assert n == q' * d + r';
    if q' < q {
      MulAtLeast(q - q', d);
      assert false;
    } else if q' > q {
      MulAtLeast(q' - q, d);
      assert false;
    }
  }

  /**
   Draining a fresh, error-free result set of N rows with batch size C
   yields N / C + 1 batches, the last holding N % C rows: when N is a
   positive multiple of C, one extra empty batch comes last.
   */
  lemma BatchCount<T>(rows: seq<T>, bufferSize: int)
    requires bufferSize >= 1
    ensures |Batches(NewIterator(rows, None, bufferSize))| == |rows| / bufferSize + 1
    ensures |Batches(NewIterator(rows, None, bufferSize))[|rows| / bufferSize]| == |rows| % bufferSize
    ensures Flatten(Batches(NewIterator(rows, None, bufferSize))) == rows
  {
    var it := NewIterator(rows, None, bufferSize);
    DrainShape(it);
    DrainComplete(it);
    assert Reachable(it) == rows;
    var bs := Batches(it);
    DivUnique(|rows|, bufferSize, |bs| - 1, |bs[|bs| - 1]|);
  }

  /** An exception at row e stops the export there: the rows before it all come out, in order. */
  lemma QueryFailureKeepsPrefix<T>(rows: seq<T>, e: nat, bufferSize: int)
    requires e <= |rows| && bufferSize >= 1
    ensures Flatten(Batches(NewIterator(rows, Some(e), bufferSize))) == rows[..e]
  {
    DrainComplete(NewIterator(rows, Some(e), bufferSize));
  }

  /** 2,500 rows in batches of 1,000 come out as 1,000, 1,000 and 500. */
  lemma ThreeBatches<T>(rows: seq<T>)
    requires |rows| == 2500
    ensures |Batches(NewIterator(rows, None, 1000))| == 3
    ensures |Batches(NewIterator(rows, None, 1000))[0]| == 1000
    ensures |Batches(NewIterator(rows, None, 1000))[1]| == 1000
    ensures |Batches(NewIterator(rows, None, 1000))[2]| == 500
  {
    BatchCount(rows, 1000);
    DrainShape(NewIterator(rows, None, 1000));
  }
}
