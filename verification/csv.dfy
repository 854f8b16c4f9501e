/**
 `writeCSVDataFile`: one line per record, `dataTypeToString(dt) + "\n"`,
 read from the `data` table when the stream has rows there and from
 `rawdata` only otherwise, into the file named after the stream.
 */
module Csv {
  import opened Text
  import opened Records
  import opened Batching
  import opened Database
  import opened Metadata

  const CSV_BUFFER_SIZE := 1000000

  function LineOf(show: Show): DataType -> string {
    (r: DataType) => ToText(show, r) + "\n"
  }

  function TextOf(show: Show): DataType -> string {
    (r: DataType) => ToText(show, r)
  }

  /** The inner `for` loop: one line per record of the batch, in order. */
  method BatchLines<R>(batch: seq<R>, line: R -> string) returns (lines: seq<string>)
    ensures lines == Collect(batch, line)
  {
    lines := [];
    for i := 0 to |batch|
      invariant lines == Collect(batch[..i], line)
    {
      assert batch[..i + 1][..i] == batch[..i];
      lines := lines + [line(batch[i])];
    }
    assert batch[..|batch|] == batch;
  }

  /** The drain loop: each batch `next()` returns, each record of it, one line per record. */
  method WriteLines<R>(it: Iterator<R>, line: R -> string) returns (lines: seq<string>)
    requires Valid(it) && it.bufferSize >= 1
    ensures lines == Collect(Reachable(it), line)
  {
    ghost var it0 := it;
    ghost var consumed: seq<R> := [];
    lines := [];
    var cur := it;
    while HasNext(cur)
      invariant Valid(cur) && cur.bufferSize == it.bufferSize
      invariant consumed + Reachable(cur) == Reachable(it)
      invariant lines == Collect(consumed, line)
      decreases Remaining(cur)
    {
      DrainStep(it0, cur, consumed);
      var batch, rest := Next(cur);
      var more := BatchLines(batch, line);
      CollectConcat(consumed, batch, line);
      lines := lines + more;
      consumed := consumed + batch;
      cur := rest;
    }
  }

  /** The same loop over the batches of the `rawdata` iterator. */
  method WriteBatches<R>(batches: seq<seq<R>>, line: R -> string) returns (lines: seq<string>)
    ensures lines == Collect(Flatten(batches), line)
  {
    lines := [];
    for b := 0 to |batches|
      invariant lines == Collect(Flatten(batches[..b]), line)
    {
      var more := BatchLines(batches[b], line);
      assert batches[..b + 1] == batches[..b] + [batches[b]];
      FlattenConcat(batches[..b], [batches[b]]);
      assert Flatten([batches[b]]) == batches[b];
      CollectConcat(Flatten(batches[..b]), batches[b], line);
      lines := lines + more;
    }
    assert batches[..|batches|] == batches;
  }

  /**
   `writeCSVDataFile`: the file `<getOutputFilename(id)>.csv` and the lines
   written to it, in order.
   */
  method WriteCsvDataFile(show: Show, db: Store, id: int) returns (path: string, lines: seq<string>)
    ensures db.sourcesFail(id) ==> path == ".csv"
    ensures !db.sourcesFail(id) ==> path == Join(AllParameters(db.sources(id)), '_') + ".csv"
    ensures id in db.queryIds ==> lines == Collect(DataRows(db, id), LineOf(show))
    ensures id !in db.queryIds && id in db.rawIds ==> lines == Collect(Flatten(db.raw(id)), LineOf(show))
    ensures id !in db.queryIds && id !in db.rawIds ==> lines == []
  {
    var filename := GetOutputFilename(db, id);
    path := filename + ".csv";
    lines := [];
    if id in db.queryIds {
      var it := NewIterator(db.data(id), db.dataErrorAt(id), CSV_BUFFER_SIZE);
      ReachableFresh(db.data(id), db.dataErrorAt(id), CSV_BUFFER_SIZE);
      lines := WriteLines(it, LineOf(show));
    } else if id in db.rawIds {
      lines := WriteBatches(db.raw(id), LineOf(show));
    }
  }

  /** What the writer leaves in the file: the lines, back to back. */
  function FileText(lines: seq<string>): string
    decreases |lines|
  {
    if |lines| == 0 then "" else FileText(lines[..|lines| - 1]) + lines[|lines| - 1]
  }

  /** Lines that each end in a newline make up the join of their texts with an empty tail. */
  lemma {:induction false} FileIsJoin(ts: seq<string>, lines: seq<string>)
    requires 1 <= |ts| == |lines|
    requires forall i :: 0 <= i < |ts| ==> lines[i] == ts[i] + "\n"
    ensures FileText(lines) == Join(ts + [""], '\n')
    decreases |ts|
  {
    var n := |ts|;
    var init := ts[..n - 1];
    assert (ts + [""])[..n] == ts;
    if n == 1 {
      assert ts[..0] == [];
      assert lines[..0] == [];
    } else {
      FileIsJoin(init, lines[..n - 1]);
      assert (init + [""])[..n - 1] == init;
      assert init + [ts[n - 1]] == ts;
    }
  }

  /**
   A file holds one line per record: split at newlines it gives back each
   record's row text in order, then the empty text after the final newline,
   as long as no row text contains a newline itself.
   */
  lemma CsvFileRows(show: Show, rs: seq<DataType>)
    requires forall i :: 0 <= i < |rs| ==> '\n' !in ToText(show, rs[i])
    ensures Fields(FileText(Collect(rs, LineOf(show))), '\n') == Collect(rs, TextOf(show)) + [""]
    ensures |Fields(FileText(Collect(rs, LineOf(show))), '\n')| == |rs| + 1
  {
    if |rs| == 0 {
    } else {
      FileIsJoin(Collect(rs, TextOf(show)), Collect(rs, LineOf(show)));
      JoinFields(Collect(rs, TextOf(show)) + [""], '\n');
    }
  }
}
