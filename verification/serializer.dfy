/**
 The JSON side of `DataExport`: the body loop `createJSONDataRepresentation`,
 the JSON file body, and `generateGzipJSON`, which frames one segment as a
 compressed document and reports whether the cursor has more.
 */
module Serializer {
  import opened Wrappers
  import opened JavaTypes
  import opened Records
  import opened Batching
  import opened Envelope
  import opened Database

  const JSON_FILE_BUFFER_SIZE := 10000

  /**
   `createJSONDataRepresentation`: in segment mode one `next()` at most, in
   full mode until `hasNext()` fails; one entry per record either way, and
   the result is `hasNext()` afterwards.
   */
  method CreateJsonDataRepresentation(it: Iterator<DataType>, segment: bool)
    returns (body: seq<Token>, more: bool, it': Iterator<DataType>)
    requires Valid(it)
    requires segment || it.bufferSize >= 1
    ensures Valid(it') && it'.bufferSize == it.bufferSize
    ensures it'.cursor.rows == it.cursor.rows && it'.cursor.errorAt == it.cursor.errorAt
    ensures more == HasNext(it')
    ensures segment ==> body == Entries(Pulled(it).batch) && it' == Pulled(it).rest
    ensures !segment ==> body == Entries(Reachable(it)) && !more
  {
    body := [];
    it' := it;
    if segment {
      // the loop's `break`: one pass at most
      PulledShape(it);
      if HasNext(it') {
        var batch;
        batch, it' := Next(it');
        body := Entries(batch);
      }
    } else {
      ghost var consumed: seq<DataType> := [];
      while HasNext(it')
        invariant Valid(it') && it'.bufferSize == it.bufferSize
        invariant it'.cursor.rows == it.cursor.rows && it'.cursor.errorAt == it.cursor.errorAt
        invariant consumed + Reachable(it') == Reachable(it)
        invariant body == Entries(consumed)
        decreases Remaining(it')
      {
        DrainStep(it, it', consumed);
        var batch, rest := Next(it');
        EntriesConcat(consumed, batch);
        body := body + Entries(batch);
        consumed := consumed + batch;
        it' := rest;
      }
      assert consumed == Reachable(it);
    }
    more := HasNext(it');
  }

  /**
   `createJSONDataFileRepresentation`: the header, then the `data` rows when
   the stream has any, else the `rawdata` batches when it has those, then
   the footer. `user` and `study` are what `getUserInfo` and `getStudyInfo`
   returned, None where the lookup threw; the exception then leaves before
   the header, so nothing is written (None).
   */
  method CreateJsonDataFileRepresentation(db: Store, id: int, user: Option<UserInfo>, study: Option<StudyInfo>)
    returns (doc: Option<seq<Token>>)
    ensures user.None? || study.None? ==> doc == None
    ensures user.Some? && study.Some? ==> doc.Some?
    ensures user.Some? && study.Some? && id in db.queryIds ==>
              doc == Some(Document(user.value, study.value, db.descriptor(id), Entries(DataRows(db, id))))
    ensures user.Some? && study.Some? && id !in db.queryIds && id in db.rawIds ==>
              doc == Some(Document(user.value, study.value, db.descriptor(id), Entries(Flatten(db.raw(id)))))
    ensures user.Some? && study.Some? && id !in db.queryIds && id !in db.rawIds ==>
              doc == Some(Document(user.value, study.value, db.descriptor(id), []))
  {
    var ds := db.descriptor(id);
    if user.None? || study.None? {
      return None;
    }
    var body: seq<Token> := [];
    if id in db.queryIds {
      var it := NewIterator(db.data(id), db.dataErrorAt(id), JSON_FILE_BUFFER_SIZE);
      ReachableFresh(db.data(id), db.dataErrorAt(id), JSON_FILE_BUFFER_SIZE);
      var more;
      body, more, it := CreateJsonDataRepresentation(it, false);
    } else if id in db.rawIds {
      body := RawEntries(db.raw(id));
    }
    doc := Some(Header(user.value, study.value, ds) + body + Footer());
  }

  /** The `rawdata` loop: each stored batch's entries, batch after batch. */
  method RawEntries(batches: seq<seq<DataType>>) returns (body: seq<Token>)
    ensures body == Entries(Flatten(batches))
  {
    body := [];
    for i := 0 to |batches|
      invariant body == Entries(Flatten(batches[..i]))
    {
      assert batches[..i + 1] == batches[..i] + [batches[i]];
      FlattenConcat(batches[..i], [batches[i]]);
      EntriesConcat(Flatten(batches[..i]), batches[i]);
      body := body + Entries(batches[i]);
    }
    assert batches[..|batches|] == batches;
  }

  /** What the writer had emitted when an exception, if any, interrupted `generateGzipJSON`. */
  datatype Fault = NoFault | Thrown(written: nat)

  /** `ByteOutputArray`: the compressed bytes and whether the cursor has more. */
  datatype ByteOutputArray = ByteOutputArray(data: seq<int8>, additionalData: bool)

  /**
   The compressor: the bytes the buffer holds after the writer calls, with
   the streams closed (true) or abandoned mid-way by an exception (false).
   */
  type Gzip = (seq<Token>, bool) -> seq<int8>

  /** The writer calls made before the fault. */
  function Written(doc: seq<Token>, fault: Fault): (w: seq<Token>)
    ensures w <= doc
    ensures fault.NoFault? ==> w == doc
  {
    if fault.NoFault? || fault.written >= |doc| then doc else doc[..fault.written]
  }

  /** A compressed chunk and the iterator after it. */
  datatype Generated = Generated(out: ByteOutputArray, rest: Iterator<DataType>)

  /**
   Reference definition of one `generateGzipJSON` with `segmentData` set:
   the document for the next segment, cut short by the fault if any. The
   flag is assigned only once the body loop has returned, and the cursor
   moves only once the header is out.
   */
  function Generate(gzip: Gzip, fault: Fault, ui: UserInfo, si: StudyInfo, ds: Option<DataSource>,
                    it: Iterator<DataType>): (g: Generated)
    requires Valid(it)
    ensures Valid(g.rest) && g.rest.bufferSize == it.bufferSize
    ensures g.rest.cursor.rows == it.cursor.rows && g.rest.cursor.errorAt == it.cursor.errorAt
    ensures g.out.additionalData ==> g.rest == Pulled(it).rest && HasNext(g.rest)
    ensures g.out.additionalData ==> fault.NoFault? || fault.written >= |Header(ui, si, ds)|
    ensures fault.NoFault? ==> g.rest == Pulled(it).rest
  {
    var p := Pulled(it);
    var headerSize := |Header(ui, si, ds)|;
    var doc := Document(ui, si, ds, Entries(p.batch));
    Generated(
      ByteOutputArray(gzip(Written(doc, fault), fault.NoFault?),
                      (fault.NoFault? || fault.written >= headerSize + |p.batch|) && HasNext(p.rest)),
      if fault.Thrown? && fault.written < headerSize then it else p.rest)
  }

  /**
   `generateGzipJSON` with `segmentData` set, as both callers use it: the
   header, one segment and the footer are written in turn, and an exception
   after `written` writer calls abandons the streams there.
   */
  method GenerateGzipJson(gzip: Gzip, fault: Fault, ui: UserInfo, si: StudyInfo, ds: Option<DataSource>,
                          it: Iterator<DataType>)
    returns (out: ByteOutputArray, it': Iterator<DataType>)
    requires Valid(it)
    ensures Generated(out, it') == Generate(gzip, fault, ui, si, ds, it)
  {
    var header := Header(ui, si, ds);
    var full := Document(ui, si, ds, Entries(Pulled(it).batch));
    if fault.Thrown? && fault.written < |header| {
      assert full[..fault.written] == header[..fault.written];
      return ByteOutputArray(gzip(header[..fault.written], false), false), it;
    }
    var body, more, rest := CreateJsonDataRepresentation(it, true);
    it' := rest;
    if fault.Thrown? && fault.written < |header| + |body| {
      assert full[..fault.written] == header + body[..fault.written - |header|];
      return ByteOutputArray(gzip(header + body[..fault.written - |header|], false), false), it';
    }
    var doc := header + body + Footer();
    if fault.Thrown? && fault.written < |doc| {
      return ByteOutputArray(gzip(doc[..fault.written], false), more), it';
    }
    out := ByteOutputArray(gzip(doc, fault.NoFault?), more);
  }

  /**
   Without an exception a chunk is exactly one accepted, self-contained
   document: the metadata as supplied and one pair per record of the segment.
   */
  lemma ChunkIsDocument(ui: UserInfo, si: StudyInfo, ds: Option<DataSource>, it: Iterator<DataType>)
    requires Valid(it)
    ensures var doc := Written(Document(ui, si, ds, Entries(Pulled(it).batch)), NoFault);
      WriterAccepts(doc) &&
      Read(doc) == Some(Package(ui, si, ds, Collect(Pulled(it).batch, Pair)))
  {
    DocumentAccepted(ui, si, ds, Pulled(it).batch);
    ReadDocument(ui, si, ds, Pulled(it).batch);
  }
}
