/**
 The metadata lookups of `DataExport`: the subject and study records
 (`getUserInfo`, `getStudyInfo`), which read a stream's records back
 through their CSV text and parse what follows the first comma, and the
 output file name (`getOutputFilename`).
 */
module Metadata {
  import opened Wrappers
  import opened JavaTypes
  import opened Text
  import opened Records
  import opened Batching
  import opened Envelope
  import opened Database

  const SHORT_BUFFER_SIZE := 10

  /** The `ds_id` loop: the last id fetched wins, -1 when there is none. */
  method LastStreamId(ids: seq<int32>) returns (streamId: int)
    ensures |ids| == 0 ==> streamId == -1
    ensures |ids| > 0 ==> streamId == ids[|ids| - 1]
  {
    streamId := -1;
    for i := 0 to |ids|
      invariant i == 0 ==> streamId == -1
      invariant i > 0 ==> streamId == ids[i - 1]
    {
      streamId := ids[i];
    }
  }

  /**
   What Gson reads from the text after the first comma of a record's CSV
   row; None where the source throws (no comma, so `json[1]` is out of
   bounds; malformed JSON; a null result or key field).
   */
  function Parsed<M>(show: Show, parse: string -> Option<M>, r: DataType): Option<M> {
    match AfterFirst(ToText(show, r), ',')
    case None => None
    case Some(rest) => parse(rest)
  }

  /** The loop moves past a record that parses to a value with an empty key. */
  predicate Skips<M>(p: Option<M>, key: M -> string) {
    p.Some? && key(p.value) == ""
  }

  /** The index of the first parse result the loop does not move past, |ps| when there is none. */
  function FirstStop<M>(ps: seq<Option<M>>, key: M -> string): (k: nat)
    ensures k <= |ps|
    ensures forall j :: 0 <= j < k ==> Skips(ps[j], key)
    ensures k < |ps| ==> !Skips(ps[k], key)
    decreases |ps|
  {
    if |ps| == 0 then 0
    else if Skips(ps[0], key) then 1 + FirstStop(ps[1..], key)
    else 0
  }

  /** How a lookup ends: with a record, having seen every record, or in an exception. */
  datatype Lookup<M> = Found(found: M) | NotFound | Crashed

  function Search<M>(ps: seq<Option<M>>, key: M -> string): Lookup<M> {
    var k := FirstStop(ps, key);
    if k == |ps| then NotFound
    else match ps[k]
      case None => Crashed
      case Some(m) => Found(m)
  }

  function Reader<M>(show: Show, parse: string -> Option<M>): DataType -> Option<M> {
    (r: DataType) => Parsed(show, parse, r)
  }

  /** The lookup over a stream's records, each read through its CSV row. */
  function Select<M>(show: Show, parse: string -> Option<M>, key: M -> string, rs: seq<DataType>): Lookup<M> {
    Search(Collect(rs, Reader(show, parse)), key)
  }

  /** The first result that stops the loop decides the lookup. */
  lemma SearchAt<M>(ps: seq<Option<M>>, key: M -> string, k: nat)
    requires k <= |ps|
    requires forall j :: 0 <= j < k ==> Skips(ps[j], key)
    requires k < |ps| ==> !Skips(ps[k], key)
    ensures k == |ps| ==> Search(ps, key) == NotFound
    ensures k < |ps| && ps[k].None? ==> Search(ps, key) == Crashed
    ensures k < |ps| && ps[k].Some? ==> Search(ps, key) == Found(ps[k].value) && key(ps[k].value) != ""
  {
    var f := FirstStop(ps, key);
    if f < k {
      assert false;
    }
    if k < f {
      assert false;
    }
  }

  /**
   The lookup is a search for the first record with a non-empty key: it
   finds a record exactly when one parses before any record fails to, and
   it returns that record.
   */
  lemma SearchFinds<M>(ps: seq<Option<M>>, key: M -> string)
    ensures Search(ps, key).NotFound? <==> forall j :: 0 <= j < |ps| ==> Skips(ps[j], key)
    ensures Search(ps, key).Found? ==> key(Search(ps, key).found) != ""
    ensures Search(ps, key).Found? ==> Some(Search(ps, key).found) in ps
    ensures Search(ps, key).Crashed? ==> None in ps
  {
    var k := FirstStop(ps, key);
    SearchAt(ps, key, k);
  }

  function Outcome<M>(l: Lookup<M>, default: M): Option<M> {
    match l
    case Found(m) => Some(m)
    case NotFound => Some(default)
    case Crashed => None
  }

  /** Searching a concatenation: the first part decides unless every result in it is skipped. */
  lemma SearchConcat<M>(a: seq<Option<M>>, b: seq<Option<M>>, key: M -> string)
    ensures Search(a + b, key) == if Search(a, key).NotFound? then Search(b, key) else Search(a, key)
  {
    var ka := FirstStop(a, key);
    if ka < |a| {
      assert (a + b)[ka] == a[ka];
      SearchAt(a + b, key, ka);
    } else {
      var kb := FirstStop(b, key);
      assert forall j :: |a| <= j < |a| + kb ==> (a + b)[j] == b[j - |a|];
      assert kb < |b| ==> (a + b)[|a| + kb] == b[kb];
      SearchAt(a + b, key, |a| + kb);
      SearchAt(b, key, kb);
    }
  }

  /** The inner loop over one batch: None when every record was skipped, else how the lookup ends. */
  method ScanBatch<R, M>(batch: seq<R>, read: R -> Option<M>, key: M -> string) returns (stop: Option<Lookup<M>>)
    ensures stop.None? <==> Search(Collect(batch, read), key).NotFound?
    ensures stop.Some? ==> stop.value == Search(Collect(batch, read), key)
  {
    ghost var ps := Collect(batch, read);
    for i := 0 to |batch|
      invariant forall j :: 0 <= j < i ==> Skips(ps[j], key)
    {
      var m := read(batch[i]);
      if m.None? || key(m.value) != "" {
        SearchAt(ps, key, i);
        return Some(if m.None? then Crashed else Found(m.value));
      }
    }
    SearchAt(ps, key, |batch|);
    stop := None;
  }

  /**
   The loop of `getUserInfo` and `getStudyInfo`: pull a batch, read its
   records in order, stop at the first with a non-empty key or at the
   first that throws.
   */
  method Scan<R, M>(it: Iterator<R>, read: R -> Option<M>, key: M -> string) returns (l: Lookup<M>)
    requires Valid(it) && it.bufferSize >= 1
    ensures l == Search(Collect(Reachable(it), read), key)
  {
    ghost var goal := Search(Collect(Reachable(it), read), key);
    ghost var it0 := it;
    ghost var consumed: seq<R> := [];
    var cur := it;
    while HasNext(cur)
      invariant Valid(cur) && cur.bufferSize == it.bufferSize
      invariant consumed + Reachable(cur) == Reachable(it)
      invariant Search(Collect(Reachable(cur), read), key) == goal
      decreases Remaining(cur)
    {
      DrainStep(it0, cur, consumed);
      PullSplits(cur);
      var batch, rest := Next(cur);
      CollectConcat(batch, Reachable(rest), read);
      SearchConcat(Collect(batch, read), Collect(Reachable(rest), read), key);
      var stop := ScanBatch(batch, read, key);
      if stop.Some? {
        return stop.value;
      }
      consumed := consumed + batch;
      cur := rest;
    }
    l := NotFound;
  }

  /**
   The shared body of `getUserInfo` and `getStudyInfo`: find the stream id,
   then scan its records ten at a time; the default when the id is
   negative or no record has a non-empty key, None where the source throws.
   */
  method GetInfo<M>(show: Show, parse: string -> Option<M>, key: M -> string, ids: seq<int32>, db: Store, default: M)
    returns (r: Option<M>)
    ensures |ids| == 0 || ids[|ids| - 1] < 0 ==> r == Some(default)
    ensures |ids| > 0 && ids[|ids| - 1] >= 0 ==>
              r == Outcome(Select(show, parse, key, DataRows(db, ids[|ids| - 1])), default)
  {
    var streamId := LastStreamId(ids);
    if streamId < 0 {
      return Some(default);
    }
    var it := NewIterator(db.data(streamId), db.dataErrorAt(streamId), SHORT_BUFFER_SIZE);
    ReachableFresh(db.data(streamId), db.dataErrorAt(streamId), SHORT_BUFFER_SIZE);
    var l := Scan(it, Reader(show, parse), key);
    r := Outcome(l, default);
  }

  /** `getUserInfo`: the first subject record with a non-empty `uuid`. */
  method GetUserInfo(show: Show, parse: string -> Option<UserInfo>, db: Store, default: UserInfo)
    returns (r: Option<UserInfo>)
    ensures var ids := db.userInfoIds;
      (|ids| == 0 || ids[|ids| - 1] < 0 ==> r == Some(default)) &&
      (|ids| > 0 && ids[|ids| - 1] >= 0 ==>
         r == Outcome(Select(show, parse, (u: UserInfo) => u.uuid, DataRows(db, ids[|ids| - 1])), default))
  {
    r := GetInfo(show, parse, (u: UserInfo) => u.uuid, db.userInfoIds, db, default);
  }

  /** `getStudyInfo`: the first study record with a non-empty `id`. */
  method GetStudyInfo(show: Show, parse: string -> Option<StudyInfo>, db: Store, default: StudyInfo)
    returns (r: Option<StudyInfo>)
    ensures var ids := db.studyInfoIds;
      (|ids| == 0 || ids[|ids| - 1] < 0 ==> r == Some(default)) &&
      (|ids| > 0 && ids[|ids| - 1] >= 0 ==>
         r == Outcome(Select(show, parse, (s: StudyInfo) => s.id, DataRows(db, ids[|ids| - 1])), default))
  {
    r := GetInfo(show, parse, (s: StudyInfo) => s.id, db.studyInfoIds, db, default);
  }

  /**
   A metadata record stored as a JSON object: the text after the first
   comma is the object's JSON, behind the one space the row format puts
   after each comma.
   */
  lemma ObjectRecordPayload(show: Show, t: int64, m: seq<(string, Json)>)
    ensures AfterFirst(ToText(show, JSONObject(t, m)), ',') == Some(" " + show.jsonText(JObject(m)))
  {
    var x := show.jsonText(JObject(m));
    assert Appended([x]) == ", " + x by {
      assert [x][..0] == [];
    }
    LongTextPlain(t, ',');
    assert ToText(show, JSONObject(t, m)) == LongText(t) + [','] + (" " + x);
    AfterFirstPlain(LongText(t), ',', " " + x);
  }

  /**
   A record without values (an empty array, or an unrecognised type) has no
   comma in its row, so reaching it makes the lookup throw.
   */
  lemma EmptyRecordCrashes<M>(show: Show, parse: string -> Option<M>, key: M -> string, r: DataType)
    requires ValueTexts(show, r) == []
    ensures Parsed(show, parse, r).None?
    ensures Select(show, parse, key, [r]) == Crashed
  {
    if !r.Unknown? {
      LongTextPlain(r.dateTime, ',');
      assert ToText(show, r) == LongText(r.dateTime);
    }
    AfterFirstSpec(ToText(show, r), ',');
    SearchAt(Collect([r], Reader(show, parse)), key, 0);
  }

  /** A nullable column as `String.join` renders it. */
  function Column(s: Option<string>): string {
    s.GetOr("null")
  }

  /** The nine columns a `datasources` row contributes to the file name, in query order. */
  function Parameters(row: SourceRow): (ps: seq<string>)
    ensures |ps| == 9
    ensures ps[0] == LongText(row.dsId)
  {
    [LongText(row.dsId),
     Column(row.datasourceId), Column(row.datasourceType),
     Column(row.platformId), Column(row.platformType),
     Column(row.platformappId), Column(row.platformappType),
     Column(row.applicationId), Column(row.applicationType)]
  }

  function AllParameters(rows: seq<SourceRow>): (ps: seq<string>)
    ensures |ps| == 9 * |rows|
    decreases |rows|
  {
    if |rows| == 0 then [] else AllParameters(rows[..|rows| - 1]) + Parameters(rows[|rows| - 1])
  }

  /**
   `getOutputFilename`: the columns of every matching row joined by `_`;
   the empty name when the query throws.
   */
  method GetOutputFilename(db: Store, id: int) returns (filename: string)
    ensures db.sourcesFail(id) ==> filename == ""
    ensures !db.sourcesFail(id) ==> filename == Join(AllParameters(db.sources(id)), '_')
  {
    filename := "";
    if db.sourcesFail(id) {
      return;
    }
    var rows := db.sources(id);
    var parameters: seq<string> := [];
    for i := 0 to |rows|
      invariant parameters == AllParameters(rows[..i])
    {
      assert rows[..i + 1][..i] == rows[..i];
      parameters := parameters + Parameters(rows[i]);
    }
    assert rows[..|rows|] == rows;
    filename := Join(parameters, '_');
  }

  /** No column of the row contains the separator. */
  predicate PlainRow(row: SourceRow) {
    forall c :: c in [row.datasourceId, row.datasourceType, row.platformId, row.platformType,
                      row.platformappId, row.platformappType, row.applicationId, row.applicationType]
      ==> c.Some? ==> '_' !in c.value
  }

  lemma {:induction false} PlainParameters(rows: seq<SourceRow>)
    requires forall i :: 0 <= i < |rows| ==> PlainRow(rows[i])
    ensures forall j :: 0 <= j < |AllParameters(rows)| ==> '_' !in AllParameters(rows)[j]
    decreases |rows|
  {
    if |rows| > 0 {
      var init := rows[..|rows| - 1];
      var last := rows[|rows| - 1];
      PlainParameters(init);
      LongTextPlain(last.dsId, '_');
      assert PlainRow(last);
      var ps := Parameters(last);
      assert forall k :: 0 <= k < 9 ==> '_' !in ps[k];
    }
  }

  /**
   The name splits back at `_` into nine columns per matching row, `null`
   for a missing column, as long as no column contains `_` itself.
   */
  lemma {:induction false} FilenameFields(rows: seq<SourceRow>)
    requires 1 <= |rows|
    requires forall i :: 0 <= i < |rows| ==> PlainRow(rows[i])
    ensures Fields(Join(AllParameters(rows), '_'), '_') == AllParameters(rows)
    ensures |Fields(Join(AllParameters(rows), '_'), '_')| == 9 * |rows|
  {
    PlainParameters(rows);
    JoinFields(AllParameters(rows), '_');
  }
}
