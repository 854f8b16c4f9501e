/**
 The JSON document the exporter streams through Gson's `JsonWriter`, as the
 sequence of writer calls it makes: `createJSONHeader`, one TSV entry per
 record, `createJSONFooter`.
 */
module Envelope {
  import opened Wrappers
  import opened Records

  /** The subject record; the exporter looks only at `uuid`, the rest is carried as Gson would write it. */
  datatype UserInfo = UserInfo(uuid: string, details: Json)

  /** The study record; the exporter looks only at `id`. */
  datatype StudyInfo = StudyInfo(id: string, details: Json)

  /** The stream descriptor's own fields; the inherited part is not modelled. */
  datatype DataSource = DataSource(
    platform: Json,
    platformApp: Json,
    application: Json,
    persistent: bool,
    dataDescriptors: seq<map<string, string>>)

  /** One call on the JSON writer. */
  datatype Token =
    | BeginObject
    | EndObject
    | BeginArray
    | EndArray
    | Name(name: string)
    | UserValue(user: UserInfo)
    | StudyValue(study: StudyInfo)
    | SourceValue(source: Option<DataSource>)     // None: the descriptor lookup found no row
    | EntryValue(dateTime: int, sample: seq<Json>) // one TSV entry

  /** `createJSONHeader`: opens the object, writes the metadata, opens the `data` array. */
  function Header(ui: UserInfo, si: StudyInfo, ds: Option<DataSource>): seq<Token> {
    [BeginObject,
     Name("userinfo"), UserValue(ui),
     Name("studyinfo"), StudyValue(si),
     Name("datasource"), SourceValue(ds),
     Name("data"), BeginArray]
  }

  /** `createJSONFooter`: closes the `data` array, then the object. */
  function Footer(): seq<Token> {
    [EndArray, EndObject]
  }

  /** The TSV entry for one record: its timestamp paired with its JSON payload. */
  function Entry(r: DataType): Token {
    EntryValue(r.dateTime, ToJsonAsWritten(r))
  }

  /** The body the for loop over a batch writes, one entry per record, in order. */
  function Entries(rs: seq<DataType>): (toks: seq<Token>)
    ensures |toks| == |rs|
    ensures forall i :: 0 <= i < |rs| ==> toks[i] == EntryValue(rs[i].dateTime, ToJsonAsWritten(rs[i]))
  {
    Collect(rs, Entry)
  }

  lemma EntriesConcat(a: seq<DataType>, b: seq<DataType>)
    ensures Entries(a + b) == Entries(a) + Entries(b)
  {
  }

  function Document(ui: UserInfo, si: StudyInfo, ds: Option<DataSource>, body: seq<Token>): seq<Token> {
    Header(ui, si, ds) + body + Footer()
  }

  /** What a reader of the document recovers. */
  datatype Package = Package(user: UserInfo, study: StudyInfo, source: Option<DataSource>, data: seq<(int, seq<Json>)>)

  function ReadEntries(toks: seq<Token>): Option<seq<(int, seq<Json>)>>
    decreases |toks|
  {
    if |toks| == 0 then Some([])
    else
      var last := toks[|toks| - 1];
      match ReadEntries(toks[..|toks| - 1])
      case None => None
      case Some(init) => if last.EntryValue? then Some(init + [(last.dateTime, last.sample)]) else None
  }

  /** Reads a document of exactly the exporter's shape, rejecting anything else. */
  function Read(toks: seq<Token>): Option<Package> {
    if |toks| < 11 then None
    else if !(toks[0] == BeginObject
              && toks[1] == Name("userinfo") && toks[2].UserValue?
              && toks[3] == Name("studyinfo") && toks[4].StudyValue?
              && toks[5] == Name("datasource") && toks[6].SourceValue?
              && toks[7] == Name("data") && toks[8] == BeginArray
              && toks[|toks| - 2] == EndArray && toks[|toks| - 1] == EndObject) then None
    else
      match ReadEntries(toks[9..|toks| - 2])
      case None => None
      case Some(data) => Some(Package(toks[2].user, toks[4].study, toks[6].source, data))
  }

  function Pair(r: DataType): (int, seq<Json>) {
    (r.dateTime as int, ToJsonAsWritten(r))
  }

  lemma {:induction false} ReadEntriesOf(rs: seq<DataType>)
    ensures ReadEntries(Entries(rs)) == Some(Collect(rs, Pair))
    decreases |rs|
  {
    if |rs| > 0 {
      var init := rs[..|rs| - 1];
      ReadEntriesOf(init);
      assert Entries(rs)[..|rs| - 1] == Entries(init);
    }
  }

  /**
   A reader of an exported document gets back exactly the metadata that was
   supplied and one `[timestamp, payload]` pair per record, in order.
   */
  lemma ReadDocument(ui: UserInfo, si: StudyInfo, ds: Option<DataSource>, rs: seq<DataType>)
    ensures Read(Document(ui, si, ds, Entries(rs))) == Some(Package(ui, si, ds, Collect(rs, Pair)))
    ensures |Read(Document(ui, si, ds, Entries(rs))).value.data| == |rs|
  {
    ReadEntriesOf(rs);
    ReadFramed(ui, si, ds, Entries(rs), Collect(rs, Pair));
  }

  /** The envelope hands its body to the entry reader untouched. */
  lemma ReadFramed(ui: UserInfo, si: StudyInfo, ds: Option<DataSource>, body: seq<Token>,
                   data: seq<(int, seq<Json>)>)
    requires ReadEntries(body) == Some(data)
    ensures Read(Document(ui, si, ds, body)) == Some(Package(ui, si, ds, data))
  {
    var doc := Document(ui, si, ds, body);
    assert doc[9..|doc| - 2] == body;
  }

  function Delta(t: Token): int {
    match t
    case BeginObject => 1
    case BeginArray => 1
    case EndObject => -1
    case EndArray => -1
    case _ => 0
  }

  /** The number of objects and arrays open after the tokens. */
  function Depth(toks: seq<Token>): int
    decreases |toks|
  {
    if |toks| == 0 then 0 else Depth(toks[..|toks| - 1]) + Delta(toks[|toks| - 1])
  }

  lemma {:induction false} DepthConcat(a: seq<Token>, b: seq<Token>)
    ensures Depth(a + b) == Depth(a) + Depth(b)
    decreases |b|
  {
    if |b| == 0 {
      assert a + b == a;
    } else {
      DepthConcat(a, b[..|b| - 1]);
      assert (a + b)[..|a + b| - 1] == a + b[..|b| - 1];
    }
  }

  predicate AllEntries(toks: seq<Token>) {
    forall i :: 0 <= i < |toks| ==> toks[i].EntryValue?
  }

  lemma {:induction false} EntriesDepth(toks: seq<Token>)
    requires AllEntries(toks)
    ensures Depth(toks) == 0
    decreases |toks|
  {
    if |toks| > 0 {
      EntriesDepth(toks[..|toks| - 1]);
    }
  }

  /** Brackets balance: no prefix closes more than it opened, and the whole closes everything. */
  predicate WellNested(toks: seq<Token>) {
    (forall k :: 0 <= k <= |toks| ==> Depth(toks[..k]) >= 0) && Depth(toks) == 0
  }

  /**
   The envelope is balanced whatever the body, and every entry of the body
   sits at depth 2: inside the `data` array, inside the top-level object.
   */
  lemma DocumentNesting(ui: UserInfo, si: StudyInfo, ds: Option<DataSource>, rs: seq<DataType>)
    ensures WellNested(Document(ui, si, ds, Entries(rs)))
    ensures forall k :: 0 <= k < |Document(ui, si, ds, Entries(rs))| && Document(ui, si, ds, Entries(rs))[k].EntryValue? ==>
              9 <= k < 9 + |rs| && Depth(Document(ui, si, ds, Entries(rs))[..k]) == 2
  {
    var doc := Document(ui, si, ds, Entries(rs));
    forall k | 0 <= k <= |doc|
      ensures Depth(doc[..k]) >= 0
      ensures 9 <= k <= 9 + |rs| ==> Depth(doc[..k]) == 2
    {
      PrefixDepth(ui, si, ds, rs, k);
    }
    PrefixDepth(ui, si, ds, rs, |doc|);
    assert doc[..|doc|] == doc;
  }

  /** The depth after each prefix of a document: 1 inside the object, 2 inside `data`. */
  lemma PrefixDepth(ui: UserInfo, si: StudyInfo, ds: Option<DataSource>, rs: seq<DataType>, k: nat)
    requires k <= 11 + |rs|
    ensures Depth(Document(ui, si, ds, Entries(rs))[..k]) ==
              if k == 0 then 0 else if k < 9 then 1 else if k <= 9 + |rs| then 2 else if k == 10 + |rs| then 1 else 0
  {
    var h := Header(ui, si, ds);
    var body := Entries(rs);
    var doc := Document(ui, si, ds, body);
    if k <= 9 {
      assert doc[..k] == h[..k];
      HeaderPrefixDepth(ui, si, ds, k);
    } else {
      HeaderPrefixDepth(ui, si, ds, 9);
      assert h[..9] == h;
      if k <= 9 + |rs| {
        assert doc[..k] == h + body[..k - 9];
        DepthConcat(h, body[..k - 9]);
        EntriesDepth(body[..k - 9]);
      } else {
        var f := Footer()[..k - 9 - |rs|];
        assert doc[..k] == (h + body) + f;
        DepthConcat(h, body);
        EntriesDepth(body);
        DepthConcat(h + body, f);
        FooterPrefixDepth(k - 9 - |rs|);
      }
    }
  }

  lemma FooterPrefixDepth(k: nat)
    requires k <= 2
    ensures Depth(Footer()[..k]) == 0 - k
  {
    if k > 0 {
      FooterPrefixDepth(k - 1);
      assert Footer()[..k][..k - 1] == Footer()[..k - 1];
    }
  }

  lemma HeaderPrefixDepth(ui: UserInfo, si: StudyInfo, ds: Option<DataSource>, k: nat)
    requires k <= 9
    ensures Depth(Header(ui, si, ds)[..k]) == (if k == 0 then 0 else if k < 9 then 1 else 2)
  {
    var h := Header(ui, si, ds);
    if k > 0 {
      HeaderPrefixDepth(ui, si, ds, k - 1);
      assert h[..k][..k - 1] == h[..k - 1];
    }
  }

  /** The scopes Gson's `JsonWriter` keeps on its stack to police what may come next. */
  datatype Scope = EmptyDocument | NonemptyDocument | EmptyObject | DanglingName | NonemptyObject | EmptyArray | NonemptyArray

  /** The writer's scope stack, innermost scope on top. */
  datatype Stack = Bottom | Push(top: Scope, below: Stack)

  /** The stack after a value is admitted, or None where the writer reports a nesting problem. */
  function BeforeValue(st: Stack): Option<Stack> {
    match st
    case Bottom => None
    case Push(top, below) =>
      match top
      case EmptyDocument => Some(Push(NonemptyDocument, below))
      case EmptyArray => Some(Push(NonemptyArray, below))
      case NonemptyArray => Some(st)
      case DanglingName => Some(Push(NonemptyObject, below))
      case _ => None
  }

  predicate InObject(st: Stack) {
    st.Push? && (st.top == EmptyObject || st.top == NonemptyObject)
  }

  predicate InArray(st: Stack) {
    st.Push? && (st.top == EmptyArray || st.top == NonemptyArray)
  }

  /** One writer call: the new stack, or None where the writer throws `IllegalStateException`. */
  function WriterStep(st: Stack, t: Token): Option<Stack> {
    match t
    case Name(_) => if InObject(st) then Some(Push(DanglingName, st.below)) else None
    case BeginObject => (match BeforeValue(st) case None => None case Some(s) => Some(Push(EmptyObject, s)))
    case BeginArray => (match BeforeValue(st) case None => None case Some(s) => Some(Push(EmptyArray, s)))
    case EndObject => if InObject(st) then Some(st.below) else None
    case EndArray => if InArray(st) then Some(st.below) else None
    case _ => BeforeValue(st)
  }

  function Run(st: Stack, toks: seq<Token>): Option<Stack>
    decreases |toks|
  {
    if |toks| == 0 then Some(st)
    else match WriterStep(st, toks[0])
      case None => None
      case Some(next) => Run(next, toks[1..])
  }

  const Fresh: Stack := Push(EmptyDocument, Bottom)
  const Done: Stack := Push(NonemptyDocument, Bottom)

  /** The writer takes every call without throwing and ends with one complete top-level value. */
  predicate WriterAccepts(toks: seq<Token>) {
    Run(Fresh, toks) == Some(Done)
  }

  lemma {:induction false} RunConcat(st: Stack, a: seq<Token>, b: seq<Token>)
    ensures Run(st, a + b) == match Run(st, a) case None => None case Some(s) => Run(s, b)
    decreases |a|
  {
    if |a| == 0 {
      assert a + b == b;
    } else {
      assert (a + b)[0] == a[0];
      assert (a + b)[1..] == a[1..] + b;
      match WriterStep(st, a[0])
      case None =>
      case Some(next) => RunConcat(next, a[1..], b);
    }
  }

  /** Inside an array, entries leave the array non-empty (or as it was, when there are none). */
  lemma {:induction false} RunEntries(top: Scope, below: Stack, toks: seq<Token>)
    requires top == EmptyArray || top == NonemptyArray
    requires AllEntries(toks)
    ensures Run(Push(top, below), toks) == Some(Push(if |toks| == 0 then top else NonemptyArray, below))
    decreases |toks|
  {
    if |toks| > 0 {
      RunEntries(NonemptyArray, below, toks[1..]);
    }
  }

  /** The open object with its `data` array just begun. */
  const InData: Stack := Push(EmptyArray, Push(NonemptyObject, Done))

  /** The first seven header calls: the object is open and the three metadata members are written. */
  lemma RunMetadata(ui: UserInfo, si: StudyInfo, ds: Option<DataSource>)
    ensures Run(Fresh, Header(ui, si, ds)[..7]) == Some(Push(NonemptyObject, Done))
  {
    var h := Header(ui, si, ds)[..7];
    var sn := Push(DanglingName, Done);
    var sv := Push(NonemptyObject, Done);
    assert Run(sv, h[7..]) == Some(sv);
    assert h[6..][1..] == h[7..];
    assert Run(sn, h[6..]) == Some(sv);
    assert h[5..][1..] == h[6..];
    assert Run(sv, h[5..]) == Some(sv);
    assert h[4..][1..] == h[5..];
    assert Run(sn, h[4..]) == Some(sv);
    assert h[3..][1..] == h[4..];
    assert Run(sv, h[3..]) == Some(sv);
    assert h[2..][1..] == h[3..];
    assert Run(sn, h[2..]) == Some(sv);
    assert h[1..][1..] == h[2..];
    assert Run(Push(EmptyObject, Done), h[1..]) == Some(sv);
  }

  lemma RunHeader(ui: UserInfo, si: StudyInfo, ds: Option<DataSource>)
    ensures Run(Fresh, Header(ui, si, ds)) == Some(InData)
  {
    var h := Header(ui, si, ds);
    RunMetadata(ui, si, ds);
    RunConcat(Fresh, h[..7], h[7..]);
    assert h[..7] + h[7..] == h;
    var sv := Push(NonemptyObject, Done);
    assert Run(Push(DanglingName, Done), h[7..][1..]) == Some(InData);
  }

  lemma RunFooter(top: Scope)
    requires top == EmptyArray || top == NonemptyArray
    ensures Run(Push(top, Push(NonemptyObject, Done)), Footer()) == Some(Done)
  {
    var f := Footer();
    assert f[1..][1..] == [];
  }

  /** Gson's writer accepts every document the model emits, whatever the records. */
  lemma DocumentAccepted(ui: UserInfo, si: StudyInfo, ds: Option<DataSource>, rs: seq<DataType>)
    ensures WriterAccepts(Document(ui, si, ds, Entries(rs)))
  {
    var h := Header(ui, si, ds);
    var body := Entries(rs);
    RunHeader(ui, si, ds);
    assert h + body + Footer() == h + (body + Footer());
    RunConcat(Fresh, h, body + Footer());
    RunConcat(InData, body, Footer());
    RunEntries(EmptyArray, Push(NonemptyObject, Done), body);
    RunFooter(if |body| == 0 then EmptyArray else NonemptyArray);
  }
}
