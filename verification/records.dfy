/**
 The sensor record kinds and their two renderings: the CSV row body
 (`dataTypeToString`) and the JSON array of the payload (`dataTypeToJSON`).
 */
module Records {
  import opened Wrappers
  import opened JavaTypes
  import Text

  /** A JSON value as Gson's tree model holds it. */
  datatype Json =
    | JNull
    | JBool(b: bool)
    | JInt(i: int)           // a boxed Byte, Integer or Long
    | JFloat(f: bv32)        // a Float, by its IEEE bits
    | JDouble(d: bv64)       // a Double, by its IEEE bits
    | JString(s: string)
    | JArray(elements: seq<Json>)
    | JObject(members: seq<(string, Json)>)

  /**
   The renderings that belong to the Java and Gson libraries rather than to
   the exporter: `Float.toString`, `Double.toString` and Gson's
   `JsonElement.toString`.
   */
  datatype Show = Show(floatText: bv32 -> string, doubleText: bv64 -> string, jsonText: Json -> string)

  /**
   A decoded record: the 8 scalar kinds, their 8 array kinds, and `Unknown`,
   a `DataType` subclass the converter does not recognise. Every record
   carries its timestamp in epoch milliseconds.
   */
  datatype DataType =
    | Boolean(dateTime: int64, boolSample: bool)
    | BooleanArray(dateTime: int64, boolSamples: seq<bool>)
    | Byte(dateTime: int64, byteSample: int8)
    | ByteArray(dateTime: int64, byteSamples: seq<int8>)
    | Int(dateTime: int64, intSample: int32)
    | IntArray(dateTime: int64, intSamples: seq<int32>)
    | Long(dateTime: int64, longSample: int64)
    | LongArray(dateTime: int64, longSamples: seq<int64>)
    | Float(dateTime: int64, floatSample: bv32)
    | FloatArray(dateTime: int64, floatSamples: seq<bv32>)
    | Double(dateTime: int64, doubleSample: bv64)
    | DoubleArray(dateTime: int64, doubleSamples: seq<bv64>)
    | String(dateTime: int64, stringSample: string)
    | StringArray(dateTime: int64, stringSamples: seq<string>)
    | JSONObject(dateTime: int64, objectSample: seq<(string, Json)>)
    | JSONObjectArray(dateTime: int64, arraySample: seq<Json>)
    | Unknown(dateTime: int64)

  predicate IsScalar(r: DataType) {
    r.Boolean? || r.Byte? || r.Int? || r.Long? || r.Float? || r.Double? || r.String? || r.JSONObject?
  }

  /** The array kinds whose elements are visited one by one (all but JSONObjectArray). */
  predicate IsElementArray(r: DataType) {
    r.BooleanArray? || r.ByteArray? || r.IntArray? || r.LongArray? || r.FloatArray? || r.DoubleArray? || r.StringArray?
  }

  /** The number of samples an element array holds. */
  function SampleCount(r: DataType): nat
    requires IsElementArray(r)
  {
    match r
    case BooleanArray(_, xs) => |xs|
    case ByteArray(_, xs) => |xs|
    case IntArray(_, xs) => |xs|
    case LongArray(_, xs) => |xs|
    case FloatArray(_, xs) => |xs|
    case DoubleArray(_, xs) => |xs|
    case StringArray(_, xs) => |xs|
  }

  /** A `for` loop over the elements, in order, adding `f(e)` to the end of a list. */
  function Collect<X, Y>(xs: seq<X>, f: X -> Y): (ys: seq<Y>)
    ensures |ys| == |xs|
    ensures forall i :: 0 <= i < |xs| ==> ys[i] == f(xs[i])
    decreases |xs|
  {
    if |xs| == 0 then [] else Collect(xs[..|xs| - 1], f) + [f(xs[|xs| - 1])]
  }

  lemma CollectConcat<X, Y>(a: seq<X>, b: seq<X>, f: X -> Y)
    ensures Collect(a + b, f) == Collect(a, f) + Collect(b, f)
  {
  }

  function BoolText(b: bool): string {
    if b then "true" else "false"
  }

  function ByteDecimal(x: int8): string { Text.LongText(x) }
  function IntDecimal(x: int32): string { Text.LongText(x) }
  function LongDecimal(x: int64): string { Text.LongText(x) }

  /**
   The text of each value the CSV row lists after the timestamp: one per
   scalar, one per element of an element array, and the whole embedded
   array's text for JSONObjectArray.
   */
  function ValueTexts(show: Show, r: DataType): seq<string> {
    match r
    case Boolean(_, x) => [BoolText(x)]
    case BooleanArray(_, xs) => Collect(xs, BoolText)
    case Byte(_, x) => [Text.LongText(x)]
    case ByteArray(_, xs) => Collect(xs, ByteDecimal)
    case Int(_, x) => [Text.LongText(x)]
    case IntArray(_, xs) => Collect(xs, IntDecimal)
    case Long(_, x) => [Text.LongText(x)]
    case LongArray(_, xs) => Collect(xs, LongDecimal)
    case Float(_, x) => [show.floatText(x)]
    case FloatArray(_, xs) => Collect(xs, show.floatText)
    case Double(_, x) => [show.doubleText(x)]
    case DoubleArray(_, xs) => Collect(xs, show.doubleText)
    case String(_, x) => [x]
    case StringArray(_, xs) => xs
    case JSONObject(_, m) => [show.jsonText(JObject(m))]
    case JSONObjectArray(_, a) => [show.jsonText(JArray(a))]
    case Unknown(_) => []
  }

  /** A value text as it follows a comma in the row. */
  function Spaced(v: string): string { " " + v }

  /** The source's `temp += ", " + v`, once per value text, in order. */
  function Appended(vals: seq<string>): string
    decreases |vals|
  {
    if |vals| == 0 then "" else Appended(vals[..|vals| - 1]) + ", " + vals[|vals| - 1]
  }

  /** `dataTypeToString`: the CSV row body of a record, without the newline. */
  function ToText(show: Show, r: DataType): string {
    if r.Unknown? then "" else Text.LongText(r.dateTime) + Appended(ValueTexts(show, r))
  }

  function BoolJson(x: bool): Json { JBool(x) }
  function ByteJson(x: int8): Json { JInt(x) }
  function IntJson(x: int32): Json { JInt(x) }
  function LongJson(x: int64): Json { JInt(x) }
  function FloatJson(x: bv32): Json { JFloat(x) }
  function DoubleJson(x: bv64): Json { JDouble(x) }
  function StringJson(x: string): Json { JString(x) }

  /**
   `dataTypeToJSON` as evidently intended: the JSON array built for a
   record's payload, every array kind's elements added in order.
   */
  function ToJson(r: DataType): seq<Json>
  {
    match r
    case Boolean(_, x) => [JBool(x)]
    case BooleanArray(_, xs) => Collect(xs, BoolJson)
    case Byte(_, x) => [JInt(x)]
    case ByteArray(_, xs) => Collect(xs, ByteJson)
    case Int(_, x) => [JInt(x)]
    case IntArray(_, xs) => Collect(xs, IntJson)
    case Long(_, x) => [JInt(x)]
    case LongArray(_, xs) => Collect(xs, LongJson)
    case Float(_, x) => [JFloat(x)]
    case FloatArray(_, xs) => Collect(xs, FloatJson)
    case Double(_, x) => [JDouble(x)]
    case DoubleArray(_, xs) => Collect(xs, DoubleJson)
    case String(_, x) => [JString(x)]
    case StringArray(_, xs) => Collect(xs, StringJson)
    case JSONObject(_, m) => [JObject(m)]
    // `add`, not `addAll`: the embedded array becomes a single element.
    case JSONObjectArray(_, a) => [JArray(a)]
    case Unknown(_) => []
  }

  /**
   `dataTypeToJSON` as written: the same cases, except that a boolean
   array's elements go into a local array that is then added to itself, so
   the array returned stays empty.
   */
  function ToJsonAsWritten(r: DataType): seq<Json>
  {
    match r
    case Boolean(_, x) => [JBool(x)]
    case BooleanArray(_, _) => []
    case Byte(_, x) => [JInt(x)]
    case ByteArray(_, xs) => Collect(xs, ByteJson)
    case Int(_, x) => [JInt(x)]
    case IntArray(_, xs) => Collect(xs, IntJson)
    case Long(_, x) => [JInt(x)]
    case LongArray(_, xs) => Collect(xs, LongJson)
    case Float(_, x) => [JFloat(x)]
    case FloatArray(_, xs) => Collect(xs, FloatJson)
    case Double(_, x) => [JDouble(x)]
    case DoubleArray(_, xs) => Collect(xs, DoubleJson)
    case String(_, x) => [JString(x)]
    case StringArray(_, xs) => Collect(xs, StringJson)
    case JSONObject(_, m) => [JObject(m)]
    case JSONObjectArray(_, a) => [JArray(a)]
    case Unknown(_) => []
  }

  /** The rendering as written and as intended differ only on boolean arrays. */
  lemma AsWrittenAgrees(r: DataType)
    ensures !r.BooleanArray? ==> ToJsonAsWritten(r) == ToJson(r)
    ensures r.BooleanArray? ==> ToJsonAsWritten(r) == [] && |ToJson(r)| == |r.boolSamples|
  {
  }

  /**
   The samples of a boolean array reach the CSV row but not the JSON as
   written, whatever they are; a single `true` sample is listed in the row
   and missing from the array.
   */
  lemma BooleanArrayDropped(show: Show, t: int64, xs: seq<bool>)
    ensures ToJsonAsWritten(BooleanArray(t, xs)) == []
    ensures |ToJson(BooleanArray(t, xs))| == |ValueTexts(show, BooleanArray(t, xs))| == |xs|
    ensures ToJson(BooleanArray(t, [true])) == [JBool(true)]
    ensures ValueTexts(show, BooleanArray(t, [true])) == ["true"]
  {
  }

  /** How the CSV row writes one JSON-representable value. */
  function ElementText(show: Show, j: Json): string {
    match j
    case JBool(b) => BoolText(b)
    case JInt(i) => Text.LongText(i)
    case JFloat(f) => show.floatText(f)
    case JDouble(d) => show.doubleText(d)
    case JString(s) => s
    case _ => show.jsonText(j)
  }

  /**
   The two renderings agree: the values the CSV row lists are exactly the
   JSON array's elements written as text, in the same order.
   */
  lemma TextMatchesJson(show: Show, r: DataType)
    ensures ValueTexts(show, r) == Collect(ToJson(r), (j: Json) => ElementText(show, j))
  {
    if IsScalar(r) {
      ScalarValue(show, r);
    } else if IsElementArray(r) {
      ArrayMatchesJson(show, r);
    }
  }

  /**
   Against `dataTypeToJSON` as written the two renderings agree on every
   kind but the boolean array, whose row lists samples the JSON lacks.
   */
  lemma TextMatchesJsonAsWritten(show: Show, r: DataType)
    ensures !r.BooleanArray? ==> ValueTexts(show, r) == Collect(ToJsonAsWritten(r), (j: Json) => ElementText(show, j))
    ensures r.BooleanArray? ==> |ValueTexts(show, r)| == |r.boolSamples| && ToJsonAsWritten(r) == []
  {
    AsWrittenAgrees(r);
    TextMatchesJson(show, r);
  }

  lemma ArrayMatchesJson(show: Show, r: DataType)
    requires IsElementArray(r)
    ensures ValueTexts(show, r) == Collect(ToJson(r), (j: Json) => ElementText(show, j))
  {
    if r.ByteArray? || r.IntArray? || r.LongArray? {
      IntegerArrayMatchesJson(show, r);
    } else {
      var f := (j: Json) => ElementText(show, j);
      match r
      case BooleanArray(_, xs) => CollectFuse(xs, BoolJson, f, BoolText);
      case FloatArray(_, xs) => CollectFuse(xs, FloatJson, f, show.floatText);
      case DoubleArray(_, xs) => CollectFuse(xs, DoubleJson, f, show.doubleText);
      case StringArray(_, xs) => CollectUndo(xs, StringJson, f);
    }
  }

  lemma IntegerArrayMatchesJson(show: Show, r: DataType)
    requires r.ByteArray? || r.IntArray? || r.LongArray?
    ensures ValueTexts(show, r) == Collect(ToJson(r), (j: Json) => ElementText(show, j))
  {
    var f := (j: Json) => ElementText(show, j);
    match r
    case ByteArray(_, xs) => CollectFuse(xs, ByteJson, f, ByteDecimal);
    case IntArray(_, xs) => CollectFuse(xs, IntJson, f, IntDecimal);
    case LongArray(_, xs) => CollectFuse(xs, LongJson, f, LongDecimal);
  }

  /** Rendering each element and reading it back gives the elements. */
  lemma CollectUndo<X, Y>(xs: seq<X>, g: X -> Y, f: Y -> X)
    requires forall i :: 0 <= i < |xs| ==> f(g(xs[i])) == xs[i]
    ensures Collect(Collect(xs, g), f) == xs
  {
  }

  /** Rendering each element twice over is rendering it once with the composite. */
  lemma CollectFuse<X, Y, Z>(xs: seq<X>, g: X -> Y, f: Y -> Z, h: X -> Z)
    requires forall i :: 0 <= i < |xs| ==> f(g(xs[i])) == h(xs[i])
    ensures Collect(Collect(xs, g), f) == Collect(xs, h)
  {
  }

  /** The JSON rendering never depends on the timestamp. */
  lemma JsonOmitsTimestamp(r: DataType, t: int64)
    ensures ToJsonAsWritten(r.(dateTime := t)) == ToJsonAsWritten(r)
    ensures ToJson(r.(dateTime := t)) == ToJson(r)
  {
  }

  /**
   The kind-specific JSON shapes of `dataTypeToJSON`: a scalar becomes a
   one-element array holding its sample; the embedded array of
   JSONObjectArray is nested rather than flattened; a boolean array and an
   unknown kind become the empty array; every other array kind contributes
   one element per sample, in order.
   */
  lemma JsonShapes(r: DataType)
    ensures r.Boolean? ==> ToJsonAsWritten(r) == [JBool(r.boolSample)]
    ensures r.Byte? ==> ToJsonAsWritten(r) == [JInt(r.byteSample)]
    ensures r.Int? ==> ToJsonAsWritten(r) == [JInt(r.intSample)]
    ensures r.Long? ==> ToJsonAsWritten(r) == [JInt(r.longSample)]
    ensures r.Float? ==> ToJsonAsWritten(r) == [JFloat(r.floatSample)]
    ensures r.Double? ==> ToJsonAsWritten(r) == [JDouble(r.doubleSample)]
    ensures r.String? ==> ToJsonAsWritten(r) == [JString(r.stringSample)]
    ensures r.JSONObject? ==> ToJsonAsWritten(r) == [JObject(r.objectSample)]
    ensures r.JSONObjectArray? ==> ToJsonAsWritten(r) == [JArray(r.arraySample)]
    ensures r.BooleanArray? || r.Unknown? ==> ToJsonAsWritten(r) == []
    ensures IsElementArray(r) && !r.BooleanArray? ==> |ToJsonAsWritten(r)| == SampleCount(r)
    ensures r.ByteArray? ==> forall i :: 0 <= i < |r.byteSamples| ==> ToJsonAsWritten(r)[i] == JInt(r.byteSamples[i])
    ensures r.IntArray? ==> forall i :: 0 <= i < |r.intSamples| ==> ToJsonAsWritten(r)[i] == JInt(r.intSamples[i])
    ensures r.LongArray? ==> forall i :: 0 <= i < |r.longSamples| ==> ToJsonAsWritten(r)[i] == JInt(r.longSamples[i])
    ensures r.FloatArray? ==> forall i :: 0 <= i < |r.floatSamples| ==> ToJsonAsWritten(r)[i] == JFloat(r.floatSamples[i])
    ensures r.DoubleArray? ==> forall i :: 0 <= i < |r.doubleSamples| ==> ToJsonAsWritten(r)[i] == JDouble(r.doubleSamples[i])
    ensures r.StringArray? ==> forall i :: 0 <= i < |r.stringSamples| ==> ToJsonAsWritten(r)[i] == JString(r.stringSamples[i])
  {
  }

  /** Every recognised kind's row starts with the decimal timestamp; an unknown kind's is empty. */
  lemma TextStartsWithTimestamp(show: Show, r: DataType)
    ensures !r.Unknown? ==> Text.LongText(r.dateTime) <= ToText(show, r)
    ensures r.Unknown? ==> ToText(show, r) == ""
  {
  }

  /** A scalar's row is the timestamp, `", "`, and the text of the one JSON element. */
  lemma ScalarText(show: Show, r: DataType)
    requires IsScalar(r)
    ensures ToText(show, r) == Text.LongText(r.dateTime) + ", " + ElementText(show, ToJsonAsWritten(r)[0])
  {
    var vals := ValueTexts(show, r);
    ScalarValue(show, r);
    assert vals[..0] == [];
    assert Appended(vals) == "" + ", " + vals[0];
  }

  lemma ScalarValue(show: Show, r: DataType)
    requires IsScalar(r)
    ensures |ToJsonAsWritten(r)| == 1 && ValueTexts(show, r) == [ElementText(show, ToJsonAsWritten(r)[0])]
  {
    match r
    case Boolean(_, _) =>
    case Byte(_, _) =>
    case Int(_, _) =>
    case Long(_, _) =>
    case Float(_, _) =>
    case Double(_, _) =>
    case String(_, _) =>
    case JSONObject(_, _) =>
  }

  /**
   Splitting a row at commas gives the timestamp and then `" " + v` for
   each value, when no value text holds a comma.
   */
  lemma {:induction false} FieldsOfAppended(head: string, vals: seq<string>)
    requires ',' !in head
    requires forall i :: 0 <= i < |vals| ==> ',' !in vals[i]
    ensures Text.Fields(head + Appended(vals), ',') == [head] + Collect(vals, Spaced)
    decreases |vals|
  {
    if |vals| == 0 {
      Text.FieldsOfPlain(head, ',');
      assert head + Appended(vals) == head;
    } else {
      var init := vals[..|vals| - 1];
      var last := vals[|vals| - 1];
      FieldsOfAppended(head, init);
      assert ',' !in " " + last;
      assert head + Appended(vals) == (head + Appended(init)) + [','] + (" " + last);
      Text.FieldsSnoc(head + Appended(init), ',', " " + last);
    }
  }

  /**
   An element array's row lists one `", " + e` per element, in order: a
   comma split of a row whose element texts hold no comma yields the
   timestamp and exactly one field per element. An empty array's row is
   the timestamp alone.
   */
  lemma ArrayText(show: Show, r: DataType)
    requires IsElementArray(r)
    requires forall i :: 0 <= i < |ValueTexts(show, r)| ==> ',' !in ValueTexts(show, r)[i]
    ensures |ValueTexts(show, r)| == SampleCount(r)
    ensures Text.Fields(ToText(show, r), ',') == [Text.LongText(r.dateTime)] + Collect(ValueTexts(show, r), Spaced)
    ensures |Text.Fields(ToText(show, r), ',')| == SampleCount(r) + 1
    ensures SampleCount(r) == 0 ==> ToText(show, r) == Text.LongText(r.dateTime)
  {
    Text.LongTextPlain(r.dateTime, ',');
    FieldsOfAppended(Text.LongText(r.dateTime), ValueTexts(show, r));
  }

  /** Drops the one space the row puts after each comma. */
  function Unspaced(fields: seq<string>): Option<seq<string>>
    decreases |fields|
  {
    if |fields| == 0 then Some([])
    else if |fields[0]| == 0 || fields[0][0] != ' ' then None
    else match Unspaced(fields[1..])
      case None => None
      case Some(rest) => Some([fields[0][1..]] + rest)
  }

  /** Reads a CSV row body back into its timestamp and value texts. */
  function ParseRow(s: string): Option<(int, seq<string>)> {
    var fields := Text.Fields(s, ',');
    match Text.ParseLong(fields[0])
    case None => None
    case Some(t) =>
      match Unspaced(fields[1..])
      case None => None
      case Some(vals) => Some((t, vals))
  }

  lemma {:induction false} UnspacedSpaced(vals: seq<string>)
    ensures Unspaced(Collect(vals, Spaced)) == Some(vals)
    decreases |vals|
  {
    if |vals| > 0 {
      var spaced := Collect(vals, Spaced);
      UnspacedSpaced(vals[1..]);
      assert spaced[1..] == Collect(vals[1..], Spaced);
      assert spaced[0][1..] == vals[0];
      assert [vals[0]] + vals[1..] == vals;
    }
  }

  /**
   Every recognised row reads back: the parsed timestamp is the record's and
   the parsed values are its value texts, when none of them holds a comma.
   */
  lemma RowRoundTrip(show: Show, r: DataType)
    requires !r.Unknown?
    requires forall i :: 0 <= i < |ValueTexts(show, r)| ==> ',' !in ValueTexts(show, r)[i]
    ensures ParseRow(ToText(show, r)) == Some((r.dateTime as int, ValueTexts(show, r)))
  {
    var head := Text.LongText(r.dateTime);
    Text.LongTextPlain(r.dateTime, ',');
    FieldsOfAppended(head, ValueTexts(show, r));
    Text.LongTextRoundTrip(r.dateTime);
    UnspacedSpaced(ValueTexts(show, r));
  }

  /** Reads every text as a decimal integer. */
  function ParseLongs(texts: seq<string>): Option<seq<int>>
    decreases |texts|
  {
    if |texts| == 0 then Some([])
    else match (Text.ParseLong(texts[0]), ParseLongs(texts[1..]))
      case (Some(x), Some(xs)) => Some([x] + xs)
      case _ => None
  }

  lemma {:induction false} ParseLongsOfTexts(xs: seq<int>)
    ensures ParseLongs(Collect(xs, Text.LongText)) == Some(xs)
    decreases |xs|
  {
    if |xs| > 0 {
      var texts := Collect(xs, Text.LongText);
      Text.LongTextRoundTrip(xs[0]);
      ParseLongsOfTexts(xs[1..]);
      assert texts[1..] == Collect(xs[1..], Text.LongText);
      assert [xs[0]] + xs[1..] == xs;
    }
  }

  function ByteValue(x: int8): int { x }
  function IntValue(x: int32): int { x }
  function LongValue(x: int64): int { x }

  /** The integer samples of the Byte, Int and Long kinds, scalar or array. */
  function IntegerSamples(r: DataType): seq<int>
    requires r.Byte? || r.ByteArray? || r.Int? || r.IntArray? || r.Long? || r.LongArray?
  {
    match r
    case Byte(_, x) => [x]
    case ByteArray(_, xs) => Collect(xs, ByteValue)
    case Int(_, x) => [x]
    case IntArray(_, xs) => Collect(xs, IntValue)
    case Long(_, x) => [x]
    case LongArray(_, xs) => Collect(xs, LongValue)
  }

  /** An integer kind's value texts are the decimal renderings of its samples. */
  lemma IntegerTexts(show: Show, r: DataType)
    requires r.Byte? || r.ByteArray? || r.Int? || r.IntArray? || r.Long? || r.LongArray?
    ensures ValueTexts(show, r) == Collect(IntegerSamples(r), Text.LongText)
  {
    match r
    case Byte(_, x) =>
    case ByteArray(_, xs) => CollectFuse(xs, ByteValue, Text.LongText, ByteDecimal);
    case Int(_, x) =>
    case IntArray(_, xs) => CollectFuse(xs, IntValue, Text.LongText, IntDecimal);
    case Long(_, x) =>
    case LongArray(_, xs) => CollectFuse(xs, LongValue, Text.LongText, LongDecimal);
  }

  /**
   The CSV row of an integer kind is lossless: parsing the row gives back
   the timestamp and every sample, in order.
   */
  lemma IntegerRowRoundTrip(show: Show, r: DataType)
    requires r.Byte? || r.ByteArray? || r.Int? || r.IntArray? || r.Long? || r.LongArray?
    ensures ParseRow(ToText(show, r)).Some?
    ensures ParseRow(ToText(show, r)).value.0 == r.dateTime
    ensures ParseLongs(ParseRow(ToText(show, r)).value.1) == Some(IntegerSamples(r))
  {
    var vals := ValueTexts(show, r);
    var xs := IntegerSamples(r);
    IntegerTexts(show, r);
    forall i | 0 <= i < |vals|
      ensures ',' !in vals[i]
    {
      Text.LongTextPlain(xs[i], ',');
    }
    RowRoundTrip(show, r);
    ParseLongsOfTexts(xs);
  }
}
