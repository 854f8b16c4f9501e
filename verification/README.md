# DataExporter core in Dafny

A model of the sequential core of MD2Korg's DataExporter, the tool that reads
sensor streams out of a DataKit SQLite database and writes them as CSV, as
JSON, or as gzip-compressed JSON chunks that it uploads to the Cerebral Cortex
web service. The model covers:

- **Record rendering** (`DataTypeConverter`). The 16 record kinds (a scalar and
  an array of Boolean, Byte, Int, Long, Float, Double, String and JSONObject)
  plus an unrecognised kind are the datatype `Records.DataType`. The CSV row
  body is `Records.ToText`. The JSON payload array is
  `Records.ToJsonAsWritten`, the rendering the code produces; `Records.ToJson`
  is the evidently intended rendering it is compared with.
- **Batched cursor** (`SQLiteIterator`). A forward-only result set is a
  `Batching.Cursor`: its rows, the position at which fetching throws an
  `SQLException` (if any), the fetch position, and a state (open, after last,
  failed). `hasNext` is `Batching.HasNext`. `next` is the loop in
  `Batching.Next`, checked against the reference definition `Batching.Pulled`.
- **Export and publish driver** (`DataExport`). This part covers:
  - the hex encoder for digests (`Hex`);
  - the JSON document as the sequence of `JsonWriter` calls, with a model of
    the writer's nesting checks (`Envelope`);
  - the segmented and whole-stream body loops and `generateGzipJSON`
    (`Serializer`);
  - the CSV line logic (`Csv`);
  - the subject and study lookups and the output file name (`Metadata`);
  - `publishData` and the chunked publish loop (`Publish`).

The model replaces these parts with inputs:

- **Database.** The database is a `Database.Store`: the answers its queries
  give, including where a query throws.
- **External libraries.** Gzip, SHA-1, the HTTP client and the faults that
  interrupt serialisation are fields of `Publish.Net`. Gson's text rendering
  and `Float.toString`/`Double.toString` are fields of `Records.Show`. Gson's
  parsing of metadata records is a `parse` function parameter.

Java's `int`, `long` and `byte` are the subset types `int32`, `int64` and
`int8`. `%02x` of a byte reads it as unsigned (`Hex.Unsigned`).

The batch count follows the code rather than the obvious ceil(N / C): an
error-free stream of N >= 1 rows in batches of C comes out as N / C + 1
batches, and when C divides N the last of them is empty, because
`isAfterLast` only turns true once `rs.next()` has returned false
(`Batching.BatchCount`). For N = 0 the count depends on the JDBC driver; see
"Left out" and "Findings".

## Model

| member | source | states |
|---|---|---|
| Text.LongText | src/main/java/org/md2k/dataexporter/DataTypeConverter.java:35 | `Long.toString` gives a non-empty text of decimal digits, with an optional leading minus; it starts with a digit exactly when the value is non-negative |
| Text.LongTextRoundTrip | src/main/java/org/md2k/dataexporter/DataTypeConverter.java:35 | parsing the decimal rendering gives the value back |
| Text.AfterFirstSpec | src/main/java/org/md2k/dataexporter/DataExport.java:296 | `split(",", 2)` has a second element exactly when the text holds a comma; that element is the suffix after the first comma, and no comma comes before it |
| Text.AfterFirstPlain | src/main/java/org/md2k/dataexporter/DataExport.java:296 | when the part before a separator holds none, the second element is everything after that separator, further separators included |
| Text.JoinFields | src/main/java/org/md2k/dataexporter/DataExport.java:420 | splitting a `String.join` of separator-free parts at the separator gives the parts back |
| Records.AsWrittenAgrees | src/main/java/org/md2k/dataexporter/DataTypeConverter.java:102-179 | `dataTypeToJSON` as written agrees with the intended rendering on every kind except BooleanArray, where it yields the empty array instead of one element per sample |
| Records.BooleanArrayDropped | src/main/java/org/md2k/dataexporter/DataTypeConverter.java:107-112 | as written, a boolean array always yields an empty JSON array, although its row lists every sample; `[true]` shows the loss |
| Records.TextMatchesJson | src/main/java/org/md2k/dataexporter/DataTypeConverter.java:32-179 | for every kind, the values the CSV row lists are the elements of the intended JSON array (`Records.ToJson`, not `dataTypeToJSON` as written) written as text, one for one and in the same order |
| Records.TextMatchesJsonAsWritten | src/main/java/org/md2k/dataexporter/DataTypeConverter.java:32-179 | against `dataTypeToJSON` as written the same holds for every kind but BooleanArray, whose row lists every sample while the JSON array is empty |
| Records.JsonOmitsTimestamp | src/main/java/org/md2k/dataexporter/DataTypeConverter.java:102-179 | neither JSON rendering depends on the timestamp |
| Records.JsonShapes | src/main/java/org/md2k/dataexporter/DataTypeConverter.java:102-179 | as written, each scalar kind (Boolean, Byte, Int, Long, Float, Double, String, JSONObject) gives a one-element array holding its sample; the Byte, Int, Long, Float, Double and String arrays give one element per sample, in order; JSONObjectArray gives one element, the whole embedded array; BooleanArray and an unknown kind give `[]` |
| Records.TextStartsWithTimestamp | src/main/java/org/md2k/dataexporter/DataTypeConverter.java:33-99 | every recognised kind's row starts with the decimal timestamp; an unknown kind's row is empty |
| Records.ScalarText | src/main/java/org/md2k/dataexporter/DataTypeConverter.java:34-90 | a scalar's row is the timestamp, `", "`, and the text of its one sample |
| Records.ArrayText | src/main/java/org/md2k/dataexporter/DataTypeConverter.java:37-95 | when no value text holds a comma: an element array's row has one value text per sample; split at commas, it gives the timestamp and then `" " + e` for each element in order; an empty array's row is the timestamp alone |
| Records.RowRoundTrip | src/main/java/org/md2k/dataexporter/DataTypeConverter.java:32-100 | when no value text holds a comma, parsing a recognised kind's row recovers its timestamp and its value texts |
| Records.IntegerRowRoundTrip | src/main/java/org/md2k/dataexporter/DataTypeConverter.java:48-87 | the row of a Byte, Int or Long kind, scalar or array, is lossless: parsing it gives back the timestamp and every sample in order |
| Batching.ReachableFresh | src/main/java/org/md2k/dataexporter/SQLiteIterator.java:41-48 | a new iterator can deliver exactly the rows before the end of the result set or its first exception |
| Batching.Next | src/main/java/org/md2k/dataexporter/SQLiteIterator.java:62-75 | the `next()` loop returns exactly the batch and cursor of the reference pull |
| Batching.PulledShape | src/main/java/org/md2k/dataexporter/SQLiteIterator.java:65-68 | a pull returns at most `bufferSize` rows: the next ones, in cursor order, from the same result set. A full batch fetches no row beyond what it returns. After a short batch, `hasNext()` is false. A failed cursor stops at the row that threw |
| Batching.Progress | src/main/java/org/md2k/dataexporter/SQLiteIterator.java:65 | with `bufferSize >= 1`, a pull from a live iterator lowers the termination measure: it consumes a row or reaches the end |
| Batching.DrainComplete | src/main/java/org/md2k/dataexporter/SQLiteIterator.java:51-75 | the batches returned while `hasNext()` holds, concatenated, are exactly the reachable rows: none lost, duplicated or reordered |
| Batching.DrainShape | src/main/java/org/md2k/dataexporter/SQLiteIterator.java:54-65 | every batch but the last is full and the last is short; the row count is (batches - 1) × `bufferSize` plus the last batch's size |
| Batching.BatchCount | src/main/java/org/md2k/dataexporter/SQLiteIterator.java:54-65 | an error-free stream of N rows gives N / C + 1 batches, the last holding N % C rows (an empty one when C divides N), and they concatenate to the stream |
| Batching.QueryFailureKeepsPrefix | src/main/java/org/md2k/dataexporter/SQLiteIterator.java:63-74 | when fetching throws at row e, the batches deliver exactly the rows before e, in order |
| Batching.ThreeBatches | src/main/java/org/md2k/dataexporter/SQLiteIterator.java:65 | 2,500 rows in batches of 1,000 come out as 1,000, 1,000 and 500 |
| Batching.EmptyStreamNeverEnds | src/main/java/org/md2k/dataexporter/SQLiteIterator.java:51-59 | as written, a pull over an empty result set returns nothing and leaves `hasNext()` true, so a drain loop never ends |
| Batching.EmptyStreamEnds | src/main/java/org/md2k/dataexporter/SQLiteIterator.java:51-75 | with the end reported, an empty stream gives one empty batch and then `hasNext()` is false |
| Envelope.RunHeader | src/main/java/org/md2k/dataexporter/DataExport.java:190-205 | a fresh writer accepts the header's nine calls (each metadata value after its name) and is left inside the empty `data` array of the open top-level object |
| Envelope.HeaderPrefixDepth | src/main/java/org/md2k/dataexporter/DataExport.java:190-205 | inside the header the nesting depth is 1 after `beginObject` and 2 once the `data` array is open |
| Envelope.RunFooter | src/main/java/org/md2k/dataexporter/DataExport.java:166-169 | from inside the `data` array, empty or not, the two footer calls close the array and the object and complete the top-level value |
| Envelope.Entries | src/main/java/org/md2k/dataexporter/DataExport.java:177-181 | the body holds one entry per record, in batch order, each pairing `getDateTime()` with `dataTypeToJSON` as written (empty for a boolean array) |
| Envelope.ReadDocument | src/main/java/org/md2k/dataexporter/DataExport.java:166-205 | a reader of header, body and footer recovers the metadata as supplied and one `[timestamp, payload]` pair per record, in order, the payload being `dataTypeToJSON` as written |
| Envelope.DocumentNesting | src/main/java/org/md2k/dataexporter/DataExport.java:166-205 | brackets balance and no prefix closes more than it opened; every body entry lies inside the `data` array of the top-level object (depth 2) |
| Envelope.DocumentAccepted | src/main/java/org/md2k/dataexporter/DataExport.java:166-205 | Gson's writer accepts the exported document for every record list and ends with one complete top-level value |
| Hex.Unsigned | src/main/java/org/md2k/dataexporter/DataExport.java:99 | `%x` reads a byte as unsigned: the one value in 0..255 congruent to the byte modulo 256 |
| Hex.ByteText | src/main/java/org/md2k/dataexporter/DataExport.java:99 | `%02x` gives exactly two hex digits which, read as a base-16 numeral high digit first, denote the unsigned byte |
| Hex.Encode | src/main/java/org/md2k/dataexporter/DataExport.java:96-102 | the digest's text is exactly twice as long as the digest |
| Hex.EncodeLayout | src/main/java/org/md2k/dataexporter/DataExport.java:96-102 | byte i is rendered at positions 2i and 2i + 1, and every character is a lower-case hex digit |
| Hex.DecodeEncode | src/main/java/org/md2k/dataexporter/DataExport.java:96-102 | decoding the hex text gives the digest back |
| Hex.EncodeDecode | src/main/java/org/md2k/dataexporter/DataExport.java:96-102 | every text of lower-case hex digit pairs is the encoding of what it decodes to |
| Hex.EncodeInjective | src/main/java/org/md2k/dataexporter/DataExport.java:96-102 | distinct digests give distinct texts |
| Serializer.CreateJsonDataRepresentation | src/main/java/org/md2k/dataexporter/DataExport.java:171-188 | in segment mode, at most one batch: its entries, and the cursor after it. In full mode, the entries of every reachable row, and the cursor ends done. The result is `hasNext()` afterwards |
| Serializer.CreateJsonDataFileRepresentation | src/main/java/org/md2k/dataexporter/DataExport.java:139-153 | nothing is written when `getUserInfo` or `getStudyInfo` throws; otherwise the document holds the header, then the `data` rows' entries when the id has rows there, else the `rawdata` batches' entries when it has those, else nothing, then the footer |
| Serializer.RawEntries | src/main/java/org/md2k/dataexporter/DataExport.java:148-150 | the `rawdata` body is the entries of every batch, batch after batch |
| Serializer.Generate | src/main/java/org/md2k/dataexporter/DataExport.java:214-233 | a set flag means the cursor moved by one segment and has more, with the header written whole. Without an exception, the cursor moves by exactly one pull |
| Serializer.GenerateGzipJson | src/main/java/org/md2k/dataexporter/DataExport.java:214-233 | header, segment and footer are written in turn; an exception after k writer calls leaves the bytes of the first k calls, and the flag stays false unless the body loop returned |
| Serializer.ChunkIsDocument | src/main/java/org/md2k/dataexporter/DataExport.java:214-233 | without an exception, a chunk is one writer-accepted, self-contained document of the segment's records |
| Metadata.LastStreamId | src/main/java/org/md2k/dataexporter/DataExport.java:281-286 | the id loop keeps the last id fetched, and -1 when there is none |
| Metadata.FirstStop | src/main/java/org/md2k/dataexporter/DataExport.java:293-304 | the loop passes over exactly the leading records that parse to an empty key |
| Metadata.SearchFinds | src/main/java/org/md2k/dataexporter/DataExport.java:293-306 | the lookup falls through to the default exactly when every record parses with an empty key; a found record has a non-empty key and is one of the parsed records; a crash comes from a record that failed to parse |
| Metadata.SearchConcat | src/main/java/org/md2k/dataexporter/DataExport.java:293-304 | the first batch decides the lookup unless it passes every record, in which case the rest decides |
| Metadata.ScanBatch | src/main/java/org/md2k/dataexporter/DataExport.java:295-303 | the loop over one batch either passes every record or ends as the search of that batch does |
| Metadata.Scan | src/main/java/org/md2k/dataexporter/DataExport.java:293-304 | the batch-by-batch scan ends as the search over all reachable records |
| Metadata.GetInfo | src/main/java/org/md2k/dataexporter/DataExport.java:278-307 | the default when the last id is negative or there is none; otherwise the search of that stream's records, with None where the source throws |
| Metadata.GetUserInfo | src/main/java/org/md2k/dataexporter/DataExport.java:278-307 | the first subject record with a non-empty `uuid` from the last USER_INFO stream, else the default |
| Metadata.GetStudyInfo | src/main/java/org/md2k/dataexporter/DataExport.java:314-341 | the first study record with a non-empty `id` from the last STUDY_INFO stream, else the default |
| Metadata.ObjectRecordPayload | src/main/java/org/md2k/dataexporter/DataExport.java:296-298 | for a JSONObject record, the text Gson parses is one space and then the object's JSON |
| Metadata.EmptyRecordCrashes | src/main/java/org/md2k/dataexporter/DataExport.java:296-298 | a record without values has no comma in its row, so reaching it makes the lookup throw |
| Metadata.Parameters | src/main/java/org/md2k/dataexporter/DataExport.java:409-417 | each `datasources` row contributes nine columns, the decimal `ds_id` first |
| Metadata.AllParameters | src/main/java/org/md2k/dataexporter/DataExport.java:408-419 | the parameter list holds nine columns per row |
| Metadata.GetOutputFilename | src/main/java/org/md2k/dataexporter/DataExport.java:403-425 | the name is every matching row's columns joined by `_`, and empty when the query throws |
| Metadata.FilenameFields | src/main/java/org/md2k/dataexporter/DataExport.java:420 | split at `_`, the name gives back nine columns per row (`null` for a missing one), as long as no column holds `_` |
| Csv.BatchLines | src/main/java/org/md2k/dataexporter/DataExport.java:251-253 | one line per record of the batch, in order |
| Csv.WriteLines | src/main/java/org/md2k/dataexporter/DataExport.java:248-254 | the drain loop writes one line per reachable record, in cursor order |
| Csv.WriteBatches | src/main/java/org/md2k/dataexporter/DataExport.java:258-264 | the `rawdata` loop writes one line per record of every batch, in order |
| Csv.WriteCsvDataFile | src/main/java/org/md2k/dataexporter/DataExport.java:241-271 | the file is `<name>.csv`. It holds `dataTypeToString(dt) + "\n"` for each `data` row when the id has any, else for each `rawdata` record when it has those, else nothing |
| Csv.CsvFileRows | src/main/java/org/md2k/dataexporter/DataExport.java:252 | split at newlines, the file gives each record's row text in order, then the empty text after the final newline |
| Publish.PublishData | src/main/java/org/md2k/dataexporter/DataExport.java:492-523 | false without sending when SHA-1 is unavailable; otherwise the request carries the URL and the data; delivered (true) exactly when the client returns a response, whatever its status |
| Publish.HashCoversFile | src/main/java/org/md2k/dataexporter/DataExport.java:495-509 | the `hash` part is the hex SHA-1 of exactly the bytes in the `file` part |
| Publish.Round | src/main/java/org/md2k/dataexporter/DataExport.java:473-479 | one round builds the next chunk and uploads it. A set flag means the header was written whole and the cursor moved on. Without an exception, the chunk is the clean document of the next batch, and the flag is set exactly when more batches follow |
| Publish.PublishGzipJsonData | src/main/java/org/md2k/dataexporter/DataExport.java:462-482 | one upload per chunk. Every attempt before the last was delivered and reported more data. The result is true exactly when the last upload was delivered, and then the last chunk reported no more. Without exceptions, chunk k is the document of batch k, and with every upload answered all batches go out |
| Publish.PublishChunkCount | src/main/java/org/md2k/dataexporter/DataExport.java:467-480 | an error-free stream of N rows is cut into N / 1000000 + 1 chunks, which concatenate to the stream |

## Left out

- `Main.java`: command-line parsing and the loop over stream ids, which is plumbing around the core.
- `DataType.fromBytes` and Kryo's descriptor decoding: the codec is not part of this model. The store hands out decoded records and descriptors. Skipping a record whose type tag the codec does not know belongs to that codec, so it is not modelled.
- `SQLiteRAWIterator` is not part of this model. Its output is an abstract list of batches in the store (`Database.Store.raw`).
- `publishTimeSeriesDataStream` and `writeJSONDataFile`: the first feeds a record-level iterator where a batch-level one is expected; the second only adds file I/O around `createJSONDataFileRepresentation`.
- `getQueryIDs`, `getRAWIDs` and `getDataSource`: their results are fields of the store.
- Gzip, SHA-1 and the HTTP client: they are oracles in `Publish.Net`. A chunk's bytes are the compressor's answer for the writer calls made.
- Gson: the text of JSON values, the pretty-printing whitespace and `fromJson` are oracle functions. A `fromJson` that throws or yields a null key is a `None` parse.
- `Float.toString` and `Double.toString`: floats are kept by their IEEE bits, and their text is an oracle.
- Console logging, `printStackTrace`, file creation and writer I/O exceptions.
- A query failure inside the `SQLiteIterator` constructor, which leaves `rs` null so that `hasNext` throws a `NullPointerException`, is not modelled. A failing fetch is modelled by `Cursor.errorAt`.
- Batching.Pulled: takes `isAfterLast` to turn true once the rows run out, also on a result set without rows. JDBC lets a driver keep it false there, and then a drain over an empty stream never ends (`Batching.EmptyStreamNeverEnds`), so `Batching.BatchCount` and the drain lemmas cover N = 0 only under this assumption.
- Batching.HasNext: a failed cursor is taken to throw from `isAfterLast` too, which the catch turns into false.
- Serializer.GenerateGzipJson: modelled only with `segmentData` set, the one way both callers use it. An exception is taken to strike between writer calls, so an entry is written whole or not at all.
- Publish.PublishGzipJsonData: takes the descriptor, subject and study records as parameters instead of calling `getDataSource`, `getUserInfo` and `getStudyInfo`, which are modelled on their own.
- Publish.PublishData: the multipart encoding (`BROWSER_COMPATIBLE` mode, content types) is not modelled; only the URL and the two parts are.
- Csv.CsvFileRows: holds only when no row text contains a newline, since a String sample with a newline splits its record across lines.
- Records.ArrayText: its comma split holds only when no value text contains a comma; String, float and JSON texts can contain one.
- Records.RowRoundTrip: holds only when no value text contains a comma. String, float and JSON texts can contain one, and then the row cannot be split back.

## Findings

| source | as written | input that shows it | evidently intended | confidence | as-written member | corrected member |
|---|---|---|---|---|---|---|
| src/main/java/org/md2k/dataexporter/DataTypeConverter.java:112 | `da.add(da)` adds the element array to itself and never to `temp` | `BooleanArray(t, [true])` gives `[]`, while its CSV row lists `true` | `temp.addAll(da)`, as in every other array kind | high, not executed | Records.BooleanArrayDropped | Records.TextMatchesJson |
| src/main/java/org/md2k/dataexporter/SQLiteIterator.java:54 | `hasNext` is `!rs.isAfterLast()`, which JDBC defines as false on a result set without rows | a stream with no rows: every `next()` returns `[]`, and `hasNext()` stays true | `hasNext()` false once the rows run out, empty or not | medium (depends on the driver), not executed | Batching.EmptyStreamNeverEnds | Batching.EmptyStreamEnds |
