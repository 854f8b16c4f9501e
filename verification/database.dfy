/**
 The SQLite database the exporter reads, as the answers its queries give.
 Every SQL round trip the core makes is a field here; what the tables hold
 is not otherwise constrained.
 */
module Database {
  import opened Wrappers
  import opened JavaTypes
  import opened Records
  import opened Envelope
  import Batching

  /** One row of the `datasources` table as `getOutputFilename` reads it; None is SQL NULL. */
  datatype SourceRow = SourceRow(
    dsId: int32,
    datasourceId: Option<string>,
    datasourceType: Option<string>,
    platformId: Option<string>,
    platformType: Option<string>,
    platformappId: Option<string>,
    platformappType: Option<string>,
    applicationId: Option<string>,
    applicationType: Option<string>)

  datatype Store = Store(
    queryIds: seq<int>,                    // `getQueryIDs`: streams with rows in `data`
    rawIds: seq<int>,                      // `getRAWIDs`: streams with rows in `rawdata`
    data: int -> seq<DataType>,            // the decoded `data` rows of a stream, in cursor order
    dataErrorAt: int -> Option<nat>,       // where fetching that stream's rows throws, if anywhere
    raw: int -> seq<seq<DataType>>,        // the batches `SQLiteRAWIterator` yields for a stream
    userInfoIds: seq<int32>,               // `ds_id` of the USER_INFO rows, as fetched before the query ended
    studyInfoIds: seq<int32>,              // `ds_id` of the STUDY_INFO rows, likewise
    sources: int -> seq<SourceRow>,        // the `datasources` rows of a stream id
    sourcesFail: int -> bool,              // whether reading those rows throws an SQLException
    descriptor: int -> Option<DataSource>) // `getDataSource`: the decoded descriptor, None when absent

  /** The records a fresh `SQLiteIterator` over a stream's `data` rows can deliver. */
  function DataRows(db: Store, id: int): seq<DataType> {
    Batching.Readable(db.data(id), db.dataErrorAt(id))
  }
}
