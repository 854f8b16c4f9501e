/**
 Publishing to the Cerebral Cortex web service: `publishData` uploads one
 byte array with its SHA-1 hash, `publishGzipJSONData` sends a stream one
 self-contained compressed document at a time until the cursor is done or
 an upload fails.
 */
module Publish {
  import opened Wrappers
  import opened JavaTypes
  import opened Records
  import opened Batching
  import opened Envelope
  import opened Serializer
  import Hex

  const PUBLISH_BUFFER_SIZE := 1000000

  /** The multipart POST: the target URL, the `file` part and the `hash` part. */
  datatype Request = Request(url: string, file: seq<int8>, hash: string)

  /** How one upload ends. */
  datatype Upload =
    | NoDigest                                   // the SHA-1 provider is missing; nothing is sent
    | TransportError(request: Request)           // `client.execute` threw an IOException
    | Delivered(request: Request, status: int)   // a response came back, with this status code

  /**
   The world the publisher talks to: the compressor, the exceptions (if any)
   that interrupt chunk k's serialization, the digest provider, and the
   HTTP client's answer to the k-th request.
   */
  datatype Net = Net(
    gzip: Gzip,
    fault: nat -> Fault,
    digestAvailable: bool,
    sha1: seq<int8> -> seq<int8>,
    execute: (nat, Request) -> Option<int>)

  /**
   `publishData`: false before sending when there is no SHA-1, false when
   the request throws, and true for any response at all, whatever its status.
   */
  function PublishData(net: Net, url: string, data: seq<int8>, attempt: nat): (u: Upload)
    ensures u.NoDigest? <==> !net.digestAvailable
    ensures !u.NoDigest? ==> u.request.url == url && u.request.file == data
    ensures u.Delivered? <==> net.digestAvailable && net.execute(attempt, u.request).Some?
  {
    if !net.digestAvailable then NoDigest
    else
      var request := Request(url, data, Hex.Encode(net.sha1(data)));
      match net.execute(attempt, request)
      case None => TransportError(request)
      case Some(status) => Delivered(request, status)
  }

  /** The `hash` part is the hex digest of exactly the bytes in the `file` part. */
  lemma HashCoversFile(net: Net, url: string, data: seq<int8>, attempt: nat)
    requires !PublishData(net, url, data, attempt).NoDigest?
    ensures var r := PublishData(net, url, data, attempt).request;
      Hex.Decode(r.hash) == Some(net.sha1(r.file)) && |r.hash| == 2 * |net.sha1(r.file)|
  {
    Hex.DecodeEncode(net.sha1(data));
  }

  /** One round of the publish loop: the chunk built and what its upload did. */
  datatype Attempt = Attempt(chunk: ByteOutputArray, upload: Upload)

  ghost predicate NoFaults(net: Net) {
    forall k: nat :: net.fault(k) == NoFault
  }

  /** Every upload gets a response. */
  ghost predicate Reliable(net: Net) {
    net.digestAvailable && forall k: nat, r: Request :: net.execute(k, r).Some?
  }

  /** The chunks the stream is cut into when nothing goes wrong. */
  function Chunks(rows: seq<DataType>, errorAt: Option<nat>): seq<seq<DataType>> {
    Batches(NewIterator(rows, errorAt, PUBLISH_BUFFER_SIZE))
  }

  /** The chunk a fault-free round builds from a segment. */
  function CleanChunk(net: Net, ui: UserInfo, si: StudyInfo, ds: Option<DataSource>, batch: seq<DataType>): seq<int8> {
    net.gzip(Document(ui, si, ds, Entries(batch)), true)
  }

  /**
   One pass of the loop body: build chunk k from the cursor and upload it.
   A set flag means the header went out whole and the cursor moved on by
   one segment; without an exception the chunk holds the next batch still
   to come.
   */
  method Round(net: Net, url: string, ui: UserInfo, si: StudyInfo, ds: Option<DataSource>,
               it: Iterator<DataType>, k: nat)
    returns (a: Attempt, next: Iterator<DataType>)
    requires Valid(it) && it.bufferSize >= 1 && HasNext(it)
    ensures Valid(next) && next.bufferSize == it.bufferSize
    ensures a.upload == PublishData(net, url, a.chunk.data, k)
    ensures a.chunk.additionalData ==> (net.fault(k).NoFault? || net.fault(k).written >= |Header(ui, si, ds)|)
    ensures a.chunk.additionalData ==> HasNext(next) && Remaining(next) < Remaining(it)
    ensures net.fault(k).NoFault? ==> 1 <= |Batches(it)| && a.chunk.data == CleanChunk(net, ui, si, ds, Batches(it)[0])
    ensures net.fault(k).NoFault? ==> (a.chunk.additionalData <==> |Batches(it)| > 1)
    ensures net.fault(k).NoFault? && a.chunk.additionalData ==> Batches(next) == Batches(it)[1..]
  {
    var chunk, rest := GenerateGzipJson(net.gzip, net.fault(k), ui, si, ds, it);
    a := Attempt(chunk, PublishData(net, url, chunk.data, k));
    next := rest;
    Progress(it);
    assert Batches(it) == [Pulled(it).batch] + Batches(Pulled(it).rest);
  }

  /** What the publish loop knows about the attempts so far, whether or not it goes on. */
  lemma Extend(net: Net, url: string, ui: UserInfo, si: StudyInfo, ds: Option<DataSource>,
               chunks: seq<seq<DataType>>, attempts: seq<Attempt>, a: Attempt,
               it: Iterator<DataType>, next: Iterator<DataType>)
    requires Valid(it) && it.bufferSize >= 1 && Valid(next) && next.bufferSize >= 1
    requires forall k :: 0 <= k < |attempts| ==> attempts[k].upload == PublishData(net, url, attempts[k].chunk.data, k)
    requires NoFaults(net) ==> |attempts| + |Batches(it)| == |chunks| && chunks[|attempts|..] == Batches(it)
    requires NoFaults(net) ==> forall k :: 0 <= k < |attempts| ==>
               attempts[k].chunk.data == CleanChunk(net, ui, si, ds, chunks[k])
    requires a.upload == PublishData(net, url, a.chunk.data, |attempts|)
    requires net.fault(|attempts|).NoFault? ==> 1 <= |Batches(it)| && a.chunk.data == CleanChunk(net, ui, si, ds, Batches(it)[0])
    requires net.fault(|attempts|).NoFault? ==> (a.chunk.additionalData <==> |Batches(it)| > 1)
    requires net.fault(|attempts|).NoFault? && a.chunk.additionalData ==> Batches(next) == Batches(it)[1..]
    ensures var attempts' := attempts + [a];
      forall k :: 0 <= k < |attempts'| ==> attempts'[k].upload == PublishData(net, url, attempts'[k].chunk.data, k)
    ensures var attempts' := attempts + [a];
      NoFaults(net) ==> forall k :: 0 <= k < |attempts'| ==>
        attempts'[k].chunk.data == CleanChunk(net, ui, si, ds, chunks[k])
    ensures NoFaults(net) ==> |attempts| < |chunks| && (a.chunk.additionalData <==> |attempts| + 1 < |chunks|)
    ensures NoFaults(net) && a.chunk.additionalData ==>
      |attempts| + 1 + |Batches(next)| == |chunks| && chunks[|attempts| + 1..] == Batches(next)
  {
    var k := |attempts|;
    if NoFaults(net) {
      assert net.fault(k).NoFault?;
      assert chunks[k] == chunks[k..][0];
      assert chunks[k + 1..] == chunks[k..][1..];
    }
  }

  /**
   `publishGzipJSONData`: one attempt per chunk; the first failed upload
   ends the loop with false, and only a delivered chunk that reports no
   more data ends it with true. An exception in the header or the body
   clears the chunk's flag, so it is the last chunk attempted.
   */
  method PublishGzipJsonData(net: Net, url: string, ui: UserInfo, si: StudyInfo, ds: Option<DataSource>,
                             rows: seq<DataType>, errorAt: Option<nat>)
    returns (ok: bool, attempts: seq<Attempt>)
    ensures 1 <= |attempts|
    ensures forall k :: 0 <= k < |attempts| ==> attempts[k].upload == PublishData(net, url, attempts[k].chunk.data, k)
    ensures forall k :: 0 <= k < |attempts| - 1 ==> attempts[k].upload.Delivered? && attempts[k].chunk.additionalData
    ensures forall k :: 0 <= k < |attempts| - 1 ==> net.fault(k).NoFault? || net.fault(k).written >= |Header(ui, si, ds)|
    ensures ok <==> attempts[|attempts| - 1].upload.Delivered?
    ensures ok ==> !attempts[|attempts| - 1].chunk.additionalData
    ensures NoFaults(net) ==> |attempts| <= |Chunks(rows, errorAt)|
    ensures NoFaults(net) ==> forall k :: 0 <= k < |attempts| ==>
              attempts[k].chunk.data == CleanChunk(net, ui, si, ds, Chunks(rows, errorAt)[k])
    ensures NoFaults(net) && ok ==> |attempts| == |Chunks(rows, errorAt)|
    ensures NoFaults(net) && Reliable(net) ==> ok
  {
    var it := NewIterator(rows, errorAt, PUBLISH_BUFFER_SIZE);
    ghost var chunks := Chunks(rows, errorAt);
    attempts := [];
    while true
      invariant Valid(it) && it.bufferSize == PUBLISH_BUFFER_SIZE && HasNext(it)
      invariant forall k :: 0 <= k < |attempts| ==> attempts[k].upload == PublishData(net, url, attempts[k].chunk.data, k)
      invariant forall k :: 0 <= k < |attempts| ==> attempts[k].upload.Delivered? && attempts[k].chunk.additionalData
      invariant forall k :: 0 <= k < |attempts| ==> net.fault(k).NoFault? || net.fault(k).written >= |Header(ui, si, ds)|
      invariant NoFaults(net) ==> |attempts| + |Batches(it)| == |chunks| && chunks[|attempts|..] == Batches(it)
      invariant NoFaults(net) ==> forall k :: 0 <= k < |attempts| ==>
                  attempts[k].chunk.data == CleanChunk(net, ui, si, ds, chunks[k])
      decreases Remaining(it)
    {
      var k := |attempts|;
      var a, next := Round(net, url, ui, si, ds, it, k);
      Extend(net, url, ui, si, ds, chunks, attempts, a, it, next);
      attempts := attempts + [a];
      if !a.upload.Delivered? {
        return false, attempts;
      }
      if !a.chunk.additionalData {
        return true, attempts;
      }
      it := next;
    }
  }

  /** With no exceptions, a stream of N rows goes out in N / 1000000 + 1 chunks when every upload succeeds. */
  lemma PublishChunkCount(rows: seq<DataType>)
    ensures |Chunks(rows, None)| == |rows| / PUBLISH_BUFFER_SIZE + 1
    ensures Flatten(Chunks(rows, None)) == rows
  {
    BatchCount(rows, PUBLISH_BUFFER_SIZE);
  }
}
