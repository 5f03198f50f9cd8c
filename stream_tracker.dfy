/**
 * The per-process table of active streams and the bandwidth counter: a stream
 * is registered when the route starts serving a file, each chunk read adds to
 * its byte count and to the process-wide total, and the end, error and close
 * events remove it (after grace delays that this model replaces by the removal
 * event itself).
 *
 * The JavaScript Map is a map from stream id to record together with the order
 * in which ids were first set, which is the order its entries are listed in.
 */
module StreamTracker {
  import opened Common
  import opened Text
  import opened Numbers

  /** The concurrency figure stream analytics reports alongside the live count. */
  const TotalConcurrentLimit: nat := 250

  datatype StreamInfo = StreamInfo(startTime: int, clientId: string, bytesStreamed: nat, customId: string)

  /** One element of the analytics `streamDetails` list. */
  datatype StreamDetail = StreamDetail(id: string, duration: int, clientId: string)

  datatype StreamAnalytics = StreamAnalytics(activeStreams: nat, streamDetails: seq<StreamDetail>, totalConcurrentLimit: nat)

  /** What happens to a served file after the head is written. */
  datatype StreamEvent = Chunk(length: nat) | End | Failure | Close

  /** The grace delay, in milliseconds, before an event's removal; a chunk removes nothing. */
  function GraceMs(ev: StreamEvent): nat {
    match ev
    case Chunk(_) => 0
    case End => 5000
    case Failure => 1000
    case Close => 2000
  }

  /** `req.ip || 'unknown'`. */
  function ClientId(ip: Option<string>): (r: string)
    ensures TruthyText(ip) ==> r == ip.value
    ensures !TruthyText(ip) ==> r == "unknown"
  {
    if TruthyText(ip) then ip.value else "unknown"
  }

  /** The stream id the route builds: `${customId}-${Date.now()}-${random base-36 text}`. */
  function StreamId(customId: string, now: nat, random: string): string {
    customId + "-" + NatToString(now) + "-" + random
  }

  predicate Distinct(order: seq<string>) {
    forall i, j :: 0 <= i < j < |order| ==> order[i] != order[j]
  }

  /** The ids of order other than id, in order. */
  function RemoveKey(order: seq<string>, id: string): (r: seq<string>)
    ensures forall k :: k in r <==> k in order && k != id
    ensures Distinct(order) ==> Distinct(r)
    ensures id !in order ==> r == order
  {
    if order == [] then []
    else if order[0] == id then RemoveKey(order[1..], id)
    else
      assert Distinct(order) ==> order[0] !in order[1..];
      [order[0]] + RemoveKey(order[1..], id)
  }

  lemma RemoveKeyIdempotent(order: seq<string>, id: string)
    ensures RemoveKey(RemoveKey(order, id), id) == RemoveKey(order, id)
  {
  }

  /** Bytes streamed by the live records, summed in listing order. */
  function SumBytes(order: seq<string>, m: map<string, StreamInfo>): nat {
    if order == [] then 0
    else (if order[0] in m then m[order[0]].bytesStreamed else 0) + SumBytes(order[1..], m)
  }

  /** Maps that agree on the ids listed have the same sum. */
  lemma {:induction false} SumAgree(order: seq<string>, m1: map<string, StreamInfo>, m2: map<string, StreamInfo>)
    requires forall k :: k in order ==> (k in m1 <==> k in m2)
    requires forall k :: k in order && k in m1 ==> m1[k].bytesStreamed == m2[k].bytesStreamed
    ensures SumBytes(order, m1) == SumBytes(order, m2)
  {
    if order != [] {
      SumAgree(order[1..], m1, m2);
    }
  }

  lemma {:induction false} SumAppend(order: seq<string>, id: string, m: map<string, StreamInfo>)
    ensures SumBytes(order + [id], m) == SumBytes(order, m) + (if id in m then m[id].bytesStreamed else 0)
  {
    if order != [] {
      assert (order + [id])[1..] == order[1..] + [id];
      SumAppend(order[1..], id, m);
    }
  }

  /** Changing the record of one listed id changes the sum by the change in its bytes. */
  lemma {:induction false} SumUpdate(order: seq<string>, id: string, m: map<string, StreamInfo>, info: StreamInfo)
    requires Distinct(order) && id in order && id in m
    ensures SumBytes(order, m[id := info]) == SumBytes(order, m) - m[id].bytesStreamed + info.bytesStreamed
  {
    if order[0] == id {
      assert id !in order[1..];
      SumAgree(order[1..], m[id := info], m);
    } else {
      SumUpdate(order[1..], id, m, info);
    }
  }

  /** Removing an id from both the listing and the map takes its bytes out of the sum. */
  lemma {:induction false} SumRemove(order: seq<string>, id: string, m: map<string, StreamInfo>)
    requires Distinct(order)
    ensures SumBytes(RemoveKey(order, id), m - {id})
      == SumBytes(order, m) - (if id in order && id in m then m[id].bytesStreamed else 0)
  {
    if order != [] {
      SumRemove(order[1..], id, m);
      if order[0] == id {
        assert id !in order[1..];
        SumAgree(order[1..], m - {id}, m);
        assert RemoveKey(order[1..], id) == order[1..];
      }
    }
  }

  lemma {:induction false} DistinctCard(order: seq<string>)
    requires Distinct(order)
    ensures |set k | k in order| == |order|
  {
    if order != [] {
      DistinctCard(order[1..]);
      assert (set k | k in order) == (set k | k in order[1..]) + {order[0]};
      assert order[0] !in (set k | k in order[1..]);
    }
  }

  class ActiveStreams {
    /** The records, by stream id. */
    var streams: map<string, StreamInfo>
    /** The ids of the records in the order they were first set. */
    var order: seq<string>
    /** `totalBandwidthUsed`: every chunk counted while its record was live. */
    var totalBandwidthUsed: nat

    ghost predicate Valid()
      reads this
    {
      && Distinct(order)
      && (forall k :: k in order <==> k in streams)
      && SumBytes(order, streams) <= totalBandwidthUsed
    }

    constructor ()
      ensures Valid()
      ensures streams == map[] && order == [] && totalBandwidthUsed == 0
    {
      streams, order, totalBandwidthUsed := map[], [], 0;
    }

    /**
     * `activeStreams.set(id, ...)` once both not-found checks have passed: a
     * record with no bytes streamed yet. Setting an id that is already present
     * replaces its record and keeps its place in the listing.
     */
    method Register(id: string, now: int, ip: Option<string>, customId: string)
      requires Valid()
      modifies this
      ensures Valid()
      ensures streams == old(streams)[id := StreamInfo(now, ClientId(ip), 0, customId)]
      ensures order == if id in old(streams) then old(order) else old(order) + [id]
      ensures totalBandwidthUsed == old(totalBandwidthUsed)
    {
      var info := StreamInfo(now, ClientId(ip), 0, customId);
      if id in streams {
        SumUpdate(order, id, streams, info);
      } else {
        SumAgree(order, streams[id := info], streams);
        SumAppend(order, id, streams[id := info]);
        order := order + [id];
      }
      streams := streams[id := info];
    }

    /**
     * A chunk of length bytes read for stream id: it is added to the record and
     * to the total only while the record is present.
     */
    method OnChunk(id: string, length: nat)
      requires Valid()
      modifies this
      ensures Valid()
      ensures id in old(streams) ==>
        && streams == old(streams)[id := old(streams)[id].(bytesStreamed := old(streams)[id].bytesStreamed + length)]
        && totalBandwidthUsed == old(totalBandwidthUsed) + length
      ensures id !in old(streams) ==> streams == old(streams) && totalBandwidthUsed == old(totalBandwidthUsed)
      ensures order == old(order)
    {
      if id in streams {
        var info := streams[id].(bytesStreamed := streams[id].bytesStreamed + length);
        SumUpdate(order, id, streams, info);
        streams := streams[id := info];
        totalBandwidthUsed := totalBandwidthUsed + length;
      }
    }

    /** `activeStreams.delete(id)`: a no-op when the id is already gone. */
    method Remove(id: string)
      requires Valid()
      modifies this
      ensures Valid()
      ensures streams == old(streams) - {id}
      ensures order == RemoveKey(old(order), id)
      ensures totalBandwidthUsed == old(totalBandwidthUsed)
    {
      SumRemove(order, id, streams);
      streams := streams - {id};
      order := RemoveKey(order, id);
    }

    /** An event of a served stream: a chunk is counted, end, error and close remove the record. */
    method OnEvent(id: string, ev: StreamEvent)
      requires Valid()
      modifies this
      ensures Valid()
      ensures ev.Chunk? && id in old(streams) ==>
        && streams == old(streams)[id := old(streams)[id].(bytesStreamed := old(streams)[id].bytesStreamed + ev.length)]
        && totalBandwidthUsed == old(totalBandwidthUsed) + ev.length
      ensures ev.Chunk? && id !in old(streams) ==> streams == old(streams) && totalBandwidthUsed == old(totalBandwidthUsed)
      ensures !ev.Chunk? ==> streams == old(streams) - {id} && totalBandwidthUsed == old(totalBandwidthUsed)
      ensures totalBandwidthUsed >= old(totalBandwidthUsed)
    {
      match ev
      case Chunk(n) => OnChunk(id, n);
      case End => Remove(id);
      case Failure => Remove(id);
      case Close => Remove(id);
    }

    /** `activeStreams.size` equals the number of entries the Map lists. */
    lemma SizeIsListed()
      requires Valid()
      ensures |streams| == |order|
    {
      DistinctCard(order);
      assert (set k | k in order) == streams.Keys;
    }

    /**
     * The stream-analytics reply at time now: one detail per entry in listing
     * order, its id the stream id up to the first '-', its duration the time
     * since it started; the live count; and the fixed limit.
     */
    function Snapshot(now: int): (r: StreamAnalytics)
      requires Valid()
      reads this
      ensures r.activeStreams == |r.streamDetails| == |order| == |streams|
      ensures r.totalConcurrentLimit == TotalConcurrentLimit
      ensures forall i :: 0 <= i < |order| ==>
        r.streamDetails[i] == StreamDetail(BeforeFirst(order[i], '-'), now - streams[order[i]].startTime, streams[order[i]].clientId)
    {
      SizeIsListed();
      var details := seq(|order|, i requires 0 <= i < |order| && order[i] in streams reads this =>
        StreamDetail(BeforeFirst(order[i], '-'), now - streams[order[i]].startTime, streams[order[i]].clientId));
      StreamAnalytics(|details|, details, TotalConcurrentLimit)
    }
  
    /**
     * Stream analytics with each detail naming the video by the customId kept
     * in the record, which is what the detail id is meant to be.
     */
    function CustomIdSnapshot(now: int): (r: StreamAnalytics)
      requires Valid()
      reads this
      ensures r.activeStreams == |r.streamDetails| == |order| == |streams|
      ensures r.totalConcurrentLimit == TotalConcurrentLimit
      ensures forall i :: 0 <= i < |order| ==>
        r.streamDetails[i] == StreamDetail(streams[order[i]].customId, now - streams[order[i]].startTime, streams[order[i]].clientId)
    {
      SizeIsListed();
      var details := seq(|order|, i requires 0 <= i < |order| && order[i] in streams reads this =>
        StreamDetail(streams[order[i]].customId, now - streams[order[i]].startTime, streams[order[i]].clientId));
      StreamAnalytics(|details|, details, TotalConcurrentLimit)
    }
  }

  /**
   * The detail id of a stream the route started for customId is customId cut
   * at its first '-', so it is the customId exactly when that has no '-'.
   */
  lemma DetailIdOfStreamId(customId: string, now: nat, random: string)
    ensures BeforeFirst(StreamId(customId, now, random), '-') == BeforeFirst(customId, '-')
    ensures BeforeFirst(StreamId(customId, now, random), '-') == customId <==> '-' !in customId
  {
    assert StreamId(customId, now, random) == customId + ['-'] + (NatToString(now) + "-" + random);
    BeforeFirstAppend(customId, '-', NatToString(now) + "-" + random);
  }

  /** A slug such as "my-video" is reported as "my". */
  lemma DashedCustomIdTruncated(now: nat, random: string)
    ensures BeforeFirst(StreamId("my-video", now, random), '-') == "my"
  {
    DetailIdOfStreamId("my-video", now, random);
    assert IndexOf("my-video", '-') == Some(2);
  }

  /** After the route registers a stream, the corrected snapshot names it by the customId it served. */
  lemma CustomIdSnapshotNamesVideo(t: ActiveStreams, i: nat, now: int)
    requires t.Valid() && i < |t.order|
    ensures t.CustomIdSnapshot(now).streamDetails[i].id == t.streams[t.order[i]].customId
  {
  }
}
