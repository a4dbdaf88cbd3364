/** The inference server's result store: a map from request uuid to either
    a "" placeholder (work in progress) or the finished response, each with
    the time it was written, plus one busy flag gating new submissions.
    The Flask and the Quart servers keep the same store; the Quart one
    takes an asyncio lock where the Flask one takes a thread lock, which a
    sequential model does not distinguish. Time is passed in explicitly. */
module ResultStore {
  import opened Geometry

  /** Entries older than this many seconds are swept (`5 * 60`). */
  const ResultTtl: real := 300.0

  /** The response dictionary the worker stores. */
  datatype Response = Response(scores: seq<real>, boxes: seq<Box>, labels: seq<real>,
                               severity: seq<real>, elapsedTime: real, timestamp: real)

  /** The `result` field: the "" placeholder or a response. */
  datatype Stored = Placeholder | Ready(response: Response)

  datatype Entry = Entry(result: Stored, timestamp: real)

  /** The three answers of `get_result`: None, "" or the response. */
  datatype Lookup = NotFound | Pending | Delivered(response: Response)

  /** What `get_result` answers for `uuid`. */
  function LookupIn(rs: map<string, Entry>, uuid: string): (r: Lookup)
    ensures r.NotFound? <==> uuid !in rs
    ensures r.Pending? <==> uuid in rs && rs[uuid].result.Placeholder?
    ensures r.Delivered? ==> uuid in rs && rs[uuid].result == Ready(r.response)
  {
    if uuid !in rs then NotFound
    else match rs[uuid].result
      case Placeholder => Pending
      case Ready(resp) => Delivered(resp)
  }

  /** The map `get_result` leaves behind: a delivered entry is popped,
      anything else stays. */
  function AfterLookup(rs: map<string, Entry>, uuid: string): (r: map<string, Entry>)
    ensures LookupIn(rs, uuid).Delivered? ==> r == rs - {uuid}
    ensures !LookupIn(rs, uuid).Delivered? ==> r == rs
  {
    if uuid in rs && rs[uuid].result.Ready? then rs - {uuid} else rs
  }

  /** The entries a sweep at `now` keeps: those at most `ResultTtl` old. */
  function Unexpired(rs: map<string, Entry>, now: real): map<string, Entry>
  {
    map k | k in rs && now - rs[k].timestamp <= ResultTtl :: rs[k]
  }

  class ProcessingManager {
    var busy: bool
    var results: map<string, Entry>

    /** An idle server with no results. */
    constructor()
      ensures !busy && results == map[]
    {
      busy := false;
      results := map[];
    }

    /** `submit_result`: store the placeholder (no result) or the result
        under `uuid`, overwriting any earlier entry and its timestamp. */
    method SubmitResult(uuid: string, result: Stored, now: real)
      modifies this
      ensures results == old(results)[uuid := Entry(result, now)]
      ensures busy == old(busy)
    {
      results := results[uuid := Entry(result, now)];
    }

    /** `get_result`: None for an unknown uuid, "" for a placeholder (the
        entry stays), otherwise the response, whose entry is popped. */
    method GetResult(uuid: string) returns (r: Lookup)
      modifies this
      ensures r == LookupIn(old(results), uuid)
      ensures results == AfterLookup(old(results), uuid)
      ensures busy == old(busy)
    {
      if uuid !in results {
        return NotFound;
      }
      var entry := results[uuid];
      if entry.result.Placeholder? {
        return Pending;
      }
      r := Delivered(entry.result.response);
      results := results - {uuid};
    }

    method SetBusy(status: bool)
      modifies this
      ensures busy == status && results == old(results)
    {
      busy := status;
    }

    method GetBusy() returns (status: bool)
      ensures status == busy
    {
      status := busy;
    }

    /** One pass of `cleanup_results`: collect the keys whose entry is more
        than `ResultTtl` old at `now`, then pop them one by one. */
    method CleanupResults(now: real)
      modifies this
      ensures results == Unexpired(old(results), now)
      ensures busy == old(busy)
    {
      var stale := set k | k in results && now - results[k].timestamp > ResultTtl;
      ghost var all := stale;
      while stale != {}
        invariant stale <= all
        invariant busy == old(busy)
        invariant results == map k | k in old(results) && (k !in all || k in stale) :: old(results)[k]
        decreases |stale|
      {
        var k :| k in stale;
        results := results - {k};
        stale := stale - {k};
      }
    }
  }

  /** A stored placeholder answers "not ready" and survives the poll. */
  lemma PlaceholderPending(rs: map<string, Entry>, uuid: string, now: real)
    ensures var s := rs[uuid := Entry(Placeholder, now)];
      LookupIn(s, uuid) == Pending && AfterLookup(s, uuid) == s
  {
  }

  /** A stored response is delivered once; the next poll finds nothing,
      and every other uuid's entry is as it was. */
  lemma DeliveredOnce(rs: map<string, Entry>, uuid: string, resp: Response, now: real)
    ensures var s := rs[uuid := Entry(Ready(resp), now)];
      LookupIn(s, uuid) == Delivered(resp)
      && LookupIn(AfterLookup(s, uuid), uuid) == NotFound
      && forall k :: k != uuid ==> (k in AfterLookup(s, uuid) <==> k in rs)
  {
  }

  /** Polling one uuid never disturbs another. */
  lemma LookupIsolated(rs: map<string, Entry>, uuid: string, other: string)
    requires other != uuid
    ensures LookupIn(AfterLookup(rs, uuid), other) == LookupIn(rs, other)
  {
  }

  /** A sweep keeps exactly the entries at most `ResultTtl` old, unchanged,
      and a poll after it answers as before for those and NotFound for the
      rest. */
  lemma SweepThenLookup(rs: map<string, Entry>, uuid: string, now: real)
    ensures uuid in rs && now - rs[uuid].timestamp > ResultTtl ==>
      LookupIn(Unexpired(rs, now), uuid) == NotFound
    ensures uuid !in rs || now - rs[uuid].timestamp <= ResultTtl ==>
      LookupIn(Unexpired(rs, now), uuid) == LookupIn(rs, uuid)
  {
  }

  /** Sweeping at an earlier time and then at a later one is the same as
      sweeping once at the later time; in particular a sweep is idempotent. */
  lemma SweepsCompose(rs: map<string, Entry>, earlier: real, later: real)
    requires earlier <= later
    ensures Unexpired(Unexpired(rs, earlier), later) == Unexpired(rs, later)
  {
    var a := Unexpired(Unexpired(rs, earlier), later);
    var b := Unexpired(rs, later);
    forall k | k in b
      ensures k in a
    {
      assert later - rs[k].timestamp <= ResultTtl;
      assert earlier - rs[k].timestamp <= ResultTtl;
    }
    assert a.Keys == b.Keys;
  }
}
