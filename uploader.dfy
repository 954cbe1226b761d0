/**
 * `RabbitMQUploader` as an object: its configuration and broker connection,
 * its `time_starts` checkpoint, the log of every message it has composed
 * and what became of it, and every rewrite of its checkpoint file. Each
 * method runs the loops of the corresponding Python method and is proved
 * against the functions of `Orchestrator` and `Publisher`.
 */
module Uploader {
  import opened Collections
  import opened Batches
  import opened Checkpoints
  import opened Publisher
  import opened Orchestrator

  /**
   * The loop of `postData` that computes `lenght_post`: -1 when there are no
   * event types, otherwise the largest datapoint count, which bounds every
   * event type's count and is reached by one of them.
   */
  method MaxDatapointCount(dp: Dict<map<int, Json>>) returns (n: int)
    requires dp.Valid()
    ensures n == MaxCount(dp)
    ensures forall e :: e in dp.entries ==> |dp.entries[e]| <= n
    ensures dp.order != [] ==> exists e :: e in dp.entries && |dp.entries[e]| == n
    ensures n == -1 <==> dp.order == []
  {
    ValidKeys(dp);
    n := -1;
    var i := 0;
    while i < |dp.order|
      invariant 0 <= i <= |dp.order|
      invariant forall e :: e in dp.order[..i] ==> e in dp.entries
      invariant n == MaxCountOf(dp.order[..i], dp.entries)
    {
      var e := dp.order[i];
      assert dp.order[..i + 1][..i] == dp.order[..i];
      assert forall x :: x in dp.order[..i + 1] ==> x in dp.order;
      if |dp.entries[e]| > n {
        n := |dp.entries[e]|;
      }
      i := i + 1;
    }
    assert dp.order[..i] == dp.order;
    MaxCountOfIsMax(dp.order, dp.entries);
  }

  /** The loop over `pointsconsider` for one event type. */
  method CopyPoints(points: map<int, Json>, consider: seq<int>) returns (part: map<int, Json>)
    requires forall t :: t in consider ==> t in points
    ensures part == PointsOf(points, consider)
  {
    part := map[];
    var j := 0;
    while j < |consider|
      invariant 0 <= j <= |consider|
      invariant forall t :: t in consider[..j] ==> t in points
      invariant part == PointsOf(points, consider[..j])
    {
      var point := consider[j];
      PointsOfSnoc(points, consider, j);
      part := part[point := points[point]];
      j := j + 1;
    }
    assert consider[..j] == consider;
  }

  /**
   * One event type's part of the chunk at `step`: empty when the event type
   * has no datapoints, otherwise
   * `pointsconsider = sorted(points)[step:step + step_size]` and the loop
   * that copies those datapoints.
   */
  method ChunkPart(points: map<int, Json>, step: nat) returns (part: map<int, Json>)
    ensures part == ChunkOf(points, step)
  {
    part := map[];
    var ks := SortedKeys(points.Keys);
    if |points.Keys| > 0 {
      var consider := Window(ks, step);
      assert forall t :: t in consider ==> t in ks;
      part := CopyPoints(points, consider);
    } else {
      assert Window(ks, step) == [];
    }
  }

  /**
   * The loop of `postData` that builds `chunk_datapoints` for one step:
   * every event type, in the order of `datapoints`, mapped to its part of
   * the chunk.
   */
  method BuildChunk(dp: Dict<map<int, Json>>, step: nat) returns (chunk: Dict<map<int, Json>>)
    requires dp.Valid()
    ensures chunk == Chunk(dp, step)
  {
    ValidKeys(dp);
    var order: seq<EventType> := [];
    var entries: map<EventType, map<int, Json>> := map[];
    var i := 0;
    while i < |dp.order|
      invariant 0 <= i <= |dp.order|
      invariant order == dp.order[..i]
      invariant forall e :: e in order ==> e in dp.entries
      invariant entries == ChunkEntries(dp.entries, order, step)
    {
      var e := dp.order[i];
      var part := ChunkPart(dp.entries[e], step);
      assert dp.order[..i + 1] == order + [e];
      ChunkEntriesSnoc(dp.entries, order, e, step);
      order := order + [e];
      entries := entries[e := part];
      i := i + 1;
    }
    assert order == dp.order;
    ChunkEntriesComplete(dp, step);
    chunk := Dict(order, entries);
  }

  /** The uploader object, with the parts of its state that `postData` reads or changes. */
  class RabbitMQUploader {
    /** `maxMQmessageSize`, `allowedEvents` and `tmpDir`, read once when the object is built. */
    const config: Config
    /** The broker connection opened by the constructor, as an oracle. */
    const transport: Transport
    /** `time_starts`. */
    var timeStarts: Checkpoint
    /** Every message composed so far, with what became of it. */
    var attempts: seq<Attempt>
    /** Every rewrite of a checkpoint file so far. */
    var flushed: seq<Snapshot>

    /** The object's state as the functions of `Orchestrator` see it. */
    function State(): State
      reads this
    {
      Orchestrator.State(attempts, timeStarts, flushed)
    }

    constructor (cfg: Config, tr: Transport, ts: Checkpoint)
      ensures config == cfg && transport == tr
      ensures timeStarts == ts && attempts == [] && flushed == []
    {
      config := cfg;
      transport := tr;
      timeStarts := ts;
      attempts := [];
      flushed := [];
    }

    /**
     * `SendMessagetoMQ` for the message about to become number
     * `|attempts|`: opening the channel may raise; a body over
     * `maxMQmessageSize * 1000` bytes is dropped with a normal return before
     * `basic_publish`; a falsy or raising `basic_publish` is caught.
     */
    method SendMessagetoMQ(body: Body) returns (o: Outcome)
      ensures o == SendOutcome(config, transport, |attempts|, body)
      ensures o.ChannelFailed? <==> transport.reply(|attempts|).ChannelError?
      ensures o.Published() <==> !o.ChannelFailed? && transport.measure(body) <= SizeLimit(config)
      ensures o.Discarded? <==> !o.ChannelFailed? && transport.measure(body) > SizeLimit(config)
    {
      var k := |attempts|;
      var sizeLimit := config.maxMQmessageSize * 1000;
      if transport.reply(k).ChannelError? {
        return ChannelFailed;
      }
      var sizeMsg := transport.measure(body);
      if sizeMsg > sizeLimit {
        return Discarded;
      }
      if transport.reply(k).PublishAcked? {
        o := Delivered;
      } else {
        o := PublishFailed;
      }
    }

    /**
     * Composing `msg_head` for `m`, which reads the two endpoint keys of the
     * metadata and raises KeyError without them, then handing the body to
     * `SendMessagetoMQ`; the attempt is added to the log.
     */
    method Dispatch(m: Message) returns (raised: bool)
      modifies this
      ensures attempts == old(attempts) + Deliver(config, transport, |old(attempts)|, [m])
      ensures raised == Raised(Deliver(config, transport, |old(attempts)|, [m]))
      ensures timeStarts == old(timeStarts) && flushed == old(flushed)
    {
      var o: Outcome;
      if !HasEndpoints(m.body.meta) {
        o := KeyMissing;
      } else {
        o := SendMessagetoMQ(m.body);
      }
      var a := Attempt(m.event, m.body, o);
      assert Deliver(config, transport, |attempts|, [m]) == [a];
      attempts := attempts + [a];
      raised := o.Raises();
    }

    /** The turn of the loop of `publishSToMq` for event type `e`: a message only when its summaries are truthy. */
    method PublishSummary(meta: Meta, e: EventType, summaries: Json) returns (raised: bool)
      modifies this
      ensures attempts == old(attempts) + Deliver(config, transport, |old(attempts)|, SummaryOf(meta, e, summaries))
      ensures raised == Raised(Deliver(config, transport, |old(attempts)|, SummaryOf(meta, e, summaries)))
      ensures timeStarts == old(timeStarts) && flushed == old(flushed)
    {
      if Truthy(summaries) {
        raised := Dispatch(Message(e, SummaryBody(meta, summaries)));
      } else {
        assert attempts + [] == attempts;
        raised := false;
      }
    }

    /**
     * `publishSToMq`: a message per event type of `summaries_data` whose
     * summaries are truthy, in dictionary order, until one raises.
     */
    method PublishSToMq(meta: Meta, sd: Dict<Json>) returns (raised: bool)
      requires sd.Valid()
      modifies this
      ensures forall e :: e in sd.order ==> e in sd.entries
      ensures attempts == old(attempts) + Deliver(config, transport, |old(attempts)|, SummaryMessages(meta, sd.order, sd.entries))
      ensures raised == Raised(Deliver(config, transport, |old(attempts)|, SummaryMessages(meta, sd.order, sd.entries)))
      ensures timeStarts == old(timeStarts) && flushed == old(flushed)
    {
      ValidKeys(sd);
      ghost var a0 := attempts;
      var i := 0;
      assert sd.order[..0] == [];
      while i < |sd.order|
        invariant 0 <= i <= |sd.order|
        invariant forall e :: e in sd.order[..i] ==> e in sd.entries
        invariant attempts == a0 + Deliver(config, transport, |a0|, SummaryMessages(meta, sd.order[..i], sd.entries))
        invariant !Raised(Deliver(config, transport, |a0|, SummaryMessages(meta, sd.order[..i], sd.entries)))
        invariant timeStarts == old(timeStarts) && flushed == old(flushed)
      {
        var e := sd.order[i];
        SummaryStep(config, transport, meta, sd.order, sd.entries, i, a0, attempts);
        raised := PublishSummary(meta, e, sd.entries[e]);
        if raised {
          return;
        }
        i := i + 1;
      }
      assert sd.order[..i] == sd.order;
      raised := false;
    }

    /** The turn of the loop of `publishRToMq` for event type `e`: a message only when it is allowed and has datapoints. */
    method PublishRaw(meta: Meta, e: EventType, points: map<int, Json>) returns (raised: bool)
      modifies this
      ensures attempts == old(attempts) + Deliver(config, transport, |old(attempts)|, RawOf(config, meta, e, points))
      ensures raised == Raised(Deliver(config, transport, |old(attempts)|, RawOf(config, meta, e, points)))
      ensures timeStarts == old(timeStarts) && flushed == old(flushed)
    {
      if e in config.allowedEvents && |points| > 0 {
        raised := Dispatch(Message(e, RawBody(meta, points)));
      } else {
        assert attempts + [] == attempts;
        raised := false;
      }
    }

    /**
     * `publishRToMq`: a message per event type of the chunk that is allowed
     * and has datapoints in it, in dictionary order, until one raises.
     */
    method PublishRToMq(meta: Meta, chunk: Dict<map<int, Json>>) returns (raised: bool)
      requires chunk.Valid()
      modifies this
      ensures forall e :: e in chunk.order ==> e in chunk.entries
      ensures attempts == old(attempts) + Deliver(config, transport, |old(attempts)|, RawMessages(config, meta, chunk.order, chunk.entries))
      ensures raised == Raised(Deliver(config, transport, |old(attempts)|, RawMessages(config, meta, chunk.order, chunk.entries)))
      ensures timeStarts == old(timeStarts) && flushed == old(flushed)
    {
      ValidKeys(chunk);
      ghost var a0 := attempts;
      var i := 0;
      assert chunk.order[..0] == [];
      while i < |chunk.order|
        invariant 0 <= i <= |chunk.order|
        invariant forall e :: e in chunk.order[..i] ==> e in chunk.entries
        invariant attempts == a0 + Deliver(config, transport, |a0|, RawMessages(config, meta, chunk.order[..i], chunk.entries))
        invariant !Raised(Deliver(config, transport, |a0|, RawMessages(config, meta, chunk.order[..i], chunk.entries)))
        invariant timeStarts == old(timeStarts) && flushed == old(flushed)
      {
        var e := chunk.order[i];
        RawStep(config, transport, meta, chunk.order, chunk.entries, i, a0, attempts);
        raised := PublishRaw(meta, e, chunk.entries[e]);
        if raised {
          return;
        }
        i := i + 1;
      }
      assert chunk.order[..i] == chunk.order;
      raised := false;
    }

    /**
     * The turn of the checkpoint loop of `postData` for event type `e` with
     * datapoints `points`: nothing when there are none, otherwise the entry
     * becomes `max(old value or 0, max(keys) + 1)`.
     */
    method AdvanceEntry(e: EventType, points: map<int, Json>)
      modifies this
      ensures |points| > 0 ==> timeStarts == old(timeStarts)[e := Max(StartOrZero(old(timeStarts), e), NextStart(points))]
      ensures |points| == 0 ==> timeStarts == old(timeStarts)
      ensures attempts == old(attempts) && flushed == old(flushed)
    {
      if |points.Keys| > 0 {
        if e !in timeStarts {
          timeStarts := timeStarts[e := 0];
        }
        var nextTimeStart := MaxKey(points.Keys) + 1;
        if nextTimeStart > timeStarts[e] {
          timeStarts := timeStarts[e := nextTimeStart];
        }
      }
    }

    /**
     * The checkpoint loop of `postData`: every event type of the whole
     * collection with datapoints gets `max(old value or 0, max(keys) + 1)`.
     */
    method AdvanceCheckpoints(dp: Dict<map<int, Json>>)
      requires dp.Valid()
      modifies this
      ensures timeStarts == Advanced(old(timeStarts), dp.entries)
      ensures attempts == old(attempts) && flushed == old(flushed)
    {
      ValidKeys(dp);
      ghost var ts0 := timeStarts;
      var i := 0;
      while i < |dp.order|
        invariant 0 <= i <= |dp.order|
        invariant attempts == old(attempts) && flushed == old(flushed)
        invariant forall e :: e in dp.order[..i] ==>
          && (e in timeStarts <==> e in ts0 || HasPoints(dp.entries, e))
          && (e in timeStarts ==> timeStarts[e] == AdvancedAt(ts0, dp.entries, e))
        invariant forall e :: e !in dp.order[..i] ==>
          && (e in timeStarts <==> e in ts0)
          && (e in ts0 ==> timeStarts[e] == ts0[e])
      {
        var e := dp.order[i];
        assert dp.order[..i + 1] == dp.order[..i] + [e];
        assert e !in dp.order[..i];
        AdvanceEntry(e, dp.entries[e]);
        i := i + 1;
      }
      assert dp.order[..i] == dp.order;
      forall e
        ensures (e in timeStarts <==> e in Advanced(ts0, dp.entries))
        ensures e in timeStarts ==> timeStarts[e] == Advanced(ts0, dp.entries)[e]
      {
        AdvancedEntry(ts0, dp.entries, e);
      }
      assert timeStarts == Advanced(ts0, dp.entries);
    }

    /**
     * One turn of the chunk loop of `postData`, for chunk number `i` at
     * `step = i * step_size`: build the chunk, publish its raw messages,
     * and unless that raised, advance `time_starts` from the whole
     * collection and rewrite the checkpoint file at `tmpDir + metadata_key`.
     * `batches` is the rest of the loop, starting with this chunk's messages.
     */
    method PublishChunk(meta: Meta, key: string, dp: Dict<map<int, Json>>, step: nat, ghost i: nat,
                        ghost batches: seq<seq<Message>>) returns (raised: bool)
      requires dp.Valid()
      requires step == StepSize * i
      requires |batches| > 0 && batches[0] == ChunkMessages(config, meta, dp, i)
      modifies this
      ensures RunBatches(config, transport, old(State()), CheckpointPath(config, key), dp.entries, batches)
        == if raised then Run(State(), true)
           else RunBatches(config, transport, State(), CheckpointPath(config, key), dp.entries, batches[1..])
    {
      var chunk := BuildChunk(dp, step);
      raised := PublishRToMq(meta, chunk);
      if raised {
        return;
      }
      AdvanceCheckpoints(dp);
      flushed := flushed + [Snapshot(config.tmpDir + key, timeStarts)];
    }

    /**
     * The chunk loop of `postData`, `for step in range(0, lenght_post, step_size)`,
     * for a collection whose largest datapoint count is `lenghtPost`.
     */
    method PublishChunks(meta: Meta, key: string, dp: Dict<map<int, Json>>, lenghtPost: int) returns (raised: bool)
      requires dp.Valid() && lenghtPost == MaxCount(dp)
      modifies this
      ensures Run(State(), raised)
        == RunBatches(config, transport, old(State()), CheckpointPath(config, key), dp.entries, ChunkPlan(config, meta, dp))
    {
      ghost var plan := ChunkPlan(config, meta, dp);
      ghost var target := RunBatches(config, transport, State(), CheckpointPath(config, key), dp.entries, plan);
      var stepSize := StepSize;
      var step := 0;
      ghost var i: nat := 0;
      while step < lenghtPost
        invariant step == StepSize * i
        invariant i <= |plan|
        invariant RunBatches(config, transport, State(), CheckpointPath(config, key), dp.entries, plan[i..]) == target
      {
        ChunkCountSteps(lenghtPost, i);
        assert plan[i..][1..] == plan[i + 1..];
        raised := PublishChunk(meta, key, dp, step, i, plan[i..]);
        if raised {
          return;
        }
        step := step + stepSize;
        i := i + 1;
      }
      ChunkCountSteps(lenghtPost, i);
      assert plan[i..] == [];
      raised := false;
    }

    /**
     * `postData(arguments, ..., summaries_data, metadata_key, datapoints)`:
     * returns at once when every event type has zero datapoints; otherwise
     * publishes the summaries when there are any, then, for each step of
     * `range(0, lenght_post, step_size)`, publishes that chunk, advances
     * `time_starts` and rewrites the checkpoint file. `raised` says that an
     * exception left the call; the state is then as the exception left it.
     */
    method PostData(meta: Meta, sd: Dict<Json>, key: string, dp: Dict<map<int, Json>>) returns (raised: bool)
      requires sd.Valid() && dp.Valid()
      modifies this
      ensures Run(State(), raised) == PostDataRun(config, transport, old(State()), meta, sd, key, dp)
    {
      var lenghtPost := MaxDatapointCount(dp);
      if lenghtPost == 0 {
        return false;
      }
      if |sd.order| > 0 {
        raised := PublishSToMq(meta, sd);
        if raised {
          return;
        }
      } else {
        assert attempts + [] == attempts;
      }
      raised := PublishChunks(meta, key, dp, lenghtPost);
    }
  }
}
