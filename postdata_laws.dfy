/**
 * Properties of one call of `postData`: the log of composed messages, the
 * checkpoint and its file, the order of summaries and raw chunks, and where
 * each datapoint is published.
 */
module PostDataLaws {
  import opened Collections
  import opened Batches
  import opened Checkpoints
  import opened Publisher
  import opened Orchestrator

  // The chunk loop and the publishing stage, for any messages.

  /**
   * The attempts of the chunk loop are its runs of messages, one after the
   * other, handed to the sender until the first exception; the loop ends
   * with an exception exactly when that does.
   */
  lemma {:induction false} RunBatchesAttempts(cfg: Config, tr: Transport, s: State, path: string,
                                              entries: map<EventType, map<int, Json>>, batches: seq<seq<Message>>,
                                              k: nat, r: Run)
    requires k == |s.attempts|
    requires r == RunBatches(cfg, tr, s, path, entries, batches)
    ensures r.after.attempts == s.attempts + Deliver(cfg, tr, k, Flatten(batches))
    ensures r.raised == Raised(Deliver(cfg, tr, k, Flatten(batches)))
    decreases |batches|
  {
    if batches == [] {
      assert Deliver(cfg, tr, k, Flatten(batches)) == [];
      assert s.attempts + [] == s.attempts;
    } else {
      var msgs := batches[0];
      var rest := Flatten(batches[1..]);
      var all := Deliver(cfg, tr, k, Flatten(batches));
      assert Flatten(batches) == msgs + rest;
      var sent := Deliver(cfg, tr, k, msgs);
      DeliverAppend(cfg, tr, k, msgs, rest);
      if Raised(sent) {
        assert all == sent;
        assert r == Run(s.(attempts := s.attempts + sent), true);
      } else {
        DeliverComplete(cfg, tr, k, msgs);
        var later := Deliver(cfg, tr, k + |msgs|, rest);
        assert all == sent + later;
        var ts := Advanced(s.timeStarts, entries);
        var s' := State(s.attempts + sent, ts, s.flushed + [Snapshot(path, ts)]);
        var r' := RunBatches(cfg, tr, s', path, entries, batches[1..]);
        assert r == r';
        RunBatchesAttempts(cfg, tr, s', path, entries, batches[1..], k + |msgs|, r');
        RaisedAfter(sent, later);
        AppendAssociates(s.attempts, sent, later);
        assert r'.raised == Raised(later);
        assert Raised(all) == Raised(later);
        assert r'.after.attempts == s'.attempts + later;
      }
    }
  }

  /**
   * The checkpoint of the chunk loop: every run that completes rewrites the
   * file with the same snapshot, `Advanced` of the checkpoint the loop
   * started from; without an exception that happens once per run, and
   * `time_starts` holds that value as soon as one run has completed.
   */
  lemma {:induction false} RunBatchesCheckpoint(cfg: Config, tr: Transport, s: State, path: string,
                                                entries: map<EventType, map<int, Json>>, batches: seq<seq<Message>>, r: Run)
    requires r == RunBatches(cfg, tr, s, path, entries, batches)
    ensures |s.flushed| <= |r.after.flushed| <= |s.flushed| + |batches|
    ensures r.after.flushed[..|s.flushed|] == s.flushed
    ensures !r.raised ==> |r.after.flushed| == |s.flushed| + |batches|
    ensures forall j :: |s.flushed| <= j < |r.after.flushed| ==>
      r.after.flushed[j] == Snapshot(path, Advanced(s.timeStarts, entries))
    ensures r.after.timeStarts == if |r.after.flushed| == |s.flushed| then s.timeStarts else Advanced(s.timeStarts, entries)
    decreases |batches|
  {
    if batches != [] {
      var sent := Deliver(cfg, tr, |s.attempts|, batches[0]);
      if !Raised(sent) {
        var ts := Advanced(s.timeStarts, entries);
        var snap := Snapshot(path, ts);
        var s' := State(s.attempts + sent, ts, s.flushed + [snap]);
        var r' := RunBatches(cfg, tr, s', path, entries, batches[1..]);
        assert r == r';
        RunBatchesCheckpoint(cfg, tr, s', path, entries, batches[1..], r');
        AdvancedIdempotent(s.timeStarts, entries);
        assert Advanced(ts, entries) == ts;
        var f := r.after.flushed;
        assert f[..|s'.flushed|] == s.flushed + [snap];
        assert f[..|s.flushed|] == s.flushed by {
          assert f[..|s.flushed|] == (f[..|s'.flushed|])[..|s.flushed|];
        }
        assert f[|s.flushed|] == snap by {
          assert f[|s.flushed|] == (f[..|s'.flushed|])[|s.flushed|];
        }
        assert forall j :: |s'.flushed| <= j < |f| ==> f[j] == snap;
        assert r.after.timeStarts == ts;
      }
    }
  }

  /** The attempts of the publishing stage are `AttemptsOf` its messages, and it raises exactly when the last of them did. */
  lemma PublishAllAttempts(cfg: Config, tr: Transport, s: State, path: string, entries: map<EventType, map<int, Json>>,
                           summaries: seq<Message>, plan: seq<seq<Message>>, r: Run)
    requires r == PublishAll(cfg, tr, s, path, entries, summaries, plan)
    ensures r.after.attempts == s.attempts + AttemptsOf(cfg, tr, |s.attempts|, summaries, plan)
    ensures r.raised == Raised(AttemptsOf(cfg, tr, |s.attempts|, summaries, plan))
  {
    var k := |s.attempts|;
    var sent := Deliver(cfg, tr, k, summaries);
    if !Raised(sent) {
      var s' := s.(attempts := s.attempts + sent);
      var r' := RunBatches(cfg, tr, s', path, entries, plan);
      assert r == r';
      RunBatchesAttempts(cfg, tr, s', path, entries, plan, k + |sent|, r');
      var raw := Deliver(cfg, tr, k + |sent|, Flatten(plan));
      assert AttemptsOf(cfg, tr, k, summaries, plan) == sent + raw;
      RaisedAfter(sent, raw);
      AppendAssociates(s.attempts, sent, raw);
    }
  }

  /**
   * The checkpoint of the publishing stage: the summaries change nothing,
   * and the chunk loop rewrites the file at most once per run, exactly once
   * per run without an exception, always with the mapping that is then the
   * new `time_starts`.
   */
  lemma PublishAllCheckpoint(cfg: Config, tr: Transport, s: State, path: string, entries: map<EventType, map<int, Json>>,
                             summaries: seq<Message>, plan: seq<seq<Message>>, r: Run)
    requires r == PublishAll(cfg, tr, s, path, entries, summaries, plan)
    ensures |s.flushed| <= |r.after.flushed| <= |s.flushed| + |plan|
    ensures r.after.flushed[..|s.flushed|] == s.flushed
    ensures !r.raised ==> |r.after.flushed| == |s.flushed| + |plan|
    ensures forall j :: |s.flushed| <= j < |r.after.flushed| ==> r.after.flushed[j] == Snapshot(path, r.after.timeStarts)
    ensures r.after.timeStarts == if |r.after.flushed| == |s.flushed| then s.timeStarts else Advanced(s.timeStarts, entries)
  {
    var sent := Deliver(cfg, tr, |s.attempts|, summaries);
    if !Raised(sent) {
      var s' := s.(attempts := s.attempts + sent);
      RunBatchesCheckpoint(cfg, tr, s', path, entries, plan, r);
    }
  }

  /** Without a channel error and with both header fields in every message, nothing raises and every message is tried. */
  lemma AttemptsOfWithoutRaise(cfg: Config, tr: Transport, k: nat, summaries: seq<Message>, plan: seq<seq<Message>>)
    requires forall j: nat :: !tr.reply(j).ChannelError?
    requires forall i :: 0 <= i < |summaries| ==> HasEndpoints(summaries[i].body.meta)
    requires forall i :: 0 <= i < |Flatten(plan)| ==> HasEndpoints(Flatten(plan)[i].body.meta)
    ensures !Raised(AttemptsOf(cfg, tr, k, summaries, plan))
    ensures |AttemptsOf(cfg, tr, k, summaries, plan)| == |summaries| + |Flatten(plan)|
  {
    var sent := Deliver(cfg, tr, k, summaries);
    DeliverWithoutRaise(cfg, tr, k, summaries);
    DeliverWithoutRaise(cfg, tr, k + |sent|, Flatten(plan));
    RaisedAfter(sent, Deliver(cfg, tr, k + |sent|, Flatten(plan)));
  }

  /** Attempts with summaries, then attempts with datapoints, in that order. */
  lemma AttemptsLayout(a: seq<Attempt>, b: seq<Attempt>)
    requires forall j :: 0 <= j < |a| ==> a[j].body.SummaryBody?
    requires forall j :: 0 <= j < |b| ==> b[j].body.RawBody?
    ensures forall j :: 0 <= j < |a| ==> (a + b)[j].body.SummaryBody?
    ensures forall j :: |a| <= j < |a + b| ==> (a + b)[j].body.RawBody?
  {
    forall j | |a| <= j < |a + b|
      ensures (a + b)[j].body.RawBody?
    {
      assert (a + b)[j] == b[j - |a|];
    }
  }

  /**
   * When the first messages carry summaries and the runs carry datapoints,
   * the attempts start with those of the summaries, all with summary
   * bodies, and every later attempt carries datapoints.
   */
  lemma AttemptsOfLayout(cfg: Config, tr: Transport, k: nat, summaries: seq<Message>, plan: seq<seq<Message>>)
    requires forall i :: 0 <= i < |summaries| ==> summaries[i].body.SummaryBody?
    requires forall i :: 0 <= i < |Flatten(plan)| ==> Flatten(plan)[i].body.RawBody?
    ensures |Deliver(cfg, tr, k, summaries)| <= |summaries|
    ensures |Deliver(cfg, tr, k, summaries)| <= |AttemptsOf(cfg, tr, k, summaries, plan)|
    ensures AttemptsOf(cfg, tr, k, summaries, plan)[..|Deliver(cfg, tr, k, summaries)|] == Deliver(cfg, tr, k, summaries)
    ensures forall j :: 0 <= j < |Deliver(cfg, tr, k, summaries)| ==> AttemptsOf(cfg, tr, k, summaries, plan)[j].body.SummaryBody?
    ensures forall j :: |Deliver(cfg, tr, k, summaries)| <= j < |AttemptsOf(cfg, tr, k, summaries, plan)| ==>
      AttemptsOf(cfg, tr, k, summaries, plan)[j].body.RawBody?
  {
    var sent := Deliver(cfg, tr, k, summaries);
    var raw := Deliver(cfg, tr, k + |sent|, Flatten(plan));
    var tail: seq<Attempt> := if Raised(sent) then [] else raw;
    assert AttemptsOf(cfg, tr, k, summaries, plan) == sent + tail;
    assert (sent + tail)[..|sent|] == sent;
    DeliverSpec(cfg, tr, k, summaries);
    DeliverSpec(cfg, tr, k + |sent|, Flatten(plan));
    AttemptsLayout(sent, tail);
  }

  /** Every body passed to `basic_publish`, summary or chunk, was within the size limit. */
  lemma AttemptsOfGuarded(cfg: Config, tr: Transport, k: nat, summaries: seq<Message>, plan: seq<seq<Message>>)
    ensures SizeGuarded(cfg, tr, AttemptsOf(cfg, tr, k, summaries, plan))
  {
    var sent := Deliver(cfg, tr, k, summaries);
    var raw := Deliver(cfg, tr, k + |sent|, Flatten(plan));
    DeliverGuarded(cfg, tr, k, summaries);
    DeliverGuarded(cfg, tr, k + |sent|, Flatten(plan));
    if !Raised(sent) {
      var all: seq<Attempt> := sent + raw;
      forall i | 0 <= i < |all| && all[i].outcome.Published()
        ensures tr.measure(all[i].body) <= SizeLimit(cfg)
      {
        if i >= |sent| {
          assert all[i] == raw[i - |sent|];
        }
      }
    }
  }

  // The chunk plan.

  /** The plan has one run per step of `range(0, lenght_post, step_size)`, in step order. */
  lemma ChunkPlanSteps(cfg: Config, meta: Meta, dp: Dict<map<int, Json>>)
    requires dp.Valid()
    ensures |ChunkPlan(cfg, meta, dp)| == ChunkCount(MaxCount(dp))
    ensures forall j :: 0 <= j < |ChunkPlan(cfg, meta, dp)| ==> ChunkPlan(cfg, meta, dp)[j] == ChunkMessages(cfg, meta, dp, j)
  {
  }

  /** A property of the body's shape that holds in every run holds in their concatenation. */
  lemma {:induction false} FlattenRawBodies(meta: Meta, batches: seq<seq<Message>>)
    requires forall j, m :: 0 <= j < |batches| && 0 <= m < |batches[j]| ==>
      batches[j][m].body.RawBody? && batches[j][m].body.meta == meta
    ensures forall m :: 0 <= m < |Flatten(batches)| ==>
      Flatten(batches)[m].body.RawBody? && Flatten(batches)[m].body.meta == meta
    decreases |batches|
  {
    if batches != [] {
      var tail := batches[1..];
      assert forall j, m :: 0 <= j < |tail| && 0 <= m < |tail[j]| ==> tail[j][m] == batches[j + 1][m];
      FlattenRawBodies(meta, tail);
      var here: seq<Message> := batches[0];
      var rest: seq<Message> := Flatten(tail);
      forall m | 0 <= m < |here + rest|
        ensures (here + rest)[m].body.RawBody? && (here + rest)[m].body.meta == meta
      {
        if m < |here| {
          assert (here + rest)[m] == batches[0][m];
          assert batches[0][m].body.RawBody? && batches[0][m].body.meta == meta;
        } else {
          var q := m - |here|;
          assert (here + rest)[m] == rest[q];
          assert rest[q].body.RawBody? && rest[q].body.meta == meta;
        }
      }
    }
  }

  lemma ChunkMessagesBodies(cfg: Config, meta: Meta, dp: Dict<map<int, Json>>, j: nat)
    requires dp.Valid()
    ensures forall m :: 0 <= m < |ChunkMessages(cfg, meta, dp, j)| ==>
      ChunkMessages(cfg, meta, dp, j)[m].body.RawBody? && ChunkMessages(cfg, meta, dp, j)[m].body.meta == meta
  {
    var c := Chunk(dp, StepSize * j);
    var msgs := RawMessages(cfg, meta, c.order, c.entries);
    RawMessagesOnePerEvent(cfg, meta, c.order, c.entries);
    assert forall m :: 0 <= m < |msgs| ==> msgs[m].body.RawBody? && msgs[m].body.meta == meta;
    assert ChunkMessages(cfg, meta, dp, j) == msgs;
  }

  /** Every raw message of every chunk carries the request metadata and datapoints, never summaries. */
  lemma ChunkPlanBodies(cfg: Config, meta: Meta, dp: Dict<map<int, Json>>)
    requires dp.Valid()
    ensures forall m :: 0 <= m < |Flatten(ChunkPlan(cfg, meta, dp))| ==>
      Flatten(ChunkPlan(cfg, meta, dp))[m].body.RawBody? && Flatten(ChunkPlan(cfg, meta, dp))[m].body.meta == meta
  {
    var plan: seq<seq<Message>> := ChunkPlan(cfg, meta, dp);
    ChunkPlanSteps(cfg, meta, dp);
    forall j, m | 0 <= j < |plan| && 0 <= m < |plan[j]|
      ensures plan[j][m].body.RawBody? && plan[j][m].body.meta == meta
    {
      ChunkMessagesBodies(cfg, meta, dp, j);
    }
    FlattenRawBodies(meta, plan);
  }

  /** The summary messages of a call are at most one per event type, and each carries the metadata and summaries. */
  lemma SummaryPlanBodies(meta: Meta, sd: Dict<Json>)
    requires sd.Valid()
    ensures |SummaryPlan(meta, sd)| <= |sd.order|
    ensures forall i :: 0 <= i < |SummaryPlan(meta, sd)| ==>
      SummaryPlan(meta, sd)[i].body.SummaryBody? && SummaryPlan(meta, sd)[i].body.meta == meta
  {
    if |sd.order| > 0 {
      SummaryMessagesOnePerEvent(meta, sd.order, sd.entries);
    }
  }

  // One call of postData.

  /**
   * Nothing new: when every event type has zero datapoints (and there is at
   * least one), the call returns at once, with no message composed and with
   * the checkpoint and its file untouched.
   */
  lemma NothingNewShortCircuits(cfg: Config, tr: Transport, s: State, meta: Meta, sd: Dict<Json>,
                                key: string, dp: Dict<map<int, Json>>)
    requires sd.Valid() && dp.Valid()
    requires dp.order != []
    requires forall e :: e in dp.entries ==> |dp.entries[e]| == 0
    ensures PostDataRun(cfg, tr, s, meta, sd, key, dp) == Run(s, false)
  {
    MaxCountOfIsMax(dp.order, dp.entries);
    var n := MaxCount(dp);
    var e :| e in dp.order && |dp.entries[e]| == n;
  }

  /**
   * An empty `datapoints` leaves the count at -1: there is no early return,
   * so summaries are still published, but there are no chunks, and the
   * checkpoint and its file stay as they were.
   */
  lemma EmptyCollectionHasNoChunks(cfg: Config, tr: Transport, s: State, meta: Meta, sd: Dict<Json>,
                                   key: string, dp: Dict<map<int, Json>>, r: Run)
    requires sd.Valid() && dp.Valid()
    requires dp.order == []
    requires r == PostDataRun(cfg, tr, s, meta, sd, key, dp)
    ensures r.after.timeStarts == s.timeStarts && r.after.flushed == s.flushed
    ensures r.after.attempts == s.attempts + SummaryAttempts(cfg, tr, |s.attempts|, meta, sd, dp)
    ensures r.raised == Raised(SummaryAttempts(cfg, tr, |s.attempts|, meta, sd, dp))
  {
    assert MaxCount(dp) == -1;
    ChunkPlanSteps(cfg, meta, dp);
    assert ChunkPlan(cfg, meta, dp) == [];
  }

  /** The attempts a call appends to the log are `CallAttempts`, and it raises exactly when the last of them did. */
  lemma PostDataAttempts(cfg: Config, tr: Transport, s: State, meta: Meta, sd: Dict<Json>,
                         key: string, dp: Dict<map<int, Json>>, r: Run)
    requires sd.Valid() && dp.Valid()
    requires r == PostDataRun(cfg, tr, s, meta, sd, key, dp)
    ensures r.after.attempts == s.attempts + CallAttempts(cfg, tr, |s.attempts|, meta, sd, dp)
    ensures r.raised == Raised(CallAttempts(cfg, tr, |s.attempts|, meta, sd, dp))
  {
    if MaxCount(dp) != 0 {
      PublishAllAttempts(cfg, tr, s, CheckpointPath(cfg, key), dp.entries, SummaryPlan(meta, sd), ChunkPlan(cfg, meta, dp), r);
    }
  }

  /**
   * Summaries are sent at most once per call, one attempt per event type at
   * most, and all of them before any raw chunk: the call's attempts start
   * with the summary attempts, and every later one carries datapoints.
   */
  lemma SummariesBeforeRaw(cfg: Config, tr: Transport, k: nat, meta: Meta, sd: Dict<Json>, dp: Dict<map<int, Json>>)
    requires sd.Valid() && dp.Valid()
    ensures |SummaryAttempts(cfg, tr, k, meta, sd, dp)| <= |sd.order|
    ensures |SummaryAttempts(cfg, tr, k, meta, sd, dp)| <= |CallAttempts(cfg, tr, k, meta, sd, dp)|
    ensures CallAttempts(cfg, tr, k, meta, sd, dp)[..|SummaryAttempts(cfg, tr, k, meta, sd, dp)|] == SummaryAttempts(cfg, tr, k, meta, sd, dp)
    ensures forall j :: 0 <= j < |SummaryAttempts(cfg, tr, k, meta, sd, dp)| ==>
      CallAttempts(cfg, tr, k, meta, sd, dp)[j].body.SummaryBody?
    ensures forall j :: |SummaryAttempts(cfg, tr, k, meta, sd, dp)| <= j < |CallAttempts(cfg, tr, k, meta, sd, dp)| ==>
      CallAttempts(cfg, tr, k, meta, sd, dp)[j].body.RawBody?
    ensures forall j :: 0 <= j < |SummaryAttempts(cfg, tr, k, meta, sd, dp)| ==>
      && SummaryAttempts(cfg, tr, k, meta, sd, dp)[j].event in sd.entries
      && Truthy(sd.entries[SummaryAttempts(cfg, tr, k, meta, sd, dp)[j].event])
      && SummaryAttempts(cfg, tr, k, meta, sd, dp)[j].body == SummaryBody(meta, sd.entries[SummaryAttempts(cfg, tr, k, meta, sd, dp)[j].event])
    ensures forall i, j :: 0 <= i < j < |SummaryAttempts(cfg, tr, k, meta, sd, dp)| ==>
      SummaryAttempts(cfg, tr, k, meta, sd, dp)[i].event != SummaryAttempts(cfg, tr, k, meta, sd, dp)[j].event
  {
    SummaryAttemptsOnePerEvent(cfg, tr, k, meta, sd, dp);
    if MaxCount(dp) != 0 {
      SummaryPlanBodies(meta, sd);
      ChunkPlanBodies(cfg, meta, dp);
      AttemptsOfLayout(cfg, tr, k, SummaryPlan(meta, sd), ChunkPlan(cfg, meta, dp));
    }
  }

  /**
   * Each summary attempt of a call is for an event type of `summaries_data`
   * whose summaries are truthy, carries them unchanged, and no event type is
   * attempted twice.
   */
  lemma SummaryAttemptsOnePerEvent(cfg: Config, tr: Transport, k: nat, meta: Meta, sd: Dict<Json>, dp: Dict<map<int, Json>>)
    requires sd.Valid() && dp.Valid()
    ensures forall j :: 0 <= j < |SummaryAttempts(cfg, tr, k, meta, sd, dp)| ==>
      && SummaryAttempts(cfg, tr, k, meta, sd, dp)[j].event in sd.entries
      && Truthy(sd.entries[SummaryAttempts(cfg, tr, k, meta, sd, dp)[j].event])
      && SummaryAttempts(cfg, tr, k, meta, sd, dp)[j].body == SummaryBody(meta, sd.entries[SummaryAttempts(cfg, tr, k, meta, sd, dp)[j].event])
    ensures forall i, j :: 0 <= i < j < |SummaryAttempts(cfg, tr, k, meta, sd, dp)| ==>
      SummaryAttempts(cfg, tr, k, meta, sd, dp)[i].event != SummaryAttempts(cfg, tr, k, meta, sd, dp)[j].event
  {
    if MaxCount(dp) != 0 && |sd.order| > 0 {
      ValidKeys(sd);
      var msgs := SummaryMessages(meta, sd.order, sd.entries);
      var sent := Deliver(cfg, tr, k, msgs);
      SummaryMessagesOnePerEvent(meta, sd.order, sd.entries);
      DeliverSpec(cfg, tr, k, msgs);
      assert SummaryAttempts(cfg, tr, k, meta, sd, dp) == sent;
      assert forall j :: 0 <= j < |sent| ==> sent[j].event == msgs[j].event && sent[j].body == msgs[j].body;
    }
  }

  /**
   * The messages of a call do not depend on the checkpoint: two calls from
   * states that differ only in `time_starts` and the checkpoint file compose
   * and send the same messages with the same outcomes.
   */
  lemma AttemptsIgnoreCheckpoint(cfg: Config, tr: Transport, s1: State, s2: State, meta: Meta,
                                 sd: Dict<Json>, key: string, dp: Dict<map<int, Json>>, r1: Run, r2: Run)
    requires sd.Valid() && dp.Valid()
    requires s1.attempts == s2.attempts
    requires r1 == PostDataRun(cfg, tr, s1, meta, sd, key, dp)
    requires r2 == PostDataRun(cfg, tr, s2, meta, sd, key, dp)
    ensures r1.after.attempts == r2.after.attempts && r1.raised == r2.raised
  {
    PostDataAttempts(cfg, tr, s1, meta, sd, key, dp, r1);
    PostDataAttempts(cfg, tr, s2, meta, sd, key, dp, r2);
  }

  /** Every body a call passes to `basic_publish` was within the size limit. */
  lemma CallIsSizeGuarded(cfg: Config, tr: Transport, k: nat, meta: Meta, sd: Dict<Json>, dp: Dict<map<int, Json>>)
    requires sd.Valid() && dp.Valid()
    ensures SizeGuarded(cfg, tr, CallAttempts(cfg, tr, k, meta, sd, dp))
  {
    if MaxCount(dp) != 0 {
      AttemptsOfGuarded(cfg, tr, k, SummaryPlan(meta, sd), ChunkPlan(cfg, meta, dp));
    }
  }

  /**
   * How a call rewrites the checkpoint file: at most once per chunk step,
   * exactly once per step when nothing raised, always with the mapping that
   * is then the new `time_starts`, which is the old one or the old one
   * `Advanced` by the whole collection.
   */
  lemma PostDataFlushes(cfg: Config, tr: Transport, s: State, meta: Meta, sd: Dict<Json>,
                        key: string, dp: Dict<map<int, Json>>, r: Run)
    requires sd.Valid() && dp.Valid()
    requires r == PostDataRun(cfg, tr, s, meta, sd, key, dp)
    ensures |s.flushed| <= |r.after.flushed| <= |s.flushed| + ChunkCount(MaxCount(dp))
    ensures r.after.flushed[..|s.flushed|] == s.flushed
    ensures !r.raised ==> |r.after.flushed| == |s.flushed| + ChunkCount(MaxCount(dp))
    ensures forall j :: |s.flushed| <= j < |r.after.flushed| ==>
      r.after.flushed[j] == Snapshot(CheckpointPath(cfg, key), r.after.timeStarts)
    ensures r.after.timeStarts == if |r.after.flushed| == |s.flushed| then s.timeStarts else Advanced(s.timeStarts, dp.entries)
  {
    if MaxCount(dp) != 0 {
      ChunkPlanSteps(cfg, meta, dp);
      PublishAllCheckpoint(cfg, tr, s, CheckpointPath(cfg, key), dp.entries, SummaryPlan(meta, sd), ChunkPlan(cfg, meta, dp), r);
    } else {
      assert r == Run(s, false);
      assert s.flushed[..|s.flushed|] == s.flushed;
    }
  }

  /**
   * The checkpoint after a call never decreases, ends above every timestamp
   * of the collection once a chunk has completed, and leaves the entries of
   * event types without datapoints as they were.
   */
  lemma PostDataCheckpoint(cfg: Config, tr: Transport, s: State, meta: Meta, sd: Dict<Json>,
                           key: string, dp: Dict<map<int, Json>>, r: Run)
    requires sd.Valid() && dp.Valid()
    requires r == PostDataRun(cfg, tr, s, meta, sd, key, dp)
    ensures forall e :: e in s.timeStarts ==> e in r.after.timeStarts && r.after.timeStarts[e] >= s.timeStarts[e]
    ensures forall e :: !HasPoints(dp.entries, e) ==>
      && (e in r.after.timeStarts <==> e in s.timeStarts)
      && (e in s.timeStarts ==> r.after.timeStarts[e] == s.timeStarts[e])
    ensures |r.after.flushed| > |s.flushed| ==>
      forall e, t :: e in dp.entries && t in dp.entries[e] ==> e in r.after.timeStarts && t < r.after.timeStarts[e]
  {
    PostDataFlushes(cfg, tr, s, meta, sd, key, dp, r);
    AdvancedBounds(s.timeStarts, dp.entries);
    if |r.after.flushed| > |s.flushed| {
      forall e, t | e in dp.entries && t in dp.entries[e]
        ensures e in r.after.timeStarts && t < r.after.timeStarts[e]
      {
        assert HasPoints(dp.entries, e);
        assert t < NextStart(dp.entries[e]);
      }
    }
  }

  /**
   * A publish failure does not propagate: as long as every channel opens and
   * the metadata has both header fields, whatever `basic_publish` does and
   * whatever the message sizes, the call returns normally, hands every
   * composed message to the sender, runs every chunk step and rewrites the
   * checkpoint file once per step.
   */
  lemma PublishFailuresAreSwallowed(cfg: Config, tr: Transport, s: State, meta: Meta, sd: Dict<Json>,
                                    key: string, dp: Dict<map<int, Json>>, r: Run)
    requires sd.Valid() && dp.Valid()
    requires forall j: nat :: !tr.reply(j).ChannelError?
    requires HasEndpoints(meta)
    requires r == PostDataRun(cfg, tr, s, meta, sd, key, dp)
    ensures !r.raised
    ensures MaxCount(dp) != 0 ==>
      |r.after.attempts| == |s.attempts| + |SummaryPlan(meta, sd)| + |Flatten(ChunkPlan(cfg, meta, dp))|
    ensures |r.after.flushed| == |s.flushed| + ChunkCount(MaxCount(dp))
    ensures r.after.timeStarts == if ChunkCount(MaxCount(dp)) == 0 then s.timeStarts else Advanced(s.timeStarts, dp.entries)
  {
    PostDataFlushes(cfg, tr, s, meta, sd, key, dp, r);
    if MaxCount(dp) != 0 {
      var summaries := SummaryPlan(meta, sd);
      var plan := ChunkPlan(cfg, meta, dp);
      SummaryPlanBodies(meta, sd);
      ChunkPlanBodies(cfg, meta, dp);
      AttemptsOfWithoutRaise(cfg, tr, |s.attempts|, summaries, plan);
      PublishAllAttempts(cfg, tr, s, CheckpointPath(cfg, key), dp.entries, summaries, plan, r);
    }
  }

  /**
   * Every datapoint of an allowed event type is composed into a message of
   * the chunk its position gives it, which is one of the call's chunk steps:
   * the raw messages `publishRToMq` composes for that chunk include one for
   * the event type whose datapoints contain the timestamp with its value
   * unchanged.
   */
  lemma AllowedPointIsComposedInItsChunk(cfg: Config, meta: Meta, dp: Dict<map<int, Json>>, e: EventType, t: int)
    requires dp.Valid()
    requires e in dp.entries && e in cfg.allowedEvents && t in dp.entries[e]
    ensures ChunkNumber(dp.entries[e], t) < ChunkCount(MaxCount(dp))
    ensures exists m :: (0 <= m < |ChunkMessages(cfg, meta, dp, ChunkNumber(dp.entries[e], t))|
      && ChunkMessages(cfg, meta, dp, ChunkNumber(dp.entries[e], t))[m]
           == Message(e, RawBody(meta, ChunkOf(dp.entries[e], StepSize * ChunkNumber(dp.entries[e], t)))))
    ensures t in ChunkOf(dp.entries[e], StepSize * ChunkNumber(dp.entries[e], t))
  {
    var points := dp.entries[e];
    var i := ChunkNumber(points, t);
    MaxCountOfIsMax(dp.order, dp.entries);
    ChunkNumberInRange(points, t, MaxCount(dp));
    ChunkMembership(points, i, t);
    ChunkHasEventMessage(cfg, meta, dp, i, e);
  }

  /** Chunk `i` has a message for every allowed event type with datapoints in it, carrying that part of the chunk. */
  lemma ChunkHasEventMessage(cfg: Config, meta: Meta, dp: Dict<map<int, Json>>, i: nat, e: EventType)
    requires dp.Valid()
    requires e in dp.entries && e in cfg.allowedEvents && |ChunkOf(dp.entries[e], StepSize * i)| > 0
    ensures exists m :: (0 <= m < |ChunkMessages(cfg, meta, dp, i)|
      && ChunkMessages(cfg, meta, dp, i)[m] == Message(e, RawBody(meta, ChunkOf(dp.entries[e], StepSize * i))))
  {
    var c := Chunk(dp, StepSize * i);
    var msgs := RawMessages(cfg, meta, c.order, c.entries);
    assert c.entries[e] == ChunkOf(dp.entries[e], StepSize * i);
    RawMessagesOnePerEvent(cfg, meta, c.order, c.entries);
    var m :| 0 <= m < |msgs| && msgs[m].event == e;
    assert msgs[m] == Message(e, RawBody(meta, c.entries[e]));
    assert ChunkMessages(cfg, meta, dp, i) == msgs;
  }

  /**
   * A timestamp is published in no other chunk: a raw message of chunk `j`
   * for event type `e` that contains `t` means `j` is `t`'s chunk number.
   */
  lemma PointOnlyInItsChunk(cfg: Config, meta: Meta, dp: Dict<map<int, Json>>, j: nat, m: nat, t: int)
    requires dp.Valid()
    requires m < |ChunkMessages(cfg, meta, dp, j)|
    requires ChunkMessages(cfg, meta, dp, j)[m].body.RawBody?
    requires t in ChunkMessages(cfg, meta, dp, j)[m].body.datapoints
    ensures var e := ChunkMessages(cfg, meta, dp, j)[m].event;
      e in dp.entries && t in dp.entries[e] && j == ChunkNumber(dp.entries[e], t)
  {
    var c := Chunk(dp, StepSize * j);
    RawMessagesOnePerEvent(cfg, meta, c.order, c.entries);
    var e := ChunkMessages(cfg, meta, dp, j)[m].event;
    assert c.entries[e] == ChunkOf(dp.entries[e], StepSize * j);
    ChunkMembership(dp.entries[e], j, t);
  }
}
