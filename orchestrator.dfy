/**
 * The publish orchestrator as a function of the uploader's state: what one
 * call of `postData` does to the log of composed messages, to `time_starts`
 * and to the checkpoint file, and the properties of that run.
 */
module Orchestrator {
  import opened Collections
  import opened Batches
  import opened Checkpoints
  import opened Publisher

  /** One rewrite of the checkpoint file: its path and the mapping written to it. */
  datatype Snapshot = Snapshot(path: string, checkpoint: Checkpoint)

  /**
   * The uploader's state: every message composed so far with its outcome,
   * `time_starts`, and every rewrite of the checkpoint file.
   */
  datatype State = State(attempts: seq<Attempt>, timeStarts: Checkpoint, flushed: seq<Snapshot>)

  /** The state after a call, and whether the call ended with an exception. */
  datatype Run = Run(after: State, raised: bool)

  /** `self.tmpDir + metadata_key`. */
  function CheckpointPath(cfg: Config, key: string): string
  {
    cfg.tmpDir + key
  }

  /** The messages `publishRToMq` composes for chunk number `i`. */
  function ChunkMessages(cfg: Config, meta: Meta, dp: Dict<map<int, Json>>, i: nat): seq<Message>
    requires dp.Valid()
  {
    var c := Chunk(dp, StepSize * i);
    RawMessages(cfg, meta, c.order, c.entries)
  }

  /** The messages of every chunk step `range(0, lenght_post, step_size)` visits, one run per step. */
  function ChunkPlan(cfg: Config, meta: Meta, dp: Dict<map<int, Json>>): seq<seq<Message>>
    requires dp.Valid()
  {
    seq(ChunkCount(MaxCount(dp)), j requires 0 <= j => ChunkMessages(cfg, meta, dp, j))
  }

  /** The runs of messages, one after the other. */
  function Flatten(batches: seq<seq<Message>>): seq<Message>
    decreases |batches|
  {
    if batches == [] then [] else batches[0] + Flatten(batches[1..])
  }

  /**
   * The chunk loop over the runs `batches`: publish a run, then update
   * `time_starts` from the whole collection `entries` and rewrite the
   * checkpoint file at `path`, whatever became of the messages; an
   * exception ends the loop before the update.
   */
  function RunBatches(cfg: Config, tr: Transport, s: State, path: string,
                      entries: map<EventType, map<int, Json>>, batches: seq<seq<Message>>): Run
    decreases |batches|
  {
    if batches == [] then Run(s, false)
    else
      var sent := Deliver(cfg, tr, |s.attempts|, batches[0]);
      if Raised(sent) then Run(s.(attempts := s.attempts + sent), true)
      else
        var ts := Advanced(s.timeStarts, entries);
        RunBatches(cfg, tr, State(s.attempts + sent, ts, s.flushed + [Snapshot(path, ts)]), path, entries, batches[1..])
  }

  /** The summary messages of a call: those `publishSToMq` composes, or none when `summaries_data` is empty. */
  function SummaryPlan(meta: Meta, sd: Dict<Json>): seq<Message>
    requires sd.Valid()
  {
    if |sd.order| == 0 then [] else SummaryMessages(meta, sd.order, sd.entries)
  }

  /**
   * A call past the early return, given its summary messages and its runs of
   * chunk messages: publish the summaries, then, unless that raised, run the
   * chunk loop.
   */
  function PublishAll(cfg: Config, tr: Transport, s: State, path: string, entries: map<EventType, map<int, Json>>,
                      summaries: seq<Message>, plan: seq<seq<Message>>): Run
  {
    var sent := Deliver(cfg, tr, |s.attempts|, summaries);
    if Raised(sent) then Run(s.(attempts := s.attempts + sent), true)
    else RunBatches(cfg, tr, s.(attempts := s.attempts + sent), path, entries, plan)
  }

  /** One call of `postData(arguments, ..., summaries_data, metadata_key, datapoints)` from state `s`. */
  function PostDataRun(cfg: Config, tr: Transport, s: State, meta: Meta, sd: Dict<Json>,
                       key: string, dp: Dict<map<int, Json>>): Run
    requires sd.Valid() && dp.Valid()
  {
    if MaxCount(dp) == 0 then Run(s, false)
    else PublishAll(cfg, tr, s, CheckpointPath(cfg, key), dp.entries, SummaryPlan(meta, sd), ChunkPlan(cfg, meta, dp))
  }

  /**
   * The attempts of a sequence of messages followed by runs of messages,
   * the first as message `k`, until the first exception.
   */
  function AttemptsOf(cfg: Config, tr: Transport, k: nat, summaries: seq<Message>, plan: seq<seq<Message>>): seq<Attempt>
  {
    var sent := Deliver(cfg, tr, k, summaries);
    if Raised(sent) then sent else sent + Deliver(cfg, tr, k + |sent|, Flatten(plan))
  }

  /** The summary attempts of a call, the first as message `k`: none when it returns early. */
  function SummaryAttempts(cfg: Config, tr: Transport, k: nat, meta: Meta,
                           sd: Dict<Json>, dp: Dict<map<int, Json>>): seq<Attempt>
    requires sd.Valid() && dp.Valid()
  {
    if MaxCount(dp) == 0 then [] else Deliver(cfg, tr, k, SummaryPlan(meta, sd))
  }

  /**
   * The messages one call composes and what became of each, the first as
   * message `k`: the summaries, then, unless they raised, the raw messages
   * of chunk 0, chunk 1, ... until the first exception.
   */
  function CallAttempts(cfg: Config, tr: Transport, k: nat, meta: Meta,
                        sd: Dict<Json>, dp: Dict<map<int, Json>>): seq<Attempt>
    requires sd.Valid() && dp.Valid()
  {
    if MaxCount(dp) == 0 then [] else AttemptsOf(cfg, tr, k, SummaryPlan(meta, sd), ChunkPlan(cfg, meta, dp))
  }
}
