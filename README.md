# RabbitMQ uploader: a verified model of `postData`

The perfSONAR probe's RabbitMQ uploader takes the metadata of a measurement
(`arguments`), the summaries of each event type (`summaries_data`) and the
new datapoints of each event type (`datapoints`, timestamp → value). It
publishes them to a RabbitMQ queue and then advances the per-event-type
checkpoint `time_starts`, which it also writes to a file.

`postData` works as follows:

- It first finds the largest datapoint count, `lenght_post`. When that is 0,
  it returns at once.
- It publishes one summary message per event type with truthy summaries
  (`publishSToMq`).
- It then cuts the datapoints into chunks of at most 100 timestamps per event
  type. For each chunk it publishes one raw message per allowed event type
  with datapoints in that chunk (`publishRToMq`). After each chunk it raises
  every checkpoint entry with datapoints to `max(old value or 0, largest
  timestamp + 1)` and rewrites the checkpoint file at `tmpDir + metadata_key`.

Every message goes through `SendMessagetoMQ`:

- It opens a channel and declares the queue. These two calls are outside
  any `try`.
- It drops a body larger than `maxMQmessageSize * 1000` bytes.
- It catches any failure of `basic_publish`, including a falsy result.

The model has seven modules:

- `Collections`: Python dictionaries keyed by event type. A dictionary is an
  iteration order plus a map. The module also has `sorted` and `max` over
  integer keys.
- `Batches`: `lenght_post`, the number of chunk steps, the chunk each step
  builds, and where each timestamp lands.
- `Checkpoints`: the checkpoint update rule and its laws.
- `Publisher`: message bodies, the outcome of one `SendMessagetoMQ` call, the
  fate of a run of messages sent one after another until the first
  exception, and the messages `publishSToMq` and `publishRToMq` compose.
- `Orchestrator`: one call of `postData` as a function of the uploader's
  state. The state is the log of composed messages with their outcomes,
  `time_starts`, and the list of checkpoint-file rewrites.
- `PostDataLaws`: properties of that function.
- `Uploader`: the class `RabbitMQUploader`. Its imperative methods run the
  Python loops, and each is proved against the functions above.

The broker is an oracle, `Transport`:

- `measure(body)` stands for `sys.getsizeof(json.dumps(body))`.
- `reply(k)` is what the connection does on the k-th message the uploader
  composes: the channel fails, or `basic_publish` is acknowledged, returns a
  falsy result, or raises.

An exception that escapes `postData` is modelled as the result
`raised == true`, and the state is left as the exception left it. Two
exceptions are modelled: a channel failure and a `KeyError` on a missing
header field. Other calls outside any `try` could also raise; "## Left out"
lists them.

## Model

| member | source | states |
|---|---|---|
| Uploader.RabbitMQUploader.PostData | libexec/probes/worker-scripts/uploader/rabbitmquploader.py:88-123 | The new log, `time_starts`, checkpoint rewrites and raised flag are exactly `PostDataRun` of the old state: an early return when the count is 0, the summaries only when `summaries_data` is non-empty, then the chunk loop. |
| Uploader.MaxDatapointCount | libexec/probes/worker-scripts/uploader/rabbitmquploader.py:91-94 | The loop's result is -1 exactly when there are no event types. Otherwise it bounds every event type's datapoint count and equals one of them. |
| Uploader.RabbitMQUploader.PublishChunks | libexec/probes/worker-scripts/uploader/rabbitmquploader.py:101-122 | The loop over `range(0, lenght_post, 100)` gives the state and raised flag of `RunBatches` over the chunk plan, one run of messages per step. |
| Uploader.RabbitMQUploader.PublishChunk | libexec/probes/worker-scripts/uploader/rabbitmquploader.py:103-122 | One step either raises while publishing its chunk, or publishes it, advances `time_starts` and appends one file rewrite. Either way the rest of the loop continues as `RunBatches` does. |
| Uploader.BuildChunk | libexec/probes/worker-scripts/uploader/rabbitmquploader.py:103-109 | Builds the chunk dictionary of a step: every event type in the same order, mapped to its window of sorted timestamps with their values. |
| Uploader.ChunkPart | libexec/probes/worker-scripts/uploader/rabbitmquploader.py:105-109 | One event type's part of a chunk is empty without datapoints, and is otherwise its window `sorted(keys)[step:step+100]` with its own values. |
| Uploader.CopyPoints | libexec/probes/worker-scripts/uploader/rabbitmquploader.py:108-109 | The copy loop yields exactly the timestamps considered, each with its datapoint. |
| Uploader.RabbitMQUploader.AdvanceCheckpoints | libexec/probes/worker-scripts/uploader/rabbitmquploader.py:113-119 | The checkpoint loop leaves `time_starts == Advanced(old time_starts, datapoints)`. Log and file rewrites are unchanged. |
| Uploader.RabbitMQUploader.AdvanceEntry | libexec/probes/worker-scripts/uploader/rabbitmquploader.py:114-119 | An event type with datapoints gets `max(old value or 0, max(keys) + 1)`. One without datapoints leaves `time_starts` unchanged. |
| Uploader.RabbitMQUploader.SendMessagetoMQ | libexec/probes/worker-scripts/uploader/rabbitmquploader.py:43-65 | The channel fails exactly when the broker says so. On an open channel, a body is passed to `basic_publish` exactly when it is within `maxMQmessageSize * 1000`, and discarded with a normal return exactly when it is over. |
| Uploader.RabbitMQUploader.Dispatch | libexec/probes/worker-scripts/uploader/rabbitmquploader.py:32-41 | Composing the header raises when an endpoint key is missing; otherwise the body goes to `SendMessagetoMQ`. The log grows by exactly that one attempt. |
| Uploader.RabbitMQUploader.PublishSummary | libexec/probes/worker-scripts/uploader/rabbitmquploader.py:30-41 | One turn of the summary loop: a falsy summary adds nothing, a truthy one adds its attempt. |
| Uploader.RabbitMQUploader.PublishSToMq | libexec/probes/worker-scripts/uploader/rabbitmquploader.py:26-41 | The log grows by the attempts of `SummaryMessages` in dictionary order, up to the first exception. The call raises exactly when that run did. The checkpoint is untouched. |
| Uploader.RabbitMQUploader.PublishRaw | libexec/probes/worker-scripts/uploader/rabbitmquploader.py:71-85 | One turn of the raw loop: an event type that is not allowed or has no datapoints adds nothing; otherwise it adds its attempt. |
| Uploader.RabbitMQUploader.PublishRToMq | libexec/probes/worker-scripts/uploader/rabbitmquploader.py:68-85 | The log grows by the attempts of `RawMessages` of the chunk, up to the first exception. The call raises exactly when that run did. The checkpoint is untouched. |
| Publisher.SendOutcome | libexec/probes/worker-scripts/uploader/rabbitmquploader.py:43-65 | The outcome is a channel failure exactly on a channel error. On an open channel it is published exactly when the body is within the limit, and discarded exactly when it is over. It is delivered exactly when it is acknowledged and within the limit. It never raises `KeyError`. |
| Publisher.OutcomeOf | libexec/probes/worker-scripts/uploader/rabbitmquploader.py:32-33 | A message raises `KeyError` exactly when `input_source` or `input_destination` is missing from the metadata. Otherwise its outcome is that of `SendMessagetoMQ`. |
| Publisher.DeliverSpec | libexec/probes/worker-scripts/uploader/rabbitmquploader.py:29-41 | In a run of messages, message `i` gets the broker's outcome for number `k + i`. Only the last attempt can raise, and a run stops short only when it raised. |
| Publisher.DeliverAppend | libexec/probes/worker-scripts/uploader/rabbitmquploader.py:69-85 | Sending two runs in sequence is sending their concatenation. After an exception, nothing more is tried. |
| Publisher.DeliverGuarded | libexec/probes/worker-scripts/uploader/rabbitmquploader.py:49-54 | Every body of a run that reaches `basic_publish` was within the size limit. |
| Publisher.DeliverWithoutRaise | libexec/probes/worker-scripts/uploader/rabbitmquploader.py:56-64 | Without channel errors, and with both header keys present, a run tries every message and never raises, whatever `basic_publish` does. |
| Publisher.SummaryMessagesOnePerEvent | libexec/probes/worker-scripts/uploader/rabbitmquploader.py:29-39 | `publishSToMq` composes exactly one message per event type with truthy summaries and none for the others. Each message carries the metadata and those summaries unchanged, and there are no duplicates. |
| Publisher.RawMessagesOnePerEvent | libexec/probes/worker-scripts/uploader/rabbitmquploader.py:69-84 | `publishRToMq` composes exactly one message per allowed event type with datapoints in the chunk and none for the others. Each message carries the metadata and that part of the chunk. |
| Publisher.SummaryMessagesAppend | libexec/probes/worker-scripts/uploader/rabbitmquploader.py:29-41 | The summary messages of `a + b` are those of `a` followed by those of `b`. |
| Publisher.RawMessagesAppend | libexec/probes/worker-scripts/uploader/rabbitmquploader.py:69-85 | The raw messages of `a + b` are those of `a` followed by those of `b`. |
| Batches.MaxCountOfIsMax | libexec/probes/worker-scripts/uploader/rabbitmquploader.py:91-94 | `lenght_post` bounds every event type's datapoint count and is reached by one of them. |
| Batches.ChunkCountSteps | libexec/probes/worker-scripts/uploader/rabbitmquploader.py:102 | Step `100 * i` is visited by `range(0, n, 100)` exactly when `i < ChunkCount(n)`. |
| Batches.ChunkMembership | libexec/probes/worker-scripts/uploader/rabbitmquploader.py:106-109 | A timestamp is in chunk `i` exactly when it is a key of the event type and its sorted position divided by 100 is `i`. So it lands in exactly one chunk. |
| Batches.ChunkAtMostStepSize | libexec/probes/worker-scripts/uploader/rabbitmquploader.py:101-107 | No event type contributes more than 100 timestamps to a chunk. |
| Batches.ChunksOrdered | libexec/probes/worker-scripts/uploader/rabbitmquploader.py:107 | Every timestamp of an earlier chunk is below every timestamp of a later chunk. |
| Batches.ChunkNumberInRange | libexec/probes/worker-scripts/uploader/rabbitmquploader.py:102-107 | Every timestamp's chunk number is one of the steps the loop visits. |
| Checkpoints.AdvancedBounds | libexec/probes/worker-scripts/uploader/rabbitmquploader.py:113-119 | The update never lowers an entry. It leaves an event type with datapoints above all its timestamps, at either the old value or `max + 1`. It leaves the others untouched. |
| Checkpoints.AdvancedIdempotent | libexec/probes/worker-scripts/uploader/rabbitmquploader.py:113-119 | Repeating the update with the same collection changes nothing, so the chunks after the first leave the checkpoint as the first left it. |
| PostDataLaws.SummaryAttemptsOnePerEvent | libexec/probes/worker-scripts/uploader/rabbitmquploader.py:29-41 | Each summary attempt of a call is for an event type of `summaries_data` with truthy summaries and carries them unchanged. No event type is attempted twice. |
| Publisher.Deliver | libexec/probes/worker-scripts/uploader/rabbitmquploader.py:29-41 | The send-until-exception loop tries at most every message, and tries the first one when there is one. `DeliverSpec` fixes each attempt's outcome. |
| Publisher.SummaryMessages | libexec/probes/worker-scripts/uploader/rabbitmquploader.py:29-41 | Composes at most one message per event type; `SummaryMessagesOnePerEvent` states which. |
| Publisher.RawMessages | libexec/probes/worker-scripts/uploader/rabbitmquploader.py:69-85 | Composes at most one message per event type of the chunk; `RawMessagesOnePerEvent` states which. |
| Batches.MaxCountOf | libexec/probes/worker-scripts/uploader/rabbitmquploader.py:91-94 | `lenght_post` is at least -1, and is -1 exactly when there are no event types. |
| Batches.ChunkCount | libexec/probes/worker-scripts/uploader/rabbitmquploader.py:102 | The number of steps of `range(0, n, 100)`: none when `n <= 0`; otherwise the last step starts below `n` and the steps cover `n`. |
| Batches.Window | libexec/probes/worker-scripts/uploader/rabbitmquploader.py:107 | The slice `ks[step:step+100]` has at most 100 elements, stops at the end of `ks`, has none when `step` is past the end, and element `q` is `ks[step + q]`. |
| Batches.PointsOf | libexec/probes/worker-scripts/uploader/rabbitmquploader.py:108-109 | The copied dictionary holds exactly the timestamps considered, each with its own datapoint. |
| Batches.ChunkOf | libexec/probes/worker-scripts/uploader/rabbitmquploader.py:105-109 | One event type's part of a chunk holds exactly the timestamps of its sorted window, with their own datapoints. |
| Batches.Chunk | libexec/probes/worker-scripts/uploader/rabbitmquploader.py:103-109 | The chunk is a valid dictionary over the same event types in the same order, and each part has only keys of that event type. |
| Checkpoints.AdvancedAt | libexec/probes/worker-scripts/uploader/rabbitmquploader.py:114-119 | An entry never drops below its old value. An event type with datapoints ends at least at its old value or 0, and above all its timestamps. Any other event type is left as it was. |
| Checkpoints.Advanced | libexec/probes/worker-scripts/uploader/rabbitmquploader.py:113-119 | After the checkpoint loop, an event type has an entry exactly when it had one or has datapoints. |
| Orchestrator.RunBatches | libexec/probes/worker-scripts/uploader/rabbitmquploader.py:102-122 | Definition, with no contract of its own, of the chunk loop. Each step publishes the step's run of messages and stops on an exception. Otherwise it sets `time_starts` to `Advanced` and appends a snapshot. `RunBatchesAttempts` and `RunBatchesCheckpoint` state what it does. |
| Orchestrator.PublishAll | libexec/probes/worker-scripts/uploader/rabbitmquploader.py:98-122 | Definition, with no contract of its own, of the call past the early return. It publishes the summaries, then runs the chunk loop unless they raised. `PublishAllAttempts` and `PublishAllCheckpoint` state what it does. |
| Orchestrator.PostDataRun | libexec/probes/worker-scripts/uploader/rabbitmquploader.py:88-122 | Definition, with no contract of its own, of one call. It returns unchanged when the count is 0, and otherwise runs `PublishAll` with the summaries, if any, and the chunk plan. The `PostDataLaws` lemmas state what it does. |
| PostDataLaws.RunBatchesAttempts | libexec/probes/worker-scripts/uploader/rabbitmquploader.py:102-111 | The chunk loop's attempts are the concatenated chunk runs, sent until the first exception. The loop raises exactly when they did. |
| PostDataLaws.RunBatchesCheckpoint | libexec/probes/worker-scripts/uploader/rabbitmquploader.py:113-122 | Every completed chunk rewrites the file with the same snapshot. Without an exception there is one rewrite per chunk. `time_starts` is advanced once a chunk completes. |
| PostDataLaws.NothingNewShortCircuits | libexec/probes/worker-scripts/uploader/rabbitmquploader.py:95-97 | When every event type has zero datapoints, the call changes nothing and does not raise. |
| PostDataLaws.EmptyCollectionHasNoChunks | libexec/probes/worker-scripts/uploader/rabbitmquploader.py:91-102 | With no event types at all, the count stays -1. The summaries are still published, but there are no chunks, and the checkpoint and its file stay as they were. |
| PostDataLaws.PostDataAttempts | libexec/probes/worker-scripts/uploader/rabbitmquploader.py:95-111 | A call appends exactly `CallAttempts` to the log, and raises exactly when its last attempt did. |
| PostDataLaws.SummariesBeforeRaw | libexec/probes/worker-scripts/uploader/rabbitmquploader.py:98-111 | A call has at most one summary attempt per event type, each for an event type with truthy summaries and carrying them unchanged. Its attempts start with all of them, and every later attempt carries datapoints. |
| PostDataLaws.AttemptsIgnoreCheckpoint | libexec/probes/worker-scripts/uploader/rabbitmquploader.py:102-119 | The messages sent and their outcomes do not depend on `time_starts` or the checkpoint file. |
| PostDataLaws.CallIsSizeGuarded | libexec/probes/worker-scripts/uploader/rabbitmquploader.py:49-54 | Every body of a call that reaches `basic_publish` was within the size limit. |
| PostDataLaws.PostDataFlushes | libexec/probes/worker-scripts/uploader/rabbitmquploader.py:113-122 | The file is rewritten at most once per chunk step, and exactly once per step without an exception. Each rewrite holds the new `time_starts`, which is the old one or the old one `Advanced`. |
| PostDataLaws.PostDataCheckpoint | libexec/probes/worker-scripts/uploader/rabbitmquploader.py:113-119 | The checkpoint never decreases and leaves event types without datapoints alone. After a completed chunk, it lies above every timestamp of the collection. |
| PostDataLaws.PublishFailuresAreSwallowed | libexec/probes/worker-scripts/uploader/rabbitmquploader.py:56-64 | With working channels and both header keys, a call never raises, whatever `basic_publish` does and whatever the sizes. It tries every message, and it runs and checkpoints every chunk step. |
| PostDataLaws.AllowedPointIsComposedInItsChunk | libexec/probes/worker-scripts/uploader/rabbitmquploader.py:102-111 | Every datapoint of an allowed event type is composed, with its value, into a raw message of the chunk numbered by its sorted position. That chunk is one the loop visits. |
| PostDataLaws.PointOnlyInItsChunk | libexec/probes/worker-scripts/uploader/rabbitmquploader.py:103-111 | A raw message of chunk `j` containing a timestamp means `j` is that timestamp's chunk number. No datapoint is published in two chunks. |

## Left out

- The constructor (lines 7-22): the configuration and broker connection are given as values (`Config`, `Transport`); `readConfigFile`, `pika` credentials and the connection attempt are not modelled, and a failed connection is one more way `reply(k)` can report a channel error.
- `json.dumps` and `sys.getsizeof` are not modelled; the byte size of a body is the oracle `Transport.measure`.
- The header fields other than the two looked-up endpoint keys (event type, `time.time()` timestamp, destination topic) are not modelled; the header is never sent by the source, so only its `KeyError` matters.
- Logging (`add2log`) and `BasicProperties` are left out: they change none of the modelled state.
- Only two exceptions are modelled: opening the channel or declaring the queue (lines 46-47) and a missing endpoint key (lines 32-33, 77-78). Several other calls sit outside any `try` and would also end `postData` if they raised. These are `json.dumps` (line 49), `channel.close()` (lines 53 and 65), and opening or writing the checkpoint file (lines 120-122). A failed write would end the call after that chunk's messages and before any later chunk. The model assumes none of these raise.
- Publisher.SizeLimit: assumes `maxMQmessageSize`, as returned by `readConfigFile` (line 9), is an integer number of kilobytes. The source does not show the return type; were it a string, line 45 would repeat it rather than multiply.
- The checkpoint file is modelled as the list of snapshots written (path and mapping); the JSON encoding and the file system are not modelled.
- The base class `Uploader` (and `self.summary`, `self.debug`) is not part of this model. Only `allowedEvents`, `tmpDir` and `time_starts` come from it. `maxMQmessageSize` is read by this class's constructor (line 9).
- The parameters `event_types` and `summaries`, and the local `size_limit` of `publishSToMq` (line 28), are never used by the source and are left out.
- Python's dictionaries are modelled with an explicit iteration order; the order itself (insertion order) is an input.
- Integers are unbounded, as in Python.
- Behaviours of the code that the model keeps as written: the checkpoint file is rewritten once per chunk, not once per call; the new start is taken over the whole collection, so every chunk after the first writes the same checkpoint (`Checkpoints.AdvancedIdempotent`); the checkpoint advances whether or not the chunk's messages were delivered; a channel failure and a missing endpoint key propagate out of `postData`; and an empty `datapoints` does not return early.
