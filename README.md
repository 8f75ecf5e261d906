# DeepMetrics relay core in Dafny

DeepMetrics collects metric snapshots from devices, relays them through an
aggregator SDK to a FastAPI server, and sends commands back from the server to
the devices. This project models the sequential core of that relay and proves
properties of the model. The core covers:

- **Snapshot merge** (`DtoModels`). `DeviceSnapshot.merge` is last-write-wins per metric, and the timestamp becomes the later of the two. Merging different devices is an error that leaves the target unchanged.
- **Retry queue** (`RetryQueues`). A FIFO with `enqueue`, an all-or-nothing `dequeue_all` and `size`.
- **Aggregator SDK** (`AggregatorApis`). It covers:
  - a per-device snapshot buffer in insertion order;
  - the upload cycle and the retry cycle;
  - the classification of `_upload` outcomes;
  - the interval rule of `run` as a step function over integer time;
  - the device registry and `_handle_command`.
- **Command poller** (`CommandPoller`). One poll relays and acks commands; the poll loop swallows failures.
- **Server command queue** (`CommandQueues`). Counter-numbered commands, an unacked read that filters, and an `ack` that removes by aggregator and id.
- **Stand-alone client aggregator** (`LegacyAggregator`). `aggregate` drains the input queue and folds the dict items with `update`. `stop` sets a flag that the run loop checks.
- **Overview grouping** (`Overview`). `get_overview` filters the rows, groups them into aggregator → device → metric in first-appearance order, tracks each device's latest time, and renders the nested lists.
- **Metric history parameters** (`MetricHistory`). The order of the parameter checks in `get_metric_history`, the time window, the sort and the page offset.
- **ORM helpers** (`OrmHelpers`). `get_device_by_name`, `get_latest_snapshot` and `get_metric_value`.
- **Configuration** (`EnvConfig`, `ServerConfig`). The recursive `${VAR}` substitution that both config loaders share, and the defaults chosen by the server's `Config.__init__`.
- **Timestamp text** (`TimestampFormat`). `format_timestamp`.

Supporting modules:

- `Wrappers`: `Option` and `Result`.
- `OrderedDicts`: a Python dict with its insertion-ordered key list.
- `DateTimes`: Python datetimes as calendar fields, compared field by field.
- `Devices`: devices and command records. A device's handler is not run; its calls are recorded.

Each method guarded by a lock in the source is modelled as one atomic step.
Parts of the system that are not sequential computation are parameters of the model:

- HTTP results are an outcome parameter: `ConnectFail`, `HttpError` or `Ok`.
- The fetched command lists are an input.
- Clock readings are integer parameters.
- The environment is a map.
- Database rows are a sequence.

Every model has a partner specification. Where the source changes state:

- Classes carry the mutated fields.
- Methods are proved against functions of the old state.
- The properties the source promises are proved about those functions as lemmas.

## Model

| member | source | states |
|---|---|---|
| DtoModels.MergeValues | metric_aggregator_sdk/dto_models.py:13-24 | error exactly when the device names differ; otherwise the name is kept, the keys are the union, incoming readings win, the target's other readings stay, and the timestamp is the larger of the two |
| DtoModels.MergeIdempotent | metric_aggregator_sdk/dto_models.py:21-24 | merging a snapshot with an identical copy gives the same snapshot |
| DtoModels.MergeTimestampMonotone | metric_aggregator_sdk/dto_models.py:23-24 | a merge never moves the timestamp backwards |
| DtoModels.MergeAllLastWriteWins | metric_aggregator_sdk/dto_models.py:13-24 | merging a series of the same device's snapshots succeeds; each metric holds the reading of the last snapshot that has it; the keys are the union; the timestamp is the maximum of the series and is one of its timestamps |
| DtoModels.DeviceSnapshot.constructor | metric_aggregator_sdk/dto_models.py:7-11 | the new snapshot holds the given name, metrics and timestamp |
| DtoModels.DeviceSnapshot.Merge | metric_aggregator_sdk/dto_models.py:13-24 | different names: error, snapshot unchanged; otherwise the snapshot becomes the merge of its old contents with the other's |
| DtoModels.NewAggregatorData | metric_aggregator_sdk/dto_models.py:26-30 | the payload keeps guid and name and defaults to an empty snapshot list |
| RetryQueues.RetryQueue.constructor | metric_aggregator_sdk/metric_aggregator_sdk/retry_queue.py:14-17 | a new queue is empty |
| RetryQueues.RetryQueue.Enqueue | metric_aggregator_sdk/metric_aggregator_sdk/retry_queue.py:19-22 | the item is appended at the tail, the size grows by exactly one, and earlier items keep their places |
| RetryQueues.RetryQueue.DequeueAll | metric_aggregator_sdk/metric_aggregator_sdk/retry_queue.py:24-31 | returns exactly the contents in insertion order and leaves the queue empty |
| RetryQueues.RetryQueue.Size | metric_aggregator_sdk/metric_aggregator_sdk/retry_queue.py:33-35 | returns the number of items and changes nothing |
| RetryQueues.RetryQueue.Perform | metric_aggregator_sdk/metric_aggregator_sdk/retry_queue.py:19-35 | a series of enqueues and drains leaves the contents, with each drain's result, that the replay function computes |
| RetryQueues.NoLossNoDuplication | metric_aggregator_sdk/metric_aggregator_sdk/retry_queue.py:19-31 | the drains in turn, then what is still queued, are exactly the starting contents followed by every pushed item |
| RetryQueues.DrainReturnsPushesSinceLastDrain | metric_aggregator_sdk/metric_aggregator_sdk/retry_queue.py:19-31 | a queue that starts empty holds exactly the items pushed since the last drain, so the next drain returns that many |
| RetryQueues.SecondDrainIsEmpty | metric_aggregator_sdk/metric_aggregator_sdk/retry_queue.py:29-31 | a drain right after a drain returns `[]` and leaves the queue empty |
| AggregatorApis.Upload | metric_aggregator_sdk/metric_aggregator_sdk/aggregator_api.py:136-166 | false exactly on a failed connection; an HTTP error status counts as delivered |
| AggregatorApis.Requeued | metric_aggregator_sdk/metric_aggregator_sdk/aggregator_api.py:113-115 | no payload, nothing requeued; a payload is requeued in full exactly when the connection failed |
| AggregatorApis.Advance | metric_aggregator_sdk/metric_aggregator_sdk/aggregator_api.py:61-68 | a cycle's last firing time moves to now exactly when its period has elapsed |
| AggregatorApis.Tick | metric_aggregator_sdk/metric_aggregator_sdk/aggregator_api.py:58-68 | one loop tick advances the upload and retry cycles independently, each by its own period |
| AggregatorApis.FiringsAreSpaced | metric_aggregator_sdk/metric_aggregator_sdk/aggregator_api.py:55-68 | over any series of ticks a cycle fires only at ticks; its first firing is at least one period after the start, and any two firings are at least one period apart |
| AggregatorApis.FiringsStep | metric_aggregator_sdk/metric_aggregator_sdk/aggregator_api.py:58-68 | one more tick: the cycle fires at it when due, and the later firings follow from the advanced time |
| AggregatorApis.Nows | metric_aggregator_sdk/metric_aggregator_sdk/aggregator_api.py:60 | the clock readings of the iterations, one per iteration, in order |
| AggregatorApis.AggregatorApi.BufferedSnapshots | metric_aggregator_sdk/metric_aggregator_sdk/aggregator_api.py:101 | the buffered snapshots in key order, each filed under its own device name |
| AggregatorApis.AggregatorApi.constructor | metric_aggregator_sdk/metric_aggregator_sdk/aggregator_api.py:22-44 | identity and periods as given; empty buffer, registry and retry queue |
| AggregatorApis.AggregatorApi.RegisterDevice | metric_aggregator_sdk/metric_aggregator_sdk/aggregator_api.py:46-51 | the device is filed under its name, replacing an earlier one; the buffer is unchanged |
| AggregatorApis.AggregatorApi.AddSnapshot | metric_aggregator_sdk/metric_aggregator_sdk/aggregator_api.py:77-88 | a buffered device: same buffer, and its entry object becomes the merge; a new device: the caller's object itself is appended under its name; at most one entry per device either way |
| AggregatorApis.AggregatorApi.UploadMergedData | metric_aggregator_sdk/metric_aggregator_sdk/aggregator_api.py:90-115 | empty buffer: no payload and a retry queue left as it was; otherwise the buffer is emptied, the payload carries this aggregator's guid and name with every drained snapshot, and on a failed connection each snapshot is appended to the retry queue in payload order |
| AggregatorApis.AggregatorApi.FlushRetryQueue | metric_aggregator_sdk/metric_aggregator_sdk/aggregator_api.py:117-134 | empty drain: no payload; otherwise the payload carries the drained items, which are re-enqueued in order on a failed connection and gone otherwise |
| AggregatorApis.AggregatorApi.RunIteration | metric_aggregator_sdk/metric_aggregator_sdk/aggregator_api.py:58-68 | one loop iteration runs the upload cycle when it is due, then the retry cycle when it is due, with the effects above, and advances the schedule by `Tick` |
| AggregatorApis.AggregatorApi.Run | metric_aggregator_sdk/metric_aggregator_sdk/aggregator_api.py:53-70 | over any series of loop iterations the upload and retry cycles run exactly at their `Firings` over the clock readings, so `FiringsAreSpaced` applies to the running loop; the registry is unchanged |
| AggregatorApis.AggregatorApi.HandleCommand | metric_aggregator_sdk/metric_aggregator_sdk/aggregator_api.py:168-185 | a handler call happens exactly when the device name is non-empty and registered; it goes to that device, with the whole command object |
| CommandPoller.RelayOf | metric_aggregator_sdk/metric_aggregator_sdk/command_poller.py:54-74 | a command causes at most one call, and one exactly when it is well formed and its device is registered |
| CommandPoller.AckOf | metric_aggregator_sdk/metric_aggregator_sdk/command_poller.py:54-74 | a command is acknowledged exactly when it is well formed |
| CommandPoller.WellFormedOnly | metric_aggregator_sdk/metric_aggregator_sdk/command_poller.py:59-61 | holds exactly the commands with a device name and a command string |
| CommandPoller.PollCommands | metric_aggregator_sdk/metric_aggregator_sdk/command_poller.py:48-78 | the calls made are `PollCalls` and the ack sent is `PollAck`: with no raising handler, the relays of the commands in order and an ack with the ack ids exactly when that list is non-empty; when the handler called for command `k` raises, the relays of the commands up to and including `k` and no ack |
| CommandPoller.RaisingHandlerAbortsPoll | metric_aggregator_sdk/metric_aggregator_sdk/command_poller.py:63-78 | a raising handler for command `k` means no ack; the poll's last call is the one that raised, and the relays of the later commands never happen |
| CommandPoller.NoRaisePollsAll | metric_aggregator_sdk/metric_aggregator_sdk/command_poller.py:54-78 | when no handler raises, every command is relayed, and the ack with the ack ids is sent exactly when there are any |
| CommandPoller.RelaysAppend | metric_aggregator_sdk/metric_aggregator_sdk/command_poller.py:54-74 | relays and ack ids of a concatenation are the concatenation of each part's, so received order is kept |
| CommandPoller.MalformedIsSkipped | metric_aggregator_sdk/metric_aggregator_sdk/command_poller.py:59-61 | a command without device name or command string is neither relayed nor acknowledged |
| CommandPoller.RegisteredIsRelayedAndAcked | metric_aggregator_sdk/metric_aggregator_sdk/command_poller.py:63-74 | a well-formed command for a registered device calls that device once with the command string and, in a poll where no handler raises, is acknowledged |
| CommandPoller.UnregisteredIsAckedOnly | metric_aggregator_sdk/metric_aggregator_sdk/command_poller.py:68-74 | a well-formed command for an unknown device makes no call but is acknowledged |
| CommandPoller.AckIdsAreWellFormedIds | metric_aggregator_sdk/metric_aggregator_sdk/command_poller.py:52-74 | the ack list has one entry per well-formed command, in received order, each that command's id |
| CommandPoller.RelaysAreRegisteredCommands | metric_aggregator_sdk/metric_aggregator_sdk/command_poller.py:63-67 | a call is made exactly for the well-formed commands naming a registered device, with that device and command string |
| CommandPoller.Run | metric_aggregator_sdk/metric_aggregator_sdk/command_poller.py:21-30 | the poll loop makes the calls and sends the acks of each poll in turn; a failed poll contributes nothing, and a poll whose handler raised makes its calls up to that handler and sends no ack |
| CommandPoller.RunCallsAppend | metric_aggregator_sdk/metric_aggregator_sdk/command_poller.py:23-28 | the calls over two stretches of polling are those of the first, then those of the second |
| CommandPoller.RunAcksAppend | metric_aggregator_sdk/metric_aggregator_sdk/command_poller.py:23-28 | the acks over two stretches of polling are those of the first, then those of the second |
| CommandPoller.FailedPollIsSwallowed | metric_aggregator_sdk/metric_aggregator_sdk/command_poller.py:25-28 | a failed poll makes no call and the polls after it proceed as if it had not happened |
| CommandPoller.FailedPollSendsNoAck | metric_aggregator_sdk/metric_aggregator_sdk/command_poller.py:25-28 | a failed poll sends no ack and the polls after it proceed as if it had not happened |
| CommandPoller.RunCallsPair | metric_aggregator_sdk/metric_aggregator_sdk/command_poller.py:23-28 | the calls of two polls in a row are those of the first, then those of the second |
| CommandPoller.AbortedBatchIsRelayedAgain | metric_aggregator_sdk/metric_aggregator_sdk/command_poller.py:21-28 | after a poll whose handler for command `k` raised, the unacked batch is fetched again and relayed in full: the commands up to `k` reach their devices twice |
| CommandPoller.AbortedBatchIsAckedLater | metric_aggregator_sdk/metric_aggregator_sdk/command_poller.py:21-28 | the aborted poll sends no ack; the acks of the two polls are those of the second alone |
| CommandQueues.Numbered | server/command_queue.py:21-22 | the queued command carries the given id and the posted fields unchanged |
| CommandQueues.ForAggregator | server/command_queue.py:35 | holds exactly the commands for the aggregator, no more than the queue holds, and keeps ids increasing |
| CommandQueues.Acked | server/command_queue.py:43-46 | keeps exactly the commands that do not match both aggregator and id, and keeps ids increasing |
| CommandQueues.Matching | server/command_queue.py:43-46 | holds exactly the commands that match both aggregator and id |
| CommandQueues.CommandQueue.constructor | server/command_queue.py:10-14 | empty queue, counter at 1 |
| CommandQueues.CommandQueue.Enqueue | server/command_queue.py:16-28 | the id is the counter's value, the counter moves on by one, and the numbered command is appended; ids stay unique and increasing |
| CommandQueues.CommandQueue.GetUnackedForAggregator | server/command_queue.py:30-35 | returns exactly the aggregator's commands in queue order, with increasing ids, and removes nothing |
| CommandQueues.CommandQueue.Ack | server/command_queue.py:37-51 | the queue becomes the unmatched commands in their old order; the counter is unchanged |
| CommandQueues.AckIdempotent | server/command_queue.py:43-46 | a second identical ack removes nothing more |
| CommandQueues.AckKeepsOtherAggregators | server/command_queue.py:45 | an ack never changes what another aggregator polls, whatever the ids |
| CommandQueues.AckSize | server/command_queue.py:42-47 | the new size is the old size minus the number of matching entries |
| CommandQueues.AckUnknownIdsIgnored | server/command_queue.py:43-46 | ids that match nothing leave the queue as it was |
| CommandQueues.NumberingFromOne | server/command_queue.py:14-28 | three enqueues on a fresh queue return ids 1, 2, 3, and polling the first and third commands' aggregator returns exactly those two, numbered 1 and 3 |
| LegacyAggregator.MergeItems | client/data_collector/aggregator.py:48-52 | the fold of `update` over the dict items yields a well-formed dict |
| LegacyAggregator.MergedKeysAreUnion | client/data_collector/aggregator.py:48-52 | a key is merged exactly when some dict item carries it |
| LegacyAggregator.LastWriterWins | client/data_collector/aggregator.py:51-52 | a merged key holds the value of the last dict item carrying it |
| LegacyAggregator.DictsOnly | client/data_collector/aggregator.py:51-57 | holds only dict items, each from the queue |
| LegacyAggregator.NonDictItemsSkipped | client/data_collector/aggregator.py:51-57 | merging the dict items alone gives the same result: other items contribute nothing |
| LegacyAggregator.NoDictsGiveEmptyMetrics | client/data_collector/aggregator.py:59-64 | with no dict item the snapshot's metrics are empty |
| LegacyAggregator.InputQueue.IsEmpty | client/data_collector/aggregator.py:49 | true exactly when nothing is queued |
| LegacyAggregator.InputQueue.Get | client/data_collector/aggregator.py:50 | removes and returns the oldest item |
| LegacyAggregator.Aggregator.constructor | client/data_collector/aggregator.py:13-17 | queue and interval as given; not stopped |
| LegacyAggregator.Aggregator.Aggregate | client/data_collector/aggregator.py:43-64 | leaves the queue empty and returns the merge of everything that was queued, in dequeue order |
| LegacyAggregator.Aggregator.Stop | client/data_collector/aggregator.py:66-70 | the stop flag is set |
| LegacyAggregator.Aggregator.RunForever | client/data_collector/aggregator.py:19-41 | no round when already stopped; a stop during a round lets it finish and starts no further round; the first round merges what was queued |
| OrmHelpers.GetDeviceByName | server/database/models_ex.py:24-26 | None exactly when no device has the name; otherwise the first device that has it |
| OrmHelpers.LatestIndex | server/database/models_ex.py:42-49 | the position `max` with a key picks: no snapshot is later, and every earlier one is strictly older |
| OrmHelpers.GetLatestSnapshot | server/database/models_ex.py:42-49 | None exactly for no snapshots; otherwise a member that no snapshot is later than, the first such |
| OrmHelpers.GetMetricValue | server/database/models_ex.py:65-72 | None exactly when no value has a definition with that name; otherwise the first one that has |
| EnvConfig.AssignKeys | server/config/config.py:40-44 | assigning a key into a dict adds that key to its keys |
| EnvConfig.AssignIntoDict | server/config/config.py:40-44 | assigning into a dict keeps each key once; the key holds the new value and every other member is unchanged |
| EnvConfig.BuildDictKeepsLast | server/config/config.py:40-44 | the dict built from members in file order holds each key once, has the file's keys, and each member is the last one in the file with its key |
| EnvConfig.LoadGivesDicts | client/config/config.py:84-85 | every object `json.load` returns, nested ones included, holds each key once |
| EnvConfig.LoadObjectKeepsLast | client/config/config.py:84-85 | the loaded top-level object has distinct keys, the file's keys, and for each key the value of its last occurrence, loaded in turn |
| EnvConfig.OverwrittenPlaceholderIsNotLookedUp | client/config/config.py:84-103 | a placeholder overwritten by a later value for the same key is never looked up, so an unset variable there is no error |
| EnvConfig.Replace | client/config/config.py:92-103 | a reported missing variable is one absent from the environment |
| EnvConfig.Walk | client/config/config.py:95-103 | a reported missing variable is one absent from the environment |
| EnvConfig.ReplaceValue | client/config/config.py:96-103 | objects stay objects; values that are neither objects nor placeholders are kept; a reported variable is missing |
| EnvConfig.ReplaceEnvVars | client/config/config.py:92-103 | the in-place walk over an object's members gives the members and the missing variable that `Replace` describes |
| EnvConfig.ReplaceEnvValue | client/config/config.py:96-103 | one value's handling gives what `ReplaceValue` describes |
| EnvConfig.WalkStep | client/config/config.py:95-103 | one step of the walk: on a miss it stops with the later members untouched, otherwise it continues |
| EnvConfig.ReplaceKeepsKeys | client/config/config.py:103 | keys and their order are never changed |
| EnvConfig.ReplaceSucceedsIffBound | client/config/config.py:95-103 | no error exactly when every placeholder, at any depth of nested objects, is bound; then every placeholder is replaced by its variable's value and everything else, lists included, is unchanged |
| EnvConfig.ValueResolves | client/config/config.py:96-103 | one value succeeds exactly when its placeholders are bound, and is then resolved |
| EnvConfig.FailureIsNotAtomic | client/config/config.py:95-103 | on a missing variable the walk stopped at some member: earlier members stay replaced and later ones are untouched |
| ServerConfig.Lookup | server/config/config.py:31 | None exactly when no member has the key; otherwise the value of the last member with that key |
| ServerConfig.GetOr | server/config/config.py:31-38 | the default when the key is absent, the key's value otherwise |
| ServerConfig.SettingsFrom | server/config/config.py:24-44 | the file is loaded into a dict first; fails with the missing variable exactly when the substitution on that dict does; the database URL is the environment's `DATABASE_URL` |
| ServerConfig.DefaultsWhenAbsent | server/config/config.py:31-38 | without `server_config` every origin is allowed, and without `uvicorn_log_config` the log config is `{}` |
| ServerConfig.DefaultOriginsWhenKeyAbsent | server/config/config.py:34 | a `server_config` object without `allowed_origins` allows every origin |
| ServerConfig.NonObjectServerConfigFails | server/config/config.py:31-34 | a `server_config` that is not an object makes the constructor fail |
| TimestampFormat.Pad2 | server/utils.py:33 | two digits that read back as the number |
| TimestampFormat.Decimal | server/utils.py:33 | digits that read back as the number |
| TimestampFormat.FourDigitYear | server/utils.py:31-33 | a four-digit year prints as four characters |
| TimestampFormat.FormatTimestamp | server/utils.py:23-33 | the empty string exactly for no datetime |
| TimestampFormat.FormatReadsBack | server/utils.py:31-33 | for a four-digit year: 19 characters, `/` at 2 and 5, a space at 10, `:` at 13 and 16, and day, month, year, hour, minute and second read back from their fixed positions |
| Overview.Filter | server/routes/main_routes.py:154-160 | a row is among the kept rows exactly when it is among the rows and passes both filters, each `"all"` or equal to the row's name; never more rows than given (order and multiplicity: `FilterAppend`) |
| Overview.FilterOne | server/routes/main_routes.py:154-160 | one row is kept exactly when it passes both filters |
| Overview.FilterAppend | server/routes/main_routes.py:154-160 | filtering a concatenation filters each part and concatenates: the kept rows keep their order and multiplicity |
| Overview.Later | server/routes/main_routes.py:192-196 | the update keeps one of its inputs, and is None only when both are |
| Overview.LatestTimeIsMax | server/routes/main_routes.py:192-196 | the latest time is None exactly when every row's time is null; otherwise it is one of the rows' times and no row's time is after it |
| Overview.GroupAggregators | server/routes/main_routes.py:176-181 | the aggregator keys are the kept rows' aggregator ids, each once, in first-appearance order; each entry has its id and the name from its first row |
| Overview.AggregatorDevices | server/routes/main_routes.py:183-190 | an aggregator's devices are built from that aggregator's rows alone |
| Overview.DevicesDescribe | server/routes/main_routes.py:183-196 | device keys are the device ids, each once, in first-appearance order; each entry has the name of its first row, the latest time of its rows and the metrics built from its rows |
| Overview.MetricsDescribe | server/routes/main_routes.py:198-210 | metric keys are the metric definition ids, each once, in first-appearance order; each entry has the name and display type of its first row and one point per row, in row order |
| Overview.LastUpdatedText | server/routes/main_routes.py:229-230 | None exactly when there is no time, otherwise the formatted time |
| Overview.RenderDevices | server/routes/main_routes.py:216-232 | one output device per devices-dict key, in key order |
| Overview.Render | server/routes/main_routes.py:213-238 | one output aggregator per `aggregator_map` key, in key order |
| Overview.GetOverview | server/routes/main_routes.py:154-240 | the filter, grouping and conversion loops produce the rendering of the grouping of the filtered rows |
| Overview.RenderLoop | server/routes/main_routes.py:213-238 | the conversion loop produces the rendering of the map |
| Overview.OverviewAggregators | server/routes/main_routes.py:163-238 | the response lists the kept rows' aggregator ids once each, in first-appearance order, each with its first row's name and the devices built from its own rows |
| Overview.OverviewDevices | server/routes/main_routes.py:183-232 | an aggregator's device list names each of its device ids once, in first-appearance order, with the first row's name, the formatted latest time and the metrics from the device's rows |
| Overview.OverviewMetrics | server/routes/main_routes.py:198-224 | a device's metric list has each metric definition id once, in first-appearance order, with the first row's name and display type and one point per row |
| MetricHistory.LookbackSeconds | server/routes/main_routes.py:260-267 | a window exactly for `24h`, `7d` and `30d`, always positive |
| MetricHistory.PlanHistory | server/routes/main_routes.py:243-303 | success exactly when page ≥ 1, page size in 1..100, a known time filter, a known metric and a known sort; the window ends now, ascending means `asc`, the offset is `(page - 1) * page_size` (0 on page 1) and the limit is the page size |
| MetricHistory.BoundsCheckedFirst | server/routes/main_routes.py:248-249 | a page or page size out of range is refused with 422, naming exactly the offending parameters, whatever the others are |
| MetricHistory.TimeFilterBeforeMetric | server/routes/main_routes.py:260-276 | an unknown time filter gives its 400 even when the metric is unknown and the sort is invalid |
| MetricHistory.MetricBeforeSort | server/routes/main_routes.py:275-294 | an unknown metric gives 404 even when the sort is invalid |
| MetricHistory.WindowWidths | server/routes/main_routes.py:259-265 | the windows are 86400, 604800 and 2592000 seconds long |
| MetricHistory.Paginate | server/routes/main_routes.py:303 | `OFFSET`/`LIMIT` selects the rows from the offset, at most the limit of them |
| MetricHistory.PagesTile | server/routes/main_routes.py:302-303 | pages 1 to n read in turn are the first n · page_size rows, each once and in order |
| MetricHistory.AllPagesCoverWindow | server/routes/main_routes.py:302-303 | enough pages cover every row exactly once |
| MetricHistory.FirstPageStartsAtTop | server/routes/main_routes.py:302 | page 1 starts at the first row |

## Left out

- Threads, locks, `time.sleep`, `threading.Event` and `join` are left out: AggregatorAPI and CommandPoller `run`/`stop`, and both collector agents. Each locked method is one atomic step, and a run loop is a sequence of iterations driven by inputs.
- HTTP is left out: `requests`, `raise_for_status` and the JSON serialization of payloads. An upload ends in one of three outcomes, a poll returns the fetched list or fails, and an ack is recorded as the request it would send.
- CommandPoller.Run: a failed ack POST is not modelled. It would also be swallowed by `run` after the device calls of that poll.
- The database is left out. That covers the SQL `get_overview` function, the metric definition query (a flag here), and the count, page, average and maximum queries of `get_metric_history`. `Paginate` only says what the offset and limit select.
- MetricHistory.PlanHistory: the body of FastAPI's 422 response is modelled only as the parameters it names.
- Config file reading is left out: `os.path.exists`, the JSON text syntax, dotenv, `cls(**data)` and the logging setup. The environment is a map.
- `BlockTimer` is left out, and so are the device collectors and the frontend.
- EnvConfig.Load: `json.load` also places a repeated key at its first position in the dict. That order is built in but not stated as a lemma, since nothing downstream depends on it.
- EnvConfig.Replace: the missing variable is reported by name. The client's message ("... not found") and the server's ("... not found.") are not told apart.
- ServerConfig.SettingsFrom: `allowed_origins` is kept as whatever JSON value the file holds, as in the source. Its type is not checked.
- CommandQueues.CommandQueue.Enqueue: the source writes `command_id` into the caller's dict, which the caller then also sees. The model returns a new record instead.
- DtoModels: metric values are an opaque type and timestamps are integers. A timezone-aware datetime is compared as its integer instant.
- Overview: snapshot times are calendar fields compared field by field, as naive datetimes compare. Time zones are not modelled.
- Overview: a point's time is kept as the datetime. Its `isoformat()` text is not modelled.
- Overview.Render: the two inner conversion loops are sequence comprehensions. Only the outermost loop is a method (`RenderLoop`).
- Overview: metric values are `real`. Nothing computes with them.
- TimestampFormat.Decimal: `%Y` is written as the C library on Linux writes it, without zero padding. Years below 1000 therefore give fewer than 19 characters, which is why `FormatReadsBack` requires a four-digit year.
- LegacyAggregator.Aggregator.RunForever: the collectors run concurrently and put items on the queue between rounds. Between rounds the model adds nothing, so later rounds yield empty snapshots.
- LegacyAggregator: the `KeyboardInterrupt` handling and the logging of each snapshot are left out.
- LegacyAggregator.Aggregate: the clock reading that `Snapshot()` takes is an integer parameter.
- AggregatorApis.RunIteration: `current_time` is a parameter, and the start-up times are the schedule passed in.
- `Device.handle_command` is external code. Its calls are recorded, not run.
