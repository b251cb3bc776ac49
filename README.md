# statsdpy aggregation engine in Dafny

A model of the metric aggregation engine of statsdpy. It covers the
`StatsdServer` class of `statsdpy/statsd.py` and the earlier counter-only
server in the top-level `statsd.py`.

The daemon receives text lines of the form `key:value|type[|@rate]`. It
keeps them in three in-memory buckets (`counters`, `timers`, `gauges`) and
a `stats_seen` counter. On each flush it turns the buckets into entries
and resets the buckets it visited. The entries go out either as `name value
timestamp` text lines or as pickled batches. Each pickled batch is framed
with a 4-byte big-endian length.

Modules:

- `PyText`: the Python 2 `str` operations the daemon uses. These are
  `split`, `join`, `splitlines`, `lstrip` and `%d` of an integer.
- `Keys`: the key normaliser `re.sub(r'\s+|/|[^a-zA-Z_\-0-9\.]', '_', raw)`.
- `Events`: the ingest path as functions on a `Store` value. It covers the
  router of `decode_recvd`, the three `process_*` rules, the `stats_seen`
  wrap at `maxint`, and the line loop of `run`.
- `Summary`: the order statistics of a timer bucket and the entry lists
  the flush loops build. It also covers the dictionary state after a
  flush and the plain-text rendering.
- `Framing`: `_get_batches` and the `struct.pack("!L", n)` length prefix.
- `Server`: the class `StatsdServer`. Its fields are updated in place by
  methods that are specified by the functions of `Events`, `Summary` and
  `Framing`.
- `Prototype`: `statsd.py`. It has a pure `Decode`, and the class
  `ProtoServer`, whose flush payload list persists across flushes.

Exceptions that the source catches leave the state as the source leaves it.
Exceptions that it does not catch appear as an explicit outcome:
`None`, `Framing.Raised` or `Server.Crashed`. The model covers these four,
and only these:

- a `ZeroDivisionError` from a zero `flush_interval`;
- an `IndexError` from a threshold index out of range;
- a `ValueError` from a zero batch size;
- a `struct.error` from a batch of 2^32 bytes or more.

The `OverflowError` and `ValueError` that `%d` raises on an infinite or NaN
value in `plain_payload` are outside the model, because its values are
finite reals (see "## Left out").

Python dictionary iteration order is unspecified. `Server.StatsdServer.KeyOrder`
picks an arbitrary enumeration of a dictionary's keys (with `:|`). The
flush methods return the orders they used (`co`, `to`, `go`), and each
flush property is stated for any such order.

The daemon reads datagrams as Python 2 byte strings. Every `char` of a
`string` in the model stands for one byte (0 to 255) of the datagram, so a
name such as `é` is two characters here, as it is two bytes in the source.

### Behaviour of the code that the model keeps

- **Key normaliser.** Only whitespace runs collapse to one `_`. Each `/`
  and each other disallowed character becomes its own `_`. See
  `Keys.NormalizeSeparators` and `Keys.OtherCharIsOwnUnderscore`.
- **Empty value.** A timer or gauge event with an empty value fails,
  because `float('')` raises. A timer bucket is still created before the
  failure. Only a counter reads an empty value as 1.
- **Sample-rate field.** It is checked only by `process_counter`, and only
  when there are exactly three fields. Timers and gauges ignore extra
  fields. A counter with four or more fields is counted at rate 1.0.
- **Counters that saw no event.** Every counter key ever seen gives its
  two entries at each flush, at value 0 when no event arrived since the
  last one. Gauges are reset to 0 and keep their keys.
- **Flush exceptions.** An exception in a flush builder is not caught:
  it ends the `stats_flush` greenthread (`Server.Crashed`). A threshold
  failure comes after the timers visited before it were reset, and after
  the failing timer was sorted in place.
- **The prototype.** It has no `sample_rate = 1.0` in `decode_recvd`.
  A counter line that does not have exactly three fields raises
  `UnboundLocalError` there, and the handler catches it. The key is still
  created at 0 and `stats_seen` is still bumped, but nothing is added.

## Model

| member | source | states |
|---|---|---|
| Keys.Normalize | statsdpy/statsd.py:41 | the normalised key holds only `[A-Za-z0-9_.-]` and is no longer than the raw name |
| Keys.NormalizeKeepsKeys | statsdpy/statsd.py:41 | a name that is already a valid key is left unchanged |
| Keys.NormalizeIdempotent | statsdpy/statsd.py:41 | normalising twice equals normalising once; a name is a fixed point exactly when it is a valid key |
| Keys.NormalizeSeparators | statsdpy/statsd.py:41 | a whole whitespace run (up to the next non-space) becomes one `_`, a `/` becomes one `_`, and the rest of the name is normalised on its own |
| Keys.OtherCharIsOwnUnderscore | statsdpy/statsd.py:41 | any other character that is neither whitespace nor in `[A-Za-z0-9_.-]` becomes its own `_`, and the rest of the name is normalised on its own |
| Keys.KeyCharKept | statsdpy/statsd.py:41 | a character of `[A-Za-z0-9_.-]` is kept in place, and the rest of the name is normalised on its own |
| Keys.NormalizeExample | statsdpy/statsd.py:41 | `"a \t/b$c"` becomes `"a__b_c"` |
| PyText.JoinSplit | statsdpy/statsd.py:266 | joining the pieces of `split(c)` with `c` gives back the string |
| PyText.SplitJoin | statsdpy/statsd.py:270 | splitting a join of separator-free pieces gives back the pieces |
| PyText.SplitCount | statsdpy/statsd.py:266-267 | `split(c)` has one more piece than the string has occurrences of `c` |
| PyText.Split | statsdpy/statsd.py:266 | `split(c)` gives at least one piece and no piece holds `c` |
| PyText.LStrip | statsdpy/statsd.py:244 | `lstrip(c)` removes exactly the leading run of `c` and keeps the rest as a suffix |
| PyText.SplitLines | statsdpy/statsd.py:304 | defines `splitlines()` on `\n`, `\r` and `\r\n`; `PyText.NonEmptyLinesAreChunks` states its non-empty lines |
| PyText.NonEmptyLinesAreChunks | statsdpy/statsd.py:304-305 | the non-empty lines of `splitlines()` are exactly the maximal runs without a line break |
| PyText.ChunksAppend | statsdpy/statsd.py:304 | the line runs of `a \n b` are those of `a` followed by those of `b` |
| PyText.IntToString | statsdpy/statsd.py:172-173 | defines `%d` of an integer; `PyText.IntToStringRoundTrip` states that it reads back |
| PyText.IntToStringRoundTrip | statsdpy/statsd.py:172-173 | the `%d` rendering of any integer reads back as that integer |
| Events.NextSeen | statsdpy/statsd.py:204-207 | below `maxint`, `stats_seen` becomes old + 1; at or above `maxint` it is reset and becomes 1; from `[0, maxint]` it stays within `[1, maxint]` |
| Events.RouteLine | statsdpy/statsd.py:266-278 | a routed line has exactly two `:` parts, its fields are the `\|` split of the second, there are at least two of them with a known type tag in the second, and its key is the normalised first part |
| Events.RateMatches | statsdpy/statsd.py:243 | defines `ratecheck.match`: an `@` followed by a digit or `.` |
| Events.SampleRate | statsdpy/statsd.py:240-246 | defines the rate of a counter line; `Events.CounterDeltaSpec` states it |
| Events.CounterDelta | statsdpy/statsd.py:240-247 | defines the amount a counter line adds; `Events.CounterDeltaSpec` states it |
| Events.ProcessCounter | statsdpy/statsd.py:233-258 | defines `process_counter` on a store; `Events.CounterRule` states it |
| Events.ProcessTimer | statsdpy/statsd.py:213-231 | defines `process_timer` on a store; `Events.TimerRule` states it |
| Events.ProcessGauge | statsdpy/statsd.py:195-211 | defines `process_gauge` on a store; `Events.GaugeRule` and `Events.GaugeLastWriteWins` state it |
| Events.Decode | statsdpy/statsd.py:260-288 | defines `decode_recvd` on a store; `Events.DecodeGate` and `Events.DecodePreservesGood` state it |
| Events.ApplyLines | statsdpy/statsd.py:304-306 | defines the line loop of `run`; `Events.ApplyLinesAppend` and `Events.ApplyLinesSkipsEmpty` state it |
| Events.Ingest | statsdpy/statsd.py:304-306 | defines the handling of one datagram; `Events.IngestSplits` states it |
| Events.InvalidRequestIff | statsdpy/statsd.py:266-267 | a line is refused as an invalid request exactly when it does not hold exactly one `:` |
| Events.DecodeGate | statsdpy/statsd.py:266-288 | a line changes no bucket unless it has one `:`, at least two fields and a type tag `ms`, `c` or `g` |
| Events.CounterDeltaSpec | statsdpy/statsd.py:240-247 | rate 1.0 unless there are exactly three fields; with three the third must match `^@[\d.]` and parse to a non-zero rate; the delta is value / rate, with an empty value read as 1 |
| Events.CounterRule | statsdpy/statsd.py:240-258 | a failed counter event changes nothing; a successful one adds its delta to the key (created at 0), keeps every other bucket, and bumps `stats_seen` |
| Events.TimerRule | statsdpy/statsd.py:220-231 | a timer event makes its key present and appends the parsed value at the end; on a parse failure nothing is appended and `stats_seen` is unchanged |
| Events.GaugeRule | statsdpy/statsd.py:202-211 | a gauge event whose value fails to parse changes nothing; one that parses sets the key to the value, keeps every other gauge, counter and timer, and bumps `stats_seen` |
| Events.GaugeLastWriteWins | statsdpy/statsd.py:202-207 | a gauge holds the last value written, and a later write overrides an earlier one |
| Events.FailureChangesNothing | statsdpy/statsd.py:202-258 | `stats_seen` either stays or advances one step; when it stays, counters and gauges are unchanged and the only trace is a new empty timer list |
| Events.DecodePreservesGood | statsdpy/statsd.py:260-288 | decoding a line keeps every key normalised and `stats_seen` within `[0, maxint]` |
| Events.ApplyLinesPreservesGood | statsdpy/statsd.py:304-306 | the same invariant holds after any sequence of lines |
| Events.ApplyLinesAppend | statsdpy/statsd.py:304-306 | applying `a + b` is applying `a` and then `b` |
| Events.ApplyLinesSkipsEmpty | statsdpy/statsd.py:305 | empty lines have no effect: applying the lines equals applying the non-empty ones |
| Events.IngestSplits | statsdpy/statsd.py:304-306 | a datagram `a \n b` has the effect of `a` followed by that of `b` |
| Events.BadLineIsSkipped | statsdpy/statsd.py:304-306 | a rejected line before other lines does not stop them: the result equals ingesting the rest alone |
| Events.CounterExample | statsdpy/statsd.py:275-276 | `foo:1\|c` on an empty store counts 1.0 for `foo` and sets `stats_seen` to 1 |
| Events.SampledCounterLine | statsdpy/statsd.py:242-250 | `key:v\|c\|@r` adds `float(v) / float(r)` to `key` |
| Events.FourFieldCounterLine | statsdpy/statsd.py:242-247 | with four fields the rate field is ignored and `float(v)` is added unscaled |
| Events.UnknownTypeLine | statsdpy/statsd.py:272-282 | a line `key:v\|tag` whose tag is not `ms`, `c` or `g` changes nothing |
| Events.UnknownTypeExample | statsdpy/statsd.py:279-282 | a line with an unknown type tag changes nothing |
| Summary.Sort | statsdpy/statsd.py:106 | the result is sorted ascending and is a permutation of the samples |
| Summary.SortedUnique | statsdpy/statsd.py:106 | any sorted permutation of the samples equals `Sort` |
| Summary.SumPermutation | statsdpy/statsd.py:110 | `sum()` does not depend on the order of the samples |
| Summary.PyIndex | statsdpy/statsd.py:117 | Python indexing succeeds exactly for `-len <= i < len` |
| Summary.Summarise | statsdpy/statsd.py:105-118 | defines the statistics of one timer bucket; `Summary.SummariseFacts` and `Summary.SummariseDefined` state them |
| Summary.SortedStats | statsdpy/statsd.py:107-118 | defines the statistics of a sorted bucket; `Summary.SortedStatsFacts` and `Summary.ThresholdValue` state them |
| Summary.ThresholdBounds | statsdpy/statsd.py:115-116 | the index is `pct * N / 100` truncated toward zero |
| Summary.ThresholdRange | statsdpy/statsd.py:115-116 | a threshold between 0 and 100 gives an index between 0 and N |
| Summary.SortedStatsFacts | statsdpy/statsd.py:106-118 | on a sorted bucket: lower is the first sample, upper the last, the threshold value is a sample between them, and so is the mean |
| Summary.SummariseFacts | statsdpy/statsd.py:104-118 | lower and upper are a minimum and maximum that are samples, count is N, total is the sum, and the threshold value and the mean lie between lower and upper |
| Summary.SummariseDefined | statsdpy/statsd.py:114-117 | the summary fails exactly when the threshold index is out of range, and never fails for a threshold in `[0, 100]` |
| Summary.ThresholdValue | statsdpy/statsd.py:114-117 | for a threshold in `[0, 100]` and N > 1 samples in ascending order (the sorted bucket the statistics are taken from), the index k lies in `[0, N]`, the statistics exist, the threshold value is the k-th smallest sample, and for k = 0 it is the maximum |
| Summary.SingleSample | statsdpy/statsd.py:111-112 | a single sample is reported as mean, upper, threshold value, lower and total, with count 1 |
| Summary.MeanOfMany | statsdpy/statsd.py:118 | with N > 1 the mean is the sum over N |
| Summary.SummariseExample | statsdpy/statsd.py:104-127 | `[1, 2, 3, 4, 5]` at 90 gives mean 3, upper 5, upper_90 4, lower 1, count 5, total 15 |
| Summary.CounterPair | statsdpy/statsd.py:98-102 | a counter gives `stats.<k>` with the value per interval and `stats_counts.<k>` with the raw value |
| Summary.CounterEntries | statsdpy/statsd.py:98-103 | defines the counter loop's entries; `Summary.CounterEntriesCount` and `Summary.CounterEntriesShape` state them |
| Summary.TimerEntries | statsdpy/statsd.py:104-128 | defines the timer loop's entries or its failure; `Summary.TimerEntriesCount` and `Summary.TimerEntriesFail` state them |
| Summary.GaugeEntries | statsdpy/statsd.py:129-132 | defines the gauge loop's entries; `Summary.GaugeEntriesShape` states them |
| Summary.FlushEntries | statsdpy/statsd.py:96-132 | defines the entries of a flush or its failure; `Summary.FlushEntriesCases` states them |
| Summary.TimerSix | statsdpy/statsd.py:119-127 | a non-empty timer gives six entries, all rendered with `%d` |
| Summary.CounterEntriesCount | statsdpy/statsd.py:98-103 | the counter loop gives two entries per counter, zero-valued ones included |
| Summary.CounterEntriesShape | statsdpy/statsd.py:98-103 | entries `2i` and `2i + 1` are the rate and count pair of the i-th counter visited |
| Summary.GaugeEntriesShape | statsdpy/statsd.py:129-131 | the gauge loop gives exactly one `stats.gauges.<k>` entry per gauge, holding its value |
| Summary.TimerEntriesCount | statsdpy/statsd.py:104-128 | the timer loop gives six entries per non-empty timer and none for an empty one |
| Summary.BusyMembers | statsdpy/statsd.py:105 | the timers that report are exactly the visited timers with samples |
| Summary.TimerEntriesDefined | statsdpy/statsd.py:114-117 | with a threshold in `[0, 100]` the timer loop never raises |
| Summary.TimerEntriesFail | statsdpy/statsd.py:114-117 | the timer loop succeeds exactly when every non-empty timer's threshold index is in range |
| Summary.TimerEntriesPrefixFails | statsdpy/statsd.py:104-128 | once one timer raises, the whole loop raises |
| Summary.FlushEntriesCases | statsdpy/statsd.py:98-132 | a zero interval with any counter raises; a failing timer loop raises; otherwise the entries are counters, then timers, then gauges |
| Summary.FlushEntriesEmpty | statsdpy/statsd.py:133 | a flush that does not raise gives no entries exactly when there is no counter, no gauge and no timer sample |
| Summary.Zeroed | statsdpy/statsd.py:103 | after a flush the same keys remain and each counter or gauge is 0 |
| Summary.Emptied | statsdpy/statsd.py:128 | after a flush the same timer keys remain and each list is empty |
| Summary.FlushReset | statsdpy/statsd.py:98-132 | defines the buckets after the flush loops: all reset when they completed; unchanged when a zero `flush_interval` raised on the first counter; otherwise counters zeroed, gauges untouched, the timers before the failing one emptied and that one left sorted |
| Summary.Stamp | statsdpy/statsd.py:99-131 | each pickled element is `(name, (tstamp, value))` for the entry at the same position |
| Summary.Trunc | statsdpy/statsd.py:172-188 | `%d` of a float truncates toward zero |
| Summary.RenderBody | statsdpy/statsd.py:150-188 | defines one `name value tstamp` line without its `\n`; `Summary.RenderedValue` states its `%d` form |
| Summary.PlainText | statsdpy/statsd.py:190-191 | defines `"".join(payload)`; `Summary.PlainTextLines` states its lines |
| Summary.Rendered | statsdpy/statsd.py:150-188 | one rendered line per entry, in entry order |
| Summary.PlainTextLines | statsdpy/statsd.py:190-191 | when no rendered line holds a line break, splitting the joined plain payload into lines gives back exactly the rendered entries, one per entry, in order |
| Summary.RenderedValue | statsdpy/statsd.py:172-188 | a `%d` line is `name value ts`, and its value column reads back as the truncated value |
| Framing.Batches | statsdpy/statsd.py:48-51 | a zero batch size raises and a negative one yields no batch |
| Framing.Chunks | statsdpy/statsd.py:48-51 | defines the slices of `_get_batches`; `Framing.ChunksFlatten`, `Framing.ChunksSizes` and `Framing.ChunksCount` state them |
| Framing.ChunksFlatten | statsdpy/statsd.py:48-51 | the batches put back together are the entries in order |
| Framing.ChunksSizes | statsdpy/statsd.py:48-51 | every batch holds 1 to size entries, and all but the last hold exactly size |
| Framing.ChunksCount | statsdpy/statsd.py:48-51 | there are `ceil(N / size)` batches |
| Framing.Pack32BE | statsdpy/statsd.py:139 | `!L` packs four bytes |
| Framing.Unpack32BE | statsdpy/statsd.py:139 | a 4-byte prefix reads as an unsigned 32-bit length |
| Framing.UnpackPack | statsdpy/statsd.py:139 | unpacking a packed length gives the length |
| Framing.PackUnpack | statsdpy/statsd.py:139 | packing an unpacked prefix gives the prefix |
| Framing.Frame | statsdpy/statsd.py:138-140 | a frame exists exactly when the data is under 2^32 bytes, and it is 4 length bytes followed by the data |
| Framing.FrameRoundTrip | statsdpy/statsd.py:138-140 | a receiver reading a frame off a stream gets the serialised batch and the rest of the stream |
| Framing.FrameAll | statsdpy/statsd.py:134-141 | framing all batches fails exactly when some batch is too long; otherwise frame i frames batch i |
| Framing.FrameAllSnoc | statsdpy/statsd.py:134-141 | framing one more batch appends its frame or fails |
| Framing.PickleBatches | statsdpy/statsd.py:133-143 | defines the framed batches of a non-empty entry list; `Framing.PickleBatchesSpec` states them |
| Framing.PickleBatchesSpec | statsdpy/statsd.py:133-143 | with a positive size and batches that fit, there are `ceil(N/size)` frames and frame i reads back as batch i |
| Framing.NegativeBatchSize | statsdpy/statsd.py:48-51 | a negative batch size gives an empty list, so nothing is sent |
| Server.StatsdServer.constructor | statsdpy/statsd.py:43-46 | all buckets start empty and `stats_seen` starts at 0 |
| Server.StatsdServer.BumpSeen | statsdpy/statsd.py:204-207 | `stats_seen` follows `NextSeen` and no bucket changes |
| Server.StatsdServer.ProcessGauge | statsdpy/statsd.py:195-211 | the new state is `Events.ProcessGauge` of the old |
| Server.StatsdServer.ProcessTimer | statsdpy/statsd.py:213-231 | the new state is `Events.ProcessTimer` of the old |
| Server.StatsdServer.ProcessCounter | statsdpy/statsd.py:233-258 | the new state is `Events.ProcessCounter` of the old |
| Server.StatsdServer.DecodeRecvd | statsdpy/statsd.py:260-288 | the new state is `Events.Decode` of the old |
| Server.StatsdServer.Receive | statsdpy/statsd.py:299-306 | an empty datagram stops the loop; otherwise every line is applied as `Events.Ingest`, and the invariant holds |
| Server.StatsdServer.CollectEntries | statsdpy/statsd.py:98-132 | the entries equal `FlushEntries` for the dictionary orders used, and the buckets afterwards satisfy `Summary.FlushReset` |
| Server.StatsdServer.CounterLoop | statsdpy/statsd.py:98-103 | the counters are zeroed and the entries are `CounterEntries` |
| Server.StatsdServer.TimerLoop | statsdpy/statsd.py:104-128 | the entries are `TimerEntries`; on success every list is emptied; on failure the earlier timers are emptied and the failing one is left sorted |
| Server.StatsdServer.TimerVisit | statsdpy/statsd.py:105-128 | one timer visit extends the entries and empties the list, or fails with the list sorted |
| Server.StatsdServer.GaugeLoop | statsdpy/statsd.py:129-132 | the gauges are zeroed and the entries are `GaugeEntries` |
| Server.StatsdServer.PicklePayload | statsdpy/statsd.py:94-143 | the result is the stamped entries batched and framed, or `Raised` when collecting raised; the buckets afterwards satisfy `Summary.FlushReset`; the invariant and `stats_seen` are kept |
| Server.StatsdServer.FrameBatches | statsdpy/statsd.py:133-141 | the framing loop computes `PickleBatches` |
| Server.StatsdServer.PlainPayload | statsdpy/statsd.py:145-193 | the result is the rendered text, `None` when there are no entries, or `Raised` when collecting raised; the buckets afterwards satisfy `Summary.FlushReset`; the invariant and `stats_seen` are kept |
| Server.StatsdServer.FlushStep | statsdpy/statsd.py:84-92 | pickle mode sends one report per frame and plain mode at most one report with the text; the step crashes exactly when collecting raised or, in pickle mode, batching or framing raised; the buckets afterwards satisfy `Summary.FlushReset`; a step that sends anything had a counter, a gauge or a timer sample |
| Server.PickleOf | statsdpy/statsd.py:133-143 | defines the pickle payload built from the collected entries |
| Server.PlainOf | statsdpy/statsd.py:190-193 | defines the plain payload built from the collected entries |
| Server.PickleOutcome | statsdpy/statsd.py:84-88 | a pickle payload crashes the loop exactly when it raised, and otherwise sends one report per frame |
| Server.PlainOutcome | statsdpy/statsd.py:89-92 | a plain payload crashes the loop exactly when it raised, and otherwise sends at most one report |
| Server.StatsdServer.KeyOrder | statsdpy/statsd.py:98 | the iteration visits every key of the dictionary exactly once |
| Prototype.Delta | statsd.py:67-73 | a value is added only with exactly three fields and a third field matching the rate check |
| Prototype.Decode | statsd.py:53-82 | defines `decode_recvd` of the prototype; `Prototype.DecodeRoute` and `Prototype.DecodeGood` state it |
| Prototype.DecodeRoute | statsd.py:53-82 | the state changes exactly when the line routes as a counter; then the key exists and `stats_seen` is bumped, with the delta or nothing added |
| Prototype.DecodeGood | statsd.py:53-76 | decoding keeps keys normalised and `stats_seen` non-negative |
| Prototype.UnsampledCounterAddsNothing | statsd.py:65-76 | `key:v\|c` is counted as seen and creates the key, but adds nothing |
| Prototype.SampledDeltaAgrees | statsd.py:67-73 | with three fields the prototype adds what `process_counter` of the later server adds |
| Prototype.CounterLines | statsd.py:43-48 | defines the two lines of one counter |
| Prototype.FlushLines | statsd.py:42-49 | defines the lines of one flush pass; `Prototype.FlushLinesShape` and `Prototype.FlushLinesStamped` state them |
| Prototype.FlushLinesShape | statsd.py:42-49 | a pass appends two lines per counter, the rate and the raw count of the i-th key |
| Prototype.FlushLinesStamped | statsd.py:33 | every appended line ends with the one `tstamp` read at start-up |
| Prototype.ConcatAppend | statsd.py:51 | joining a list extended by more lines extends the joined text |
| Prototype.ReportsRepeat | statsd.py:35 | each report starts with the whole previous report |
| Prototype.ProtoServer.constructor | statsd.py:16-17 | the counters start empty, `stats_seen` at 0, and the payload empty |
| Prototype.ProtoServer.DecodeRecvd | statsd.py:53-82 | the new state is `Prototype.Decode` of the old, and the payload is untouched |
| Prototype.ProtoServer.Receive | statsd.py:91-97 | an empty datagram stops; otherwise the whole datagram is decoded as one line |
| Prototype.ProtoServer.FlushPass | statsd.py:36-51 | the payload grows by the lines of every counter, the counters are zeroed, and the report is the whole joined payload when it is not empty |
| Prototype.ProtoServer.CounterLoop | statsd.py:42-49 | the counters are zeroed and the lines are `FlushLines` |

## Left out

- Socket and eventlet I/O are not modelled: `report_stats`, `recvfrom`, `bind`, `eventlet.sleep`, `Timeout` and `spawn_n`. A flush step returns the reports it would hand to `report_stats`.
- Logging, syslog setup and the debug `print`s are not modelled. They do not change the buckets.
- Configuration parsing in `__init__` is not modelled. The interval, the threshold, the batch size and the format are constructor parameters.
- `run_server`, `main`, the `Daemon` wrapper, `utils/genevent.py` and `setup.py` are process lifecycle, test traffic and packaging; they are not modelled.
- `float()` parsing, `%s` of a float and `pickle.dumps` are abstract parameters (`parse`, `formatFloat`, `serialise`). Only the framing around the pickled bytes is modelled.
- Floating point is not modelled. Values are exact reals, so `pct / 100.0 * count` is exact before truncation, and the mean is an exact quotient. For some inputs the float result truncates to a different index.
- Non-finite values are not modelled. `float()` accepts `inf` and `nan` (for example `k:inf|g` or `k:nan|ms`), and a timer's `sum` of finite samples can overflow to infinity. In `plain_payload`, `%d` of such a timer or gauge value raises `OverflowError` or `ValueError`, which nothing catches, so the flush greenthread ends.
- Server.StatsdServer.FlushStep: its `Crashed` case covers only the four exceptions listed above. On a non-finite timer or gauge value in plain mode, the program crashes where the model's step reports `Sent`.
- Integers versus floats are not modelled. A counter or gauge reset to the integer 0 renders `0` where a float renders `0.0`, and a timer's `count` entry is a Python int. The model carries every value as a real (`count` as `t.count as real`).
- `time.time()` is not modelled. A flush takes one timestamp `ts`, but the source reads the clock again for each non-empty timer and for each plain gauge line.
- Dictionary iteration order is not modelled. It is an arbitrary enumeration chosen with `:|` (`Server.StatsdServer.KeyOrder`), so the properties hold for every order.
- Character encodings are not modelled. A `char` stands for one byte of the datagram; the model does not restrict it to 0..255, and nothing depends on values above that.
- Concurrency between the receive loop and the flush greenthread is not modelled. Each method runs to completion on its own.
- `sys.maxint` is fixed at 2^63 - 1, the value of a 64-bit CPython 2.
- The `is` comparisons of `statsd.py` (`fields[1] is "c"`) are modelled as equality.
- Summary.TimerSix: its contract states only that there are six `%d` entries. The names `stats.timers.<key>.mean/upper/upper_<pct>/lower/count/<total>` are given by its definition, not by a separate property.
