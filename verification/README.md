# Verified model of the PlotJuggler official plugins

The plugins turn files and streams into time series for a PlotJuggler host. This project models the parts in which
state, text formats or byte arithmetic decide the outcome, and proves what those parts promise. Dafny 4.11; run
`dafny verify dfyconfig.toml`.

Results that leave a signed 64-bit range, which C++ leaves undefined, are wrapped in two's complement wherever the
input can bring that about.

Each component is given twice: as functions that say what is computed, and, where the C++ works step by step, as
methods or classes with the same loops and fields, proved to compute exactly that. The theorems are then about the
functions. Everything that comes from outside (host answers, sockets, clocks, Arrow, ZSTD, LZF, number and date
recognition) is a parameter of arbitrary behaviour.

`{:induction false}` stands on recursive lemmas, whose bodies are the induction, and on a few others in which an added
hypothesis only slows the proof.

| modules | component |
|---|---|
| FoxgloveProtocol, OrderedKeys, FoxgloveSubscription, FoxgloveSession, FoxgloveRuns, FoxgloveHistory, FoxgloveSource | Foxglove client in demand mode: catalog, subscriptions, bindings, reconnects; queues drained by atomic poll actions, with a log of frames, notices, allocations, bindings and pushes since the last reset |
| Int64, CandumpTokens, CandumpLines, CandumpPrint, CandumpKinds, CandumpClock, CandumpPrescan, CandumpScanGap | candump text: two line grammars behind one prefix, the saturating timeline clock, the pre-pass and the prescan |
| Blocks, PointLayout, PointCloud, PcdTranspose, PcdReader, PcdHeader | point clouds: packed layouts, byte order, the binary_compressed transposition, whole PCD files |
| TextLines, CsvSplit, CsvRows, CsvImport | CSV: quoting, delimiter guess, rows scattered into columns and reassembled into records |
| UlogFlatten, UlogRecords, UlogValues | ULog: two traversals of nested formats, and the size check that makes every later read safe |
| LerobotSlice, LerobotVideo | LeRobot: an episode's rows out of a batched table, and its access units out of a shared video |
| RawBytes, LittleEndian, BridgeFrame | PJ Bridge frames: the length-prefixed message walk and its inverse |
| McapBinding, McapRequests, McapImport | MCAP: one binding request per topic, push accounting, file-order retry, outcome |
| Decimal, LslNames | LSL: fresh topic names and channel labels |
| Slices, Wrappers | facts about slices that the other modules share; result types |

## Where code and comments differ

The model follows the code. Each difference has a lemma with a concrete input or an exact condition.

- `data_load_candump/candump_parser.cpp:479-494` promises saturation; the guards' own subtractions leave int64 when
  seconds and fraction have opposite signs. `CombineRawNsExact` says exactly when the result is the saturated sum.
- `data_load_candump/candump_parser.cpp:131-167` reads digit runs of any length into int64 accumulators, so seconds
  and fraction can wrap, the fraction even below zero: `LongSecondsWrap`, `LongFractionWraps`, and the exact
  conditions `StampExactly`, `FractionExactly` and `FractionRange`.
- `data_load_candump/candump_parser.cpp:171` negates only the seconds, so a minus sign is lost on the fraction:
  `LostSign`, `NegativeFractionCounterexample`; `RawTimestampExact` says when the raw time is the written one.
- `data_load_candump/candump_parser.hpp:276-285` says the prescan makes the same time-mode decision as the pre-pass.
  `BlankLineGap` and `BrokenBodyGap` are inputs on which they differ, `TimeModesAgree` says when they see the same.
- `data_load_3d/cloud_common.hpp:33-36` says the size cap keeps the row step representable. That needs a row:
  `RowStepExactly`.
- `data_stream_foxglove_bridge/foxglove_source.cpp:182-188` says the reset order keeps the advertise burst of a new
  connection. `OnlyQueuedTextsSurvive` and `BurstSurvivesExactly` say exactly when it does.
- `data_stream_foxglove_bridge/foxglove_source.cpp:258-281` ends a session without emptying its queues or its pending
  reconnect, so both reach the next session: `StoppedMessageIsPushed`, `StalePendingCrosses`.
- `data_stream_foxglove_bridge/foxglove_source.cpp:415-448` keeps a live subscription, and with it its parser binding,
  when its channel is advertised anew under another schema: `ReadvertiseExactly`.
- `data_load_csv/csv_parser.hpp:13-17` says a space is the delimiter only when no hard delimiter is present.
  `SpaceDetectedExactly` says when it is chosen; `SpaceBeatsComma` is an input with a comma.
- `data_load_ulog/ulog_flatten.hpp:144-147` notes that the library's size undercounts repeated names, and repairs it
  for a trailing padding field only. Otherwise an accepted record can miss leaves (`DuplicateNamesUndercount`) and
  its clock can be read past its end (`ClockReadPastEnd`), which `data_load_ulog/ulog_source.cpp:319-322` means to
  rule out; `NeverNullExactly`, `NeverNullByFurthestEnd` and `ClockInRangeExactly` are the conditions.
- `data_stream_pj_bridge/pj_bridge_protocol.hpp:44` puts the payload behind the message count. The code reads a
  16-byte header: `HeaderExactly`.
- `data_stream_lsl/lsl_conversions.hpp:118-120` says unique names pass through. `SingleNameChanged` is an input where
  one does not, `PassesThroughExactly` the condition for one stream, `AllPassThroughExactly` for all of them.

## Model

| member | source | states |
|---|---|---|
| FoxgloveSubscription.FilteredAdvertisedTopics | data_stream_foxglove_bridge/foxglove_topic_subscription.hpp:84-93 | The loop returns exactly the supported channels of the catalog that pass the selection filter, each with its topic. |
| FoxgloveSubscription.ComputeSubscriptionDiff | data_stream_foxglove_bridge/foxglove_topic_subscription.hpp:45-67 | Drops exactly the live ids whose channel is no longer offered under a desired topic, adds exactly the wanted channels no subscription covers, both ascending and without repetition. |
| FoxgloveProtocol.SupportedExactly | data_stream_foxglove_bridge/foxglove_protocol.hpp:98-122 | The channel shapes that are supported, in terms of encoding, schema encoding and schema, and the parser encoding of each. |
| FoxgloveSession.ReconcileInv | data_stream_foxglove_bridge/foxglove_source.cpp:415-448 | From any session whose tables are consistent, one reconcile makes the subscribed channels exactly the target set, keeps the ids of those that stay wanted and keeps the log, id and binding invariants. |
| FoxgloveSession.ReconcileIdempotent | data_stream_foxglove_bridge/foxglove_source.cpp:415-448 | A second reconcile in a row leaves the whole session, its log included, as it is: no frame, no id, no binding request. |
| FoxgloveSession.RegisterSound | data_stream_foxglove_bridge/foxglove_source.cpp:348-355 | Handing out one id keeps ids distinct below the 32-bit wrap, records the binding for the channel the id was given to, and logs both. |
| FoxgloveRuns.StepInv | data_stream_foxglove_bridge/foxglove_source.cpp:181-256 | Every atomic action (text drain, desired set, message drain, arrival, connection check) keeps the invariant from any state that has it. |
| FoxgloveRuns.PollInv | data_stream_foxglove_bridge/foxglove_source.cpp:181-256 | A whole poll keeps the invariant from any state that has it, reachable or not. |
| FoxgloveRuns.RunInv | data_stream_foxglove_bridge/foxglove_source.cpp:73-256 | The invariant holds after every action sequence from a started source. |
| FoxgloveRuns.SubscriptionEquation | data_stream_foxglove_bridge/foxglove_source.cpp:189-230 | After every run the subscribed channels are exactly the supported, filter-passing advertised ones whose topic is in the host's set, each under exactly one id. The host's set comes from the actions: the last one written when the slot was last looked at while connected, empty before that. |
| FoxgloveRuns.HeldIsHostSet | data_stream_foxglove_bridge/foxglove_source.cpp:217-230 | After every run the session holds the host's set as the actions give it, through reconnects, and the slot holds what was written since. |
| FoxgloveRuns.DesiredIsTaken | data_stream_foxglove_bridge/foxglove_source.cpp:450-457 | When the connected source looks at a slot that holds a set, that set replaces the one before: the slot is empty and the subscribed channels are the target for it. |
| FoxgloveRuns.OrderIndependent | data_stream_foxglove_bridge/foxglove_source.cpp:407-414 | Two runs with the same final catalog, the same selection and the same host set subscribe to the same channels, whatever the order of events was. |
| FoxgloveRuns.ReconcileAgainIsSilent | data_stream_foxglove_bridge/foxglove_source.cpp:415-457 | In every reachable state one more reconcile changes nothing and sends nothing. |
| FoxgloveRuns.ReplayGivesSubscriptions | data_stream_foxglove_bridge/foxglove_source.cpp:423-446 | Replaying the subscribe and unsubscribe frames sent and the unadvertise notices handled since the last reset yields exactly the subscription table. |
| FoxgloveRuns.IdsNeverReused | data_stream_foxglove_bridge/foxglove_source.cpp:348-355 | Within a span between resets the ids handed out are 1, 2, 3, … (0 after 2^32 - 1), so none is allocated twice, and bindings exist for live ids only. |
| FoxgloveRuns.PushesFollowAllocation | data_stream_foxglove_bridge/foxglove_source.cpp:232-253 | A drained binary message is pushed only through the binding last made for its id, which was made for the one channel the id was allocated to, and only while that id is live. |
| FoxgloveRuns.ReadvertiseExactly | data_stream_foxglove_bridge/foxglove_source.cpp:415-448 | When an advertise replaces the information of a channel with a live bound subscription, the subscription stays if the channel is still offered under a desired topic and then keeps its old binding, which fits the catalog if and only if the channel information is what the binding was made for; otherwise the subscription goes. |
| FoxgloveRuns.OnlyQueuedTextsSurvive | data_stream_foxglove_bridge/foxglove_source.cpp:181-224 | Whatever happens while a reconnect is pending, the poll that finds the socket open leaves the reset session with exactly the texts handled that arrived since the last drain. |
| FoxgloveRuns.BurstSurvivesExactly | data_stream_foxglove_bridge/foxglove_source.cpp:181-200 | An advertise anywhere in the queue of a reconnecting source has its channels in the new catalog if and only if no text drain came before that poll, whatever else arrives (later texts about the same channel aside). |
| FoxgloveRuns.NoMessageCrossesReset | data_stream_foxglove_bridge/foxglove_source.cpp:181-253 | Over whole polls from any source without a pending reconnect on a live connection: the messages queued when the tables are reset all arrived since the poll before, when the old connection was already gone; at the first poll, those left in the queue before are there too. |
| FoxgloveRuns.StalePendingCrosses | data_stream_foxglove_bridge/foxglove_source.cpp:258-281 | A stop leaves a pending reconnect as it is. A source started with one lets a message of its lost connection stay queued across the reset. |
| FoxgloveRuns.StoppedMessageIsPushed | data_stream_foxglove_bridge/foxglove_source.cpp:258-281 | A stop leaves queued messages. One under id 1 of the stopped session is pushed through whatever binding the next session makes for id 1 before its first message drain. |
| FoxgloveHistory.CatalogIsKnown | data_stream_foxglove_bridge/foxglove_source.cpp:480-573 | The catalog holds of every channel what the texts handled since the last reset say of it last: its latest information, or that it is gone. |
| FoxgloveHistory.SubscribedExactly | data_stream_foxglove_bridge/foxglove_source.cpp:189-230 | From the actions alone: a channel is subscribed, under one id, if and only if the run knows it, its encoding is supported, the selection lets its topic through and the host's set has the topic. |
| FoxgloveHistory.PushedExactly | data_stream_foxglove_bridge/foxglove_source.cpp:232-253 | Draining pushes every queued message whose id has a binding through it, in order, and logs or changes nothing else. |
| FoxgloveHistory.ReconcileAnswers | data_stream_foxglove_bridge/foxglove_source.cpp:301-355 | Every subscription a reconcile makes is bound exactly as the host answers for its channel, and not at all when the host refuses; every one it keeps keeps its binding. |
| FoxgloveHistory.RetriedAfter150 | data_stream_foxglove_bridge/foxglove_source.cpp:206-211 | After a lost connection the next attempt starts with the 150th poll and not before, whatever else happens. |
| FoxgloveHistory.AttemptEnds | data_stream_foxglove_bridge/foxglove_source.cpp:190-205 | A reconnect attempt ends with the first poll that finds the socket open, which connects and empties the tables but keeps the host's set, or closed, which leaves everything but the attempt. |
| FoxgloveSource.FoxgloveSource.OnStart | data_stream_foxglove_bridge/foxglove_source.cpp:151-178 | Demand-mode start: the seeded catalog, empty tables, first id 1, nothing sent; queues, slot and reconnect state carry over. |
| FoxgloveSource.FoxgloveSource.RegisterSubscription | data_stream_foxglove_bridge/foxglove_source.cpp:348-355 | The next id is taken and wraps at 32 bits, the subscription and, if the host agrees, its binding are recorded; nothing else changes. |
| FoxgloveSource.FoxgloveSource.ReconcileSubscriptions | data_stream_foxglove_bridge/foxglove_source.cpp:415-448 | The whole new state is the pure reconcile of the old one, including which frames were sent and in which order. |
| FoxgloveSource.FoxgloveSource.ApplyDesiredTopics | data_stream_foxglove_bridge/foxglove_source.cpp:450-457 | The slot is emptied; a new desired set replaces the old one and is reconciled, and without one nothing changes. DesiredIsTaken says what that step means. |
| FoxgloveSource.FoxgloveSource.OnUnadvertise | data_stream_foxglove_bridge/foxglove_source.cpp:541-561 | Every named channel leaves the catalog together with each of its subscriptions and bindings; all others stay. |
| FoxgloveSource.FoxgloveSource.OnTextMessage | data_stream_foxglove_bridge/foxglove_source.cpp:480-573 | The state after any decoded text message is the one the run lemmas speak about. |
| FoxgloveSource.FoxgloveSource.CheckReconnect | data_stream_foxglove_bridge/foxglove_source.cpp:189-215 | The reset happens exactly on an open socket while a reconnect is pending; the 150-poll retry counter and the failed attempt are exact. |
| FoxgloveSource.FoxgloveSource.DrainMessageQueue | data_stream_foxglove_bridge/foxglove_source.cpp:232-253 | Queued messages are pushed in order through their id's binding, those without one are dropped, the queue is empty afterwards. |
| FoxgloveSource.FoxgloveSource.OnPoll | data_stream_foxglove_bridge/foxglove_source.cpp:181-256 | One poll equals the four atomic actions in the source's order. |
| FoxgloveSource.FoxgloveSource.OnStop | data_stream_foxglove_bridge/foxglove_source.cpp:258-281 | One unsubscribe frame names exactly the live ids, if connected and any are live; afterwards all tables, the selection and the desired set are empty. |
| CandumpTokens.NextTokenAt | data_load_candump/candump_parser.cpp:77-95 | The position-moving tokenizer returns the next blank-free word and the suffix after the following blanks. |
| CandumpTokens.ParseHexU32 | data_load_candump/candump_parser.cpp:544-556 | Accepts exactly one to eight hex digits of either case and returns the number they denote. |
| CandumpTokens.ParseHexBytes | data_load_candump/candump_parser.cpp:49-64 | Accepts exactly an even run of hex digits and returns one byte per pair. |
| CandumpTokens.HexDigitExactly | data_load_candump/candump_parser.cpp:23-45 | The sixteen digits in either case have their values, and nothing else is a digit. |
| CandumpTokens.DigitsAt | data_load_candump/candump_parser.cpp:127-136 | The digit loops end at the end of the run, and their int64 accumulator holds the denoted number wrapped to 64 bits. |
| CandumpTokens.ScaleFraction | data_load_candump/candump_parser.cpp:151-167 | The multiply-up and truncating divide-down loops turn that accumulator into the nanoseconds of the stamp. |
| CandumpTokens.FractionExactly | data_load_candump/candump_parser.cpp:145-167 | The scaled fraction is the written one, padded or cut to nine digits, if and only if the run denotes at most 2^63 - 1, or it has at least 28 digits of which the first nine are zeros. |
| CandumpTokens.FractionRange | data_load_candump/candump_parser.cpp:145-167 | For every digit count the scaled fraction is below a second in size; it lies in [0, 10^9) if and only if there are at most nine digits or the accumulator did not wrap to 10^(n-9) or more below zero. |
| CandumpTokens.ScalingFits | data_load_candump/candump_parser.cpp:158-161 | Padding a fraction of at most nine digits stays within int64 at every multiplication, whatever the digits. |
| CandumpTokens.LongFractionWraps | data_load_candump/candump_parser.cpp:145-167 | Nineteen nines behind the point give -844674407 ns instead of 999999999. |
| CandumpTokens.StampExactly | data_load_candump/candump_parser.cpp:120-174 | The two int64 fields hold the digit runs as written, the sign on the whole digits only and the fraction unsigned, if and only if the runs fit: whole digits up to 2^63 - 1 (2^63 behind a minus), fraction digits as above. |
| CandumpTokens.ParseTsToken | data_load_candump/candump_parser.cpp:106-174 | The scanner agrees with the int64 reading of the text between the parentheses: present, numeric or not, sign, seconds, fraction, and the suffix left. |
| CandumpLines.ParseCommonPrefix | data_load_candump/candump_parser.cpp:213-235 | The shared prefix decides the line or yields timestamp, interface and the suffix that both grammars continue with. |
| CandumpLines.ParseLogBody | data_load_candump/candump_parser.cpp:240-300 | The log body's branches, on positions, compute the log grammar's reading of the suffix. |
| CandumpLines.ParseScreenBody | data_load_candump/candump_parser.cpp:305-442 | The screen body's branches, on positions, compute the screen grammar's reading of the suffix. |
| CandumpLines.ParseDropCount | data_load_candump/candump_parser.cpp:449-477 | A drop notice never becomes malformed; the count is the digit run modulo 2^64, the interface the first quoted text. |
| CandumpLines.ParseLine | data_load_candump/candump_parser.cpp:586-626 | For a line that is neither a detail nor a drop line: the log parse unless malformed, else the screen parse unless malformed, else the log result, although the prefix is parsed only once. |
| CandumpLines.BodiesExclusive | data_load_candump/candump_parser.cpp:240-442 | No text behind a valid prefix is accepted by both body grammars. |
| CandumpLines.NeverBoth | data_load_candump/candump_parser.cpp:560-626 | No line is accepted as a frame by both line parsers. |
| CandumpLines.TrialOrderIrrelevant | data_load_candump/candump_parser.cpp:600-626 | Trying the screen grammar first would accept the same lines with the same results. |
| CandumpLines.AcceptedFrame | data_load_candump/candump_parser.cpp:586-626 | An accepted frame line has a numeric timestamp, a non-empty interface and the grammar that accepted it. |
| CandumpPrint.LogRoundTrip | data_load_candump/candump_parser.hpp:8-30 | A classic data frame printed in log shape parses back to the same id, extended flag, payload, timestamp, interface and direction. |
| CandumpPrint.ScreenRoundTrip | data_load_candump/candump_parser.hpp:8-30 | The same for the screen shape, with any column padding and any flag pair. |
| CandumpKinds.IdExactly | data_load_candump/candump_parser.cpp:188-202 | An identifier printed with one to eight hex digits: with eight, bit 29 makes it an error frame; otherwise the id is its low 29 bits, extended with more than three digits or above 0x7FF. |
| CandumpKinds.LogLineKinds | data_load_candump/candump_parser.cpp:240-300 | In log shape, for any prefix, identifier and direction: an error identifier makes an error frame; else "##" an FD frame, "#R" or "#r" a remote request, a colon behind the "#" an XL frame. |
| CandumpKinds.ScreenLineKinds | data_load_candump/candump_parser.cpp:305-409 | In screen shape, for any prefix, identifier, flags and padding: an error identifier makes an error frame; else "[NN]" an FD frame, "[NNNN]" before a parenthesised group an XL frame, "[N]" or "{H}" before "remote request" a remote request. |
| CandumpKinds.CodeSuffixDropped | data_load_candump/candump_parser.cpp:270-282 | The "_H" suffix behind the data of a log line changes nothing. |
| CandumpKinds.CodedBytes | data_load_candump/candump_parser.cpp:411-442 | Behind a "{H}" column the bytes that are there are the data. |
| CandumpKinds.NineBytesRefused | data_load_candump/candump_parser.cpp:273-290 | Hex for more than eight bytes is no classic frame. |
| CandumpKinds.ShortDataRefused | data_load_candump/candump_parser.cpp:412-427 | Fewer bytes than a "[N]" column says are no classic data. |
| CandumpKinds.WallClockLine | data_load_candump/candump_parser.cpp:215-228 | A parenthesised text that is no plain number makes a wall-clock line. |
| CandumpKinds.DetailLine | data_load_candump/candump_parser.cpp:585-592 | A line that starts with a tab continues an error frame. |
| CandumpKinds.DropLine | data_load_candump/candump_parser.cpp:444-480 | A drop notice with any count below 2^64 parses to that count and the interface between its first two quotes. |
| CandumpClock.CombineRawNsExact | data_load_candump/candump_parser.cpp:483-494 | For every fraction below a second in size, the result is the exact sum saturated to int64 if and only if seconds and fraction do not have opposite signs, or the exact sum lies at the end of the range the seconds point to. |
| CandumpClock.NegativeFractionCounterexample | data_load_candump/candump_parser.cpp:490-492 | "(-1.5)" is read as -1 s and 0.5 s and becomes the earliest int64 instant, where the text says -1500000000 ns. |
| CandumpClock.LostSign | data_load_candump/candump_parser.cpp:171-172 | "(-0.5)" is read as 0 s and 0.5 s and becomes +500000000 ns, where the text says -500000000 ns. |
| CandumpClock.LineStamp | data_load_candump/candump_parser.cpp:628-634 | The stamp of a line with a numeric timestamp is that of the text between its parentheses, even when the body does not parse. |
| CandumpClock.RawTimestampExact | data_load_candump/candump_parser.cpp:145-168 | For every line whose digit runs fit, the raw time is the written number, sign * (whole * 10^9 + fraction), saturated to int64, if and only if there is no minus, the fraction is zero, or the number is at or below the int64 minimum; without a minus it is min(whole * 10^9 + fraction, 2^63 - 1). |
| CandumpClock.LongSecondsWrap | data_load_candump/candump_parser.cpp:133-136 | The seconds 9223372036854775808 become the earliest instant, where saturation would give the latest. |
| CandumpClock.DataLinesAreStamped | data_load_candump/candump_parser.cpp:632-634 | Every data line the parser returns has a numeric timestamp, so its timeline position exists. |
| CandumpClock.TimelineClock.Advance | data_load_candump/candump_parser.cpp:636-655 | One advance computes the clamped new sum without an intermediate value leaving int64, or changes nothing for an unstamped line. |
| CandumpClock.AbsolutePosition | data_load_candump/candump_parser.cpp:636-655 | Outside delta mode a stamped line sits at its own raw time, whatever came before it, and any other line has no position. |
| CandumpClock.AbsolutePositionOfText | data_load_candump/candump_parser.cpp:632-655 | Outside delta mode a line whose stamp has no minus and fits sits at min(whole * 10^9 + fraction, 2^63 - 1), its digits as written, whatever lines came before. |
| CandumpClock.ClockIsClampedSum | data_load_candump/candump_parser.cpp:636-655 | After any lines the delta clock stands at the left-to-right clamped sum of the raw times of all stamped lines, whatever their kind. |
| CandumpClock.DeltaPosition | data_load_candump/candump_parser.cpp:641-652 | A stamped line sits at that clamped sum up to and including itself. |
| CandumpClock.ClampedSumExact | data_load_candump/candump_parser.cpp:642-651 | Every prefix of the clamped sum is the plain sum if and only if no prefix sum leaves int64. |
| CandumpClock.DeltaNeverDecreases | data_load_candump/candump_parser.cpp:641-652 | The timeline never steps back when no delta is negative. |
| CandumpPrescan.DetectTimeMode | data_load_candump/candump_parser.cpp:657-686 | The pre-pass decides by the documented rule on the list of all numeric stamps of the non-blank lines within the cap. |
| CandumpPrescan.WindowExactly | data_load_candump/candump_parser.cpp:712-728 | The prescan reads the first lines that are not blank, in order, up to the cap. |
| CandumpPrescan.SeenExactly | data_load_candump/candump_parser.cpp:506-521 | Of a stamp without a minus that fits, the pre-pass sees its whole seconds and min(whole * 10^9 + fraction, 2^63 - 1) nanoseconds. |
| CandumpPrescan.TimeModeExactly | data_load_candump/candump_parser.cpp:526-540 | Absolute means no stamp or a first one of at least 10^9 s; delta means a smaller first stamp and some stamp below an earlier one. |
| CandumpPrescan.PrescanCandump | data_load_candump/candump_parser.cpp:712-817 | One pass yields the totals, per-interface rows and time mode that the parsed non-blank lines within the cap define. |
| CandumpPrescan.CountersExactly | data_load_candump/candump_parser.cpp:724-792 | The counters of recognised lines are the numbers of lines of each kind. |
| CandumpPrescan.CountsAddUp | data_load_candump/candump_parser.cpp:724-760 | Lines scanned = malformed + error detail + wall clock + drop notices + log-shaped + screen-shaped. |
| CandumpPrescan.FramesPerInterface | data_load_candump/candump_parser.cpp:794-812 | Log- and screen-shaped lines sum to the frames over all distinct interfaces; each row counts its own frames and the cardinality of its id set. |
| CandumpPrescan.SameStampExactly | data_load_candump/candump_parser.cpp:506-521 | Prefix-only and full parse take the same stamp from a line if and only if the line is not a valid stamp before an unparsable body. |
| CandumpPrescan.StampListsAgree | data_load_candump/candump_parser.cpp:665-683 | On non-blank lines the two stamp lists are equal if and only if there is no such line. |
| CandumpPrescan.TimeModesAgree | data_load_candump/candump_parser.hpp:276-285 | For any lines and cap: if no line both scans read hides a stamp, their stamps are the same if and only if the lines only the prescan reads hold no frame; if those hold none, if and only if no stamp is hidden; and the same stamps give the same time mode. |
| CandumpPrescan.NothingBeyond | data_load_candump/candump_parser.hpp:276-285 | Without a blank line among those read, or when all lines fit the cap, both scans read the same lines. |
| CandumpScanGap.BlankLineGap | data_load_candump/candump_parser.hpp:276-285 | A leading blank line and a cap of one give the two scans different time modes. |
| CandumpScanGap.BrokenBodyGap | data_load_candump/candump_parser.hpp:276-285 | A valid stamp before an unparsable body gives the two scans different time modes. |
| PointLayout.ComputeLayout | data_load_3d/cloud_common.cpp:127-151 | The running-offset loop yields the prefix-sum layout or the first error in field order. |
| PointLayout.LayoutAcceptsExactly | data_load_3d/cloud_common.cpp:127-151 | A layout is accepted if and only if every type is known and the exact sum of field sizes fits 32 bits. |
| PointLayout.LayoutIsLayout | data_load_3d/cloud_common.cpp:138-151 | Accepted layouts place every field at the exact sum of the sizes before it, and every offset fits 32 bits. |
| PointLayout.FieldsDisjoint | data_load_3d/cloud_common.cpp:127-151 | Fields occupy disjoint ranges, in order, inside the stride. |
| PointLayout.OffsetFits64 | data_load_3d/cloud_common.cpp:135-144 | The 64-bit running offset cannot overflow, because it is checked before every addition. |
| PointCloud.SwapBodyTwice | data_load_3d/cloud_common.cpp:193-205 | Reversing every element of a body twice gives the body back. |
| PointCloud.SwapBodyAt | data_load_3d/cloud_common.cpp:199-203 | Byte b of element e of field k of point p comes from the mirrored byte of the same element. |
| PointCloud.SwapBodyInto | data_load_3d/cloud_common.cpp:193-205 | The four nested loops leave the buffer equal to the element-wise reversed body, every byte of it assigned exactly once. |
| PointCloud.SwapKeepsNumbers | data_load_3d/cloud_common.cpp:193-205 | Every element of a big-endian body denotes the same number as the element at the same place of the little-endian result. |
| PointCloud.OversizedExactly | data_load_3d/cloud_common.cpp:175-177 | The dividing guard rejects exactly when points times stride exceeds 2 GiB. |
| PointCloud.BuildPointCloud | data_load_3d/cloud_common.cpp:153-242 | The imperative builder computes the specified cloud or error for either byte order. |
| PointCloud.BigEndianIsSwappedLittle | data_load_3d/cloud_common.cpp:182-205 | Big-endian decoding of a body equals little-endian decoding of the element-wise reversed body, and the other way round. |
| PointCloud.BuildAcceptsExactly | data_load_3d/cloud_common.cpp:153-205 | A cloud is accepted if and only if the layout is, points have fields, the payload is at most 2 GiB and the body has the exact size. |
| PointCloud.RowStepExactly | data_load_3d/cloud_common.hpp:33-36 | The 32-bit row step of an accepted cloud is the exact product if and only if height >= 1 or that product fits. |
| PointCloud.RowStepCounterexample | data_load_3d/cloud_common.cpp:229 | Without rows an accepted cloud can declare a row step cut to 32 bits. |
| PcdTranspose.TransposedCell | data_load_3d/pcd_reader.cpp:130-141 | For every field and point, aos[pt*step + off ..] and soa[n*off + pt*size ..] agree over the whole cell, both inside their buffers. |
| PcdTranspose.InterleavedFieldMajor | data_load_3d/pcd_reader.cpp:130-141 | Interleaving the field-major form of any packed body gives the body back. |
| PcdTranspose.Transpose | data_load_3d/pcd_reader.cpp:130-141 | The scatter loops produce the packed points and write every output byte exactly once, no index out of bounds. |
| PcdTranspose.CopyRange | data_load_3d/pcd_reader.cpp:136-138 | One memcpy changes exactly its range and counts one write there. |
| PcdReader.DatatypeHasSize | data_load_3d/pcd_reader.cpp:19-54 | A supported TYPE/SIZE pair always names a type of exactly SIZE bytes. |
| PcdHeader.KindExactly | data_load_3d/pcd_reader.cpp:19-54 | A TYPE letter and SIZE name a type if and only if they are the pair a writer puts for it: I, U and F with the sizes of the eight types. |
| PcdReader.Scanned | data_load_3d/pcd_reader.cpp:164-211 | The header loop over the file bytes yields the header, the DATA mode and the body behind the DATA line, or the first refusal. |
| PcdReader.TableOf | data_load_3d/pcd_reader.cpp:213-254 | The field table is read with the source's order of checks and first error; HeaderRoundTrip says what the table is. |
| PcdReader.DecodeBinaryCompressed | data_load_3d/pcd_reader.cpp:83-145 | The guards, decompression, transposition and build, in order, give the specified cloud or error. |
| PcdReader.CompressedIsBinary | data_load_3d/pcd_reader.cpp:83-145 | With LZF as an inverse pair, the compressed transpose of any packed body, whatever trails it, decodes like that body in binary mode, errors included. |
| PcdReader.CompressedAcceptsExactly | data_load_3d/pcd_reader.cpp:83-128 | A compressed body is accepted if and only if the table is, bytes 4 to 7 are the size of all points, bytes 0 to 3 that of a block that is there, and the block decompresses to just that size. |
| PcdReader.ReadPcd | data_load_3d/pcd_reader.cpp:149-264 | A file is read as its header says, in the mode its DATA line names. |
| PcdHeader.HeaderRoundTrip | data_load_3d/pcd_reader.cpp:149-264 | Any table printed as header lines, ended by a newline or a carriage return and a newline, with or without COUNT, is read back: the cloud is dense, has exactly that width, height and row step, fields of exactly those names, types and counts, each at the sum of the sizes before it, and the body's bytes; a body of any other size, a stride above 2^32 - 1 or more than 2 GiB is refused. |
| PcdHeader.LinesScanned | data_load_3d/pcd_reader.cpp:164-211 | Any header lines, in any order and repeated, are scanned to the header they declare one after the other. |
| PcdHeader.CommentsIgnored | data_load_3d/pcd_reader.cpp:176-182 | Comments and lines of blanks change nothing. |
| PcdHeader.DimensionRefused | data_load_3d/pcd_reader.cpp:192-205 | A WIDTH or HEIGHT that is no 32-bit number refuses the file. |
| PcdHeader.TableExactly | data_load_3d/pcd_reader.cpp:213-254 | A header gives a table if and only if it has the dimensions, a known mode, as many sizes, types and (if any) counts as names, and every column declares the field by its name, TYPE letter, SIZE and COUNT. |
| PcdReader.ScanContinues | data_load_3d/pcd_reader.cpp:164-211 | What follows whole header lines is read with the header those lines built. |
| PcdReader.BinaryModesAgree | data_load_3d/pcd_reader.cpp:149-264 | Two files with the same header lines, one with a packed body and one with its compressed transpose, read as the same cloud or fail with the same error. |
| CsvSplit.TrimExactly | data_load_csv/timestamp_parsing.cpp:13-20 | Trimming leaves no blank at either end, and changes exactly the texts that have one. |
| CsvSplit.SplitLine | data_load_csv/csv_parser.cpp:88-116 | The character loop with its quote flag computes the recursive splitter. |
| CsvSplit.SplitUndoesQuoting | data_load_csv/csv_parser.cpp:88-116 | Any non-empty list of fields, each quoted with doubled quotes or bare, joined by a non-quote separator, splits back into the trimmed fields. |
| CsvSplit.QuotesHide | data_load_csv/csv_parser.cpp:88-116 | Double quotes around a text hide every separator in it. |
| CsvSplit.BlanksExactly | data_load_csv/timestamp_parsing.cpp:13-20 | The blanks trimmed are exactly space, tab, carriage return and newline. |
| CsvSplit.SplitIsIdentityExactly | data_load_csv/csv_parser.cpp:88-116 | The fields come back unchanged if and only if none starts or ends with a blank. |
| CsvSplit.PartsAreCountPlusOne | data_load_csv/csv_parser.cpp:13-24 | The part count of any line is one plus the detector's count outside quotes, although the two treat doubled quotes differently. |
| CsvSplit.DetectDelimiterEx | data_load_csv/csv_parser.cpp:12-82 | The delimiter is that of the one eligible candidate no other eligible one beats, a comma when there is none; ambiguous exactly when two different hard delimiters occur. |
| CsvSplit.DetectedSplitsMost | data_load_csv/csv_parser.cpp:56-71 | A detected hard delimiter splits the header into at least as many parts as any other hard one. |
| CsvSplit.SpaceDetectedExactly | data_load_csv/csv_parser.cpp:56-77 | A space is detected if and only if at least two runs of spaces outnumber every hard delimiter. |
| CsvSplit.DelimiterExactly | data_load_csv/csv_parser.cpp:49-83 | Written out: a space when its runs win; else the most frequent of tab, semicolon and comma, in this order where they tie; a comma when there is none. |
| CsvSplit.CountsExactly | data_load_csv/csv_parser.cpp:11-47 | Counted are the separators, and the starts of runs of spaces, behind an even number of quotes. |
| CsvSplit.SpaceBeatsComma | data_load_csv/csv_parser.hpp:13-17 | A header with a comma can still be given a space as delimiter. |
| CsvRows.LinesAddUp | data_load_csv/csv_parser.cpp:270-397 | Every line is either a row or counted as skipped, and every row has one cell per column. |
| CsvRows.LineExactly | data_load_csv/csv_parser.cpp:270-388 | Every line behind the header, from the reading before it: of another field count it is skipped; else it fixes the type of columns that had none, and is skipped exactly when its time does not read. A row's time is that of the trimmed date and time cells, else of the trimmed time cell in the custom format or under its column's type, else the number of rows before; each cell is kept as a number or a text, epochs as plain numbers, and not at all if it is empty or part of the time. |
| CsvRows.StoreRow | data_load_csv/csv_parser.cpp:356-388 | The cell loop appends one accepted line to the columns and leaves all other points as they were. |
| CsvRows.ParseCsvRows | data_load_csv/csv_parser.cpp:270-397 | The reading ends at the first line after which the callback says stop, else with the last; each column then holds exactly its cells of the accepted rows in row order, the skip count is theirs, and the non-monotonic flag is set exactly when a time column is in use and some row's time is below the one before it. |
| CsvRows.EndIsUnique | data_load_csv/csv_parser.cpp:390-396 | The callback's answers determine where a reading ends, and whether it was stopped. |
| CsvRows.ParseCsvData | data_load_csv/csv_parser.cpp:200-414 | The same, flag, types and stop included, for the whole input behind the skipped rows and the header; without a header nothing is read, and a complete reading accounts for every line. |
| CsvImport.ColumnsOfExactly | data_load_csv/csv_source.cpp:164-189 | Every data column is in exactly one of the numeric and the text list, ascending, and no other column is. |
| CsvImport.ClassifyColumns | data_load_csv/csv_source.cpp:164-189 | The classification loop builds these two lists. |
| CsvImport.StableSortSorts | data_load_csv/csv_source.cpp:229-230 | Sorting orders the points by timestamp and permutes them. |
| CsvImport.StableSortIsStable | data_load_csv/csv_source.cpp:229-230 | Points with the same timestamp keep their order. |
| CsvImport.FlattenedGroups | data_load_csv/csv_source.cpp:233-263 | Grouping loses, adds and reorders nothing. |
| CsvImport.GroupsOfSorted | data_load_csv/csv_source.cpp:233-263 | Grouping a sorted list gives one record per occurring timestamp, strictly increasing, each holding every field stamped with it. |
| CsvImport.WriteGroups | data_load_csv/csv_source.cpp:233-263 | The nested loops write the groups in order up to the first record the host refuses. |
| CsvImport.KeptOfRowExactly | data_load_csv/csv_source.cpp:164-226 | A field is kept of a row if and only if it is a non-empty data cell whose class is its column's. |
| CsvImport.RecordsAreSortedPoints | data_load_csv/csv_source.cpp:212-263 | For any input: record times strictly increase, the records in order are a permutation of the kept points, and each record holds exactly the kept cells of the rows with its timestamp. |
| CsvImport.RecordsAreRows | data_load_csv/csv_source.cpp:212-263 | With pairwise distinct row timestamps every record is exactly one row's kept cells, every row with kept cells has its record, and no two records share a time. |
| CsvImport.ImportData | data_load_csv/csv_source.cpp:81-263 | Fails exactly when the reading did not finish and the user did not stop it. Otherwise it writes the records of the rows read, all lines unless stopped, up to the first one the host refuses; complete output is the sorted, grouped kept points, and one record per row when row timestamps are distinct. |
| UlogFlatten.CollectFlatFieldNames | data_load_ulog/ulog_flatten.hpp:46-81 | The recursive name loop appends exactly the names of the format's leaves. |
| UlogFlatten.CollectFlatLeaves | data_load_ulog/ulog_flatten.hpp:92-123 | The recursive visitor visits exactly the leaves of the format. |
| UlogFlatten.FieldsAligned | data_load_ulog/ulog_flatten.hpp:46-123 | For every nested format the two traversals yield equally long lists whose entries belong to the same leaf paths, in the same order. |
| UlogFlatten.PathsExactly | data_load_ulog/ulog_flatten.hpp:46-123 | The paths listed are exactly those that pass no skipped field and stay within every array. |
| UlogRecords.LoggedExactly | data_load_ulog/ulog_flatten.hpp:138-150 | The checked size is the start of a last padding field, or else the sum of all field sizes without the bytes of every field whose name occurred before. |
| UlogRecords.LeavesWithinLogged | data_load_ulog/ulog_flatten.hpp:84-150 | With cumulative offsets and distinct names in nested formats, all emitted byte ranges are pairwise disjoint; they end within the checked size if and only if the format ends in padding or the bytes of its repeated-name fields do not exceed the bytes behind its last leaf. |
| UlogRecords.SizeByNameIsTotal | data_load_ulog/ulog_flatten.hpp:144-147 | With distinct names the name-keyed size is the exact sum of the field sizes. |
| UlogRecords.DuplicateNamesUndercount | data_load_ulog/ulog_flatten.hpp:144-147 | With a repeated name an accepted record takes the null branch. |
| UlogRecords.FindTimestampOffset | data_load_ulog/ulog_flatten.hpp:158-167 | Returns the first top-level scalar uint64 field named timestamp with a resolved offset, if any. |
| UlogRecords.ClockInRangeExactly | data_load_ulog/ulog_source.cpp:326-330 | The timestamp read is in range if and only if the format ends in padding or the bytes of its repeated-name fields do not exceed the bytes of the fields after the clock. |
| UlogRecords.ClockReadPastEnd | data_load_ulog/ulog_source.cpp:316-330 | With two 64-bit fields of one name before the clock, a 16-byte record passes the check and its clock is read from bytes 16 to 24. |
| UlogRecords.StampIsOwn | data_load_ulog/ulog_source.cpp:325-331 | In range, the stamp depends on the record alone, and nanoseconds are exact up to 2^63 / 1000 microseconds. |
| UlogRecords.NeverNullExactly | data_load_ulog/ulog_source.cpp:118-130 | For formats whose nested formats have distinct names: no record that passes the size check takes the null branch, if and only if the format ends in padding or the bytes of its repeated-name fields do not exceed the bytes behind its last leaf. |
| UlogRecords.NeverNullByFurthestEnd | data_load_ulog/ulog_source.cpp:118-130 | For every resolved format, nested formats with repeated names included: no record that passes the size check takes the null branch, if and only if there is no leaf or the furthest leaf end is within the checked size. |
| UlogRecords.LastLeaf | data_load_ulog/ulog_flatten.hpp:92-123 | The last leaf of a format ends exactly the tail's bytes before the format does. |
| UlogRecords.DistinctIsCovered | data_load_ulog/ulog_flatten.hpp:144-147 | Distinct field names always meet that condition. |
| UlogRecords.UntilNul | data_load_ulog/ulog_flatten.hpp:174-178 | A string ends before its first NUL byte, or fills its array. |
| UlogRecords.ExtractFlatValues | data_load_ulog/ulog_source.cpp:118-130 | One value per leaf, in leaf order. |
| UlogValues.ValuesReadBack | data_load_ulog/ulog_source.cpp:118-130 | Any bytes put at the places of the leaves of a covered format, in any long enough record, are read back: with the field's kind, in path order, a char array up to its first NUL. |
| UlogValues.ValueExactly | data_load_ulog/ulog_source.cpp:118-130 | The j-th value is what the bytes at the j-th leaf's place mean, and null when they are not all there. The place is the sum of the sizes before each field on the path plus element times element size. |
| UlogValues.ColumnNamed | data_load_ulog/ulog_flatten.hpp:43-90 | The j-th column is named by the fields on the j-th leaf's path with dots between them, each array followed by its element number of at least two digits. |
| UlogValues.SkippedExactly | data_load_ulog/ulog_flatten.hpp:22-26 | Skipped are the name timestamp and every name that starts with _padding. |
| UlogValues.ClockExactly | data_load_ulog/ulog_flatten.hpp:158-167 | The clock is the first top-level scalar uint64 field named timestamp; without one the sample index counts as microseconds. |
| UlogRecords.ImportSamples | data_load_ulog/ulog_source.cpp:262-350 | Every sample long enough becomes a record in order, its clock read where the format says, in range or not; the others are counted as short, until the host refuses one. |
| UlogRecords.SamplesAddUp | data_load_ulog/ulog_source.cpp:315-325 | Records and short samples add up to all samples. |
| UlogRecords.RecordsAreComplete | data_load_ulog/ulog_source.cpp:334-349 | Every record written for a format that meets it has exactly one value per field name, none null. |
| LerobotSlice.ImportEpisode | data_load_lerobot/lerobot_plugin.cpp:427-513 | For every split into batches, empty ones included, the rows visited are a prefix of the clipped window, each once and in order, `processed` is their count; unless stopped or refused it is the whole window, so the early breaks lose none and the split never shows. A stop comes right behind a batch with rows of the window. |
| LerobotSlice.ImportBatch | data_load_lerobot/lerobot_plugin.cpp:440-505 | Trimming one batch to the window moves on by exactly its rows inside the window. |
| LerobotSlice.ImportRows | data_load_lerobot/lerobot_plugin.cpp:462-503 | Each row is stamped with its frame index relative to the episode's first row; a row without values writes nothing but is counted. |
| LerobotSlice.EmittedExactly | data_load_lerobot/lerobot_plugin.cpp:462-503 | The records of an episode are one for each row with a cell, in order, with the row's cells, stamped by its timestamp and its frame index or else by its place relative to the episode's first row. |
| LerobotSlice.EpisodesPartition | data_load_lerobot/lerobot_plugin.cpp:423-436 | Episode ranges that partition the table visit every row exactly once overall. |
| LerobotVideo.ResolveEmitSlice | data_load_lerobot/lerobot_video_window.cpp:7-39 | With a window: the last keyframe presented at or before start (else unit 0), and from there the last unit presented before end; without one, everything. |
| LerobotVideo.SliceIsUnique | data_load_lerobot/lerobot_video_window.cpp:22-38 | That description determines the slice. |
| LerobotVideo.SliceStartsAtKeyframe | data_load_lerobot/lerobot_video_window.cpp:22-30 | For a keyframe-first list and any window the slice is non-empty, in range and starts at a keyframe. |
| LerobotVideo.CoversWindowExactly | data_load_lerobot/lerobot_video_window.cpp:22-38 | The slice holds every unit presented in the window if and only if none of them is decoded before the seek-back keyframe. |
| LerobotVideo.WindowIsDecodable | data_load_lerobot/lerobot_video_window.hpp:30-40 | With closed GOPs the slice holds the whole window and, for each of its units, everything back to the keyframe it depends on. |
| LerobotVideo.AlignedSlice | data_load_lerobot/lerobot_video_window.cpp:22-38 | With units between two keyframes decoded and presented between them, a window from one keyframe's time to a later one's is exactly the units from the one up to but not including the other. |
| LerobotVideo.LeadingPictureIsLost | data_load_lerobot/lerobot_video_window.hpp:38-40 | With an open GOP a picture presented inside the window can be left out. |
| LerobotVideo.ImportCamera | data_load_lerobot/lerobot_plugin.cpp:580-610 | Exactly the slice is pushed, in decode order, up to the first refusal. |
| LerobotVideo.FramesKeepOrder | data_load_lerobot/lerobot_plugin.cpp:597-603 | Store keys keep the decode order, and exactly the unit presented at the origin lands on 0. |
| BridgeFrame.ReadMessage | data_stream_pj_bridge/pj_bridge_protocol.cpp:57-94 | One round of bounds checks and cursor moves reads the message at the cursor, and the cursor never passes the end. |
| BridgeFrame.ReadMessages | data_stream_pj_bridge/pj_bridge_protocol.cpp:57-97 | The cursor loop returns the messages of the walk, as offsets into the buffer. |
| BridgeFrame.ParseBinaryFrame | data_stream_pj_bridge/pj_bridge_protocol.cpp:11-98 | A frame is accepted exactly when its header, declared size and compression are in order and the walk gets through all messages. |
| BridgeFrame.HeaderExactly | data_stream_pj_bridge/pj_bridge_protocol.cpp:15-50 | A frame byte by byte: it starts with "PJRB", bytes 4 to 7 are the count, 12 to 15 are zero, and the compressed payload starts at byte 16 and declares at most 256 MiB. |
| BridgeFrame.MessageExactly | data_stream_pj_bridge/pj_bridge_protocol.cpp:57-94 | A message byte by byte: a 16-bit topic length, the topic, a 64-bit two's complement timestamp, a 32-bit payload length and the payload, the low byte first. |
| BridgeFrame.WalkEncoded | data_stream_pj_bridge/pj_bridge_protocol.cpp:53-97 | Walking the encoding of any list within the 16- and 32-bit length fields returns that list, whatever follows. |
| BridgeFrame.WalkedIsEncoding | data_stream_pj_bridge/pj_bridge_protocol.cpp:53-97 | Every accepted payload begins with the encoding of the returned list, and the rest is what the walk left. |
| BridgeFrame.WalkAcceptsExactly | data_stream_pj_bridge/pj_bridge_protocol.cpp:53-97 | A payload is accepted if and only if it starts with the encoding of some list of that many messages. |
| BridgeFrame.FrameRoundTrip | data_stream_pj_bridge/pj_bridge_protocol.cpp:11-107 | With ZSTD as an inverse pair, a sent frame parses to the list sent if its payload is at most 256 MiB, and is refused otherwise. |
| McapBinding.BindParsers | data_load_mcap/mcap_source.cpp:236-324 | The two loops leave the per-file bindings, requests and errors of the specification; "any binding" is set exactly when some request was answered. |
| McapBinding.OneRequestPerTopic | data_load_mcap/mcap_source.cpp:236-324 | Across all files no two binding requests name the same topic. |
| McapBinding.BoundToTheAnswer | data_load_mcap/mcap_source.cpp:236-324 | A bound channel has the handle its topic's one request was answered with. |
| McapBinding.OneHandlePerTopic | data_load_mcap/mcap_source.cpp:236-324 | All bound channels of one topic, in whatever files, share one handle. |
| McapBinding.BoundExactly | data_load_mcap/mcap_source.cpp:245-258 | A channel ends up bound if and only if it is selected and its topic has a handle once it has been looked at. |
| McapRequests.RequestsAreFirsts | data_load_mcap/mcap_source.cpp:236-324 | And every request is that of such a channel, with the host's answer to it. |
| McapRequests.FirstsAreRequested | data_load_mcap/mcap_source.cpp:236-324 | The first selected channel of a topic whose schema is not missing leads to a request, if it has an encoding at all. |
| McapRequests.RequestMeans | data_load_mcap/mcap_source.cpp:253-310 | The parser encoding, type name and ROS 1 flag a channel's request asks for, by its message encoding and its schema. |
| McapImport.Importer.PushMessage | data_load_mcap/mcap_source.cpp:449-494 | One push updates log, counters and abort as specified and says whether to go on. |
| McapImport.Importer.ReadOneFile | data_load_mcap/mcap_source.cpp:544-617 | One file, with the choice of order and the file-order retry. |
| McapImport.Importer.ImportData | data_load_mcap/mcap_source.cpp:540-660 | The file loop and the verdict; without a binding nothing is read. |
| McapImport.ImportAccounted | data_load_mcap/mcap_source.cpp:432-494 | Throughout, every counter is a function of the log of offers: accepted offers, rejections in a row, offers short of an abort; accepted never exceeds pushed, and the import is aborted exactly after a hundredth rejection in a row. |
| McapImport.AbortedExactly | data_load_mcap/mcap_source.cpp:456-470 | The import is aborted if and only if somewhere a hundred offers in a row were rejected. |
| McapImport.PushStopsExactly | data_load_mcap/mcap_source.cpp:449-494 | A push stops the scan exactly at the hundredth rejection in a row, or at a multiple of a thousand when progress or host says so. |
| McapImport.FileReadExactly | data_load_mcap/mcap_source.cpp:544-617 | A file without message indexes is read in file order; any other by its index, and again in file order exactly when that failed with nothing pushed or accepted and no stop requested; a read in file order ends well when it met only problems with single channels or schemas. |
| McapImport.ViewExactly | data_load_mcap/mcap_source.cpp:599-617 | The status of the recording is ok if and only if every file that was read ended with an ok status, after its retry if it had one. |
| McapImport.VerdictExactly | data_load_mcap/mcap_helpers.hpp:77-113 | An uncancelled success means exactly that no hundred pushes in a row failed, every file read ended well, and something was accepted or nothing was offered; partial and failed have equally exact conditions. |
| McapImport.AcceptedAtMostOnce | data_load_mcap/mcap_source.cpp:587-615 | No message of any file is accepted by the host twice, even when a failed indexed read is retried in file order. |
| McapImport.FileOnce | data_load_mcap/mcap_helpers.hpp:115-132 | One file keeps accepted messages pairwise distinct, whether or not it is retried. |
| McapImport.ScanOffers | data_load_mcap/mcap_source.cpp:449-494 | A scan offers exactly its bound messages, in order, up to the point where a push says stop. |
| McapImport.WillingHostGetsAll | data_load_mcap/mcap_source.cpp:540-617 | A host that takes everything and never stops is offered every bound message of every file in order, recovered files in physical order. |
| McapImport.OneHandleForTopicMessages | data_load_mcap/mcap_source.cpp:236-324 | Messages of one topic, across all files and retries, all go through the handle of that topic's one request. |
| LslNames.NumberedInjective | data_stream_lsl/lsl_conversions.hpp:143-146 | The numbered candidates of a base are pairwise different. |
| LslNames.CandidatesFitUsed | data_stream_lsl/lsl_conversions.hpp:143-146 | A finite used set cannot hold more candidates than it has elements, so the search ends. |
| LslNames.ClaimName | data_stream_lsl/lsl_conversions.hpp:142-147 | The search loop terminates and returns the first numbered candidate not in use. |
| LslNames.ClaimAllDistinct | data_stream_lsl/lsl_conversions.hpp:134-149 | Claimed names are pairwise distinct. |
| LslNames.ClaimAllKeepsOrder | data_stream_lsl/lsl_conversions.hpp:134-149 | The i-th name is the i-th base, possibly numbered. |
| LslNames.UniqueTopicNames | data_stream_lsl/lsl_conversions.hpp:124-149 | One name per stream, in order, pairwise distinct, for every input, streams literally named like a suffixed form included. |
| LslNames.CandidateExactly | data_stream_lsl/lsl_conversions.hpp:131-141 | A stream asks for its own name when no other has it, else for the name with its source id in parentheses, else with the number of earlier such streams without a source id. |
| LslNames.PassesThroughExactly | data_stream_lsl/lsl_conversions.hpp:118-123 | A stream gets the name it asks for, its own when that occurs once, if and only if no earlier stream got that name. |
| LslNames.AllPassThroughExactly | data_stream_lsl/lsl_conversions.hpp:118-123 | Every stream gets the name it asks for if and only if no two streams ask for the same. |
| LslNames.SingleNameChanged | data_stream_lsl/lsl_conversions.hpp:118-123 | A name that occurs once is changed when another stream's generated name took it first. |
| LslNames.ChannelLabels | data_stream_lsl/lsl_conversions.hpp:154-188 | Exactly channel_count labels (none for a negative count), in order and pairwise distinct. |
| LslNames.LabelExactly | data_stream_lsl/lsl_conversions.hpp:154-188 | A channel keeps its label, or channel_<i> where it has none, exactly when no earlier channel took it, and otherwise gets a number behind it. |

## Left out

- Foxglove legacy mode: a repeated advertise there registers the same channel again, so the one-id equation is not promised.
- Foxglove advertising to the host, JSON decoding, user messages: they read the tables and change none of them.
- FoxgloveRuns.SubscriptionEquation: holds while fewer than 2^32 ids have been handed out since the last reset (as do the lemmas on replay, ids and pushes), because a wrapped id can overwrite a live subscription.
- Threads and sockets: callbacks are arrival actions, and every poll action runs to its end before the next.
- CandumpPrint.LogRoundTrip: frames carry a time within 64-bit seconds, as the capture's own clock does.
- candump text emitters and the CAN/DBC decoding behind the parser.
- ASCII point bodies and PLY headers: an ASCII body is an arbitrary function of its bytes and field table.
- LZF and ZSTD are arbitrary functions; round trips assume that decompression undoes compression.
- CSV column naming and its duplicate suffixes, combined date/time detection: generated suffixes can collide with literal names.
- CSV timestamps are reals and seconds-to-nanoseconds is an arbitrary function; value and date recognition likewise. Not-a-number and infinities are not represented.
- CSV interactive prompts, which can abort an import before anything is written.
- CsvSplit.PartsAreCountPlusOne: the separator must not be the quote character, which the splitter never treats as a separator.
- UlogRecords.ExtractFlatValues: a numeric value is its kind and its bytes; the conversion to a machine number, a bool's to 0 or 1 among them, is not represented.
- ULog container parsing, parameters and info messages. Of two fields with one name the library's size map is taken to keep the first. Records of one subscription only; what a read past a record yields is any 64-bit word.
- LeRobot dataset discovery, Arrow column types and the video demuxer: rows are given with their non-null planned values, units in decode order.
- McapImport.Importer.ImportData: an exception thrown by a reader, which fails the import, is not represented; nor are lazy payload fetchers, the choice between log and publish time, and warning texts.
- McapBinding.BindParsers: channels are visited in a given order, the source's being that of a hash map; the parser configuration text is reduced to the request's identity and the serialization flag.
- BridgeFrame.ReadMessages: a message's payload is an offset into the buffer where the source keeps an address.
- LSL timestamps, channel formats and sample values: conversions without state.
- Dialogs, configuration files, progress reporting, MQTT and ZMQ clients, and the remaining plugins.
