# we515mqtt in Dafny

A model of we515mqtt, a small daemon that polls a WE515 energy meter over
Modbus TCP and publishes one JSON record per second to MQTT. It also models
the message parser of the companion MQTT-to-InfluxDB bridge.

The model covers these parts of the daemon:

- **Codec** (`codec.dfy`). The byte-pair and register-pair codec. `word2tuple`, `tuple2word` and
  `tuple2long` are modelled on bit-vectors, so their OR semantics are exact.
- **Modbus** (`modbus.dfy`). The holding-register map of the meter. A read fetches one to three
  consecutive registers, and a write sets a single register. Every call appends the request it
  issued to a log. A read that the meter refuses raises. A refused write goes unnoticed, because
  the program never inspects write replies.
- **DeviceClock** (`clock.dfy`). The meter's clock at 0x8120..0x8122. This covers
  `_get_device_time`, `_set_device_time`, and Python `datetime` validity and
  subtraction. It also covers the start-up rule that rewrites the clock when
  the clock drifts more than ten seconds.
- **Telemetry** (`telemetry.dfy`). The thirteen reads of `_read_data` and the `publish` step,
  which stamps the record with the capture time.
- **Multirate** (`multirate.dfy`). `set_multirate_limits`, the tariff schedule at 0x8100..0x810F.
- **Guard** (`guard.dfy`). `GracefulInterrupt`. The process's signal-handler table is a map, and
  signal arrivals are explicit events.
- **Manager** (`manager.dfy`). `setup`, `run` and `cleanup`. A run is a pure function of what
  the outside world does: the meter contents at each pass, the clock
  readings, and the signals that arrive. The run produces the ordered trace
  of client calls and the way the process ends.
- **Bridge** (`bridge.dfy`). `_parse_mqtt_message` of mqttinfluxbridge.py. It covers the topic regex
  `/(\w+)/(\w+)/(\w+)`, the `timestamp` pop and the single InfluxDB point.

`results.dfy` holds the shared `Result`/`Option` types and the error kinds.

## Model

| member | source | states |
|---|---|---|
| Codec.Word2Tuple | we515mqtt.py:16-17 | the high and low byte of a register rejoin, shift-and-or, to the register |
| Codec.Tuple2Word | we515mqtt.py:19-20 | joining two registers with `(high << 8) \| low` gives a value below 2^24 |
| Codec.Tuple2Long | we515mqtt.py:22-23 | `(high << 16) \| low` keeps both registers intact: the top half is `high`, the bottom half is `low` |
| Codec.LongIsSum | we515mqtt.py:22-23 | the 32-bit join is the arithmetic value `high * 65536 + low` |
| Codec.BytesToRegister | we515mqtt.py:19-20 | two bytes joined by `tuple2word` form a register whose high byte and low byte are the inputs |
| Codec.SplitJoin | we515mqtt.py:25-26 | `word2tuple(tuple2word(h, l)) == (h, l)` for all bytes |
| Codec.JoinSplit | we515mqtt.py:16-20 | every register is rebuilt from its two bytes |
| Codec.WordLowByteExact | we515mqtt.py:19-20 | the low byte of a word join is the low byte of `low` |
| Codec.WordHighPartAbsorbs | we515mqtt.py:19-20 | the part above the low byte is `high` OR-ed with the high byte of `low` |
| Codec.WordIsSumIffDisjoint | we515mqtt.py:19-20 | the word join equals `high * 256 + low` exactly when the shifted `high` and `low` share no bit |
| Codec.WordIsSumOfByte | we515mqtt.py:19-20 | when `low` is a byte, the word join is `high * 256 + low` |
| Codec.WordOfRegistersLosesBits | we515mqtt.py:108-110 | two different register pairs read by `_read_word` can give the same value, and the value need not be the arithmetic sum |
| Modbus.ReadHolding | we515mqtt.py:105 | a read succeeds exactly when every requested address exists, and returns those registers in order |
| Modbus.WriteRegister | we515mqtt.py:80 | a write raises exactly when the value does not fit 16 bits; otherwise it sets an existing register, leaves a missing one missing, and changes nothing else |
| Modbus.WriteOps | we515mqtt.py:80-87 | the i-th request of a run of writes targets `base + i` with the i-th value |
| Modbus.WriteAll | we515mqtt.py:80-87 | a run of writes keeps the register set and issues only writes, at most one per value; with no request sent, the meter is unchanged |
| Modbus.WriteAllSucceedsIff | we515mqtt.py:80-87 | a run of writes raises exactly when some value does not fit 16 bits; missing target registers do not make it raise |
| Modbus.WriteAllOps | we515mqtt.py:80-87 | a run that does not raise sends one write per value, in address order, whether the meter accepts them or not |
| Modbus.WriteAllContents | we515mqtt.py:80-87 | after a run that does not raise, every target register the meter has holds its value |
| Modbus.WriteAllStopsAtFailure | we515mqtt.py:97-102 | a run that raises stops at its first value too wide for a register: every earlier value was sent and fits, and nothing later was sent |
| Modbus.WriteAllBlind | we515mqtt.py:80-87 | the outcome and the requests of a run of writes are the same on any meter: the program never looks at write replies |
| Modbus.WriteAllFrame | we515mqtt.py:80-87 | registers outside the written range never change |
| DeviceClock.DaysInMonth | we515mqtt.py:95 | month lengths are 28 to 31, and 29 exactly for February of a leap year |
| DeviceClock.NewDateTime | we515mqtt.py:95 | `datetime(...)` succeeds exactly on valid fields and raises ValueError otherwise |
| DeviceClock.EncodeClock | we515mqtt.py:97-102 | a time packs into three registers exactly when its year is 2000 to 2255; each register holds (year - 2000, month), (day, hour) and (minute, second) as its two bytes |
| DeviceClock.DecodeClock | we515mqtt.py:89-95 | three registers decode to a valid datetime in 2000..2255 with no microseconds, or fail with ValueError |
| DeviceClock.DecodeThenEncode | we515mqtt.py:89-102 | a clock the meter reports is written back as exactly the same three registers |
| DeviceClock.GetDeviceTime | we515mqtt.py:89-95 | reading the clock issues one three-register read at 0x8120, changes nothing, and fails when the registers are missing |
| DeviceClock.SetDeviceTime | we515mqtt.py:97-102 | a year outside 2000..2255 is refused before any write reaches the meter |
| DeviceClock.ClockRoundTrip | we515mqtt.py:89-102 | writing a representable time takes three writes to 0x8120..0x8122, and reading the clock back gives that time without its microseconds |
| DeviceClock.Drift | we515mqtt.py:175 | the drift is `abs(local - remote).total_seconds()`: never negative, and zero exactly when the two instants coincide |
| DeviceClock.MonthTableConsistent | we515mqtt.py:175 | the cumulative month table used for the difference agrees with the month lengths |
| DeviceClock.YearLengthConsistent | we515mqtt.py:175 | consecutive years differ by 365 or 366 days, following the leap rule |
| DeviceClock.SyncClock | we515mqtt.py:173-183 | the clock sync starts with a clock read; a failed read raises out of setup with nothing else sent; the register set never changes, and without a write the meter is unchanged |
| DeviceClock.SyncWithoutDrift | we515mqtt.py:173-179 | at most ten seconds of drift: setup reads the clock once and writes nothing |
| DeviceClock.SyncWithDrift | we515mqtt.py:179-183 | beyond ten seconds: one read, three writes to 0x8120..0x8122, one more read; afterwards the clock shows the second `now()` |
| DeviceClock.SyncWritesIffDrift | we515mqtt.py:173-183 | setup writes to the meter if and only if the drift exceeds ten seconds |
| DeviceClock.TenSecondsIsNotDrift | we515mqtt.py:179 | a drift of exactly ten seconds is tolerated, eleven are not |
| Telemetry.Width | we515mqtt.py:104-114 | a field reads one register for `_read_byte` and two otherwise |
| Telemetry.Compose | we515mqtt.py:106-114 | one register is kept whole, a word join is below 2^24, and a long join keeps both registers |
| Telemetry.ReadField | we515mqtt.py:104-114 | a field's read succeeds exactly when its registers exist; its value is the composed raw value times the scale |
| Telemetry.ReadOps | we515mqtt.py:122-150 | the i-th request is the read of the i-th field |
| Telemetry.ReadFields | we515mqtt.py:122-168 | a failed sample is a communication error raised after at most all reads; a full one issued every read |
| Telemetry.ReadFieldsOkIff | we515mqtt.py:122-168 | a sample succeeds exactly when every field is readable |
| Telemetry.ReadFieldsRecord | we515mqtt.py:154-166 | a successful record has exactly the field names as keys, each holding its field's scaled value |
| Telemetry.ReadFieldsOpsOnSuccess | we515mqtt.py:122-150 | a successful sample issues the reads in table order |
| Telemetry.ReadFieldsOpsOnFailure | we515mqtt.py:122-150 | a failed sample stops at the first unreadable field, leaving no partial record |
| Telemetry.FieldNamesDistinct | we515mqtt.py:154-166 | the thirteen names are pairwise distinct |
| Telemetry.FieldNames | we515mqtt.py:154-166 | the record's names are exactly freq, voltage, current, active/reactive/apparent power, power factor and the six energy counters |
| Telemetry.ReadData | we515mqtt.py:122-168 | `_read_data` sends all thirteen reads when it succeeds; otherwise it raises a communication error after at most thirteen |
| Telemetry.ReadDataOps | we515mqtt.py:123-149 | `_read_data` issues the thirteen reads at the listed addresses and widths, in order |
| Telemetry.ReadDataComplete | we515mqtt.py:122-168 | `_read_data` succeeds exactly when all thirteen fields are readable, and then returns all thirteen values |
| Telemetry.TimestampNotAField | we515mqtt.py:154-201 | `timestamp` is not a field name, so stamping cannot overwrite a reading |
| Telemetry.Publish | we515mqtt.py:195-205 | the message goes to the configured topic at QoS 1, with the record's keys plus `timestamp` |
| Telemetry.PublishAddsOnlyTimestamp | we515mqtt.py:195-205 | a published sample carries the thirteen readings unchanged plus the capture time |
| Multirate.ScheduleValues | we515mqtt.py:79-87 | the sixteen values are (hstart, mstart), rate 1, (hend, mend), rate 2, and twelve zeros |
| Multirate.SetMultirateLimits | we515mqtt.py:79-87 | the call never raises, sends the sixteen planned writes, and keeps the register set |
| Multirate.MultirateContents | we515mqtt.py:79-87 | every schedule register the meter has takes its value; no other register changes |
| Multirate.MultirateWrites | we515mqtt.py:79-87 | on a meter with all sixteen schedule registers: writes to 0x8100..0x810F in order, after which they hold (hstart, mstart), 1, (hend, mend), 2 and zeros |
| Guard.NewGuard | we515mqtt.py:35-38 | a new guard keeps its signals and `delayed` flag and has nothing saved or captured |
| Guard.Install | we515mqtt.py:43-45 | every guarded signal gets the hook, other signals keep their handler, earlier saved entries persist |
| Guard.Enter | we515mqtt.py:40-45 | entering clears the capture and installs the hook on exactly the guarded signals |
| Guard.EnterSaves | we515mqtt.py:40-45 | for distinct signals, entering saves the handler that was installed for each |
| Guard.DuplicateSignalSavesHook | we515mqtt.py:43-45 | a signal listed twice is saved the second time as the hook, losing the original handler |
| Guard.Deliver | we515mqtt.py:47-49 | a signal arrival records (signal, frame) and changes nothing else |
| Guard.DeliverAll | we515mqtt.py:47-49 | after several arrivals, the last one is the capture |
| Guard.FirstForeign | we515mqtt.py:53-54 | the position of the first guarded signal whose handler `signal.getsignal` reported as None, which is where reinstalling fails |
| Guard.SavedForeign | we515mqtt.py:43-45 | entering saves a handler installed outside Python as None, so the guard's saved handlers cannot all be reinstalled either |
| Guard.Restore | we515mqtt.py:53-54 | leaving reinstalls the saved handlers in order and touches no other signal; it fails exactly when some saved handler is None, and then the signals from that one on keep what they had |
| Guard.ReplayAsWritten | we515mqtt.py:58 | calling the saved handler: SIG_DFL, SIG_IGN and None raise TypeError, `default_int_handler` raises KeyboardInterrupt, another Python handler runs and then the block goes on |
| Guard.ExitAsWritten | we515mqtt.py:51-60 | `__exit__` restores the saved handlers up to the first None and leaves other signals alone; a saved None raises TypeError before the capture is looked at; otherwise, with no capture the body's outcome stands, undelayed it is `sys.exit(0)`, and delayed it raises TypeError for an uncallable saved handler and otherwise agrees with the intended dispatch |
| Guard.Dispatch | we515mqtt.py:57-58 | the intended replay agrees with the code on every callable handler, never raises TypeError itself, and lets the body go on under SIG_IGN or a default action that ignores the signal |
| Guard.Exit | we515mqtt.py:51-60 | leaving restores the same table as the code, agrees with it whenever the replay is callable or a saved None stops the restoring loop, and introduces no TypeError beyond that loop's |
| Guard.Guarded | we515mqtt.py:40-60 | a guarded block, exiting as written, keeps the set of signals in the table, and raises TypeError whenever a guarded signal's handler was installed outside Python |
| Guard.GuardedIntended | we515mqtt.py:40-60 | the block with the intended replay leaves the same table, equals the code when not delayed or when no signal arrived, and raises TypeError only when the body did or a guarded handler was installed outside Python |
| Guard.GuardedRestores | we515mqtt.py:40-60 | after a guarded block, the signals before the first one whose handler was installed outside Python have their handler back, that one and the later ones keep the hook, and other signals are untouched; with no such handler the table is the one the block started with |
| Guard.GuardedOutcome | we515mqtt.py:51-60 | a guarded handler installed outside Python: TypeError, whatever the body did; otherwise no arrival gives the body's own outcome, and an arrival in an undelayed guard gives `sys.exit(0)`, replacing any exception of the body |
| Guard.GuardedDelayedOutcome | we515mqtt.py:56-58 | an arrival in a delayed guard whose handlers can all be reinstalled: the code's call of the handler saved for the last captured signal, with its frame |
| Guard.GuardedIntendedOutcome | we515mqtt.py:57-58 | with the intended replay, a delayed block whose handlers can all be reinstalled hands the last captured signal to the handler installed before the block |
| Guard.DelayedReplayOfDefaultRaisesTypeError | we515mqtt.py:57-58 | a delayed guard catching SIGTERM under SIG_DFL, with SIGINT's handler not installed outside Python, raises TypeError as written, both for the exit alone and the whole block, and re-delivers SIGTERM as intended |
| Guard.DelayedDefault | we515mqtt.py:51-58 | the same for any distinct guarded signals whose handlers can be reinstalled and a captured signal under SIG_DFL whose default action ends the process |
| Manager.BusEvents | we515mqtt.py:89-114 | each Modbus request becomes one bus event in order, none of them cleanup |
| Manager.PublishedAppend | we515mqtt.py:205 | the publications of a joined trace are those of its parts, in order |
| Manager.Setup | we515mqtt.py:170-188 | setup connects first, succeeds exactly when the clock sync does, and then ends with MQTT connect and loop start; it publishes nothing |
| Manager.Configured | we515mqtt.py:212-213 | each pass reads the thirteen fields under a guard on SIGINT and SIGTERM |
| Manager.Body | we515mqtt.py:213-216 | the guarded body completes normally exactly when the sample succeeds, and otherwise raises the communication error |
| Manager.Escape | we515mqtt.py:217-223 | an exception leaves the loop as itself; a re-delivered signal kills the process |
| Manager.RunCycle | we515mqtt.py:211-216 | a pass keeps the handler table's signal set and never runs cleanup |
| Manager.Passes | we515mqtt.py:211-216 | one pass per cycle, none running cleanup |
| Manager.CyclePublishes | we515mqtt.py:212-216 | a pass publishes one message exactly when its reads succeed, whatever signals arrive: the thirteen readings and the timestamp on the topic at QoS 1 |
| Manager.CycleRestores | we515mqtt.py:212 | a pass leaves the handler table as it found it exactly when no guarded signal's handler was installed outside Python |
| Manager.CycleOutcome | we515mqtt.py:211-223 | a guarded handler installed outside Python ends the pass with TypeError; otherwise a signal during the guard ends it with SystemExit(0), a failed read raises, and a signal between guards meets its own handler |
| Manager.PassesUnderStartTable | we515mqtt.py:211-216 | the first pass sees the start-up handler table, and when the guarded handlers can be reinstalled every pass does |
| Manager.ExitCode | we515mqtt.py:217-223 | SystemExit and KeyboardInterrupt leave exit code 0; any other exception sets it to 1 |
| Manager.Loop | we515mqtt.py:210-227 | the loop ends still polling, with an exit status, or terminated by a signal |
| Manager.LoopCleanup | we515mqtt.py:224-225 | when the loop leaves through an exception, cleanup is the last two calls and occurs nowhere else; otherwise there is no cleanup |
| Manager.LoopPolling | we515mqtt.py:211 | the loop is still polling exactly when every pass went on |
| Manager.LoopFirstStop | we515mqtt.py:211-223 | the first pass that stops decides the status, and later passes are never run |
| Manager.RunManager | we515mqtt.py:207-208 | a run fails in setup exactly when the clock sync fails |
| Manager.ProcessExit | we515mqtt.py:224-227 | the process has an exit status exactly when the loop was left through an exception, which gives the loop's exit code, or setup failed, which gives 1 |
| Manager.RunCleanup | we515mqtt.py:207-227 | across a whole run, cleanup happens once, as the last two calls, exactly when the `finally` runs |
| Manager.CleanupAfterSetup | we515mqtt.py:208-225 | setup calls placed before the loop do not disturb where cleanup sits |
| Manager.RunWithoutSetup | we515mqtt.py:208 | a failed setup propagates with its error before the loop and before cleanup |
| Manager.RunAfterSetup | we515mqtt.py:208-227 | after a good setup, the run is setup's calls followed by the loop's |
| Manager.StopOutcome | we515mqtt.py:211-223 | a stopping pass exits 1 exactly when a guarded handler was installed outside Python or the reads failed with no signal in the guard; 0 for a guarded signal or a handler raising KeyboardInterrupt; terminated for a foreign handler or a default action that ends the process |
| Manager.BetweenGuards | we515mqtt.py:211-223 | a signal between two guards lets the loop go on unless its handler raises KeyboardInterrupt, which leaves with that exception, or the signal ends the process |
| Manager.LoopStopsAt | we515mqtt.py:211-223 | the loop's status is that of the first pass that stops |
| Manager.RunExitStatus | we515mqtt.py:207-227 | with Python's start-up handlers, exit 1 iff the stopping pass failed its reads without a guarded signal; 0 iff a guarded signal or SIGINT between guards; SIGTERM between guards terminates |
| Manager.StartupStop | we515mqtt.py:211-223 | the same for one stopping pass under the start-up handlers |
| Manager.ContinuesAtStartup | we515mqtt.py:211-216 | under the start-up handlers, a pass goes on exactly when its reads succeed and no signal arrives |
| Manager.LoopPollsWhile | we515mqtt.py:211 | the run's loop polls exactly while every pass goes on |
| Manager.RunPolling | we515mqtt.py:207-216 | under the start-up handlers, the run is still polling iff every pass read the meter and no signal arrived |
| Bridge.MatchTopic | mqttinfluxbridge.py:56-59 | a match yields three non-empty words from a topic that starts with a slash |
| Bridge.WordRun | mqttinfluxbridge.py:56 | `\w+` takes the longest run of word characters |
| Bridge.Segment | mqttinfluxbridge.py:56 | one `/(\w+)` group is a slash, a non-empty word, and a remainder that does not continue the word |
| Bridge.WordRunOfWord | mqttinfluxbridge.py:56 | a word run extends across a word prefix |
| Bridge.SegmentOf | mqttinfluxbridge.py:56 | a slash and a word followed by anything parse as that word plus the rest of the run |
| Bridge.MatchComplete | mqttinfluxbridge.py:56-59 | every topic of the shape `/a/b/c...` matches, with groups a, b and the maximal word run starting at c |
| Bridge.MatchSound | mqttinfluxbridge.py:56-59 | a match means the topic starts with `/a/b/c` for three words, with the third group maximal |
| Bridge.MatchExample | mqttinfluxbridge.py:56-59 | `/dommu/common/energy/x` matches as (dommu, common, energy) |
| Bridge.MismatchExample | mqttinfluxbridge.py:56-58 | an empty segment, as in `/dommu//energy`, does not match |
| Bridge.Pop | mqttinfluxbridge.py:61 | popping a present key returns its value and the rest of the dict; a missing key raises KeyError |
| Bridge.ParseMessage | mqttinfluxbridge.py:55-72 | unmatched topics are ignored; otherwise exactly one point is written when the payload decodes with a convertible `timestamp`; the point is named by the measurement, tagged with the location, timed by the converted stamp, and has the remaining fields; bad JSON and a missing stamp raise |
| Bridge.UnmatchedIgnoresPayload | mqttinfluxbridge.py:56-58 | the payload of an unmatched topic is never looked at |
| Bridge.PointTimeFromTimestampOnly | mqttinfluxbridge.py:61-69 | the point's time depends only on `timestamp`, which never appears among the fields |

## Left out

- I/O clients: ModbusTcpClient and paho-mqtt are replaced by a register map and a trace of calls.
  - Connection errors and the `rc` of `_on_connect` are not modelled.
  - A transport failure, such as a lost connection or a timeout, raises in pymodbus. It is not modelled: the meter always answers.
  - A read of a register the meter lacks gets an exception reply. The program's `rr.registers` then raises, which the model reports as CommunicationError.
  - A value outside 0..0xFFFF, which pymodbus cannot encode, raises before anything is sent. The model reports it as RegisterRange.
- Time:
  - `datetime.now()` and `time.time()` are inputs.
  - `time.sleep` is a Sleep event.
  - Timestamps are exact reals, not Python floats.
  - The meter's contents are a snapshot per pass, not changing during a pass.
- Logging, the `payload` string built in `publish`, and JSON serialization are left out. The published payload is the record map itself.
- Signals:
  - Real asynchrony is not modelled. Arrivals are explicit: during the guarded body, or between two guards.
  - A saved Python handler (`Replayed`) is assumed to return.
  - Default actions follow Linux's signal numbers: SIGCHLD, SIGCONT, SIGURG and SIGWINCH are ignored by default.
  - Signals arriving while setup or cleanup runs are left out.
- The `__main__` argument handling and the bridge's InfluxDB/MQTT clients are left out. `json.loads` and the timestamp-to-ISO conversion are parameters of `ParseMessage`.
- `\w` is modelled as ASCII `[A-Za-z0-9_]`. Python's Unicode word characters are not modelled.
- Floating-point rounding of the scaled readings is not modelled.
- Bridge.ParseMessage: a payload that is not JSON, or that lacks `timestamp`, makes `json.loads` or `pop('timestamp')` raise out of the message callback. The model reports this as Failed(DecodeError) or Failed(KeyError). What paho does with that exception is not modelled.
- Guard.Exit: keeps the code's restoring loop, so a saved None still raises TypeError there. Only the replay of the capture is corrected.
- Manager.Escape: a re-delivered signal is taken to end the process in two cases. One is a handler installed outside Python, whose code the model cannot see. The other is a default action other than ignoring, which includes the stop signals SIGTSTP, SIGTTIN and SIGTTOU; a stopped process may later be continued, which is not modelled.
- Manager.AdmissibleFor: during the guarded body, only the guarded signals SIGINT and SIGTERM may arrive. Another signal arriving there, for example SIGHUP under SIG_DFL, is not modelled.
- Manager.RunExitStatus: requires that a signal arriving between guards is SIGINT or SIGTERM. For other signals, Manager.StopOutcome states the outcome in terms of the installed handler.
- Manager.ContinuesAtStartup: requires that a signal arriving between guards is SIGINT or SIGTERM, for the same reason.
- Manager.RunPolling: requires that signals arriving between guards are SIGINT or SIGTERM, for the same reason.
- Multirate.SetMultirateLimits: the hours and minutes are taken as bytes. The code would pass larger integers to `tuple2word` unchecked.

## Findings

| source | as written | input that shows it | evidently intended | confidence | as-written member | corrected member |
|---|---|---|---|---|---|---|
| we515mqtt.py:57-58 | a delayed guard replays a capture by calling the saved handler; SIG_DFL and SIG_IGN are not callable, so this raises TypeError (a saved None fails earlier, at line 54, in the code and in the correction alike) | `GracefulInterrupt(delayed=True)` while SIGTERM still has SIG_DFL, with SIGTERM arriving in the body | the saved disposition takes effect: SIG_DFL re-delivers the signal, SIG_IGN drops it, Python handlers are called | not executed; high | Guard.ExitAsWritten, Guard.Guarded, Guard.DelayedReplayOfDefaultRaisesTypeError | Guard.Exit, Guard.Dispatch, Guard.GuardedIntended |
