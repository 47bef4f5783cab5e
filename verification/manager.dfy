/** `WE515Manager.setup`, `run` and `cleanup` of we515mqtt.py: connect to
    the meter, bring its clock in line, start the MQTT client, then sample
    and publish once a second, each pass under a `GracefulInterrupt`, until
    an exception leaves the loop; cleanup runs once on the way out.

    The run is a pure function of what the outside world does: the meter's
    register contents at each pass, the wall-clock readings, and the signals
    that arrive.  What it produces is the ordered trace of client calls. */
module Manager {
  import opened Results
  import opened Modbus
  import opened DeviceClock
  import opened Telemetry
  import opened Guard

  /** Seconds slept after each publication (`self.delay`). */
  const DELAY: nat := 1

  /** One call on the Modbus or MQTT client, or a sleep. */
  datatype Event =
    | MbusConnect
    | Bus(op: Op)
    | MqttConnect
    | MqttLoopStart
    | MqttPublish(message: Message)
    | Sleep(seconds: nat)
    | MqttLoopStop
    | MbusClose

  /** `cleanup`: stop the MQTT network thread, then close the Modbus link. */
  const CLEANUP: seq<Event> := [MqttLoopStop, MbusClose]

  predicate IsCleanup(e: Event)
  {
    e.MqttLoopStop? || e.MbusClose?
  }

  predicate NoCleanup(evs: seq<Event>)
  {
    forall i :: 0 <= i < |evs| ==> !IsCleanup(evs[i])
  }

  /** Cleanup appears once, as the last two calls, when the loop was left
      through its `finally`, and not at all otherwise. */
  predicate CleanupShape(evs: seq<Event>, st: Status)
  {
    && (st.Exited? ==> |evs| >= 2 && evs[|evs| - 2..] == CLEANUP && NoCleanup(evs[..|evs| - 2]))
    && (!st.Exited? ==> NoCleanup(evs))
  }

  function BusEvents(ops: seq<Op>): (evs: seq<Event>)
    ensures |evs| == |ops| && NoCleanup(evs)
    ensures forall i :: 0 <= i < |ops| ==> evs[i] == Bus(ops[i])
  {
    seq(|ops|, i requires 0 <= i < |ops| => Bus(ops[i]))
  }

  /** The messages handed to the MQTT client, in order. */
  function Published(evs: seq<Event>): (ms: seq<Message>)
    ensures |ms| <= |evs|
    decreases |evs|
  {
    if |evs| == 0 then []
    else (if evs[0].MqttPublish? then [evs[0].message] else []) + Published(evs[1..])
  }

  /** `setup`: connect, read the device clock, rewrite it with `later` when
      it is more than ten seconds away from `local`, then start the MQTT
      client.  Any failure raises before the main loop's `try`, so nothing
      after it happens and no cleanup runs. */
  function Setup(dev: Device, local: DateTime, later: DateTime): (s: (seq<Event>, Result<()>))
    requires Valid(local) && Valid(later)
    ensures |s.0| > 0 && s.0[0] == MbusConnect
    ensures s.1.Ok? <==> SyncClock(dev, local, later).result.Ok?
    ensures s.1.Err? ==> s.1 == SyncClock(dev, local, later).result
    ensures s.1.Ok? ==> |s.0| >= 3 && s.0[|s.0| - 2..] == [MqttConnect, MqttLoopStart]
    ensures NoCleanup(s.0) && Published(s.0) == []
  {
    var sync := SyncClock(dev, local, later);
    var evs := [MbusConnect] + BusEvents(sync.ops);
    SetupEvents(sync.ops);
    if sync.result.Err? then
      (evs, Err(sync.result.error))
    else
      (evs + [MqttConnect, MqttLoopStart], Ok(()))
  }

  /** The calls of setup around its Modbus requests publish nothing and
      are not cleanup. */
  lemma SetupEvents(ops: seq<Op>)
    ensures var evs := [MbusConnect] + BusEvents(ops);
      && NoCleanup(evs) && Published(evs) == []
      && NoCleanup(evs + [MqttConnect, MqttLoopStart]) && Published(evs + [MqttConnect, MqttLoopStart]) == []
  {
    var evs := [MbusConnect] + BusEvents(ops);
    var tail := [MqttConnect, MqttLoopStart];
    PublishedOfBus(ops);
    PublishedAppend([MbusConnect], BusEvents(ops));
    PublishedAppend(evs, tail);
    NoCleanupAppend([MbusConnect], BusEvents(ops));
    NoCleanupAppend(evs, tail);
    assert tail[1..] == [MqttLoopStart];
    assert [MqttLoopStart][1..] == [];
  }

  /** What the outside world does during one pass of the main loop: the
      meter's registers when it is read, the time `publish` stamps, the
      signals that arrive while the guard is in place, and one that may
      arrive after the guard is left and before the next is entered. */
  datatype Cycle = Cycle(meter: Device, timestamp: real, during: seq<Capture>, between: Option<Capture>)

  /** What a pass works with: the MQTT topic, the register table
      `_read_data` walks and the signals its guard protects. */
  datatype Config = Config(topic: string, fields: seq<Field>, guarded: seq<Signal>)

  /** The manager as the program builds it: the thirteen fields and a
      guard with its default signals. */
  function Configured(topic: string): (cfg: Config)
    ensures cfg.fields == FIELDS && cfg.guarded == [SIGINT, SIGTERM] && Distinct(cfg.guarded)
  {
    Config(topic, FIELDS, DEFAULT_SIGNALS)
  }

  /** Every guarded signal has a disposition to save; only guarded signals
      arrive while the guard is in place; any signal with a disposition may
      arrive between guards. */
  predicate Admissible(cfg: Config, c: Cycle, table: Table)
  {
    AdmissibleFor(cfg, c, table.Keys)
  }

  predicate AdmissibleFor(cfg: Config, c: Cycle, installed: set<Signal>)
  {
    && (forall i :: 0 <= i < |cfg.guarded| ==> cfg.guarded[i] in installed)
    && (forall i :: 0 <= i < |c.during| ==> c.during[i].sig in cfg.guarded)
    && (c.between.Some? ==> c.between.value.sig in installed)
  }

  /** The guarded block: sample, publish, sleep.  A failed read raises. */
  function Body(cfg: Config, c: Cycle): (b: (seq<Event>, Completion))
    ensures b.1 == Normal <==> ReadFields(c.meter, cfg.fields).record.Ok?
    ensures b.1 != Normal ==> b.1 == Raised(Failure(CommunicationError))
    ensures NoCleanup(b.0)
  {
    var s := ReadFields(c.meter, cfg.fields);
    var evs := BusEvents(s.ops);
    match s.record
    case Err(e) => (evs, Raised(Failure(e)))
    case Ok(record) =>
      (evs + [MqttPublish(Publish(cfg.topic, record, c.timestamp)), Sleep(DELAY)], Normal)
  }

  /** How a pass leaves the loop, if it does. */
  datatype Outcome = Continue | Throw(exc: Exception) | Killed(sig: Signal)

  /** The effect of a completion on the surrounding code: a handler that
      returns lets it go on, a re-delivered signal ends the process. */
  function Escape(c: Completion): (o: Outcome)
    ensures c.Raised? ==> o == Throw(c.exc)
    ensures c.Redelivered? ==> o == Killed(c.sig)
  {
    match c
    case Normal => Continue
    case Raised(e) => Throw(e)
    case Replayed(_, _, rest) => Escape(rest)
    case Redelivered(sig) => Killed(sig)
  }

  /** A signal meeting `h` ends the process: a foreign handler is taken
      to, and so is a default action other than ignoring the signal. */
  predicate EndsProcess(h: Handler, sig: Signal)
  {
    h == Foreign || (h == Default && sig !in DEFAULT_IGNORED)
  }

  /** The calls one pass makes and how it ends. */
  datatype Pass = Pass(events: seq<Event>, outcome: Outcome)

  /** One pass of `while True`: the guarded body, then the signal that may
      arrive before the next guard, under the handlers then installed.
      Also returns the handler table the pass leaves behind. */
  function RunCycle(cfg: Config, c: Cycle, table: Table): (r: (Pass, Table))
    requires Admissible(cfg, c, table)
    ensures r.1.Keys == table.Keys
    ensures NoCleanup(r.0.events)
  {
    var (evs, body) := Body(cfg, c);
    var (t, done) := Guarded(cfg.guarded, false, table, c.during, body);
    var out :=
      if Escape(done) == Continue && c.between.Some? then
        Escape(Dispatch(t[c.between.value.sig], c.between.value, Normal))
      else Escape(done);
    (Pass(evs, out), t)
  }

  predicate Continues(cfg: Config, c: Cycle, table: Table)
    requires Admissible(cfg, c, table)
  {
    RunCycle(cfg, c, table).0.outcome == Continue
  }

  /** The passes over the given cycles, each under the table the previous
      one left.  The loop below stops at the first pass that does not go
      on, so the later ones never take place. */
  function Passes(cfg: Config, cycles: seq<Cycle>, table: Table): (ps: seq<Pass>)
    requires forall i :: 0 <= i < |cycles| ==> Admissible(cfg, cycles[i], table)
    ensures |ps| == |cycles|
    ensures forall i :: 0 <= i < |ps| ==> NoCleanup(ps[i].events)
    decreases |cycles|
  {
    if |cycles| == 0 then []
    else
      var r := RunCycle(cfg, cycles[0], table);
      AdmissibleLater(cfg, cycles, table, r.1);
      [r.0] + Passes(cfg, cycles[1..], r.1)
  }

  /** The later cycles stay admissible under a table with the same signals. */
  lemma AdmissibleLater(cfg: Config, cycles: seq<Cycle>, table: Table, t: Table)
    requires |cycles| > 0 && t.Keys == table.Keys
    requires forall i :: 0 <= i < |cycles| ==> Admissible(cfg, cycles[i], table)
    ensures forall i :: 0 <= i < |cycles[1..]| ==> Admissible(cfg, cycles[1..][i], t)
  {
    forall i | 0 <= i < |cycles[1..]| ensures Admissible(cfg, cycles[1..][i], t) {
      assert cycles[1..][i] == cycles[i + 1];
      assert Admissible(cfg, cycles[i + 1], table);
    }
  }

  /** Where the run stands after the cycles given: still polling, left the
      loop with an exit status, ended by a signal, or failed in setup. */
  datatype Status = Polling | Exited(code: int) | Terminated(sig: Signal) | SetupFailed(error: Error)

  /** The `except` clauses: SystemExit and KeyboardInterrupt leave
      `exit_code` at 0, any other exception sets it to 1. */
  function ExitCode(e: Exception): (code: int)
    ensures code == 0 <==> e.SystemExit? || e.KeyboardInterrupt?
    ensures code == 0 || code == 1
  {
    if e.SystemExit? || e.KeyboardInterrupt? then 0 else 1
  }

  /** The status a stopping pass leads to. */
  function StatusOf(o: Outcome): Status
  {
    match o
    case Continue => Polling
    case Throw(e) => Exited(ExitCode(e))
    case Killed(sig) => Terminated(sig)
  }

  /** The main loop and its `try`/`finally`: an exception runs cleanup and
      sets the exit status; a signal's default action ends the process at
      once. */
  function Loop(passes: seq<Pass>): (r: (seq<Event>, Status))
    ensures r.1.Polling? || r.1.Exited? || r.1.Terminated?
    decreases |passes|
  {
    if |passes| == 0 then ([], Polling)
    else if passes[0].outcome == Continue then
      var rest := Loop(passes[1..]);
      (passes[0].events + rest.0, rest.1)
    else
      var p := passes[0];
      (p.events + (if p.outcome.Throw? then CLEANUP else []), StatusOf(p.outcome))
  }

  datatype Run = Run(events: seq<Event>, status: Status)

  /** `run`: setup, then the loop.  `local` and `later` are the two readings
      of `datetime.now()` that setup takes. */
  function RunManager(dev: Device, local: DateTime, later: DateTime, topic: string,
                      cycles: seq<Cycle>, table: Table): (r: Run)
    requires Valid(local) && Valid(later)
    requires forall i :: 0 <= i < |cycles| ==> Admissible(Configured(topic), cycles[i], table)
    ensures r.status.SetupFailed? <==> SyncClock(dev, local, later).result.Err?
  {
    var (sev, ok) := Setup(dev, local, later);
    if ok.Err? then Run(sev, SetupFailed(ok.error))
    else
      var (lev, st) := Loop(Passes(Configured(topic), cycles, table));
      Run(sev + lev, st)
  }

  /** The interpreter's exit status, once there is one: the loop's exit
      code, or 1 for an exception out of setup. */
  function ProcessExit(st: Status): (code: Option<int>)
    ensures code.Some? <==> st.Exited? || st.SetupFailed?
    ensures st.Exited? ==> code == Some(st.code)
    ensures st.SetupFailed? ==> code == Some(1)
  {
    match st
    case Exited(c) => Some(c)
    case SetupFailed(_) => Some(1)
    case _ => None
  }

  // ---- Event bookkeeping

  lemma {:induction false} PublishedAppend(a: seq<Event>, b: seq<Event>)
    ensures Published(a + b) == Published(a) + Published(b)
    decreases |a|
  {
    if |a| > 0 {
      assert (a + b)[1..] == a[1..] + b;
      PublishedAppend(a[1..], b);
    } else {
      assert a + b == b;
    }
  }

  lemma {:induction false} PublishedOfBus(ops: seq<Op>)
    ensures Published(BusEvents(ops)) == []
    decreases |ops|
  {
    if |ops| > 0 {
      assert BusEvents(ops)[1..] == BusEvents(ops[1..]);
      PublishedOfBus(ops[1..]);
    }
  }

  lemma NoCleanupAppend(a: seq<Event>, b: seq<Event>)
    requires NoCleanup(a) && NoCleanup(b)
    ensures NoCleanup(a + b)
  {
    assert forall i :: |a| <= i < |a + b| ==> (a + b)[i] == b[i - |a|];
  }

  // ---- Properties of one pass

  /** Each pass publishes exactly one message when its reads succeed and
      none when they fail, whatever signals arrive: the guard lets the
      publication finish.  The message is the thirteen fields and the pass's
      timestamp, at QoS 1. */
  lemma CyclePublishes(topic: string, c: Cycle, table: Table)
    requires Admissible(Configured(topic), c, table)
    ensures var ms := Published(RunCycle(Configured(topic), c, table).0.events);
      && (ReadData(c.meter).record.Err? ==> ms == [])
      && (ReadData(c.meter).record.Ok? ==>
            |ms| == 1 && ms[0].topic == topic && ms[0].qos == QOS
            && ms[0].payload.Keys == Names(FIELDS) + {TIMESTAMP_KEY}
            && ms[0].payload[TIMESTAMP_KEY] == c.timestamp)
  {
    var s := ReadData(c.meter);
    PublishedOfBus(s.ops);
    if s.record.Ok? {
      PublishAddsOnlyTimestamp(topic, c.meter, c.timestamp);
      var tail := [MqttPublish(Publish(topic, s.record.value, c.timestamp)), Sleep(DELAY)];
      PublishedAppend(BusEvents(s.ops), tail);
      assert tail[1..] == [Sleep(DELAY)];
      assert [Sleep(DELAY)][1..] == [];
    }
  }

  /** A pass reinstalls the handlers it found exactly when every guarded
      handler can be handed back to `signal.signal`; otherwise the guarded
      signals from the first foreign one on keep the finished guard's hook. */
  lemma CycleRestores(cfg: Config, c: Cycle, table: Table)
    requires Distinct(cfg.guarded)
    requires Admissible(cfg, c, table)
    ensures RunCycle(cfg, c, table).1 == table <==> Reinstallable(cfg.guarded, table)
  {
    var (evs, body) := Body(cfg, c);
    GuardedRestores(cfg.guarded, false, table, c.during, body);
    if !Reinstallable(cfg.guarded, table) {
      var k := FirstForeign(cfg.guarded, table);
      assert table[cfg.guarded[k]] == Foreign;
    }
  }

  /** How a pass ends: TypeError when a guarded signal's handler was
      installed outside Python; otherwise a signal while the guard is in
      place exits with status 0 after the body, even when the body failed;
      otherwise a failed read raises its error; otherwise a signal between
      guards meets the handler installed for it. */
  lemma CycleOutcome(cfg: Config, c: Cycle, table: Table)
    requires Distinct(cfg.guarded)
    requires Admissible(cfg, c, table)
    ensures var out := RunCycle(cfg, c, table).0.outcome;
      var ok := ReadFields(c.meter, cfg.fields).record.Ok?;
      && (!Reinstallable(cfg.guarded, table) ==> out == Throw(TypeError))
      && (Reinstallable(cfg.guarded, table) ==>
          && (|c.during| > 0 ==> out == Throw(SystemExit(0)))
          && (|c.during| == 0 && !ok ==> out == Throw(Failure(CommunicationError)))
          && (|c.during| == 0 && ok && c.between.None? ==> out == Continue)
          && (|c.during| == 0 && ok && c.between.Some? ==>
                out == Escape(Dispatch(table[c.between.value.sig], c.between.value, Normal))))
  {
    var (evs, body) := Body(cfg, c);
    GuardedOutcome(cfg.guarded, false, table, c.during, body);
    GuardedRestores(cfg.guarded, false, table, c.during, body);
  }

  // ---- Properties of the loop

  /** When every guarded handler can be reinstalled, every pass finds the
      handler table the run started with, so each is the pass that cycle
      would make on its own; otherwise that holds for the first pass. */
  lemma {:induction false} PassesUnderStartTable(cfg: Config, cycles: seq<Cycle>, table: Table)
    requires Distinct(cfg.guarded)
    requires forall i :: 0 <= i < |cycles| ==> Admissible(cfg, cycles[i], table)
    ensures forall i :: 0 <= i < |cycles| && (i == 0 || Reinstallable(cfg.guarded, table)) ==>
      Passes(cfg, cycles, table)[i] == RunCycle(cfg, cycles[i], table).0
    decreases |cycles|
  {
    if |cycles| > 0 {
      var tail := cycles[1..];
      var ps := Passes(cfg, cycles, table);
      PassesCons(cfg, cycles, table);
      if Reinstallable(cfg.guarded, table) {
        CycleRestores(cfg, cycles[0], table);
        PassesUnderStartTable(cfg, tail, table);
        forall i | 0 < i < |cycles| ensures ps[i] == RunCycle(cfg, cycles[i], table).0 {
          assert ps[i] == Passes(cfg, tail, table)[i - 1];
          assert tail[i - 1] == cycles[i];
        }
      }
    }
  }

  /** The first pass, then the rest under the table it leaves. */
  lemma PassesCons(cfg: Config, cycles: seq<Cycle>, table: Table)
    requires forall i :: 0 <= i < |cycles| ==> Admissible(cfg, cycles[i], table)
    requires |cycles| > 0
    ensures var r := RunCycle(cfg, cycles[0], table);
      && (forall i :: 0 <= i < |cycles[1..]| ==> Admissible(cfg, cycles[1..][i], r.1))
      && Passes(cfg, cycles, table) == [r.0] + Passes(cfg, cycles[1..], r.1)
  {
    var tail := cycles[1..];
    assert forall i :: 0 <= i < |tail| ==> tail[i] == cycles[i + 1];
  }

  /** Cleanup runs exactly when the loop is left by an exception: it is
      then the last two calls, and it appears nowhere else. */
  lemma {:induction false} LoopCleanup(passes: seq<Pass>)
    requires forall i :: 0 <= i < |passes| ==> NoCleanup(passes[i].events)
    ensures CleanupShape(Loop(passes).0, Loop(passes).1)
    decreases |passes|
  {
    if |passes| > 0 {
      var evs := passes[0].events;
      if passes[0].outcome == Continue {
        assert forall i :: 0 <= i < |passes[1..]| ==> passes[1..][i] == passes[i + 1];
        LoopCleanup(passes[1..]);
        var (rest, st) := Loop(passes[1..]);
        if st.Exited? {
          assert (evs + rest)[..|evs + rest| - 2] == evs + rest[..|rest| - 2];
          assert (evs + rest)[|evs + rest| - 2..] == rest[|rest| - 2..];
          NoCleanupAppend(evs, rest[..|rest| - 2]);
        } else {
          NoCleanupAppend(evs, rest);
        }
      } else if passes[0].outcome.Throw? {
        assert (evs + CLEANUP)[..|evs + CLEANUP| - 2] == evs;
        assert (evs + CLEANUP)[|evs + CLEANUP| - 2..] == CLEANUP;
      } else {
        assert evs + [] == evs;
      }
    }
  }

  /** The loop keeps polling exactly as long as every pass goes on. */
  lemma {:induction false} LoopPolling(passes: seq<Pass>)
    ensures Loop(passes).1 == Polling <==> forall i :: 0 <= i < |passes| ==> passes[i].outcome == Continue
    decreases |passes|
  {
    if |passes| > 0 {
      assert forall i :: 0 <= i < |passes[1..]| ==> passes[1..][i] == passes[i + 1];
      LoopPolling(passes[1..]);
    }
  }

  /** The first pass that does not go on decides the status, and the passes
      after it make no difference. */
  lemma {:induction false} LoopFirstStop(passes: seq<Pass>, k: nat)
    requires k < |passes|
    requires forall i :: 0 <= i < k ==> passes[i].outcome == Continue
    requires passes[k].outcome != Continue
    ensures Loop(passes).1 == StatusOf(passes[k].outcome)
    ensures Loop(passes) == Loop(passes[..k + 1])
    decreases k
  {
    if k > 0 {
      LoopFirstStop(passes[1..], k - 1);
      assert passes[..k + 1][1..] == passes[1..][..k];
    }
  }

  // ---- Properties of the whole run

  /** Python's handlers at start-up: SIGINT raises KeyboardInterrupt and
      SIGTERM has its default action. */
  predicate Startup(table: Table)
  {
    SIGINT in table && table[SIGINT] == RaiseInterrupt && SIGTERM in table && table[SIGTERM] == Default
  }

  /** Python's start-up handlers can be handed back to `signal.signal`. */
  lemma StartupReinstallable(table: Table)
    requires Startup(table)
    ensures Reinstallable(DEFAULT_SIGNALS, table)
  {
    assert forall i :: 0 <= i < |DEFAULT_SIGNALS| ==> DEFAULT_SIGNALS[i] in {SIGINT, SIGTERM};
  }

  /** Cleanup runs once, as the last two calls, exactly when `run` reaches
      its `finally`; a failed setup or a signal's default action skips it. */
  lemma RunCleanup(dev: Device, local: DateTime, later: DateTime, topic: string,
                   cycles: seq<Cycle>, table: Table)
    requires Valid(local) && Valid(later)
    requires forall i :: 0 <= i < |cycles| ==> Admissible(Configured(topic), cycles[i], table)
    ensures var r := RunManager(dev, local, later, topic, cycles, table);
      CleanupShape(r.events, r.status)
  {
    if SyncClock(dev, local, later).result.Ok? {
      var passes := Passes(Configured(topic), cycles, table);
      RunAfterSetup(dev, local, later, topic, cycles, table);
      LoopCleanup(passes);
      CleanupAfterSetup(Setup(dev, local, later).0, Loop(passes).0, Loop(passes).1);
    } else {
      RunWithoutSetup(dev, local, later, topic, cycles, table);
    }
  }

  lemma CleanupAfterSetup(sev: seq<Event>, lev: seq<Event>, st: Status)
    requires NoCleanup(sev) && CleanupShape(lev, st)
    ensures CleanupShape(sev + lev, st)
  {
    if st.Exited? {
      assert (sev + lev)[..|sev + lev| - 2] == sev + lev[..|lev| - 2];
      assert (sev + lev)[|sev + lev| - 2..] == lev[|lev| - 2..];
      NoCleanupAppend(sev, lev[..|lev| - 2]);
    } else {
      NoCleanupAppend(sev, lev);
    }
  }

  /** A failed setup ends `run` with setup's calls only. */
  lemma RunWithoutSetup(dev: Device, local: DateTime, later: DateTime, topic: string,
                        cycles: seq<Cycle>, table: Table)
    requires Valid(local) && Valid(later)
    requires forall i :: 0 <= i < |cycles| ==> Admissible(Configured(topic), cycles[i], table)
    requires SyncClock(dev, local, later).result.Err?
    ensures RunManager(dev, local, later, topic, cycles, table) ==
      Run(Setup(dev, local, later).0, SetupFailed(SyncClock(dev, local, later).result.error))
  {
  }

  /** Once setup has succeeded, `run` goes on as the loop over its passes;
      its calls are setup's followed by the loop's. */
  lemma RunAfterSetup(dev: Device, local: DateTime, later: DateTime, topic: string,
                      cycles: seq<Cycle>, table: Table)
    requires Valid(local) && Valid(later)
    requires forall i :: 0 <= i < |cycles| ==> Admissible(Configured(topic), cycles[i], table)
    requires SyncClock(dev, local, later).result.Ok?
    ensures var lp := Loop(Passes(Configured(topic), cycles, table));
      RunManager(dev, local, later, topic, cycles, table) == Run(Setup(dev, local, later).0 + lp.0, lp.1)
  {
  }

  /** With Python's start-up handlers, the first pass that stops decides the
      exit status: 1 exactly when its reads failed and no signal arrived
      during the guard; 0 when a signal arrived during the guard or SIGINT
      arrived between guards; SIGTERM between guards ends the process with
      no exit status and no cleanup.  The passes after it make no
      difference. */
  lemma RunExitStatus(dev: Device, local: DateTime, later: DateTime, topic: string,
                      cycles: seq<Cycle>, table: Table, k: nat)
    requires Valid(local) && Valid(later) && Startup(table)
    requires forall i :: 0 <= i < |cycles| ==> Admissible(Configured(topic), cycles[i], table)
    requires SyncClock(dev, local, later).result.Ok?
    requires k < |cycles|
    requires forall i :: 0 <= i < k ==> Continues(Configured(topic), cycles[i], table)
    requires !Continues(Configured(topic), cycles[k], table)
    requires cycles[k].between.Some? ==> cycles[k].between.value.sig in DEFAULT_SIGNALS
    ensures var st := RunManager(dev, local, later, topic, cycles, table).status;
      var c := cycles[k];
      var late := |c.during| == 0 && ReadData(c.meter).record.Ok? && c.between.Some?;
      && (st == Exited(1) <==> |c.during| == 0 && ReadData(c.meter).record.Err?)
      && (st == Exited(0) <==> |c.during| > 0 || (late && c.between.value.sig == SIGINT))
      && (st.Terminated? <==> late && c.between.value.sig == SIGTERM)
  {
    var cfg := Configured(topic);
    RunAfterSetup(dev, local, later, topic, cycles, table);
    LoopStopsAt(cfg, cycles, table, k);
    StartupStop(topic, cycles[k], table);
  }

  /** A pass that stops under Python's start-up handlers, with only SIGINT
      or SIGTERM arriving between guards. */
  lemma StartupStop(topic: string, c: Cycle, table: Table)
    requires Startup(table)
    requires Admissible(Configured(topic), c, table)
    requires !Continues(Configured(topic), c, table)
    requires c.between.Some? ==> c.between.value.sig in DEFAULT_SIGNALS
    ensures var st := StatusOf(RunCycle(Configured(topic), c, table).0.outcome);
      var late := |c.during| == 0 && ReadData(c.meter).record.Ok? && c.between.Some?;
      && (st == Exited(1) <==> |c.during| == 0 && ReadData(c.meter).record.Err?)
      && (st == Exited(0) <==> |c.during| > 0 || (late && c.between.value.sig == SIGINT))
      && (st.Terminated? <==> late && c.between.value.sig == SIGTERM)
  {
    var cfg := Configured(topic);
    StartupReinstallable(table);
    GuardedDefaultsEndProcess();
    StopOutcome(cfg, c, table);
    assert ReadFields(c.meter, cfg.fields) == ReadData(c.meter);
  }

  /** How a pass that stops ends the run: status 1 exactly when a guarded
      signal's handler was installed outside Python, or for a failed read
      with no signal during the guard; status 0 for a signal during the
      guard or one between guards whose handler raises KeyboardInterrupt;
      no status when a signal between guards meets a foreign handler or a
      default action that ends the process. */
  lemma StopOutcome(cfg: Config, c: Cycle, table: Table)
    requires Distinct(cfg.guarded)
    requires Admissible(cfg, c, table)
    requires !Continues(cfg, c, table)
    ensures var st := StatusOf(RunCycle(cfg, c, table).0.outcome);
      var ok := ReadFields(c.meter, cfg.fields).record.Ok?;
      var foreign := !Reinstallable(cfg.guarded, table);
      var late := c.between.Some? && ok && |c.during| == 0 && !foreign;
      && (st == Exited(1) <==> foreign || (|c.during| == 0 && !ok))
      && (st == Exited(0) <==> (!foreign && |c.during| > 0) || (late && table[c.between.value.sig] == RaiseInterrupt))
      && (st.Terminated? <==> late && EndsProcess(table[c.between.value.sig], c.between.value.sig))
  {
    CycleOutcome(cfg, c, table);
    var out := RunCycle(cfg, c, table).0.outcome;
    var h := if c.between.Some? then table[c.between.value.sig] else Default;
    if c.between.Some? {
      BetweenGuards(h, c.between.value);
    }
    StopStatus(out, !Reinstallable(cfg.guarded, table), |c.during|, ReadFields(c.meter, cfg.fields).record.Ok?,
               c.between, h);
  }

  /** The case analysis behind `StopOutcome`, over the facts `CycleOutcome`
      establishes. */
  lemma StopStatus(out: Outcome, foreign: bool, during: nat, ok: bool, between: Option<Capture>, h: Handler)
    requires out != Continue
    requires foreign ==> out == Throw(TypeError)
    requires !foreign && during > 0 ==> out == Throw(SystemExit(0))
    requires !foreign && during == 0 && !ok ==> out == Throw(Failure(CommunicationError))
    requires !foreign && during == 0 && ok && between.None? ==> out == Continue
    requires !foreign && during == 0 && ok && between.Some? ==> out == Escape(Dispatch(h, between.value, Normal))
    requires between.Some? ==> var o := Escape(Dispatch(h, between.value, Normal));
      && (o == Throw(KeyboardInterrupt) <==> h == RaiseInterrupt)
      && (o.Killed? <==> EndsProcess(h, between.value.sig))
      && (o.Throw? ==> o == Throw(KeyboardInterrupt))
    ensures var st := StatusOf(out);
      var late := between.Some? && ok && during == 0 && !foreign;
      && (st == Exited(1) <==> foreign || (during == 0 && !ok))
      && (st == Exited(0) <==> (!foreign && during > 0) || (late && h == RaiseInterrupt))
      && (st.Terminated? <==> late && EndsProcess(h, between.value.sig))
  {
  }

  /** A signal that arrives between guards: the pass goes on unless the
      handler raises KeyboardInterrupt, which leaves the loop with status
      0, or the signal ends the process. */
  lemma BetweenGuards(h: Handler, cap: Capture)
    ensures var out := Escape(Dispatch(h, cap, Normal));
      && (out == Continue <==> h != RaiseInterrupt && !EndsProcess(h, cap.sig))
      && (out == Throw(KeyboardInterrupt) <==> h == RaiseInterrupt)
      && (out.Killed? <==> EndsProcess(h, cap.sig))
      && (out.Killed? ==> out.sig == cap.sig)
      && (out.Throw? ==> out == Throw(KeyboardInterrupt))
  {
    match h
    case RaiseInterrupt =>
    case Default =>
    case Foreign =>
    case Ignore =>
    case Hook =>
    case Callable(id) =>
  }

  /** The loop over a run's passes ends as the first pass that stops. */
  lemma LoopStopsAt(cfg: Config, cycles: seq<Cycle>, table: Table, k: nat)
    requires Distinct(cfg.guarded)
    requires forall i :: 0 <= i < |cycles| ==> Admissible(cfg, cycles[i], table)
    requires k < |cycles|
    requires forall i :: 0 <= i < k ==> Continues(cfg, cycles[i], table)
    requires !Continues(cfg, cycles[k], table)
    ensures Loop(Passes(cfg, cycles, table)).1 == StatusOf(RunCycle(cfg, cycles[k], table).0.outcome)
  {
    PassesUnderStartTable(cfg, cycles, table);
    if !Reinstallable(cfg.guarded, table) {
      CycleOutcome(cfg, cycles[0], table);
      assert k == 0;
    }
    LoopFirstStop(Passes(cfg, cycles, table), k);
  }

  /** With Python's start-up handlers, `run` keeps polling exactly as long
      as every pass reads the meter and no signal arrives. */
  lemma RunPolling(dev: Device, local: DateTime, later: DateTime, topic: string,
                   cycles: seq<Cycle>, table: Table)
    requires Valid(local) && Valid(later) && Startup(table)
    requires forall i :: 0 <= i < |cycles| ==> Admissible(Configured(topic), cycles[i], table)
    requires SyncClock(dev, local, later).result.Ok?
    requires forall i :: 0 <= i < |cycles| && cycles[i].between.Some? ==> cycles[i].between.value.sig in DEFAULT_SIGNALS
    ensures RunManager(dev, local, later, topic, cycles, table).status == Polling <==>
      forall i :: 0 <= i < |cycles| ==>
        |cycles[i].during| == 0 && cycles[i].between.None? && ReadData(cycles[i].meter).record.Ok?
  {
    var cfg := Configured(topic);
    RunAfterSetup(dev, local, later, topic, cycles, table);
    LoopPollsWhile(cfg, cycles, table);
    forall i | 0 <= i < |cycles| ensures Continues(cfg, cycles[i], table) <==>
        |cycles[i].during| == 0 && cycles[i].between.None? && ReadData(cycles[i].meter).record.Ok? {
      ContinuesAtStartup(topic, cycles[i], table);
    }
  }

  /** Under Python's start-up handlers a pass goes on exactly when its reads
      succeed and neither SIGINT nor SIGTERM arrives. */
  lemma ContinuesAtStartup(topic: string, c: Cycle, table: Table)
    requires Startup(table)
    requires Admissible(Configured(topic), c, table)
    requires c.between.Some? ==> c.between.value.sig in DEFAULT_SIGNALS
    ensures Continues(Configured(topic), c, table) <==>
      |c.during| == 0 && c.between.None? && ReadData(c.meter).record.Ok?
  {
    var cfg := Configured(topic);
    StartupReinstallable(table);
    CycleOutcome(cfg, c, table);
    assert ReadFields(c.meter, cfg.fields) == ReadData(c.meter);
    if |c.during| == 0 && c.between.Some? && ReadData(c.meter).record.Ok? {
      var cap := c.between.value;
      var out := RunCycle(cfg, c, table).0.outcome;
      assert out == Escape(Dispatch(table[cap.sig], cap, Normal));
      if cap.sig == SIGINT {
        assert out == Throw(KeyboardInterrupt);
      } else {
        GuardedDefaultsEndProcess();
        assert out == Killed(SIGTERM);
      }
    }
  }

  /** The loop over a run's passes polls exactly while every pass goes on. */
  lemma LoopPollsWhile(cfg: Config, cycles: seq<Cycle>, table: Table)
    requires Distinct(cfg.guarded)
    requires forall i :: 0 <= i < |cycles| ==> Admissible(cfg, cycles[i], table)
    ensures Loop(Passes(cfg, cycles, table)).1 == Polling <==>
      forall i :: 0 <= i < |cycles| ==> Continues(cfg, cycles[i], table)
  {
    PassesUnderStartTable(cfg, cycles, table);
    LoopPolling(Passes(cfg, cycles, table));
    if !Reinstallable(cfg.guarded, table) && |cycles| > 0 {
      CycleOutcome(cfg, cycles[0], table);
      assert !Continues(cfg, cycles[0], table);
    }
  }
}
