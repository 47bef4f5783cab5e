/** `GracefulInterrupt` of we515mqtt.py: a context manager that, for the
    duration of its body, replaces the handlers of the guarded signals with
    one that only records the signal, then restores the saved handlers and
    either exits with status 0 or replays the saved handler.

    The process's handler table is an explicit map from signal numbers to
    dispositions, and signal arrivals are explicit events; real asynchrony
    is not modelled. */
module Guard {
  import opened Results

  type Signal = nat
  type Frame = nat

  const SIGINT: Signal := 2
  const SIGTERM: Signal := 15
  /** The signals a guard protects unless told otherwise. */
  const DEFAULT_SIGNALS: seq<Signal> := [SIGINT, SIGTERM]

  /** A disposition as `signal.getsignal` reports it. */
  datatype Handler =
    | Default          // signal.SIG_DFL
    | Ignore           // signal.SIG_IGN
    | Foreign          // None: installed by code outside Python
    | RaiseInterrupt   // signal.default_int_handler, which raises KeyboardInterrupt
    | Callable(id: nat) // some other Python function
    | Hook             // the guard's own `handler` method
  {
    /** Only Python functions can be called; the three constants cannot. */
    predicate IsCallable()
    {
      RaiseInterrupt? || Callable? || Hook?
    }
  }

  type Table = map<Signal, Handler>

  datatype Capture = Capture(sig: Signal, frame: Frame)

  datatype Guard = Guard(signals: seq<Signal>, delayed: bool, saved: map<Signal, Handler>,
                         captured: Option<Capture>)

  /** The exceptions that matter to the guard and the run loop. */
  datatype Exception =
    | SystemExit(code: int)
    | KeyboardInterrupt
    | TypeError
    | Failure(error: Error)

  /** How a block of code ended.  `Replayed` means a saved Python handler
      was called with the captured signal, and `rest` is how things go on if
      it returns; `Redelivered` means the signal was raised again under its
      restored non-Python disposition. */
  datatype Completion =
    | Normal
    | Raised(exc: Exception)
    | Replayed(handler: nat, capture: Capture, rest: Completion)
    | Redelivered(sig: Signal)

  /** `GracefulInterrupt(signals, delayed)`: nothing saved, nothing
      captured yet. */
  function NewGuard(signals: seq<Signal>, delayed: bool): (g: Guard)
    ensures g.signals == signals && g.delayed == delayed
    ensures g.saved == map[] && g.captured.None?
  {
    Guard(signals, delayed, map[], None)
  }

  predicate Distinct(signals: seq<Signal>)
  {
    forall i, j :: 0 <= i < j < |signals| ==> signals[i] != signals[j]
  }

  predicate Covers(table: Table, signals: seq<Signal>)
  {
    forall i :: 0 <= i < |signals| ==> signals[i] in table
  }

  /** The loop of `__enter__`: for each signal in turn, save what is
      installed and install the hook. */
  function Install(signals: seq<Signal>, saved: map<Signal, Handler>, table: Table)
    : (r: (map<Signal, Handler>, Table))
    requires Covers(table, signals)
    ensures r.1.Keys == table.Keys
    ensures forall s :: s in signals ==> s in r.0 && r.1[s] == Hook
    ensures forall s :: s in table && s !in signals ==> r.1[s] == table[s]
    ensures forall s :: s in saved && s !in signals ==> s in r.0 && r.0[s] == saved[s]
    ensures forall s :: s in r.0 && r.0[s] == Foreign ==>
      (s in saved && saved[s] == Foreign) || (s in table && table[s] == Foreign)
    decreases |signals|
  {
    if |signals| == 0 then (saved, table)
    else
      var s := signals[0];
      Install(signals[1..], saved[s := table[s]], table[s := Hook])
  }

  /** `__enter__`. */
  function Enter(g: Guard, table: Table): (r: (Guard, Table))
    requires Covers(table, g.signals)
    ensures r.0.signals == g.signals && r.0.delayed == g.delayed
    ensures r.0.captured == None
    ensures r.1.Keys == table.Keys
    ensures forall s :: s in g.signals ==> r.1[s] == Hook
    ensures forall s :: s in table && s !in g.signals ==> r.1[s] == table[s]
  {
    var (saved, table') := Install(g.signals, g.saved, table);
    (g.(saved := saved, captured := None), table')
  }

  /** `handler`: a guarded signal arrives while the hook is installed; a
      later signal overwrites an earlier one. */
  function Deliver(g: Guard, c: Capture): (g': Guard)
    ensures g'.captured == Some(c)
    ensures g'.signals == g.signals && g'.delayed == g.delayed && g'.saved == g.saved
  {
    g.(captured := Some(c))
  }

  /** Several arrivals in order. */
  function DeliverAll(g: Guard, cs: seq<Capture>): (g': Guard)
    ensures g'.signals == g.signals && g'.delayed == g.delayed && g'.saved == g.saved
    ensures |cs| == 0 ==> g' == g
    ensures |cs| > 0 ==> g'.captured == Some(cs[|cs| - 1])
    decreases |cs|
  {
    if |cs| == 0 then g else DeliverAll(Deliver(g, cs[0]), cs[1..])
  }

  /** Every guarded signal's handler is one `signal.signal` accepts back:
      `signal.getsignal` reports `None` for a handler installed outside
      Python, and `signal.signal(sig, None)` raises TypeError. */
  predicate Reinstallable(signals: seq<Signal>, handlers: map<Signal, Handler>)
  {
    forall i :: 0 <= i < |signals| && signals[i] in handlers ==> handlers[signals[i]] != Foreign
  }

  /** The position of the first guarded signal whose handler was installed
      outside Python, or the number of signals when there is none. */
  function FirstForeign(signals: seq<Signal>, handlers: map<Signal, Handler>): (k: nat)
    ensures k <= |signals|
    ensures forall i :: 0 <= i < k ==> signals[i] !in handlers || handlers[signals[i]] != Foreign
    ensures k < |signals| ==> signals[k] in handlers && handlers[signals[k]] == Foreign
    ensures k == |signals| <==> Reinstallable(signals, handlers)
    decreases |signals|
  {
    if |signals| == 0 then 0
    else if signals[0] in handlers && handlers[signals[0]] == Foreign then 0
    else
      var k := FirstForeign(signals[1..], handlers);
      assert forall i :: 0 < i < |signals| ==> signals[i] == signals[1..][i - 1];
      1 + k
  }

  /** The first loop of `__exit__`: reinstall every saved handler, in
      order.  At the first saved `None`, `signal.signal` raises TypeError,
      so that signal and the later ones keep what they have.  The flag is
      false when that happened. */
  function Restore(signals: seq<Signal>, saved: map<Signal, Handler>, table: Table): (r: (Table, bool))
    requires forall i :: 0 <= i < |signals| ==> signals[i] in saved
    ensures r.1 <==> Reinstallable(signals, saved)
    ensures var k := FirstForeign(signals, saved);
      r.0.Keys == table.Keys + set i | 0 <= i < k :: signals[i]
    ensures var k := FirstForeign(signals, saved);
      forall s :: s in signals[..k] ==> r.0[s] == saved[s]
    ensures var k := FirstForeign(signals, saved);
      forall s :: s in table && s !in signals[..k] ==> r.0[s] == table[s]
    decreases |signals|
  {
    if |signals| == 0 then (table, true)
    else if saved[signals[0]] == Foreign then
      assert signals[..0] == [];
      (table, false)
    else
      var s0 := signals[0];
      ForeignAfterFirst(signals, saved);
      Restore(signals[1..], saved, table[s0 := saved[s0]])
  }

  /** Past a first signal that can be reinstalled, the search for a
      foreign handler goes on in the rest, one position further on. */
  lemma ForeignAfterFirst(signals: seq<Signal>, saved: map<Signal, Handler>)
    requires |signals| > 0 && signals[0] in saved && saved[signals[0]] != Foreign
    ensures var k := FirstForeign(signals, saved);
      && k == 1 + FirstForeign(signals[1..], saved)
      && signals[..k] == [signals[0]] + signals[1..][..k - 1]
      && (set i | 0 <= i < k :: signals[i]) == {signals[0]} + set i | 0 <= i < k - 1 :: signals[1..][i]
  {
    var k := FirstForeign(signals, saved);
    assert signals[..k] == [signals[0]] + signals[1..][..k - 1];
  }

  /** The replay of `__exit__` as written: the saved handler is called with
      the captured signal and frame, which raises TypeError when it is
      `SIG_DFL`, `SIG_IGN` or `None`. */
  function ReplayAsWritten(h: Handler, c: Capture, body: Completion): (r: Completion)
    ensures !h.IsCallable() ==> r == Raised(TypeError)
    ensures h == RaiseInterrupt ==> r == Raised(KeyboardInterrupt)
    ensures h == Hook ==> r == body
    ensures h.Callable? ==> r.Replayed? && r.handler == h.id && r.capture == c && r.rest == body
  {
    match h
    case RaiseInterrupt => Raised(KeyboardInterrupt)
    case Callable(id) => Replayed(id, c, body)
    case Hook => body
    case _ => Raised(TypeError)
  }

  /** Signals whose default action leaves the process running, in Linux's
      numbering: SIGCHLD, SIGCONT, SIGURG and SIGWINCH. */
  const DEFAULT_IGNORED: set<Signal> := {17, 18, 23, 28}

  /** The default action of SIGINT and SIGTERM ends the process. */
  lemma GuardedDefaultsEndProcess()
    ensures SIGINT !in DEFAULT_IGNORED && SIGTERM !in DEFAULT_IGNORED
  {
  }

  /** What the process does when signal `c` meets disposition `h`, with
      `body` being how things go on if nothing interrupts them: a Python
      handler is called, `SIG_IGN` drops the signal, `SIG_DFL` takes the
      signal's default action, which drops it for the signals in
      `DEFAULT_IGNORED`, and a foreign handler takes the signal over.
      This is also the intended replay: the saved handler receives the
      captured signal. */
  function Dispatch(h: Handler, c: Capture, body: Completion): (r: Completion)
    ensures h.IsCallable() ==> r == ReplayAsWritten(h, c, body)
    ensures r != Raised(TypeError) || body == Raised(TypeError)
    ensures h == Ignore || (h == Default && c.sig in DEFAULT_IGNORED) ==> r == body
  {
    match h
    case Ignore => body
    case Default => if c.sig in DEFAULT_IGNORED then body else Redelivered(c.sig)
    case Foreign => Redelivered(c.sig)
    case _ => ReplayAsWritten(h, c, body)
  }

  /** `__exit__` as written.  `body` is how the guarded block ended; the
      method returns nothing, so a body exception propagates unless the
      exit itself raises.  A TypeError from the restoring loop replaces it
      before the capture is looked at. */
  function ExitAsWritten(g: Guard, table: Table, body: Completion): (r: (Table, Completion))
    requires forall i :: 0 <= i < |g.signals| ==> g.signals[i] in g.saved
    requires g.captured.Some? ==> g.captured.value.sig in g.saved
    ensures var k := FirstForeign(g.signals, g.saved);
      r.0.Keys == table.Keys + set i | 0 <= i < k :: g.signals[i]
    ensures var k := FirstForeign(g.signals, g.saved);
      forall s :: s in g.signals[..k] ==> r.0[s] == g.saved[s]
    ensures var k := FirstForeign(g.signals, g.saved);
      forall s :: s in table && s !in g.signals[..k] ==> r.0[s] == table[s]
    ensures !Reinstallable(g.signals, g.saved) ==> r.1 == Raised(TypeError)
    ensures Reinstallable(g.signals, g.saved) ==>
      && (g.captured.None? ==> r.1 == body)
      && (g.captured.Some? && !g.delayed ==> r.1 == Raised(SystemExit(0)))
      && (g.captured.Some? && g.delayed && !g.saved[g.captured.value.sig].IsCallable() ==>
            r.1 == Raised(TypeError))
      && (g.captured.Some? && g.delayed && g.saved[g.captured.value.sig].IsCallable() ==>
            r.1 == Dispatch(g.saved[g.captured.value.sig], g.captured.value, body))
  {
    var (table', restored) := Restore(g.signals, g.saved, table);
    if !restored then (table', Raised(TypeError))
    else
      match g.captured
      case None => (table', body)
      case Some(c) =>
        if g.delayed then (table', ReplayAsWritten(g.saved[c.sig], c, body))
        else (table', Raised(SystemExit(0)))
  }

  /** `__exit__` with the replay as intended; it differs from the code as
      written only when a delayed guard replays a handler that cannot be
      called.  The restoring loop is the code's, TypeError included. */
  function Exit(g: Guard, table: Table, body: Completion): (r: (Table, Completion))
    requires forall i :: 0 <= i < |g.signals| ==> g.signals[i] in g.saved
    requires g.captured.Some? ==> g.captured.value.sig in g.saved
    ensures r.0 == ExitAsWritten(g, table, body).0
    ensures (|| !g.delayed || g.captured.None? || !Reinstallable(g.signals, g.saved)
             || g.saved[g.captured.value.sig].IsCallable()) ==>
      r == ExitAsWritten(g, table, body)
    ensures r.1 == Raised(TypeError) ==> body == Raised(TypeError) || !Reinstallable(g.signals, g.saved)
  {
    var (table', restored) := Restore(g.signals, g.saved, table);
    if !restored then (table', Raised(TypeError))
    else
      match g.captured
      case None => (table', body)
      case Some(c) =>
        if g.delayed then (table', Dispatch(g.saved[c.sig], c, body))
        else (table', Raised(SystemExit(0)))
  }

  /** A whole `with GracefulInterrupt(signals, delayed):` block: enter, the
      arrivals `cs` while the body runs, exit as written. */
  function Guarded(signals: seq<Signal>, delayed: bool, table: Table, cs: seq<Capture>, body: Completion)
    : (r: (Table, Completion))
    requires Covers(table, signals)
    requires forall i :: 0 <= i < |cs| ==> cs[i].sig in signals
    ensures r.0.Keys == table.Keys
    ensures Distinct(signals) && !Reinstallable(signals, table) ==> r.1 == Raised(TypeError)
  {
    var e := Enter(NewGuard(signals, delayed), table);
    var g' := DeliverAll(e.0, cs);
    var k := FirstForeign(g'.signals, g'.saved);
    assert (set i | 0 <= i < k :: signals[i]) <= table.Keys;
    SavedForeign(NewGuard(signals, delayed), table);
    ExitAsWritten(g', e.1, body)
  }

  /** The same block with the intended replay.  It leaves the same table,
      differs only for a delayed guard whose last capture meets a handler
      that cannot be called, and raises no TypeError of its own beyond the
      restoring loop's. */
  function GuardedIntended(signals: seq<Signal>, delayed: bool, table: Table, cs: seq<Capture>, body: Completion)
    : (r: (Table, Completion))
    requires Covers(table, signals)
    requires forall i :: 0 <= i < |cs| ==> cs[i].sig in signals
    ensures r.0 == Guarded(signals, delayed, table, cs, body).0
    ensures !delayed || |cs| == 0 ==> r == Guarded(signals, delayed, table, cs, body)
    ensures r.1 == Raised(TypeError) ==> body == Raised(TypeError) || !Reinstallable(signals, table)
  {
    var (g, table') := Enter(NewGuard(signals, delayed), table);
    var g' := DeliverAll(g, cs);
    var r := Exit(g', table', body);
    assert !Reinstallable(signals, g'.saved) ==> !Reinstallable(signals, table) by {
      if !Reinstallable(signals, g'.saved) {
        var i := FirstForeign(signals, g'.saved);
        assert g'.saved[signals[i]] == Foreign;
      }
    }
    r
  }

  /** `__enter__` saves, for each guarded signal, the handler that was
      installed, and forgets any earlier capture. */
  lemma {:induction false} EnterSaves(g: Guard, table: Table)
    requires Covers(table, g.signals) && Distinct(g.signals)
    ensures forall s :: s in g.signals ==> s in Enter(g, table).0.saved && Enter(g, table).0.saved[s] == table[s]
  {
    InstallSaves(g.signals, g.saved, table);
  }

  /** A handler installed outside Python is saved as such. */
  lemma SavedForeign(g: Guard, table: Table)
    requires Covers(table, g.signals)
    ensures Distinct(g.signals) && !Reinstallable(g.signals, table) ==> !Reinstallable(g.signals, Enter(g, table).0.saved)
  {
    if Distinct(g.signals) && !Reinstallable(g.signals, table) {
      EnterSaves(g, table);
      var i := FirstForeign(g.signals, table);
      assert Enter(g, table).0.saved[g.signals[i]] == Foreign;
    }
  }

  lemma {:induction false} InstallSaves(signals: seq<Signal>, saved: map<Signal, Handler>, table: Table)
    requires Covers(table, signals) && Distinct(signals)
    ensures forall s :: s in signals ==> s in Install(signals, saved, table).0 && Install(signals, saved, table).0[s] == table[s]
    decreases |signals|
  {
    if |signals| > 0 {
      var s := signals[0];
      assert forall i :: 0 <= i < |signals[1..]| ==> signals[1..][i] == signals[i + 1];
      InstallSaves(signals[1..], saved[s := table[s]], table[s := Hook]);
    }
  }

  /** A signal listed twice is saved the second time with the hook the first
      pass installed, so the original handler is lost. */
  lemma DuplicateSignalSavesHook(table: Table)
    requires SIGINT in table && table[SIGINT] != Hook
    ensures Enter(NewGuard([SIGINT, SIGINT], false), table).0.saved[SIGINT] == Hook
  {
    var t1 := table[SIGINT := Hook];
    var s1: map<Signal, Handler> := map[SIGINT := table[SIGINT]];
    assert [SIGINT, SIGINT][1..] == [SIGINT];
    assert [SIGINT][1..] == [];
    assert Install([SIGINT], s1, t1) == Install([], s1[SIGINT := Hook], t1[SIGINT := Hook]);
    assert Install([SIGINT, SIGINT], map[], table) == Install([SIGINT], s1, t1);
  }

  lemma FirstForeignAgrees(signals: seq<Signal>, a: map<Signal, Handler>, b: map<Signal, Handler>)
    requires forall i :: 0 <= i < |signals| ==> signals[i] in a && signals[i] in b && a[signals[i]] == b[signals[i]]
    ensures FirstForeign(signals, a) == FirstForeign(signals, b)
  {
  }

  /** The guard as `__exit__` finds it, for distinct signals: it saved the
      handlers of the table it entered, and the first of them that was
      installed outside Python is the same as in that table. */
  lemma EnteredGuard(signals: seq<Signal>, delayed: bool, table: Table, cs: seq<Capture>, body: Completion)
    returns (g: Guard, entered: Table)
    requires Covers(table, signals) && Distinct(signals)
    requires forall i :: 0 <= i < |cs| ==> cs[i].sig in signals
    ensures g == DeliverAll(Enter(NewGuard(signals, delayed), table).0, cs)
    ensures entered == Enter(NewGuard(signals, delayed), table).1
    ensures g.signals == signals && g.delayed == delayed
    ensures |cs| == 0 ==> g.captured.None?
    ensures |cs| > 0 ==> g.captured == Some(cs[|cs| - 1])
    ensures forall s :: s in signals ==> s in g.saved && g.saved[s] == table[s]
    ensures FirstForeign(signals, g.saved) == FirstForeign(signals, table)
    ensures entered.Keys == table.Keys
    ensures forall s :: s in signals ==> entered[s] == Hook
    ensures forall s :: s in table && s !in signals ==> entered[s] == table[s]
  {
    var e := Enter(NewGuard(signals, delayed), table);
    EnterSaves(NewGuard(signals, delayed), table);
    g, entered := DeliverAll(e.0, cs), e.1;
    FirstForeignAgrees(signals, g.saved, table);
  }

  /** Leaving the guard reinstalls, in order, the handlers that were in
      place when it was entered, whether or not a signal was captured and
      whatever the arrivals were.  It stops at the first one installed
      outside Python, which `signal.signal` refuses: that signal and the
      later ones keep the finished guard's hook. */
  lemma GuardedRestores(signals: seq<Signal>, delayed: bool, table: Table, cs: seq<Capture>, body: Completion)
    requires Covers(table, signals) && Distinct(signals)
    requires forall i :: 0 <= i < |cs| ==> cs[i].sig in signals
    ensures Reinstallable(signals, table) ==> Guarded(signals, delayed, table, cs, body).0 == table
    ensures var k := FirstForeign(signals, table);
      var t := Guarded(signals, delayed, table, cs, body).0;
      && (forall i :: 0 <= i < k ==> t[signals[i]] == table[signals[i]])
      && (forall i :: k <= i < |signals| ==> t[signals[i]] == Hook)
      && (forall s :: s in table && s !in signals ==> t[s] == table[s])
  {
    var g, entered := EnteredGuard(signals, delayed, table, cs, body);
    ExitRestores(g, entered, table, body);
  }

  lemma ExitRestores(g: Guard, entered: Table, table: Table, body: Completion)
    requires Distinct(g.signals) && Covers(table, g.signals)
    requires forall s :: s in g.signals ==> s in g.saved && g.saved[s] == table[s]
    requires g.captured.Some? ==> g.captured.value.sig in g.saved
    requires FirstForeign(g.signals, g.saved) == FirstForeign(g.signals, table)
    requires entered.Keys == table.Keys
    requires forall s :: s in g.signals ==> entered[s] == Hook
    requires forall s :: s in table && s !in g.signals ==> entered[s] == table[s]
    ensures Reinstallable(g.signals, table) ==> ExitAsWritten(g, entered, body).0 == table
    ensures var k := FirstForeign(g.signals, table);
      var t := ExitAsWritten(g, entered, body).0;
      && (forall i :: 0 <= i < k ==> t[g.signals[i]] == table[g.signals[i]])
      && (forall i :: k <= i < |g.signals| ==> t[g.signals[i]] == Hook)
      && (forall s :: s in table && s !in g.signals ==> t[s] == table[s])
  {
    assert ExitAsWritten(g, entered, body).0 == Restore(g.signals, g.saved, entered).0;
    RestoreEntered(g.signals, g.saved, entered, table);
  }

  lemma RestoreEntered(signals: seq<Signal>, saved: map<Signal, Handler>, entered: Table, table: Table)
    requires Distinct(signals) && Covers(table, signals)
    requires forall s :: s in signals ==> s in saved && saved[s] == table[s]
    requires FirstForeign(signals, saved) == FirstForeign(signals, table)
    requires entered.Keys == table.Keys
    requires forall s :: s in signals ==> entered[s] == Hook
    requires forall s :: s in table && s !in signals ==> entered[s] == table[s]
    ensures Reinstallable(signals, table) ==> Restore(signals, saved, entered).0 == table
    ensures var k := FirstForeign(signals, table);
      var t := Restore(signals, saved, entered).0;
      && (forall i :: 0 <= i < k ==> t[signals[i]] == table[signals[i]])
      && (forall i :: k <= i < |signals| ==> t[signals[i]] == Hook)
      && (forall s :: s in table && s !in signals ==> t[s] == table[s])
  {
    var k := FirstForeign(signals, table);
    var t := Restore(signals, saved, entered).0;
    assert (set i | 0 <= i < k :: signals[i]) <= table.Keys;
    RestoredPrefix(signals, saved, entered, table);
    RestoredSuffix(signals, saved, entered, table);
    if k == |signals| {
      RestoredWhole(signals, saved, entered, table);
    }
  }

  lemma RestoredWhole(signals: seq<Signal>, saved: map<Signal, Handler>, entered: Table, table: Table)
    requires forall s :: s in signals ==> s in saved && s in table && saved[s] == table[s]
    requires Reinstallable(signals, saved)
    requires entered.Keys == table.Keys
    requires forall s :: s in table && s !in signals ==> entered[s] == table[s]
    ensures Restore(signals, saved, entered).0 == table
  {
    var t := Restore(signals, saved, entered).0;
    var k := FirstForeign(signals, saved);
    assert signals[..k] == signals;
    assert (set i | 0 <= i < k :: signals[i]) <= table.Keys;
    assert t.Keys == table.Keys;
    forall s | s in table ensures t[s] == table[s] {
      if s in signals {
        assert s in signals[..k];
      }
    }
  }

  lemma RestoredPrefix(signals: seq<Signal>, saved: map<Signal, Handler>, entered: Table, table: Table)
    requires forall s :: s in signals ==> s in saved && s in table && saved[s] == table[s]
    ensures var k := FirstForeign(signals, saved);
      var t := Restore(signals, saved, entered).0;
      forall i :: 0 <= i < k ==> t[signals[i]] == table[signals[i]]
  {
    var k := FirstForeign(signals, saved);
    forall i | 0 <= i < k ensures Restore(signals, saved, entered).0[signals[i]] == table[signals[i]] {
      assert signals[i] == signals[..k][i];
    }
  }

  lemma RestoredSuffix(signals: seq<Signal>, saved: map<Signal, Handler>, entered: Table, table: Table)
    requires Distinct(signals)
    requires forall s :: s in signals ==> s in saved
    requires forall s :: s in signals ==> s in entered && entered[s] == Hook
    ensures var k := FirstForeign(signals, saved);
      var t := Restore(signals, saved, entered).0;
      forall i :: k <= i < |signals| ==> t[signals[i]] == Hook
  {
    var k := FirstForeign(signals, saved);
    forall i | k <= i < |signals| ensures Restore(signals, saved, entered).0[signals[i]] == Hook {
      assert signals[i] !in signals[..k];
    }
  }

  /** The outcome of a guarded block: TypeError when a guarded signal's
      handler was installed outside Python, whatever the body did and
      whatever arrived; otherwise, without a capture, the body's own
      completion, and with one and `delayed` unset, SystemExit(0), which
      replaces any exception the body raised. */
  lemma GuardedOutcome(signals: seq<Signal>, delayed: bool, table: Table, cs: seq<Capture>, body: Completion)
    requires Covers(table, signals) && Distinct(signals)
    requires forall i :: 0 <= i < |cs| ==> cs[i].sig in signals
    ensures !Reinstallable(signals, table) ==> Guarded(signals, delayed, table, cs, body).1 == Raised(TypeError)
    ensures Reinstallable(signals, table) && |cs| == 0 ==> Guarded(signals, delayed, table, cs, body).1 == body
    ensures Reinstallable(signals, table) && |cs| > 0 && !delayed ==>
      Guarded(signals, delayed, table, cs, body).1 == Raised(SystemExit(0))
  {
    var g, entered := EnteredGuard(signals, delayed, table, cs, body);
  }

  /** With `delayed` set and every guarded handler reinstallable, a capture
      ends the block as the code's call of the handler saved for the last
      captured signal, with its frame. */
  lemma GuardedDelayedOutcome(signals: seq<Signal>, table: Table, cs: seq<Capture>, body: Completion)
    requires Covers(table, signals) && Distinct(signals)
    requires forall i :: 0 <= i < |cs| ==> cs[i].sig in signals
    requires |cs| > 0
    ensures Reinstallable(signals, table) ==>
      Guarded(signals, true, table, cs, body).1 == ReplayAsWritten(table[cs[|cs| - 1].sig], cs[|cs| - 1], body)
  {
    var g, entered := EnteredGuard(signals, true, table, cs, body);
  }

  /** With the intended replay, a delayed guard hands the last captured
      signal to the handler that was installed before the block, as the
      process would have without the guard. */
  lemma GuardedIntendedOutcome(signals: seq<Signal>, table: Table, cs: seq<Capture>, body: Completion)
    requires Covers(table, signals) && Distinct(signals)
    requires forall i :: 0 <= i < |cs| ==> cs[i].sig in signals
    requires |cs| > 0
    ensures Reinstallable(signals, table) ==>
      GuardedIntended(signals, true, table, cs, body).1 == Dispatch(table[cs[|cs| - 1].sig], cs[|cs| - 1], body)
  {
    var g, entered := EnteredGuard(signals, true, table, cs, body);
  }

  /** The replay as written fails on the default disposition: a delayed
      guard that captures SIGTERM, whose handler is normally SIG_DFL, ends
      in TypeError instead of the signal's default action. */
  lemma DelayedReplayOfDefaultRaisesTypeError(table: Table, frame: Frame)
    requires SIGINT in table && SIGTERM in table && Covers(table, DEFAULT_SIGNALS)
    requires table[SIGTERM] == Default && table[SIGINT] != Foreign
    ensures var e := Enter(NewGuard(DEFAULT_SIGNALS, true), table);
      ExitAsWritten(Deliver(e.0, Capture(SIGTERM, frame)), e.1, Normal).1 == Raised(TypeError)
    ensures var e := Enter(NewGuard(DEFAULT_SIGNALS, true), table);
      Exit(Deliver(e.0, Capture(SIGTERM, frame)), e.1, Normal).1 == Redelivered(SIGTERM)
    ensures Guarded(DEFAULT_SIGNALS, true, table, [Capture(SIGTERM, frame)], Normal).1 == Raised(TypeError)
    ensures GuardedIntended(DEFAULT_SIGNALS, true, table, [Capture(SIGTERM, frame)], Normal).1 == Redelivered(SIGTERM)
  {
    assert Reinstallable(DEFAULT_SIGNALS, table) by {
      assert forall i :: 0 <= i < |DEFAULT_SIGNALS| ==> DEFAULT_SIGNALS[i] in {SIGINT, SIGTERM};
    }
    DelayedDefault(DEFAULT_SIGNALS, table, Capture(SIGTERM, frame));
  }

  lemma DelayedDefault(signals: seq<Signal>, table: Table, c: Capture)
    requires Covers(table, signals) && Distinct(signals) && Reinstallable(signals, table)
    requires c.sig in signals && table[c.sig] == Default && c.sig !in DEFAULT_IGNORED
    ensures var e := Enter(NewGuard(signals, true), table);
      ExitAsWritten(Deliver(e.0, c), e.1, Normal).1 == Raised(TypeError)
    ensures var e := Enter(NewGuard(signals, true), table);
      Exit(Deliver(e.0, c), e.1, Normal).1 == Redelivered(c.sig)
    ensures Guarded(signals, true, table, [c], Normal).1 == Raised(TypeError)
    ensures GuardedIntended(signals, true, table, [c], Normal).1 == Redelivered(c.sig)
  {
    var e := Enter(NewGuard(signals, true), table);
    var g, entered := EnteredGuard(signals, true, table, [c], Normal);
    assert [c][1..] == [];
    assert g == Deliver(e.0, c);
    assert Reinstallable(signals, g.saved) by {
      assert FirstForeign(signals, g.saved) == |signals|;
    }
    ExitOfDefault(g, entered, c);
  }

  lemma ExitOfDefault(g: Guard, t: Table, c: Capture)
    requires forall i :: 0 <= i < |g.signals| ==> g.signals[i] in g.saved
    requires Reinstallable(g.signals, g.saved) && g.delayed
    requires g.captured == Some(c) && c.sig in g.saved && g.saved[c.sig] == Default
    requires c.sig !in DEFAULT_IGNORED
    ensures ExitAsWritten(g, t, Normal).1 == Raised(TypeError)
    ensures Exit(g, t, Normal).1 == Redelivered(c.sig)
  {
  }
}
