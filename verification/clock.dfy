/** The device clock of we515mqtt.py: the calendar packed two fields per
    register into 0x8120 (year - 2000, month), 0x8121 (day, hour) and
    0x8122 (minute, second), and the start-up rule that rewrites it when it
    drifts more than ten seconds from local time.

    Calendar values are Python `datetime`s: the model checks the fields the
    way the `datetime` constructor does and measures time differences the
    way `timedelta.total_seconds()` does, as exact reals. */
module DeviceClock {
  import opened Codec
  import opened Results
  import opened Modbus

  const CLOCK_ADDRESS: int := 0x8120
  const CLOCK_REGISTERS: nat := 3
  const YEAR_BASE: int := 2000
  const MIN_YEAR: int := 1
  const MAX_YEAR: int := 9999
  /** Drift, in seconds, the device clock may show before it is rewritten. */
  const DRIFT_LIMIT: real := 10.0

  datatype DateTime = DateTime(year: int, month: int, day: int, hour: int, minute: int,
                               second: int, microsecond: int)

  predicate IsLeap(year: int)
  {
    year % 4 == 0 && (year % 100 != 0 || year % 400 == 0)
  }

  function DaysInMonth(year: int, month: int): (n: int)
    requires 1 <= month <= 12
    ensures 28 <= n <= 31
    ensures n == 29 <==> month == 2 && IsLeap(year)
  {
    if month == 2 then (if IsLeap(year) then 29 else 28)
    else if month == 4 || month == 6 || month == 9 || month == 11 then 30
    else 31
  }

  /** The field ranges the `datetime` constructor enforces. */
  predicate Valid(t: DateTime)
  {
    && MIN_YEAR <= t.year <= MAX_YEAR
    && 1 <= t.month <= 12
    && 1 <= t.day <= DaysInMonth(t.year, t.month)
    && 0 <= t.hour < 24
    && 0 <= t.minute < 60
    && 0 <= t.second < 60
    && 0 <= t.microsecond < 1_000_000
  }

  /** `datetime(year, month, day, hour, minute, second)`: a ValueError for any
      field out of range. */
  function NewDateTime(year: int, month: int, day: int, hour: int, minute: int, second: int)
    : (r: Result<DateTime>)
    ensures r.Ok? <==> Valid(DateTime(year, month, day, hour, minute, second, 0))
    ensures r.Ok? ==> r.value == DateTime(year, month, day, hour, minute, second, 0)
    ensures r.Err? ==> r.error == ValueError
  {
    var t := DateTime(year, month, day, hour, minute, second, 0);
    if Valid(t) then Ok(t) else Err(ValueError)
  }

  /** The years whose offset from 2000 fits the 8-bit field. */
  predicate Representable(t: DateTime)
  {
    YEAR_BASE <= t.year < YEAR_BASE + 0x100
  }

  function ToByte(i: int): (b: Byte)
    requires 0 <= i < 0x100
    ensures b as int == i
  {
    i as Byte
  }

  /** The three register values `_set_device_time` writes.  A year outside
      2000..2255 makes the first value negative or wider than 16 bits, which
      the Modbus client refuses before sending anything. */
  function EncodeClock(t: DateTime): (r: Result<seq<Register>>)
    requires Valid(t)
    ensures r.Ok? <==> Representable(t)
    ensures r.Err? ==> r.error == RegisterRange
    ensures r.Ok? ==> |r.value| == CLOCK_REGISTERS
    ensures r.Ok? ==>
      && Word2Tuple(r.value[0]).0 as int == t.year - YEAR_BASE && Word2Tuple(r.value[0]).1 as int == t.month
      && Word2Tuple(r.value[1]).0 as int == t.day && Word2Tuple(r.value[1]).1 as int == t.hour
      && Word2Tuple(r.value[2]).0 as int == t.minute && Word2Tuple(r.value[2]).1 as int == t.second
  {
    var offset := t.year - YEAR_BASE;
    if !(0 <= offset < 0x100) then
      Err(RegisterRange)
    else
      var y, m := ToByte(offset), ToByte(t.month);
      var d, hh := ToByte(t.day), ToByte(t.hour);
      var mm, ss := ToByte(t.minute), ToByte(t.second);
      SplitJoin(y, m);
      SplitJoin(d, hh);
      SplitJoin(mm, ss);
      Ok([BytesToRegister(y, m), BytesToRegister(d, hh), BytesToRegister(mm, ss)])
  }

  /** The `datetime` `_get_device_time` builds from the three registers.
      Decoding only succeeds on a valid calendar value, and its year lies in
      2000..2255. */
  function DecodeClock(regs: seq<Register>): (r: Result<DateTime>)
    requires |regs| == CLOCK_REGISTERS
    ensures r.Err? ==> r.error == ValueError
    ensures r.Ok? ==> Valid(r.value) && Representable(r.value) && r.value.microsecond == 0
  {
    var (y, m) := Word2Tuple(regs[0]);
    var (d, hh) := Word2Tuple(regs[1]);
    var (mm, ss) := Word2Tuple(regs[2]);
    NewDateTime(YEAR_BASE + y as int, m as int, d as int, hh as int, mm as int, ss as int)
  }

  /** Round trip from the registers: whatever the clock registers decode
      to, encoding it gives the same registers back. */
  lemma DecodeThenEncode(regs: seq<Register>)
    requires |regs| == CLOCK_REGISTERS
    requires DecodeClock(regs).Ok?
    ensures EncodeClock(DecodeClock(regs).value) == Ok(regs)
  {
    RejoinThroughInts(regs[0]);
    RejoinThroughInts(regs[1]);
    RejoinThroughInts(regs[2]);
    assert regs == [regs[0], regs[1], regs[2]];
  }

  /** A register split into bytes, taken to integers and joined again is
      unchanged. */
  lemma RejoinThroughInts(w: Register)
    ensures BytesToRegister(ToByte(Word2Tuple(w).0 as int), ToByte(Word2Tuple(w).1 as int)) == w
  {
    JoinSplit(w);
    var (h, l) := Word2Tuple(w);
    assert ToByte(h as int) == h && ToByte(l as int) == l;
  }

  /** `_get_device_time`: one read of the three clock registers. */
  function GetDeviceTime(dev: Device): (x: Exchange<DateTime>)
    ensures x.device == dev
    ensures x.ops == [Read(CLOCK_ADDRESS, CLOCK_REGISTERS)]
    ensures x.result.Ok? ==> Representable(x.result.value) && Valid(x.result.value)
    ensures !Present(dev, CLOCK_ADDRESS, CLOCK_REGISTERS) ==> x.result == Err(CommunicationError)
  {
    var op := Read(CLOCK_ADDRESS, CLOCK_REGISTERS);
    match ReadHolding(dev, CLOCK_ADDRESS, CLOCK_REGISTERS)
    case Err(e) => Exchange(Err(e), dev, [op])
    case Ok(regs) => Exchange(DecodeClock(regs), dev, [op])
  }

  /** `_set_device_time`: three single-register writes; microseconds are
      dropped. */
  function SetDeviceTime(dev: Device, t: DateTime): (x: Exchange<()>)
    requires Valid(t)
    ensures !Representable(t) ==> x == Exchange(Err(RegisterRange), dev, [])
  {
    match EncodeClock(t)
    case Err(e) => Exchange(Err(e), dev, [])
    case Ok(regs) => WriteAll(dev, CLOCK_ADDRESS, regs)
  }

  /** Writing a representable time and reading the clock back gives the
      same calendar value, less its microseconds; the write is three
      requests, one per register from 0x8120 to 0x8122. */
  lemma ClockRoundTrip(dev: Device, t: DateTime)
    requires Valid(t) && Representable(t)
    requires Present(dev, CLOCK_ADDRESS, CLOCK_REGISTERS)
    ensures SetDeviceTime(dev, t).result.Ok?
    ensures |SetDeviceTime(dev, t).ops| == 3
    ensures forall i :: 0 <= i < 3 ==>
      SetDeviceTime(dev, t).ops[i].Write? && SetDeviceTime(dev, t).ops[i].address == CLOCK_ADDRESS + i
    ensures GetDeviceTime(SetDeviceTime(dev, t).device).result == Ok(t.(microsecond := 0))
  {
    var regs := EncodeClock(t).value;
    WriteAllSucceedsIff(dev, CLOCK_ADDRESS, regs);
    WriteAllOps(dev, CLOCK_ADDRESS, regs);
    WriteAllContents(dev, CLOCK_ADDRESS, regs);
    var dev' := SetDeviceTime(dev, t).device;
    var read := ReadHolding(dev', CLOCK_ADDRESS, CLOCK_REGISTERS);
    assert read.Ok?;
    assert read.value == regs;
    var (y, m) := Word2Tuple(regs[0]);
    var (d, hh) := Word2Tuple(regs[1]);
    var (mm, ss) := Word2Tuple(regs[2]);
    assert DecodeClock(regs) == NewDateTime(YEAR_BASE + y as int, m as int, d as int, hh as int, mm as int, ss as int);
  }

  // Time arithmetic of Python's `datetime`: proleptic Gregorian day numbers.

  function DaysBeforeYear(year: int): int
    requires year >= MIN_YEAR
  {
    var y := year - 1;
    y * 365 + y / 4 - y / 100 + y / 400
  }

  function DaysBeforeMonth(year: int, month: int): int
    requires 1 <= month <= 12
  {
    var table := [0, 31, 59, 90, 120, 151, 181, 212, 243, 273, 304, 334];
    table[month - 1] + (if month > 2 && IsLeap(year) then 1 else 0)
  }

  /** `date.toordinal()`: 1 for 1 January of year 1. */
  function Ordinal(t: DateTime): int
    requires Valid(t)
  {
    DaysBeforeYear(t.year) + DaysBeforeMonth(t.year, t.month) + t.day
  }

  /** Seconds since the start of the ordinal calendar, with microseconds. */
  function Seconds(t: DateTime): real
    requires Valid(t)
  {
    (Ordinal(t) * 86400 + t.hour * 3600 + t.minute * 60 + t.second) as real
      + (t.microsecond as real) / 1_000_000.0
  }

  /** `abs((local - remote).total_seconds())`. */
  function Drift(local: DateTime, remote: DateTime): (r: real)
    requires Valid(local) && Valid(remote)
    ensures r >= 0.0
    ensures r == 0.0 <==> Seconds(local) == Seconds(remote)
  {
    var delta := Seconds(local) - Seconds(remote);
    if delta < 0.0 then -delta else delta
  }

  /** The start-up resynchronisation rule: strictly more than ten seconds. */
  predicate NeedsResync(local: DateTime, remote: DateTime)
    requires Valid(local) && Valid(remote)
  {
    Drift(local, remote) > DRIFT_LIMIT
  }

  /** The month table agrees with the month lengths: the first day of the
      next month follows the last day of this one. */
  lemma MonthTableConsistent(year: int, month: int)
    requires 1 <= month < 12
    ensures DaysBeforeMonth(year, month + 1) == DaysBeforeMonth(year, month) + DaysInMonth(year, month)
  {
  }

  /** The year count agrees with the leap-year rule. */
  lemma YearLengthConsistent(year: int)
    requires year >= MIN_YEAR
    ensures DaysBeforeYear(year + 1) == DaysBeforeYear(year) + (if IsLeap(year) then 366 else 365)
  {
    var y := year - 1;
    assert year / 4 - y / 4 == (if year % 4 == 0 then 1 else 0);
    assert year / 100 - y / 100 == (if year % 100 == 0 then 1 else 0);
    assert year / 400 - y / 400 == (if year % 400 == 0 then 1 else 0);
  }

  /** The clock part of `setup`: read the device time, and when it is more
      than ten seconds off `local`, write `later` (the second `now()` the
      program takes) and read the clock once more.  Any failure raises out
      of `setup`. */
  function SyncClock(dev: Device, local: DateTime, later: DateTime): (x: Exchange<()>)
    requires Valid(local) && Valid(later)
    ensures |x.ops| > 0 && x.ops[0] == Read(CLOCK_ADDRESS, CLOCK_REGISTERS)
    ensures GetDeviceTime(dev).result.Err? ==>
      x.result == Err(GetDeviceTime(dev).result.error) && x.device == dev && |x.ops| == 1
    ensures x.device.holding.Keys == dev.holding.Keys
    ensures (forall i :: 0 <= i < |x.ops| ==> x.ops[i].Read?) ==> x.device == dev
  {
    var remote := GetDeviceTime(dev);
    match remote.result
    case Err(e) => Exchange(Err(e), dev, remote.ops)
    case Ok(t) =>
      if !NeedsResync(local, t) then
        Exchange(Ok(()), dev, remote.ops)
      else
        var w := SetDeviceTime(dev, later);
        if w.result.Err? then
          assert |w.ops| > 0 ==> (remote.ops + w.ops)[1] == w.ops[0];
          Exchange(w.result, w.device, remote.ops + w.ops)
        else
          var check := GetDeviceTime(w.device);
          assert |w.ops| > 0 ==> (remote.ops + w.ops + check.ops)[1] == w.ops[0];
          var result := if check.result.Ok? then Ok(()) else Err(check.result.error);
          Exchange(result, w.device, remote.ops + w.ops + check.ops)
  }

  /** Within ten seconds of drift, included, setup reads the clock once and
      leaves the device untouched. */
  lemma SyncWithoutDrift(dev: Device, local: DateTime, later: DateTime)
    requires Valid(local) && Valid(later)
    requires GetDeviceTime(dev).result.Ok?
    requires !NeedsResync(local, GetDeviceTime(dev).result.value)
    ensures SyncClock(dev, local, later) == Exchange(Ok(()), dev, [Read(CLOCK_ADDRESS, CLOCK_REGISTERS)])
  {
  }

  /** Beyond ten seconds of drift, setup reads the clock, writes `later`
      with one request per register from 0x8120 to 0x8122, and reads the
      clock once more, which then shows `later` without its microseconds. */
  lemma SyncWithDrift(dev: Device, local: DateTime, later: DateTime)
    requires Valid(local) && Valid(later) && Representable(later)
    requires GetDeviceTime(dev).result.Ok?
    requires NeedsResync(local, GetDeviceTime(dev).result.value)
    ensures var x := SyncClock(dev, local, later);
      && x.result.Ok?
      && |x.ops| == 5
      && x.ops[0] == Read(CLOCK_ADDRESS, CLOCK_REGISTERS)
      && (forall i :: 1 <= i <= 3 ==> x.ops[i].Write? && x.ops[i].address == CLOCK_ADDRESS + i - 1)
      && x.ops[4] == Read(CLOCK_ADDRESS, CLOCK_REGISTERS)
      && GetDeviceTime(x.device).result == Ok(later.(microsecond := 0))
  {
    assert Present(dev, CLOCK_ADDRESS, CLOCK_REGISTERS);
    ClockRoundTrip(dev, later);
    var w := SetDeviceTime(dev, later);
    var x := SyncClock(dev, local, later);
    assert x.ops == [Read(CLOCK_ADDRESS, CLOCK_REGISTERS)] + w.ops + [Read(CLOCK_ADDRESS, CLOCK_REGISTERS)];
  }

  /** The rewrite happens if and only if the drift exceeds ten seconds: it
      is the only way a write request reaches the device during setup. */
  lemma SyncWritesIffDrift(dev: Device, local: DateTime, later: DateTime)
    requires Valid(local) && Valid(later) && Representable(later)
    requires GetDeviceTime(dev).result.Ok?
    ensures (exists i :: 0 <= i < |SyncClock(dev, local, later).ops| && SyncClock(dev, local, later).ops[i].Write?)
      <==> NeedsResync(local, GetDeviceTime(dev).result.value)
  {
    if NeedsResync(local, GetDeviceTime(dev).result.value) {
      SyncWithDrift(dev, local, later);
      assert SyncClock(dev, local, later).ops[1].Write?;
    } else {
      SyncWithoutDrift(dev, local, later);
    }
  }

  /** A drift of exactly ten seconds does not trigger a rewrite, eleven do. */
  lemma TenSecondsIsNotDrift(t: DateTime)
    requires Valid(t) && t.second < 49
    ensures !NeedsResync(t.(second := t.second + 10), t)
    ensures NeedsResync(t.(second := t.second + 11), t)
  {
  }
}
