/** The telemetry sampler of we515mqtt.py: a fixed table of thirteen
    register reads (`_read_data`) composed into one record, and `publish`,
    which stamps the record with the capture time.

    Scales are exact reals rather than Python floats, so a field's value is
    exactly its raw register value times its scale. */
module Telemetry {
  import opened Codec
  import opened Results
  import opened Modbus

  /** How a field's registers are read and composed: `_read_byte` reads one
      register and keeps it whole, `_read_word` joins two with
      `tuple2word`, `_read_long` joins two with `tuple2long`. */
  datatype Composition = Single | WordPair | LongPair

  datatype Field = Field(address: int, rule: Composition, scale: real, name: string)

  type Record = map<string, real>

  const TIMESTAMP_KEY: string := "timestamp"

  /** The read table, in the order `_read_data` issues the reads. */
  const FIELDS: seq<Field> := [
    Field(0x130, Single, 0.01, "freq"),
    Field(0x131, Single, 0.01, "voltage"),
    Field(0x139, WordPair, 0.001, "current"),
    Field(0x140, WordPair, 1.0, "active_power"),
    Field(0x148, WordPair, 0.001, "reactive_power"),
    Field(0x150, WordPair, 0.001, "apparent_power"),
    Field(0x158, Single, 0.001, "power_factor"),
    Field(0xA000, LongPair, 0.01, "total_active_energy"),
    Field(0xA002, LongPair, 0.01, "rate1_active_energy"),
    Field(0xA004, LongPair, 0.01, "rate2_active_energy"),
    Field(0xA01E, LongPair, 0.01, "total_reactive_energy"),
    Field(0xA020, LongPair, 0.01, "rate1_reactive_energy"),
    Field(0xA022, LongPair, 0.01, "rate2_reactive_energy")
  ]

  /** Number of registers a field reads. */
  function Width(rule: Composition): (n: nat)
    ensures n == 1 <==> rule == Single
    ensures 1 <= n <= 2
  {
    if rule == Single then 1 else 2
  }

  /** The raw integer a field's registers compose to. */
  function Compose(rule: Composition, regs: seq<Register>): (raw: bv32)
    requires |regs| == Width(rule)
    ensures rule == Single ==> raw == regs[0]
    ensures rule == LongPair ==> raw >> 16 == regs[0] && raw & 0xFFFF == regs[1]
    ensures rule == WordPair ==> raw < 0x100_0000
  {
    match rule
    case Single => regs[0]
    case WordPair => Tuple2Word(regs[0], regs[1])
    case LongPair => Tuple2Long(regs[0], regs[1])
  }

  /** The read request a field issues. */
  function ReadOp(f: Field): Op
  {
    Read(f.address, Width(f.rule))
  }

  predicate Readable(dev: Device, f: Field)
  {
    Present(dev, f.address, Width(f.rule))
  }

  /** A raw register value times a field's scale. */
  function ScaleRaw(raw: bv32, scale: real): real
  {
    (raw as int) as real * scale
  }

  /** The field's value when its registers can be read. */
  function Scaled(dev: Device, f: Field): real
    requires Readable(dev, f)
  {
    var regs := ReadHolding(dev, f.address, Width(f.rule)).value;
    ScaleRaw(Compose(f.rule, regs), f.scale)
  }

  /** `_read_byte`, `_read_word` and `_read_long`. */
  function ReadField(dev: Device, f: Field): (r: Result<real>)
    ensures r.Ok? <==> Readable(dev, f)
    ensures r.Ok? ==> r.value == Scaled(dev, f)
    ensures r.Err? ==> r.error == CommunicationError
  {
    match ReadHolding(dev, f.address, Width(f.rule))
    case Err(e) => Err(e)
    case Ok(regs) => Ok(ScaleRaw(Compose(f.rule, regs), f.scale))
  }

  function Names(fs: seq<Field>): set<string>
  {
    set i | 0 <= i < |fs| :: fs[i].name
  }

  predicate DistinctNames(fs: seq<Field>)
  {
    forall i, j :: 0 <= i < j < |fs| ==> fs[i].name != fs[j].name
  }

  function ReadOps(fs: seq<Field>): (ops: seq<Op>)
    ensures |ops| == |fs|
    ensures forall i :: 0 <= i < |fs| ==> ops[i] == ReadOp(fs[i])
  {
    seq(|fs|, i requires 0 <= i < |fs| => ReadOp(fs[i]))
  }

  lemma ReadOpsCons(fs: seq<Field>)
    requires |fs| > 0
    ensures ReadOps(fs) == [ReadOp(fs[0])] + ReadOps(fs[1..])
  {
  }

  /** The result of a sampling pass and the reads it issued. */
  datatype Sample = Sample(record: Result<Record>, ops: seq<Op>)

  /** The fields read in table order; the first read that fails raises, so
      no partial record is ever returned and no later read is issued. */
  function ReadFields(dev: Device, fs: seq<Field>): (s: Sample)
    ensures s.record.Err? ==> s.record.error == CommunicationError
    ensures s.record.Ok? ==> |s.ops| == |fs|
    ensures s.record.Err? ==> 0 < |s.ops| <= |fs|
  {
    if |fs| == 0 then
      Sample(Ok(map[]), [])
    else
      var op := ReadOp(fs[0]);
      match ReadField(dev, fs[0])
      case Err(e) => Sample(Err(e), [op])
      case Ok(v) =>
        var rest := ReadFields(dev, fs[1..]);
        var record := if rest.record.Err? then rest.record else Ok(rest.record.value[fs[0].name := v]);
        Sample(record, [op] + rest.ops)
  }

  /** Sampling succeeds exactly when every field's registers can be read. */
  lemma {:induction false} ReadFieldsOkIff(dev: Device, fs: seq<Field>)
    ensures ReadFields(dev, fs).record.Ok? <==> forall i :: 0 <= i < |fs| ==> Readable(dev, fs[i])
  {
    if |fs| > 0 {
      ReadFieldsOkIff(dev, fs[1..]);
      assert forall i :: 1 <= i < |fs| ==> fs[i] == fs[1..][i - 1];
    }
  }

  /** A successful sample holds exactly the table's names, each mapped to
      its field's value. */
  lemma {:induction false} ReadFieldsRecord(dev: Device, fs: seq<Field>)
    requires DistinctNames(fs)
    requires ReadFields(dev, fs).record.Ok?
    ensures ReadFields(dev, fs).record.value.Keys == Names(fs)
    ensures forall i :: 0 <= i < |fs| ==>
      Readable(dev, fs[i]) && ReadFields(dev, fs).record.value[fs[i].name] == Scaled(dev, fs[i])
  {
    if |fs| > 0 {
      var tail := fs[1..];
      assert forall i :: 1 <= i < |fs| ==> fs[i] == tail[i - 1];
      assert DistinctNames(tail);
      var v := ReadField(dev, fs[0]).value;
      var rest := ReadFields(dev, tail).record;
      assert rest.Ok?;
      ReadFieldsRecord(dev, tail);
      var rec := ReadFields(dev, fs).record.value;
      assert rec == rest.value[fs[0].name := v];
      forall i | 0 <= i < |fs|
        ensures Readable(dev, fs[i]) && rec[fs[i].name] == Scaled(dev, fs[i])
      {
        if i > 0 {
          assert fs[i].name != fs[0].name;
          assert rest.value[tail[i - 1].name] == Scaled(dev, tail[i - 1]);
        }
      }
      assert Names(fs) == Names(tail) + {fs[0].name} by {
        forall n | n in Names(fs) ensures n in Names(fs[1..]) + {fs[0].name} {
          var i :| 0 <= i < |fs| && fs[i].name == n;
          if i > 0 {
            assert tail[i - 1].name == n;
          }
        }
      }
    }
  }

  /** A successful sample issued every table read, in table order. */
  lemma {:induction false} ReadFieldsOpsOnSuccess(dev: Device, fs: seq<Field>)
    requires ReadFields(dev, fs).record.Ok?
    ensures ReadFields(dev, fs).ops == ReadOps(fs)
  {
    if |fs| > 0 {
      ReadFieldsOpsOnSuccess(dev, fs[1..]);
      ReadOpsCons(fs);
    }
  }

  /** A failed sample issued the table's reads up to and including the
      first one that failed, and no later one. */
  lemma {:induction false} ReadFieldsOpsOnFailure(dev: Device, fs: seq<Field>)
    requires ReadFields(dev, fs).record.Err?
    ensures var s := ReadFields(dev, fs);
      && s.ops == ReadOps(fs[..|s.ops|])
      && !Readable(dev, fs[|s.ops| - 1])
      && forall i :: 0 <= i < |s.ops| - 1 ==> Readable(dev, fs[i])
  {
    var s := ReadFields(dev, fs);
    if ReadField(dev, fs[0]).Ok? {
      var rest := ReadFields(dev, fs[1..]);
      ReadFieldsOpsOnFailure(dev, fs[1..]);
      assert fs[..|s.ops|] == [fs[0]] + fs[1..][..|rest.ops|];
      assert forall i :: 1 <= i < |s.ops| ==> fs[i] == fs[1..][i - 1];
    } else {
      assert fs[..1] == [fs[0]];
    }
  }

  /** `_read_data`: the thirteen reads of the table; the first one that
      fails raises. */
  function ReadData(dev: Device): (s: Sample)
    ensures s.record.Ok? ==> |s.ops| == 13
    ensures s.record.Err? ==> s.record.error == CommunicationError && 0 < |s.ops| <= 13
  {
    ReadFields(dev, FIELDS)
  }

  lemma FieldNamesDistinct()
    ensures DistinctNames(FIELDS)
  {
    assert forall i, j :: 0 <= i < j < |FIELDS| ==> NameKey(FIELDS[i].name) != NameKey(FIELDS[j].name);
  }

  /** Length, first and fifth character: enough to tell the table's names
      apart without comparing them in full. */
  function NameKey(s: string): (int, char, char)
  {
    (|s|, if |s| > 0 then s[0] else ' ', if |s| > 4 then s[4] else ' ')
  }

  /** The thirteen field names of the published record. */
  lemma FieldNames()
    ensures Names(FIELDS) == {
      "freq", "voltage", "current", "active_power", "reactive_power", "apparent_power",
      "power_factor", "total_active_energy", "rate1_active_energy", "rate2_active_energy",
      "total_reactive_energy", "rate1_reactive_energy", "rate2_reactive_energy"}
  {
    var listed := {FIELDS[0].name, FIELDS[1].name, FIELDS[2].name, FIELDS[3].name, FIELDS[4].name,
                   FIELDS[5].name, FIELDS[6].name, FIELDS[7].name, FIELDS[8].name, FIELDS[9].name,
                   FIELDS[10].name, FIELDS[11].name, FIELDS[12].name};
    forall n | n in Names(FIELDS) ensures n in listed {
      var i :| 0 <= i < |FIELDS| && FIELDS[i].name == n;
    }
  }

  /** The reads `_read_data` issues when all succeed, in this order, with
      width 1 for the single-register fields and 2 for the others. */
  lemma ReadDataOps(dev: Device)
    requires ReadData(dev).record.Ok?
    ensures ReadData(dev).ops == [
      Read(0x130, 1), Read(0x131, 1), Read(0x139, 2), Read(0x140, 2), Read(0x148, 2),
      Read(0x150, 2), Read(0x158, 1), Read(0xA000, 2), Read(0xA002, 2), Read(0xA004, 2),
      Read(0xA01E, 2), Read(0xA020, 2), Read(0xA022, 2)]
  {
    ReadFieldsOpsOnSuccess(dev, FIELDS);
  }

  /** `_read_data` returns a record exactly when all thirteen reads succeed;
      it then holds exactly the thirteen field names, each mapped to its
      raw value times its scale. */
  lemma ReadDataComplete(dev: Device)
    ensures ReadData(dev).record.Ok? <==> forall i :: 0 <= i < |FIELDS| ==> Readable(dev, FIELDS[i])
    ensures ReadData(dev).record.Ok? ==> ReadData(dev).record.value.Keys == Names(FIELDS)
    ensures ReadData(dev).record.Ok? ==> forall i :: 0 <= i < |FIELDS| ==>
      Readable(dev, FIELDS[i]) && ReadData(dev).record.value[FIELDS[i].name] == Scaled(dev, FIELDS[i])
  {
    FieldNamesDistinct();
    ReadFieldsOkIff(dev, FIELDS);
    if ReadData(dev).record.Ok? {
      ReadFieldsRecord(dev, FIELDS);
    }
  }

  /** The timestamp key is not one of the telemetry fields. */
  lemma TimestampNotAField()
    ensures TIMESTAMP_KEY !in Names(FIELDS)
  {
    forall i | 0 <= i < |FIELDS| ensures FIELDS[i].name != TIMESTAMP_KEY {
    }
  }

  /** A message handed to the MQTT client. */
  datatype Message = Message(topic: string, payload: Record, qos: nat)

  const QOS: nat := 1

  /** `publish`: the record plus the capture time under `timestamp`, sent
      with at-least-once delivery on the configured topic. */
  function Publish(topic: string, record: Record, timestamp: real): (m: Message)
    ensures m.topic == topic && m.qos == QOS
    ensures m.payload.Keys == record.Keys + {TIMESTAMP_KEY}
    ensures m.payload[TIMESTAMP_KEY] == timestamp
    ensures forall k :: k in record && k != TIMESTAMP_KEY ==> m.payload[k] == record[k]
  {
    Message(topic, record[TIMESTAMP_KEY := timestamp], QOS)
  }

  /** A published sample carries the thirteen field values unchanged and
      exactly one extra key, `timestamp`. */
  lemma PublishAddsOnlyTimestamp(topic: string, dev: Device, timestamp: real)
    requires ReadData(dev).record.Ok?
    ensures var m := Publish(topic, ReadData(dev).record.value, timestamp);
      && m.payload.Keys == Names(FIELDS) + {TIMESTAMP_KEY}
      && m.payload.Keys - ReadData(dev).record.value.Keys == {TIMESTAMP_KEY}
      && forall i :: 0 <= i < |FIELDS| ==>
           Readable(dev, FIELDS[i]) && m.payload[FIELDS[i].name] == Scaled(dev, FIELDS[i])
  {
    ReadDataComplete(dev);
    TimestampNotAField();
    assert forall i :: 0 <= i < |FIELDS| ==> FIELDS[i].name in Names(FIELDS);
  }
}
