/** The Modbus device as the program sees it: a map from holding-register
    addresses to 16-bit values, and the log of requests the program issues.
    The meter answers a request for an address the map lacks with an
    exception reply.  The program reads `registers` from every read reply,
    so a rejected read raises; it never looks at a write reply, so a
    rejected write is issued and has no effect. */
module Modbus {
  import opened Codec
  import opened Results

  /** One request on the wire.  A written value is the Python integer the
      program passes, which may be too wide for a register. */
  datatype Op =
    | Read(address: int, count: nat)
    | Write(address: int, value: bv32)

  datatype Device = Device(holding: map<int, Register>)

  /** The result of a sequence of requests: what the program gets back, the
      device afterwards (a failed write leaves earlier writes in place), and
      the requests in the order they were issued. */
  datatype Exchange<+T> = Exchange(result: Result<T>, device: Device, ops: seq<Op>)

  predicate Present(dev: Device, address: int, count: nat)
  {
    forall a :: address <= a < address + count ==> a in dev.holding
  }

  /** `read_holding_registers(address, count)`. */
  function ReadHolding(dev: Device, address: int, count: nat): (r: Result<seq<Register>>)
    ensures r.Ok? <==> Present(dev, address, count)
    ensures r.Ok? ==> |r.value| == count
    ensures r.Ok? ==> forall i :: 0 <= i < count ==> r.value[i] == dev.holding[address + i]
  {
    if Present(dev, address, count) then
      Ok(seq(count, i requires 0 <= i < count => dev.holding[address + i]))
    else
      Err(CommunicationError)
  }

  /** `write_registers(address, value)` with a single value.  A value
      outside 0..0xFFFF cannot be encoded, and the client raises before
      sending anything; a write to a missing register is sent, refused by
      the meter, and the refusal goes unnoticed. */
  function WriteRegister(dev: Device, address: int, value: bv32): (r: Result<Device>)
    ensures r.Ok? <==> value < 0x1_0000
    ensures r.Err? ==> r.error == RegisterRange
    ensures r.Ok? ==> r.value.holding.Keys == dev.holding.Keys
    ensures r.Ok? && address in dev.holding ==> r.value.holding[address] as bv32 == value
    ensures r.Ok? && address !in dev.holding ==> r.value == dev
    ensures r.Ok? ==> forall a :: a in dev.holding && a != address ==> r.value.holding[a] == dev.holding[a]
  {
    if value >= 0x1_0000 then Err(RegisterRange)
    else if address !in dev.holding then Ok(dev)
    else Ok(Device(dev.holding[address := value as Register]))
  }

  /** The single-register writes a list of values turns into: value `i`
      goes to `base + i`. */
  function WriteOps(base: int, values: seq<bv32>): (ops: seq<Op>)
    ensures |ops| == |values|
    ensures forall i :: 0 <= i < |values| ==> ops[i] == Write(base + i, values[i])
  {
    seq(|values|, i requires 0 <= i < |values| => Write(base + i, values[i]))
  }

  lemma WriteOpsCons(base: int, values: seq<bv32>)
    requires |values| > 0
    ensures WriteOps(base, values) == [Write(base, values[0])] + WriteOps(base + 1, values[1..])
  {
  }

  /** True when every value fits in a 16-bit register. */
  predicate AllFit(values: seq<bv32>)
  {
    forall i :: 0 <= i < |values| ==> values[i] < 0x1_0000
  }

  /** One `write_registers` call per value, to consecutive addresses, in
      order.  The first value too wide to encode raises and stops the
      sequence, leaving the earlier writes on the device; refused writes do
      not stop it. */
  function WriteAll(dev: Device, base: int, values: seq<bv32>): (x: Exchange<()>)
    decreases |values|
    ensures x.device.holding.Keys == dev.holding.Keys
    ensures |x.ops| <= |values|
    ensures x.result.Ok? ==> |x.ops| == |values|
    ensures x.ops == [] ==> x.device == dev
    ensures forall i :: 0 <= i < |x.ops| ==> x.ops[i].Write?
  {
    if |values| == 0 then
      Exchange(Ok(()), dev, [])
    else
      match WriteRegister(dev, base, values[0])
      case Err(e) =>
        Exchange(Err(e), dev, [])
      case Ok(dev') =>
        var rest := WriteAll(dev', base + 1, values[1..]);
        Exchange(rest.result, rest.device, [Write(base, values[0])] + rest.ops)
  }

  /** The writes all go through exactly when every value fits in 16 bits,
      whether or not the target registers exist. */
  lemma {:induction false} WriteAllSucceedsIff(dev: Device, base: int, values: seq<bv32>)
    ensures WriteAll(dev, base, values).result.Ok? <==> AllFit(values)
    decreases |values|
  {
    if |values| > 0 {
      var w := WriteRegister(dev, base, values[0]);
      if w.Ok? {
        WriteAllSucceedsIff(w.value, base + 1, values[1..]);
        assert AllFit(values) <==> AllFit(values[1..]) by {
          if AllFit(values[1..]) {
            forall i | 1 <= i < |values| ensures values[i] < 0x1_0000 {
              assert values[1..][i - 1] == values[i];
            }
          }
        }
      }
    }
  }

  /** A sequence that did not raise issued one request per value, in order. */
  lemma {:induction false} WriteAllOps(dev: Device, base: int, values: seq<bv32>)
    requires WriteAll(dev, base, values).result.Ok?
    ensures WriteAll(dev, base, values).ops == WriteOps(base, values)
    decreases |values|
  {
    if |values| > 0 {
      var dev' := WriteRegister(dev, base, values[0]).value;
      WriteAllOps(dev', base + 1, values[1..]);
      WriteOpsCons(base, values);
    }
  }

  /** After a sequence that did not raise, each target register the meter
      has holds its value; the others still do not exist. */
  lemma {:induction false} WriteAllContents(dev: Device, base: int, values: seq<bv32>)
    requires WriteAll(dev, base, values).result.Ok?
    ensures forall i :: 0 <= i < |values| && base + i in dev.holding ==>
      WriteAll(dev, base, values).device.holding[base + i] == values[i]
    decreases |values|
  {
    if |values| > 0 {
      var dev' := WriteRegister(dev, base, values[0]).value;
      var rest := WriteAll(dev', base + 1, values[1..]);
      WriteAllContents(dev', base + 1, values[1..]);
      WriteAllFrame(dev', base + 1, values[1..]);
      forall i | 0 <= i < |values| && base + i in dev.holding
        ensures rest.device.holding[base + i] == values[i]
      {
        if i > 0 {
          assert rest.device.holding[(base + 1) + (i - 1)] == values[1..][i - 1];
        }
      }
    }
  }

  /** A sequence that raised stopped at its first value too wide for a
      register: every value before it was sent, accepted by the meter or
      not, and nothing after it was. */
  lemma {:induction false} WriteAllStopsAtFailure(dev: Device, base: int, values: seq<bv32>)
    requires WriteAll(dev, base, values).result.Err?
    ensures var n := |WriteAll(dev, base, values).ops|;
      && n < |values|
      && values[n] >= 0x1_0000
      && AllFit(values[..n])
      && WriteAll(dev, base, values).ops == WriteOps(base, values[..n])
    decreases |values|
  {
    var w := WriteRegister(dev, base, values[0]);
    if w.Ok? {
      var rest := WriteAll(w.value, base + 1, values[1..]);
      WriteAllStopsAtFailure(w.value, base + 1, values[1..]);
      var n := |WriteAll(dev, base, values).ops|;
      assert n == |rest.ops| + 1;
      WriteOpsCons(base, values[..n]);
      assert values[..n][1..] == values[1..][..|rest.ops|];
      assert values[n] == values[1..][|rest.ops|];
      forall i | 0 <= i < n ensures values[..n][i] < 0x1_0000 {
        if i > 0 {
          assert values[..n][i] == values[1..][..|rest.ops|][i - 1];
        }
      }
    } else {
      assert values[..0] == [];
    }
  }

  /** Registers outside the written range keep their values, whether or not
      the sequence succeeded. */
  lemma {:induction false} WriteAllFrame(dev: Device, base: int, values: seq<bv32>)
    ensures forall a :: a in dev.holding && !(base <= a < base + |values|) ==>
      WriteAll(dev, base, values).device.holding[a] == dev.holding[a]
    decreases |values|
  {
    if |values| > 0 {
      var w := WriteRegister(dev, base, values[0]);
      if w.Ok? {
        WriteAllFrame(w.value, base + 1, values[1..]);
      }
    }
  }

  /** The program never learns what the meter did with its writes: the
      outcome and the requests issued are the same on any two meters. */
  lemma {:induction false} WriteAllBlind(d1: Device, d2: Device, base: int, values: seq<bv32>)
    ensures WriteAll(d1, base, values).result == WriteAll(d2, base, values).result
    ensures WriteAll(d1, base, values).ops == WriteAll(d2, base, values).ops
    decreases |values|
  {
    if |values| > 0 {
      var w1 := WriteRegister(d1, base, values[0]);
      var w2 := WriteRegister(d2, base, values[0]);
      if w1.Ok? {
        WriteAllBlind(w1.value, w2.value, base + 1, values[1..]);
      }
    }
  }
}
