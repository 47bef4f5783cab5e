/** `set_multirate_limits` of we515mqtt.py: the tariff schedule the meter
    keeps in the sixteen registers 0x8100..0x810F.  Register pairs hold a
    start time (hour, minute) and the rate that applies from it; the
    program programs rate 1 from the first time, rate 2 from the second,
    and clears the other twelve registers. */
module Multirate {
  import opened Codec
  import opened Modbus

  const SCHEDULE_ADDRESS: int := 0x8100
  const SCHEDULE_REGISTERS: nat := 16

  /** The sixteen values written, in address order. */
  function ScheduleValues(hstart: Byte, mstart: Byte, hend: Byte, mend: Byte): (vs: seq<Register>)
    ensures |vs| == SCHEDULE_REGISTERS
    ensures Word2Tuple(vs[0]) == (hstart, mstart)
    ensures Word2Tuple(vs[1]) == (0, 1)
    ensures Word2Tuple(vs[2]) == (hend, mend)
    ensures Word2Tuple(vs[3]) == (0, 2)
    ensures forall i :: 4 <= i < SCHEDULE_REGISTERS ==> Word2Tuple(vs[i]) == (0, 0)
  {
    SplitJoin(hstart, mstart);
    SplitJoin(0, 1);
    SplitJoin(hend, mend);
    SplitJoin(0, 2);
    SplitJoin(0, 0);
    [BytesToRegister(hstart, mstart), BytesToRegister(0, 1),
     BytesToRegister(hend, mend), BytesToRegister(0, 2)]
      + seq(12, _ => BytesToRegister(0, 0))
  }

  /** `set_multirate_limits`: one single-register write per value.  Every
      value fits a register, so the call never raises and always sends all
      sixteen writes. */
  function SetMultirateLimits(dev: Device, hstart: Byte, mstart: Byte, hend: Byte, mend: Byte)
    : (x: Exchange<()>)
    ensures x.result.Ok?
    ensures x.ops == WriteOps(SCHEDULE_ADDRESS, ScheduleValues(hstart, mstart, hend, mend))
    ensures x.device.holding.Keys == dev.holding.Keys
  {
    var vs := ScheduleValues(hstart, mstart, hend, mend);
    assert AllFit(vs);
    WriteAllSucceedsIff(dev, SCHEDULE_ADDRESS, vs);
    WriteAllOps(dev, SCHEDULE_ADDRESS, vs);
    WriteAll(dev, SCHEDULE_ADDRESS, vs)
  }

  /** Whatever the meter holds, the schedule registers it has take their
      values and no other register changes. */
  lemma MultirateContents(dev: Device, hstart: Byte, mstart: Byte, hend: Byte, mend: Byte)
    ensures var x := SetMultirateLimits(dev, hstart, mstart, hend, mend);
      var vs := ScheduleValues(hstart, mstart, hend, mend);
      && (forall i :: 0 <= i < SCHEDULE_REGISTERS && SCHEDULE_ADDRESS + i in dev.holding ==>
            x.device.holding[SCHEDULE_ADDRESS + i] == vs[i])
      && (forall a :: a in dev.holding && !(SCHEDULE_ADDRESS <= a < SCHEDULE_ADDRESS + SCHEDULE_REGISTERS) ==>
            x.device.holding[a] == dev.holding[a])
  {
    var vs := ScheduleValues(hstart, mstart, hend, mend);
    assert SetMultirateLimits(dev, hstart, mstart, hend, mend) == WriteAll(dev, SCHEDULE_ADDRESS, vs);
    WriteAllContents(dev, SCHEDULE_ADDRESS, vs);
    WriteAllFrame(dev, SCHEDULE_ADDRESS, vs);
  }

  /** On a meter that has the schedule registers, the call sends sixteen
      writes to 0x8100..0x810F in order, and afterwards the registers hold
      the two start times with rates 1 and 2, then zeros. */
  lemma MultirateWrites(dev: Device, hstart: Byte, mstart: Byte, hend: Byte, mend: Byte)
    requires Present(dev, SCHEDULE_ADDRESS, SCHEDULE_REGISTERS)
    ensures var x := SetMultirateLimits(dev, hstart, mstart, hend, mend);
      && |x.ops| == SCHEDULE_REGISTERS
      && (forall i :: 0 <= i < SCHEDULE_REGISTERS ==> x.ops[i].Write? && x.ops[i].address == SCHEDULE_ADDRESS + i)
      && Word2Tuple(x.device.holding[SCHEDULE_ADDRESS]) == (hstart, mstart)
      && x.device.holding[SCHEDULE_ADDRESS + 1] == 1
      && Word2Tuple(x.device.holding[SCHEDULE_ADDRESS + 2]) == (hend, mend)
      && x.device.holding[SCHEDULE_ADDRESS + 3] == 2
      && (forall a :: SCHEDULE_ADDRESS + 4 <= a < SCHEDULE_ADDRESS + SCHEDULE_REGISTERS ==>
            x.device.holding[a] == 0)
  {
    var vs := ScheduleValues(hstart, mstart, hend, mend);
    var x := SetMultirateLimits(dev, hstart, mstart, hend, mend);
    MultirateContents(dev, hstart, mstart, hend, mend);
    assert SCHEDULE_ADDRESS + 0 in dev.holding && SCHEDULE_ADDRESS + 2 in dev.holding;
    assert SCHEDULE_ADDRESS + 1 in dev.holding && SCHEDULE_ADDRESS + 3 in dev.holding;
    JoinSplit(vs[1]);
    JoinSplit(vs[3]);
    forall a | SCHEDULE_ADDRESS + 4 <= a < SCHEDULE_ADDRESS + SCHEDULE_REGISTERS
      ensures x.device.holding[a] == 0
    {
      var i := a - SCHEDULE_ADDRESS;
      assert a in dev.holding;
      JoinSplit(vs[i]);
      assert x.device.holding[SCHEDULE_ADDRESS + i] == vs[i];
    }
  }
}
