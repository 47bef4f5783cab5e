/** The register codec of we515mqtt.py: splitting a 16-bit register into its
    two bytes, and joining two values with a shift and a bitwise OR.

    Python integers are unbounded.  The model feeds these functions only
    bytes and 16-bit registers: registers read from the meter, calendar
    fields below 256, and the tariff hours and minutes, which are taken to
    be bytes.  Every result then fits in 32 bits, so the model works on
    bit-vectors: a `Byte` is a `bv8`, and a `Register` is a `bv32` below
    2^16, the same type as composed values. */
module Codec {

  type Byte = bv8
  type Register = x: bv32 | x < 0x1_0000

  /** `word2tuple`: the high and the low byte of a register. */
  function Word2Tuple(w: Register): (r: (Byte, Byte))
    ensures ((r.0 as bv32) << 8) | (r.1 as bv32) == w
  {
    ((w >> 8) as Byte, (w & 0xFF) as Byte)
  }

  /** `tuple2word`: `(high << 8) | low`.  The program also applies it to two
      full 16-bit registers; see `WordLowByteExact`, `WordHighPartAbsorbs`
      and `WordIsSumIffDisjoint` for what the OR keeps and loses. */
  function Tuple2Word(high: Register, low: Register): (r: bv32)
    ensures r < 0x100_0000
  {
    (high << 8) | low
  }

  /** `tuple2long`: `(high << 16) | low`.  The two registers never overlap,
      so both halves survive; `LongIsSum` shows the value is
      `high * 65536 + low`. */
  function Tuple2Long(high: Register, low: Register): (r: bv32)
    ensures r >> 16 == high
    ensures r & 0xFFFF == low
  {
    (high << 16) | low
  }

  /** `tuple2long(high, low)` is `high * 65536 + low`, which is below 2^32
      for 16-bit registers, so nothing wraps around. */
  lemma LongIsSum(high: Register, low: Register)
    ensures Tuple2Long(high, low) == (high << 16) + low
  {
    RegisterBelowShift(high, low);
    DisjointOrIsPlus(high << 16, low);
  }

  /** The register value `tuple2word` yields for two bytes, the only way
      the program builds a value it writes to the device. */
  function BytesToRegister(high: Byte, low: Byte): (r: Register)
    ensures r == Tuple2Word(high as Register, low as Register)
    ensures r >> 8 == high as bv32 && r & 0xFF == low as bv32
  {
    Tuple2Word(high as Register, low as Register)
  }

  /** The low byte of `tuple2word(high, low)` is the low byte of `low`. */
  lemma WordLowByteExact(high: Register, low: Register)
    ensures Tuple2Word(high, low) & 0xFF == low & 0xFF
  {
  }

  /** Above the low byte, `tuple2word(high, low)` holds `high` OR-ed with
      the high byte of `low`: a `low` wider than a byte bleeds into it. */
  lemma WordHighPartAbsorbs(high: Register, low: Register)
    ensures Tuple2Word(high, low) >> 8 == high | (low >> 8)
  {
    ShiftOrSplit(high, low);
  }

  /** `tuple2word(high, low)` equals `high * 256 + low` exactly when the
      shifted `high` and `low` share no set bit, in particular whenever
      `low` is a byte. */
  lemma WordIsSumIffDisjoint(high: Register, low: Register)
    ensures Tuple2Word(high, low) == (high << 8) + low <==> (high << 8) & low == 0
  {
    OrPlusAnd(high << 8, low);
    PlusIsIdentity((high << 8) | low, (high << 8) & low);
  }

  /** In particular `tuple2word(high, low)` is `high * 256 + low` whenever
      `low` is a byte. */
  lemma WordIsSumOfByte(high: Register, low: Register)
    requires low < 0x100
    ensures Tuple2Word(high, low) == (high << 8) + low
  {
    ByteBelowShift(high, low);
    DisjointOrIsPlus(high << 8, low);
  }

  /** Applied to two full registers, `tuple2word` loses information: two
      distinct register pairs compose to the same value, which is not
      `high * 256 + low`. */
  lemma WordOfRegistersLosesBits()
    ensures Tuple2Word(0x0001, 0x0100) == Tuple2Word(0x0000, 0x0100)
    ensures Tuple2Word(0x0001, 0x0100) != (0x0001 << 8) + 0x0100
  {
  }

  /** Round trip in one direction: splitting a joined pair of bytes gives the
      pair back. */
  lemma SplitJoin(h: Byte, l: Byte)
    ensures Word2Tuple(BytesToRegister(h, l)) == (h, l)
  {
  }

  /** Round trip in the other direction: joining the two halves of a
      register gives the register back. */
  lemma JoinSplit(w: Register)
    ensures BytesToRegister(Word2Tuple(w).0, Word2Tuple(w).1) == w
  {
  }

  // Bit-vector facts the lemmas above are assembled from.

  lemma OrPlusAnd(a: bv32, b: bv32)
    ensures a + b == (a | b) + (a & b)
  {
  }

  lemma PlusIsIdentity(x: bv32, y: bv32)
    ensures x == x + y <==> y == 0
  {
  }

  lemma ByteBelowShift(a: bv32, b: bv32)
    requires a < 0x1_0000 && b < 0x100
    ensures (a << 8) & b == 0
  {
  }

  lemma RegisterBelowShift(a: bv32, b: bv32)
    requires a < 0x1_0000 && b < 0x1_0000
    ensures (a << 16) & b == 0
  {
  }

  lemma DisjointOrIsPlus(a: bv32, b: bv32)
    requires a & b == 0
    ensures a | b == a + b
  {
  }

  lemma ShiftOrSplit(a: bv32, b: bv32)
    requires a < 0x1_0000 && b < 0x1_0000
    ensures ((a << 8) | b) >> 8 == a | (b >> 8)
  {
  }
}
