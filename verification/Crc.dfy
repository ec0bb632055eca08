/**
 CRC-32 of section 3.2.9 of IEEE 802.3 in the reflected form of section 8 of RFC 1952.

 The reference is the bit-serial division register; the table-driven loop is proved equal to it, and
 the register is proved invertible, which is what makes bursts detectable.
 */
module Crc {
  import opened Domain

  const POLY: bv32 := 0xEDB8_8320
  const ONES: bv32 := 0xFFFF_FFFF

  // Names for the word operations, so that proofs can reason about them as algebra.

  function Mix(x: bv32, y: bv32): bv32 {
    x ^ y
  }

  function Half(x: bv32): bv32 {
    x >> 1
  }

  predicate Odd(x: bv32) {
    x & 1 != 0
  }

  function LowByte(x: bv32): bv32 {
    x & 0xFF
  }

  function HighBytes(x: bv32): bv32 {
    x & 0xFFFF_FF00
  }

  function DropByte(x: bv32): bv32 {
    x >> 8
  }

  // ---------------------------------------------------------------- bit-serial division

  /** Divides one more message bit into the remainder. */
  function Divide1(reg: bv32, bit: bool): bv32 {
    if Odd(reg) != bit then Mix(Half(reg), POLY) else Half(reg)
  }

  function Divide(reg: bv32, bits: seq<bool>): bv32
    decreases |bits|
  {
    if bits == [] then reg else Divide(Divide1(reg, bits[0]), bits[1..])
  }

  /** The bits of a byte in transmission order, least significant first. */
  function BitsOfByte(b: bv8): seq<bool> {
    [b & 1 != 0, b & 2 != 0, b & 4 != 0, b & 8 != 0, b & 16 != 0, b & 32 != 0, b & 64 != 0, b & 128 != 0]
  }

  function BitsOf(bytes: Bytes): seq<bool>
    decreases |bytes|
  {
    if bytes == [] then [] else BitsOfByte(bytes[0]) + BitsOf(bytes[1..])
  }

  /** The checksum: remainder of the message bits, inverted at both ends. */
  function Crc32(bytes: Bytes): bv32 {
    Divide(ONES, BitsOf(bytes)) ^ ONES
  }

  // ---------------------------------------------------------------- byte-wise register

  function Shift(reg: bv32): bv32 {
    if Odd(reg) then Mix(Half(reg), POLY) else Half(reg)
  }

  function Shift8(reg: bv32): bv32 {
    Shift(Shift(Shift(Shift(Shift(Shift(Shift(Shift(reg))))))))
  }

  function Feed(reg: bv32, b: bv8): bv32 {
    Shift8(Mix(reg, b as bv32))
  }

  function Register(reg: bv32, bytes: Bytes): bv32
    decreases |bytes|
  {
    if bytes == [] then reg else Register(Feed(reg, bytes[0]), bytes[1..])
  }

  lemma MixHalf(x: bv32, y: bv32)
    ensures Half(Mix(x, y)) == Mix(Half(x), Half(y))
  {
  }

  lemma MixParity(x: bv32, y: bv32)
    ensures Odd(Mix(x, y)) == (Odd(x) != Odd(y))
  {
  }

  lemma MixMoves(x: bv32, y: bv32, z: bv32)
    ensures Mix(x, Mix(y, z)) == Mix(Mix(x, y), z)
    ensures Mix(Mix(x, y), z) == Mix(Mix(x, z), y)
  {
  }

  lemma MixTwice(x: bv32, p: bv32)
    ensures Mix(Mix(x, p), p) == x
  {
  }

  lemma MixPair(x: bv32, y: bv32, p: bv32)
    ensures Mix(Mix(x, p), Mix(y, p)) == Mix(x, y)
  {
    MixMoves(Mix(x, p), y, p);
    MixMoves(x, p, y);
    MixTwice(Mix(x, y), p);
  }

  lemma ShiftLinear(x: bv32, y: bv32)
    ensures Shift(Mix(x, y)) == Mix(Shift(x), Shift(y))
  {
    MixHalf(x, y);
    MixParity(x, y);
    if Odd(x) && Odd(y) {
      MixPair(Half(x), Half(y), POLY);
    } else {
      MixMoves(Half(x), Half(y), POLY);
      MixMoves(Half(x), POLY, Half(y));
    }
  }

  lemma Shift8Linear(x: bv32, y: bv32)
    ensures Shift8(Mix(x, y)) == Mix(Shift8(x), Shift8(y))
  {
    var x1, y1 := Shift(x), Shift(y);
    var x2, y2 := Shift(x1), Shift(y1);
    var x3, y3 := Shift(x2), Shift(y2);
    var x4, y4 := Shift(x3), Shift(y3);
    var x5, y5 := Shift(x4), Shift(y4);
    var x6, y6 := Shift(x5), Shift(y5);
    var x7, y7 := Shift(x6), Shift(y6);
    ShiftLinear(x, y);
    ShiftLinear(x1, y1);
    ShiftLinear(x2, y2);
    ShiftLinear(x3, y3);
    ShiftLinear(x4, y4);
    ShiftLinear(x5, y5);
    ShiftLinear(x6, y6);
    ShiftLinear(x7, y7);
  }

  /** The inverse of `Shift`: the top bit of the result tells whether POLY was applied. */
  function Unshift(reg: bv32): bv32 {
    if reg & 0x8000_0000 != 0 then ((reg ^ POLY) << 1) | 1 else reg << 1
  }

  lemma ShiftInverts(x: bv32)
    ensures Unshift(Shift(x)) == x
  {
  }

  lemma ShiftInjective(x: bv32, y: bv32)
    ensures Shift(x) == Shift(y) ==> x == y
  {
    ShiftInverts(x);
    ShiftInverts(y);
  }

  lemma Shift8Injective(x: bv32, y: bv32)
    requires Shift8(x) == Shift8(y)
    ensures x == y
  {
    var x1, y1 := Shift(x), Shift(y);
    var x2, y2 := Shift(x1), Shift(y1);
    var x3, y3 := Shift(x2), Shift(y2);
    var x4, y4 := Shift(x3), Shift(y3);
    var x5, y5 := Shift(x4), Shift(y4);
    var x6, y6 := Shift(x5), Shift(y5);
    var x7, y7 := Shift(x6), Shift(y6);
    ShiftInjective(x7, y7);
    ShiftInjective(x6, y6);
    ShiftInjective(x5, y5);
    ShiftInjective(x4, y4);
    ShiftInjective(x3, y3);
    ShiftInjective(x2, y2);
    ShiftInjective(x1, y1);
    ShiftInjective(x, y);
  }

  lemma ShiftZeros(x: bv32)
    ensures x & 0xFF == 0 ==> Shift8(x) == x >> 8
  {
  }

  /** Shifting out eight zero bits is a plain shift. */
  lemma ShiftHigh(x: bv32)
    ensures Shift8(HighBytes(x)) == DropByte(x)
  {
    ShiftZeros(HighBytes(x));
  }

  lemma Split(x: bv32)
    ensures Mix(HighBytes(x), LowByte(x)) == x
  {
  }

  /** One table lookup does the work of eight bit steps. */
  lemma TableStep(x: bv32)
    ensures Mix(DropByte(x), Shift8(LowByte(x))) == Shift8(x)
  {
    Split(x);
    Shift8Linear(HighBytes(x), LowByte(x));
    ShiftHigh(x);
  }

  // ---------------------------------------------------------------- register = division

  /** Pending message bits may ride in the register: they leave it one per step. */
  lemma DivideStep(reg: bv32, y: bv32)
    ensures Shift(Mix(reg, y)) == Mix(Divide1(reg, Odd(y)), Half(y))
  {
    MixHalf(reg, y);
    MixParity(reg, y);
    MixMoves(Half(reg), Half(y), POLY);
  }

  lemma ByteBits(b: bv8)
    ensures var y := b as bv32;
            && Odd(y) == (b & 1 != 0)
            && Odd(Half(y)) == (b & 2 != 0)
            && Odd(Half(Half(y))) == (b & 4 != 0)
            && Odd(Half(Half(Half(y)))) == (b & 8 != 0)
            && Odd(Half(Half(Half(Half(y))))) == (b & 16 != 0)
            && Odd(Half(Half(Half(Half(Half(y)))))) == (b & 32 != 0)
            && Odd(Half(Half(Half(Half(Half(Half(y))))))) == (b & 64 != 0)
            && Odd(Half(Half(Half(Half(Half(Half(Half(y)))))))) == (b & 128 != 0)
            && Half(Half(Half(Half(Half(Half(Half(Half(y)))))))) == 0
  {
  }

  function Divide8(reg: bv32, b: bv8): bv32 {
    Divide1(Divide1(Divide1(Divide1(Divide1(Divide1(Divide1(Divide1(reg,
      b & 1 != 0), b & 2 != 0), b & 4 != 0), b & 8 != 0), b & 16 != 0), b & 32 != 0), b & 64 != 0), b & 128 != 0)
  }

  lemma MixZero(x: bv32)
    ensures Mix(x, 0) == x
  {
  }

  lemma FeedDivides(reg: bv32, b: bv8)
    ensures Feed(reg, b) == Divide8(reg, b)
  {
    var y0 := b as bv32;
    var y1 := Half(y0);
    var y2 := Half(y1);
    var y3 := Half(y2);
    var y4 := Half(y3);
    var y5 := Half(y4);
    var y6 := Half(y5);
    var y7 := Half(y6);
    var r1 := Divide1(reg, Odd(y0));
    var r2 := Divide1(r1, Odd(y1));
    var r3 := Divide1(r2, Odd(y2));
    var r4 := Divide1(r3, Odd(y3));
    var r5 := Divide1(r4, Odd(y4));
    var r6 := Divide1(r5, Odd(y5));
    var r7 := Divide1(r6, Odd(y6));
    var r8 := Divide1(r7, Odd(y7));
    ByteBits(b);
    DivideStep(reg, y0);
    DivideStep(r1, y1);
    DivideStep(r2, y2);
    DivideStep(r3, y3);
    DivideStep(r4, y4);
    DivideStep(r5, y5);
    DivideStep(r6, y6);
    DivideStep(r7, y7);
    MixZero(r8);
  }

  lemma DivideByte(reg: bv32, b: bv8)
    ensures Divide(reg, BitsOfByte(b)) == Divide8(reg, b)
  {
    hide Divide, Divide1;
    var bits := BitsOfByte(b);
    var r2 := Divide1(Divide1(reg, b & 1 != 0), b & 2 != 0);
    var r4 := Divide1(Divide1(r2, b & 4 != 0), b & 8 != 0);
    var r6 := Divide1(Divide1(r4, b & 16 != 0), b & 32 != 0);
    DividePair(reg, bits);
    DividePair(r2, bits[2..]);
    DividePair(r4, bits[2..][2..]);
    DividePair(r6, bits[2..][2..][2..]);
    assert bits[2..][2..][2..][2..] == [];
    DivideNone(Divide1(Divide1(r6, b & 64 != 0), b & 128 != 0));
  }

  lemma DivideNone(reg: bv32)
    ensures Divide(reg, []) == reg
  {
  }

  lemma DividePair(reg: bv32, bits: seq<bool>)
    requires |bits| >= 2
    ensures Divide(reg, bits) == Divide(Divide1(Divide1(reg, bits[0]), bits[1]), bits[2..])
  {
    assert bits[1..][1..] == bits[2..];
  }

  lemma {:induction false} DivideConcat(reg: bv32, a: seq<bool>, b: seq<bool>)
    ensures Divide(reg, a + b) == Divide(Divide(reg, a), b)
    decreases |a|
  {
    if a == [] {
      assert a + b == b;
    } else {
      assert (a + b)[1..] == a[1..] + b;
      DivideConcat(Divide1(reg, a[0]), a[1..], b);
    }
  }

  lemma {:induction false} RegisterDivides(reg: bv32, bytes: Bytes)
    ensures Register(reg, bytes) == Divide(reg, BitsOf(bytes))
    decreases |bytes|
  {
    if bytes != [] {
      FeedDivides(reg, bytes[0]);
      DivideByte(reg, bytes[0]);
      DivideConcat(reg, BitsOfByte(bytes[0]), BitsOf(bytes[1..]));
      RegisterDivides(Feed(reg, bytes[0]), bytes[1..]);
    }
  }

  lemma {:induction false} RegisterConcat(reg: bv32, a: Bytes, b: Bytes)
    ensures Register(reg, a + b) == Register(Register(reg, a), b)
    decreases |a|
  {
    if a == [] {
      assert a + b == b;
    } else {
      assert (a + b)[1..] == a[1..] + b;
      RegisterConcat(Feed(reg, a[0]), a[1..], b);
    }
  }

  // ---------------------------------------------------------------- the table-driven loop

  function ShiftBy(reg: bv32, n: nat): bv32
    decreases n
  {
    if n == 0 then reg else ShiftBy(Shift(reg), n - 1)
  }

  lemma ShiftByEight(reg: bv32)
    ensures ShiftBy(reg, 8) == Shift8(reg)
  {
    var r2 := Shift(Shift(reg));
    var r4 := Shift(Shift(r2));
    var r6 := Shift(Shift(r4));
    assert ShiftBy(reg, 8) == ShiftBy(r2, 6);
    assert ShiftBy(r2, 6) == ShiftBy(r4, 4);
    assert ShiftBy(r4, 4) == ShiftBy(r6, 2);
    assert ShiftBy(r6, 2) == ShiftBy(Shift(Shift(r6)), 0);
  }

  ghost predicate IsTable(table: array<bv32>)
    reads table
  {
    table.Length == 256 && forall k :: 0 <= k < 256 ==> table[k] == Shift8(k as bv32)
  }

  method BuildTable() returns (table: array<bv32>)
    ensures fresh(table) && IsTable(table)
  {
    hide Shift8;
    table := new bv32[256];
    var i := 0;
    while i < 256
      invariant 0 <= i <= 256
      invariant forall k :: 0 <= k < i ==> table[k] == Shift8(k as bv32)
    {
      var crc: bv32 := i as bv32;
      ShiftByEight(crc);
      var j := 0;
      while j < 8
        invariant 0 <= j <= 8
        invariant ShiftBy(crc, 8 - j) == Shift8(i as bv32)
        invariant forall k :: 0 <= k < i ==> table[k] == Shift8(k as bv32)
      {
        if crc & 1 != 0 {
          crc := (crc >> 1) ^ POLY;
        } else {
          crc := crc >> 1;
        }
        j := j + 1;
      }
      table[i] := crc;
      i := i + 1;
    }
  }

  lemma IndexRoundTrip(x: bv32)
    ensures 0 <= LowByte(x) as int < 256 && (LowByte(x) as int) as bv32 == LowByte(x)
  {
  }

  lemma MixByte(crc: bv32, b: bv8)
    ensures DropByte(Mix(crc, b as bv32)) == DropByte(crc)
  {
  }

  lemma LookUp(crc: bv32, b: bv8)
    ensures Feed(crc, b) == Mix(DropByte(crc), Shift8(LowByte(Mix(crc, b as bv32))))
  {
    TableStep(Mix(crc, b as bv32));
    MixByte(crc, b);
  }

  /** The checksum loop of the source computes the bit-serial remainder for every byte string. */
  method ComputeCrc32(bytes: Bytes) returns (r: bv32)
    ensures r == Crc32(bytes)
  {
    var table := BuildTable();
    var crc: bv32 := ONES;
    var i := 0;
    while i < |bytes|
      invariant 0 <= i <= |bytes|
      invariant IsTable(table) && crc == Register(ONES, bytes[..i])
    {
      var b := bytes[i];
      IndexRoundTrip(Mix(crc, b as bv32));
      var idx := LowByte(Mix(crc, b as bv32)) as int;
      LookUp(crc, b);
      RegisterSnoc(ONES, bytes[..i], b);
      assert bytes[..i + 1] == bytes[..i] + [b];
      assert idx as bv32 == LowByte(Mix(crc, b as bv32));
      assert table[idx] == Shift8(idx as bv32);
      crc := Mix(DropByte(crc), table[idx]);
      i := i + 1;
    }
    assert bytes[..|bytes|] == bytes;
    RegisterDivides(ONES, bytes);
    r := crc ^ ONES;
  }

  lemma RegisterSnoc(reg: bv32, bytes: Bytes, b: bv8)
    ensures Register(reg, bytes + [b]) == Feed(Register(reg, bytes), b)
  {
    RegisterConcat(reg, bytes, [b]);
    assert [b][1..] == [];
  }

  // ---------------------------------------------------------------- four-byte windows

  function Le32(x: bv32): (r: Bytes)
    ensures |r| == 4
  {
    [(x & 0xFF) as bv8, ((x >> 8) & 0xFF) as bv8, ((x >> 16) & 0xFF) as bv8, ((x >> 24) & 0xFF) as bv8]
  }

  function FromLe32(w: Bytes): bv32
    requires |w| == 4
  {
    (w[0] as bv32) | ((w[1] as bv32) << 8) | ((w[2] as bv32) << 16) | ((w[3] as bv32) << 24)
  }

  lemma Le32RoundTrip(x: bv32)
    ensures FromLe32(Le32(x)) == x
  {
  }

  lemma FromLe32RoundTrip(w: Bytes)
    requires |w| == 4
    ensures Le32(FromLe32(w)) == w
  {
  }

  function Shift32(reg: bv32): bv32 {
    Shift8(Shift8(Shift8(Shift8(reg))))
  }

  /** The low byte of `rest` acts now; the others ride along. */
  lemma FeedMixed(reg: bv32, rest: bv32, b: bv8)
    requires LowByte(rest) == b as bv32
    ensures Shift8(Mix(reg, rest)) == Mix(Feed(reg, b), DropByte(rest))
  {
    Split(rest);
    MixMoves(reg, HighBytes(rest), LowByte(rest));
    Shift8Linear(Mix(reg, LowByte(rest)), HighBytes(rest));
    ShiftHigh(rest);
  }

  lemma WordInBytes(w: Bytes)
    requires |w| == 4
    ensures var x := FromLe32(w);
            && LowByte(x) == w[0] as bv32 && LowByte(DropByte(x)) == w[1] as bv32
            && LowByte(DropByte(DropByte(x))) == w[2] as bv32
            && LowByte(DropByte(DropByte(DropByte(x)))) == w[3] as bv32
            && DropByte(DropByte(DropByte(DropByte(x)))) == 0
  {
  }

  /** Four bytes act on the register as one 32-bit word mixed in at once. */
  lemma FourBytes(reg: bv32, w: Bytes)
    requires |w| == 4
    ensures Register(reg, w) == Shift32(Mix(reg, FromLe32(w)))
  {
    hide Register, Feed, Shift8;
    var x0 := FromLe32(w);
    var x1 := DropByte(x0);
    var x2 := DropByte(x1);
    var x3 := DropByte(x2);
    var r1 := Feed(reg, w[0]);
    var r2 := Feed(r1, w[1]);
    var r3 := Feed(r2, w[2]);
    var r4 := Feed(r3, w[3]);
    WordInBytes(w);
    FeedMixed(reg, x0, w[0]);
    FeedMixed(r1, x1, w[1]);
    FeedMixed(r2, x2, w[2]);
    FeedMixed(r3, x3, w[3]);
    MixZero(r4);
    RegisterFour(reg, w);
  }

  lemma RegisterFour(reg: bv32, w: Bytes)
    requires |w| == 4
    ensures Register(reg, w) == Feed(Feed(Feed(Feed(reg, w[0]), w[1]), w[2]), w[3])
  {
    hide Register, Feed;
    RegisterPair(reg, w);
    RegisterPair(Feed(Feed(reg, w[0]), w[1]), w[2..]);
    assert w[2..][2..] == [];
    RegisterNone(Feed(Feed(Feed(Feed(reg, w[0]), w[1]), w[2]), w[3]));
  }

  lemma RegisterPair(reg: bv32, w: Bytes)
    requires |w| >= 2
    ensures Register(reg, w) == Register(Feed(Feed(reg, w[0]), w[1]), w[2..])
  {
    hide Feed;
    assert w[1..][1..] == w[2..];
  }

  lemma RegisterNone(reg: bv32)
    ensures Register(reg, []) == reg
  {
  }

  lemma MixCancels(x: bv32, y: bv32, z: bv32)
    ensures Mix(z, x) == Mix(z, y) ==> x == y
    ensures Mix(x, z) == Mix(y, z) ==> x == y
    ensures Mix(x, Mix(x, y)) == y
  {
  }

  lemma Shift32Injective(x: bv32, y: bv32)
    requires Shift32(x) == Shift32(y)
    ensures x == y
  {
    Shift8Injective(Shift8(Shift8(Shift8(x))), Shift8(Shift8(Shift8(y))));
    Shift8Injective(Shift8(Shift8(x)), Shift8(Shift8(y)));
    Shift8Injective(Shift8(x), Shift8(y));
    Shift8Injective(x, y);
  }

  /** Different four-byte words leave different registers. */
  lemma WindowInjective(reg: bv32, w: Bytes, w': Bytes)
    requires |w| == |w'| == 4 && Register(reg, w) == Register(reg, w')
    ensures w == w'
  {
    FourBytes(reg, w);
    FourBytes(reg, w');
    Shift32Injective(Mix(reg, FromLe32(w)), Mix(reg, FromLe32(w')));
    MixCancels(FromLe32(w), FromLe32(w'), reg);
    FromLe32RoundTrip(w);
    FromLe32RoundTrip(w');
  }

  lemma FeedInjective(r1: bv32, r2: bv32, b: bv8)
    requires Feed(r1, b) == Feed(r2, b)
    ensures r1 == r2
  {
    Shift8Injective(Mix(r1, b as bv32), Mix(r2, b as bv32));
    MixCancels(r1, r2, b as bv32);
  }

  /** Whatever follows, different registers stay different. */
  lemma {:induction false} RegisterInjective(r1: bv32, r2: bv32, bytes: Bytes)
    requires Register(r1, bytes) == Register(r2, bytes)
    ensures r1 == r2
    decreases |bytes|
  {
    if bytes != [] {
      RegisterInjective(Feed(r1, bytes[0]), Feed(r2, bytes[0]), bytes[1..]);
      FeedInjective(r1, r2, bytes[0]);
    }
  }

  /** Followed by its own checksum, every message leaves the same register. */
  ghost const RESIDUE: bv32 := Shift32(ONES)

  lemma OwnChecksum(reg: bv32)
    ensures Register(reg, Le32(Mix(reg, ONES))) == RESIDUE
  {
    FourBytes(reg, Le32(Mix(reg, ONES)));
    Le32RoundTrip(Mix(reg, ONES));
    MixCancels(reg, ONES, 0);
  }

  lemma Residue(bytes: Bytes, tail: Bytes)
    requires |tail| == 4
    ensures Register(ONES, bytes + tail) == RESIDUE <==> tail == Le32(Crc32(bytes))
  {
    var reg := Register(ONES, bytes);
    RegisterConcat(ONES, bytes, tail);
    RegisterDivides(ONES, bytes);
    assert Crc32(bytes) == Mix(reg, ONES);
    var good := Le32(Mix(reg, ONES));
    OwnChecksum(reg);
    if Register(reg, tail) == Register(reg, good) {
      WindowInjective(reg, tail, good);
    }
  }

  // ---------------------------------------------------------------- which polynomial

  /**
   The generator of section 3.2.9 of IEEE 802.3, reflected: besides x^32, exactly the powers 26, 23, 22,
   16, 12, 11, 10, 8, 7, 5, 4, 2, 1 and 0, the power k at bit 31 - k.
   */
  lemma GeneratorIsIeee()
    ensures POLY == (1 << 5) | (1 << 8) | (1 << 9) | (1 << 15) | (1 << 19) | (1 << 20) | (1 << 21) | (1 << 23)
                  | (1 << 24) | (1 << 26) | (1 << 27) | (1 << 29) | (1 << 30) | (1 << 31)
  {
  }

  /** The registers along the way, byte by byte. */
  lemma CheckRegisters()
    ensures Feed(ONES, 0x31) == 0x7C23_1048 && Feed(0x7C23_1048, 0x32) == 0xB0AC_BB32
    ensures Feed(0xB0AC_BB32, 0x33) == 0x77B7_9C2D && Feed(0x77B7_9C2D, 0x34) == 0x641C_1F5C
    ensures Feed(0x641C_1F5C, 0x35) == 0x340A_C5E3 && Feed(0x340A_C5E3, 0x36) == 0xF68D_2C9E
    ensures Feed(0xF68D_2C9E, 0x37) == 0xAFFC_9660 && Feed(0xAFFC_9660, 0x38) == 0x651F_2550
    ensures Feed(0x651F_2550, 0x39) == 0x340B_C6D9
  {
  }

  /** The check value of CRC-32/ISO-HDLC: the checksum of the ASCII digits 1 to 9. */
  lemma CheckValue()
    ensures Crc32([0x31, 0x32, 0x33, 0x34, 0x35, 0x36, 0x37, 0x38, 0x39]) == 0xCBF4_3926
  {
    hide Feed, Divide, BitsOf;
    var digits: Bytes := [0x31, 0x32, 0x33, 0x34, 0x35, 0x36, 0x37, 0x38, 0x39];
    RegisterDivides(ONES, digits);
    CheckRegisters();
    RegisterPair(ONES, digits);
    RegisterPair(0xB0AC_BB32, digits[2..]);
    RegisterPair(0x641C_1F5C, digits[4..]);
    RegisterPair(0xF68D_2C9E, digits[6..]);
    assert digits[2..][2..] == digits[4..] && digits[4..][2..] == digits[6..] && digits[6..][2..] == [0x39];
    RegisterSnoc(0x651F_2550, [], 0x39);
    assert [] + [0x39] == [0x39 as bv8];
  }
}
