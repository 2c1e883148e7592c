/** `crc32` of `crc32.c`: slicing by four over lookup tables, proved equal to the bit-serial
    reflected CRC-32 of IEEE 802.3 clause 3.2.9 (polynomial 0xEDB88320 in reflected form). */
module Crc32 {
  import opened Crc32Tables

  // ---------------------------------------------------------------------------------------------
  // The definition: one message bit at a time, least significant bit of each byte first
  // ---------------------------------------------------------------------------------------------

  const POLYNOMIAL: bv32 := 0xEDB88320

  function ShiftInBit(register: bv32, bit: bool): bv32 {
    var feedback := Odd(register) != bit;
    if feedback then (register >> 1) ^ POLYNOMIAL else register >> 1
  }

  function ShiftInBits(register: bv32, bits: seq<bool>): bv32
    decreases |bits|
  {
    if bits == [] then register else ShiftInBits(ShiftInBit(register, bits[0]), bits[1..])
  }

  function Bits(b: bv8): seq<bool> {
    LowBits(8, b as bv32)
  }

  /** The `n` lowest bits of `w`, least significant first. */
  function LowBits(n: nat, w: bv32): seq<bool>
    decreases n
  {
    if n == 0 then [] else [Odd(w)] + LowBits(n - 1, Half(w))
  }

  predicate Odd(c: bv32) {
    c & 1 == 1
  }

  function Complement(c: bv32): bv32 {
    !c
  }

  function MessageBits(data: seq<bv8>): seq<bool> {
    if data == [] then [] else Bits(data[0]) + MessageBits(data[1..])
  }

  /** The CRC that extends the CRC `crc` over `data`. */
  function BitSerialCrc(data: seq<bv8>, crc: bv32): bv32 {
    Complement(ShiftInBits(Complement(crc), MessageBits(data)))
  }

  // ---------------------------------------------------------------------------------------------
  // The register as a linear map over exclusive or
  // ---------------------------------------------------------------------------------------------

  function Half(c: bv32): bv32 {
    c >> 1
  }

  function Mask(c: bv32): bv32 {
    if Odd(c) then POLYNOMIAL else 0
  }

  /** Shifting in a zero bit. */
  function Round(c: bv32): bv32 {
    Xor(Half(c), Mask(c))
  }

  function Round8(c: bv32): bv32 {
    Round(Round(Round(Round(Round(Round(Round(Round(c))))))))
  }

  /** Shifting in `n` zero bytes. */
  function Fold(n: nat, c: bv32): bv32 {
    if n == 0 then c else Fold(n - 1, Round8(c))
  }

  lemma XorAssoc(a: bv32, b: bv32, c: bv32)
    ensures Xor(Xor(a, b), c) == Xor(a, Xor(b, c))
  {
  }

  lemma XorComm(a: bv32, b: bv32)
    ensures Xor(a, b) == Xor(b, a)
  {
  }

  lemma XorSwap(a: bv32, b: bv32, p: bv32, q: bv32)
    ensures Xor(Xor(a, p), Xor(b, q)) == Xor(Xor(a, b), Xor(p, q))
  {
    hide Xor;
    XorAssoc(a, p, Xor(b, q));
    XorAssoc(p, b, q);
    XorComm(p, b);
    XorAssoc(b, p, q);
    XorAssoc(a, b, Xor(p, q));
  }

  lemma HalfLinear(a: bv32, b: bv32)
    ensures Half(Xor(a, b)) == Xor(Half(a), Half(b))
  {
  }

  lemma LowBitLinear(a: bv32, b: bv32)
    ensures Odd(a ^ b) <==> Odd(a) != Odd(b)
  {
  }

  lemma MaskLinear(a: bv32, b: bv32)
    ensures Mask(Xor(a, b)) == Xor(Mask(a), Mask(b))
  {
    LowBitLinear(a, b);
  }

  lemma RoundLinear(a: bv32, b: bv32)
    ensures Round(Xor(a, b)) == Xor(Round(a), Round(b))
  {
    hide Xor, Half, Mask;
    HalfLinear(a, b);
    MaskLinear(a, b);
    XorSwap(Half(a), Half(b), Mask(a), Mask(b));
  }

  lemma Round8Linear(a: bv32, b: bv32)
    ensures Round8(Xor(a, b)) == Xor(Round8(a), Round8(b))
  {
    hide Xor, Round;
    var x, y := a, b;
    RoundLinear(x, y);
    x, y := Round(x), Round(y);
    RoundLinear(x, y);
    x, y := Round(x), Round(y);
    RoundLinear(x, y);
    x, y := Round(x), Round(y);
    RoundLinear(x, y);
    x, y := Round(x), Round(y);
    RoundLinear(x, y);
    x, y := Round(x), Round(y);
    RoundLinear(x, y);
    x, y := Round(x), Round(y);
    RoundLinear(x, y);
    x, y := Round(x), Round(y);
    RoundLinear(x, y);
  }

  lemma {:induction false} FoldLinear(n: nat, a: bv32, b: bv32)
    ensures Fold(n, Xor(a, b)) == Xor(Fold(n, a), Fold(n, b))
  {
    hide Xor, Round8;
    if n == 0 {
    } else {
      Round8Linear(a, b);
      FoldLinear(n - 1, Round8(a), Round8(b));
    }
  }

  /** Eight zero bits move a register whose low byte is clear down by a byte. */
  lemma Round8OfHighBytes(c: bv32)
    requires c & 0xFF == 0
    ensures Round8(c) == c >> 8
  {
  }

  lemma {:induction false} FoldOuter(n: nat, c: bv32)
    ensures Fold(n + 1, c) == Round8(Fold(n, c))
  {
    hide Round8;
    if n == 0 {
    } else {
      FoldOuter(n - 1, Round8(c));
    }
  }

  lemma {:induction false} FoldZero(n: nat)
    ensures Fold(n, 0) == 0
  {
    if n == 0 {
    } else {
      assert Round8(0) == 0;
      FoldZero(n - 1);
    }
  }

  // ---------------------------------------------------------------------------------------------
  // The tables: Table_j(i) is the effect of j + 1 zero bytes on a register holding i
  // ---------------------------------------------------------------------------------------------

  ghost predicate IsFoldBasis(b: Basis, n: nat) {
    && b.low1 == Fold(n, 1) && b.low2 == Fold(n, 2) && b.low3 == Fold(n, 3) && b.low4 == Fold(n, 4)
    && b.low5 == Fold(n, 5) && b.low6 == Fold(n, 6) && b.low7 == Fold(n, 7)
    && b.high8 == Fold(n, 8) && b.high16 == Fold(n, 16) && b.high32 == Fold(n, 32)
    && b.high64 == Fold(n, 64) && b.high128 == Fold(n, 128)
  }

  lemma NextBasis(next: Basis, b: Basis, n: nat)
    requires LowRound(next, b) && HighRound(next, b)
    requires IsFoldBasis(b, n)
    ensures IsFoldBasis(next, n + 1)
  {
    hide Fold, Round8;
    FoldOuter(n, 1);
    FoldOuter(n, 2);
    FoldOuter(n, 3);
    FoldOuter(n, 4);
    FoldOuter(n, 5);
    FoldOuter(n, 6);
    FoldOuter(n, 7);
    FoldOuter(n, 8);
    FoldOuter(n, 16);
    FoldOuter(n, 32);
    FoldOuter(n, 64);
    FoldOuter(n, 128);
  }

  const INDEX_BASIS := Basis(1, 2, 3, 4, 5, 6, 7, 8, 16, 32, 64, 128)

  ghost predicate LowRound(next: Basis, b: Basis) {
    && next.low1 == Round8(b.low1) && next.low2 == Round8(b.low2) && next.low3 == Round8(b.low3)
    && next.low4 == Round8(b.low4) && next.low5 == Round8(b.low5) && next.low6 == Round8(b.low6)
    && next.low7 == Round8(b.low7)
  }

  ghost predicate HighRound(next: Basis, b: Basis) {
    && next.high8 == Round8(b.high8) && next.high16 == Round8(b.high16) && next.high32 == Round8(b.high32)
    && next.high64 == Round8(b.high64) && next.high128 == Round8(b.high128)
  }

  lemma LowRound0()
    ensures LowRound(BASIS0, INDEX_BASIS)
  {
  }

  lemma HighRound0()
    ensures HighRound(BASIS0, INDEX_BASIS)
  {
  }

  lemma LowRound1()
    ensures LowRound(BASIS1, BASIS0)
  {
  }

  lemma HighRound1()
    ensures HighRound(BASIS1, BASIS0)
  {
  }

  lemma LowRound2()
    ensures LowRound(BASIS2, BASIS1)
  {
  }

  lemma HighRound2()
    ensures HighRound(BASIS2, BASIS1)
  {
  }

  lemma LowRound3()
    ensures LowRound(BASIS3, BASIS2)
  {
  }

  lemma HighRound3()
    ensures HighRound(BASIS3, BASIS2)
  {
  }

  lemma IndexBasis()
    ensures IsFoldBasis(INDEX_BASIS, 0)
  {
    hide Round8;
  }

  lemma TableBasis0()
    ensures IsFoldBasis(BASIS0, 1)
  {
    IndexBasis();
    hide IsFoldBasis, LowRound, HighRound;
    LowRound0();
    HighRound0();
    NextBasis(BASIS0, INDEX_BASIS, 0);
  }

  lemma TableBasis1()
    ensures IsFoldBasis(BASIS1, 2)
  {
    TableBasis0();
    hide IsFoldBasis, LowRound, HighRound;
    LowRound1();
    HighRound1();
    NextBasis(BASIS1, BASIS0, 1);
  }

  lemma TableBasis2()
    ensures IsFoldBasis(BASIS2, 3)
  {
    TableBasis1();
    hide IsFoldBasis, LowRound, HighRound;
    LowRound2();
    HighRound2();
    NextBasis(BASIS2, BASIS1, 2);
  }

  lemma TableBasis3()
    ensures IsFoldBasis(BASIS3, 4)
  {
    TableBasis2();
    hide IsFoldBasis, LowRound, HighRound;
    LowRound3();
    HighRound3();
    NextBasis(BASIS3, BASIS2, 3);
  }

  lemma FoldPick(n: nat, i: bv8, bit: bv8)
    requires bit in {8, 16, 32, 64, 128}
    ensures Fold(n, (i & bit) as bv32) == Pick(i, bit, Fold(n, bit as bv32))
  {
    FoldZero(n);
    hide Fold;
    assert i & bit == 0 || i & bit == bit;
  }

  lemma FoldLow(b: Basis, n: nat, k: bv8)
    requires IsFoldBasis(b, n) && k < 8
    ensures Fold(n, k as bv32) == SpreadLow(b, k)
  {
    FoldZero(n);
    hide Fold;
    assert k == 0 || k == 1 || k == 2 || k == 3 || k == 4 || k == 5 || k == 6 || k == 7;
  }

  lemma IndexParts(i: bv8)
    ensures i as bv32 == Xor(Xor(Xor(Xor(Xor((i & 8) as bv32, (i & 16) as bv32), (i & 32) as bv32),
                                     (i & 64) as bv32), (i & 128) as bv32), (i & 7) as bv32)
  {
  }

  lemma SpreadParts(b: Basis, i: bv8)
    ensures Spread(b, i) == Xor(Xor(Xor(Xor(Xor(Pick(i, 8, b.high8), Pick(i, 16, b.high16)), Pick(i, 32, b.high32)),
                                        Pick(i, 64, b.high64)), Pick(i, 128, b.high128)), SpreadLow(b, i & 7))
  {
    hide Pick, SpreadLow, Xor;
  }

  lemma FoldSpread(b: Basis, n: nat, i: bv8)
    requires IsFoldBasis(b, n)
    ensures Fold(n, i as bv32) == Spread(b, i)
  {
    hide Fold, Pick, SpreadLow, Spread, Xor;
    IndexParts(i);
    SpreadParts(b, i);
    FoldPick(n, i, 8);
    FoldPick(n, i, 16);
    FoldPick(n, i, 32);
    FoldPick(n, i, 64);
    FoldPick(n, i, 128);
    FoldLow(b, n, i & 7);
    var a := (i & 8) as bv32;
    FoldLinear(n, a, (i & 16) as bv32);
    a := Xor(a, (i & 16) as bv32);
    FoldLinear(n, a, (i & 32) as bv32);
    a := Xor(a, (i & 32) as bv32);
    FoldLinear(n, a, (i & 64) as bv32);
    a := Xor(a, (i & 64) as bv32);
    FoldLinear(n, a, (i & 128) as bv32);
    a := Xor(a, (i & 128) as bv32);
    FoldLinear(n, a, (i & 7) as bv32);
  }

  /** Every entry of the four constant tables: looking `i` up in table `j` gives the register that
      shifting `j + 1` zero bytes into `i` gives. */
  lemma TablesAreFolds(i: bv8)
    ensures Table0(i) == Fold(1, At0(i))
    ensures Table1(i) == Fold(2, At0(i))
    ensures Table2(i) == Fold(3, At0(i))
    ensures Table3(i) == Fold(4, At0(i))
  {
    hide Table0, Table1, Table2, Table3, IsFoldBasis, Fold, Spread;
    TableBasis0();
    TableBasis1();
    TableBasis2();
    TableBasis3();
    FoldSpread(BASIS0, 1, i);
    FoldSpread(BASIS1, 2, i);
    FoldSpread(BASIS2, 3, i);
    FoldSpread(BASIS3, 4, i);
  }

  // ---------------------------------------------------------------------------------------------
  // One byte, and four bytes at once
  // ---------------------------------------------------------------------------------------------

  function ShiftByte(c: bv32, b: bv8): bv32 {
    Round8(Xor(c, b as bv32))
  }

  function Register(c: bv32, data: seq<bv8>): bv32
    decreases |data|
  {
    if data == [] then c else Register(ShiftByte(c, data[0]), data[1..])
  }

  lemma ByteShiftBits(c: bv32)
    requires c < 0x100_0000
    ensures (c << 8) & 0xFF == 0 && (c << 8) >> 8 == c
  {
  }

  lemma Round8OfByteShift(c: bv32)
    requires c < 0x100_0000
    ensures Round8(c << 8) == c
  {
    hide Round8;
    ByteShiftBits(c);
    Round8OfHighBytes(c << 8);
  }

  function LowByte(c: bv32): bv8 {
    (c & 0xFF) as bv8
  }

  function HighBytes(c: bv32): bv32 {
    c & 0xFFFF_FF00
  }

  function Down8(c: bv32): bv32 {
    c >> 8
  }

  lemma LowByteSplit(c: bv32)
    ensures c == Xor(HighBytes(c), LowByte(c) as bv32)
    ensures HighBytes(c) & 0xFF == 0
    ensures HighBytes(c) >> 8 == Down8(c)
  {
  }

  lemma Round8OfHigh(c: bv32)
    ensures Round8(HighBytes(c)) == Down8(c)
  {
    hide Round8;
    LowByteSplit(c);
    hide HighBytes, Down8;
    Round8OfHighBytes(HighBytes(c));
  }

  lemma Round8Split(c: bv32)
    ensures Round8(c) == Xor(Down8(c), Round8(LowByte(c) as bv32))
  {
    hide Xor, Round8, HighBytes, Down8, LowByte;
    LowByteSplit(c);
    Round8Linear(HighBytes(c), LowByte(c) as bv32);
    Round8OfHigh(c);
  }

  /** The byte step of the source: (crc >> 8) ^ Crc32Lookup[0][(crc & 0xFF) ^ byte]. */
  function TableStep(c: bv32, b: bv8): bv32 {
    Xor(Down8(c), Table0(LowByte(c) ^ b))
  }

  lemma TableStepIsByteStep(c: bv32, b: bv8)
    ensures TableStep(c, b) == ShiftByte(c, b)
  {
    hide Round8, Table0;
    ByteIndex(c, b);
    hide Xor, Down8, LowByte;
    TablesAreFolds(LowByte(c) ^ b);
    Round8Split(Xor(c, b as bv32));
    FoldOne((LowByte(c) ^ b) as bv32);
  }

  /** Each table follows from the one before it. */
  lemma TableRecurrence(i: bv8)
    ensures Table1(i) == Xor(Down8(Table0(i)), Table0(LowByte(Table0(i))))
    ensures Table2(i) == Xor(Down8(Table1(i)), Table0(LowByte(Table1(i))))
    ensures Table3(i) == Xor(Down8(Table2(i)), Table0(LowByte(Table2(i))))
  {
    hide Round8, Xor, Down8, LowByte, At0, Table0, Table1, Table2, Table3;
    TablesAreFolds(i);
    NextTable(1, At0(i));
    NextTable(2, At0(i));
    NextTable(3, At0(i));
    hide Fold;
  }

  lemma NextTable(n: nat, c: bv32)
    ensures Fold(n + 1, c) == Xor(Down8(Fold(n, c)), Table0(LowByte(Fold(n, c))))
  {
    hide Round8, Xor, Down8, LowByte, Table0;
    var d := Fold(n, c);
    FoldOuter(n, c);
    Round8Split(d);
    TablesAreFolds(LowByte(d));
    FoldOne(LowByte(d) as bv32);
    hide Fold;
  }

  lemma ByteIndex(c: bv32, b: bv8)
    ensures LowByte(Xor(c, b as bv32)) == LowByte(c) ^ b
    ensures Down8(Xor(c, b as bv32)) == Down8(c)
  {
  }

  lemma FoldOne(c: bv32)
    ensures Fold(1, c) == Round8(c)
  {
    hide Round8;
  }

  function At0(b: bv8): bv32 {
    b as bv32
  }

  function At8(b: bv8): bv32 {
    (b as bv32) << 8
  }

  function At16(b: bv8): bv32 {
    (b as bv32) << 16
  }

  function At24(b: bv8): bv32 {
    (b as bv32) << 24
  }

  function Byte0(w: bv32): bv8 {
    (w & 0xFF) as bv8
  }

  function Byte1(w: bv32): bv8 {
    ((w >> 8) & 0xFF) as bv8
  }

  function Byte2(w: bv32): bv8 {
    ((w >> 16) & 0xFF) as bv8
  }

  function Byte3(w: bv32): bv8 {
    ((w >> 24) & 0xFF) as bv8
  }

  /** Four bytes read as one word of a little-endian machine. */
  function LittleEndianWord(b0: bv8, b1: bv8, b2: bv8, b3: bv8): bv32 {
    Xor(Xor(Xor(At0(b0), At8(b1)), At16(b2)), At24(b3))
  }

  /** The loop body of the source on a little-endian machine. */
  function SliceStep(c: bv32, word: bv32): bv32 {
    var one := Xor(word, c);
    Xor(Xor(Xor(Table0(Byte3(one)), Table1(Byte2(one))), Table2(Byte1(one))), Table3(Byte0(one)))
  }

  lemma WordOfBytes(w: bv32)
    ensures w == LittleEndianWord(Byte0(w), Byte1(w), Byte2(w), Byte3(w))
  {
  }

  lemma Positions(b: bv8)
    ensures Round8(At8(b)) == At0(b) && Round8(At16(b)) == At8(b) && Round8(At24(b)) == At16(b)
  {
    hide Round8;
    assert At0(b) < 0x100_0000 && At8(b) < 0x100_0000 && At16(b) < 0x100_0000;
    assert At8(b) == At0(b) << 8 && At16(b) == At8(b) << 8 && At24(b) == At16(b) << 8;
    hide At0, At8, At16, At24;
    Round8OfByteShift(At0(b));
    Round8OfByteShift(At8(b));
    Round8OfByteShift(At16(b));
  }

  /** A byte that sits `k` places up has to be shifted `k` times less. */
  lemma FoldPositions(b: bv8)
    ensures Fold(4, At8(b)) == Fold(3, At0(b))
    ensures Fold(4, At16(b)) == Fold(2, At0(b))
    ensures Fold(4, At24(b)) == Fold(1, At0(b))
    ensures Fold(3, At24(b)) == At0(b) && Fold(2, At16(b)) == At0(b) && Fold(1, At8(b)) == At0(b)
  {
    Positions(b);
    hide Round8, At0, At8, At16, At24;
    assert Fold(4, At24(b)) == Fold(3, At16(b)) == Fold(2, At8(b)) == Fold(1, At0(b));
    assert Fold(3, At24(b)) == Fold(2, At16(b)) == Fold(1, At8(b)) == Fold(0, At0(b));
    assert Fold(4, At16(b)) == Fold(3, At8(b)) == Fold(2, At0(b));
  }

  lemma FoldOfWord(w: bv32)
    ensures Fold(4, w) == Xor(Xor(Xor(Table3(Byte0(w)), Table2(Byte1(w))), Table1(Byte2(w))), Table0(Byte3(w)))
  {
    var b0, b1, b2, b3 := Byte0(w), Byte1(w), Byte2(w), Byte3(w);
    WordOfBytes(w);
    hide Xor, Fold, Byte0, Byte1, Byte2, Byte3, At0, At8, At16, At24, Table0, Table1, Table2, Table3;
    FoldLinear(4, Xor(Xor(At0(b0), At8(b1)), At16(b2)), At24(b3));
    FoldLinear(4, Xor(At0(b0), At8(b1)), At16(b2));
    FoldLinear(4, At0(b0), At8(b1));
    FoldPositions(b1);
    FoldPositions(b2);
    FoldPositions(b3);
    TablesAreFolds(b0);
    TablesAreFolds(b1);
    TablesAreFolds(b2);
    TablesAreFolds(b3);
  }

  lemma FoldOfBytes(c: bv32, b0: bv8, b1: bv8, b2: bv8, b3: bv8)
    ensures ShiftByte(ShiftByte(ShiftByte(ShiftByte(c, b0), b1), b2), b3)
         == Fold(4, Xor(Xor(Xor(Xor(c, At0(b0)), At8(b1)), At16(b2)), At24(b3)))
  {
    assert At0(b0) == b0 as bv32 && At0(b1) == b1 as bv32 && At0(b2) == b2 as bv32 && At0(b3) == b3 as bv32;
    var x0 := Xor(c, At0(b0));
    var x1 := Xor(x0, At8(b1));
    var x2 := Xor(x1, At16(b2));
    var x3 := Xor(x2, At24(b3));
    FoldPositions(b1);
    FoldPositions(b2);
    FoldPositions(b3);
    hide Xor, Fold, Round8, At0, At8, At16, At24;
    FoldOne(x0);
    FoldLinear(1, x0, At8(b1));
    FoldOuter(1, x1);
    FoldLinear(2, x1, At16(b2));
    FoldOuter(2, x2);
    FoldLinear(3, x2, At24(b3));
    FoldOuter(3, x3);
  }

  lemma XorOrder(c: bv32, p: bv32, q: bv32, r: bv32, s: bv32)
    ensures Xor(Xor(Xor(Xor(c, p), q), r), s) == Xor(Xor(Xor(Xor(p, q), r), s), c)
  {
    hide Xor;
    XorAssoc(c, p, q);
    XorAssoc(c, Xor(p, q), r);
    XorAssoc(c, Xor(Xor(p, q), r), s);
    XorComm(c, Xor(Xor(Xor(p, q), r), s));
  }

  lemma XorReverse(p: bv32, q: bv32, r: bv32, s: bv32)
    ensures Xor(Xor(Xor(p, q), r), s) == Xor(Xor(Xor(s, r), q), p)
  {
    hide Xor;
    XorComm(Xor(Xor(p, q), r), s);
    XorComm(Xor(p, q), r);
    XorComm(p, q);
    XorAssoc(s, r, Xor(q, p));
    XorAssoc(Xor(s, r), q, p);
  }

  /** Slicing by four: one step over a word is four steps over its bytes. */
  lemma SliceStepIsFourBytes(c: bv32, b0: bv8, b1: bv8, b2: bv8, b3: bv8)
    ensures SliceStep(c, LittleEndianWord(b0, b1, b2, b3))
         == ShiftByte(ShiftByte(ShiftByte(ShiftByte(c, b0), b1), b2), b3)
  {
    hide ShiftByte, Xor, Fold, Byte0, Byte1, Byte2, Byte3, At0, At8, At16, At24, Table0, Table1, Table2, Table3;
    var one := Xor(LittleEndianWord(b0, b1, b2, b3), c);
    FoldOfBytes(c, b0, b1, b2, b3);
    XorOrder(c, At0(b0), At8(b1), At16(b2), At24(b3));
    FoldOfWord(one);
    XorReverse(Table3(Byte0(one)), Table2(Byte1(one)), Table1(Byte2(one)), Table0(Byte3(one)));
  }

  // ---------------------------------------------------------------------------------------------
  // A byte step is eight bit steps
  // ---------------------------------------------------------------------------------------------

  function Rounds(n: nat, c: bv32): bv32
    decreases n
  {
    if n == 0 then c else Rounds(n - 1, Round(c))
  }

  function Halves(n: nat, c: bv32): bv32
    decreases n
  {
    if n == 0 then c else Halves(n - 1, Half(c))
  }

  lemma FeedbackIsMask(c: bv32, pending: bv32)
    ensures Mask(Xor(c, pending)) == if Odd(c) != Odd(pending) then POLYNOMIAL else 0
  {
    LowBitLinear(c, pending);
  }

  lemma ShiftInBitAsXor(c: bv32, bit: bool)
    ensures ShiftInBit(c, bit) == Xor(Half(c), if Odd(c) != bit then POLYNOMIAL else 0)
  {
    XorZero(Half(c));
  }

  lemma BitStep(c: bv32, pending: bv32)
    ensures Round(Xor(c, pending)) == Xor(ShiftInBit(c, Odd(pending)), Half(pending))
  {
    var m := Mask(Xor(c, pending));
    hide Xor, Half, Mask, ShiftInBit, Odd;
    FeedbackIsMask(c, pending);
    ShiftInBitAsXor(c, Odd(pending));
    HalfLinear(c, pending);
    XorAssoc(Half(c), Half(pending), m);
    XorComm(Half(pending), m);
    XorAssoc(Half(c), m, Half(pending));
  }

  lemma {:induction false} BitSteps(n: nat, c: bv32, pending: bv32)
    ensures Rounds(n, Xor(c, pending)) == Xor(ShiftInBits(c, LowBits(n, pending)), Halves(n, pending))
    decreases n
  {
    hide Xor, Half, Round, ShiftInBit, Odd;
    if n == 0 {
    } else {
      BitStep(c, pending);
      var bits := LowBits(n, pending);
      assert bits[0] == Odd(pending) && bits[1..] == LowBits(n - 1, Half(pending));
      BitSteps(n - 1, ShiftInBit(c, Odd(pending)), Half(pending));
    }
  }

  lemma ByteIsHalvedAway(b: bv8)
    ensures Halves(8, At0(b)) == 0
  {
    assert Halves(4, At0(b)) == At0(b) >> 4;
  }

  /** Shifting in the eight bits of a byte is the byte step. */
  lemma ByteStepIsBitSerial(c: bv32, b: bv8)
    ensures ShiftInBits(c, Bits(b)) == ShiftByte(c, b)
  {
    ByteIsHalvedAway(b);
    assert At0(b) == b as bv32;
    hide Xor, At0, Round, Halves, Odd, Half, ShiftInBit;
    BitSteps(8, c, At0(b));
    assert Rounds(8, Xor(c, At0(b))) == Round8(Xor(c, At0(b)));
    XorZero(ShiftInBits(c, Bits(b)));
  }

  lemma {:induction false} ShiftInConcat(c: bv32, s: seq<bool>, t: seq<bool>)
    ensures ShiftInBits(c, s + t) == ShiftInBits(ShiftInBits(c, s), t)
    decreases |s|
  {
    hide ShiftInBit;
    if |s| == 0 {
      assert s + t == t;
    } else {
      assert (s + t)[1..] == s[1..] + t;
      ShiftInConcat(ShiftInBit(c, s[0]), s[1..], t);
    }
  }

  /** The byte-at-a-time register is the bit-serial register. */
  lemma {:induction false} RegisterIsBitSerial(c: bv32, data: seq<bv8>)
    ensures Register(c, data) == ShiftInBits(c, MessageBits(data))
    decreases |data|
  {
    hide ShiftByte, Bits;
    if |data| == 0 {
    } else {
      ByteStepIsBitSerial(c, data[0]);
      ShiftInConcat(c, Bits(data[0]), MessageBits(data[1..]));
      RegisterIsBitSerial(ShiftByte(c, data[0]), data[1..]);
    }
  }

  // ---------------------------------------------------------------------------------------------
  // The function of the source
  // ---------------------------------------------------------------------------------------------

  lemma RegisterStep(c: bv32, data: seq<bv8>, i: nat)
    requires i < |data|
    ensures Register(c, data[i..]) == Register(ShiftByte(c, data[i]), data[i + 1..])
  {
    hide ShiftByte;
    assert data[i..][1..] == data[i + 1..];
  }

  lemma RegisterOfNothing(c: bv32)
    ensures Register(c, []) == c
  {
  }

  function BigEndianWord(b0: bv8, b1: bv8, b2: bv8, b3: bv8): bv32 {
    LittleEndianWord(b3, b2, b1, b0)
  }

  function Swap32(w: bv32): bv32 {
    BigEndianWord(Byte0(w), Byte1(w), Byte2(w), Byte3(w))
  }

  /** The loop body of the source on a big-endian machine. */
  function SliceStepBigEndian(c: bv32, word: bv32): bv32 {
    var one := Xor(word, Swap32(c));
    Xor(Xor(Xor(Table0(Byte0(one)), Table1(Byte1(one))), Table2(Byte2(one))), Table3(Byte3(one)))
  }

  lemma Byte0OfXor(a: bv32, b: bv32)
    ensures Byte0(Xor(a, b)) == Byte0(a) ^ Byte0(b)
  {
  }

  lemma Byte1OfXor(a: bv32, b: bv32)
    ensures Byte1(Xor(a, b)) == Byte1(a) ^ Byte1(b)
  {
  }

  lemma Byte2OfXor(a: bv32, b: bv32)
    ensures Byte2(Xor(a, b)) == Byte2(a) ^ Byte2(b)
  {
  }

  lemma Byte3OfXor(a: bv32, b: bv32)
    ensures Byte3(Xor(a, b)) == Byte3(a) ^ Byte3(b)
  {
  }

  lemma BytesOfXor(a: bv32, b: bv32)
    ensures Byte0(Xor(a, b)) == Byte0(a) ^ Byte0(b) && Byte1(Xor(a, b)) == Byte1(a) ^ Byte1(b)
    ensures Byte2(Xor(a, b)) == Byte2(a) ^ Byte2(b) && Byte3(Xor(a, b)) == Byte3(a) ^ Byte3(b)
  {
    hide Xor, Byte0, Byte1, Byte2, Byte3;
    Byte0OfXor(a, b);
    Byte1OfXor(a, b);
    Byte2OfXor(a, b);
    Byte3OfXor(a, b);
  }

  lemma BytesOfWord(b0: bv8, b1: bv8, b2: bv8, b3: bv8)
    ensures var w := LittleEndianWord(b0, b1, b2, b3);
            Byte0(w) == b0 && Byte1(w) == b1 && Byte2(w) == b2 && Byte3(w) == b3
  {
  }

  lemma SwappedBytes(c: bv32, b0: bv8, b1: bv8, b2: bv8, b3: bv8)
    ensures var big, little := Xor(BigEndianWord(b0, b1, b2, b3), Swap32(c)), Xor(LittleEndianWord(b0, b1, b2, b3), c);
            Byte0(big) == Byte3(little) && Byte1(big) == Byte2(little) &&
            Byte2(big) == Byte1(little) && Byte3(big) == Byte0(little)
  {
    hide Xor, Byte0, Byte1, Byte2, Byte3, LittleEndianWord;
    BytesOfXor(BigEndianWord(b0, b1, b2, b3), Swap32(c));
    BytesOfXor(LittleEndianWord(b0, b1, b2, b3), c);
    BytesOfWord(b0, b1, b2, b3);
    BytesOfWord(b3, b2, b1, b0);
    BytesOfWord(Byte3(c), Byte2(c), Byte1(c), Byte0(c));
  }

  lemma SliceStepsAgree(c: bv32, b0: bv8, b1: bv8, b2: bv8, b3: bv8)
    ensures SliceStepBigEndian(c, BigEndianWord(b0, b1, b2, b3)) == SliceStep(c, LittleEndianWord(b0, b1, b2, b3))
  {
    SwappedBytes(c, b0, b1, b2, b3);
    hide Xor, Byte0, Byte1, Byte2, Byte3, Table0, Table1, Table2, Table3, Swap32, BigEndianWord, LittleEndianWord;
  }

  /** `length` counts down as in the source and `current` is the read pointer; `bigEndian` is the
      byte order the source is compiled for. */
  method Crc32(data: seq<bv8>, crc: bv32, bigEndian: bool) returns (result: bv32)
    ensures result == BitSerialCrc(data, crc)
  {
    hide SliceStep, SliceStepBigEndian, LittleEndianWord, BigEndianWord, ShiftByte, TableStep;
    hide Register, ShiftInBits, MessageBits, Complement;
    var register := Complement(crc);
    var length, current := |data|, 0;
    assert data[0..] == data;
    while length >= 4
      invariant 0 <= length && current + length == |data|
      invariant Register(Complement(crc), data) == Register(register, data[current..])
    {
      var b0, b1, b2, b3 := data[current], data[current + 1], data[current + 2], data[current + 3];
      SliceStepIsFourBytes(register, b0, b1, b2, b3);
      RegisterStep(register, data, current);
      RegisterStep(ShiftByte(register, b0), data, current + 1);
      RegisterStep(ShiftByte(ShiftByte(register, b0), b1), data, current + 2);
      RegisterStep(ShiftByte(ShiftByte(ShiftByte(register, b0), b1), b2), data, current + 3);
      if bigEndian {
        SliceStepsAgree(register, b0, b1, b2, b3);
        register := SliceStepBigEndian(register, BigEndianWord(b0, b1, b2, b3));
      } else {
        register := SliceStep(register, LittleEndianWord(b0, b1, b2, b3));
      }
      current, length := current + 4, length - 4;
    }
    while length != 0
      invariant 0 <= length && current + length == |data|
      invariant Register(Complement(crc), data) == Register(register, data[current..])
    {
      TableStepIsByteStep(register, data[current]);
      RegisterStep(register, data, current);
      register := TableStep(register, data[current]);
      current, length := current + 1, length - 1;
    }
    assert Register(register, data[current..]) == register by {
      RegisterOfNothing(register);
      assert data[current..] == [];
    }
    RegisterIsBitSerial(Complement(crc), data);
    result := Complement(register);
  }

  // ---------------------------------------------------------------------------------------------
  // Extension and residue
  // ---------------------------------------------------------------------------------------------

  lemma {:induction false} MessageBitsConcat(a: seq<bv8>, b: seq<bv8>)
    ensures MessageBits(a + b) == MessageBits(a) + MessageBits(b)
  {
    hide Bits;
    if a == [] {
      assert a + b == b;
    } else {
      assert (a + b)[1..] == a[1..] + b;
      MessageBitsConcat(a[1..], b);
    }
  }

  /** A CRC computed so far can be extended over new data, wherever the message is split. */
  lemma Extension(a: seq<bv8>, b: seq<bv8>, crc: bv32)
    ensures BitSerialCrc(a + b, crc) == BitSerialCrc(b, BitSerialCrc(a, crc))
  {
    hide ShiftInBits, MessageBits, Complement;
    MessageBitsConcat(a, b);
    ShiftInConcat(Complement(crc), MessageBits(a), MessageBits(b));
    ComplementTwice(ShiftInBits(Complement(crc), MessageBits(a)));
  }

  lemma ComplementTwice(a: bv32)
    ensures Complement(Complement(a)) == a
  {
  }

  /** A CRC as it lies in the memory of a little-endian machine. */
  function CrcBytes(crc: bv32): seq<bv8> {
    [Byte0(crc), Byte1(crc), Byte2(crc), Byte3(crc)]
  }

  lemma AllOnes(c: bv32)
    ensures Xor(Complement(c), c) == 0xFFFF_FFFF
  {
  }

  lemma HalfOfAllOnes()
    ensures Fold(2, 0xFFFF_FFFF) == 0xBE26ED00
  {
  }

  lemma OtherHalfOfAllOnes()
    ensures Complement(Round8(Round8(0xBE26ED00))) == 0x2144DF1C
  {
  }

  lemma FoldOfAllOnes()
    ensures Complement(Fold(4, 0xFFFF_FFFF)) == 0x2144DF1C
  {
    hide Round8, Complement;
    HalfOfAllOnes();
    OtherHalfOfAllOnes();
    FoldOuter(2, 0xFFFF_FFFF);
    FoldOuter(3, 0xFFFF_FFFF);
  }

  /** A message followed by its own CRC has the same CRC whatever the message is. */
  lemma Residue(message: seq<bv8>, crc: bv32)
    ensures BitSerialCrc(message + CrcBytes(BitSerialCrc(message, crc)), crc) == 0x2144DF1C
  {
    var register := ShiftInBits(Complement(crc), MessageBits(message));
    var bytes := CrcBytes(Complement(register));
    hide Complement, ShiftInBits, MessageBits, Fold, Xor, ShiftByte, Byte0, Byte1, Byte2, Byte3, At0, At8, At16, At24;
    Extension(message, bytes, crc);
    ComplementTwice(register);
    RegisterIsBitSerial(register, bytes);
    RegisterStep(register, bytes, 0);
    RegisterStep(ShiftByte(register, bytes[0]), bytes, 1);
    RegisterStep(ShiftByte(ShiftByte(register, bytes[0]), bytes[1]), bytes, 2);
    RegisterStep(ShiftByte(ShiftByte(ShiftByte(register, bytes[0]), bytes[1]), bytes[2]), bytes, 3);
    FoldOfBytes(register, bytes[0], bytes[1], bytes[2], bytes[3]);
    WordOfBytes(Complement(register));
    XorOrder(register, At0(bytes[0]), At8(bytes[1]), At16(bytes[2]), At24(bytes[3]));
    AllOnes(register);
    FoldOfAllOnes();
    assert bytes[0..] == bytes;
    assert bytes[4..] == [];
  }
}
