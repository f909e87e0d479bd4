/**
 The streaming CRC-32 of the MCAP reader and writer: eight derived tables, a prologue that walks to
 an aligned address, and eight bytes per round after it. It is proved equal, for every starting
 value, every data and every address, to the CRC of section 8 of RFC 1952 fed one bit at a time.
*/
module Crc32 {

  type Byte = bv8
  type Word = bv32

  /** `a ^ b`, named so that its algebra can be used without unfolding the bits. */
  function Xor(a: Word, b: Word): Word { a ^ b }

  // ---- The reference: one bit at a time, least significant bit of each byte first ----

  function FeedBit(r: Word, bit: bool): Word {
    Xor(r >> 1, if (r & 1 == 1) != bit then 0xedb88320 else 0)
  }

  function FeedBits(r: Word, bits: seq<bool>): Word
    decreases |bits|
  {
    if bits == [] then r else FeedBits(FeedBit(r, bits[0]), bits[1..])
  }

  function BitsOfByte(b: Byte): seq<bool> {
    [b & 1 != 0, b & 2 != 0, b & 4 != 0, b & 8 != 0, b & 16 != 0, b & 32 != 0, b & 64 != 0, b & 128 != 0]
  }

  function BitsOf(data: seq<Byte>): seq<bool> {
    if data == [] then [] else BitsOfByte(data[0]) + BitsOf(data[1..])
  }

  // ---- One byte at a time ----

  function Tap(r: Word): Word { (r & 1) * 0xedb88320 }
  function Shift(r: Word): Word { r >> 1 }

  /** One division step, as the table constructor writes it. */
  function Step(r: Word): Word { Xor(Tap(r), Shift(r)) }

  function ByteStep(r: Word): Word { Step(Step(Step(Step(Step(Step(Step(Step(r)))))))) }

  function ByteSteps(n: nat, r: Word): Word {
    if n == 0 then r else ByteSteps(n - 1, ByteStep(r))
  }

  function Crc(r: Word, data: seq<Byte>): Word
    decreases |data|
  {
    if data == [] then r else Crc(ByteStep(Xor(r, data[0] as Word)), data[1..])
  }

  // ---- Algebra of xor and of the step ----

  lemma XorComm(a: Word, b: Word)
    ensures Xor(a, b) == Xor(b, a)
  {}

  lemma XorAssoc(a: Word, b: Word, c: Word)
    ensures Xor(Xor(a, b), c) == Xor(a, Xor(b, c))
  {}

  lemma XorSwap(a: Word, b: Word, c: Word, d: Word)
    ensures Xor(Xor(a, b), Xor(c, d)) == Xor(Xor(a, c), Xor(b, d))
  {
    hide Xor;
    XorAssoc(a, b, Xor(c, d));
    XorAssoc(b, c, d);
    XorComm(b, c);
    XorAssoc(c, b, d);
    XorAssoc(a, c, Xor(b, d));
  }

  lemma XorZero(a: Word)
    ensures Xor(a, 0) == a == Xor(0, a)
  {}

  lemma XorCancels(a: Word, b: Word, c: Word)
    requires Xor(a, b) == Xor(a, c)
    ensures b == c
  {
    assert Xor(a, Xor(a, b)) == b && Xor(a, Xor(a, c)) == c;
  }

  lemma TapXor(a: Word, b: Word)
    ensures Tap(Xor(a, b)) == Xor(Tap(a), Tap(b))
  {}

  lemma ShiftXor(a: Word, b: Word)
    ensures Shift(Xor(a, b)) == Xor(Shift(a), Shift(b))
  {}

  /** The step is linear over xor. */
  lemma StepXor(a: Word, b: Word)
    ensures Step(Xor(a, b)) == Xor(Step(a), Step(b))
  {
    hide Xor, Tap, Shift;
    TapXor(a, b);
    ShiftXor(a, b);
    XorSwap(Tap(a), Tap(b), Shift(a), Shift(b));
  }

  lemma ByteStepXor(a: Word, b: Word)
    ensures ByteStep(Xor(a, b)) == Xor(ByteStep(a), ByteStep(b))
  {
    hide Step, Xor;
    var a1, b1 := Step(a), Step(b);
    var a2, b2 := Step(a1), Step(b1);
    var a3, b3 := Step(a2), Step(b2);
    var a4, b4 := Step(a3), Step(b3);
    var a5, b5 := Step(a4), Step(b4);
    var a6, b6 := Step(a5), Step(b5);
    var a7, b7 := Step(a6), Step(b6);
    StepXor(a, b); StepXor(a1, b1); StepXor(a2, b2); StepXor(a3, b3);
    StepXor(a4, b4); StepXor(a5, b5); StepXor(a6, b6); StepXor(a7, b7);
  }

  lemma {:induction false} ByteStepsXor(n: nat, a: Word, b: Word)
    ensures ByteSteps(n, Xor(a, b)) == Xor(ByteSteps(n, a), ByteSteps(n, b))
  {
    hide ByteStep, Xor;
    if n != 0 {
      ByteStepXor(a, b);
      ByteStepsXor(n - 1, ByteStep(a), ByteStep(b));
    }
  }

  lemma {:induction false} ByteStepsAdd(m: nat, n: nat, r: Word)
    ensures ByteSteps(m, ByteSteps(n, r)) == ByteSteps(n + m, r)
    decreases n
  {
    hide ByteStep;
    if n != 0 { ByteStepsAdd(m, n - 1, ByteStep(r)); }
  }

  lemma StepInjective(a: Word, b: Word)
    requires Step(a) == Step(b)
    ensures a == b
  {}

  lemma ByteStepInjective(a: Word, b: Word)
    requires ByteStep(a) == ByteStep(b)
    ensures a == b
  {
    hide Step;
    var a1, b1 := Step(a), Step(b);
    var a2, b2 := Step(a1), Step(b1);
    var a3, b3 := Step(a2), Step(b2);
    var a4, b4 := Step(a3), Step(b3);
    var a5, b5 := Step(a4), Step(b4);
    var a6, b6 := Step(a5), Step(b5);
    var a7, b7 := Step(a6), Step(b6);
    StepInjective(a7, b7); StepInjective(a6, b6); StepInjective(a5, b5); StepInjective(a4, b4);
    StepInjective(a3, b3); StepInjective(a2, b2); StepInjective(a1, b1); StepInjective(a, b);
  }

  // ---- The byte step against the bits ----

  lemma TapIsFeedback(r: Word, d: Word)
    ensures Tap(Xor(r, d)) == if (r & 1 == 1) != (d & 1 == 1) then 0xedb88320 else 0
  {}

  lemma FeedOne(r: Word, d: Word)
    ensures Step(Xor(r, d)) == Xor(FeedBit(r, d & 1 == 1), Shift(d))
  {
    hide Xor, Tap;
    var tap := Tap(Xor(r, d));
    TapIsFeedback(r, d);
    ShiftXor(r, d);
    XorAssoc(tap, Shift(r), Shift(d));
    XorComm(tap, Shift(r));
  }

  lemma LowBits(b: Byte)
    ensures var d := b as Word;
            && (d & 1 == 1 <==> b & 1 != 0) && ((d >> 1) & 1 == 1 <==> b & 2 != 0)
            && ((d >> 2) & 1 == 1 <==> b & 4 != 0) && ((d >> 3) & 1 == 1 <==> b & 8 != 0)
            && ((d >> 4) & 1 == 1 <==> b & 16 != 0) && ((d >> 5) & 1 == 1 <==> b & 32 != 0)
            && ((d >> 6) & 1 == 1 <==> b & 64 != 0) && ((d >> 7) & 1 == 1 <==> b & 128 != 0)
            && d >> 8 == 0
  {}

  lemma ShiftAgain(d: Word)
    ensures Shift(d) == d >> 1 && Shift(d >> 1) == d >> 2 && Shift(d >> 2) == d >> 3 && Shift(d >> 3) == d >> 4
    ensures Shift(d >> 4) == d >> 5 && Shift(d >> 5) == d >> 6 && Shift(d >> 6) == d >> 7 && Shift(d >> 7) == d >> 8
  {}

  /** A byte step consumes the eight bits of the byte, least significant first. */
  lemma {:induction false} ByteIsBits(r: Word, b: Byte)
    ensures ByteStep(Xor(r, b as Word)) == FeedBits(r, BitsOfByte(b))
  {
    hide Step, Xor, FeedBit, Shift;
    var d := b as Word;
    LowBits(b);
    ShiftAgain(d);
    var r1 := FeedBit(r, b & 1 != 0);
    var r2 := FeedBit(r1, b & 2 != 0);
    var r3 := FeedBit(r2, b & 4 != 0);
    var r4 := FeedBit(r3, b & 8 != 0);
    var r5 := FeedBit(r4, b & 16 != 0);
    var r6 := FeedBit(r5, b & 32 != 0);
    var r7 := FeedBit(r6, b & 64 != 0);
    var r8 := FeedBit(r7, b & 128 != 0);
    FeedOne(r, d); FeedOne(r1, d >> 1); FeedOne(r2, d >> 2); FeedOne(r3, d >> 3);
    FeedOne(r4, d >> 4); FeedOne(r5, d >> 5); FeedOne(r6, d >> 6); FeedOne(r7, d >> 7);
    XorZero(r8);
    assert ByteStep(Xor(r, d)) == r8;
    FeedEight(r, b);
  }

  lemma {:induction false} FeedFirst(r: Word, bit: bool, rest: seq<bool>)
    ensures FeedBits(r, [bit] + rest) == FeedBits(FeedBit(r, bit), rest)
  {
    hide FeedBit;
    assert ([bit] + rest)[1..] == rest;
  }

  lemma {:induction false} FeedFour(r: Word, b0: bool, b1: bool, b2: bool, b3: bool, rest: seq<bool>)
    ensures FeedBits(r, [b0, b1, b2, b3] + rest) ==
            FeedBits(FeedBit(FeedBit(FeedBit(FeedBit(r, b0), b1), b2), b3), rest)
  {
    hide FeedBit, FeedBits;
    var r1 := FeedBit(r, b0);
    var r2 := FeedBit(r1, b1);
    FeedFirst(r, b0, [b1, b2, b3] + rest);
    FeedFirst(r1, b1, [b2, b3] + rest);
    FeedFirst(r2, b2, [b3] + rest);
    FeedFirst(FeedBit(r2, b2), b3, rest);
    assert [b0, b1, b2, b3] + rest == [b0] + ([b1, b2, b3] + rest);
    assert [b1, b2, b3] + rest == [b1] + ([b2, b3] + rest);
    assert [b2, b3] + rest == [b2] + ([b3] + rest);
  }

  lemma {:induction false} FeedEight(r: Word, b: Byte)
    ensures FeedBits(r, BitsOfByte(b)) ==
            FeedBit(FeedBit(FeedBit(FeedBit(FeedBit(FeedBit(FeedBit(FeedBit(r, b & 1 != 0), b & 2 != 0), b & 4 != 0),
              b & 8 != 0), b & 16 != 0), b & 32 != 0), b & 64 != 0), b & 128 != 0)
  {
    hide FeedBit, FeedBits;
    FeedAll(r, b & 1 != 0, b & 2 != 0, b & 4 != 0, b & 8 != 0, b & 16 != 0, b & 32 != 0, b & 64 != 0, b & 128 != 0);
  }

  lemma {:induction false} FeedAll(r: Word, b0: bool, b1: bool, b2: bool, b3: bool, b4: bool, b5: bool, b6: bool,
                                   b7: bool)
    ensures FeedBits(r, [b0, b1, b2, b3, b4, b5, b6, b7]) ==
            FeedBit(FeedBit(FeedBit(FeedBit(FeedBit(FeedBit(FeedBit(FeedBit(r, b0), b1), b2), b3), b4), b5), b6), b7)
  {
    hide FeedBit, FeedBits;
    var r4 := FeedBit(FeedBit(FeedBit(FeedBit(r, b0), b1), b2), b3);
    FeedFour(r, b0, b1, b2, b3, [b4, b5, b6, b7]);
    FeedFour(r4, b4, b5, b6, b7, []);
    assert [b0, b1, b2, b3] + [b4, b5, b6, b7] == [b0, b1, b2, b3, b4, b5, b6, b7];
    assert [b4, b5, b6, b7] + [] == [b4, b5, b6, b7];
    FeedNone(FeedBit(FeedBit(FeedBit(FeedBit(r4, b4), b5), b6), b7));
  }

  lemma {:induction false} FeedNone(r: Word)
    ensures FeedBits(r, []) == r
  {}

  lemma {:induction false} FeedConcat(r: Word, x: seq<bool>, y: seq<bool>)
    ensures FeedBits(r, x + y) == FeedBits(FeedBits(r, x), y)
    decreases |x|
  {
    hide FeedBit;
    if x == [] {
      assert x + y == y;
    } else {
      FeedConcat(FeedBit(r, x[0]), x[1..], y);
      assert (x + y)[1..] == x[1..] + y;
    }
  }

  /** The CRC by bytes is the CRC by bits. */
  lemma {:induction false} BitAtATime(r: Word, data: seq<Byte>)
    ensures Crc(r, data) == FeedBits(r, BitsOf(data))
    decreases |data|
  {
    hide ByteStep, Xor, FeedBit, BitsOfByte;
    if data != [] {
      ByteIsBits(r, data[0]);
      FeedConcat(r, BitsOfByte(data[0]), BitsOf(data[1..]));
      BitAtATime(ByteStep(Xor(r, data[0] as Word)), data[1..]);
    }
  }

  /** Data may be split anywhere: updating twice is updating once. */
  lemma {:induction false} SplitUpdate(r: Word, a: seq<Byte>, b: seq<Byte>)
    ensures Crc(r, a + b) == Crc(Crc(r, a), b)
    decreases |a|
  {
    hide ByteStep, Xor;
    if a == [] {
      assert a + b == b;
    } else {
      SplitUpdate(ByteStep(Xor(r, a[0] as Word)), a[1..], b);
      assert (a + b)[1..] == a[1..] + b;
    }
  }

  // ---- Tables ----

  function Low(v: Word): Byte { (v & 0xff) as Byte }

  function Drop(v: Word): Word { v >> 8 }

  lemma ByteStepLowZero(v: Word)
    requires v & 0xff == 0
    ensures ByteStep(v) == v >> 8
  {}

  lemma LowHigh(v: Word)
    ensures v == Xor(Low(v) as Word, v & 0xffffff00) && (v & 0xffffff00) & 0xff == 0 && (v & 0xffffff00) >> 8 == v >> 8
  {}

  lemma {:induction false} DropIsShift(v: Word)
    ensures Drop(v) == v >> 8
  {}

  /** A word split into its low byte and the rest steps as the rest shifted, xored with the low byte's step. */
  lemma {:induction false} StepOverParts(v: Word, low: Word, high: Word)
    requires v == Xor(low, high) && ByteStep(high) == Drop(v)
    ensures ByteStep(v) == Xor(ByteStep(low), Drop(v))
  {
    hide ByteStep, Step, Xor, Drop;
    ByteStepXor(low, high);
  }

  lemma {:induction false} HighPart(v: Word)
    ensures ByteStep(v & 0xffffff00) == Drop(v)
  {
    hide ByteStep, Step, Xor;
    LowHigh(v);
    ByteStepLowZero(v & 0xffffff00);
    DropIsShift(v);
  }

  /** What one look-up replaces. */
  lemma {:induction false} ByteStepByTable(v: Word)
    ensures ByteStep(v) == Xor(ByteStep(Low(v) as Word), Drop(v))
  {
    hide ByteStep, Step, Xor, Low, Drop;
    LowHigh(v);
    HighPart(v);
    StepOverParts(v, Low(v) as Word, v & 0xffffff00);
  }

  /** The value that belongs at index `i` of the derived tables. */
  function EntryAt(i: nat): Word {
    ByteSteps(i / 256 + 1, ((i % 256) as Byte) as Word)
  }

  lemma ByteIndex(b: Byte)
    ensures 0 <= b as int < 256 && (b as int) as Byte == b
  {}

  lemma {:induction false} ByteStepsLast(n: nat, r: Word)
    ensures ByteSteps(n + 1, r) == ByteStep(ByteSteps(n, r))
  {
    hide ByteStep;
    if n != 0 { ByteStepsLast(n - 1, ByteStep(r)); }
  }

  lemma NextTable(i: nat)
    requires i >= 256
    ensures EntryAt(i) == ByteStep(EntryAt(i - 256))
  {
    hide ByteStep;
    assert i / 256 == (i - 256) / 256 + 1 && i % 256 == (i - 256) % 256;
    ByteStepsLast((i - 256) / 256 + 1, ((i % 256) as Byte) as Word);
  }

  lemma FirstTable(b: Byte)
    ensures EntryAt(b as int) == ByteStep(b as Word)
  {
    hide ByteStep;
    ByteIndex(b);
    assert ByteSteps(1, b as Word) == ByteSteps(0, ByteStep(b as Word));
  }

  lemma LaterTable(k: nat, b: Byte)
    ensures EntryAt(k * 256 + b as int) == ByteSteps(k + 1, b as Word)
  {
    hide ByteStep;
    ByteIndex(b);
    assert (k * 256 + b as int) / 256 == k && (k * 256 + b as int) % 256 == b as int;
  }

  class CRC32Table {
    const table: array<Word>

    ghost predicate Valid()
      reads table
    {
      table.Length == 2048 && forall i :: 0 <= i < 2048 ==> table[i] == EntryAt(i)
    }

    constructor ()
      ensures Valid() && fresh(table)
    {
      table := new Word[2048];
      new;
      FillFirst(table);
      FillRest(table);
    }
  }

  /** The table of single bytes: eight division steps each. */
  method FillFirst(table: array<Word>)
    requires table.Length == 2048
    modifies table
    ensures forall j :: 0 <= j < 256 ==> table[j] == EntryAt(j)
  {
    hide EntryAt, ByteStep;
    for i := 0 to 256
      invariant forall j :: 0 <= j < i ==> table[j] == EntryAt(j)
    {
      var r := FirstEntry(i);
      table[i] := r;
    }
  }

  method FirstEntry(i: nat) returns (r: Word)
    requires i < 256
    ensures r == EntryAt(i)
  {
    hide EntryAt, ByteStep;
    FirstTable(i as Byte);
    ByteIndex(i as Byte);
    r := Divide((i as Byte) as Word);
  }

  /** The eight division steps on one byte. */
  method Divide(start: Word) returns (r: Word)
    ensures r == ByteStep(start)
  {
    hide Step;
    r := start;
    r := StepOnce(r);
    r := StepOnce(r);
    r := StepOnce(r);
    r := StepOnce(r);
    r := StepOnce(r);
    r := StepOnce(r);
    r := StepOnce(r);
    r := StepOnce(r);
  }

  /** Each later table appends one more zero byte to the one before. */
  method FillRest(table: array<Word>)
    requires table.Length == 2048
    requires forall j :: 0 <= j < 256 ==> table[j] == EntryAt(j)
    modifies table
    ensures forall j :: 0 <= j < 2048 ==> table[j] == EntryAt(j)
  {
    hide ByteStep, Xor, EntryAt, Low;
    for i := 256 to 2048
      invariant forall j :: 0 <= j < i ==> table[j] == EntryAt(j)
    {
      var value := table[i - 256];
      ByteIndex(Low(value));
      NextTable(i);
      FirstTable(Low(value));
      ByteStepByTable(value);
      table[i] := Xor(table[Low(value) as int], Drop(value));
    }
  }

  method StepOnce(r: Word) returns (next: Word)
    ensures next == Step(r)
  {
    hide Xor;
    next := Xor((r & 1) * 0xedb88320, r >> 1);
  }

  // ---- Eight bytes at a time ----

  /** Four bytes as a little-endian word. */
  function Uint32LE(d0: Byte, d1: Byte, d2: Byte, d3: Byte): Word {
    (d0 as Word) | ((d1 as Word) << 8) | ((d2 as Word) << 16) | ((d3 as Word) << 24)
  }

  lemma WordFront(d0: Byte, d1: Byte, d2: Byte, d3: Byte)
    ensures var high := Uint32LE(0, d1, d2, d3);
            && Uint32LE(d0, d1, d2, d3) == Xor(d0 as Word, high)
            && high & 0xff == 0 && high >> 8 == Uint32LE(d1, d2, d3, 0)
  {}

  lemma WordBytes(v: Word)
    ensures Drop(v) == v >> 8 && Drop(v >> 8) == v >> 16 && Drop(v >> 16) == v >> 24 && Drop(v >> 24) == 0
  {}

  /** A byte step on a word that has been xored with four bytes consumes the first of them. */
  lemma StepOverWord(r: Word, d0: Byte, d1: Byte, d2: Byte, d3: Byte)
    ensures ByteStep(Xor(r, Uint32LE(d0, d1, d2, d3))) == Xor(ByteStep(Xor(r, d0 as Word)), Uint32LE(d1, d2, d3, 0))
  {
    hide ByteStep, Xor, Uint32LE;
    var high := Uint32LE(0, d1, d2, d3);
    WordFront(d0, d1, d2, d3);
    XorAssoc(r, d0 as Word, high);
    ByteStepXor(Xor(r, d0 as Word), high);
    ByteStepLowZero(high);
  }

  lemma WordZero()
    ensures Uint32LE(0, 0, 0, 0) == 0
  {}

  /** Four bytes consumed together. */
  lemma {:induction false} FourBytes(r: Word, d0: Byte, d1: Byte, d2: Byte, d3: Byte)
    ensures Crc(r, [d0, d1, d2, d3]) == ByteSteps(4, Xor(r, Uint32LE(d0, d1, d2, d3)))
  {
    hide ByteStep, Xor, Uint32LE;
    var r1 := ByteStep(Xor(r, d0 as Word));
    var r2 := ByteStep(Xor(r1, d1 as Word));
    var r3 := ByteStep(Xor(r2, d2 as Word));
    var r4 := ByteStep(Xor(r3, d3 as Word));
    StepOverWord(r, d0, d1, d2, d3);
    StepOverWord(r1, d1, d2, d3, 0);
    StepOverWord(r2, d2, d3, 0, 0);
    StepOverWord(r3, d3, 0, 0, 0);
    WordZero();
    XorZero(r4);
    CrcFour(r, d0, d1, d2, d3);
    assert ByteSteps(4, Xor(r, Uint32LE(d0, d1, d2, d3))) == ByteSteps(3, Xor(r1, Uint32LE(d1, d2, d3, 0)));
    assert ByteSteps(3, Xor(r1, Uint32LE(d1, d2, d3, 0))) == ByteSteps(2, Xor(r2, Uint32LE(d2, d3, 0, 0)));
    assert ByteSteps(2, Xor(r2, Uint32LE(d2, d3, 0, 0))) == ByteSteps(1, Xor(r3, Uint32LE(d3, 0, 0, 0)));
  }

  lemma {:induction false} CrcFour(r: Word, d0: Byte, d1: Byte, d2: Byte, d3: Byte)
    ensures Crc(r, [d0, d1, d2, d3]) ==
            ByteStep(Xor(ByteStep(Xor(ByteStep(Xor(ByteStep(Xor(r, d0 as Word)), d1 as Word)), d2 as Word)),
                         d3 as Word))
  {
    hide ByteStep, Xor, Crc;
    var r1 := ByteStep(Xor(r, d0 as Word));
    var r2 := ByteStep(Xor(r1, d1 as Word));
    var r3 := ByteStep(Xor(r2, d2 as Word));
    CrcFirst(r, d0, [d1, d2, d3]);
    CrcFirst(r1, d1, [d2, d3]);
    CrcFirst(r2, d2, [d3]);
    CrcFirst(r3, d3, []);
    assert [d0, d1, d2, d3] == [d0] + [d1, d2, d3] && [d1, d2, d3] == [d1] + [d2, d3] && [d2, d3] == [d2] + [d3];
    assert [d3] == [d3] + [];
    CrcNone(ByteStep(Xor(r3, d3 as Word)));
  }

  lemma {:induction false} CrcFirst(r: Word, b: Byte, rest: seq<Byte>)
    ensures Crc(r, [b] + rest) == Crc(ByteStep(Xor(r, b as Word)), rest)
  {
    hide ByteStep, Xor;
    assert ([b] + rest)[1..] == rest;
  }

  lemma {:induction false} CrcNone(r: Word)
    ensures Crc(r, []) == r
  {}

  /** Four byte steps on a word, split over its bytes. */
  lemma FourSteps(v: Word)
    ensures ByteSteps(4, v) == Xor(Xor(ByteSteps(1, Low(v >> 24) as Word), ByteSteps(2, Low(v >> 16) as Word)),
                                   Xor(ByteSteps(3, Low(v >> 8) as Word), ByteSteps(4, Low(v) as Word)))
  {
    WordBytes(v);
    FourDrops(v, v >> 8, v >> 16, v >> 24);
  }

  lemma FourDrops(v0: Word, v1: Word, v2: Word, v3: Word)
    requires Drop(v0) == v1 && Drop(v1) == v2 && Drop(v2) == v3 && Drop(v3) == 0
    ensures ByteSteps(4, v0) == Xor(Xor(ByteSteps(1, Low(v3) as Word), ByteSteps(2, Low(v2) as Word)),
                                    Xor(ByteSteps(3, Low(v1) as Word), ByteSteps(4, Low(v0) as Word)))
  {
    hide ByteStep, Xor, Low, Drop, ByteSteps;
    OneStep(3, v0);
    OneStep(2, v1);
    OneStep(1, v2);
    LastStep(v3);
    XorReverse(ByteSteps(1, Low(v3) as Word), ByteSteps(2, Low(v2) as Word), ByteSteps(3, Low(v1) as Word),
               ByteSteps(4, Low(v0) as Word));
  }

  lemma {:induction false} OneStep(n: nat, v: Word)
    ensures ByteSteps(n + 1, v) == Xor(ByteSteps(n + 1, Low(v) as Word), ByteSteps(n, Drop(v)))
  {
    hide ByteStep, Xor, Low, Drop;
    ByteStepByTable(v);
    ByteStepsXor(n, ByteStep(Low(v) as Word), Drop(v));
  }

  lemma LastStep(v: Word)
    requires Drop(v) == 0
    ensures ByteSteps(1, v) == ByteSteps(1, Low(v) as Word)
  {
    hide ByteStep, Xor, Low, Drop;
    OneStep(0, v);
    assert ByteSteps(0, 0) == 0;
    XorZero(ByteSteps(1, Low(v) as Word));
  }

  lemma XorReverse(s1: Word, s2: Word, s3: Word, s4: Word)
    ensures Xor(s4, Xor(s3, Xor(s2, s1))) == Xor(Xor(s1, s2), Xor(s3, s4))
  {
    hide Xor;
    XorComm(s2, s1);
    XorAssoc(s4, s3, Xor(s1, s2));
    XorComm(s4, s3);
    XorComm(Xor(s3, s4), Xor(s1, s2));
  }

  /** The eight look-ups of one round, in the order in which the source xors them. */
  function EightLookups(t: seq<Word>, r: Word, r2: Word): Word
    requires |t| == 2048
  {
    Xor(Xor(Xor(Xor(Xor(Xor(Xor(
      t[0 * 256 + Low(r2 >> 24) as int], t[1 * 256 + Low(r2 >> 16) as int]),
      t[2 * 256 + Low(r2 >> 8) as int]), t[3 * 256 + Low(r2) as int]),
      t[4 * 256 + Low(r >> 24) as int]), t[5 * 256 + Low(r >> 16) as int]),
      t[6 * 256 + Low(r >> 8) as int]), t[7 * 256 + Low(r) as int])
  }

  lemma XorEight(a: Word, b: Word, c: Word, d: Word, e: Word, f: Word, g: Word, h: Word)
    ensures Xor(Xor(Xor(Xor(Xor(Xor(Xor(a, b), c), d), e), f), g), h) ==
            Xor(Xor(Xor(a, b), Xor(c, d)), Xor(Xor(e, f), Xor(g, h)))
  {
    hide Xor;
    XorAssoc(Xor(a, b), c, d);
    var front := Xor(Xor(a, b), Xor(c, d));
    XorAssoc(front, e, f);
    XorAssoc(Xor(front, Xor(e, f)), g, h);
    XorAssoc(front, Xor(e, f), Xor(g, h));
  }

  lemma Lookup(t: seq<Word>, k: nat, b: Byte)
    requires |t| == 2048 && (forall i :: 0 <= i < 2048 ==> t[i] == EntryAt(i)) && k < 8
    ensures 0 <= k * 256 + b as int < 2048 && t[k * 256 + b as int] == ByteSteps(k + 1, b as Word)
  {
    hide ByteSteps, EntryAt;
    ByteIndex(b);
    LaterTable(k, b);
  }

  lemma EightLookedUp(t: seq<Word>, r: Word, r2: Word)
    requires |t| == 2048 && forall i :: 0 <= i < 2048 ==> t[i] == EntryAt(i)
    ensures EightLookups(t, r, r2) ==
            Xor(Xor(Xor(Xor(Xor(Xor(Xor(
              ByteSteps(1, Low(r2 >> 24) as Word), ByteSteps(2, Low(r2 >> 16) as Word)),
              ByteSteps(3, Low(r2 >> 8) as Word)), ByteSteps(4, Low(r2) as Word)),
              ByteSteps(5, Low(r >> 24) as Word)), ByteSteps(6, Low(r >> 16) as Word)),
              ByteSteps(7, Low(r >> 8) as Word)), ByteSteps(8, Low(r) as Word))
  {
    hide ByteSteps, Xor, Low, EntryAt;
    Lookup(t, 0, Low(r2 >> 24)); Lookup(t, 1, Low(r2 >> 16)); Lookup(t, 2, Low(r2 >> 8)); Lookup(t, 3, Low(r2));
    Lookup(t, 4, Low(r >> 24)); Lookup(t, 5, Low(r >> 16)); Lookup(t, 6, Low(r >> 8)); Lookup(t, 7, Low(r));
  }

  /** The eight look-ups are eight byte steps of the first word and four of the second. */
  lemma {:induction false} LookupsAreSteps(t: seq<Word>, r: Word, r2: Word)
    requires |t| == 2048 && forall i :: 0 <= i < 2048 ==> t[i] == EntryAt(i)
    ensures EightLookups(t, r, r2) == Xor(ByteSteps(4, r2), ByteSteps(8, r))
  {
    hide ByteSteps, Xor, Low, EntryAt, EightLookups;
    EightLookedUp(t, r, r2);
    FourSteps(r2);
    EightSteps(r);
    XorEight(ByteSteps(1, Low(r2 >> 24) as Word), ByteSteps(2, Low(r2 >> 16) as Word),
             ByteSteps(3, Low(r2 >> 8) as Word), ByteSteps(4, Low(r2) as Word),
             ByteSteps(5, Low(r >> 24) as Word), ByteSteps(6, Low(r >> 16) as Word),
             ByteSteps(7, Low(r >> 8) as Word), ByteSteps(8, Low(r) as Word));
  }

  lemma EightSteps(v: Word)
    ensures ByteSteps(8, v) == Xor(Xor(ByteSteps(5, Low(v >> 24) as Word), ByteSteps(6, Low(v >> 16) as Word)),
                                   Xor(ByteSteps(7, Low(v >> 8) as Word), ByteSteps(8, Low(v) as Word)))
  {
    hide ByteStep, Xor, Low;
    var b0, b1, b2, b3 := Low(v) as Word, Low(v >> 8) as Word, Low(v >> 16) as Word, Low(v >> 24) as Word;
    FourSteps(v);
    ByteStepsAdd(4, 4, v);
    ByteStepsAdd(4, 1, b3); ByteStepsAdd(4, 2, b2); ByteStepsAdd(4, 3, b1); ByteStepsAdd(4, 4, b0);
    ByteStepsXor(4, Xor(ByteSteps(1, b3), ByteSteps(2, b2)), Xor(ByteSteps(3, b1), ByteSteps(4, b0)));
    ByteStepsXor(4, ByteSteps(1, b3), ByteSteps(2, b2));
    ByteStepsXor(4, ByteSteps(3, b1), ByteSteps(4, b0));
  }

  /** One round of the fast loop is eight byte steps of the CRC. */
  lemma {:induction false} EightBytes(t: seq<Word>, r: Word, d: seq<Byte>)
    requires |t| == 2048 && forall i :: 0 <= i < 2048 ==> t[i] == EntryAt(i)
    requires |d| == 8
    ensures Crc(r, d) == EightLookups(t, Xor(r, Uint32LE(d[0], d[1], d[2], d[3])), Uint32LE(d[4], d[5], d[6], d[7]))
  {
    hide ByteStep, Xor, EntryAt, Uint32LE, EightLookups;
    var w1, w2 := Uint32LE(d[0], d[1], d[2], d[3]), Uint32LE(d[4], d[5], d[6], d[7]);
    var x := ByteSteps(4, Xor(r, w1));
    assert d == [d[0], d[1], d[2], d[3]] + [d[4], d[5], d[6], d[7]];
    SplitUpdate(r, [d[0], d[1], d[2], d[3]], [d[4], d[5], d[6], d[7]]);
    FourBytes(r, d[0], d[1], d[2], d[3]);
    FourBytes(x, d[4], d[5], d[6], d[7]);
    ByteStepsXor(4, x, w2);
    ByteStepsAdd(4, 4, Xor(r, w1));
    LookupsAreSteps(t, Xor(r, w1), w2);
    XorComm(ByteSteps(8, Xor(r, w1)), ByteSteps(4, w2));
  }

  // ---- The streaming update ----

  lemma DropIgnoresByte(r: Word, b: Byte)
    ensures Drop(Xor(r, b as Word)) == Drop(r)
  {}

  lemma ByteLookup(r: Word, b: Byte)
    ensures Xor(ByteStep(Low(Xor(r, b as Word)) as Word), Drop(r)) == ByteStep(Xor(r, b as Word))
  {
    hide ByteStep, Low, Xor, Drop;
    ByteStepByTable(Xor(r, b as Word));
    DropIgnoresByte(r, b);
  }

  method UpdateByte(t: CRC32Table, r: Word, b: Byte) returns (next: Word)
    requires t.Valid()
    ensures next == ByteStep(Xor(r, b as Word))
  {
    hide ByteStep, Xor, Low, Drop, EntryAt;
    ByteIndex(Low(Xor(r, b as Word)));
    FirstTable(Low(Xor(r, b as Word)));
    ByteLookup(r, b);
    next := Xor(t.table[Low(Xor(r, b as Word)) as int], Drop(r));
  }

  method UpdateEight(t: CRC32Table, r: Word, d: seq<Byte>) returns (next: Word)
    requires t.Valid() && |d| == 8
    ensures next == Crc(r, d)
  {
    hide ByteStep, Xor, Low, EntryAt, EightLookups;
    EightBytes(t.table[..], r, d);
    next := EightLookups(t.table[..], Xor(r, Uint32LE(d[0], d[1], d[2], d[3])), Uint32LE(d[4], d[5], d[6], d[7]));
  }

  /** Bit 2 of the address, which is what `address & alignof(uint32_t)` tests. */
  predicate Misaligned(address: nat) { (address / 4) % 2 == 1 }

  lemma {:induction false} CrcStep(r: Word, data: seq<Byte>, i: nat)
    requires i < |data|
    ensures Crc(r, data[i..]) == Crc(ByteStep(Xor(r, data[i] as Word)), data[i + 1..])
  {
    hide ByteStep, Xor;
    assert data[i..][1..] == data[i + 1..];
  }

  /** For every previous value, every data and every address, the update is the CRC. */
  method Update(t: CRC32Table, prev: Word, data: seq<Byte>, address: nat) returns (r: Word)
    requires t.Valid()
    ensures r == Crc(prev, data)
  {
    hide ByteStep, Xor, Crc;
    r := prev;
    var offset := 0;
    assert data[0..] == data;
    while Misaligned(address + offset) && offset < |data|
      invariant 0 <= offset <= |data|
      invariant Crc(r, data[offset..]) == Crc(prev, data)
      decreases |data| - offset
    {
      CrcStep(r, data, offset);
      r := UpdateByte(t, r, data[offset]);
      offset := offset + 1;
    }
    if offset == |data| {
      assert data[offset..] == [];
      CrcNone(r);
      return;
    }
    var remaining := |data| - offset;
    while remaining >= 8
      invariant 0 <= offset <= |data| && remaining == |data| - offset
      invariant Crc(r, data[offset..]) == Crc(prev, data)
      decreases remaining
    {
      SplitUpdate(r, data[offset..offset + 8], data[offset + 8..]);
      assert data[offset..] == data[offset..offset + 8] + data[offset + 8..];
      r := UpdateEight(t, r, data[offset..offset + 8]);
      offset := offset + 8;
      remaining := remaining - 8;
    }
    while offset < |data|
      invariant 0 <= offset <= |data|
      invariant Crc(r, data[offset..]) == Crc(prev, data)
      decreases |data| - offset
    {
      CrcStep(r, data, offset);
      r := UpdateByte(t, r, data[offset]);
      offset := offset + 1;
    }
    assert data[offset..] == [];
    CrcNone(r);
  }

  // ---- What the checksum is for ----

  lemma {:induction false} CrcInjective(a: Word, b: Word, data: seq<Byte>)
    requires Crc(a, data) == Crc(b, data)
    ensures a == b
    decreases |data|
  {
    hide ByteStep, Xor;
    if data != [] {
      var d := data[0] as Word;
      CrcInjective(ByteStep(Xor(a, d)), ByteStep(Xor(b, d)), data[1..]);
      ByteStepInjective(Xor(a, d), Xor(b, d));
      XorComm(a, d);
      XorComm(b, d);
      XorCancels(d, a, b);
    }
  }

  lemma FeedBitInjective(r: Word, s: Word, bit: bool)
    requires FeedBit(r, bit) == FeedBit(s, bit)
    ensures r == s
  {}

  lemma {:induction false} FeedInjective(r: Word, s: Word, bits: seq<bool>)
    requires FeedBits(r, bits) == FeedBits(s, bits)
    ensures r == s
    decreases |bits|
  {
    hide FeedBit;
    if bits != [] {
      FeedInjective(FeedBit(r, bits[0]), FeedBit(s, bits[0]), bits[1..]);
      FeedBitInjective(r, s, bits[0]);
    }
  }

  /** Up to 32 bits as a word, the first bit lowest. */
  function Pack(bits: seq<bool>): Word {
    if bits == [] then 0 else PackOne(bits[0], Pack(bits[1..]))
  }

  function PackOne(bit: bool, rest: Word): Word { (rest << 1) | (if bit then 1 else 0) }

  function Ones(n: nat): Word {
    if n == 0 then 0 else PackOne(true, Ones(n - 1))
  }

  /** No bit of `w` lies outside `mask`. */
  predicate Within(w: Word, mask: Word) { w | mask == mask }

  lemma {:induction false} PackFits(bits: seq<bool>, n: nat)
    requires |bits| <= n
    ensures Within(Pack(bits), Ones(n))
  {
    if bits == [] {
      ZeroWithin(Ones(n));
    } else {
      PackFits(bits[1..], n - 1);
      OneWithin(bits[0], Pack(bits[1..]), Ones(n - 1));
    }
  }

  lemma ZeroWithin(mask: Word)
    ensures Within(0, mask)
  {}

  lemma OneWithin(bit: bool, w: Word, mask: Word)
    requires Within(w, mask)
    ensures Within(PackOne(bit, w), PackOne(true, mask))
  {
    hide Within, PackOne;
    if bit { OneBitWithin(w, mask); } else { NoBitWithin(w, mask); }
  }

  lemma OneBitWithin(w: Word, mask: Word)
    requires Within(w, mask)
    ensures Within(PackOne(true, w), PackOne(true, mask))
  {}

  lemma NoBitWithin(w: Word, mask: Word)
    requires Within(w, mask)
    ensures Within(PackOne(false, w), PackOne(true, mask))
  {}

  /** Thirty-one bits leave the highest bit of a word free. */
  lemma {:induction false} TopIsFree(bits: seq<bool>)
    requires |bits| <= 31
    ensures Within(Pack(bits), 0x7fffffff)
  {
    hide Within;
    PackFits(bits, 31);
    assert Ones(3) == 0x7;
    assert Ones(7) == 0x7f;
    assert Ones(11) == 0x7ff;
    assert Ones(15) == 0x7fff;
    assert Ones(19) == 0x7ffff;
    assert Ones(23) == 0x7fffff;
    assert Ones(27) == 0x7ffffff;
    assert Ones(31) == 0x7fffffff;
  }

  lemma PackOneInjective(b: bool, v: Word, c: bool, w: Word)
    requires Within(v, 0x7fffffff) && Within(w, 0x7fffffff) && PackOne(b, v) == PackOne(c, w)
    ensures b == c && v == w
  {}

  lemma {:induction false} PackInjective(x: seq<bool>, y: seq<bool>)
    requires |x| == |y| <= 32 && Pack(x) == Pack(y)
    ensures x == y
  {
    hide PackOne, Within;
    if x != [] {
      TopIsFree(x[1..]);
      TopIsFree(y[1..]);
      PackOneInjective(x[0], Pack(x[1..]), y[0], Pack(y[1..]));
      PackInjective(x[1..], y[1..]);
      assert x == [x[0]] + x[1..] && y == [y[0]] + y[1..];
    }
  }

  function Zeros(n: nat): seq<bool> { seq(n, i => false) }

  predicate Odd(r: Word) { r & 1 == 1 }

  function Feedback(on: bool): Word { if on then 0xedb88320 else 0 }

  lemma FeedBitIs(r: Word, bit: bool)
    ensures FeedBit(r, bit) == Xor(Shift(r), Feedback(Odd(r) != bit))
  {}

  lemma FeedPacked(r: Word, bit: bool, rest: Word)
    requires Within(rest, 0x7fffffff)
    ensures FeedBit(Xor(r, PackOne(bit, rest)), false) == Xor(FeedBit(r, bit), rest)
  {
    hide Xor, Shift, Odd, Feedback, PackOne, FeedBit, Within;
    var tap := Feedback(Odd(r) != bit);
    FeedBitIs(r, bit);
    FeedBitIs(Xor(r, PackOne(bit, rest)), false);
    ShiftOut(r, bit, rest);
    LowestBit(r, bit, rest);
    XorAssoc(Shift(r), rest, tap);
    XorComm(rest, tap);
    XorAssoc(Shift(r), tap, rest);
  }

  lemma ShiftOut(r: Word, bit: bool, w: Word)
    requires Within(w, 0x7fffffff)
    ensures Shift(Xor(r, PackOne(bit, w))) == Xor(Shift(r), w)
  {
    hide Xor, Shift, PackOne, Within;
    ShiftXor(r, PackOne(bit, w));
    PackedShift(bit, w);
  }

  lemma PackedShift(bit: bool, w: Word)
    requires Within(w, 0x7fffffff)
    ensures Shift(PackOne(bit, w)) == w
  {
    if bit { BitShiftedOut(w, 1); } else { BitShiftedOut(w, 0); }
  }

  lemma BitShiftedOut(w: Word, b: Word)
    requires w | 0x7fffffff == 0x7fffffff && (b == 0 || b == 1)
    ensures ((w << 1) | b) >> 1 == w
  {}

  lemma LowestBit(r: Word, bit: bool, w: Word)
    ensures Odd(Xor(r, PackOne(bit, w))) <==> Odd(r) != bit
  {
    if bit { LowestOfBits(r, 1, w); } else { LowestOfBits(r, 0, w); }
  }

  lemma LowestOfBits(r: Word, b: Word, w: Word)
    requires b == 0 || b == 1
    ensures (r ^ ((w << 1) | b)) & 1 == 1 <==> (r & 1 == 1) != (b == 1)
  {}

  /** Up to 32 bits may be added to the register at once and then shifted through. */
  lemma {:induction false} FeedAtOnce(r: Word, bits: seq<bool>)
    requires |bits| <= 32
    ensures FeedBits(r, bits) == FeedBits(Xor(r, Pack(bits)), Zeros(|bits|))
    decreases |bits|
  {
    hide FeedBit, PackOne, Within, Xor;
    if bits == [] {
      XorZero(r);
    } else {
      TopIsFree(bits[1..]);
      FeedPacked(r, bits[0], Pack(bits[1..]));
      FeedAtOnce(FeedBit(r, bits[0]), bits[1..]);
      assert Zeros(|bits|)[1..] == Zeros(|bits| - 1);
    }
  }

  /** Different bits, up to 32 of them, leave different registers. */
  lemma {:induction false} FewBitsDiffer(r: Word, x: seq<bool>, y: seq<bool>)
    requires |x| == |y| <= 32 && FeedBits(r, x) == FeedBits(r, y)
    ensures x == y
  {
    hide FeedBits, Pack, Xor;
    FeedAtOnce(r, x);
    FeedAtOnce(r, y);
    FeedInjective(Xor(r, Pack(x)), Xor(r, Pack(y)), Zeros(|x|));
    XorCancels(r, Pack(x), Pack(y));
    PackInjective(x, y);
  }

  /** Any burst of up to 32 bits changes the checksum, at whatever bit it starts. */
  lemma {:induction false} BurstsAreDetected(prev: Word, a: seq<Byte>, b: seq<Byte>, before: seq<bool>, x: seq<bool>,
                                             y: seq<bool>,
                                             after: seq<bool>)
    requires BitsOf(a) == before + x + after && BitsOf(b) == before + y + after
    requires |x| == |y| <= 32 && x != y
    ensures Crc(prev, a) != Crc(prev, b)
  {
    hide Crc, FeedBits, BitsOf;
    BitAtATime(prev, a);
    BitAtATime(prev, b);
    var r := FeedBits(prev, before);
    FeedConcat(prev, before + x, after);
    FeedConcat(prev, before, x);
    FeedConcat(prev, before + y, after);
    FeedConcat(prev, before, y);
    if Crc(prev, a) == Crc(prev, b) {
      FeedInjective(FeedBits(r, x), FeedBits(r, y), after);
      FewBitsDiffer(r, x, y);
    }
  }

  lemma {:induction false} BitsConcat(a: seq<Byte>, b: seq<Byte>)
    ensures BitsOf(a + b) == BitsOf(a) + BitsOf(b)
  {
    hide BitsOfByte;
    if a == [] {
      assert a + b == b;
    } else {
      assert (a + b)[1..] == a[1..] + b;
      BitsConcat(a[1..], b);
    }
  }

  lemma ByteHasItsBits(a: Byte, b: Byte)
    requires BitsOfByte(a) == BitsOfByte(b)
    ensures a == b
  {
    var x, y := BitsOfByte(a), BitsOfByte(b);
    assert x[0] == y[0] && x[1] == y[1] && x[2] == y[2] && x[3] == y[3];
    assert x[4] == y[4] && x[5] == y[5] && x[6] == y[6] && x[7] == y[7];
  }

  lemma {:induction false} BitsInjective(x: seq<Byte>, y: seq<Byte>)
    requires |x| == |y| && BitsOf(x) == BitsOf(y)
    ensures x == y
  {
    if x != [] {
      assert BitsOf(x)[..8] == BitsOfByte(x[0]) && BitsOf(x)[8..] == BitsOf(x[1..]);
      assert BitsOf(y)[..8] == BitsOfByte(y[0]) && BitsOf(y)[8..] == BitsOf(y[1..]);
      ByteHasItsBits(x[0], y[0]);
      BitsInjective(x[1..], y[1..]);
    }
  }

  /** Any corruption confined to four consecutive bytes changes the checksum, wherever it lies. */
  lemma {:induction false} FourBytesAreDetected(prev: Word, before: seq<Byte>, x: seq<Byte>, y: seq<Byte>,
                                                after: seq<Byte>)
    requires |x| == |y| == 4 && x != y
    ensures Crc(prev, before + x + after) != Crc(prev, before + y + after)
  {
    hide Crc, BitsOf;
    BitsConcat(before + x, after);
    BitsConcat(before, x);
    BitsConcat(before + y, after);
    BitsConcat(before, y);
    BitsLength(x);
    BitsLength(y);
    if BitsOf(x) == BitsOf(y) {
      BitsInjective(x, y);
    }
    BurstsAreDetected(prev, before + x + after, before + y + after, BitsOf(before), BitsOf(x), BitsOf(y),
                      BitsOf(after));
  }

  lemma {:induction false} BitsLength(x: seq<Byte>)
    ensures |BitsOf(x)| == 8 * |x|
  {
    if x != [] { BitsLength(x[1..]); }
  }

  // ---- Whole checksums ----

  const CRC32_INIT: Word := 0xffffffff

  function Final(r: Word): Word { Xor(r, 0xffffffff) }

  /** The checksum of section 8 of RFC 1952: all ones in, the bits through, all ones out. */
  function Checksum(data: seq<Byte>): Word {
    Final(FeedBits(CRC32_INIT, BitsOf(data)))
  }

  /** A file checksummed piece by piece, at whatever addresses the pieces lie, has the checksum of the whole. */
  method ChecksumOfChunks(t: CRC32Table, chunks: seq<seq<Byte>>, addresses: seq<nat>) returns (sum: Word)
    requires t.Valid() && |addresses| == |chunks|
    ensures sum == Checksum(Flatten(chunks))
  {
    hide FeedBits, ByteStep, Xor;
    var r := CRC32_INIT;
    for i := 0 to |chunks|
      invariant r == Crc(CRC32_INIT, Flatten(chunks[..i]))
    {
      r := Update(t, r, chunks[i], addresses[i]);
      FlattenSnoc(chunks, i);
      SplitUpdate(CRC32_INIT, Flatten(chunks[..i]), chunks[i]);
    }
    assert chunks[..|chunks|] == chunks;
    BitAtATime(CRC32_INIT, Flatten(chunks));
    sum := Final(r);
  }

  function Flatten(chunks: seq<seq<Byte>>): seq<Byte> {
    if chunks == [] then [] else Flatten(chunks[..|chunks| - 1]) + chunks[|chunks| - 1]
  }

  lemma FlattenSnoc(chunks: seq<seq<Byte>>, i: nat)
    requires i < |chunks|
    ensures Flatten(chunks[..i + 1]) == Flatten(chunks[..i]) + chunks[i]
  {
    assert chunks[..i + 1][..i] == chunks[..i];
  }

  /** The usual check: the checksum of the digits from 1 to 9. */
  lemma {:induction false} ChecksumOfDigits()
    ensures Checksum([0x31, 0x32, 0x33, 0x34, 0x35, 0x36, 0x37, 0x38, 0x39]) == 0xcbf43926
  {
    hide ByteStep, Xor, FeedBits, BitsOf, Crc;
    var d: seq<Byte> := [0x31, 0x32, 0x33, 0x34, 0x35, 0x36, 0x37, 0x38, 0x39];
    BitAtATime(CRC32_INIT, d);
    FirstDigits();
    LastDigits();
    OneDigit(0xffffffff, d[0..], 0x7c231048);
    OneDigit(0x7c231048, d[1..], 0xb0acbb32);
    OneDigit(0xb0acbb32, d[2..], 0x77b79c2d);
    OneDigit(0x77b79c2d, d[3..], 0x641c1f5c);
    OneDigit(0x641c1f5c, d[4..], 0x340ac5e3);
    OneDigit(0x340ac5e3, d[5..], 0xf68d2c9e);
    OneDigit(0xf68d2c9e, d[6..], 0xaffc9660);
    OneDigit(0xaffc9660, d[7..], 0x651f2550);
    OneDigit(0x651f2550, d[8..], 0x340bc6d9);
    assert d[0..] == d;
    NoDigit(0x340bc6d9, d[9..]);
    FinalDigit();
  }

  lemma {:induction false} OneDigit(r: Word, d: seq<Byte>, next: Word)
    requires d != [] && ByteStep(Xor(r, d[0] as Word)) == next
    ensures Crc(r, d) == Crc(next, d[1..])
  {}

  lemma {:induction false} NoDigit(r: Word, d: seq<Byte>)
    requires d == []
    ensures Crc(r, d) == r
  {}

  lemma FinalDigit()
    ensures Final(0x340bc6d9) == 0xcbf43926
  {}

  lemma FirstDigits()
    ensures ByteStep(Xor(0xffffffff, 0x31)) == 0x7c231048
    ensures ByteStep(Xor(0x7c231048, 0x32)) == 0xb0acbb32
    ensures ByteStep(Xor(0xb0acbb32, 0x33)) == 0x77b79c2d
    ensures ByteStep(Xor(0x77b79c2d, 0x34)) == 0x641c1f5c
    ensures ByteStep(Xor(0x641c1f5c, 0x35)) == 0x340ac5e3
  {}

  lemma LastDigits()
    ensures ByteStep(Xor(0x340ac5e3, 0x36)) == 0xf68d2c9e
    ensures ByteStep(Xor(0xf68d2c9e, 0x37)) == 0xaffc9660
    ensures ByteStep(Xor(0xaffc9660, 0x38)) == 0x651f2550
    ensures ByteStep(Xor(0x651f2550, 0x39)) == 0x340bc6d9
  {}
}
