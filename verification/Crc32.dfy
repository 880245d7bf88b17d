/** utils/CRC32: the reflected CRC-32 of section 8 of RFC 1952, table-driven, and what it detects. */
module Crc32 {
  import opened Pieces
  import SendFile

  function Xor(a: bv32, b: bv32): bv32 { a ^ b }

  function Half(c: bv32): bv32 { c >> 1 }

  predicate Low(c: bv32) { c & 1 == 1 }

  /** One step of the shift register with polynomial 0xEDB88320. */
  function Shift(c: bv32): bv32 { if Low(c) then Xor(Half(c), 0xEDB88320) else Half(c) }

  function Shifts(c: bv32, n: nat): bv32
    decreases n
  {
    if n == 0 then c else Shifts(Shift(c), n - 1)
  }

  function Bit(b: bool): bv32 { if b then 1 else 0 }

  /** The defining computation: message bits enter the register one at a time, low bit of each byte first. */
  function Feed(c: bv32, bits: seq<bool>): bv32
    decreases |bits|
  {
    if bits == [] then c else Feed(Shift(Xor(c, Bit(bits[0]))), bits[1..])
  }

  /** The low n bits of w, lowest first. */
  function LowBits(w: bv32, n: nat): (bits: seq<bool>)
    ensures |bits| == n
    decreases n
  {
    if n == 0 then [] else [Low(w)] + LowBits(Half(w), n - 1)
  }

  function Bits(b: Byte): (bits: seq<bool>)
    ensures |bits| == 8
  {
    LowBits(b as bv32, 8)
  }

  function BitsOf(data: seq<Byte>): seq<bool> { if data == [] then [] else Bits(data[0]) + BitsOf(data[1..]) }

  function Crc(data: seq<Byte>): bv32 { Xor(Feed(0xFFFF_FFFF, BitsOf(data)), 0xFFFF_FFFF) }

  function LowByte(x: bv32): bv32 { x & 0xFF }

  /** The program's step for one byte, with the table entry written out. */
  function ByteStep(c: bv32, b: Byte): bv32 { Xor(c >> 8, Shifts(LowByte(Xor(c, b as bv32)), 8)) }

  lemma XorCommutes(a: bv32, b: bv32)
    ensures Xor(a, b) == Xor(b, a)
  {
  }

  lemma XorAssociates(a: bv32, b: bv32, c: bv32)
    ensures Xor(Xor(a, b), c) == Xor(a, Xor(b, c))
  {
  }

  lemma XorZero(a: bv32)
    ensures Xor(a, 0) == a
  {
  }

  lemma XorSelf(a: bv32, b: bv32)
    ensures Xor(a, a) == 0 && (Xor(a, b) == 0 ==> a == b)
  {
  }

  lemma XorFour(a: bv32, b: bv32, c: bv32, d: bv32)
    ensures Xor(Xor(a, b), Xor(c, d)) == Xor(Xor(a, c), Xor(b, d))
  {
    hide Xor;
    XorAssociates(a, b, Xor(c, d));
    XorAssociates(b, c, d);
    XorCommutes(b, c);
    XorAssociates(c, b, d);
    XorAssociates(a, c, Xor(b, d));
  }

  /** Adding the polynomial to both words, or to one of them. */
  lemma XorPolynomial(a: bv32, b: bv32, p: bv32)
    ensures Xor(Xor(a, b), p) == Xor(Xor(a, p), b) == Xor(a, Xor(b, p))
    ensures Xor(Xor(a, p), Xor(b, p)) == Xor(a, b)
  {
    hide Xor;
    XorAssociates(a, b, p);
    XorAssociates(a, p, b);
    XorCommutes(b, p);
    XorFour(a, b, p, p);
    XorSelf(p, p);
    XorZero(Xor(a, b));
  }

  lemma HalfOfXor(a: bv32, b: bv32)
    ensures Half(Xor(a, b)) == Xor(Half(a), Half(b))
  {
  }

  lemma LowOfXor(a: bv32, b: bv32)
    ensures Low(Xor(a, b)) <==> Low(a) != Low(b)
  {
    assert (a ^ b) & 1 == (a & 1) ^ (b & 1);
  }

  lemma ShiftLinear(a: bv32, b: bv32)
    ensures Shift(Xor(a, b)) == Xor(Shift(a), Shift(b))
  {
    hide Xor, Half, Low;
    HalfOfXor(a, b);
    LowOfXor(a, b);
    XorPolynomial(Half(a), Half(b), 0xEDB88320);
  }

  lemma {:induction false} ShiftsLinear(a: bv32, b: bv32, n: nat)
    ensures Shifts(Xor(a, b), n) == Xor(Shifts(a, n), Shifts(b, n))
    decreases n
  {
    hide Shift, Xor;
    if n == 0 {
    } else {
      ShiftLinear(a, b);
      ShiftsLinear(Shift(a), Shift(b), n - 1);
    }
  }

  lemma EightShifts(c: bv32)
    ensures Shifts(c, 8) == Shift(Shift(Shift(Shift(Shift(Shift(Shift(Shift(c))))))))
  {
    hide Shift;
  }

  /** The upper bytes only move down. */
  lemma UpperBytes(c: bv32)
    requires c & 0xFF == 0
    ensures Shifts(c, 8) == c >> 8
  {
    EightShifts(c);
  }

  function Upper(x: bv32): bv32 { x & 0xFFFF_FF00 }

  lemma SplitLowByte(c: bv32, b: Byte)
    ensures var x := Xor(c, b as bv32);
      x == Xor(LowByte(x), Upper(x)) && Upper(x) & 0xFF == 0 && Upper(x) >> 8 == c >> 8
  {
  }

  /** The table look-up for a byte does eight steps of the register at once. */
  lemma ByteStepIsEightShifts(c: bv32, b: Byte)
    ensures ByteStep(c, b) == Shifts(Xor(c, b as bv32), 8)
  {
    var x := Xor(c, b as bv32);
    SplitLowByte(c, b);
    hide Shift, Shifts, Xor, LowByte, Upper;
    ShiftsLinear(LowByte(x), Upper(x), 8);
    UpperBytes(Upper(x));
    XorCommutes(Shifts(LowByte(x), 8), c >> 8);
  }

  function Drop(w: bv32, n: nat): bv32
    decreases n
  {
    if n == 0 then w else Drop(Half(w), n - 1)
  }

  function Even(w: bv32): bv32 { w & 0xFFFF_FFFE }

  lemma SplitOdd(c: bv32, w: bv32)
    requires Low(w)
    ensures Xor(c, w) == Xor(Xor(c, 1), Even(w))
  {
  }

  lemma SplitEven(c: bv32, w: bv32)
    requires !Low(w)
    ensures Xor(c, w) == Xor(Xor(c, 0), Even(w))
  {
  }

  lemma EvenShift(w: bv32)
    ensures Shift(Even(w)) == Half(w)
  {
  }

  /** Adding a word to the register and shifting n times is feeding its low n bits one by one, with the rest of the
      word still to come. */
  lemma {:induction false} FeedLowBits(c: bv32, w: bv32, n: nat)
    ensures Shifts(Xor(c, w), n) == Xor(Feed(c, LowBits(w, n)), Drop(w, n))
    decreases n
  {
    if n == 0 {
    } else {
      var b := Low(w);
      var c' := Shift(Xor(c, Bit(b)));
      hide Shift, Xor, Even, Half, Low;
      if b {
        SplitOdd(c, w);
      } else {
        SplitEven(c, w);
      }
      EvenShift(w);
      ShiftLinear(Xor(c, Bit(b)), Even(w));
      FeedLowBits(c', Half(w), n - 1);
      assert LowBits(w, n)[1..] == LowBits(Half(w), n - 1);
    }
  }

  function Sixteenth(w: bv32): bv32 { w >> 4 }

  lemma FourHalves(w: bv32)
    ensures Half(Half(Half(Half(w)))) == Sixteenth(w)
  {
  }

  lemma DropFour(w: bv32)
    ensures Drop(w, 4) == Sixteenth(w)
  {
    FourHalves(w);
    hide Half, Sixteenth;
  }

  lemma TwoSixteenths(w: bv32)
    ensures Sixteenth(Sixteenth(w)) == w >> 8
  {
  }

  lemma DropEight(w: bv32)
    ensures Drop(w, 8) == w >> 8
  {
    hide Half, Drop, Sixteenth;
    DropPlus(w, 4, 4);
    DropFour(w);
    DropFour(Sixteenth(w));
    TwoSixteenths(w);
  }

  /** Feeding the bits of a byte is the program's step for that byte. */
  lemma FeedByte(c: bv32, b: Byte)
    ensures Feed(c, Bits(b)) == ByteStep(c, b)
  {
    var w := b as bv32;
    assert w >> 8 == 0;
    hide Xor, Shift, Shifts, Feed, LowBits, Drop, ByteStep;
    FeedLowBits(c, w, 8);
    DropEight(w);
    XorZero(Feed(c, LowBits(w, 8)));
    ByteStepIsEightShifts(c, b);
  }

  lemma {:induction false} FeedConcat(c: bv32, a: seq<bool>, b: seq<bool>)
    ensures Feed(c, a + b) == Feed(Feed(c, a), b)
    decreases |a|
  {
    if a == [] {
      assert a + b == b;
    } else {
      assert (a + b)[1..] == a[1..] + b;
      FeedConcat(Shift(Xor(c, Bit(a[0]))), a[1..], b);
    }
  }

  lemma {:induction false} BitsOfConcat(a: seq<Byte>, b: seq<Byte>)
    ensures BitsOf(a + b) == BitsOf(a) + BitsOf(b)
  {
    if a == [] {
      assert a + b == b;
    } else {
      assert (a + b)[1..] == a[1..] + b;
      BitsOfConcat(a[1..], b);
    }
  }

  /** Appending a byte to the message is one more step. */
  lemma FeedAppend(c: bv32, data: seq<Byte>, b: Byte)
    ensures Feed(c, BitsOf(data + [b])) == ByteStep(Feed(c, BitsOf(data)), b)
  {
    BitsOfConcat(data, [b]);
    assert BitsOf([b]) == Bits(b);
    FeedConcat(c, BitsOf(data), Bits(b));
    FeedByte(Feed(c, BitsOf(data)), b);
  }

  /** The table entry at index i. */
  function Entry(i: nat): bv32
    requires i < 256
  {
    Shifts(i as bv32, 8)
  }

  lemma LowByteIndex(x: bv32)
    requires x < 256
    ensures x as int < 256
  {
  }

  lemma LowByteSmall(x: bv32)
    ensures LowByte(x) < 256
  {
  }

  /** Where the table is looked up: (crc ^ byte) & 0xFF. */
  function Index(x: bv32): (i: nat)
    ensures i < 256
  {
    LowByteSmall(x);
    LowByteIndex(LowByte(x));
    LowByte(x) as nat
  }

  lemma EntryOf(x: bv32)
    requires x as int < 256
    ensures Entry(x as int) == Shifts(x, 8)
  {
    hide Shifts;
  }

  lemma IndexedEntry(x: bv32)
    ensures Entry(Index(x)) == Shifts(LowByte(x), 8)
  {
    hide Shifts, LowByte, Entry;
    assert Index(x) == LowByte(x) as nat;
    EntryOf(LowByte(x));
  }

  class Crc32Table {
    var crcTable: array<bv32>
    var isInit: bool

    ghost predicate Valid()
      reads this, crcTable
    {
      crcTable.Length == 256 && (isInit ==> forall i: nat :: i < 256 ==> crcTable[i] == Entry(i))
    }

    constructor ()
      ensures Valid() && !isInit && fresh(crcTable)
    {
      crcTable := new bv32[256];
      isInit := false;
    }

    method GenerateCRCTable()
      requires Valid()
      modifies this, crcTable
      ensures Valid() && isInit && crcTable == old(crcTable)
    {
      hide Shifts;
      for i := 0 to 256
        invariant crcTable == old(crcTable) && crcTable.Length == 256
        invariant forall k: nat :: k < i ==> crcTable[k] == Entry(k)
      {
        var crc := Column(i as bv32);
        crcTable[i] := crc;
      }
      isInit := true;
    }

    static method Column(i: bv32) returns (crc: bv32)
      ensures crc == Shifts(i, 8)
    {
      crc := i;
      for j := 0 to 8
        invariant Shifts(crc, 8 - j) == Shifts(i, 8)
      {
        ghost var before := crc;
        if crc & 1 == 1 {
          crc := (crc >> 1) ^ 0xEDB88320;
        } else {
          crc := crc >> 1;
        }
        assert crc == Shift(before);
      }
    }

    method Step(crc: bv32, byte: Byte) returns (next: bv32)
      requires Valid() && isInit
      ensures next == ByteStep(crc, byte)
    {
      hide Shifts, Entry, Xor, LowByte, Index;
      var index := Index(Xor(crc, byte as bv32));
      IndexedEntry(Xor(crc, byte as bv32));
      next := Xor(crc >> 8, crcTable[index]);
    }

    /** crc after the bytes of data, given crc after those before. */
    method Run(crc0: bv32, data: seq<Byte>, ghost before: seq<Byte>) returns (crc: bv32)
      requires Valid() && isInit && crc0 == Feed(0xFFFF_FFFF, BitsOf(before))
      ensures crc == Feed(0xFFFF_FFFF, BitsOf(before + data))
    {
      hide ByteStep, Feed, BitsOf;
      crc := crc0;
      assert before + data[..0] == before;
      for i := 0 to |data|
        invariant crc == Feed(0xFFFF_FFFF, BitsOf(before + data[..i]))
      {
        crc := Step(crc, data[i]);
        FeedAppend(0xFFFF_FFFF, before + data[..i], data[i]);
        assert before + data[..i] + [data[i]] == before + data[..i + 1];
      }
      assert data[..|data|] == data;
    }

    method CalculateCRC32(data: seq<Byte>) returns (crc: bv32)
      requires Valid()
      modifies this, crcTable
      ensures Valid() && crc == Crc(data)
    {
      if !isInit {
        GenerateCRCTable();
      }
      assert [] + data == data;
      crc := Run(0xFFFF_FFFF, data, []);
      crc := crc ^ 0xFFFF_FFFF;
    }

    /** The file is read in blocks of 1024 bytes until a read falls short; what that read got comes last. */
    method RunFile(content: seq<Byte>) returns (crc: bv32)
      requires Valid() && isInit
      ensures crc == Feed(0xFFFF_FFFF, BitsOf(content))
    {
      hide Feed, BitsOf, Entry;
      FeedNothing(0xFFFF_FFFF);
      crc := 0xFFFF_FFFF;
      var file := SendFile.InFile(content, 0, true);
      ReadBlock(file);
      var (next, buffer) := file.Read(1024);
      file := next;
      ghost var done := [];
      while file.good
        invariant file.content == content && file.pos <= |content| && done + buffer == content[..file.pos]
        invariant !file.good ==> file.pos == |content|
        invariant crc == Feed(0xFFFF_FFFF, BitsOf(done))
        decreases |content| - file.pos, file.good
      {
        crc := Run(crc, buffer, done);
        done := done + buffer;
        ReadBlock(file);
        var (after, block) := file.Read(1024);
        assert content[..file.pos] + content[file.pos..after.pos] == content[..after.pos];
        file, buffer := after, block;
      }
      crc := Run(crc, buffer, done);
      assert done + buffer == content;
    }

    method CalculateFileCRC32(isOpen: bool, content: seq<Byte>) returns (crc: bv32)
      requires Valid()
      modifies this, crcTable
      ensures Valid() && crc == if isOpen then Crc(content) else 0
    {
      if !isInit {
        GenerateCRCTable();
      }
      if !isOpen {
        return 0;
      }
      crc := RunFile(content);
      crc := crc ^ 0xFFFF_FFFF;
    }
  }

  lemma ReadBlock(file: SendFile.InFile)
    requires file.good && file.pos <= |file.content|
    ensures var (next, block) := file.Read(1024);
      && next.content == file.content && file.pos <= next.pos <= |file.content|
      && block == file.content[file.pos..next.pos]
      && (next.good ==> next.pos == file.pos + 1024) && (!next.good ==> next.pos == |file.content|)
  {
  }

  lemma FeedNothing(c: bv32)
    ensures Feed(c, BitsOf([])) == c
  {
  }

  // A known checksum.

  lemma NextRegister(data: seq<Byte>, b: Byte, c: bv32, c': bv32)
    requires Feed(0xFFFF_FFFF, BitsOf(data)) == c
    requires c' == Xor(c >> 8, Shift(Shift(Shift(Shift(Shift(Shift(Shift(Shift(LowByte(Xor(c, b as bv32)))))))))))
    ensures Feed(0xFFFF_FFFF, BitsOf(data + [b])) == c'
  {
    hide Shift, Shifts, Feed, BitsOf, Xor, LowByte;
    EightShifts(LowByte(Xor(c, b as bv32)));
    FeedAppend(0xFFFF_FFFF, data, b);
  }

  /** The check value of this CRC: the checksum of the nine ASCII digits from 1 on. It pins the polynomial, the
      direction, the start value and the final inversion. */
  lemma CheckValue(digits: seq<Byte>)
    requires digits == [0x31, 0x32, 0x33, 0x34, 0x35, 0x36, 0x37, 0x38, 0x39]
    ensures Crc(digits) == 0xCBF4_3926
  {
    hide Feed, BitsOf;
    FeedNothing(0xFFFF_FFFF);
    assert digits[..0] == [];
    NextRegister(digits[..0], 0x31, 0xFFFF_FFFF, 0x7C23_1048);
    assert digits[..0] + [0x31] == digits[..1];
    NextRegister(digits[..1], 0x32, 0x7C23_1048, 0xB0AC_BB32);
    assert digits[..1] + [0x32] == digits[..2];
    NextRegister(digits[..2], 0x33, 0xB0AC_BB32, 0x77B7_9C2D);
    assert digits[..2] + [0x33] == digits[..3];
    NextRegister(digits[..3], 0x34, 0x77B7_9C2D, 0x641C_1F5C);
    assert digits[..3] + [0x34] == digits[..4];
    NextRegister(digits[..4], 0x35, 0x641C_1F5C, 0x340A_C5E3);
    assert digits[..4] + [0x35] == digits[..5];
    NextRegister(digits[..5], 0x36, 0x340A_C5E3, 0xF68D_2C9E);
    assert digits[..5] + [0x36] == digits[..6];
    NextRegister(digits[..6], 0x37, 0xF68D_2C9E, 0xAFFC_9660);
    assert digits[..6] + [0x37] == digits[..7];
    NextRegister(digits[..7], 0x38, 0xAFFC_9660, 0x651F_2550);
    assert digits[..7] + [0x38] == digits[..8];
    NextRegister(digits[..8], 0x39, 0x651F_2550, 0x340B_C6D9);
    assert digits[..8] + [0x39] == digits[..9];
    assert digits[..9] == digits;
  }

  // What the checksum detects.

  function Differences(x: seq<bool>, y: seq<bool>): (z: seq<bool>)
    requires |x| == |y|
    ensures |z| == |x| && (x == y <==> true !in z)
  {
    if x == [] then [] else
      var z := [x[0] != y[0]] + Differences(x[1..], y[1..]);
      assert x == [x[0]] + x[1..] && y == [y[0]] + y[1..];
      z
  }

  lemma Regroup(c: bv32, d: bv32, x: bool, y: bool)
    ensures Xor(Xor(c, d), Bit(x != y)) == Xor(Xor(c, Bit(x)), Xor(d, Bit(y)))
  {
    assert Bit(x != y) == Xor(Bit(x), Bit(y));
    hide Xor, Bit;
    XorFour(c, d, Bit(x), Bit(y));
  }

  /** The register depends linearly on its start and on the message. */
  lemma {:induction false} FeedLinear(c: bv32, d: bv32, x: seq<bool>, y: seq<bool>)
    requires |x| == |y|
    ensures Feed(Xor(c, d), Differences(x, y)) == Xor(Feed(c, x), Feed(d, y))
    decreases |x|
  {
    hide Xor, Shift;
    if x == [] {
    } else {
      Regroup(c, d, x[0], y[0]);
      ShiftLinear(Xor(c, Bit(x[0])), Xor(d, Bit(y[0])));
      FeedLinear(Shift(Xor(c, Bit(x[0]))), Shift(Xor(d, Bit(y[0]))), x[1..], y[1..]);
      assert Differences(x, y)[1..] == Differences(x[1..], y[1..]);
    }
  }

  lemma ShiftToZero(v: bv32)
    requires Shift(v) == 0
    ensures v == 0
  {
  }

  /** Nothing that follows equally in both messages can undo a difference in the register. */
  lemma {:induction false} FeedInjective(c: bv32, d: bv32, s: seq<bool>)
    requires Feed(c, s) == Feed(d, s)
    ensures c == d
    decreases |s|
  {
    hide Xor, Shift;
    if s == [] {
    } else {
      var b := Bit(s[0]);
      FeedInjective(Shift(Xor(c, b)), Shift(Xor(d, b)), s[1..]);
      ShiftLinear(Xor(c, b), Xor(d, b));
      XorSelf(Shift(Xor(c, b)), 0);
      ShiftToZero(Xor(Xor(c, b), Xor(d, b)));
      XorSelf(Xor(c, b), Xor(d, b));
      Unxor(c, d, b);
    }
  }

  lemma Unxor(c: bv32, d: bv32, b: bv32)
    requires Xor(c, b) == Xor(d, b)
    ensures c == d
  {
  }

  lemma {:induction false} DropPlus(w: bv32, m: nat, n: nat)
    ensures Drop(w, m + n) == Drop(Drop(w, m), n)
    decreases m
  {
    hide Half;
    if m == 0 {
    } else {
      DropPlus(Half(w), m - 1, n);
    }
  }

  lemma {:induction false} DropOfZero(n: nat)
    ensures Drop(0, n) == 0
  {
    if n == 0 {
    } else {
      DropOfZero(n - 1);
    }
  }

  predicate Top(v: bv32) { v & 0x8000_0000 == 0x8000_0000 }

  lemma TopDropped(m: nat)
    requires m <= 31
    ensures Drop(0x8000_0000, m) != 0
  {
    hide Half, Drop;
    DropEight(0x8000_0000);
    DropPlus(0x8000_0000, 8, 8);
    DropEight(0x80_0000);
    DropPlus(0x8000_0000, 16, 8);
    DropEight(0x8000);
    DropPlus(0x8000_0000, 24, 4);
    DropFour(0x80);
    DropPlus(0x8000_0000, 28, 3);
    DropThree();
    DropPlus(0x8000_0000, m, 31 - m);
    DropOfZero(31 - m);
  }

  lemma DropThree()
    ensures Drop(8, 3) == 1
  {
    assert Half(8) == 4 && Half(4) == 2 && Half(2) == 1;
    hide Half;
  }

  /** v has every bit of t. */
  predicate Has(v: bv32, t: bv32) { v & t == t }

  lemma HalfMask(v: bv32, t: bv32)
    requires Has(v, t)
    ensures Has(Half(v), Half(t)) && (t != 0 ==> v != 0)
  {
  }

  lemma {:induction false} BitSurvives(v: bv32, t: bv32, m: nat)
    requires Has(v, t) && Drop(t, m) != 0
    ensures Drop(v, m) != 0
    decreases m
  {
    hide Has, Half;
    HalfMask(v, t);
    if m == 0 {
    } else {
      BitSurvives(Half(v), Half(t), m - 1);
    }
  }

  lemma TopSurvives(v: bv32, m: nat)
    requires Top(v) && m <= 31
    ensures Drop(v, m) != 0
  {
    TopDropped(m);
    BitSurvives(v, 0x8000_0000, m);
  }

  lemma OneStepBack(w: bv32, b: bool)
    ensures var v := Shift(Xor(w, Bit(b))); v == Half(w) || Top(v)
  {
  }

  /** A register that n bits bring to zero holds at most n bits. */
  lemma {:induction false} ReachesZero(w: bv32, z: seq<bool>)
    requires |z| <= 32 && Feed(w, z) == 0
    ensures Drop(w, |z|) == 0
    decreases |z|
  {
    hide Xor, Shift, Top, Bit, Half;
    if z == [] {
    } else {
      var v := Shift(Xor(w, Bit(z[0])));
      ReachesZero(v, z[1..]);
      OneStepBack(w, z[0]);
      if v != Half(w) {
        TopSurvives(v, |z| - 1);
      }
    }
  }

  lemma FirstBit()
    ensures Top(Shift(Xor(0, Bit(true)))) && Shift(Xor(0, Bit(false))) == 0
  {
  }

  /** Up to 32 bits, not all zero, leave a mark on a zero register. */
  lemma {:induction false} BurstLeavesMark(z: seq<bool>)
    requires |z| <= 32 && true in z
    ensures Feed(0, z) != 0
    decreases |z|
  {
    hide Xor, Shift, Top, Bit, Half;
    FirstBit();
    if z[0] {
      var v := Shift(Xor(0, Bit(true)));
      TopSurvives(v, |z| - 1);
      if Feed(v, z[1..]) == 0 {
        ReachesZero(v, z[1..]);
      }
    } else {
      BurstLeavesMark(z[1..]);
    }
  }

  /** Two messages that agree except for a stretch of at most 32 bits leave different registers. */
  lemma FeedDetectsBurst(c: bv32, p: seq<bool>, x: seq<bool>, y: seq<bool>, s: seq<bool>)
    requires |x| == |y| <= 32 && x != y
    ensures Feed(c, p + x + s) != Feed(c, p + y + s)
  {
    hide Xor, Feed;
    FeedConcat(c, p + x, s);
    FeedConcat(c, p + y, s);
    FeedConcat(c, p, x);
    FeedConcat(c, p, y);
    var d := Feed(c, p);
    FeedLinear(d, d, x, y);
    BurstLeavesMark(Differences(x, y));
    XorSelf(d, d);
    XorSelf(Feed(d, x), Feed(d, x));
    if Feed(c, p + x + s) == Feed(c, p + y + s) {
      FeedInjective(Feed(d, x), Feed(d, y), s);
    }
  }

  lemma {:induction false} LowBitsInjective(v: bv32, w: bv32, n: nat)
    requires LowBits(v, n) == LowBits(w, n) && Drop(v, n) == Drop(w, n)
    ensures v == w
    decreases n
  {
    if n == 0 {
    } else {
      hide Half, Low;
      assert LowBits(v, n)[0] == LowBits(w, n)[0];
      assert LowBits(v, n)[1..] == LowBits(w, n)[1..];
      LowBitsInjective(Half(v), Half(w), n - 1);
      SameHalves(v, w);
    }
  }

  lemma SameHalves(v: bv32, w: bv32)
    requires Half(v) == Half(w) && (Low(v) <==> Low(w))
    ensures v == w
  {
  }

  lemma BitsInjective(a: Byte, b: Byte)
    requires Bits(a) == Bits(b)
    ensures a == b
  {
    DropEight(a as bv32);
    DropEight(b as bv32);
    assert (a as bv32) >> 8 == 0 == (b as bv32) >> 8;
    LowBitsInjective(a as bv32, b as bv32, 8);
  }

  lemma {:induction false} BitsOfInjective(a: seq<Byte>, b: seq<Byte>)
    requires |a| == |b| && BitsOf(a) == BitsOf(b)
    ensures a == b
  {
    hide Bits;
    if a == [] {
    } else {
      assert BitsOf(a) == Bits(a[0]) + BitsOf(a[1..]) && BitsOf(b) == Bits(b[0]) + BitsOf(b[1..]);
      assert BitsOf(a)[..8] == Bits(a[0]) && BitsOf(b)[..8] == Bits(b[0]);
      assert BitsOf(a)[8..] == BitsOf(a[1..]) && BitsOf(b)[8..] == BitsOf(b[1..]);
      BitsInjective(a[0], b[0]);
      BitsOfInjective(a[1..], b[1..]);
      assert a == [a[0]] + a[1..] && b == [b[0]] + b[1..];
    }
  }

  lemma {:induction false} BitsOfLength(a: seq<Byte>)
    ensures |BitsOf(a)| == 8 * |a|
  {
    if a == [] {
    } else {
      BitsOfLength(a[1..]);
    }
  }

  lemma FeedDetectsWindow(c: bv32, x: seq<bool>, y: seq<bool>, i: nat)
    requires |x| == |y| && x != y && forall j :: 0 <= j < |x| && !(i <= j < i + 32) ==> x[j] == y[j]
    ensures Feed(c, x) != Feed(c, y)
  {
    hide Feed;
    var lo := if i < |x| then i else |x|;
    var hi := if i + 32 < |x| then i + 32 else |x|;
    assert x == x[..lo] + x[lo..hi] + x[hi..] && y == y[..lo] + y[lo..hi] + y[hi..];
    assert x[..lo] == y[..lo] && x[hi..] == y[hi..];
    FeedDetectsBurst(c, x[..lo], x[lo..hi], y[lo..hi], x[hi..]);
  }

  /** Error detection: if two different messages of the same length agree on every bit outside some stretch of 32
      consecutive bits, wherever it starts, their checksums differ. */
  lemma DetectsBurst(a: seq<Byte>, b: seq<Byte>, i: nat)
    requires |a| == |b| && a != b
    requires forall j :: 0 <= j < |BitsOf(a)| && j < |BitsOf(b)| && !(i <= j < i + 32) ==> BitsOf(a)[j] == BitsOf(b)[j]
    ensures Crc(a) != Crc(b)
  {
    hide Xor, Feed, BitsOf;
    BitsOfLength(a);
    BitsOfLength(b);
    if BitsOf(a) == BitsOf(b) {
      BitsOfInjective(a, b);
    }
    FeedDetectsWindow(0xFFFF_FFFF, BitsOf(a), BitsOf(b), i);
    if Crc(a) == Crc(b) {
      Unxor(Feed(0xFFFF_FFFF, BitsOf(a)), Feed(0xFFFF_FFFF, BitsOf(b)), 0xFFFF_FFFF);
    }
  }

  /** In particular, any change confined to four consecutive bytes is detected. */
  lemma DetectsFourBytes(p: seq<Byte>, x: seq<Byte>, y: seq<Byte>, s: seq<Byte>)
    requires |x| == |y| <= 4 && x != y
    ensures Crc(p + x + s) != Crc(p + y + s)
  {
    var a, b := p + x + s, p + y + s;
    BitsOfConcat(p + x, s);
    BitsOfConcat(p + y, s);
    BitsOfConcat(p, x);
    BitsOfConcat(p, y);
    BitsOfLength(p);
    BitsOfLength(x);
    BitsOfLength(y);
    assert a[|p|..|p| + |x|] == x && b[|p|..|p| + |x|] == y;
    hide BitsOf, Crc;
    DetectsBurst(a, b, 8 * |p|);
  }
}
