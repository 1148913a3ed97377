/** The SM15135E wire format of HalSpiSm15135e.cpp: the bits of a pixel, the line code that turns
    each bit into a nibble, and the receiver that undoes both. */
module Sm15135eFrame {
  import opened Machine
  import opened BitStrings

  /** The chip's registers as the driver stores them. */
  datatype Pixel = Pixel(
    r: uint16, g: uint16, b: uint16, w: uint16, y: uint16,
    gainR: uint8, gainG: uint8, gainB: uint8, gainW: uint8, gainY: uint8,
    standby: uint8, reserve: uint8)

  const FRAME_BYTES := 56
  const RESET_BYTES := 128

  // ---------------------------------------------------------------- the data sheet's layout

  /** The five grey channels, 16 bits each. */
  function GrayFields(p: Pixel): seq<Field> {
    [Field(p.r, 16), Field(p.g, 16), Field(p.b, 16), Field(p.w, 16), Field(p.y, 16)]
  }

  function GainFields(p: Pixel): seq<Field> {
    [Field(p.gainR % 32, 5), Field(p.gainG % 32, 5), Field(p.gainB % 32, 5), Field(p.gainW % 32, 5),
     Field(p.gainY % 32, 5)]
  }

  /** Five gains of 5 bits, the mode in 2 bits and the reserve in 5. */
  function ModeFields(p: Pixel): seq<Field> {
    GainFields(p) + ([Field(p.standby % 4, 2)] + [Field(p.reserve % 32, 5)])
  }

  function FrameFields(p: Pixel): seq<Field> {
    GrayFields(p) + ModeFields(p)
  }

  const FIELD_WIDTHS: seq<nat> := [16, 16, 16, 16, 16, 5, 5, 5, 5, 5, 2, 5]

  function FrameBits(p: Pixel): seq<bool> {
    Pack(FrameFields(p))
  }

  lemma FrameLength(p: Pixel)
    ensures |Pack(GrayFields(p))| == 80 && |Pack(ModeFields(p))| == 32 && |FrameBits(p)| == 112
    ensures FrameBits(p) == Pack(GrayFields(p)) + Pack(ModeFields(p))
  {
    PackJoin(GrayFields(p), ModeFields(p));
    PackJoin(GainFields(p), [Field(p.standby % 4, 2)] + [Field(p.reserve % 32, 5)]);
    PackJoin([Field(p.standby % 4, 2)], [Field(p.reserve % 32, 5)]);
    PackLength(GrayFields(p), 16);
    PackLength(GainFields(p), 5);
    PackLength([Field(p.standby % 4, 2)], 2);
    PackLength([Field(p.reserve % 32, 5)], 5);
  }

  // ---------------------------------------------------------------- the line code

  /** A 0 goes out as 1000, a 1 as 1110. */
  function Symbol(bit: bool): (nibble: seq<bool>)
    ensures |nibble| == 4
  {
    [true, bit, bit, false]
  }

  function Symbols(bits: seq<bool>): (line: seq<bool>)
    ensures |line| == 4 * |bits|
  {
    seq(4 * |bits|, i requires 0 <= i < 4 * |bits| => Symbol(bits[i / 4])[i % 4])
  }

  /** The driver's table for two bits. */
  function PackSpiByte(high: bool, low: bool): uint8 {
    if high then if low then 0xEE else 0xE8
    else if low then 0x8E else 0x88
  }

  /** The frame two bits at a time. */
  function PackBits(bits: seq<bool>): (bytes: seq<uint8>)
    requires |bits| % 2 == 0
    ensures |bytes| == |bits| / 2
  {
    seq(|bits| / 2, i requires 0 <= i < |bits| / 2 => PackSpiByte(bits[2 * i], bits[2 * i + 1]))
  }

  lemma PackBitsJoin(a: seq<bool>, b: seq<bool>)
    requires |a| % 2 == 0 && |b| % 2 == 0
    ensures PackBits(a + b) == PackBits(a) + PackBits(b)
  {
  }

  function Encode(p: Pixel): (bytes: seq<uint8>)
    ensures |bytes| == FRAME_BYTES
  {
    FrameLength(p);
    PackBits(FrameBits(p))
  }

  function ByteFields(bytes: seq<uint8>): seq<Field> {
    seq(|bytes|, i requires 0 <= i < |bytes| => Field(bytes[i], 8))
  }

  /** What is on the line for a sequence of bytes, most significant bit of each first. */
  function LineBits(bytes: seq<uint8>): seq<bool> {
    Pack(ByteFields(bytes))
  }

  // ---------------------------------------------------------------- the receiver

  /** 1000 or 1110. */
  predicate IsSymbol(line: seq<bool>, i: nat)
    requires i + 4 <= |line|
  {
    line[i] && line[i + 1] == line[i + 2] && !line[i + 3]
  }

  predicate IsLineCode(line: seq<bool>) {
    |line| % 4 == 0 && forall k :: 0 <= k < |line| / 4 ==> IsSymbol(line, 4 * k)
  }

  /** Reads symbols back; anything else on the line is rejected. */
  function ReadSymbols(line: seq<bool>): Option<seq<bool>> {
    if IsLineCode(line) then
      Some(seq(|line| / 4, k requires 0 <= k < |line| / 4 => line[4 * k + 1]))
    else None
  }

  function FromValues(v: seq<nat>): Option<Pixel>
    requires |v| == 12
  {
    if (forall i :: 0 <= i < 5 ==> v[i] < WORD16) && (forall i :: 5 <= i < 12 ==> v[i] < WORD8)
    then Some(Pixel(v[0], v[1], v[2], v[3], v[4], v[5], v[6], v[7], v[8], v[9], v[10], v[11]))
    else None
  }

  function ParseFrame(bits: seq<bool>): Option<Pixel> {
    FromValues(Unpack(FIELD_WIDTHS, bits))
  }

  /** What a chip makes of one transmission: a pixel, or nothing it recognises as a frame. */
  function Receive(bytes: seq<uint8>): Option<Pixel> {
    if |bytes| != FRAME_BYTES then None else
    match ReadSymbols(LineBits(bytes))
    case None => None
    case Some(bits) => ParseFrame(bits)
  }

  /** The part of a pixel that fits its fields. */
  function Masked(p: Pixel): Pixel {
    p.(gainR := p.gainR % 32, gainG := p.gainG % 32, gainB := p.gainB % 32, gainW := p.gainW % 32,
       gainY := p.gainY % 32, standby := p.standby % 4, reserve := p.reserve % 32)
  }

  // ---------------------------------------------------------------- the line code is what the table says

  function Nibble(bit: bool): nat {
    if bit then 0xE else 0x8
  }

  lemma NibbleIsSymbol(bit: bool)
    ensures Bits(Nibble(bit), 4) == Symbol(bit)
  {
    assert Bits(0x8, 4) == [true, false, false, false];
    assert Bits(0xE, 4) == [true, true, true, false];
  }

  lemma PackedByteIsTwoSymbols(high: bool, low: bool)
    ensures Bits(PackSpiByte(high, low), 8) == Symbol(high) + Symbol(low)
  {
    assert Pow2(4) == 16;
    BitsOfJoined(Nibble(high), Nibble(low), 4, 4);
    NibbleIsSymbol(high);
    NibbleIsSymbol(low);
  }

  lemma SymbolsHead(a: seq<bool>, b: seq<bool>, i: nat)
    requires i < 4 * |a|
    ensures Symbols(a + b)[i] == Symbols(a)[i]
  {
    assert (a + b)[i / 4] == a[i / 4];
  }

  lemma SymbolsTail(a: seq<bool>, b: seq<bool>, i: nat)
    requires i < 4 * |b|
    ensures Symbols(a + b)[4 * |a| + i] == Symbols(b)[i]
  {
    assert (4 * |a| + i) / 4 == |a| + i / 4 && (4 * |a| + i) % 4 == i % 4;
    assert (a + b)[|a| + i / 4] == b[i / 4];
  }

  lemma SymbolsJoinAt(a: seq<bool>, b: seq<bool>, i: nat)
    requires i < 4 * |a| + 4 * |b|
    ensures Symbols(a + b)[i] == (Symbols(a) + Symbols(b))[i]
  {
    if i < 4 * |a| {
      SymbolsHead(a, b, i);
    } else {
      SymbolsTail(a, b, i - 4 * |a|);
    }
  }

  lemma SymbolsJoin(a: seq<bool>, b: seq<bool>)
    ensures Symbols(a + b) == Symbols(a) + Symbols(b)
  {
    forall i: nat | i < 4 * |a| + 4 * |b| ensures Symbols(a + b)[i] == (Symbols(a) + Symbols(b))[i] {
      SymbolsJoinAt(a, b, i);
    }
  }

  lemma LineBitsJoin(a: seq<uint8>, b: seq<uint8>)
    ensures LineBits(a + b) == LineBits(a) + LineBits(b)
  {
    assert ByteFields(a + b) == ByteFields(a) + ByteFields(b);
    PackJoin(ByteFields(a), ByteFields(b));
  }

  lemma OneByteOnLine(high: bool, low: bool)
    ensures LineBits([PackSpiByte(high, low)]) == Symbols([high, low])
  {
    PackedByteIsTwoSymbols(high, low);
    var byte := Field(PackSpiByte(high, low), 8);
    assert ByteFields([PackSpiByte(high, low)]) == [byte];
    assert Pack([byte]) == Bits(byte.value, 8) + Pack([byte][1..]);
    assert Symbols([high, low]) == Symbol(high) + Symbol(low);
  }

  lemma PackBitsSplit(bits: seq<bool>)
    requires |bits| % 2 == 0 && bits != []
    ensures PackBits(bits) == [PackSpiByte(bits[0], bits[1])] + PackBits(bits[2..])
  {
  }

  /** The bytes of a frame are, bit for bit, the symbols of its bits. */
  lemma {:induction false} PackedBitsAreSymbols(bits: seq<bool>)
    requires |bits| % 2 == 0
    ensures LineBits(PackBits(bits)) == Symbols(bits)
    decreases |bits|
  {
    if bits != [] {
      var first, rest := bits[..2], bits[2..];
      PackedBitsAreSymbols(rest);
      OneByteOnLine(bits[0], bits[1]);
      assert first == [bits[0], bits[1]] && bits == first + rest;
      PackBitsSplit(bits);
      LineBitsJoin([PackSpiByte(bits[0], bits[1])], PackBits(rest));
      SymbolsJoin(first, rest);
    }
  }

  // ---------------------------------------------------------------- round trip

  lemma SymbolAt(bits: seq<bool>, k: nat)
    requires k < |bits|
    ensures IsSymbol(Symbols(bits), 4 * k) && Symbols(bits)[4 * k + 1] == bits[k]
  {
    var line := Symbols(bits);
    forall j | 0 <= j < 4 ensures line[4 * k + j] == Symbol(bits[k])[j] {
      assert (4 * k + j) / 4 == k && (4 * k + j) % 4 == j;
    }
    assert line[4 * k] == Symbol(bits[k])[0] && line[4 * k + 1] == Symbol(bits[k])[1];
    assert line[4 * k + 2] == Symbol(bits[k])[2] && line[4 * k + 3] == Symbol(bits[k])[3];
  }

  lemma SymbolsAreCode(bits: seq<bool>)
    ensures IsLineCode(Symbols(bits))
  {
    var line := Symbols(bits);
    assert |line| % 4 == 0 && |line| / 4 == |bits|;
    forall k | 0 <= k < |line| / 4 ensures IsSymbol(line, 4 * k) {
      SymbolAt(bits, k);
    }
  }

  lemma SymbolsReadBack(bits: seq<bool>)
    ensures ReadSymbols(Symbols(bits)) == Some(bits)
  {
    var line := Symbols(bits);
    SymbolsAreCode(bits);
    var read := ReadSymbols(line).value;
    assert |read| == |bits|;
    forall k | 0 <= k < |bits| ensures read[k] == bits[k] {
      SymbolAt(bits, k);
      assert read[k] == line[4 * k + 1];
    }
    assert read == bits;
  }

  lemma FrameFit(p: Pixel)
    ensures Fits(FrameFields(p)) && Widths(FrameFields(p)) == FIELD_WIDTHS
  {
    assert Pow2(2) == 4 && Pow2(5) == 32;
    assert Pow2(16) == 0x1_0000;
    assert FrameFields(p) == GrayFields(p) + ModeFields(p);
  }

  lemma FrameValues(p: Pixel)
    ensures FromValues(Values(FrameFields(p))) == Some(Masked(p))
  {
    var fields, v := FrameFields(p), Values(FrameFields(p));
    assert fields[..5] == GrayFields(p) && fields[5..10] == GainFields(p);
    assert v[0] == p.r && v[1] == p.g && v[2] == p.b && v[3] == p.w && v[4] == p.y;
    assert v[5] == p.gainR % 32 && v[6] == p.gainG % 32 && v[7] == p.gainB % 32 && v[8] == p.gainW % 32;
    assert v[9] == p.gainY % 32 && v[10] == p.standby % 4 && v[11] == p.reserve % 32;
  }

  lemma FrameParsesBack(p: Pixel)
    ensures ParseFrame(FrameBits(p)) == Some(Masked(p))
  {
    FrameFit(p);
    UnpackInvertsPack(FrameFields(p));
    FrameValues(p);
  }

  /** A chip recovers every field of every pixel, as far as the fields are wide. */
  lemma FrameRoundTrip(p: Pixel)
    ensures Receive(Encode(p)) == Some(Masked(p))
  {
    FrameLength(p);
    PackedBitsAreSymbols(FrameBits(p));
    SymbolsReadBack(FrameBits(p));
    FrameParsesBack(p);
  }

  // ---------------------------------------------------------------- frames and resets

  predicate ZerosFrom(line: seq<bool>, i: nat, n: nat)
    requires i + n <= |line|
  {
    forall j :: i <= j < i + n ==> !line[j]
  }

  predicate HasZeroRun(line: seq<bool>, n: nat) {
    exists i :: 0 <= i <= |line| - n && ZerosFrom(line, i, n)
  }

  lemma SymbolsHaveNoLongZeroRun(bits: seq<bool>)
    ensures !HasZeroRun(Symbols(bits), 4)
  {
    var line := Symbols(bits);
    forall i | 0 <= i <= |line| - 4 ensures !ZerosFrom(line, i, 4) {
      var start := 4 * ((i + 3) / 4);
      assert start % 4 == 0 && i <= start < i + 4;
      assert line[start];
    }
  }

  /** Frames sent back to back. */
  function Stream(pixels: seq<Pixel>): seq<uint8>
    decreases |pixels|
  {
    if pixels == [] then [] else Encode(pixels[0]) + Stream(pixels[1..])
  }

  function StreamBits(pixels: seq<Pixel>): seq<bool>
    decreases |pixels|
  {
    if pixels == [] then [] else FrameBits(pixels[0]) + StreamBits(pixels[1..])
  }

  lemma {:induction false} StreamIsSymbols(pixels: seq<Pixel>)
    ensures LineBits(Stream(pixels)) == Symbols(StreamBits(pixels))
    decreases |pixels|
  {
    if pixels != [] {
      StreamIsSymbols(pixels[1..]);
      FrameLength(pixels[0]);
      PackedBitsAreSymbols(FrameBits(pixels[0]));
      LineBitsJoin(Encode(pixels[0]), Stream(pixels[1..]));
      SymbolsJoin(FrameBits(pixels[0]), StreamBits(pixels[1..]));
    }
  }

  function ResetBytes(): seq<uint8> {
    seq(RESET_BYTES, _ => 0)
  }

  /** No sequence of frames, however long, holds more than three zeros in a row; a reset is 1024
      of them, and no chip takes it for a frame. */
  lemma FramesNeverLookLikeReset(pixels: seq<Pixel>)
    ensures !HasZeroRun(LineBits(Stream(pixels)), 4)
    ensures |LineBits(ResetBytes())| == 1024 && ZerosFrom(LineBits(ResetBytes()), 0, 1024)
    ensures Receive(ResetBytes()) == None
  {
    StreamIsSymbols(pixels);
    SymbolsHaveNoLongZeroRun(StreamBits(pixels));
    ZeroFields(ByteFields(ResetBytes()));
    PackLength(ByteFields(ResetBytes()), 8);
  }
}
