/** HalSpiSm15135e: the driver that stores a pixel and encodes it in place into its frame buffer. */
module HalSpiObject {
  import opened Machine
  import opened BitStrings
  import opened Sm15135eFrame
  import opened MainLightModel

  // ---------------------------------------------------------------- bit-field reads

  /** Four line bytes for bits `top` down to `top - 7` of a word. */
  function EightBits(word: nat, top: nat): seq<uint8>
    requires top >= 7
  {
    [PackSpiByte(Bit(word, top), Bit(word, top - 1)), PackSpiByte(Bit(word, top - 2), Bit(word, top - 3)),
     PackSpiByte(Bit(word, top - 4), Bit(word, top - 5)), PackSpiByte(Bit(word, top - 6), Bit(word, top - 7))]
  }

  function SixteenBits(word: nat, top: nat): seq<uint8>
    requires top >= 15
  {
    EightBits(word, top) + EightBits(word, top - 8)
  }

  lemma PackedPair(word: nat, n: nat, i: nat)
    requires n % 2 == 0 && i < n / 2
    ensures PackBits(Bits(word, n))[i] == PackSpiByte(Bit(word, n - 1 - 2 * i), Bit(word, n - 2 - 2 * i))
  {
    BitsReadByField(word, n, 2 * i);
    BitsReadByField(word, n, 2 * i + 1);
  }

  lemma EightBitsAt(word: nat, top: nat, i: nat)
    requires top >= 7 && i < 4
    ensures EightBits(word, top)[i] == PackSpiByte(Bit(word, top - 2 * i), Bit(word, top - 1 - 2 * i))
  {
  }

  lemma SixteenBitsAt(word: nat, top: nat, i: nat)
    requires top >= 15 && i < 8
    ensures SixteenBits(word, top)[i] == PackSpiByte(Bit(word, top - 2 * i), Bit(word, top - 1 - 2 * i))
  {
    if i < 4 {
      EightBitsAt(word, top, i);
    } else {
      EightBitsAt(word, top - 8, i - 4);
    }
  }

  /** Read by bit fields from the top, sixteen bits come out as the eight bytes of that part of
      the bit string. */
  lemma SixteenBitsEncoded(word: nat, n: nat, at: nat)
    requires n % 2 == 0 && at + 8 <= n / 2
    ensures SixteenBits(word, n - 1 - 2 * at) == PackBits(Bits(word, n))[at..at + 8]
  {
    var bytes, line := SixteenBits(word, n - 1 - 2 * at), PackBits(Bits(word, n));
    forall i: nat | i < 8 ensures bytes[i] == line[at + i] {
      SixteenBitsAt(word, n - 1 - 2 * at, i);
      PackedPair(word, n, at + i);
    }
  }

  lemma HalfWordBytes(word: nat)
    ensures SixteenBits(word, 15) == PackBits(Bits(word, 16))
  {
    SixteenBitsEncoded(word, 16, 0);
  }

  lemma WordBytes(word: nat)
    ensures SixteenBits(word, 31) + SixteenBits(word, 15) == PackBits(Bits(word, 32))
  {
    SixteenBitsEncoded(word, 32, 0);
    SixteenBitsEncoded(word, 32, 8);
  }

  // ---------------------------------------------------------------- the 32-bit mode word

  /** `static_cast<uint32_t>(v) << n` for `n` up to 31. */
  function Shifted(v: uint8, n: nat): uint32 {
    Word32(v * Pow2(n))
  }

  /** The fields written one below the other as one number. */
  function Joined(high: nat, fields: seq<Field>): nat
    decreases |fields|
  {
    if fields == [] then high else Joined(high * Pow2(fields[0].width) + fields[0].value, fields[1..])
  }

  function TotalWidth(fields: seq<Field>): nat
    decreases |fields|
  {
    if fields == [] then 0 else fields[0].width + TotalWidth(fields[1..])
  }

  lemma JoinedBitsOnce(high: nat, m: nat, f: Field, packed: seq<bool>)
    requires f.value < Pow2(f.width)
    ensures Bits(high * Pow2(f.width) + f.value, m + f.width) + packed
         == Bits(high, m) + (Bits(f.value, f.width) + packed)
  {
    BitsOfJoined(high, f.value, m, f.width);
  }

  lemma {:induction false} JoinedBits(high: nat, m: nat, fields: seq<Field>)
    requires Fits(fields)
    ensures Bits(Joined(high, fields), m + TotalWidth(fields)) == Bits(high, m) + Pack(fields)
    decreases |fields|
  {
    if fields == [] {
      assert Bits(high, m) + [] == Bits(high, m);
    } else {
      var f, rest := fields[0], fields[1..];
      var next := high * Pow2(f.width) + f.value;
      JoinedBits(next, m + f.width, rest);
      JoinedBitsOnce(high, m, f, Pack(rest));
      assert Joined(high, fields) == Joined(next, rest);
      assert m + TotalWidth(fields) == (m + f.width) + TotalWidth(rest);
    }
  }

  lemma PowersOfTwo()
    ensures Pow2(2) == 4 && Pow2(5) == 32 && Pow2(7) == 128 && Pow2(12) == 4096
    ensures Pow2(17) == 131072 && Pow2(22) == 4194304 && Pow2(27) == 134217728
  {
  }

  /** A field ORed in below what is there adds to it. */
  lemma OrField(pack: nat, high: nat, v: nat, n: nat, above: nat)
    requires pack == high * Pow2(above) && v * Pow2(n) < Pow2(above)
    ensures Or(pack, v * Pow2(n)) == pack + v * Pow2(n)
  {
    OrOfDisjoint(high, v * Pow2(n), above);
  }

  lemma JoinedStep(high: nat, fields: seq<Field>, rest: seq<Field>)
    requires fields != []
    ensures var f := fields[0];
            Joined(high, fields + rest) == Joined(high * Pow2(f.width) + f.value, fields[1..] + rest)
  {
    assert (fields + rest)[0] == fields[0] && (fields + rest)[1..] == fields[1..] + rest;
  }

  lemma JoinedGain(high: nat, fields: seq<Field>, rest: seq<Field>)
    requires fields != [] && fields[0].width == 5
    ensures Joined(high, fields + rest) == Joined(high * 32 + fields[0].value, fields[1..] + rest)
  {
    PowersOfTwo();
    JoinedStep(high, fields, rest);
  }

  lemma JoinedFive(f: seq<Field>, rest: seq<Field>)
    requires |f| == 5 && forall i :: 0 <= i < 5 ==> f[i].width == 5
    ensures Joined(0, f + rest)
         == Joined((((f[0].value * 32 + f[1].value) * 32 + f[2].value) * 32 + f[3].value) * 32 + f[4].value, rest)
  {
    var h2 := f[0].value * 32 + f[1].value;
    var h3 := h2 * 32 + f[2].value;
    var h4 := h3 * 32 + f[3].value;
    assert f[1..][1..] == f[2..] && f[2..][1..] == f[3..] && f[3..][1..] == f[4..];
    assert f[4..][1..] + rest == rest;
    JoinedGain(0, f, rest);
    JoinedGain(f[0].value, f[1..], rest);
    JoinedGain(h2, f[2..], rest);
    JoinedGain(h3, f[3..], rest);
    JoinedGain(h4, f[4..], rest);
  }

  lemma JoinedTwo(high: nat, a: nat, b: nat)
    ensures Joined(high, [Field(a, 2)] + [Field(b, 5)]) == (high * 4 + a) * 32 + b
  {
    PowersOfTwo();
    JoinedStep(high, [Field(a, 2)], [Field(b, 5)]);
    JoinedStep(high * 4 + a, [Field(b, 5)], []);
    assert [Field(a, 2)][1..] + [Field(b, 5)] == [Field(b, 5)] == [Field(b, 5)] + [];
    assert [Field(b, 5)][1..] + [] == [];
  }

  /** Five gains, mode and reserve as one 32-bit number. */
  function ModeNumber(p: Pixel): nat {
    ((((((p.gainR % 32) * 32 + p.gainG % 32) * 32 + p.gainB % 32) * 32 + p.gainW % 32) * 32
      + p.gainY % 32) * 4 + p.standby % 4) * 32 + p.reserve % 32
  }

  lemma {:induction false} TotalWidthIsLength(fields: seq<Field>)
    ensures TotalWidth(fields) == |Pack(fields)|
    decreases |fields|
  {
    if fields != [] {
      TotalWidthIsLength(fields[1..]);
    }
  }

  lemma ModeFieldsFit(p: Pixel)
    ensures Fits(ModeFields(p)) && TotalWidth(ModeFields(p)) == 32
  {
    PowersOfTwo();
    TotalWidthIsLength(ModeFields(p));
    FrameLength(p);
  }

  lemma ModeNumberJoined(p: Pixel)
    ensures Joined(0, ModeFields(p)) == ModeNumber(p)
  {
    var mode := [Field(p.standby % 4, 2)] + [Field(p.reserve % 32, 5)];
    JoinedFive(GainFields(p), mode);
    JoinedTwo((((p.gainR % 32 * 32 + p.gainG % 32) * 32 + p.gainB % 32) * 32 + p.gainW % 32) * 32 + p.gainY % 32,
              p.standby % 4, p.reserve % 32);
  }

  lemma JoinedModeBits(fields: seq<Field>)
    requires Fits(fields) && TotalWidth(fields) == 32
    ensures Bits(Joined(0, fields), 32) == Pack(fields)
  {
    JoinedBits(0, 0, fields);
    assert Bits(0, 0) + Pack(fields) == Pack(fields);
  }

  lemma ModeNumberBits(p: Pixel)
    ensures Bits(ModeNumber(p), 32) == Pack(ModeFields(p))
  {
    ModeNumberJoined(p);
    ModeFieldsFit(p);
    JoinedModeBits(ModeFields(p));
  }

  lemma Regroup(a: int, b: int, c: int)
    ensures a * (b * c) == (a * b) * c
  {
  }

  lemma {:induction false} PowersAdd(m: nat, n: nat)
    ensures Pow2(m + n) == Pow2(m) * Pow2(n)
    decreases m
  {
    if m > 0 {
      PowersAdd(m - 1, n);
      Regroup(2, Pow2(m - 1), Pow2(n));
    }
  }

  lemma ScaleField(high: nat, v: nat, p: nat, q: nat)
    ensures high * (q * p) + v * p == (high * q + v) * p
    ensures v * p <= (high * q + v) * p
  {
    Regroup(high, q, p);
    assert (high * q + v) * p == (high * q) * p + v * p;
  }

  lemma ProductBelow(v: nat, p: nat, q: nat)
    requires v < q && p > 0
    ensures 0 <= v * p < q * p
  {
    assert (q - v) * p > 0;
  }

  lemma FieldAbove(high: nat, v: nat, n: nat, width: nat)
    requires v < Pow2(width)
    ensures high * Pow2(n + width) + v * Pow2(n) == (high * Pow2(width) + v) * Pow2(n)
    ensures v * Pow2(n) < Pow2(n + width)
    ensures v * Pow2(n) <= (high * Pow2(width) + v) * Pow2(n)
  {
    PowersAdd(width, n);
    ScaleField(high, v, Pow2(n), Pow2(width));
    ProductBelow(v, Pow2(n), Pow2(width));
  }

  /** `pack32 |= v << n` where `pack32` is empty below bit `n + width` and `v` is a field of
      `width` bits: the field joins what is there. */
  method OrIn(pack32: uint32, v: uint8, n: nat, ghost high: nat, ghost width: nat) returns (r: uint32)
    requires v < Pow2(width) && pack32 == high * Pow2(n + width)
    requires (high * Pow2(width) + v) * Pow2(n) < 0x1_0000_0000
    ensures r == (high * Pow2(width) + v) * Pow2(n)
  {
    FieldAbove(high, v, n, width);
    SmallWord(v * Pow2(n));
    OrField(pack32, high, v, n, n + width);
    r := Or(pack32, Shifted(v, n));
  }

  /** The bytes of the first `n` grey channels. */
  function GrayBytes(p: Pixel, n: nat): seq<uint8>
    requires n <= 5
  {
    PackLength(GrayFields(p)[..n], 16);
    PackBits(Pack(GrayFields(p)[..n]))
  }

  lemma PackOne(f: Field)
    ensures Pack([f]) == Bits(f.value, f.width)
  {
    assert Pack([f]) == Bits(f.value, f.width) + Pack([f][1..]);
  }

  lemma GrayBytesStep(p: Pixel, n: nat)
    requires n < 5
    ensures GrayBytes(p, n + 1) == GrayBytes(p, n) + SixteenBits(GrayFields(p)[n].value, 15)
  {
    var done, f := GrayFields(p)[..n], GrayFields(p)[n];
    assert GrayFields(p)[..n + 1] == done + [f];
    PackJoin(done, [f]);
    PackOne(f);
    PackLength(done, 16);
    PackBitsJoin(Pack(done), Bits(f.value, 16));
    HalfWordBytes(f.value);
  }

  lemma FrameBytes(p: Pixel, word: uint32)
    requires Bits(word, 32) == Pack(ModeFields(p))
    ensures Encode(p) == GrayBytes(p, 5) + (SixteenBits(word, 31) + SixteenBits(word, 15))
    ensures |GrayBytes(p, 5)| == 40
  {
    FrameLength(p);
    assert GrayFields(p)[..5] == GrayFields(p);
    WordBytes(word);
    PackBitsJoin(Pack(GrayFields(p)), Bits(word, 32));
  }

  class HalSpiSm15135e {
    var r: uint16
    var g: uint16
    var b: uint16
    var w: uint16
    var y: uint16
    var gainR: uint8
    var gainG: uint8
    var gainB: uint8
    var gainW: uint8
    var gainY: uint8
    var standby: uint8
    var reserve: uint8
    var oldStandby: uint8
    /** Every transmission so far, oldest first. */
    var wire: seq<seq<uint8>>
    const frameBuf: array<uint8>
    const resetBuf: array<uint8>

    function Stored(): Pixel
      reads `r, `g, `b, `w, `y, `gainR, `gainG, `gainB, `gainW, `gainY, `standby, `reserve
    {
      Pixel(r, g, b, w, y, gainR, gainG, gainB, gainW, gainY, standby, reserve)
    }

    function Model(): Driver
      reads this
    {
      Driver(Stored(), oldStandby, wire)
    }

    ghost predicate Valid() {
      frameBuf.Length == FRAME_BYTES && resetBuf.Length == RESET_BYTES && frameBuf != resetBuf
    }

    constructor ()
      ensures Valid() && Model() == NewDriver()
      ensures fresh(frameBuf) && fresh(resetBuf)
    {
      r, g, b, w, y := 0, 0, 0, 0, 0;
      gainR, gainG, gainB, gainW, gainY := 0, 0, 0, 0, 0;
      standby, reserve := 0, 0;
      oldStandby := 0xFF;
      wire := [];
      frameBuf := new uint8[56];
      resetBuf := new uint8[128];
    }

    method SetRgbwyDuty(red: uint16, green: uint16, blue: uint16, white: uint16, yellow: uint16)
      modifies `r, `g, `b, `w, `y, `standby, `reserve
      ensures Stored() == WithDuty(old(Stored()), red, green, blue, white, yellow)
    {
      r := red;
      g := green;
      b := blue;
      w := white;
      y := yellow;
      if red == 0 && green == 0 && blue == 0 && white == 0 && yellow == 0 {
        standby := SLEEP;
      } else {
        standby := NORMAL;
      }
      reserve := 0x1F;
    }

    method SetAllGain(gain: uint8)
      modifies `gainR, `gainG, `gainB, `gainW, `gainY
      ensures Stored() == WithGain(old(Stored()), gain)
    {
      var gainCode := gain % 32;
      gainR := gainCode;
      gainG := gainCode;
      gainB := gainCode;
      gainW := gainCode;
      gainY := gainCode;
    }

    method Transmit(buf: array<uint8>)
      modifies `wire
      ensures wire == old(wire) + [buf[..]]
    {
      wire := wire + [buf[..]];
    }

    method SendReset()
      requires Valid()
      modifies `wire, resetBuf
      ensures Model() == AfterReset(old(Model()))
    {
      for i := 0 to resetBuf.Length
        invariant wire == old(wire)
        invariant forall k :: 0 <= k < i ==> resetBuf[k] == 0
      {
        resetBuf[i] := 0;
      }
      assert resetBuf[..] == ResetBytes();
      Transmit(resetBuf);
    }

    method Init()
      requires Valid()
      modifies `wire, resetBuf
      ensures Model() == AfterReset(old(Model()))
    {
      SendReset();
    }

    /** The five gains ORed into one word, above bit 7. */
    method PackGains() returns (pack32: uint32)
      ensures pack32 == ((((gainR % 32 * 32 + gainG % 32) * 32 + gainB % 32) * 32 + gainW % 32) * 32 + gainY % 32) * 128
    {
      PowersOfTwo();
      ghost var g1, g2, g3, g4 := gainR % 32, gainG % 32, gainB % 32, gainW % 32;
      ghost var h2 := g1 * 32 + g2;
      ghost var h3 := h2 * 32 + g3;
      pack32 := 0;
      pack32 := OrIn(pack32, gainR % 32, 27, 0, 5);
      pack32 := OrIn(pack32, gainG % 32, 22, g1, 5);
      pack32 := OrIn(pack32, gainB % 32, 17, h2, 5);
      pack32 := OrIn(pack32, gainW % 32, 12, h3, 5);
      pack32 := OrIn(pack32, gainY % 32, 7, h3 * 32 + g4, 5);
    }

    /** The gains, the mode and the reserve ORed into one word. */
    method PackMode() returns (pack32: uint32)
      ensures Bits(pack32, 32) == Pack(ModeFields(Stored()))
    {
      PowersOfTwo();
      pack32 := PackGains();
      ghost var gains := pack32 / 128;
      pack32 := OrIn(pack32, standby % 4, 5, gains, 2);
      pack32 := OrIn(pack32, reserve % 32, 0, gains * 4 + standby % 4, 5);
      ModeNumberBits(Stored());
    }

    /** Four stores: bits `top` down to `top - 7` of the extractor's word. */
    method StoreEightBits(byteIdx: nat, word: uint32, top: nat)
      requires 7 <= top && byteIdx + 4 <= frameBuf.Length
      modifies frameBuf
      ensures frameBuf[..byteIdx] == old(frameBuf[..byteIdx])
      ensures frameBuf[byteIdx..byteIdx + 4] == EightBits(word, top)
    {
      frameBuf[byteIdx] := PackSpiByte(Bit(word, top), Bit(word, top - 1));
      frameBuf[byteIdx + 1] := PackSpiByte(Bit(word, top - 2), Bit(word, top - 3));
      frameBuf[byteIdx + 2] := PackSpiByte(Bit(word, top - 4), Bit(word, top - 5));
      frameBuf[byteIdx + 3] := PackSpiByte(Bit(word, top - 6), Bit(word, top - 7));
    }

    method StoreSixteenBits(byteIdx: nat, word: uint32, top: nat)
      requires 15 <= top && byteIdx + 8 <= frameBuf.Length
      modifies frameBuf
      ensures frameBuf[..byteIdx] == old(frameBuf[..byteIdx])
      ensures frameBuf[byteIdx..byteIdx + 8] == SixteenBits(word, top)
    {
      StoreEightBits(byteIdx, word, top);
      ghost var first := frameBuf[..byteIdx + 4];
      assert first[byteIdx..byteIdx + 4] == frameBuf[byteIdx..byteIdx + 4];
      StoreEightBits(byteIdx + 4, word, top - 8);
      assert frameBuf[..byteIdx + 4] == first;
      assert frameBuf[..byteIdx] == first[..byteIdx] && frameBuf[byteIdx..byteIdx + 4] == first[byteIdx..byteIdx + 4];
      assert frameBuf[byteIdx..byteIdx + 8] == frameBuf[byteIdx..byteIdx + 4] + frameBuf[byteIdx + 4..byteIdx + 8];
    }

    /** The five grey channels, each bit pair looked up in the table. */
    method EncodeGray() returns (byteIdx: nat)
      requires Valid()
      modifies frameBuf
      ensures byteIdx == 40 && frameBuf[..byteIdx] == GrayBytes(Stored(), 5)
    {
      byteIdx := 0;
      var grayChannels: seq<uint16> := [r, g, b, w, y];
      for i := 0 to 5
        invariant byteIdx == 8 * i
        invariant frameBuf[..byteIdx] == GrayBytes(Stored(), i)
      {
        GrayBytesStep(Stored(), i);
        StoreSixteenBits(byteIdx, grayChannels[i], 15);
        byteIdx := byteIdx + 8;
      }
    }

    /** The mode word's 32 bits, after the first 40 bytes. */
    method EncodeMode(byteIdx: nat, pack32: uint32)
      requires Valid() && byteIdx == 40
      modifies frameBuf
      ensures frameBuf[..40] == old(frameBuf[..40])
      ensures frameBuf[40..] == SixteenBits(pack32, 31) + SixteenBits(pack32, 15)
    {
      StoreSixteenBits(byteIdx, pack32, 31);
      ghost var first := frameBuf[..48];
      assert first[40..48] == frameBuf[40..48];
      StoreSixteenBits(byteIdx + 8, pack32, 15);
      assert frameBuf[..48] == first;
      assert frameBuf[..40] == first[..40] && frameBuf[40..48] == first[40..48];
      ghost var last := frameBuf[48..];
      assert frameBuf[48..56] == last;
      assert frameBuf[40..] == frameBuf[40..48] + last;
    }

    /** The grey channels, then the mode word. */
    method EncodeFrame()
      requires Valid()
      modifies frameBuf
      ensures frameBuf[..] == Encode(Stored())
    {
      var byteIdx := EncodeGray();
      var pack32 := PackMode();
      EncodeMode(byteIdx, pack32);
      FrameBytes(Stored(), pack32);
      assert frameBuf[..] == frameBuf[..40] + frameBuf[40..];
    }

    method SendFrame()
      requires Valid()
      modifies `oldStandby, `wire, frameBuf
      ensures Model() == AfterFrame(old(Model()))
    {
      EncodeFrame();
      var timeCounter := 1;
      if oldStandby != standby {
        if oldStandby == SLEEP {
          timeCounter := 2;
        }
        oldStandby := standby;
      }
      ghost var before := wire;
      ghost var frame := frameBuf[..];
      ghost var times := timeCounter;
      while true
        invariant 1 <= timeCounter <= times <= 2
        invariant oldStandby == standby && frameBuf[..] == frame
        invariant wire == before + if timeCounter < times then [frame] else []
        decreases timeCounter
      {
        Transmit(frameBuf);
        timeCounter := timeCounter - 1;
        if timeCounter == 0 {
          break;
        }
      }
      assert wire == before + if times == 2 then [frame, frame] else [frame];
    }

    method DeInit()
      requires Valid()
      modifies `r, `g, `b, `w, `y, `standby, `reserve, `oldStandby, `wire, frameBuf
      ensures Model() == AfterFrame(old(Model()).(pixel := WithDuty(old(Stored()), 0, 0, 0, 0, 0)))
    {
      SetRgbwyDuty(0, 0, 0, 0, 0);
      SendFrame();
    }
  }
}
