/** The integer low-pass y[n] = y[n-1] + A/256 * (x[n] - y[n-1]) of FirstOrderFilter.h. */
module FirstOrderFilter {
  import opened Machine

  /** A `uint32_t` passed by address. */
  class U32Cell {
    var v: uint32

    constructor (initial: uint32)
      ensures v == initial
    {
      v := initial;
    }
  }

  // ---------------------------------------------------------------- the filter as a function

  function Gap(x: int, y: int): nat {
    if x < y then y - x else x - y
  }

  /** The rounded correction for a gap, in unbounded arithmetic. */
  function Correction(alpha: uint8, gap: nat): nat {
    (gap * alpha + 0x80) / 0x100
  }

  /** The correction with each operation reduced to 32 bits. */
  function Correction32(alpha: uint8, gap: nat): uint32 {
    Word32(Word32(gap * alpha) + 0x80) / 0x100
  }

  lemma ProductNonNegative(x: nat, y: nat)
    ensures 0 <= x * y
  {
  }

  lemma ProductBound(gap: nat, alpha: nat)
    requires alpha <= 255
    ensures gap * alpha <= gap * 255
  {
    ProductNonNegative(gap, 255 - alpha);
    assert gap * 255 - gap * alpha == gap * (255 - alpha);
  }

  lemma RoundedShare(product: nat, gap: nat)
    requires product <= gap * 255
    ensures (product + 0x80) / 0x100 <= gap
  {
  }

  /** The filter never overshoots. */
  lemma CorrectionWithinGap(alpha: uint8, gap: nat)
    ensures Correction(alpha, gap) <= gap
  {
    ProductBound(gap, alpha);
    RoundedShare(gap * alpha, gap);
  }

  /** The filter in unbounded arithmetic; a zero alpha copies the sample. */
  function Filtered(sample: nat, alpha: uint8, y: nat): nat {
    if alpha == 0 then sample
    else if sample < y then CorrectionWithinGap(alpha, y - sample); y - Correction(alpha, y - sample)
    else y + Correction(alpha, sample - y)
  }

  /** The filter as the 32-bit code computes it. */
  function Filtered32(sample: uint32, alpha: uint8, y: uint32): uint32 {
    if alpha == 0 then sample
    else if sample < y then Word32(y - Correction32(alpha, y - sample))
    else if sample > y then Word32(y + Correction32(alpha, sample - y))
    else y
  }

  /** The multiplication and the rounding stay within 32 bits. */
  predicate NoWrap(sample: nat, alpha: uint8, y: nat) {
    Gap(sample, y) * alpha + 0x80 < WORD32
  }

  function Run(alpha: uint8, y: nat, samples: seq<nat>): nat
    decreases |samples|
  {
    if samples == [] then y else Run(alpha, Filtered(samples[0], alpha, y), samples[1..])
  }

  function Run32(alpha: uint8, y: uint32, samples: seq<uint32>): uint32
    decreases |samples|
  {
    if samples == [] then y else Run32(alpha, Filtered32(samples[0], alpha, y), samples[1..])
  }

  /** The output after the same sample has been applied `n` times. */
  function Hold(sample: nat, alpha: uint8, y: nat, n: nat): nat
    decreases n
  {
    if n == 0 then y else Filtered(sample, alpha, Hold(sample, alpha, y, n - 1))
  }

  // ---------------------------------------------------------------- the method

  /** The three steps both branches share: scale, round, drop the fraction. */
  method RoundedStep(gap: uint32, alpha: uint8) returns (temp: uint32)
    ensures temp == Correction32(alpha, gap)
  {
    temp := Word32(gap * alpha);
    temp := Word32(temp + 0x80);
    temp := temp / 0x100;
  }

  method Apply(sample: uint32, alpha: uint8, pOut: U32Cell?)
    modifies pOut
    ensures pOut != null ==> pOut.v == Filtered32(sample, alpha, old(pOut.v))
  {
    if pOut == null {
      return;
    }
    if alpha == 0 {
      pOut.v := sample;
      return;
    }
    if sample < pOut.v {
      var temp := RoundedStep(pOut.v - sample, alpha);
      pOut.v := Word32(pOut.v - temp);
    } else if sample > pOut.v {
      var temp := RoundedStep(sample - pOut.v, alpha);
      pOut.v := Word32(pOut.v + temp);
    }
  }

  // ---------------------------------------------------------------- arithmetic

  lemma RoundedShareGrows(product: nat, more: nat, extra: nat)
    requires more <= extra * 255
    ensures (product + 0x80) / 0x100 <= (product + more + 0x80) / 0x100 <= (product + 0x80) / 0x100 + extra
  {
  }

  /** A wider gap has a larger correction, but by no more than the gap widened. */
  lemma CorrectionGrows(alpha: uint8, gap: nat, extra: nat)
    ensures Correction(alpha, gap) <= Correction(alpha, gap + extra) <= Correction(alpha, gap) + extra
  {
    ProductBound(extra, alpha);
    ProductNonNegative(extra, alpha);
    assert (gap + extra) * alpha == gap * alpha + extra * alpha;
    RoundedShareGrows(gap * alpha, extra * alpha, extra);
  }

  // ---------------------------------------------------------------- 32 bits are enough, exactly when

  lemma ShareOfWord(word: nat)
    requires word < WORD32
    ensures word / 0x100 < 0x100_0000
  {
  }

  lemma ShareBeyondWord(x: nat)
    requires x >= WORD32
    ensures x / 0x100 >= 0x100_0000
  {
  }

  lemma WordsAgree(product: nat)
    ensures Word32(Word32(product) + 0x80) / 0x100 == (product + 0x80) / 0x100
            <==> product + 0x80 < WORD32
  {
    if product + 0x80 < WORD32 {
      SmallWord(product);
      SmallWord(product + 0x80);
    } else {
      var word := Word32(Word32(product) + 0x80);
      ShareOfWord(word);
      ShareBeyondWord(product + 0x80);
    }
  }

  lemma CorrectionsAgree(alpha: uint8, gap: nat)
    ensures Correction32(alpha, gap) == Correction(alpha, gap) <==> gap * alpha + 0x80 < WORD32
  {
    ProductNonNegative(gap, alpha);
    WordsAgree(gap * alpha);
  }

  lemma AppliedCorrections(sample: uint32, y: uint32, c: nat, c32: nat)
    requires c <= Gap(sample, y) && c32 <= Gap(sample, y)
    ensures sample < y ==> (Word32(y - c32) == y - c <==> c32 == c)
    ensures sample >= y ==> (Word32(y + c32) == y + c <==> c32 == c)
  {
    if sample < y {
      SmallWord(y - c32);
    } else {
      SmallWord(y + c32);
    }
  }

  lemma WrappedCorrectionSmall(alpha: uint8, gap: nat)
    requires gap * alpha + 0x80 >= WORD32
    ensures Correction32(alpha, gap) <= gap
  {
    ProductBound(gap, alpha);
  }

  /** The 32-bit code computes the filter if and only if the product does not wrap. */
  lemma FilteredExactlyWithoutWrap(sample: uint32, alpha: uint8, y: uint32)
    requires alpha != 0
    ensures Filtered32(sample, alpha, y) == Filtered(sample, alpha, y) <==> NoWrap(sample, alpha, y)
  {
    var gap := Gap(sample, y);
    CorrectionsAgree(alpha, gap);
    CorrectionWithinGap(alpha, gap);
    if !NoWrap(sample, alpha, y) {
      WrappedCorrectionSmall(alpha, gap);
    }
    AppliedCorrections(sample, y, Correction(alpha, gap), Correction32(alpha, gap));
  }

  // ---------------------------------------------------------------- runs

  lemma FilteredBetween(sample: nat, alpha: uint8, y: nat, lo: nat, hi: nat)
    requires lo <= sample <= hi && lo <= y <= hi
    ensures lo <= Filtered(sample, alpha, y) <= hi
  {
    CorrectionWithinGap(alpha, Gap(sample, y));
  }

  /** The output never leaves the range of the seed and the samples. */
  lemma {:induction false} RunBetween(alpha: uint8, y: nat, samples: seq<nat>, lo: nat, hi: nat)
    requires lo <= y <= hi && forall i :: 0 <= i < |samples| ==> lo <= samples[i] <= hi
    ensures lo <= Run(alpha, y, samples) <= hi
    decreases |samples|
  {
    if samples != [] {
      FilteredBetween(samples[0], alpha, y, lo, hi);
      RunBetween(alpha, Filtered(samples[0], alpha, y), samples[1..], lo, hi);
    }
  }

  lemma FilteredMonotoneInSample(s: nat, s': nat, alpha: uint8, y: nat)
    requires s <= s'
    ensures Filtered(s, alpha, y) <= Filtered(s', alpha, y)
  {
    if s' < y {
      CorrectionGrows(alpha, y - s', s' - s);
    } else if y <= s {
      CorrectionGrows(alpha, s - y, s' - s);
    }
  }

  lemma FilteredMonotoneInOutput(s: nat, alpha: uint8, y: nat, y': nat)
    requires y <= y'
    ensures Filtered(s, alpha, y) <= Filtered(s, alpha, y')
  {
    if s < y {
      CorrectionGrows(alpha, y - s, y' - y);
    } else if y' <= s {
      CorrectionGrows(alpha, s - y', y' - y);
    } else {
      CorrectionWithinGap(alpha, s - y);
      CorrectionWithinGap(alpha, y' - s);
    }
  }

  lemma FilteredMonotone(s: nat, s': nat, alpha: uint8, y: nat, y': nat)
    requires s <= s' && y <= y'
    ensures Filtered(s, alpha, y) <= Filtered(s', alpha, y')
  {
    FilteredMonotoneInSample(s, s', alpha, y);
    FilteredMonotoneInOutput(s', alpha, y, y');
  }

  /** Pointwise ordered seeds and samples give ordered outputs, for runs of any length. */
  lemma {:induction false} RunMonotone(alpha: uint8, y: nat, y': nat, samples: seq<nat>, samples': seq<nat>)
    requires y <= y' && |samples| == |samples'|
    requires forall i :: 0 <= i < |samples| ==> samples[i] <= samples'[i]
    ensures Run(alpha, y, samples) <= Run(alpha, y', samples')
    decreases |samples|
  {
    if samples != [] {
      FilteredMonotone(samples[0], samples'[0], alpha, y, y');
      RunMonotone(alpha, Filtered(samples[0], alpha, y), Filtered(samples'[0], alpha, y'),
                  samples[1..], samples'[1..]);
    }
  }

  lemma SmallerGapNoWrap(alpha: uint8, gap: nat, hi: nat)
    requires gap <= hi && hi * alpha + 0x80 < WORD32
    ensures gap * alpha + 0x80 < WORD32
  {
    ProductNonNegative(hi - gap, alpha);
    assert hi * alpha == gap * alpha + (hi - gap) * alpha;
  }

  /** Seed and samples small enough for 32 bits stay so: the code is the filter over the run. */
  lemma {:induction false} RunWithoutWrap(alpha: uint8, y: uint32, samples: seq<uint32>, hi: nat)
    requires alpha != 0 && hi * alpha + 0x80 < WORD32
    requires y <= hi && forall i :: 0 <= i < |samples| ==> samples[i] <= hi
    ensures Run32(alpha, y, samples) == Run(alpha, y, samples) <= hi
    decreases |samples|
  {
    if samples != [] {
      SmallerGapNoWrap(alpha, Gap(samples[0], y), hi);
      FilteredExactlyWithoutWrap(samples[0], alpha, y);
      FilteredBetween(samples[0], alpha, y, 0, hi);
      RunWithoutWrap(alpha, Filtered32(samples[0], alpha, y), samples[1..], hi);
    }
  }

  // ---------------------------------------------------------------- convergence

  /** The gap shrinks by exactly the correction and the output stays on its side. */
  lemma GapAfter(sample: nat, alpha: uint8, y: nat)
    requires alpha != 0
    ensures Gap(sample, Filtered(sample, alpha, y)) == Gap(sample, y) - Correction(alpha, Gap(sample, y))
    ensures sample < y ==> sample <= Filtered(sample, alpha, y) <= y
    ensures y <= sample ==> y <= Filtered(sample, alpha, y) <= sample
  {
    CorrectionWithinGap(alpha, Gap(sample, y));
  }

  lemma RoundedToNearest(product: nat)
    ensures -128 <= 256 * ((product + 0x80) / 0x100) - product <= 128
  {
  }

  /** How fast the filter follows: each step moves the output by alpha / 256 of the distance to the
      sample, to the nearest unit. */
  lemma FollowsByAlpha(sample: nat, alpha: uint8, y: nat)
    requires alpha != 0
    ensures -128 <= 256 * (Filtered(sample, alpha, y) - y) - alpha * (sample - y) <= 128
  {
    if sample < y {
      RoundedToNearest((y - sample) * alpha);
      assert alpha * (sample - y) == -((y - sample) * alpha);
    } else {
      RoundedToNearest((sample - y) * alpha);
    }
  }

  /** And so does the 32-bit code wherever its product does not wrap; a zero alpha copies. */
  lemma CodeFollowsByAlpha(sample: uint32, alpha: uint8, y: uint32)
    ensures alpha == 0 ==> Filtered32(sample, alpha, y) == sample
    ensures alpha != 0 && NoWrap(sample, alpha, y) ==>
              -128 <= 256 * (Filtered32(sample, alpha, y) - y) - alpha * (sample - y) <= 128
  {
    if alpha != 0 && NoWrap(sample, alpha, y) {
      FilteredExactlyWithoutWrap(sample, alpha, y);
      FollowsByAlpha(sample, alpha, y);
    }
  }

  /** The output rests exactly inside the dead band. */
  lemma RestsExactlyInDeadBand(sample: nat, alpha: uint8, y: nat)
    requires alpha != 0
    ensures Filtered(sample, alpha, y) == y <==> Gap(sample, y) * alpha < 0x80
  {
    GapAfter(sample, alpha, y);
    ProductNonNegative(Gap(sample, y), alpha);
  }

  /** Each sample outside the dead band brings the output at least one unit closer. */
  lemma {:induction false} HoldApproaches(sample: nat, alpha: uint8, y: nat, n: nat)
    requires alpha != 0
    ensures Gap(sample, Hold(sample, alpha, y, n)) <= Gap(sample, y)
    ensures || Gap(sample, Hold(sample, alpha, y, n)) * alpha < 0x80
            || Gap(sample, Hold(sample, alpha, y, n)) + n <= Gap(sample, y)
    decreases n
  {
    if n > 0 {
      HoldApproaches(sample, alpha, y, n - 1);
      var before := Hold(sample, alpha, y, n - 1);
      GapAfter(sample, alpha, before);
      RestsExactlyInDeadBand(sample, alpha, before);
    }
  }

  /** A constant sample is reached, up to the dead band, within as many samples as the first
      gap is wide, and the output then rests for good. */
  lemma {:induction false} HoldConverges(sample: nat, alpha: uint8, y: nat, n: nat, more: nat)
    requires alpha != 0 && n >= Gap(sample, y)
    ensures Gap(sample, Hold(sample, alpha, y, n)) * alpha < 0x80
    ensures Hold(sample, alpha, y, n + more) == Hold(sample, alpha, y, n)
    decreases more
  {
    HoldApproaches(sample, alpha, y, n);
    if more > 0 {
      HoldConverges(sample, alpha, y, n, more - 1);
      RestsExactlyInDeadBand(sample, alpha, Hold(sample, alpha, y, n));
    }
  }
}
