/** The saturating run counters of CheckConsecutive.h. */
module CheckConsecutive {
  import opened Machine

  /** A `uint8_t` passed by address. */
  class U8Cell {
    var v: uint8

    constructor (initial: uint8)
      ensures v == initial
    {
      v := initial;
    }
  }

  /** The counter after one sample. */
  function Counted(hit: bool, count: uint8, maxCount: uint8): uint8 {
    if !hit then 0 else if count < maxCount then count + 1 else maxCount
  }

  method Apply(sample: uint32, threshold: uint32, pCount: U8Cell?, maxCount: uint8) returns (passed: bool)
    modifies pCount
    ensures pCount == null || maxCount == 0 ==> !passed && (pCount != null ==> pCount.v == old(pCount.v))
    ensures pCount != null && maxCount != 0 ==>
              && pCount.v == Counted(sample >= threshold, old(pCount.v), maxCount)
              && (passed <==> pCount.v == maxCount)
  {
    if pCount == null || maxCount == 0 {
      return false;
    }
    if sample >= threshold {
      if pCount.v < maxCount {
        pCount.v := pCount.v + 1;
      }
      if pCount.v >= maxCount {
        pCount.v := maxCount;
        return true;
      }
      return false;
    }
    pCount.v := 0;
    return false;
  }

  method ApplyBelow(sample: uint32, threshold: uint32, pCount: U8Cell?, maxCount: uint8) returns (passed: bool)
    modifies pCount
    ensures pCount == null || maxCount == 0 ==> !passed && (pCount != null ==> pCount.v == old(pCount.v))
    ensures pCount != null && maxCount != 0 ==>
              && pCount.v == Counted(sample < threshold, old(pCount.v), maxCount)
              && (passed <==> pCount.v == maxCount)
  {
    if pCount == null || maxCount == 0 {
      return false;
    }
    if sample < threshold {
      if pCount.v < maxCount {
        pCount.v := pCount.v + 1;
      }
      if pCount.v >= maxCount {
        pCount.v := maxCount;
        return true;
      }
      return false;
    }
    pCount.v := 0;
    return false;
  }

  // ---------------------------------------------------------------- whole histories

  function CountAfter(hits: seq<bool>, maxCount: uint8): uint8
    decreases |hits|
  {
    if hits == [] then 0
    else Counted(hits[|hits| - 1], CountAfter(hits[..|hits| - 1], maxCount), maxCount)
  }

  /** The last `n` samples were all hits. */
  predicate EndsWithRun(hits: seq<bool>, n: nat) {
    n <= |hits| && forall i :: |hits| - n <= i < |hits| ==> hits[i]
  }

  /** The counter holds `n` exactly when the history ends with a run of `n` hits and no longer
      one, and it stays at the maximum for every longer run. */
  lemma {:induction false} CountIsRunLength(hits: seq<bool>, maxCount: uint8, n: uint8)
    requires maxCount != 0 && n <= maxCount
    ensures CountAfter(hits, maxCount) >= n <==> EndsWithRun(hits, n)
    ensures CountAfter(hits, maxCount) <= maxCount
    decreases |hits|
  {
    if hits != [] {
      var before := hits[..|hits| - 1];
      CountIsRunLength(before, maxCount, if n == 0 then 0 else n - 1);
      if n > 0 && EndsWithRun(hits, n) {
        assert hits[|hits| - 1];
        forall i | |before| - (n - 1) <= i < |before| ensures before[i] {
          assert hits[i];
        }
      }
      if n > 0 && hits[|hits| - 1] && EndsWithRun(before, n - 1) {
        forall i | |hits| - n <= i < |hits| ensures hits[i] {
          assert i < |before| ==> before[i];
        }
      }
    }
  }
}
