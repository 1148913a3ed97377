/** Bits of unsigned integers: bit-field reads, shifts and ORs on one side, bit strings with the
    most significant bit first on the other. */
module BitStrings {
  function Pow2(n: nat): (p: nat)
    ensures p > 0
    decreases n
  {
    if n == 0 then 1 else 2 * Pow2(n - 1)
  }

  /** Bit `k` of `v`, as a bit-field reads it. */
  predicate Bit(v: nat, k: nat)
    decreases k, v
  {
    if k == 0 then v % 2 == 1 else Bit(v / 2, k - 1)
  }

  /** Bitwise OR. */
  function Or(a: nat, b: nat): nat
    decreases a + b
  {
    if a == 0 && b == 0 then 0
    else 2 * Or(a / 2, b / 2) + if a % 2 == 1 || b % 2 == 1 then 1 else 0
  }

  /** The low `n` bits of `v`, most significant first. */
  function Bits(v: nat, n: nat): (bits: seq<bool>)
    ensures |bits| == n
    decreases n, v
  {
    if n == 0 then [] else Bits(v / 2, n - 1) + [v % 2 == 1]
  }

  function Value(bits: seq<bool>): nat
    decreases |bits|
  {
    if bits == [] then 0
    else 2 * Value(bits[..|bits| - 1]) + if bits[|bits| - 1] then 1 else 0
  }

  lemma {:induction false} BitsReadByField(v: nat, n: nat, i: nat)
    requires i < n
    ensures Bits(v, n)[i] == Bit(v, n - 1 - i)
    decreases n
  {
    if i < n - 1 {
      BitsReadByField(v / 2, n - 1, i);
    }
  }

  lemma {:induction false} ValueOfBits(v: nat, n: nat)
    requires v < Pow2(n)
    ensures Value(Bits(v, n)) == v
    decreases n
  {
    if n > 0 {
      ValueOfBits(v / 2, n - 1);
      assert Bits(v, n)[..n - 1] == Bits(v / 2, n - 1);
    }
  }

  lemma HalfOfEven(half: int, low: nat)
    ensures (2 * half + low) / 2 == half + low / 2
    ensures (2 * half + low) % 2 == low % 2
  {
  }

  lemma ShiftedHalves(high: nat, low: nat, n: nat)
    requires n > 0
    ensures high * Pow2(n) == 2 * (high * Pow2(n - 1))
    ensures (high * Pow2(n) + low) / 2 == high * Pow2(n - 1) + low / 2
    ensures (high * Pow2(n) + low) % 2 == low % 2
  {
    var half := high * Pow2(n - 1);
    assert high * Pow2(n) == 2 * half;
    HalfOfEven(half, low);
  }

  lemma {:induction false} OrZero(a: nat)
    ensures Or(a, 0) == a && Or(0, a) == a
    decreases a
  {
    if a > 0 {
      OrZero(a / 2);
    }
  }

  lemma OrUnfold(a: nat, b: nat, half: nat)
    requires a == 2 * half
    ensures Or(a, b) == 2 * Or(half, b / 2) + b % 2
  {
    if a == 0 && b == 0 {
      OrZero(0);
    }
  }

  /** A shifted value ORed with a smaller one keeps both: the fields do not overlap. */
  lemma {:induction false} OrOfDisjoint(high: nat, low: nat, n: nat)
    requires low < Pow2(n)
    ensures Or(high * Pow2(n), low) == high * Pow2(n) + low
    decreases n
  {
    if n == 0 {
      OrZero(high);
    } else {
      OrOfDisjoint(high, low / 2, n - 1);
      ShiftedHalves(high, 0, n);
      OrUnfold(2 * (high * Pow2(n - 1)), low, high * Pow2(n - 1));
    }
  }

  lemma {:induction false} BitsOfJoined(high: nat, low: nat, m: nat, n: nat)
    requires low < Pow2(n)
    ensures Bits(high * Pow2(n) + low, m + n) == Bits(high, m) + Bits(low, n)
    decreases n
  {
    if n == 0 {
      assert Bits(high, m) + [] == Bits(high, m);
    } else {
      ShiftedHalves(high, low, n);
      BitsOfJoined(high, low / 2, m, n - 1);
      assert Bits(high, m) + (Bits(low / 2, n - 1) + [low % 2 == 1])
          == (Bits(high, m) + Bits(low / 2, n - 1)) + [low % 2 == 1];
    }
  }

  // ---------------------------------------------------------------- records of fields

  /** A field of a record: its value and its width in bits. */
  datatype Field = Field(value: nat, width: nat)

  predicate Fits(fields: seq<Field>) {
    forall i :: 0 <= i < |fields| ==> fields[i].value < Pow2(fields[i].width)
  }

  /** The fields one after the other. */
  function Pack(fields: seq<Field>): seq<bool>
    decreases |fields|
  {
    if fields == [] then [] else Bits(fields[0].value, fields[0].width) + Pack(fields[1..])
  }

  /** Reads fields of the given widths; a string too short for them reads as zeros. */
  function Unpack(widths: seq<nat>, bits: seq<bool>): (values: seq<nat>)
    ensures |values| == |widths|
    decreases |widths|
  {
    if widths == [] then []
    else if |bits| < widths[0] then seq(|widths|, _ => 0)
    else [Value(bits[..widths[0]])] + Unpack(widths[1..], bits[widths[0]..])
  }

  function Widths(fields: seq<Field>): seq<nat> {
    seq(|fields|, i requires 0 <= i < |fields| => fields[i].width)
  }

  function Values(fields: seq<Field>): seq<nat> {
    seq(|fields|, i requires 0 <= i < |fields| => fields[i].value)
  }

  lemma UnpackOne(f: Field, widths: seq<nat>, rest: seq<bool>)
    requires f.value < Pow2(f.width)
    ensures Unpack([f.width] + widths, Bits(f.value, f.width) + rest) == [f.value] + Unpack(widths, rest)
  {
    var head := Bits(f.value, f.width);
    ValueOfBits(f.value, f.width);
    assert (head + rest)[..f.width] == head && (head + rest)[f.width..] == rest;
    assert ([f.width] + widths)[1..] == widths;
  }

  /** Whatever is packed is unpacked again, for any list of fields. */
  lemma {:induction false} UnpackInvertsPack(fields: seq<Field>)
    requires Fits(fields)
    ensures Unpack(Widths(fields), Pack(fields)) == Values(fields)
    decreases |fields|
  {
    if fields == [] {
      assert Values(fields) == [];
    } else {
      var rest := fields[1..];
      UnpackInvertsPack(rest);
      UnpackOne(fields[0], Widths(rest), Pack(rest));
      assert Widths(fields) == [fields[0].width] + Widths(rest);
      assert Values(fields) == [fields[0].value] + Values(rest);
    }
  }

  lemma {:induction false} PackLength(fields: seq<Field>, width: nat)
    requires forall i :: 0 <= i < |fields| ==> fields[i].width == width
    ensures |Pack(fields)| == |fields| * width
    decreases |fields|
  {
    if fields != [] {
      PackLength(fields[1..], width);
      assert |fields| * width == width + (|fields| - 1) * width;
    }
  }

  lemma {:induction false} PackJoin(a: seq<Field>, b: seq<Field>)
    ensures Pack(a + b) == Pack(a) + Pack(b)
    decreases |a|
  {
    if a == [] {
      assert a + b == b;
    } else {
      assert (a + b)[1..] == a[1..] + b;
      PackJoin(a[1..], b);
    }
  }

  lemma {:induction false} ZeroBits(n: nat)
    ensures forall i :: 0 <= i < n ==> !Bits(0, n)[i]
    decreases n
  {
    if n > 0 {
      ZeroBits(n - 1);
    }
  }

  lemma {:induction false} ZeroFields(fields: seq<Field>)
    requires forall i :: 0 <= i < |fields| ==> fields[i].value == 0
    ensures forall i :: 0 <= i < |Pack(fields)| ==> !Pack(fields)[i]
    decreases |fields|
  {
    if fields != [] {
      ZeroBits(fields[0].width);
      ZeroFields(fields[1..]);
    }
  }
}
