/**
 * `u32::from_str_radix(s, 2)`, the conversion behind the bit-string fields
 * of src/json.rs:59, 67 and 77. After an optional `+`, every character must
 * be `0` or `1`; the digits are folded in from the left as `2 * acc + d`,
 * failing as soon as the value no longer fits in 32 bits. A lone sign, a
 * `-` (the type is unsigned) and any other character are invalid digits.
 */
module Radix {
  import opened Wrappers

  /** `u32` values are below this bound. */
  const U32_LIMIT: nat := 0x1_0000_0000

  /** The kinds of `ParseIntError` that radix-2 parsing of a `u32` can report. */
  datatype IntErrorKind = Empty | InvalidDigit | PosOverflow

  predicate IsBinaryDigit(c: char) {
    c == '0' || c == '1'
  }

  function DigitValue(c: char): nat
    requires IsBinaryDigit(c)
  {
    if c == '0' then 0 else 1
  }

  predicate AllBinary(s: string) {
    forall i :: 0 <= i < |s| ==> IsBinaryDigit(s[i])
  }

  /** The digits that follow the sign: a leading `+` is dropped, anything else is kept. */
  function Digits(s: string): string {
    if s != [] && s[0] == '+' then s[1..] else s
  }

  /** The digit loop, from an accumulator that fits: invalid digit first, then overflow. */
  function Accumulate(ds: string, acc: nat): (r: Result<nat, IntErrorKind>)
    requires acc < U32_LIMIT
    ensures r.Ok? ==> r.value < U32_LIMIT
    ensures r.Err? ==> r.error != Empty
  {
    if ds == [] then Ok(acc)
    else if !IsBinaryDigit(ds[0]) then Err(InvalidDigit)
    else
      var next := 2 * acc + DigitValue(ds[0]);
      if next >= U32_LIMIT then Err(PosOverflow) else Accumulate(ds[1..], next)
  }

  /** `u32::from_str_radix(s, 2)`. */
  function FromStrRadix2(s: string): (r: Result<nat, IntErrorKind>)
    ensures r.Ok? ==> r.value < U32_LIMIT
    ensures r == Err(Empty) <==> s == []
  {
    if s == [] then Err(Empty)
    else if (s[0] == '+' || s[0] == '-') && |s| == 1 then Err(InvalidDigit)
    else Accumulate(Digits(s), 0)
  }

  // The reference meaning: positional value of the longest run of binary digits.

  /** The number a string of binary digits denotes, the last digit being the least significant. */
  function BinaryValue(ds: string): nat
    requires AllBinary(ds)
  {
    if ds == [] then 0 else 2 * BinaryValue(ds[..|ds| - 1]) + DigitValue(ds[|ds| - 1])
  }

  /** The length of the longest prefix made of binary digits. */
  function BinaryPrefixLength(ds: string): (k: nat)
    ensures k <= |ds| && AllBinary(ds[..k])
    ensures k < |ds| ==> !IsBinaryDigit(ds[k])
  {
    if ds == [] || !IsBinaryDigit(ds[0]) then 0
    else
      var k := 1 + BinaryPrefixLength(ds[1..]);
      assert forall i :: 1 <= i < k ==> ds[..k][i] == ds[1..][..k - 1][i - 1];
      k
  }

  /**
   * Radix-2 parsing described without the loop: the value of the binary
   * prefix of the digits overflows, or a non-digit follows it, or the
   * whole digit string is its value.
   */
  function FromStrRadix2Spec(s: string): Result<nat, IntErrorKind> {
    if s == [] then Err(Empty)
    else if (s[0] == '+' || s[0] == '-') && |s| == 1 then Err(InvalidDigit)
    else
      var ds := Digits(s);
      var k := BinaryPrefixLength(ds);
      if BinaryValue(ds[..k]) >= U32_LIMIT then Err(PosOverflow)
      else if k < |ds| then Err(InvalidDigit)
      else Ok(BinaryValue(ds))
  }

  function Pow2(n: nat): (p: nat)
    ensures p >= 1
  {
    if n == 0 then 1 else 2 * Pow2(n - 1)
  }

  /** The Horner fold the digit loop computes when nothing overflows. */
  function Fold(acc: nat, ds: string): nat
    requires AllBinary(ds)
    decreases |ds|
  {
    if ds == [] then acc else Fold(2 * acc + DigitValue(ds[0]), ds[1..])
  }

  /** The value of `d` followed by `ds`: the leading digit weighs `2^|ds|`. */
  lemma {:induction false} BinaryValueCons(ds: string)
    requires AllBinary(ds) && ds != []
    ensures BinaryValue(ds) == DigitValue(ds[0]) * Pow2(|ds| - 1) + BinaryValue(ds[1..])
    decreases |ds|
  {
    if |ds| > 1 {
      var init := ds[..|ds| - 1];
      BinaryValueCons(init);
      assert init[1..] == ds[1..][..|ds[1..]| - 1];
      assert init[0] == ds[0];
    } else {
      assert ds[..0] == [] && ds[1..] == [];
    }
  }

  /** Folding from an accumulator shifts it left by the digit count and adds the digits' value. */
  lemma {:induction false} FoldValue(acc: nat, ds: string)
    requires AllBinary(ds)
    ensures Fold(acc, ds) == acc * Pow2(|ds|) + BinaryValue(ds)
    decreases |ds|
  {
    if ds != [] {
      var d, q := DigitValue(ds[0]), Pow2(|ds| - 1);
      FoldValue(2 * acc + d, ds[1..]);
      BinaryValueCons(ds);
      assert Pow2(|ds|) == 2 * q;
      ShiftDistributes(acc, d, q);
    }
  }

  lemma ShiftDistributes(acc: nat, d: nat, q: nat)
    ensures (2 * acc + d) * q == acc * (2 * q) + d * q
  {
  }

  lemma {:induction false} FoldGrows(acc: nat, ds: string)
    requires AllBinary(ds)
    ensures Fold(acc, ds) >= acc
    decreases |ds|
  {
    if ds != [] {
      FoldGrows(2 * acc + DigitValue(ds[0]), ds[1..]);
    }
  }

  /** The digit loop in closed form. */
  lemma {:induction false} AccumulateIs(ds: string, acc: nat)
    requires acc < U32_LIMIT
    ensures var k := BinaryPrefixLength(ds);
      var v := Fold(acc, ds[..k]);
      Accumulate(ds, acc) == if v >= U32_LIMIT then Err(PosOverflow) else if k < |ds| then Err(InvalidDigit) else Ok(v)
    decreases |ds|
  {
    var k := BinaryPrefixLength(ds);
    if ds != [] && IsBinaryDigit(ds[0]) {
      var next := 2 * acc + DigitValue(ds[0]);
      var p := ds[..k];
      assert p[0] == ds[0] && p[1..] == ds[1..][..k - 1];
      if next >= U32_LIMIT {
        FoldGrows(next, p[1..]);
      } else {
        AccumulateIs(ds[1..], next);
      }
    } else {
      assert ds[..k] == [];
    }
  }

  /** The digit loop and the description without it agree on every input. */
  lemma FromStrRadix2Meaning(s: string)
    ensures FromStrRadix2(s) == FromStrRadix2Spec(s)
  {
    if s != [] && !((s[0] == '+' || s[0] == '-') && |s| == 1) {
      var ds := Digits(s);
      var k := BinaryPrefixLength(ds);
      AccumulateIs(ds, 0);
      FoldValue(0, ds[..k]);
      if k == |ds| {
        assert ds[..k] == ds;
      }
    }
  }

  /**
   * A string is accepted exactly when the digits after an optional `+` are
   * a non-empty run of `0`/`1` whose value fits in 32 bits; the result is
   * that value.
   */
  lemma FromStrRadix2Accepts(s: string)
    ensures FromStrRadix2(s).Ok? <==>
      Digits(s) != [] && AllBinary(Digits(s)) && BinaryValue(Digits(s)) < U32_LIMIT
    ensures FromStrRadix2(s).Ok? ==> FromStrRadix2(s).value == BinaryValue(Digits(s))
  {
    FromStrRadix2Meaning(s);
    var ds := Digits(s);
    var k := BinaryPrefixLength(ds);
    if AllBinary(ds) {
      BinaryPrefixWhole(ds);
      assert ds[..k] == ds;
    }
  }

  lemma BinaryPrefixWhole(ds: string)
    requires AllBinary(ds)
    ensures BinaryPrefixLength(ds) == |ds|
  {
  }

  /** The ways parsing fails: empty input, a lone sign, a `-`, a stray character, or too large a value. */
  lemma FromStrRadix2Errors(s: string)
    ensures FromStrRadix2(s) == Err(Empty) <==> s == []
    ensures s == "+" || s == "-" ==> FromStrRadix2(s) == Err(InvalidDigit)
    ensures s != [] && s[0] == '-' ==> FromStrRadix2(s) == Err(InvalidDigit)
    ensures FromStrRadix2(s) == Err(PosOverflow) <==>
      (var ds := Digits(s); s != [] && BinaryValue(ds[..BinaryPrefixLength(ds)]) >= U32_LIMIT)
  {
    FromStrRadix2Meaning(s);
    var ds := Digits(s);
    if s != [] && s[0] == '-' {
      assert BinaryPrefixLength(ds) == 0;
      assert ds[..0] == [];
    }
    if s == "+" || s == "-" {
      assert ds[..BinaryPrefixLength(ds)] == [];
    }
  }

  /** A leading zero does not change the result, unless the rest is empty or starts with a sign `+`. */
  lemma LeadingZero(s: string)
    requires s != [] && s[0] != '+'
    ensures FromStrRadix2("0" + s) == FromStrRadix2(s)
  {
    var t := "0" + s;
    assert t[0] == '0' && t[1..] == s;
    assert Accumulate(t, 0) == Accumulate(s, 0);
  }

  lemma {:induction false} BinaryValueBelow(ds: string)
    requires AllBinary(ds)
    ensures BinaryValue(ds) < Pow2(|ds|)
    decreases |ds|
  {
    if ds != [] {
      BinaryValueBelow(ds[..|ds| - 1]);
    }
  }

  lemma {:induction false} BinaryValueAtLeast(ds: string)
    requires AllBinary(ds) && ds != [] && ds[0] == '1'
    ensures BinaryValue(ds) >= Pow2(|ds| - 1)
    decreases |ds|
  {
    BinaryValueCons(ds);
  }

  lemma {:induction false} Pow2Add(m: nat, n: nat)
    ensures Pow2(m + n) == Pow2(m) * Pow2(n)
    decreases n
  {
    if n > 0 {
      Pow2Add(m, n - 1);
      assert Pow2(m + n) == 2 * Pow2(m + n - 1);
    }
  }

  lemma Pow2Of32()
    ensures Pow2(32) == U32_LIMIT
  {
    assert Pow2(4) == 16;
    Pow2Add(4, 4);
    Pow2Add(8, 8);
    Pow2Add(16, 16);
  }

  lemma {:induction false} Pow2Grows(m: nat, n: nat)
    requires m <= n
    ensures Pow2(m) <= Pow2(n)
    decreases n
  {
    if m < n {
      Pow2Grows(m, n - 1);
    }
  }

  /** Up to 32 binary digits always fit; 33 digits with a leading `1` never do. */
  lemma DigitCountBounds(ds: string)
    requires AllBinary(ds) && ds != []
    ensures |ds| <= 32 ==> FromStrRadix2(ds) == Ok(BinaryValue(ds))
    ensures |ds| == 33 && ds[0] == '1' ==> FromStrRadix2(ds) == Err(PosOverflow)
  {
    assert Digits(ds) == ds;
    FromStrRadix2Accepts(ds);
    BinaryValueBelow(ds);
    Pow2Of32();
    if |ds| <= 32 {
      Pow2Grows(|ds|, 32);
    }
    if |ds| == 33 && ds[0] == '1' {
      BinaryValueAtLeast(ds);
      BinaryPrefixWhole(ds);
      FromStrRadix2Errors(ds);
      assert ds[..|ds|] == ds;
    }
  }

  /** The shortest base-2 spelling of a number: its digits, most significant first. */
  function BinaryString(n: nat): (s: string)
    ensures s != [] && AllBinary(s)
  {
    if n < 2 then (if n == 0 then "0" else "1")
    else BinaryString(n / 2) + (if n % 2 == 0 then "0" else "1")
  }

  lemma {:induction false} BinaryStringValue(n: nat)
    ensures BinaryValue(BinaryString(n)) == n
  {
    if n >= 2 {
      var s := BinaryString(n);
      BinaryStringValue(n / 2);
      assert s[..|s| - 1] == BinaryString(n / 2);
    }
  }

  /** Every `u32` written in base 2 parses back to itself. */
  lemma BinaryRoundTrip(n: nat)
    requires n < U32_LIMIT
    ensures FromStrRadix2(BinaryString(n)) == Ok(n)
  {
    var s := BinaryString(n);
    assert s[0] == '0' || s[0] == '1';
    assert Digits(s) == s;
    BinaryStringValue(n);
    FromStrRadix2Accepts(s);
  }
}
