/**
 * The four-valued bit that labels the constant leaves of the logic language
 * (`enum Bit` in src/main.rs), its string parser `Bit::from_str` and its
 * `Display` implementation.
 */
module Bits {
  import opened Wrappers

  datatype Bit = Zero | One | X | Z

  /** `BitParseError`: a unit error carrying no data. */
  datatype BitParseError = BitParseError

  /** The one string that `from_str` maps to each bit. */
  function Spelling(b: Bit): (s: string)
    ensures |s| == 1
  {
    match b
    case Zero => "0"
    case One => "1"
    case X => "x"
    case Z => "z"
  }

  /** `Bit::from_str`: exactly the four lower-case spellings are accepted. */
  function ParseBit(s: string): (r: Result<Bit, BitParseError>)
    ensures r.Ok? <==> exists b :: Spelling(b) == s
    ensures r.Ok? ==> Spelling(r.value) == s
  {
    if s == "0" then assert Spelling(Zero) == s; Ok(Zero)
    else if s == "1" then assert Spelling(One) == s; Ok(One)
    else if s == "x" then assert Spelling(X) == s; Ok(X)
    else if s == "z" then assert Spelling(Z) == s; Ok(Z)
    else Err(BitParseError)
  }

  /** Parsing and spelling are inverse: each bit has exactly one accepted spelling. */
  lemma ParseBitIff(s: string, b: Bit)
    ensures ParseBit(s) == Ok(b) <==> s == Spelling(b)
  {
  }

  /** Different bits are spelled differently. */
  lemma SpellingInjective(b: Bit, c: Bit)
    ensures Spelling(b) == Spelling(c) ==> b == c
  {
  }

  /**
   * `Display for Bit` writes the `Debug` form, i.e. the variant name. None of
   * these names is a spelling that `from_str` accepts, so printing a bit and
   * parsing it back always fails.
   */
  function Display(b: Bit): (s: string)
    ensures ParseBit(s).Err?
    ensures |s| > 0 && s != Spelling(b)
  {
    match b
    case Zero => "Zero"
    case One => "One"
    case X => "X"
    case Z => "Z"
  }

  /** Concrete rejections: upper-case letters, the empty string and "00". */
  lemma ParseBitRejects()
    ensures ParseBit("X").Err? && ParseBit("Z").Err?
    ensures ParseBit("").Err? && ParseBit("00").Err?
  {
  }
}
