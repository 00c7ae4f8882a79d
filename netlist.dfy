/**
 * The hand-written field decoders and the enum tables of the Yosys netlist
 * reader in src/json.rs. JSON values are given already parsed, as serde_json
 * presents them to a deserializer; a string records whether its JSON text
 * used escape sequences, which decides whether it can be borrowed as `&str`.
 */
module Netlist {
  import opened Wrappers
  import opened Radix

  datatype Json =
    | JNull
    | JBool(b: bool)
    | JInt(n: int)
    | JFloat
    | JStr(text: string, escaped: bool)
    | JArray(items: seq<Json>)
    | JObject

  /** Why a value failed to deserialize. */
  datatype DeError =
    | InvalidType               // a JSON value of the wrong kind
    | InvalidValue              // an integer outside the target type
    | Custom(kind: IntErrorKind)  // `serde::de::Error::custom` over a `ParseIntError`
    | UnknownVariant(name: string)
    | NoVariantMatched          // no variant of an untagged enum accepted the value

  /** `String::deserialize`: any JSON string. */
  function DeserializeString(j: Json): (r: Result<string, DeError>)
    ensures r.Ok? <==> j.JStr?
    ensures r.Ok? ==> r.value == j.text
  {
    if j.JStr? then Ok(j.text) else Err(InvalidType)
  }

  /** `<&str>::deserialize`: a string can be borrowed only if its text needed no unescaping. */
  function DeserializeBorrowedStr(j: Json): (r: Result<string, DeError>)
    ensures r.Ok? <==> j.JStr? && !j.escaped
    ensures r.Ok? ==> r.value == j.text
  {
    if j.JStr? && !j.escaped then Ok(j.text) else Err(InvalidType)
  }

  /** `u32::deserialize`: an integer in range. */
  function DeserializeU32(j: Json): (r: Result<nat, DeError>)
    ensures r.Ok? <==> j.JInt? && 0 <= j.n < U32_LIMIT
    ensures r.Ok? ==> r.value == j.n
  {
    if !j.JInt? then Err(InvalidType)
    else if 0 <= j.n < U32_LIMIT then Ok(j.n)
    else Err(InvalidValue)
  }

  /** `from_str_radix(.., 2)` with its error turned into a deserializer error. */
  function Radix2(s: string): Result<nat, DeError> {
    match FromStrRadix2(s)
    case Ok(v) => Ok(v)
    case Err(k) => Err(Custom(k))
  }

  /** `deserialize_bitstring` (src/json.rs:54-60). */
  function DeserializeBitstring(j: Json): (r: Result<nat, DeError>)
    ensures r.Ok? ==> j.JStr? && r.value < U32_LIMIT
    ensures !j.JStr? ==> r == Err(InvalidType)
  {
    match DeserializeString(j)
    case Err(e) => Err(e)
    case Ok(s) => Radix2(s)
  }

  /** `deserialize_bitboolean` (src/json.rs:62-70). */
  function DeserializeBitboolean(j: Json): (r: Result<bool, DeError>)
    ensures r.Ok? ==> j.JStr? && FromStrRadix2(j.text).Ok? && (r.value <==> FromStrRadix2(j.text).value == 1)
    ensures !j.JStr? ==> r == Err(InvalidType)
  {
    match DeserializeString(j)
    case Err(e) => Err(e)
    case Ok(s) =>
      match Radix2(s)
      case Err(e) => Err(e)
      case Ok(i) => Ok(i == 1)
  }

  /** `deserialize_signal` (src/json.rs:72-78): as `deserialize_bitstring`, over a borrowed string. */
  function DeserializeSignal(j: Json): (r: Result<nat, DeError>)
    ensures r.Ok? ==> j.JStr? && !j.escaped && r.value < U32_LIMIT
    ensures j.JStr? && j.escaped ==> r == Err(InvalidType)
  {
    match DeserializeBorrowedStr(j)
    case Err(e) => Err(e)
    case Ok(s) => Radix2(s)
  }

  /**
   * A bit-string field holds the base-2 value of the digits of a JSON
   * string, after an optional `+`, when that value fits in 32 bits; any
   * other string fails with the kind of parse error, and any other JSON
   * value with a type error.
   */
  lemma BitstringMeaning(j: Json)
    ensures DeserializeBitstring(j).Ok? <==>
      j.JStr? && Digits(j.text) != [] && AllBinary(Digits(j.text)) && BinaryValue(Digits(j.text)) < U32_LIMIT
    ensures DeserializeBitstring(j).Ok? ==>
      DeserializeBitstring(j).value == BinaryValue(Digits(j.text)) && DeserializeBitstring(j).value < U32_LIMIT
    ensures j.JStr? && FromStrRadix2(j.text).Err? ==> DeserializeBitstring(j) == Err(Custom(FromStrRadix2(j.text).error))
    ensures !j.JStr? ==> DeserializeBitstring(j) == Err(InvalidType)
  {
    if j.JStr? {
      FromStrRadix2Accepts(j.text);
    }
  }

  /** Every `u32` written in base 2 is read back by the bit-string decoder, with or without escapes. */
  lemma BitstringRoundTrip(n: nat, escaped: bool)
    requires n < U32_LIMIT
    ensures DeserializeBitstring(JStr(BinaryString(n), escaped)) == Ok(n)
  {
    BinaryRoundTrip(n);
  }

  /**
   * A bit-boolean field fails exactly when the bit-string decoder does, with
   * the same error, and is true exactly when the value is 1.
   */
  lemma BitbooleanMeaning(j: Json)
    ensures DeserializeBitboolean(j).Ok? <==> DeserializeBitstring(j).Ok?
    ensures DeserializeBitboolean(j).Err? ==> DeserializeBitboolean(j).error == DeserializeBitstring(j).error
    ensures DeserializeBitboolean(j).Ok? ==> (DeserializeBitboolean(j).value <==> DeserializeBitstring(j).value == 1)
  {
  }

  /** "1" and "001" are true, "0" and "10" are false. */
  lemma BitbooleanExamples()
    ensures DeserializeBitboolean(JStr("1", false)) == Ok(true)
    ensures DeserializeBitboolean(JStr("001", false)) == Ok(true)
    ensures DeserializeBitboolean(JStr("0", false)) == Ok(false)
    ensures DeserializeBitboolean(JStr("10", false)) == Ok(false)
  {
    LeadingZero("01");
    LeadingZero("1");
    assert "0" + "01" == "001" && "0" + "1" == "01";
    BinaryRoundTrip(1);
    BinaryRoundTrip(0);
    BinaryRoundTrip(2);
    assert BinaryString(2) == "10";
  }

  /**
   * The signal decoder agrees with the bit-string decoder on every string
   * that can be borrowed; an escaped string fails with a type error.
   */
  lemma SignalMatchesBitstring(j: Json)
    ensures j.JStr? && !j.escaped ==> DeserializeSignal(j) == DeserializeBitstring(j)
    ensures j.JStr? && j.escaped ==> DeserializeSignal(j) == Err(InvalidType)
    ensures !j.JStr? ==> DeserializeSignal(j) == DeserializeBitstring(j) == Err(InvalidType)
  {
  }

  // Port directions (src/json.rs:20-28).

  datatype Direction = Input | Output | Inout

  function DirectionName(d: Direction): string {
    match d
    case Input => "input"
    case Output => "output"
    case Inout => "inout"
  }

  /** A unit variant is read from its renamed spelling. */
  function ParseDirection(s: string): (r: Result<Direction, DeError>)
    ensures r.Ok? ==> DirectionName(r.value) == s
    ensures r.Err? <==> forall d :: DirectionName(d) != s
    ensures r.Err? ==> r.error == UnknownVariant(s)
  {
    if s == "input" then Ok(Input)
    else if s == "output" then Ok(Output)
    else if s == "inout" then Ok(Inout)
    else
      assert DirectionName(Input) != s && DirectionName(Output) != s && DirectionName(Inout) != s;
      Err(UnknownVariant(s))
  }

  function DeserializeDirection(j: Json): (r: Result<Direction, DeError>)
    ensures r.Ok? <==> j.JStr? && exists d :: DirectionName(d) == j.text
    ensures r.Ok? ==> DirectionName(r.value) == j.text
  {
    match DeserializeString(j)
    case Err(e) => Err(e)
    case Ok(s) => ParseDirection(s)
  }

  function SerializeDirection(d: Direction): Json {
    JStr(DirectionName(d), false)
  }

  /** Each direction has one spelling, and the spelling reads back as it. */
  lemma DirectionTable(d: Direction, s: string)
    ensures ParseDirection(s) == Ok(d) <==> s == DirectionName(d)
    ensures DeserializeDirection(SerializeDirection(d)) == Ok(d)
  {
  }

  lemma DirectionNamesDistinct(d: Direction, e: Direction)
    ensures DirectionName(d) == DirectionName(e) <==> d == e
  {
  }

  // Cell types (src/json.rs:90-102).

  datatype CellType = And | Eq | Or | Xor | Mux

  function CellTypeName(c: CellType): string {
    match c
    case And => "$and"
    case Eq => "$eq"
    case Or => "$or"
    case Xor => "$xor"
    case Mux => "$mux"
  }

  function ParseCellType(s: string): (r: Result<CellType, DeError>)
    ensures r.Ok? ==> CellTypeName(r.value) == s
    ensures r.Err? <==> forall c :: CellTypeName(c) != s
    ensures r.Err? ==> r.error == UnknownVariant(s)
  {
    if s == "$and" then Ok(And)
    else if s == "$eq" then Ok(Eq)
    else if s == "$or" then Ok(Or)
    else if s == "$xor" then Ok(Xor)
    else if s == "$mux" then Ok(Mux)
    else
      assert CellTypeName(And) != s && CellTypeName(Eq) != s && CellTypeName(Or) != s;
      assert CellTypeName(Xor) != s && CellTypeName(Mux) != s;
      Err(UnknownVariant(s))
  }

  function DeserializeCellType(j: Json): (r: Result<CellType, DeError>)
    ensures r.Ok? <==> j.JStr? && exists c :: CellTypeName(c) == j.text
    ensures r.Ok? ==> CellTypeName(r.value) == j.text
  {
    match DeserializeString(j)
    case Err(e) => Err(e)
    case Ok(s) => ParseCellType(s)
  }

  function SerializeCellType(c: CellType): Json {
    JStr(CellTypeName(c), false)
  }

  lemma CellTypeTable(c: CellType, s: string)
    ensures ParseCellType(s) == Ok(c) <==> s == CellTypeName(c)
    ensures DeserializeCellType(SerializeCellType(c)) == Ok(c)
  {
  }

  lemma CellTypeNamesDistinct(c: CellType, e: CellType)
    ensures CellTypeName(c) == CellTypeName(e) <==> c == e
  {
  }

  // Signals (src/json.rs:30-43).

  /** A bit of a port or net: a constant such as "0" or "x", or a net number. */
  datatype Signal = Constant(value: string) | Net(id: nat)

  /** Untagged: the value is tried as `Constant(String)` first, then as `Net(u32)`. */
  function DeserializeSignalValue(j: Json): (r: Result<Signal, DeError>)
    ensures r.Ok? && r.value.Net? ==> r.value.id < U32_LIMIT
  {
    match DeserializeString(j)
    case Ok(s) => Ok(Constant(s))
    case Err(_) =>
      match DeserializeU32(j)
      case Ok(n) => Ok(Net(n))
      case Err(_) => Err(NoVariantMatched)
  }

  /** Whether serde_json has to escape a character of the string. */
  predicate NeedsEscape(s: string) {
    exists i :: 0 <= i < |s| && (s[i] == '"' || s[i] == '\\' || s[i] < ' ')
  }

  function SerializeSignal(x: Signal): Json {
    match x
    case Constant(s) => JStr(s, NeedsEscape(s))
    case Net(n) => JInt(n)
  }

  /**
   * Every JSON string is a constant, whatever its text (even "0" or "x"); an
   * integer is a net exactly when it fits in 32 bits; nothing else is a signal.
   */
  lemma SignalChoice(j: Json)
    ensures j.JStr? ==> DeserializeSignalValue(j) == Ok(Constant(j.text))
    ensures j.JInt? ==> (DeserializeSignalValue(j).Ok? <==> 0 <= j.n < U32_LIMIT)
    ensures j.JInt? && 0 <= j.n < U32_LIMIT ==> DeserializeSignalValue(j) == Ok(Net(j.n))
    ensures !j.JStr? && !j.JInt? ==> DeserializeSignalValue(j) == Err(NoVariantMatched)
  {
  }

  /** Serialising a signal and reading it back gives the signal again. */
  lemma SignalRoundTrip(x: Signal)
    requires x.Net? ==> x.id < U32_LIMIT
    ensures DeserializeSignalValue(SerializeSignal(x)) == Ok(x)
  {
  }
}
