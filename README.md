# goose: front end and netlist decoders

goose is a small Rust program. It writes a circuit of thirty-two full adders
as an s-expression and reads it into an `egg` term of its own `Logic`
language. It then hands the term and a table of rewrite rules to `egg`'s
equality-saturation runner and extractor. A second file holds serde decoders
for the JSON netlists that Yosys writes.

This project models the parts the repository writes itself:

- **src/main.rs**
  - the four-valued `Bit` with its parser and its `Display`;
  - the `Logic` operator table and the way a token becomes an operator, a bit or a symbol;
  - the s-expression reader `s.parse()` (an `egg::RecExpr<Logic>`);
  - the `adder(i)` text;
  - the loop in `main` that builds the input;
  - the rewrite-rule table, as data.
- **src/json.rs**
  - `u32::from_str_radix(s, 2)`;
  - the three bit-string field decoders;
  - the `Direction` and `CellType` name tables;
  - the untagged `Signal` enum.

Modules:

- `Bits` covers `Bit`, `Bit::from_str` and `Display`.
- `Language` covers the `Logic` labels, their arities and the token classification `FromOp`. Labels are tried in declaration order:
  1. an operator token with an allowed child count;
  2. then `Bit::from_str` on a childless token;
  3. then `Symbol`, which takes any childless token.
- `Lexer` and `Reader` cover the s-expression reader and the rendering `Show` that inverts it.
- `Parens` covers balanced parentheses.
- `Adder` covers the `adder(i)` text and the text the loop in `main` accumulates.
- `Circuit` covers the loop itself, as a method.
- `Rules` covers patterns, the pattern reader, and the rule table: the ten text pairs as written, the patterns they read as, and a proof that each pattern renders as its text.
- `Radix` covers `from_str_radix` in radix 2. It has two definitions: the digit loop as the standard library runs it, and a description without the loop. A lemma shows they agree on every input.
- `Netlist` covers the serde decoders of src/json.rs.

All functions are total. Errors are `Result` values.

## Model

| member | source | states |
|---|---|---|
| `Bits.ParseBit` | src/main.rs:31-43 | succeeds exactly on the four spellings of a bit, and then returns the bit spelled |
| `Bits.ParseBitIff` | src/main.rs:35-39 | `from_str(s) == Ok(b)` iff `s` is the one spelling of `b`, so parsing is a bijection between the four strings and the four bits |
| `Bits.SpellingInjective` | src/main.rs:35-39 | different bits have different spellings |
| `Bits.ParseBitRejects` | src/main.rs:40 | "X", "Z", "" and "00" are errors |
| `Bits.Display` | src/main.rs:15-19 | `Display` prints a non-empty name that is not the bit's spelling and that `from_str` rejects: display and parse do not round-trip |
| `Language.ArityOf` | src/main.rs:47-55 | the table itself, one entry per variant; `Language.ArityBounds` states its bounds, `Language.OperatorCounts` the count of each operator token, and `Language.FromOp` with `Reader.ParsedIsPrintable` make the reader enforce it |
| `Language.ArityBounds` | src/main.rs:47-55 | only leaves and `output` may have no children; every other operator takes a fixed count from 1 to 3 |
| `Language.OperatorCounts` | src/main.rs:47-52 | `not` heads 1 child, `and`/`or`/`xor` 2 and `add` 3, each also accepted with none (as a symbol) and rejected with any other count; `output` heads any number |
| `Language.FromOp` | src/main.rs:45-57 | a token and child count are accepted exactly when some label has that token and accepts that many children; the label found has both |
| `Language.LeafClassification` | src/main.rs:54-55 | any childless token is accepted; it is a bit exactly when `Bit::from_str` accepts it, with that bit, and a symbol exactly when that fails and the token is not `output` |
| `Language.TokenXIsBit` | src/main.rs:54-55 | the token "x" is the bit X, never a symbol |
| `Language.FromOpText` | src/main.rs:45-57 | every label used with an arity it accepts is recognised again from its own token |
| `Lexer.LexAppend` | src/main.rs:80 | lexing two texts that meet at a delimiter gives the tokens of one followed by the tokens of the other |
| `Reader.Parse` | src/main.rs:80 | `s.parse()` for a `RecExpr<Logic>`: lex, read one term, reject trailing tokens; specified by `Reader.RoundTrip` and `Reader.ParseThenShow` |
| `Reader.RoundTrip` | src/main.rs:80 | every term the reader can produce reads back from its rendering |
| `Reader.ParsedIsPrintable` | src/main.rs:80 | whatever the reader produces uses every label with an arity it accepts |
| `Reader.ParseThenShow` | src/main.rs:80 | a text that reads gives a term whose rendering reads as the same term |
| `Parens.ShowBalanced` | src/main.rs:80 | the rendering of every readable term has balanced parentheses |
| `Adder.DecimalString` | src/main.rs:60 | `{i}` writes a non-empty run of decimal digits with no leading zero |
| `Adder.DecimalRoundTrip` | src/main.rs:60 | the decimal digits `{i}` writes denote `i`, so different indices give different digits |
| `Adder.Adder` | src/main.rs:59-61 | `adder(i)` itself; specified by `Adder.AdderFormat`, `Adder.AdderRendering` and `Adder.AdderReads` |
| `Adder.AdderFormat` | src/main.rs:59-61 | `adder(i)` is the format string with the decimal digits of `i` in each of its nine holes |
| `Adder.AdderRendering` | src/main.rs:59-61 | `adder(i)` is the rendering of the full-adder term over `i_a{i}`, `i_b{i}`, `i_cin{i}` |
| `Adder.AdderReads` | src/main.rs:59-61 | `adder(i)` reads as an `output` node with two children, the sum and the majority carry; every operator has its arity; the only symbols are the three inputs of adder `i`; the parentheses balance |
| `Adder.InputsDistinct` | src/main.rs:60 | adders with different indices share no input, and the three inputs of one adder are distinct |
| `Adder.AdderSeriesShown` | src/main.rs:65-66 | what the loop appends after `n` rounds is the rendering of the first `n` adder terms, in order, each after a blank |
| `Adder.CircuitReads` | src/main.rs:64-68 | for every round count `n`, the accumulated text, after its closing `)`, reads as one `output` node over adders `0..n` in increasing order (for `n = 0`, `"(output )"` is a childless `output` node), and its parentheses balance |
| `Circuit.AppendAdder` | src/main.rs:66 | one round of the loop extends the text by `" " + adder(i)`, which is the series for `i + 1` |
| `Circuit.BuildCircuit` | src/main.rs:64-68 | the loop builds `"(output "`, then `" " + adder(i)` for `i` in `0..32`, then `")"`; the `unwrap` of the read succeeds, giving an `output` node whose 32 children are the adder terms in order; the text is balanced |
| `Rules.ReadPattern` | src/main.rs:85-94 | how `rewrite!` reads a pattern text: it reads exactly when the text reads as a term, and the pattern respects the arities |
| `Rules.ReadPatternWF` | src/main.rs:85-94 | any pattern text that reads gives a pattern whose every node respects the arities |
| `Rules.PatternRoundTrip` | src/main.rs:85-94 | the text of every well-formed pattern with `?` variables reads back as that pattern |
| `Rules.RulesWellFormed` | src/main.rs:84-95 | every rule of the table respects the arities on both sides, the rendering `ShowPattern` of each pattern reads back as it, and the right side uses only variables bound on the left |
| `Rules.RuleText` | src/main.rs:85-94 | each pattern of the table renders as exactly the text written for it in the source (the ten text pairs, in order) |
| `Rules.RulesRead` | src/main.rs:85-94 | both texts of every rule, as written in the source, read back as the rule's patterns, so the `unwrap`s of `rewrite!` succeed |
| `Rules.FoldText` | src/main.rs:85 | the two sides of `fold` render as `(and ?a 0)` and `0`, as written |
| `Rules.FoldIsGround` | src/main.rs:85 | `fold` has no variables on its right-hand side |
| `Rules.RuleNamesDistinct` | src/main.rs:85-94 | the ten rule names are pairwise distinct |
| `Radix.FromStrRadix2` | src/json.rs:59 | the result fits in 32 bits, and the error is `Empty` exactly for the empty string |
| `Radix.FromStrRadix2Meaning` | src/json.rs:59 | the digit loop agrees on every input with the description without a loop: overflow of the binary prefix, else a stray character, else the positional value |
| `Radix.FromStrRadix2Accepts` | src/json.rs:59 | a string is accepted iff the digits after an optional `+` are a non-empty run of `0`/`1` whose value is below 2^32; the result is that value |
| `Radix.FromStrRadix2Errors` | src/json.rs:59 | `Empty` iff the input is empty; a lone `+` or `-` and every string starting with `-` are `InvalidDigit`; `PosOverflow` iff the binary prefix of the digits is worth 2^32 or more |
| `Radix.LeadingZero` | src/json.rs:59 | for a non-empty rest that does not start with `+`, a leading `0` does not change the result |
| `Radix.DigitCountBounds` | src/json.rs:59 | 1 to 32 binary digits always parse to their value; 33 digits starting with `1` overflow |
| `Radix.BinaryRoundTrip` | src/json.rs:59 | every `u32` written in base 2 parses back to itself |
| `Netlist.DeserializeBitstring` | src/json.rs:54-60 | a result is a `u32` decoded from a JSON string; any other JSON value is a type error; fully specified by `Netlist.BitstringMeaning` |
| `Netlist.BitstringMeaning` | src/json.rs:54-60 | `deserialize_bitstring` accepts exactly the JSON strings whose digits are a base-2 `u32`, and returns that value; parse failures carry their kind; non-strings are type errors |
| `Netlist.BitstringRoundTrip` | src/json.rs:58-59 | the base-2 spelling of every `u32` decodes to itself |
| `Netlist.DeserializeBitboolean` | src/json.rs:62-70 | a result comes from a string that parses in base 2, and it is true iff the value is 1; non-strings are type errors |
| `Netlist.BitbooleanMeaning` | src/json.rs:62-70 | `deserialize_bitboolean` fails exactly when `deserialize_bitstring` fails, with the same error, and is true iff the value is 1 |
| `Netlist.BitbooleanExamples` | src/json.rs:67-68 | "1" and "001" are true; "0" and "10" are false |
| `Netlist.DeserializeSignal` | src/json.rs:72-78 | a result comes from an unescaped (borrowable) string and is a `u32`; an escaped string is a type error |
| `Netlist.SignalMatchesBitstring` | src/json.rs:72-78 | `deserialize_signal` computes `deserialize_bitstring` on every string it can borrow; an escaped string is a type error |
| `Netlist.DeserializeDirection` | src/json.rs:20-28 | decodes exactly the JSON strings that spell a direction, and returns the direction spelled |
| `Netlist.ParseDirection` | src/json.rs:20-28 | a direction is read exactly from its renamed spelling; every other string is an unknown variant |
| `Netlist.DirectionTable` | src/json.rs:20-28 | each direction has exactly one spelling, and serialising then deserialising is the identity |
| `Netlist.DirectionNamesDistinct` | src/json.rs:22-27 | the three spellings are distinct |
| `Netlist.DeserializeCellType` | src/json.rs:90-102 | decodes exactly the JSON strings that spell a cell type, and returns the cell type spelled |
| `Netlist.ParseCellType` | src/json.rs:90-102 | a cell type is read exactly from its `$`-spelling; every other string is an unknown variant |
| `Netlist.CellTypeTable` | src/json.rs:90-102 | each cell type has exactly one spelling, and serialising then deserialising is the identity |
| `Netlist.CellTypeNamesDistinct` | src/json.rs:92-101 | the five spellings are distinct |
| `Netlist.DeserializeSignalValue` | src/json.rs:30-43 | the untagged `Signal` decoder: `Constant(String)` is tried before `Net(u32)`; a net id fits in 32 bits; specified by `Netlist.SignalChoice` |
| `Netlist.SignalChoice` | src/json.rs:30-43 | every JSON string is a `Constant`, whatever its text ("0" and "x" included); an integer is a `Net` exactly when it fits in a `u32`; any other value matches no variant |
| `Netlist.SignalRoundTrip` | src/json.rs:30-43 | serialising a signal and deserialising it returns the signal |

## Left out

- The `egg` library: the runner, the e-graph, pattern matching, extraction and `AstSize` (src/main.rs:97-109). Its code is not part of this model. The rules are modelled as data only, with no meaning under boolean semantics. In particular, `rewrite-xor` is not claimed sound.
- Printing (src/main.rs:82, 103-105), the unused second e-graph (src/main.rs:108-109) and the commented-out exports.
- The s-expression reader is modelled from its grammar. The `symbolic_expressions` crate behind `RecExpr::from_str` is not part of this model. Only the ASCII blanks space, tab, newline and carriage return separate tokens. Quoted atoms and other Unicode whitespace are not modelled. Error values are coarser than the crate's messages.
- `egg::Symbol` interning and `Id` allocation: symbols are plain strings, and a term is a tree rather than an id-indexed `RecExpr`.
- The pattern reader treats a childless `?x` token as a variable and reads everything else like a term. `egg`'s pattern parser is not part of this model.
- Netlist: serde's general JSON machinery and the derive-only records `Design`, `Module`, `Port`, `Parameters`, `Directions`, `Cell` and `Net` are left out. Only the decoders and the enum tables are modelled.
- Enums written in serde's map form (`{"input": null}`) are not modelled. JSON numbers are integers, or an opaque `JFloat`.
- `Netlist.DeserializeBorrowedStr`: borrowing is modelled as "the JSON text had no escape sequences", as for slice input. A reader input would fail on every borrowed string, and that is not modelled.
- Byte-level details of `from_str_radix`: strings are sequences of characters, not UTF-8 bytes. No non-ASCII character is a digit, so this changes no result.

## Notes

- The adders of `main` are independent. Each has its own `i_cin{i}`, and no carry feeds the next adder (`Adder.InputsDistinct`). The circuit is thirty-two separate full adders under one `output` node, not a ripple-carry adder.
- The text `main` builds has two blanks after `(output`: the one in `"(output "` and the one before the first adder. The reader ignores the extra blank (`Adder.CircuitReads`).
- A bare `output` token reads as an `Output` node with no children. Tokens such as `not` or `and` used without children read as symbols, because `Symbol` accepts any childless token.
