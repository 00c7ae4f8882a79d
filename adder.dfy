/**
 * The circuit text that src/main.rs feeds to the reader: `adder(i)`, one
 * full adder over the inputs `i_a{i}`, `i_b{i}` and `i_cin{i}` whose outputs
 * are the sum and the carry, and the loop in `main` that places 32 of them
 * under one `output` node.
 */
module Adder {
  import opened Wrappers
  import opened Bits
  import opened Language
  import opened Lexer
  import opened Reader
  import opened Parens
  import Radix

  /** The number of adders `main` generates (`for i in 0..32`). */
  const WIDTH: nat := 32

  function DigitChar(d: nat): char
    requires d < 10
  {
    "0123456789"[d]
  }

  predicate IsDigit(c: char) {
    '0' <= c <= '9'
  }

  /** The decimal form in which `format!` writes an unsigned integer. */
  function DecimalString(n: nat): (s: string)
    ensures |s| > 0 && forall k :: 0 <= k < |s| ==> IsDigit(s[k])
    ensures |s| > 1 ==> s[0] != '0'
  {
    if n < 10 then [DigitChar(n)] else DecimalString(n / 10) + [DigitChar(n % 10)]
  }

  function DigitValue(c: char): nat
    requires IsDigit(c)
  {
    c as int - '0' as int
  }

  /** The number a string of decimal digits denotes. */
  function DecimalValue(s: string): nat
    requires forall k :: 0 <= k < |s| ==> IsDigit(s[k])
  {
    if s == [] then 0
    else 10 * DecimalValue(s[..|s| - 1]) + DigitValue(s[|s| - 1])
  }

  /** Writing a number in decimal loses nothing: the digits denote the number. */
  lemma {:induction false} DecimalRoundTrip(n: nat)
    ensures DecimalValue(DecimalString(n)) == n
  {
    var s := DecimalString(n);
    if n >= 10 {
      DecimalRoundTrip(n / 10);
      assert s[..|s| - 1] == DecimalString(n / 10);
    }
  }

  lemma DecimalInjective(i: nat, j: nat)
    ensures DecimalString(i) == DecimalString(j) ==> i == j
  {
    DecimalRoundTrip(i);
    DecimalRoundTrip(j);
  }

  /** The three input names of adder `i`. */
  function InputA(i: nat): string { "i_a" + DecimalString(i) }
  function InputB(i: nat): string { "i_b" + DecimalString(i) }
  function InputCin(i: nat): string { "i_cin" + DecimalString(i) }

  /**
   * The literal parts of the `format!` string of `adder`, in order, between
   * the nine occurrences of `{i}`.
   */
  const ADDER_PIECES: seq<string> := [
    "(output (xor (xor i_a", " i_b", ") i_cin", ") (or (or (and i_a", " i_b",
    ") (and i_a", " i_cin", ")) (and i_b", " i_cin", ")))"]

  /**
   * `adder(i)`: the `format!` text with every `{i}` written as the decimal
   * digits of `i` (`AdderFormat` spells it out).
   */
  function Adder(i: nat): string
    requires i < Radix.U32_LIMIT
  {
    Chain(DecimalString(i), ADDER_PIECES)
  }

  /** The term that `adder(i)` writes down: the sum bit and the majority carry. */
  function AdderTerm(i: nat): Term {
    var a, b, c := Leaf(Symbol(InputA(i))), Leaf(Symbol(InputB(i))), Leaf(Symbol(InputCin(i)));
    Node(Output, [
      Node(Xor, [Node(Xor, [a, b]), c]),
      Node(Or, [Node(Or, [Node(And, [a, b]), Node(And, [a, c])]), Node(And, [b, c])])
    ])
  }

  /** The adder's text in nested form, with `d` the index digits. */
  function AdderShape(d: string): string {
    var a, b, c := "i_a" + d, "i_b" + d, "i_cin" + d;
    Bin("output", Bin("xor", Bin("xor", a, b), c), Bin("or", Bin("or", Bin("and", a, b), Bin("and", a, c)), Bin("and", b, c)))
  }

  /*
   * Texts of the form p0 + d + p1 + d + ... + pn, built left to right like
   * the `format!` output of `adder`. The lemmas below regroup such texts one
   * concatenation at a time, which keeps every proof step small.
   */
  function Chain(d: string, ps: seq<string>): string
    requires |ps| >= 1
  {
    if |ps| == 1 then ps[0] else Chain(d, ps[..|ps| - 1]) + d + ps[|ps| - 1]
  }

  function PrependPiece(x: string, ps: seq<string>): seq<string>
    requires |ps| >= 1
  {
    [x + ps[0]] + ps[1..]
  }

  function AppendPiece(ps: seq<string>, y: string): seq<string>
    requires |ps| >= 1
  {
    ps[..|ps| - 1] + [ps[|ps| - 1] + y]
  }

  function JoinPieces(ps: seq<string>, qs: seq<string>): seq<string>
    requires |ps| >= 1 && |qs| >= 1
  {
    ps[..|ps| - 1] + [ps[|ps| - 1] + qs[0]] + qs[1..]
  }

  lemma ChainSnoc(d: string, ps: seq<string>, p: string)
    requires |ps| >= 1
    ensures Chain(d, ps + [p]) == Chain(d, ps) + d + p
  {
    assert (ps + [p])[..|ps|] == ps;
  }

  lemma ChainAppend(d: string, ps: seq<string>, y: string)
    requires |ps| >= 1
    ensures Chain(d, ps) + y == Chain(d, AppendPiece(ps, y))
  {
    var qs := AppendPiece(ps, y);
    if |ps| > 1 {
      assert qs[..|qs| - 1] == ps[..|ps| - 1];
    }
  }

  lemma {:induction false} ChainPrepend(d: string, x: string, ps: seq<string>)
    requires |ps| >= 1
    ensures x + Chain(d, ps) == Chain(d, PrependPiece(x, ps))
    decreases |ps|
  {
    var qs := PrependPiece(x, ps);
    if |ps| > 1 {
      var init := ps[..|ps| - 1];
      ChainPrepend(d, x, init);
      assert qs[..|qs| - 1] == PrependPiece(x, init);
      assert x + (Chain(d, init) + d + ps[|ps| - 1]) == (x + Chain(d, init)) + d + ps[|ps| - 1];
    }
  }

  lemma {:induction false} ChainJoin(d: string, ps: seq<string>, qs: seq<string>)
    requires |ps| >= 1 && |qs| >= 1
    ensures Chain(d, ps) + Chain(d, qs) == Chain(d, JoinPieces(ps, qs))
    decreases |qs|
  {
    var rs := JoinPieces(ps, qs);
    if |qs| == 1 {
      ChainAppend(d, ps, qs[0]);
      assert rs == AppendPiece(ps, qs[0]);
    } else {
      var init := qs[..|qs| - 1];
      ChainJoin(d, ps, init);
      assert rs[..|rs| - 1] == JoinPieces(ps, init);
      assert Chain(d, ps) + (Chain(d, init) + d + qs[|qs| - 1]) == (Chain(d, ps) + Chain(d, init)) + d + qs[|qs| - 1];
    }
  }

  /** The pieces of a binary node rendered around two chains. */
  function BinPieces(name: string, xs: seq<string>, ys: seq<string>): seq<string>
    requires |xs| >= 1 && |ys| >= 1
  {
    AppendPiece(JoinPieces(AppendPiece(PrependPiece("(" + name + " ", xs), " "), ys), ")")
  }

  lemma BinPiecesOf(name: string, xs: seq<string>, ys: seq<string>)
    requires |xs| >= 2 && |ys| >= 2
    ensures BinPieces(name, xs, ys)
         == ["(" + name + " " + xs[0]] + xs[1..|xs| - 1] + [xs[|xs| - 1] + " " + ys[0]] + ys[1..|ys| - 1] + [ys[|ys| - 1] + ")"]
  {
    var p1 := PrependPiece("(" + name + " ", xs);
    assert p1 == ["(" + name + " " + xs[0]] + xs[1..];
    var p2 := AppendPiece(p1, " ");
    assert p2 == ["(" + name + " " + xs[0]] + xs[1..|xs| - 1] + [xs[|xs| - 1] + " "];
    var p3 := JoinPieces(p2, ys);
    assert p3 == ["(" + name + " " + xs[0]] + xs[1..|xs| - 1] + [xs[|xs| - 1] + " " + ys[0]] + ys[1..];
  }

  lemma BinChain(name: string, d: string, xs: seq<string>, ys: seq<string>)
    requires |xs| >= 1 && |ys| >= 1
    ensures Bin(name, Chain(d, xs), Chain(d, ys)) == Chain(d, BinPieces(name, xs, ys))
  {
    var x, y := Chain(d, xs), Chain(d, ys);
    var p1 := PrependPiece("(" + name + " ", xs);
    ChainPrepend(d, "(" + name + " ", xs);
    var p2 := AppendPiece(p1, " ");
    ChainAppend(d, p1, " ");
    var p3 := JoinPieces(p2, ys);
    ChainJoin(d, p2, ys);
    ChainAppend(d, p3, ")");
    assert Bin(name, x, y) == ("(" + name + " ") + x + " " + y + ")";
  }

  /** The text of `adder(i)` is its format string with the digits of `i` in every hole. */
  lemma AdderFormat(i: nat)
    requires i < Radix.U32_LIMIT
    ensures var d := DecimalString(i);
      Adder(i) == "(output (xor (xor i_a" + d + " i_b" + d + ") i_cin" + d + ") (or (or (and i_a" + d + " i_b" + d
        + ") (and i_a" + d + " i_cin" + d + ")) (and i_b" + d + " i_cin" + d + ")))"
  {
    var d, p := DecimalString(i), ADDER_PIECES;
    assert Chain(d, p[..1]) == p[0];
    ChainSnoc(d, p[..1], p[1]); assert p[..1] + [p[1]] == p[..2];
    ChainSnoc(d, p[..2], p[2]); assert p[..2] + [p[2]] == p[..3];
    ChainSnoc(d, p[..3], p[3]); assert p[..3] + [p[3]] == p[..4];
    ChainSnoc(d, p[..4], p[4]); assert p[..4] + [p[4]] == p[..5];
    ChainSnoc(d, p[..5], p[5]); assert p[..5] + [p[5]] == p[..6];
    ChainSnoc(d, p[..6], p[6]); assert p[..6] + [p[6]] == p[..7];
    ChainSnoc(d, p[..7], p[7]); assert p[..7] + [p[7]] == p[..8];
    ChainSnoc(d, p[..8], p[8]); assert p[..8] + [p[8]] == p[..9];
    ChainSnoc(d, p[..9], p[9]); assert p[..9] + [p[9]] == p;
  }

  /** The pieces of a binary node over two plain variables. */
  lemma BinLeaves(name: string, x: string, y: string)
    ensures BinPieces(name, [x, ""], [y, ""]) == ["(" + name + " " + x, " " + y, ")"]
  {
    var ps := BinPieces(name, [x, ""], [y, ""]);
    BinPiecesOf(name, [x, ""], [y, ""]);
    assert ps[0] == "(" + name + " " + x && ps[1] == " " + y && ps[2] == ")" && |ps| == 3;
  }

  const SUM_PIECES: seq<string> := ["(xor (xor i_a", " i_b", ") i_cin", ")"]
  const PAIRS_PIECES: seq<string> := ["(or (and i_a", " i_b", ") (and i_a", " i_cin", "))"]
  const CARRY_PIECES: seq<string> := ["(or (or (and i_a", " i_b", ") (and i_a", " i_cin", ")) (and i_b", " i_cin", "))"]

  lemma XorPieces()
    ensures BinPieces("xor", ["i_a", ""], ["i_b", ""]) == ["(xor i_a", " i_b", ")"]
  {
    BinLeaves("xor", "i_a", "i_b");
    assert "(" + "xor" + " " + "i_a" == "(xor i_a" && " " + "i_b" == " i_b";
  }

  lemma SumPieces()
    ensures BinPieces("xor", ["(xor i_a", " i_b", ")"], ["i_cin", ""]) == SUM_PIECES
  {
    var x1, c := ["(xor i_a", " i_b", ")"], ["i_cin", ""];
    BinPiecesOf("xor", x1, c);
    var sum := BinPieces("xor", x1, c);
    assert sum[0] == "(xor (xor i_a" && sum[1] == " i_b" && sum[2] == ") i_cin" && sum[3] == ")" && |sum| == 4;
  }

  lemma AndPieces(x: string, y: string, p0: string, p1: string)
    requires p0 == "(and " + x && p1 == " " + y
    ensures BinPieces("and", [x, ""], [y, ""]) == [p0, p1, ")"]
  {
    BinLeaves("and", x, y);
    assert "(" + "and" + " " + x == "(and " + x;
  }

  lemma PairsPieces()
    ensures BinPieces("or", ["(and i_a", " i_b", ")"], ["(and i_a", " i_cin", ")"]) == PAIRS_PIECES
  {
    var ab, ac := ["(and i_a", " i_b", ")"], ["(and i_a", " i_cin", ")"];
    BinPiecesOf("or", ab, ac);
    var o1 := BinPieces("or", ab, ac);
    assert o1[0] == "(or (and i_a" && o1[1] == " i_b" && o1[2] == ") (and i_a" && o1[3] == " i_cin" && o1[4] == "))" && |o1| == 5;
  }

  lemma CarryPieces()
    ensures BinPieces("or", PAIRS_PIECES, ["(and i_b", " i_cin", ")"]) == CARRY_PIECES
  {
    var bc := ["(and i_b", " i_cin", ")"];
    BinPiecesOf("or", PAIRS_PIECES, bc);
    var carry := BinPieces("or", PAIRS_PIECES, bc);
    assert carry[0] == "(or (or (and i_a" && carry[1] == " i_b" && carry[2] == ") (and i_a" && carry[3] == " i_cin";
    assert carry[4] == ")) (and i_b" && carry[5] == " i_cin" && carry[6] == "))" && |carry| == 7;
  }

  lemma OutputJoints()
    ensures "(" + "output" + " " + SUM_PIECES[0] == ADDER_PIECES[0]
    ensures SUM_PIECES[3] + " " + CARRY_PIECES[0] == ADDER_PIECES[3]
    ensures CARRY_PIECES[6] + ")" == ADDER_PIECES[9]
  {
  }

  lemma OutputPieces()
    ensures BinPieces("output", SUM_PIECES, CARRY_PIECES) == ADDER_PIECES
  {
    BinPiecesOf("output", SUM_PIECES, CARRY_PIECES);
    OutputJoints();
    assert SUM_PIECES[1..3] == ADDER_PIECES[1..3];
    assert CARRY_PIECES[1..6] == ADDER_PIECES[4..9];
    assert ADDER_PIECES == [ADDER_PIECES[0]] + ADDER_PIECES[1..3] + [ADDER_PIECES[3]] + ADDER_PIECES[4..9] + [ADDER_PIECES[9]];
  }

  /** A variable name followed by the index digits, as a chain of two pieces. */
  lemma VarChain(d: string, v: string)
    ensures Chain(d, [v, ""]) == v + d
  {
  }

  lemma SumChain(d: string)
    ensures Bin("xor", Bin("xor", "i_a" + d, "i_b" + d), "i_cin" + d) == Chain(d, SUM_PIECES)
  {
    VarChain(d, "i_a");
    VarChain(d, "i_b");
    VarChain(d, "i_cin");
    BinChain("xor", d, ["i_a", ""], ["i_b", ""]);
    XorPieces();
    BinChain("xor", d, ["(xor i_a", " i_b", ")"], ["i_cin", ""]);
    SumPieces();
  }

  lemma AndChain(d: string, x: string, y: string, p0: string, p1: string)
    requires p0 == "(and " + x && p1 == " " + y
    ensures Bin("and", x + d, y + d) == Chain(d, [p0, p1, ")"])
  {
    VarChain(d, x);
    VarChain(d, y);
    BinChain("and", d, [x, ""], [y, ""]);
    AndPieces(x, y, p0, p1);
  }

  lemma CarryChain(d: string)
    ensures Bin("or", Bin("or", Bin("and", "i_a" + d, "i_b" + d), Bin("and", "i_a" + d, "i_cin" + d)), Bin("and", "i_b" + d, "i_cin" + d))
         == Chain(d, CARRY_PIECES)
  {
    AndChain(d, "i_a", "i_b", "(and i_a", " i_b");
    AndChain(d, "i_a", "i_cin", "(and i_a", " i_cin");
    AndChain(d, "i_b", "i_cin", "(and i_b", " i_cin");
    BinChain("or", d, ["(and i_a", " i_b", ")"], ["(and i_a", " i_cin", ")"]);
    PairsPieces();
    BinChain("or", d, PAIRS_PIECES, ["(and i_b", " i_cin", ")"]);
    CarryPieces();
  }

  lemma ShapeChain(d: string)
    ensures AdderShape(d) == Chain(d, ADDER_PIECES)
  {
    SumChain(d);
    CarryChain(d);
    BinChain("output", d, SUM_PIECES, CARRY_PIECES);
    OutputPieces();
  }

  /** The `format!` text of `adder(i)` is the nested rendering. */
  lemma AdderText(i: nat)
    requires i < Radix.U32_LIMIT
    ensures Adder(i) == AdderShape(DecimalString(i))
  {
    ShapeChain(DecimalString(i));
  }

  lemma ShowAdderTerm(i: nat)
    ensures Show(AdderTerm(i)) == AdderShape(DecimalString(i))
  {
    var a, b, c := Leaf(Symbol(InputA(i))), Leaf(Symbol(InputB(i))), Leaf(Symbol(InputCin(i)));
    assert Show(a) == InputA(i) && Show(b) == InputB(i) && Show(c) == InputCin(i);
    var x1 := Node(Xor, [a, b]);
    var n1, n2, n3 := Node(And, [a, b]), Node(And, [a, c]), Node(And, [b, c]);
    var o1 := Node(Or, [n1, n2]);
    ShowBinary(Xor, a, b);
    ShowBinary(Xor, x1, c);
    ShowBinary(And, a, b);
    ShowBinary(And, a, c);
    ShowBinary(And, b, c);
    ShowBinary(Or, n1, n2);
    ShowBinary(Or, o1, n3);
    ShowBinary(Output, Node(Xor, [x1, c]), Node(Or, [o1, n3]));
  }

  /** `adder(i)` is the rendering of the adder term. */
  lemma AdderRendering(i: nat)
    requires i < Radix.U32_LIMIT
    ensures Adder(i) == Show(AdderTerm(i))
  {
    AdderText(i);
    ShowAdderTerm(i);
  }

  /** An input name: a fixed prefix that does not begin like `output`, then the index digits. */
  lemma InputNameIsSymbol(v: string, d: string)
    requires IsAtomText(v) && |v| >= 2 && v[0] != 'o'
    requires forall k :: 0 <= k < |d| ==> IsDigit(d[k])
    ensures IsAtomText(v + d) && IsSymbolName(v + d)
  {
    var s := v + d;
    forall k | 0 <= k < |s| ensures !IsDelimiter(s[k]) {
      if k >= |v| {
        assert s[k] == d[k - |v|];
      }
    }
    assert s[0] == v[0];
  }

  lemma InputsAreSymbols(i: nat)
    ensures IsAtomText(InputA(i)) && IsSymbolName(InputA(i))
    ensures IsAtomText(InputB(i)) && IsSymbolName(InputB(i))
    ensures IsAtomText(InputCin(i)) && IsSymbolName(InputCin(i))
  {
    var d := DecimalString(i);
    InputNameIsSymbol("i_a", d);
    InputNameIsSymbol("i_b", d);
    InputNameIsSymbol("i_cin", d);
  }

  /** The adder term is one the reader can produce: right arities, readable symbol names. */
  lemma AdderTermPrintable(i: nat)
    ensures Printable(AdderTerm(i))
  {
    InputsAreSymbols(i);
    var a, b, c := Leaf(Symbol(InputA(i))), Leaf(Symbol(InputB(i))), Leaf(Symbol(InputCin(i)));
    assert Printable(a) && Printable(b) && Printable(c);
    assert Printable(Node(Xor, [a, b])) && Printable(Node(And, [a, b]));
    assert Printable(Node(And, [a, c])) && Printable(Node(And, [b, c]));
    assert Printable(Node(Xor, [Node(Xor, [a, b]), c]));
    assert Printable(Node(Or, [Node(And, [a, b]), Node(And, [a, c])]));
    assert Printable(Node(Or, [Node(Or, [Node(And, [a, b]), Node(And, [a, c])]), Node(And, [b, c])]));
  }

  /** The adder term reads back from its rendering, and that rendering balances. */
  lemma AdderTermReads(i: nat)
    ensures Parse(Show(AdderTerm(i))) == Ok(AdderTerm(i))
    ensures WellFormed(AdderTerm(i))
    ensures Balanced(Show(AdderTerm(i)))
  {
    AdderTermPrintable(i);
    RoundTrip(AdderTerm(i));
    PrintableIsWellFormed(AdderTerm(i));
    ShowBalanced(AdderTerm(i));
  }

  lemma AdderTermSymbols(i: nat)
    ensures SymbolsWithin(AdderTerm(i), {InputA(i), InputB(i), InputCin(i)})
  {
    var names := {InputA(i), InputB(i), InputCin(i)};
    var a, b, c := Leaf(Symbol(InputA(i))), Leaf(Symbol(InputB(i))), Leaf(Symbol(InputCin(i)));
    assert SymbolsWithin(a, names) && SymbolsWithin(b, names) && SymbolsWithin(c, names);
    assert SymbolsWithin(Node(Xor, [Node(Xor, [a, b]), c]), names);
    assert SymbolsWithin(Node(Or, [Node(Or, [Node(And, [a, b]), Node(And, [a, c])]), Node(And, [b, c])]), names);
  }

  /**
   * `adder(i)` reads as the full adder over its own three inputs: an `output`
   * node whose first child is the sum `(a xor b) xor cin` and whose second is
   * the carry `(a and b) or (a and cin) or (b and cin)`; its parentheses balance.
   */
  lemma AdderReads(i: nat)
    requires i < Radix.U32_LIMIT
    ensures Parse(Adder(i)) == Ok(AdderTerm(i))
    ensures AdderTerm(i).op == Output && |AdderTerm(i).children| == 2
    ensures WellFormed(AdderTerm(i))
    ensures SymbolsWithin(AdderTerm(i), {InputA(i), InputB(i), InputCin(i)})
    ensures Balanced(Adder(i))
  {
    AdderRendering(i);
    AdderTermReads(i);
    AdderTermSymbols(i);
  }

  lemma DropPrefix(p: string, x: string, y: string)
    requires p + x == p + y
    ensures x == y
  {
    assert x == (p + x)[|p|..];
    assert y == (p + y)[|p|..];
  }

  /** Different adders share no input: every name belongs to one adder and one role. */
  lemma InputsDistinct(i: nat, j: nat)
    ensures InputA(i) == InputA(j) <==> i == j
    ensures InputB(i) == InputB(j) <==> i == j
    ensures InputCin(i) == InputCin(j) <==> i == j
    ensures InputA(i) != InputB(j) && InputA(i) != InputCin(j) && InputB(i) != InputCin(j)
  {
    var d, e := DecimalString(i), DecimalString(j);
    if InputA(i) == InputA(j) {
      DropPrefix("i_a", d, e);
    }
    if InputB(i) == InputB(j) {
      DropPrefix("i_b", d, e);
    }
    if InputCin(i) == InputCin(j) {
      DropPrefix("i_cin", d, e);
    }
    DecimalInjective(i, j);
    assert InputA(i)[2] == 'a' && InputB(j)[2] == 'b' && InputCin(j)[2] == 'c';
    assert InputB(i)[2] == 'b';
  }

  /** The text that the loop in `main` appends after `"(output "`: `" " + adder(j)` for each `j < n`. */
  function AdderSeries(n: nat): string
    requires n <= Radix.U32_LIMIT
  {
    if n == 0 then "" else AdderSeries(n - 1) + " " + Adder(n - 1)
  }

  lemma {:induction false} AdderSeriesStartsBlank(n: nat)
    requires 0 < n <= Radix.U32_LIMIT
    ensures AdderSeries(n) != [] && AdderSeries(n)[0] == ' '
  {
    if n > 1 {
      AdderSeriesStartsBlank(n - 1);
    }
  }

  /** The terms of the first `n` adders, in order. */
  function AdderTerms(n: nat): (ts: seq<Term>)
    ensures |ts| == n && forall j :: 0 <= j < n ==> ts[j] == AdderTerm(j)
  {
    seq(n, (j: int) requires 0 <= j => AdderTerm(j))
  }

  lemma {:induction false} ShowChildrenSnoc(cs: seq<Term>, c: Term)
    ensures ShowChildren(cs + [c]) == ShowChildren(cs) + " " + Show(c)
    decreases |cs|
  {
    if cs == [] {
      assert ([] + [c])[1..] == [];
      assert ShowChildren([c]) == " " + Show(c) + "";
    } else {
      var ds := cs + [c];
      assert ds[0] == cs[0] && ds[1..] == cs[1..] + [c];
      ShowChildrenSnoc(cs[1..], c);
    }
  }

  lemma AdderTermsSnoc(n: nat)
    ensures AdderTerms(n + 1) == AdderTerms(n) + [AdderTerm(n)]
  {
  }

  lemma {:induction false} AdderSeriesShown(n: nat)
    requires n <= Radix.U32_LIMIT
    ensures AdderSeries(n) == ShowChildren(AdderTerms(n))
  {
    if n > 0 {
      AdderSeriesShown(n - 1);
      AdderTermsSnoc(n - 1);
      ShowChildrenSnoc(AdderTerms(n - 1), AdderTerm(n - 1));
      AdderRendering(n - 1);
    }
  }

  lemma AdderTermsPrintable(n: nat)
    ensures AllPrintable(AdderTerms(n))
  {
    forall j | 0 <= j < n ensures Printable(AdderTerms(n)[j]) {
      AdderTermPrintable(j);
    }
  }

  /** The text `main` hands to the reader after `n` iterations, closed by `")"`. */
  function CircuitText(n: nat): string
    requires n <= Radix.U32_LIMIT
  {
    "(output " + AdderSeries(n) + ")"
  }

  /**
   * The closed text reads as a single `output` node over the `n` adders, in
   * order, and its parentheses balance. The blank of `"(output "` doubles
   * the blank before the first adder, which the lexer ignores.
   */
  lemma CircuitReads(n: nat)
    requires n <= Radix.U32_LIMIT
    ensures Parse(CircuitText(n)) == Ok(Node(Output, AdderTerms(n)))
    ensures Balanced(CircuitText(n))
  {
    if n == 0 {
      assert AdderTerms(0) == [];
      EmptyOutputReads();
      BlankTextBalanced("");
    } else {
      AdderSeriesShown(n);
      AdderSeriesStartsBlank(n);
      AdderTermsPrintable(n);
      OutputListReads(AdderSeries(n), AdderTerms(n));
    }
  }

  /** With no adders the text is `"(output )"`, which reads as an `output` node without children. */
  lemma EmptyOutputReads()
    ensures Parse("(output " + "" + ")") == Ok(Node(Output, []))
  {
    var t := Node(Output, []);
    assert Printable(t);
    RoundTrip(t);
    assert Show(t) == "(" + ("output" + ")");
    assert "(output " + "" + ")" == "(" + ("output" + (" " + ")"));
    LexParen("output" + (" " + ")"));
    LexParen("output" + ")");
    LexAppend("output", " " + ")");
    LexAppend("output", ")");
    LexSpace(")");
    ParseDependsOnTokens("(output " + "" + ")", Show(t));
  }

  /**
   * `"(output " + x + ")"` reads as the `output` node over the children that
   * `x` renders: the blank after `output` doubles the one in front of the
   * first child, and the lexer ignores it.
   */
  lemma OutputListReads(x: string, cs: seq<Term>)
    requires x == ShowChildren(cs) && AllPrintable(cs)
    requires x != [] && x[0] == ' '
    ensures Parse("(output " + x + ")") == Ok(Node(Output, cs))
    ensures Balanced("(output " + x + ")")
  {
    var t := Node(Output, cs);
    assert Printable(t);
    RoundTrip(t);
    var s := "(output " + x + ")";
    assert Show(t) == "(" + ("output" + (x + ")"));
    OutputBlank(x);
    ParseDependsOnTokens(s, Show(t));
    ShowChildrenBalanced(cs);
    BlankTextBalanced(x);
  }

  lemma OutputBlank(x: string)
    requires x != [] && x[0] == ' '
    ensures Lex("(output " + x + ")") == Lex("(" + ("output" + (x + ")")))
  {
    assert "(output " + x + ")" == "(" + ("output" + (" " + (x + ")")));
    LexParen("output" + (" " + (x + ")")));
    LexParen("output" + (x + ")"));
    LexAppend("output", " " + (x + ")"));
    LexAppend("output", x + ")");
    LexSpace(x + ")");
  }

  lemma BlankTextBalanced(x: string)
    requires Balanced(x)
    ensures Balanced("(output " + x + ")")
  {
    assert NoParens("output ");
    NoParensBalanced("output ");
    BalancedAppend("output ", x);
    BalancedWrap("output " + x);
    assert "(output " + x + ")" == "(" + ("output " + x) + ")";
  }
}
