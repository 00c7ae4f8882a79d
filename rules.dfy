/**
 * The rewrite-rule table of src/main.rs:84-95 as plain data: each rule is a
 * name and two pattern texts, which `rewrite!` reads as patterns. A pattern
 * is read like a term, except that a childless token starting with `?` (and
 * longer than `?` itself) is a pattern variable.
 */
module Rules {
  import opened Wrappers
  import opened Bits
  import opened Language
  import opened Lexer
  import opened Reader

  datatype Pattern = PVar(name: string) | PNode(op: Logic, args: seq<Pattern>)

  /** Tokens that denote pattern variables. */
  predicate IsVarName(s: string) {
    |s| > 1 && s[0] == '?'
  }

  /** The pattern a read term denotes: `?x` leaves become variables. */
  function PatternOf(t: Term): Pattern
    decreases t, 1
  {
    if t.children == [] && t.op.Symbol? && IsVarName(t.op.name) then PVar(t.op.name)
    else PNode(t.op, PatternsOf(t.children))
  }

  function PatternsOf(cs: seq<Term>): (ps: seq<Pattern>)
    ensures |ps| == |cs|
    decreases cs, 0
  {
    if cs == [] then [] else [PatternOf(cs[0])] + PatternsOf(cs[1..])
  }

  /** Reads a pattern text (the `.parse().unwrap()` that `rewrite!` applies to each side). */
  function ReadPattern(s: string): (r: Result<Pattern, ParseError>)
    ensures r.Ok? <==> Parse(s).Ok?
    ensures r.Ok? ==> PatternWF(r.value)
  {
    match Parse(s)
    case Err(e) => Err(e)
    case Ok(t) => ParseThenShow(s); PatternOfWF(t); Ok(PatternOf(t))
  }

  /** Every node of the pattern has a child count its label accepts. */
  predicate PatternWF(p: Pattern) {
    p.PNode? ==>
      Accepts(ArityOf(p.op), |p.args|) && forall i :: 0 <= i < |p.args| ==> PatternWF(p.args[i])
  }

  /** The variables a pattern mentions. */
  function Vars(p: Pattern): set<string>
    decreases p, 1
  {
    match p
    case PVar(v) => {v}
    case PNode(_, args) => ArgVars(args)
  }

  function ArgVars(ps: seq<Pattern>): set<string>
    decreases ps, 0
  {
    if ps == [] then {} else Vars(ps[0]) + ArgVars(ps[1..])
  }

  lemma {:induction false} PatternsOfIndex(cs: seq<Term>, i: nat)
    requires i < |cs|
    ensures PatternsOf(cs)[i] == PatternOf(cs[i])
    decreases |cs|
  {
    if i > 0 {
      PatternsOfIndex(cs[1..], i - 1);
    }
  }

  /** A printable term denotes a pattern that respects the arities. */
  lemma {:induction false} PatternOfWF(t: Term)
    requires Printable(t)
    ensures PatternWF(PatternOf(t))
    decreases t
  {
    var p := PatternOf(t);
    if p.PNode? {
      forall i | 0 <= i < |p.args| ensures PatternWF(p.args[i]) {
        PatternsOfIndex(t.children, i);
        PatternOfWF(t.children[i]);
      }
    }
  }

  /** Whatever pattern text reads at all reads as a pattern that respects the arities. */
  lemma ReadPatternWF(s: string)
    ensures ReadPattern(s).Ok? ==> PatternWF(ReadPattern(s).value)
  {
    ParseThenShow(s);
    if Parse(s).Ok? {
      PatternOfWF(Parse(s).value);
    }
  }

  /** The term a pattern stands for when its variables are read as symbols. */
  function TermOf(p: Pattern): Term
    decreases p, 1
  {
    match p
    case PVar(v) => Leaf(Symbol(v))
    case PNode(op, args) => Node(op, TermsOf(args))
  }

  function TermsOf(ps: seq<Pattern>): (ts: seq<Term>)
    ensures |ts| == |ps|
    decreases ps, 0
  {
    if ps == [] then [] else [TermOf(ps[0])] + TermsOf(ps[1..])
  }

  lemma {:induction false} TermsOfIndex(ps: seq<Pattern>, i: nat)
    requires i < |ps|
    ensures TermsOf(ps)[i] == TermOf(ps[i])
    decreases |ps|
  {
    if i > 0 {
      TermsOfIndex(ps[1..], i - 1);
    }
  }

  /** The s-expression text of a pattern, as written in a `rewrite!` rule. */
  function ShowPattern(p: Pattern): string {
    Show(TermOf(p))
  }

  /**
   * Patterns whose text reads back as themselves: every variable is a `?`
   * token, and every symbol is a readable token that is not one.
   */
  predicate Readable(p: Pattern) {
    match p
    case PVar(v) => IsVarName(v) && IsAtomText(v)
    case PNode(op, args) =>
      (op.Symbol? ==> IsAtomText(op.name) && IsSymbolName(op.name) && !IsVarName(op.name))
      && forall i :: 0 <= i < |args| ==> Readable(args[i])
  }

  lemma {:induction false} ReadableTerm(p: Pattern)
    requires PatternWF(p) && Readable(p)
    ensures Printable(TermOf(p)) && PatternOf(TermOf(p)) == p
    decreases p
  {
    match p
    case PVar(v) =>
      assert v[0] == '?';
    case PNode(op, args) =>
      var ts := TermOf(p).children;
      forall i | 0 <= i < |args| ensures Printable(ts[i]) && PatternOf(ts[i]) == args[i] {
        TermsOfIndex(args, i);
        ReadableTerm(args[i]);
      }
      var qs := PatternsOf(ts);
      forall i | 0 <= i < |args| ensures qs[i] == args[i] {
        PatternsOfIndex(ts, i);
      }
      assert qs == args;
  }

  /** The text of a well-formed readable pattern reads back as that pattern. */
  lemma PatternRoundTrip(p: Pattern)
    requires PatternWF(p) && Readable(p)
    ensures ReadPattern(ShowPattern(p)) == Ok(p)
  {
    ReadableTerm(p);
    RoundTrip(TermOf(p));
  }

  /** One entry of the table: `rewrite!(name; lhs => rhs)`, with both sides read. */
  datatype Rule = Rule(name: string, lhs: Pattern, rhs: Pattern)

  const A: Pattern := PVar("?a")
  const B: Pattern := PVar("?b")
  const C: Pattern := PVar("?c")
  const ZERO: Pattern := PNode(BitLeaf(Zero), [])

  function P2(op: Logic, x: Pattern, y: Pattern): Pattern { PNode(op, [x, y]) }

  /** The table of src/main.rs:84-95, in order, each text read as a pattern. */
  const RULES: seq<Rule> := [
    Rule("fold", P2(And, A, ZERO), ZERO),
    Rule("commute-and", P2(And, A, B), P2(And, B, A)),
    Rule("commute-or", P2(Or, A, B), P2(Or, B, A)),
    Rule("commute-xor", P2(Xor, A, B), P2(Xor, B, A)),
    Rule("commute-out", P2(Output, A, B), P2(Output, B, A)),
    Rule("assoc-and", P2(And, A, P2(And, B, C)), P2(And, P2(And, A, B), C)),
    Rule("assoc-or", P2(Or, A, P2(Or, B, C)), P2(Or, P2(Or, A, B), C)),
    Rule("assoc-xor", P2(Xor, A, P2(Xor, B, C)), P2(Xor, P2(Xor, A, B), C)),
    Rule("rewrite-xor", P2(Or, P2(And, A, B), P2(And, C, B)), P2(And, P2(Xor, A, C), B)),
    Rule("rewrite-add",
      P2(Output, P2(Xor, P2(Xor, A, B), C), P2(Or, P2(And, P2(Xor, A, B), C), P2(And, A, B))),
      PNode(Add, [A, B, C]))
  ]

  /** The two pattern texts of each rule, as written at src/main.rs:85-94, in table order. */
  const RULE_TEXTS: seq<(string, string)> := [
    ("(and ?a 0)", "0"),
    ("(and ?a ?b)", "(and ?b ?a)"),
    ("(or ?a ?b)", "(or ?b ?a)"),
    ("(xor ?a ?b)", "(xor ?b ?a)"),
    ("(output ?a ?b)", "(output ?b ?a)"),
    ("(and ?a (and ?b ?c))", "(and (and ?a ?b) ?c)"),
    ("(or ?a (or ?b ?c))", "(or (or ?a ?b) ?c)"),
    ("(xor ?a (xor ?b ?c))", "(xor (xor ?a ?b) ?c)"),
    ("(or (and ?a ?b) (and ?c ?b))", "(and (xor ?a ?c) ?b)"),
    ("(output (xor (xor ?a ?b) ?c) (or (and (xor ?a ?b) ?c) (and ?a ?b)))", "(add ?a ?b ?c)")
  ]

  /**
   * A rule `rewrite!` can build: both sides respect the arities and read
   * back from their rendering, and the right side only uses variables the left
   * side binds.
   */
  predicate RuleWF(r: Rule) {
    PatternWF(r.lhs) && PatternWF(r.rhs) && Readable(r.lhs) && Readable(r.rhs)
    && Vars(r.rhs) <= Vars(r.lhs)
  }

  lemma P2Facts(op: Logic, x: Pattern, y: Pattern)
    requires Accepts(ArityOf(op), 2)
    ensures PatternWF(P2(op, x, y)) <==> PatternWF(x) && PatternWF(y)
    ensures Readable(P2(op, x, y)) <==> Readable(x) && Readable(y)
    ensures Vars(P2(op, x, y)) == Vars(x) + Vars(y)
  {
    var args := [x, y];
    assert args[0] == x && args[1] == y;
    assert args[1..] == [y];
    assert [y][1..] == [];
    assert ArgVars([y]) == Vars(y) + ArgVars([]);
    assert ArgVars(args) == Vars(x) + ArgVars([y]);
    if PatternWF(x) && PatternWF(y) {
      assert forall i :: 0 <= i < 2 ==> PatternWF(args[i]);
    }
    if Readable(x) && Readable(y) {
      assert forall i :: 0 <= i < 2 ==> Readable(args[i]);
    }
  }

  lemma LeavesFacts()
    ensures PatternWF(A) && PatternWF(B) && PatternWF(C) && PatternWF(ZERO)
    ensures Readable(A) && Readable(B) && Readable(C) && Readable(ZERO)
    ensures Vars(A) == {"?a"} && Vars(B) == {"?b"} && Vars(C) == {"?c"} && Vars(ZERO) == {}
  {
  }

  /** `(add ?a ?b ?c)` */
  lemma AddFacts()
    ensures PatternWF(PNode(Add, [A, B, C])) && Readable(PNode(Add, [A, B, C]))
    ensures Vars(PNode(Add, [A, B, C])) == {"?a", "?b", "?c"}
  {
    var ps := [A, B, C];
    LeavesFacts();
    assert ps[1..] == [B, C] && ps[1..][1..] == [C] && ps[1..][1..][1..] == [];
    assert ArgVars([C]) == {"?c"} + ArgVars([]);
    assert ArgVars([B, C]) == {"?b"} + ArgVars([C]);
    assert ArgVars(ps) == {"?a"} + ArgVars([B, C]);
    assert forall i :: 0 <= i < 3 ==> PatternWF(ps[i]) && Readable(ps[i]);
  }

  lemma CommuteWF(r: Rule, op: Logic)
    requires Accepts(ArityOf(op), 2)
    requires r.lhs == P2(op, A, B) && r.rhs == P2(op, B, A)
    ensures RuleWF(r)
  {
    LeavesFacts();
    P2Facts(op, A, B);
    P2Facts(op, B, A);
  }

  lemma AssocWF(r: Rule, op: Logic)
    requires Accepts(ArityOf(op), 2)
    requires r.lhs == P2(op, A, P2(op, B, C)) && r.rhs == P2(op, P2(op, A, B), C)
    ensures RuleWF(r)
  {
    LeavesFacts();
    P2Facts(op, B, C);
    P2Facts(op, A, P2(op, B, C));
    P2Facts(op, A, B);
    P2Facts(op, P2(op, A, B), C);
  }

  lemma RewriteXorWF(r: Rule)
    requires r.lhs == P2(Or, P2(And, A, B), P2(And, C, B)) && r.rhs == P2(And, P2(Xor, A, C), B)
    ensures RuleWF(r)
  {
    LeavesFacts();
    P2Facts(And, A, B);
    P2Facts(And, C, B);
    P2Facts(Or, P2(And, A, B), P2(And, C, B));
    P2Facts(Xor, A, C);
    P2Facts(And, P2(Xor, A, C), B);
  }

  lemma RewriteAddWF(r: Rule)
    requires r.lhs == P2(Output, P2(Xor, P2(Xor, A, B), C), P2(Or, P2(And, P2(Xor, A, B), C), P2(And, A, B)))
    requires r.rhs == PNode(Add, [A, B, C])
    ensures RuleWF(r)
  {
    LeavesFacts();
    AddFacts();
    var ab := P2(Xor, A, B);
    P2Facts(Xor, A, B);
    P2Facts(Xor, ab, C);
    P2Facts(And, ab, C);
    P2Facts(And, A, B);
    P2Facts(Or, P2(And, ab, C), P2(And, A, B));
    P2Facts(Output, P2(Xor, ab, C), P2(Or, P2(And, ab, C), P2(And, A, B)));
  }

  lemma FoldWF(r: Rule)
    requires r.lhs == P2(And, A, ZERO) && r.rhs == ZERO
    ensures RuleWF(r)
  {
    LeavesFacts();
    P2Facts(And, A, ZERO);
  }

  lemma RuleWFAt(i: nat)
    requires i < |RULES|
    ensures RuleWF(RULES[i])
  {
    var r := RULES[i];
    if i == 0 { FoldWF(r); }
    else if i == 1 { CommuteWF(r, And); }
    else if i == 2 { CommuteWF(r, Or); }
    else if i == 3 { CommuteWF(r, Xor); }
    else if i == 4 { CommuteWF(r, Output); }
    else if i == 5 { AssocWF(r, And); }
    else if i == 6 { AssocWF(r, Or); }
    else if i == 7 { AssocWF(r, Xor); }
    else if i == 8 { RewriteXorWF(r); }
    else { RewriteAddWF(r); }
  }

  /**
   * Every rule of the table can be built: its patterns respect the arities,
   * read back from their renderings, and bind on the left every variable the
   * right uses.
   */
  lemma RulesWellFormed()
    ensures forall i :: 0 <= i < |RULES| ==> RuleWF(RULES[i])
  {
    forall i | 0 <= i < |RULES| ensures RuleWF(RULES[i]) {
      RuleWFAt(i);
    }
  }

  /**
   * Every pattern text of the table, as written in the source, reads back as
   * the rule's pattern: the `unwrap`s in `rewrite!` succeed.
   */
  lemma RulesRead(i: nat)
    requires i < |RULES|
    ensures ReadPattern(RULE_TEXTS[i].0) == Ok(RULES[i].lhs)
    ensures ReadPattern(RULE_TEXTS[i].1) == Ok(RULES[i].rhs)
  {
    RulesWellFormed();
    RuleText(i);
    PatternRoundTrip(RULES[i].lhs);
    PatternRoundTrip(RULES[i].rhs);
  }

  /** `fold` rewrites to the constant 0: its right side has no variables. */
  lemma FoldIsGround()
    ensures RULES[0].name == "fold" && Vars(RULES[0].rhs) == {}
  {
    LeavesFacts();
  }

  /** The rule names are pairwise distinct. */
  lemma RuleNamesDistinct()
    ensures forall i, j :: 0 <= i < j < |RULES| ==> RULES[i].name != RULES[j].name
  {
  }

  /*
   * Renderings of binary patterns. The lemmas below first reduce a pattern's
   * rendering to nested `Bin` calls, and separately evaluate those calls on
   * the literal strings, so that no proof has to do both at once.
   */
  lemma ShowP2(op: Logic, x: Pattern, y: Pattern)
    requires !IsLeaf(op)
    ensures ShowPattern(P2(op, x, y)) == Bin(OpText(op), ShowPattern(x), ShowPattern(y))
  {
    var ps := [x, y];
    assert ps[1..] == [y] && ps[1..][1..] == [];
    assert TermsOf(ps) == [TermOf(x), TermOf(y)];
    ShowBinary(op, TermOf(x), TermOf(y));
  }

  lemma VarTexts()
    ensures ShowPattern(A) == "?a" && ShowPattern(B) == "?b" && ShowPattern(C) == "?c"
  {
  }

  lemma CommuteShape(op: Logic)
    requires !IsLeaf(op)
    ensures ShowPattern(P2(op, A, B)) == Bin(OpText(op), "?a", "?b")
    ensures ShowPattern(P2(op, B, A)) == Bin(OpText(op), "?b", "?a")
  {
    VarTexts();
    ShowP2(op, A, B);
    ShowP2(op, B, A);
  }

  lemma AssocShape(op: Logic)
    requires !IsLeaf(op)
    ensures ShowPattern(P2(op, A, P2(op, B, C))) == Bin(OpText(op), "?a", Bin(OpText(op), "?b", "?c"))
    ensures ShowPattern(P2(op, P2(op, A, B), C)) == Bin(OpText(op), Bin(OpText(op), "?a", "?b"), "?c")
  {
    VarTexts();
    ShowP2(op, B, C);
    ShowP2(op, A, P2(op, B, C));
    ShowP2(op, A, B);
    ShowP2(op, P2(op, A, B), C);
  }

  lemma RewriteXorShape()
    ensures ShowPattern(P2(Or, P2(And, A, B), P2(And, C, B))) == Bin("or", Bin("and", "?a", "?b"), Bin("and", "?c", "?b"))
    ensures ShowPattern(P2(And, P2(Xor, A, C), B)) == Bin("and", Bin("xor", "?a", "?c"), "?b")
  {
    VarTexts();
    ShowP2(And, A, B);
    ShowP2(And, C, B);
    ShowP2(Or, P2(And, A, B), P2(And, C, B));
    ShowP2(Xor, A, C);
    ShowP2(And, P2(Xor, A, C), B);
  }

  lemma RewriteAddShape()
    ensures ShowPattern(P2(Output, P2(Xor, P2(Xor, A, B), C), P2(Or, P2(And, P2(Xor, A, B), C), P2(And, A, B)))) ==
      Bin("output", Bin("xor", Bin("xor", "?a", "?b"), "?c"), Bin("or", Bin("and", Bin("xor", "?a", "?b"), "?c"), Bin("and", "?a", "?b")))
  {
    VarTexts();
    var ab := P2(Xor, A, B);
    ShowP2(Xor, A, B);
    ShowP2(Xor, ab, C);
    ShowP2(And, ab, C);
    ShowP2(And, A, B);
    ShowP2(Or, P2(And, ab, C), P2(And, A, B));
    ShowP2(Output, P2(Xor, ab, C), P2(Or, P2(And, ab, C), P2(And, A, B)));
  }

  /** `(add ?a ?b ?c)`: a node with three children. */
  lemma AddText()
    ensures ShowPattern(PNode(Add, [A, B, C])) == "(add ?a ?b ?c)"
  {
    var a, b, c := Leaf(Symbol("?a")), Leaf(Symbol("?b")), Leaf(Symbol("?c"));
    assert [C][1..] == [] && [B, C][1..] == [C] && [A, B, C][1..] == [B, C];
    assert TermsOf([C]) == [c];
    assert TermsOf([B, C]) == [b, c];
    assert TermsOf([A, B, C]) == [a, b, c];
    assert [c][1..] == [] && [b, c][1..] == [c] && [a, b, c][1..] == [b, c];
    assert ShowChildren([c]) == " ?c";
    assert ShowChildren([b, c]) == " ?b" + " ?c";
    assert ShowChildren([a, b, c]) == " ?a" + " ?b" + " ?c";
  }

  // The `Bin` calls of each rule, evaluated on literal strings, a few at a time.

  lemma AndStrings()
    ensures Bin("and", "?a", "?b") == "(and ?a ?b)" && Bin("and", "?b", "?a") == "(and ?b ?a)"
  {
  }

  lemma OrStrings()
    ensures Bin("or", "?a", "?b") == "(or ?a ?b)" && Bin("or", "?b", "?a") == "(or ?b ?a)"
  {
  }

  lemma XorStrings()
    ensures Bin("xor", "?a", "?b") == "(xor ?a ?b)" && Bin("xor", "?b", "?a") == "(xor ?b ?a)"
  {
  }

  lemma OutputStrings()
    ensures Bin("output", "?a", "?b") == "(output ?a ?b)" && Bin("output", "?b", "?a") == "(output ?b ?a)"
  {
  }

  lemma AssocAndStrings()
    ensures Bin("and", "?b", "?c") == "(and ?b ?c)"
    ensures Bin("and", "?a", "(and ?b ?c)") == "(and ?a (and ?b ?c))"
    ensures Bin("and", "(and ?a ?b)", "?c") == "(and (and ?a ?b) ?c)"
  {
  }

  lemma AssocOrStrings()
    ensures Bin("or", "?b", "?c") == "(or ?b ?c)"
    ensures Bin("or", "?a", "(or ?b ?c)") == "(or ?a (or ?b ?c))"
    ensures Bin("or", "(or ?a ?b)", "?c") == "(or (or ?a ?b) ?c)"
  {
  }

  lemma AssocXorStrings()
    ensures Bin("xor", "?b", "?c") == "(xor ?b ?c)"
    ensures Bin("xor", "?a", "(xor ?b ?c)") == "(xor ?a (xor ?b ?c))"
    ensures Bin("xor", "(xor ?a ?b)", "?c") == "(xor (xor ?a ?b) ?c)"
  {
  }

  lemma RewriteXorStrings()
    ensures Bin("and", "?c", "?b") == "(and ?c ?b)"
    ensures Bin("or", "(and ?a ?b)", "(and ?c ?b)") == "(or (and ?a ?b) (and ?c ?b))"
  {
  }

  lemma RewriteXorRightStrings()
    ensures Bin("xor", "?a", "?c") == "(xor ?a ?c)"
    ensures Bin("and", "(xor ?a ?c)", "?b") == "(and (xor ?a ?c) ?b)"
  {
  }

  /** The carry half of `rewrite-add`'s left side. */
  lemma CarryStrings()
    ensures Bin("and", "(xor ?a ?b)", "?c") == "(and (xor ?a ?b) ?c)"
  {
  }

  lemma CarryOrStrings()
    ensures Bin("or", "(and (xor ?a ?b) ?c)", "(and ?a ?b)") == "(or (and (xor ?a ?b) ?c) " + "(and ?a ?b))"
  {
  }

  lemma CarryOrJoin()
    ensures "(or (and (xor ?a ?b) ?c) " + "(and ?a ?b))" == "(or (and (xor ?a ?b) ?c) (and ?a ?b))"
  {
  }

  /** A binary rendering cut after the blank that follows its first child. */
  lemma BinHalves(n: string, x: string, y: string)
    ensures Bin(n, x, y) == ("(" + n + " " + x + " ") + (y + ")")
  {
  }

  lemma RewriteAddStrings()
    ensures Bin("output", "(xor (xor ?a ?b) ?c)", "(or (and (xor ?a ?b) ?c) (and ?a ?b))") ==
      "(output (xor (xor ?a ?b) ?c) " + "(or (and (xor ?a ?b) ?c) (and ?a ?b)))"
  {
    BinHalves("output", "(xor (xor ?a ?b) ?c)", "(or (and (xor ?a ?b) ?c) (and ?a ?b))");
    assert "(" + "output" + " " + "(xor (xor ?a ?b) ?c)" + " " == "(output (xor (xor ?a ?b) ?c) ";
    assert "(or (and (xor ?a ?b) ?c) (and ?a ?b))" + ")" == "(or (and (xor ?a ?b) ?c) (and ?a ?b)))";
  }

  lemma RewriteAddJoin()
    ensures "(output (xor (xor ?a ?b) ?c) " + "(or (and (xor ?a ?b) ?c) (and ?a ?b)))" ==
      "(output (xor (xor ?a ?b) ?c) (or (and (xor ?a ?b) ?c) (and ?a ?b)))"
  {
  }

  /** The texts of `fold` as written at src/main.rs:85. */
  lemma FoldText()
    ensures ShowPattern(RULES[0].lhs) == "(and ?a 0)" && ShowPattern(RULES[0].rhs) == "0"
  {
    var t := TermOf(P2(And, A, ZERO));
    assert TermsOf([ZERO]) == [Leaf(BitLeaf(Zero))];
    assert t == Node(And, [Leaf(Symbol("?a")), Leaf(BitLeaf(Zero))]);
    ShowBinary(And, Leaf(Symbol("?a")), Leaf(BitLeaf(Zero)));
    assert Bin("and", "?a", "0") == "(and ?a 0)";
  }

  // The texts of the other rules as written at src/main.rs:86-94.

  lemma CommuteAndText()
    ensures ShowPattern(RULES[1].lhs) == "(and ?a ?b)" && ShowPattern(RULES[1].rhs) == "(and ?b ?a)"
  {
    CommuteShape(And);
    AndStrings();
  }

  lemma CommuteOrText()
    ensures ShowPattern(RULES[2].lhs) == "(or ?a ?b)" && ShowPattern(RULES[2].rhs) == "(or ?b ?a)"
  {
    CommuteShape(Or);
    OrStrings();
  }

  lemma CommuteXorText()
    ensures ShowPattern(RULES[3].lhs) == "(xor ?a ?b)" && ShowPattern(RULES[3].rhs) == "(xor ?b ?a)"
  {
    CommuteShape(Xor);
    XorStrings();
  }

  lemma CommuteOutText()
    ensures ShowPattern(RULES[4].lhs) == "(output ?a ?b)" && ShowPattern(RULES[4].rhs) == "(output ?b ?a)"
  {
    CommuteShape(Output);
    OutputStrings();
  }

  lemma AssocAndText()
    ensures ShowPattern(RULES[5].lhs) == "(and ?a (and ?b ?c))" && ShowPattern(RULES[5].rhs) == "(and (and ?a ?b) ?c)"
  {
    AssocShape(And);
    AndStrings();
    AssocAndStrings();
  }

  lemma AssocOrText()
    ensures ShowPattern(RULES[6].lhs) == "(or ?a (or ?b ?c))" && ShowPattern(RULES[6].rhs) == "(or (or ?a ?b) ?c)"
  {
    AssocShape(Or);
    OrStrings();
    AssocOrStrings();
  }

  lemma AssocXorText()
    ensures ShowPattern(RULES[7].lhs) == "(xor ?a (xor ?b ?c))" && ShowPattern(RULES[7].rhs) == "(xor (xor ?a ?b) ?c)"
  {
    AssocShape(Xor);
    XorStrings();
    AssocXorStrings();
  }

  lemma RewriteXorText()
    ensures ShowPattern(RULES[8].lhs) == "(or (and ?a ?b) (and ?c ?b))" && ShowPattern(RULES[8].rhs) == "(and (xor ?a ?c) ?b)"
  {
    RewriteXorShape();
    AndStrings();
    RewriteXorStrings();
    RewriteXorRightStrings();
  }

  lemma RewriteAddText()
    ensures ShowPattern(RULES[9].lhs) == "(output (xor (xor ?a ?b) ?c) (or (and (xor ?a ?b) ?c) (and ?a ?b)))"
    ensures ShowPattern(RULES[9].rhs) == "(add ?a ?b ?c)"
  {
    RewriteAddShape();
    XorStrings();
    AssocXorStrings();
    AndStrings();
    CarryStrings();
    CarryOrStrings();
    CarryOrJoin();
    RewriteAddStrings();
    RewriteAddJoin();
    AddText();
  }

  /** Each pattern of the table renders as the text written for it in the source. */
  lemma RuleText(i: nat)
    requires i < |RULES|
    ensures ShowPattern(RULES[i].lhs) == RULE_TEXTS[i].0
    ensures ShowPattern(RULES[i].rhs) == RULE_TEXTS[i].1
  {
    if i == 0 { FoldText(); }
    else if i == 1 { CommuteAndText(); }
    else if i == 2 { CommuteOrText(); }
    else if i == 3 { CommuteXorText(); }
    else if i == 4 { CommuteOutText(); }
    else if i == 5 { AssocAndText(); }
    else if i == 6 { AssocOrText(); }
    else if i == 7 { AssocXorText(); }
    else if i == 8 { RewriteXorText(); }
    else { RewriteAddText(); }
  }
}
