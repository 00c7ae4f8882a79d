/**
 * Reading and writing terms of the `Logic` language as s-expressions: the
 * `s.parse()` of src/main.rs:80 (an `egg::RecExpr<Logic>` read from text),
 * and the inverse rendering. A list `(op c1 ... cn)` becomes the label that
 * `FromOp` picks for `op` and `n`, over the parsed children; a bare atom is
 * `FromOp(atom, 0)`. Children are parsed before their head is classified.
 */
module Reader {
  import opened Wrappers
  import opened Bits
  import opened Language
  import opened Lexer

  datatype ParseError =
    | UnexpectedEnd             // input ended inside an expression, or was empty
    | UnexpectedClose           // a `)` where an expression should start
    | HeadNotAtom               // `()` or a list whose head is itself a list
    | BadOp(op: string, children: nat)  // no label takes this token with this many children
    | TrailingInput             // text after the first complete expression

  /** The shape of a successful parse: a term and the tokens left over, a proper suffix. */
  predicate IsSuffix(rest: seq<Token>, ts: seq<Token>) {
    |rest| <= |ts| && rest == ts[|ts| - |rest|..]
  }

  /** Parses one expression from the front of `ts`. */
  function ParseTerm(ts: seq<Token>): (r: Result<(Term, seq<Token>), ParseError>)
    ensures r.Ok? ==> IsSuffix(r.value.1, ts) && |r.value.1| < |ts|
    decreases |ts|, 0
  {
    if ts == [] then Err(UnexpectedEnd)
    else match ts[0]
      case Close => Err(UnexpectedClose)
      case Atom(a) =>
        (match FromOp(a, 0)
         case Ok(op) => Ok((Node(op, []), ts[1..]))
         case Err(_) => Err(BadOp(a, 0)))
      case Open =>
        if |ts| == 1 then Err(UnexpectedEnd)
        else if !ts[1].Atom? then Err(HeadNotAtom)
        else
          match ParseChildren(ts[2..])
          case Err(e) => Err(e)
          case Ok((cs, rest)) =>
            match FromOp(ts[1].text, |cs|)
            case Err(_) => Err(BadOp(ts[1].text, |cs|))
            case Ok(op) => Ok((Node(op, cs), rest[1..]))
  }

  /** Parses expressions up to (not including) the `)` that closes the list. */
  function ParseChildren(ts: seq<Token>): (r: Result<(seq<Term>, seq<Token>), ParseError>)
    ensures r.Ok? ==> IsSuffix(r.value.1, ts) && r.value.1 != [] && r.value.1[0] == Close
    decreases |ts|, 1
  {
    if ts == [] then Err(UnexpectedEnd)
    else if ts[0] == Close then Ok(([], ts))
    else
      match ParseTerm(ts)
      case Err(e) => Err(e)
      case Ok((t, rest)) =>
        match ParseChildren(rest)
        case Err(e) => Err(e)
        case Ok((cs, rest')) => Ok(([t] + cs, rest'))
  }

  /** Reads a whole text as exactly one expression. */
  function Parse(s: string): Result<Term, ParseError> {
    match ParseTerm(Lex(s))
    case Err(e) => Err(e)
    case Ok((t, rest)) => if rest == [] then Ok(t) else Err(TrailingInput)
  }

  /**
   * Terms that the reader can produce: well formed, and every symbol is a
   * token that reads back as that symbol.
   */
  predicate Printable(t: Term) {
    Accepts(ArityOf(t.op), |t.children|)
    && (t.op.Symbol? ==> IsAtomText(t.op.name) && IsSymbolName(t.op.name))
    && forall i :: 0 <= i < |t.children| ==> Printable(t.children[i])
  }

  predicate AllPrintable(cs: seq<Term>) {
    forall i :: 0 <= i < |cs| ==> Printable(cs[i])
  }

  lemma PrintableIsWellFormed(t: Term)
    requires Printable(t)
    ensures WellFormed(t)
  {
    forall i | 0 <= i < |t.children| {
      PrintableIsWellFormed(t.children[i]);
    }
  }

  /** Renders a term: a childless leaf as its token, anything else as a list. */
  function Show(t: Term): string
    decreases t, 1
  {
    if t.children == [] && IsLeaf(t.op) then OpText(t.op)
    else "(" + OpText(t.op) + ShowChildren(t.children) + ")"
  }

  /** Each child rendered with one blank in front. */
  function ShowChildren(cs: seq<Term>): string
    decreases cs, 0
  {
    if cs == [] then "" else " " + Show(cs[0]) + ShowChildren(cs[1..])
  }

  /** The rendering of a binary node from the renderings of its label and children. */
  function Bin(name: string, x: string, y: string): string {
    "(" + name + " " + x + " " + y + ")"
  }

  lemma ShowBinary(op: Logic, x: Term, y: Term)
    requires !IsLeaf(op)
    ensures Show(Node(op, [x, y])) == Bin(OpText(op), Show(x), Show(y))
  {
    var cs := [x, y];
    assert cs[1..] == [y];
    assert cs[1..][1..] == [];
    assert ShowChildren([y]) == " " + Show(y) + "";
    assert ShowChildren(cs) == " " + Show(x) + ShowChildren([y]);
  }

  /** The tokens of a rendered term. */
  function Tokens(t: Term): seq<Token>
    decreases t, 1
  {
    if t.children == [] && IsLeaf(t.op) then [Atom(OpText(t.op))]
    else [Open, Atom(OpText(t.op))] + ChildTokens(t.children) + [Close]
  }

  function ChildTokens(cs: seq<Term>): seq<Token>
    decreases cs, 0
  {
    if cs == [] then [] else Tokens(cs[0]) + ChildTokens(cs[1..])
  }

  lemma OpTextIsAtom(op: Logic)
    requires op.Symbol? ==> IsAtomText(op.name)
    ensures IsAtomText(OpText(op))
  {
  }

  lemma LexOpenHead(name: string, tail: string)
    requires IsAtomText(name)
    requires tail != [] && IsDelimiter(tail[0])
    ensures Lex("(" + (name + tail)) == [Open, Atom(name)] + Lex(tail)
  {
    LexParen(name + tail);
    LexAppend(name, tail);
    LexAtom(name);
  }

  lemma LexCloseTail(body: string)
    ensures Lex(body + ")") == Lex(body) + [Close]
  {
    LexAppend(body, ")");
    assert ")" == ")" + "";
    LexParen("");
  }

  /** The tokens of a list whose head is the atom `name` and whose body starts with a blank. */
  lemma LexList(name: string, body: string)
    requires IsAtomText(name)
    requires body == [] || body[0] == ' '
    ensures Lex("(" + name + body + ")") == [Open, Atom(name)] + Lex(body) + [Close]
  {
    var tail := body + ")";
    assert "(" + name + body + ")" == "(" + (name + tail);
    assert tail[0] == ' ' || tail[0] == ')';
    LexOpenHead(name, tail);
    LexCloseTail(body);
  }

  /** A rendering is lexed into exactly the term's tokens. */
  lemma {:induction false} LexShow(t: Term)
    requires Printable(t)
    ensures Lex(Show(t)) == Tokens(t)
    decreases t, 1
  {
    OpTextIsAtom(t.op);
    if t.children == [] && IsLeaf(t.op) {
      LexAtom(OpText(t.op));
    } else {
      var body := ShowChildren(t.children);
      assert body == [] || body[0] == ' ';
      LexList(OpText(t.op), body);
      LexShowChildren(t.children);
    }
  }

  lemma {:induction false} LexShowChildren(cs: seq<Term>)
    requires AllPrintable(cs)
    ensures Lex(ShowChildren(cs)) == ChildTokens(cs)
    decreases cs, 0
  {
    if cs != [] {
      var head, tail := Show(cs[0]), ShowChildren(cs[1..]);
      assert ShowChildren(cs) == " " + (head + tail);
      LexSpace(head + tail);
      assert tail == [] || tail[0] == ' ';
      LexAppend(head, tail);
      LexShow(cs[0]);
      LexShowChildren(cs[1..]);
    }
  }

  /** The tokens of a term parse back to the term, whatever follows them. */
  lemma {:induction false} ParseTokens(t: Term, rest: seq<Token>)
    requires Printable(t)
    ensures ParseTerm(Tokens(t) + rest) == Ok((t, rest))
    decreases t, 1
  {
    var ts := Tokens(t) + rest;
    FromOpText(t.op, |t.children|);
    if t.children == [] && IsLeaf(t.op) {
      assert ts[0] == Atom(OpText(t.op)) && ts[1..] == rest;
    } else {
      var inner := ChildTokens(t.children);
      assert ts == [Open, Atom(OpText(t.op))] + (inner + [Close] + rest);
      assert ts[2..] == inner + [Close] + rest;
      ParseChildTokens(t.children, rest);
      assert ([Close] + rest)[1..] == rest;
    }
  }

  lemma {:induction false} ParseChildTokens(cs: seq<Term>, rest: seq<Token>)
    requires AllPrintable(cs)
    ensures ParseChildren(ChildTokens(cs) + [Close] + rest) == Ok((cs, [Close] + rest))
    decreases cs, 0
  {
    var ts := ChildTokens(cs) + [Close] + rest;
    if cs == [] {
      assert ts == [Close] + rest;
    } else {
      var after := ChildTokens(cs[1..]) + [Close] + rest;
      assert ts == Tokens(cs[0]) + after;
      assert Tokens(cs[0])[0] != Close;
      ParseTokens(cs[0], after);
      ParseChildTokens(cs[1..], rest);
      assert [cs[0]] + cs[1..] == cs;
    }
  }

  /** Rendering then reading gives back every printable term. */
  lemma RoundTrip(t: Term)
    requires Printable(t)
    ensures Parse(Show(t)) == Ok(t)
  {
    LexShow(t);
    ParseTokens(t, []);
    assert Tokens(t) + [] == Tokens(t);
  }

  /** Whatever the reader accepts is printable: no label is used with the wrong arity. */
  lemma {:induction false} ParsedIsPrintable(ts: seq<Token>)
    requires AtomsAreText(ts)
    ensures ParseTerm(ts).Ok? ==> Printable(ParseTerm(ts).value.0)
    decreases |ts|, 0
  {
    if ts != [] && ts[0] == Open && |ts| > 1 && ts[1].Atom? {
      ParsedChildrenArePrintable(ts[2..]);
    }
  }

  lemma {:induction false} ParsedChildrenArePrintable(ts: seq<Token>)
    requires AtomsAreText(ts)
    ensures ParseChildren(ts).Ok? ==> AllPrintable(ParseChildren(ts).value.0)
    decreases |ts|, 1
  {
    if ts != [] && ts[0] != Close {
      ParsedIsPrintable(ts);
      var r := ParseTerm(ts);
      if r.Ok? {
        var rest := r.value.1;
        assert rest == ts[|ts| - |rest|..];
        ParsedChildrenArePrintable(rest);
      }
    }
  }

  /** Reading and rendering are inverse on the terms the reader can produce. */
  lemma ParseThenShow(s: string)
    ensures Parse(s).Ok? ==> Printable(Parse(s).value) && Parse(Show(Parse(s).value)) == Parse(s)
  {
    LexAtomsAreText(s);
    ParsedIsPrintable(Lex(s));
    if Parse(s).Ok? {
      RoundTrip(Parse(s).value);
    }
  }

  /** Texts with the same tokens read the same. */
  lemma ParseDependsOnTokens(s: string, s': string)
    requires Lex(s) == Lex(s')
    ensures Parse(s) == Parse(s')
  {
  }
}
