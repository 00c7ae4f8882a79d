/**
 * Tokens of the s-expression syntax that `s.parse()` reads at src/main.rs:80:
 * parentheses, and atoms that run up to the next blank or parenthesis.
 */
module Lexer {

  datatype Token = Open | Close | Atom(text: string)

  predicate IsSpace(c: char) {
    c == ' ' || c == '\t' || c == '\n' || c == '\r'
  }

  predicate IsDelimiter(c: char) {
    IsSpace(c) || c == '(' || c == ')'
  }

  /** A non-empty run of characters that are neither blanks nor parentheses. */
  predicate IsAtomText(s: string) {
    |s| > 0 && forall i :: 0 <= i < |s| ==> !IsDelimiter(s[i])
  }

  /** The length of the longest delimiter-free prefix of `s`. */
  function AtomLength(s: string): (k: nat)
    ensures k <= |s|
    ensures forall i :: 0 <= i < k ==> !IsDelimiter(s[i])
    ensures k < |s| ==> IsDelimiter(s[k])
  {
    if s == [] || IsDelimiter(s[0]) then 0 else 1 + AtomLength(s[1..])
  }

  /** The three properties of `AtomLength` determine it. */
  lemma AtomLengthIs(s: string, k: nat)
    requires k <= |s|
    requires forall i :: 0 <= i < k ==> !IsDelimiter(s[i])
    requires k < |s| ==> IsDelimiter(s[k])
    ensures AtomLength(s) == k
  {
  }

  /** Splits text into tokens; blanks only separate. */
  function Lex(s: string): seq<Token>
    decreases |s|
  {
    if s == [] then []
    else if IsSpace(s[0]) then Lex(s[1..])
    else if s[0] == '(' then [Open] + Lex(s[1..])
    else if s[0] == ')' then [Close] + Lex(s[1..])
    else
      var k := AtomLength(s);
      [Atom(s[..k])] + Lex(s[k..])
  }

  predicate AtomsAreText(ts: seq<Token>) {
    forall i :: 0 <= i < |ts| ==> ts[i].Atom? ==> IsAtomText(ts[i].text)
  }

  /** Every atom the lexer produces is a non-empty run of non-delimiters. */
  lemma {:induction false} LexAtomsAreText(s: string)
    ensures AtomsAreText(Lex(s))
    decreases |s|
  {
    if s != [] {
      if IsDelimiter(s[0]) {
        LexDelimiterStep(s);
        LexAtomsAreText(s[1..]);
      } else {
        LexAtomStep(s);
        LexAtomsAreText(s[AtomLength(s)..]);
      }
    }
  }

  /** No atom is split across the boundary between `a` and `b`. */
  predicate Separated(a: string, b: string) {
    a == [] || b == [] || IsDelimiter(a[|a| - 1]) || IsDelimiter(b[0])
  }

  /** The tokens a single delimiter contributes. */
  function DelimiterTokens(c: char): seq<Token> {
    if c == '(' then [Open] else if c == ')' then [Close] else []
  }

  lemma LexDelimiterStep(s: string)
    requires s != [] && IsDelimiter(s[0])
    ensures Lex(s) == DelimiterTokens(s[0]) + Lex(s[1..])
  {
  }

  lemma LexAtomStep(s: string)
    requires s != [] && !IsDelimiter(s[0])
    ensures Lex(s) == [Atom(s[..AtomLength(s)])] + Lex(s[AtomLength(s)..])
  {
  }

  /** Lexing distributes over a concatenation that does not glue two atoms together. */
  lemma {:induction false} LexAppend(a: string, b: string)
    requires Separated(a, b)
    ensures Lex(a + b) == Lex(a) + Lex(b)
    decreases |a|
  {
    if a == [] {
      assert a + b == b;
    } else if IsDelimiter(a[0]) {
      var ab := a + b;
      assert ab[0] == a[0];
      assert ab[1..] == a[1..] + b;
      LexDelimiterStep(ab);
      LexDelimiterStep(a);
      LexAppend(a[1..], b);
    } else {
      var ab := a + b;
      var k := AtomLength(a);
      assert ab[0] == a[0];
      AtomLengthIs(ab, k);
      assert ab[..k] == a[..k];
      assert ab[k..] == a[k..] + b;
      LexAtomStep(ab);
      LexAtomStep(a);
      LexAppend(a[k..], b);
    }
  }

  /** An atom on its own lexes to itself. */
  lemma LexAtom(a: string)
    requires IsAtomText(a)
    ensures Lex(a) == [Atom(a)]
  {
    AtomLengthIs(a, |a|);
    assert a[..|a|] == a;
    assert a[|a|..] == [];
  }

  /** A leading blank is skipped. */
  lemma LexSpace(s: string)
    ensures Lex(" " + s) == Lex(s)
  {
    assert (" " + s)[1..] == s;
  }

  /** A leading parenthesis is a token of its own. */
  lemma LexParen(s: string)
    ensures Lex("(" + s) == [Open] + Lex(s)
    ensures Lex(")" + s) == [Close] + Lex(s)
  {
    assert ("(" + s)[1..] == s;
    assert (")" + s)[1..] == s;
  }
}
