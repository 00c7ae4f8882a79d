/**
 * The `Logic` language of src/main.rs (`define_language!`): six operators
 * with fixed arities and two kinds of leaf, a `Bit` constant or a `Symbol`.
 * A term is an operator applied to an ordered sequence of sub-terms.
 */
module Language {
  import opened Wrappers
  import opened Bits

  /** One node label of the language; children are kept by `Term`. */
  datatype Logic = Not | And | Or | Xor | Add | Output | BitLeaf(bit: Bit) | Symbol(name: string)

  /** How many children a label takes. */
  datatype Arity = Exactly(n: nat) | AnyNumber

  predicate Accepts(a: Arity, n: nat) {
    match a
    case Exactly(k) => n == k
    case AnyNumber => true
  }

  /** The arity of each label: `Not(Id)`, `And([Id; 2])`, ..., `Output(Box<[Id]>)`. */
  function ArityOf(op: Logic): Arity {
    match op
    case Not => Exactly(1)
    case And => Exactly(2)
    case Or => Exactly(2)
    case Xor => Exactly(2)
    case Add => Exactly(3)
    case Output => AnyNumber
    case BitLeaf(_) => Exactly(0)
    case Symbol(_) => Exactly(0)
  }

  predicate IsLeaf(op: Logic) {
    op.BitLeaf? || op.Symbol?
  }

  /**
   * Only leaves and `output` can stand without children; every other
   * operator takes a fixed count between one and three.
   */
  lemma ArityBounds(op: Logic)
    ensures Accepts(ArityOf(op), 0) <==> IsLeaf(op) || op == Output
    ensures !IsLeaf(op) && op != Output ==> ArityOf(op).Exactly? && 1 <= ArityOf(op).n <= 3
  {
  }

  /**
   * The child counts at the level of tokens: each operator token heads
   * exactly its own number of children, or none, in which case the token
   * falls through to `Symbol`; `output` heads any number.
   */
  lemma OperatorCounts(n: nat)
    ensures FromOp("not", n).Ok? <==> n <= 1
    ensures FromOp("and", n).Ok? <==> n == 0 || n == 2
    ensures FromOp("or", n).Ok? <==> n == 0 || n == 2
    ensures FromOp("xor", n).Ok? <==> n == 0 || n == 2
    ensures FromOp("add", n).Ok? <==> n == 0 || n == 3
    ensures FromOp("output", n) == Ok(Output)
    ensures n == 1 ==> FromOp("not", n) == Ok(Not)
    ensures n == 2 ==> FromOp("and", n) == Ok(And) && FromOp("or", n) == Ok(Or) && FromOp("xor", n) == Ok(Xor)
    ensures n == 3 ==> FromOp("add", n) == Ok(Add)
    ensures n == 0 ==> FromOp("not", n) == Ok(Symbol("not")) && FromOp("add", n) == Ok(Symbol("add"))
  {
  }

  /** The token that names a label in the s-expression syntax. */
  function OpText(op: Logic): string {
    match op
    case Not => "not"
    case And => "and"
    case Or => "or"
    case Xor => "xor"
    case Add => "add"
    case Output => "output"
    case BitLeaf(b) => Spelling(b)
    case Symbol(name) => name
  }

  datatype FromOpError = FromOpError(op: string, children: nat)

  /**
   * The label chosen for a token `op` heading `n` children. The variants are
   * tried in declaration order: each operator matches its own token with a
   * child count its arity allows; then `Bit::from_str` is tried on a
   * childless token; finally a childless token is always a `Symbol`.
   */
  function FromOp(op: string, n: nat): (r: Result<Logic, FromOpError>)
    ensures r.Ok? ==> OpText(r.value) == op && Accepts(ArityOf(r.value), n)
    ensures r.Err? <==> forall l :: OpText(l) == op ==> !Accepts(ArityOf(l), n)
    ensures r.Ok? && r.value.Symbol? ==> ParseBit(op).Err? && op != "output"
  {
    if op == "not" && n == 1 then Ok(Not)
    else if op == "and" && n == 2 then Ok(And)
    else if op == "or" && n == 2 then Ok(Or)
    else if op == "xor" && n == 2 then Ok(Xor)
    else if op == "add" && n == 3 then Ok(Add)
    else if op == "output" then Ok(Output)
    else if n == 0 && ParseBit(op).Ok? then Ok(BitLeaf(ParseBit(op).value))
    else if n == 0 then Ok(Symbol(op))
    else Err(FromOpError(op, n))
  }

  /**
   * A childless token is always accepted. It is a bit exactly when
   * `Bit::from_str` accepts it (bits are tried before symbols), the
   * operator `output` when it is that token, and a symbol otherwise.
   */
  lemma LeafClassification(tok: string)
    ensures FromOp(tok, 0).Ok?
    ensures FromOp(tok, 0).value.BitLeaf? <==> ParseBit(tok).Ok?
    ensures FromOp(tok, 0).value.BitLeaf? ==> ParseBit(tok) == Ok(FromOp(tok, 0).value.bit)
    ensures FromOp(tok, 0).value.Symbol? <==> ParseBit(tok).Err? && tok != "output"
  {
  }

  /** In particular the token "x" is the bit X, never a variable. */
  lemma TokenXIsBit()
    ensures FromOp("x", 0) == Ok(BitLeaf(X))
  {
  }

  /** Symbol names that read back as the same symbol. */
  predicate IsSymbolName(s: string) {
    ParseBit(s).Err? && s != "output"
  }

  /** A label used with an arity it accepts is recognised again from its own token. */
  lemma FromOpText(op: Logic, n: nat)
    requires Accepts(ArityOf(op), n)
    requires op.Symbol? ==> IsSymbolName(op.name)
    ensures FromOp(OpText(op), n) == Ok(op)
  {
    if op.BitLeaf? {
      ParseBitIff(Spelling(op.bit), op.bit);
    }
  }

  /** A term: a label over an ordered sequence of children (a `RecExpr` unfolded into a tree). */
  datatype Term = Node(op: Logic, children: seq<Term>)

  /** Every node has a child count its label accepts. */
  predicate WellFormed(t: Term) {
    Accepts(ArityOf(t.op), |t.children|)
    && forall i :: 0 <= i < |t.children| ==> WellFormed(t.children[i])
  }

  /** Every symbol leaf of `t` names one of `names`. */
  predicate SymbolsWithin(t: Term, names: set<string>) {
    (t.op.Symbol? ==> t.op.name in names)
    && forall i :: 0 <= i < |t.children| ==> SymbolsWithin(t.children[i], names)
  }

  function Leaf(op: Logic): Term {
    Node(op, [])
  }
}
