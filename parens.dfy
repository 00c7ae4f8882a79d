/** Parenthesis balance of a text, used for the generated circuit expressions. */
module Parens {
  import opened Language
  import opened Lexer
  import opened Reader

  /** Opening minus closing parentheses. */
  function Depth(s: string): int {
    if s == [] then 0
    else (if s[0] == '(' then 1 else if s[0] == ')' then -1 else 0) + Depth(s[1..])
  }

  /** No prefix closes more than it opened, and the whole text closes everything. */
  predicate Balanced(s: string) {
    Depth(s) == 0 && forall k :: 0 <= k <= |s| ==> Depth(s[..k]) >= 0
  }

  predicate NoParens(s: string) {
    forall i :: 0 <= i < |s| ==> s[i] != '(' && s[i] != ')'
  }

  lemma {:induction false} DepthAppend(a: string, b: string)
    ensures Depth(a + b) == Depth(a) + Depth(b)
    decreases |a|
  {
    if a == [] {
      assert a + b == b;
    } else {
      assert (a + b)[0] == a[0];
      assert (a + b)[1..] == a[1..] + b;
      DepthAppend(a[1..], b);
    }
  }

  lemma {:induction false} NoParensDepth(s: string)
    requires NoParens(s)
    ensures Depth(s) == 0
    decreases |s|
  {
    if s != [] {
      NoParensDepth(s[1..]);
    }
  }

  lemma NoParensBalanced(s: string)
    requires NoParens(s)
    ensures Balanced(s)
  {
    NoParensDepth(s);
    forall k | 0 <= k <= |s| ensures Depth(s[..k]) >= 0 {
      NoParensDepth(s[..k]);
    }
  }

  lemma BalancedAppend(a: string, b: string)
    requires Balanced(a) && Balanced(b)
    ensures Balanced(a + b)
  {
    DepthAppend(a, b);
    forall k | 0 <= k <= |a + b| ensures Depth((a + b)[..k]) >= 0 {
      if k <= |a| {
        assert (a + b)[..k] == a[..k];
      } else {
        assert (a + b)[..k] == a + b[..k - |a|];
        DepthAppend(a, b[..k - |a|]);
      }
    }
  }

  lemma BalancedWrap(s: string)
    requires Balanced(s)
    ensures Balanced("(" + s + ")")
  {
    var w := "(" + s + ")";
    DepthAppend("(", s);
    DepthAppend("(" + s, ")");
    forall k | 0 <= k <= |w| ensures Depth(w[..k]) >= 0 {
      if 1 <= k <= |s| + 1 {
        assert w[..k] == "(" + s[..k - 1];
        DepthAppend("(", s[..k - 1]);
      } else if k == |w| {
        assert w[..k] == w;
      } else {
        assert w[..k] == [];
      }
    }
  }

  /** Every rendering of a printable term is balanced. */
  lemma {:induction false} ShowBalanced(t: Term)
    requires Printable(t)
    ensures Balanced(Show(t))
    decreases t, 1
  {
    OpTextIsAtom(t.op);
    var name := OpText(t.op);
    assert NoParens(name) by {
      forall i | 0 <= i < |name| ensures name[i] != '(' && name[i] != ')' {
        assert !IsDelimiter(name[i]);
      }
    }
    NoParensBalanced(name);
    if !(t.children == [] && IsLeaf(t.op)) {
      ShowChildrenBalanced(t.children);
      BalancedAppend(name, ShowChildren(t.children));
      BalancedWrap(name + ShowChildren(t.children));
      assert "(" + (name + ShowChildren(t.children)) + ")" == Show(t);
    }
  }

  lemma {:induction false} ShowChildrenBalanced(cs: seq<Term>)
    requires AllPrintable(cs)
    ensures Balanced(ShowChildren(cs))
    decreases cs, 0
  {
    if cs == [] {
      NoParensBalanced("");
    } else {
      NoParensBalanced(" ");
      ShowBalanced(cs[0]);
      ShowChildrenBalanced(cs[1..]);
      BalancedAppend(" ", Show(cs[0]));
      BalancedAppend(" " + Show(cs[0]), ShowChildren(cs[1..]));
    }
  }
}
