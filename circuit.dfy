/**
 * The part of `main` in src/main.rs that builds the circuit text and reads
 * it (lines 64-68 and 80). The rewriting run, the extraction and the printing
 * that follow belong to the e-graph library and are outside this model.
 */
module Circuit {
  import opened Wrappers
  import opened Language
  import opened Reader
  import opened Parens
  import opened Adder
  import Radix

  /** One iteration of the loop extends the series by the next adder. */
  lemma AppendAdder(s: string, i: nat)
    requires i < Radix.U32_LIMIT && s == "(output " + AdderSeries(i)
    ensures s + " " + Adder.Adder(i) == "(output " + AdderSeries(i + 1)
  {
    var x := AdderSeries(i);
    var y := Adder.Adder(i);
    assert AdderSeries(i + 1) == x + " " + y;
    assert "(output " + x + " " + y == "(output " + (x + " " + y);
  }

  /**
   * Builds the text of 32 full adders under one `output` node, appending one
   * adder per iteration, then reads it. The read succeeds, so the `unwrap`
   * at src/main.rs:80 never panics.
   */
  method BuildCircuit() returns (s: string, expr: Term)
    ensures s == CircuitText(WIDTH)
    ensures Parse(s) == Ok(expr)
    ensures expr == Node(Output, AdderTerms(WIDTH))
    ensures Balanced(s)
  {
    s := "(output ";
    for i := 0 to WIDTH
      invariant s == "(output " + AdderSeries(i)
    {
      AppendAdder(s, i);
      s := s + " " + Adder.Adder(i);
    }
    s := s + ")";
    CircuitReads(WIDTH);
    var r := Parse(s);
    expr := r.value;
  }
}
