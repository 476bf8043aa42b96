/*
 * `make_indent` of src/util.rs: the indentation prefix used when the IR is dumped.
 */
module Util {

  /** `n` spaces, defined by peeling off the last one. */
  function Indent(n: nat): string
  {
    if n == 0 then "" else Indent(n - 1) + " "
  }

  lemma {:induction false} IndentShape(n: nat)
    ensures |Indent(n)| == n
    ensures forall i :: 0 <= i < n ==> Indent(n)[i] == ' '
  {
    if n > 0 {
      IndentShape(n - 1);
    }
  }

  /** The indent of `n + 1` extends the indent of `n` by one space; the indent of 0 is empty. */
  lemma IndentGrows(n: nat)
    ensures Indent(0) == ""
    ensures Indent(n + 1) == Indent(n) + " "
  {
  }

  /** Two indents are equal only when their widths are. */
  lemma IndentInjective(m: nat, n: nat)
    requires Indent(m) == Indent(n)
    ensures m == n
  {
    IndentShape(m);
    IndentShape(n);
  }

  /** `make_indent`: pushes one space per step of the loop. */
  method MakeIndent(indent: nat) returns (indents: string)
    ensures indents == Indent(indent)
    ensures |indents| == indent && forall i :: 0 <= i < indent ==> indents[i] == ' '
  {
    indents := "";
    for k := 0 to indent
      invariant indents == Indent(k)
    {
      indents := indents + " ";
    }
    IndentShape(indent);
  }
}
