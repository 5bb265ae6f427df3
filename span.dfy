/** Source locations and their merge (`Span | Span`), src/span.rs. */
module Spans {

  /** A location in a source file; usize fields become naturals. */
  datatype Span = Span(line: nat, column: nat, offset: nat, length: nat)
  {
    /** The first offset after the span. */
    function End(): nat { offset + length }
  }

  /** A value paired with the span it was read from (`Spanned::new` is this constructor). */
  datatype Spanned<T> = Spanned(value: T, span: Span)

  function Min(a: nat, b: nat): nat { if a <= b then a else b }

  function Max(a: nat, b: nat): nat { if a <= b then b else a }

  /** `self | rhs`: the three arms of the offset comparison. */
  function Merge(a: Span, b: Span): (r: Span)
    ensures r.offset == Min(a.offset, b.offset)
    ensures r.End() == Max(a.End(), b.End())
    ensures a.offset <= b.offset ==> r.line == a.line && r.column == a.column
    ensures b.offset < a.offset ==> r.line == b.line && r.column == b.column
  {
    var lhsEnd := a.offset + a.length;
    var rhsEnd := b.offset + b.length;
    var end := Max(lhsEnd, rhsEnd);
    if a.offset < b.offset then
      Span(a.line, a.column, a.offset, end - a.offset)
    else if a.offset == b.offset then
      Span(a.line, a.column, a.offset, end - a.offset)
    else
      Span(b.line, b.column, b.offset, end - b.offset)
  }

  /** The half-open interval [offset, End()) of `outer` contains that of `inner`. */
  predicate Covers(outer: Span, inner: Span)
  {
    outer.offset <= inner.offset && inner.End() <= outer.End()
  }

  /** Two spans cover the same interval (line and column may differ). */
  predicate SameCoverage(a: Span, b: Span)
  {
    a.offset == b.offset && a.length == b.length
  }

  /** The merge covers both operands, and it is the smallest span that does. */
  lemma MergeIsLeastCover(a: Span, b: Span, c: Span)
    ensures Covers(Merge(a, b), a) && Covers(Merge(a, b), b)
    ensures Covers(c, a) && Covers(c, b) ==> Covers(c, Merge(a, b))
  {
  }

  /** Coverage is commutative; with distinct offsets the merge is commutative outright. */
  lemma MergeCommutes(a: Span, b: Span)
    ensures SameCoverage(Merge(a, b), Merge(b, a))
    ensures a.offset != b.offset ==> Merge(a, b) == Merge(b, a)
  {
  }

  /** Merge is associative: line and column always come from the first operand,
      left to right, that has the smallest offset. */
  lemma MergeAssociates(a: Span, b: Span, c: Span)
    ensures Merge(Merge(a, b), c) == Merge(a, Merge(b, c))
  {
  }

  /** `a | a == a`, and `a |= b` done twice leaves the same span as done once. */
  lemma MergeIdempotent(a: Span, b: Span)
    ensures Merge(a, a) == a
    ensures Merge(Merge(a, b), b) == Merge(a, b)
  {
  }
}
