/** Detected fragments, as the pipeline hands them to the resolver and to the masker. */
module Spans {
  import opened Bytes
  import opened Sorting

  type Category = Text

  datatype Span = Span(start: int, end: int, category: Category, detector: Text, confidence: real)

  /** Start ascending; on equal Start the longer span first. */
  function SpanKey(s: Span): Key {
    (s.start, -s.end)
  }

  ghost predicate NonEmpty(spans: seq<Span>) {
    forall s :: s in spans ==> s.start < s.end
  }

  /** Non-empty spans from left to right, none overlapping the next ones. */
  ghost predicate Disjoint(spans: seq<Span>) {
    && (forall i :: 0 <= i < |spans| ==> spans[i].start < spans[i].end)
    && (forall i, j :: 0 <= i < j < |spans| ==> spans[i].end <= spans[j].start)
  }

  predicate Overlap(a: Span, b: Span) {
    a.start < b.end && b.start < a.end
  }
}
