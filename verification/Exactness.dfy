/** Exactly which strategies can be undone. */
module Exactness {
  import opened Bytes
  import opened Sorting
  import opened Spans
  import opened Splicing
  import opened Strategies
  import opened Applying
  import opened Restoring
  import opened RestoreLaws

  /** Whatever is masked with the strategy comes back exactly, with no miss. */
  ghost predicate Exact(s: Strategy) {
    forall text, spans, masked, reps, d, restored, misses ::
      Applied(text, spans, s, EMPTY_DOC, masked, reps, d) && Restored(masked, reps, restored, misses)
      ==> restored == text && misses == 0
  }

  /** Masking and restoring is exact for all texts and spans exactly for the strategies that
      give no non-empty value an empty mask. */
  lemma ExactIffNonEmpty(s: Strategy)
    ensures Exact(s) <==> KeepsNonEmpty(s)
  {
    if KeepsNonEmpty(s) {
      forall text, spans, masked, reps, d, restored, misses
        | Applied(text, spans, s, EMPTY_DOC, masked, reps, d) && Restored(masked, reps, restored, misses)
        ensures restored == text && misses == 0
      {
        MaskedStandsForText(text, spans, s, EMPTY_DOC, masked, reps, d);
        ApplyShows(text, spans, s, EMPTY_DOC, masked, reps, d);
        NonEmptyMasksRise(masked, reps, text);
        RoundTrip(masked, reps, text, restored, misses);
      }
    } else {
      var v, c :| v != [] && s.shape(v, c).Some? && s.shape(v, c).value == [];
      EmptyShapeIsLost(s, v, c);
    }
  }

  /** The masking of a value that gets an empty mask, followed by another byte. */
  lemma NextToEmpty(s: Strategy, v: Text, c: Category, y: Byte, a: Replacement, b: Replacement)
    requires v != [] && s.shape(v, c) == Some([])
    requires a == Replacement(c, v, [], 0, 0)
    requires b.category == c && b.original == [y] && b.start == 0 && b.end == |b.masked|
    requires b.masked == Masked(s, Masked(s, EMPTY_DOC, v, c).0, [y], c).1
    ensures exists spans, d :: Applied(v + [y], spans, s, EMPTY_DOC, b.masked, [a, b], d)
  {
    var text, n := v + [y], |v|;
    var x, z := Span(0, n, c, [], 0.0), Span(n, n + 1, c, [], 0.0);
    var w := Applying.Step(text, s, Start(EMPTY_DOC), x);
    assert text[0..n] == v && text[n..n + 1] == [y] && text[0..0] == [];
    assert w == Work([], [a], [x], n, Masked(s, EMPTY_DOC, v, c).0);
    var w' := Applying.Step(text, s, w, z);
    assert w'.out == b.masked && w'.reps == [a, b] && w'.pos == n + 1;
    assert [x, z][1..] == [z] && [z][1..] == [];
    assert Pass(text, s, Start(EMPTY_DOC), [x, z]) == Pass(text, s, w, [z]);
    assert Pass(text, s, w, [z]) == Pass(text, s, w', []);
    assert AppliedOver(text, s, EMPTY_DOC, [x, z], b.masked, [a, b], w'.doc);
    assert SortedPermutation([x, z], [x, z], SpanKey);
    assert Applied(text, [x, z], s, EMPTY_DOC, b.masked, [a, b], w'.doc);
  }

  /** Masked next to any other byte, the value comes back in the wrong place or not at all. */
  lemma EmptyShapeIsLost(s: Strategy, v: Text, c: Category)
    requires v != [] && s.shape(v, c) == Some([])
    ensures !Exact(s)
  {
    var y: Byte := if v[0] == 0 then 1 else 0;
    var m := Masked(s, Masked(s, EMPTY_DOC, v, c).0, [y], c).1;
    var a, b := Replacement(c, v, [], 0, 0), Replacement(c, [y], m, 0, |m|);
    NextToEmpty(s, v, c, y, a, b);
    assert (v + [y])[0] != ([y] + v)[0];
    if m == [] {
      EmptyMasksMaySwap(a, b);
    } else {
      EmptyMaskMayBeLost(a, b);
    }
  }
}
