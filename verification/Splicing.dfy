/** Recorded substitutions, and the splice that carries them out. */
module Splicing {
  import opened Bytes
  import opened Spans

  /** One substitution; the offsets are those of `masked` in the masked text. */
  datatype Replacement = Replacement(category: Category, original: Text, masked: Text, start: int, end: int)

  /** A range of a text that a replacement occupies. The whole replacement is kept along;
      only its original is spliced in. */
  datatype Claim = Claim(start: int, end: int, source: Replacement)

  /** The claims lie from left to right behind `pos`, inside the text, none overlapping. */
  predicate Laid(text: Text, claims: seq<Claim>, pos: int)
    decreases |claims|
  {
    if claims == [] then 0 <= pos <= |text|
    else 0 <= pos <= claims[0].start <= claims[0].end <= |text| && Laid(text, claims[1..], claims[0].end)
  }

  /** The text behind `pos` with every claimed range swapped for its original. */
  function Splice(text: Text, claims: seq<Claim>, pos: int): Text
    requires Laid(text, claims, pos)
    decreases |claims|
  {
    if claims == [] then text[pos..]
    else text[pos..claims[0].start] + claims[0].source.original + Splice(text, claims[1..], claims[0].end)
  }

  /** Every claimed range carries the masked text of its replacement. */
  ghost predicate Anchored(text: Text, claims: seq<Claim>) {
    forall k :: 0 <= k < |claims| ==>
      && 0 <= claims[k].start <= claims[k].end <= |text|
      && text[claims[k].start..claims[k].end] == claims[k].source.masked
  }

  function LastEnd(claims: seq<Claim>, pos: int): int {
    if claims == [] then pos else claims[|claims| - 1].end
  }

  lemma {:induction false} LaidInside(text: Text, claims: seq<Claim>, pos: int, k: int)
    requires Laid(text, claims, pos) && 0 <= k < |claims|
    ensures 0 <= pos <= claims[k].start <= claims[k].end <= |text|
    ensures claims[k].end <= LastEnd(claims, pos)
    decreases |claims|
  {
    if k > 0 {
      LaidInside(text, claims[1..], claims[0].end, k - 1);
    } else if |claims| > 1 {
      LaidInside(text, claims[1..], claims[0].end, |claims| - 2);
    }
  }

  lemma {:induction false} LaidApart(text: Text, claims: seq<Claim>, pos: int, i: int, j: int)
    requires Laid(text, claims, pos) && 0 <= i < j < |claims|
    ensures claims[i].end <= claims[j].start
    decreases |claims|
  {
    if i > 0 {
      LaidApart(text, claims[1..], claims[0].end, i - 1, j - 1);
    } else {
      LaidInside(text, claims[1..], claims[0].end, j - 1);
    }
  }

  /** Text added behind the last claim comes out unchanged. */
  lemma {:induction false} SpliceExtend(text: Text, claims: seq<Claim>, pos: int, more: Text)
    requires Laid(text, claims, pos)
    ensures Laid(text + more, claims, pos)
    ensures Splice(text + more, claims, pos) == Splice(text, claims, pos) + more
    decreases |claims|
  {
    if claims == [] {
      assert (text + more)[pos..] == text[pos..] + more;
    } else {
      var c := claims[0];
      SpliceExtend(text, claims[1..], c.end, more);
      assert (text + more)[pos..c.start] == text[pos..c.start];
    }
  }

  /** A claim on the tail of the text turns that tail into its original. */
  lemma {:induction false} SpliceTail(text: Text, claims: seq<Claim>, pos: int, tail: Text, source: Replacement)
    requires Laid(text, claims, pos)
    ensures var c := Claim(|text|, |text| + |tail|, source);
            && Laid(text + tail, claims + [c], pos)
            && Splice(text + tail, claims + [c], pos) == Splice(text, claims, pos) + source.original
    decreases |claims|
  {
    var whole, c := text + tail, Claim(|text|, |text| + |tail|, source);
    if claims == [] {
      assert (claims + [c])[1..] == [];
      assert whole[c.end..] == [];
      assert whole[pos..c.start] == text[pos..];
    } else {
      var d := claims[0];
      assert (claims + [c])[1..] == claims[1..] + [c];
      SpliceTail(text, claims[1..], d.end, tail, source);
      assert whole[pos..d.start] == text[pos..d.start];
    }
  }

  /** Starting further left copies the stretch in between. */
  lemma SpliceLonger(text: Text, claims: seq<Claim>, pos: int, later: int)
    requires Laid(text, claims, later) && 0 <= pos <= later
    ensures Laid(text, claims, pos) && later <= |text|
    ensures Splice(text, claims, pos) == text[pos..later] + Splice(text, claims, later)
  {
    if claims == [] {
      assert text[pos..] == text[pos..later] + text[later..];
    } else {
      var c := claims[0];
      var gap, rest := text[later..c.start], Splice(text, claims[1..], c.end);
      assert text[pos..c.start] == text[pos..later] + gap;
      Assoc(text[pos..later], gap, c.source.original, rest);
    }
  }

  lemma Assoc(a: Text, b: Text, c: Text, d: Text)
    ensures (a + b) + c + d == a + (b + c + d)
    ensures (a + b + c) + d == a + b + (c + d)
  {}

  lemma AnchoredExtend(text: Text, claims: seq<Claim>, more: Text)
    requires Anchored(text, claims)
    ensures Anchored(text + more, claims)
  {
    forall k | 0 <= k < |claims|
      ensures (text + more)[claims[k].start..claims[k].end] == claims[k].source.masked
    {
      assert (text + more)[claims[k].start..claims[k].end] == text[claims[k].start..claims[k].end];
    }
  }

  /** The recorded ranges of replacements, as claims. */
  function Placed(reps: seq<Replacement>): (claims: seq<Claim>)
    ensures |claims| == |reps|
    ensures forall k {:trigger claims[k]} :: 0 <= k < |reps| ==> claims[k] == Claim(reps[k].start, reps[k].end, reps[k])
  {
    seq(|reps|, k requires 0 <= k < |reps| => Claim(reps[k].start, reps[k].end, reps[k]))
  }

  /** Swapping the claimed ranges of `from` for their originals gives `to`. */
  ghost predicate Swaps(from: Text, claims: seq<Claim>, to: Text) {
    Laid(from, claims, 0) && Anchored(from, claims) && Splice(from, claims, 0) == to
  }

  /** Both texts grow by the same stretch and then by one swapped pair. */
  lemma SwapsGrow(from: Text, claims: seq<Claim>, to: Text, between: Text, c: Claim)
    requires Swaps(from, claims, to)
    requires c.start == |from + between| && c.end == |from + between + c.source.masked|
    ensures Swaps(from + between + c.source.masked, claims + [c], to + between + c.source.original)
  {
    var gap, m := from + between, c.source.masked;
    SpliceExtend(from, claims, 0, between);
    SpliceTail(gap, claims, 0, m, c.source);
    AnchoredExtend(from, claims, between);
    AnchoredExtend(gap, claims, m);
    assert (gap + m)[|gap|..|gap + m|] == m;
  }

  /** Both texts grow by the same stretch. */
  lemma SwapsEnd(from: Text, claims: seq<Claim>, to: Text, more: Text)
    requires Swaps(from, claims, to)
    ensures Swaps(from + more, claims, to + more)
  {
    SpliceExtend(from, claims, 0, more);
    AnchoredExtend(from, claims, more);
  }

  /** `masked` with its recorded replacements stands for `text`: the replacements lie from left
      to right where they say, and putting the originals back gives the text. */
  ghost predicate StandsFor(masked: Text, reps: seq<Replacement>, text: Text) {
    Swaps(masked, Placed(reps), text)
  }

  ghost predicate MasksNonEmpty(reps: seq<Replacement>) {
    forall k :: 0 <= k < |reps| ==> reps[k].masked != []
  }
}
