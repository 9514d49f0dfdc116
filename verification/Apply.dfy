/** Masking: one left-to-right pass over the sorted spans of a text. */
module Applying {
  import opened Bytes
  import opened Sorting
  import opened Spans
  import Resolver
  import opened Splicing
  import opened Strategies
  import opened TokenNumbering
  import opened MaskOrigins

  /** What the pass has built: the masked text so far, its replacements, the spans masked,
      the position reached in the text, and the document state. */
  datatype Work = Work(out: Text, reps: seq<Replacement>, chosen: seq<Span>, pos: int, doc: Doc)

  predicate Usable(text: Text, pos: int, sp: Span) {
    sp.start >= pos && sp.start <= |text| && sp.end <= |text| && sp.start < sp.end
  }

  function Step(text: Text, s: Strategy, w: Work, sp: Span): Work
    requires 0 <= w.pos <= |text|
  {
    if !Usable(text, w.pos, sp) then w
    else
      var value := text[sp.start..sp.end];
      var m := Masked(s, w.doc, value, sp.category).1;
      var gap := w.out + text[w.pos..sp.start];
      Work(gap + m,
           w.reps + [Replacement(sp.category, value, m, |gap|, |gap + m|)],
           w.chosen + [sp],
           sp.end,
           Masked(s, w.doc, value, sp.category).0)
  }

  function Pass(text: Text, s: Strategy, w: Work, order: seq<Span>): (r: Work)
    requires 0 <= w.pos <= |text|
    ensures 0 <= r.pos <= |text|
    decreases |order|
  {
    if order == [] then w else Pass(text, s, Step(text, s, w, order[0]), order[1..])
  }

  function Start(doc: Doc): Work {
    Work([], [], [], 0, doc)
  }

  /** The possible results of Apply: a pass over some sorted permutation of the spans. */
  ghost predicate AppliedOver(text: Text, s: Strategy, d: Doc, order: seq<Span>,
                              masked: Text, reps: seq<Replacement>, d': Doc) {
    var w := Pass(text, s, Start(d), order);
    masked == w.out + text[w.pos..] && reps == w.reps && d' == w.doc
  }

  ghost predicate Applied(text: Text, spans: seq<Span>, s: Strategy, d: Doc,
                          masked: Text, reps: seq<Replacement>, d': Doc) {
    exists order :: SortedPermutation(order, spans, SpanKey) && AppliedOver(text, s, d, order, masked, reps, d')
  }

  /** Without a document a fresh one is used. */
  method Apply(text: Text, spans: seq<Span>, s: Strategy, doc: DocState?)
    returns (masked: Text, reps: seq<Replacement>)
    modifies if doc == null then {} else {doc}
    ensures doc != null ==> Applied(text, spans, s, old(doc.View()), masked, reps, doc.View())
    ensures doc == null ==> exists d' :: Applied(text, spans, s, EMPTY_DOC, masked, reps, d')
  {
    var state: DocState;
    if doc == null {
      state := new DocState();
    } else {
      state := doc;
    }
    masked, reps := ApplyWith(text, spans, s, state);
  }

  method ApplyWith(text: Text, spans: seq<Span>, s: Strategy, doc: DocState)
    returns (masked: Text, reps: seq<Replacement>)
    modifies doc
    ensures Applied(text, spans, s, old(doc.View()), masked, reps, doc.View())
  {
    var sorted := new Span[|spans|](i requires 0 <= i < |spans| => spans[i]);
    assert sorted[..] == spans;
    Sort(sorted, SpanKey);
    var order := sorted[..];
    ghost var d := doc.View();
    var b: Text := [];
    reps := [];
    ghost var chosen: seq<Span> := [];
    var pos := 0;
    assert order[0..] == order;
    for i := 0 to |order|
      invariant 0 <= pos <= |text|
      invariant Pass(text, s, Work(b, reps, chosen, pos, doc.View()), order[i..]) == Pass(text, s, Start(d), order)
    {
      var sp := order[i];
      assert order[i..][0] == sp && order[i..][1..] == order[i + 1..];
      if sp.start < pos || sp.start > |text| || sp.end > |text| || sp.start >= sp.end {
        continue;
      }
      var value := text[sp.start..sp.end];
      var replacement := doc.Mask(s, value, sp.category);
      b := b + text[pos..sp.start];
      var start := |b|;
      b := b + replacement;
      reps := reps + [Replacement(sp.category, value, replacement, start, |b|)];
      chosen := chosen + [sp];
      pos := sp.end;
    }
    masked := b + text[pos..];
    assert AppliedOver(text, s, d, order, masked, reps, doc.View());
  }

  // ---------------------------------------------------------------- what masking keeps

  /** The same replacements on the text: each masked span, to be swapped for its mask. */
  function Forward(chosen: seq<Span>, reps: seq<Replacement>): (claims: seq<Claim>)
    requires |chosen| == |reps|
    ensures |claims| == |reps|
    ensures forall k {:trigger claims[k]} :: 0 <= k < |reps| ==>
              claims[k] == Claim(chosen[k].start, chosen[k].end,
                                 reps[k].(original := reps[k].masked, masked := reps[k].original))
  {
    seq(|reps|, k requires 0 <= k < |reps| =>
      Claim(chosen[k].start, chosen[k].end, reps[k].(original := reps[k].masked, masked := reps[k].original)))
  }

  /** The masked prefix stands for the text prefix, and comes from it by the same swaps. */
  ghost predicate Kept(text: Text, w: Work) {
    && 0 <= w.pos <= |text| && |w.chosen| == |w.reps|
    && StandsFor(w.out, w.reps, text[..w.pos])
    && Swaps(text[..w.pos], Forward(w.chosen, w.reps), w.out)
  }

  lemma StepKeeps(text: Text, s: Strategy, w: Work, sp: Span)
    requires Kept(text, w)
    ensures Kept(text, Step(text, s, w, sp))
  {
    if Usable(text, w.pos, sp) {
      var value, between := text[sp.start..sp.end], text[w.pos..sp.start];
      var w' := Step(text, s, w, sp);
      var r := w'.reps[|w.reps|];
      var flipped := r.(original := r.masked, masked := r.original);
      assert Placed(w'.reps) == Placed(w.reps) + [Claim(r.start, r.end, r)];
      assert Forward(w'.chosen, w'.reps) == Forward(w.chosen, w.reps) + [Claim(sp.start, sp.end, flipped)];
      assert text[..w.pos] + between + value == text[..sp.end];
      SwapsGrow(w.out, Placed(w.reps), text[..w.pos], between, Claim(r.start, r.end, r));
      SwapsGrow(text[..w.pos], Forward(w.chosen, w.reps), w.out, between, Claim(sp.start, sp.end, flipped));
    }
  }

  lemma {:induction false} PassKeeps(text: Text, s: Strategy, w: Work, order: seq<Span>)
    requires Kept(text, w)
    ensures Kept(text, Pass(text, s, w, order))
    decreases |order|
  {
    if order != [] {
      StepKeeps(text, s, w, order[0]);
      PassKeeps(text, s, Step(text, s, w, order[0]), order[1..]);
    }
  }

  lemma OverKeeps(text: Text, s: Strategy, d: Doc, order: seq<Span>, masked: Text, reps: seq<Replacement>, d': Doc)
    requires AppliedOver(text, s, d, order, masked, reps, d')
    ensures StandsFor(masked, reps, text)
    ensures var chosen := Pass(text, s, Start(d), order).chosen;
            |chosen| == |reps| && Swaps(text, Forward(chosen, reps), masked)
  {
    var w := Pass(text, s, Start(d), order);
    PassKeeps(text, s, Start(d), order);
    SwapsEnd(w.out, Placed(w.reps), text[..w.pos], text[w.pos..]);
    SwapsEnd(text[..w.pos], Forward(w.chosen, w.reps), w.out, text[w.pos..]);
    assert text[..w.pos] + text[w.pos..] == text;
  }

  /** Whatever the spans (unsorted, overlapping, negative, out of range) and whatever the
      strategy: the masked text stands for the text. Every replacement sits at its recorded
      offsets, in order and without overlap, and putting the originals back gives the text. */
  lemma MaskedStandsForText(text: Text, spans: seq<Span>, s: Strategy, d: Doc,
                            masked: Text, reps: seq<Replacement>, d': Doc)
    requires Applied(text, spans, s, d, masked, reps, d')
    ensures StandsFor(masked, reps, text)
  {
    var order :| SortedPermutation(order, spans, SpanKey) && AppliedOver(text, s, d, order, masked, reps, d');
    OverKeeps(text, s, d, order, masked, reps, d');
  }

  // ---------------------------------------------------------------- what masking hides

  /** The spans masked so far are disjoint, in range, and reach up to the position. */
  ghost predicate Chosen(text: Text, w: Work) {
    && Disjoint(w.chosen)
    && (forall c :: c in w.chosen ==> 0 <= c.start && c.end <= w.pos)
    && (if w.chosen == [] then w.pos == 0 else w.pos == w.chosen[|w.chosen| - 1].end)
    && 0 <= w.pos <= |text|
  }

  ghost predicate InRange(text: Text, sp: Span) {
    0 <= sp.start < sp.end <= |text|
  }

  /** `c` covers the first byte of `sp`, and all of it when both start together. */
  predicate Reaches(c: Span, sp: Span) {
    c.start <= sp.start < c.end && (c.start == sp.start ==> sp.end <= c.end)
  }

  ghost predicate Covered(sp: Span, chosen: seq<Span>) {
    exists k :: 0 <= k < |chosen| && Reaches(chosen[k], sp)
  }

  /** The span comes no earlier than the one masked last. */
  ghost predicate Follows(chosen: seq<Span>, sp: Span) {
    chosen != [] ==> Leq(SpanKey(chosen[|chosen| - 1]), SpanKey(sp))
  }

  lemma StepChooses(text: Text, s: Strategy, w: Work, sp: Span)
    requires Chosen(text, w)
    ensures Chosen(text, Step(text, s, w, sp))
  {
    if Usable(text, w.pos, sp) {
      var next := Step(text, s, w, sp).chosen;
      forall i, j | 0 <= i < j < |next| ensures next[i].end <= next[j].start {
        assert next[i] in w.chosen;
      }
    }
  }

  lemma StepCovers(text: Text, s: Strategy, w: Work, sp: Span)
    requires Chosen(text, w) && Follows(w.chosen, sp) && InRange(text, sp)
    ensures Covered(sp, Step(text, s, w, sp).chosen)
  {
    var next := Step(text, s, w, sp).chosen;
    var last := next[|next| - 1];
    if Usable(text, w.pos, sp) {
      assert last == sp;
    }
    assert Reaches(last, sp);
  }

  lemma StepStillCovers(text: Text, s: Strategy, w: Work, sp: Span, x: Span)
    requires 0 <= w.pos <= |text| && Covered(x, w.chosen)
    ensures Covered(x, Step(text, s, w, sp).chosen)
  {
    var k :| 0 <= k < |w.chosen| && Reaches(w.chosen[k], x);
    assert Step(text, s, w, sp).chosen[k] == w.chosen[k];
  }

  lemma StepFollows(text: Text, s: Strategy, w: Work, order: seq<Span>)
    requires 0 <= w.pos <= |text| && Ordered(order, SpanKey) && order != [] && Follows(w.chosen, order[0])
    ensures order[1..] != [] ==> Follows(Step(text, s, w, order[0]).chosen, order[1..][0])
  {
    if order[1..] != [] {
      assert Leq(SpanKey(order[0]), SpanKey(order[1]));
    }
  }

  /** What has been masked are given spans in range, each replacement under its span's category. */
  ghost predicate Picks(text: Text, w: Work, given: seq<Span>) {
    && |w.chosen| == |w.reps|
    && forall k :: 0 <= k < |w.chosen| ==>
         w.chosen[k] in given && InRange(text, w.chosen[k]) && w.reps[k].category == w.chosen[k].category
  }

  lemma {:induction false} PassPicks(text: Text, s: Strategy, w: Work, order: seq<Span>, given: seq<Span>)
    requires 0 <= w.pos <= |text| && Picks(text, w, given) && forall sp :: sp in order ==> sp in given
    ensures Picks(text, Pass(text, s, w, order), given)
    decreases |order|
  {
    if order != [] {
      assert forall sp :: sp in order[1..] ==> sp in order;
      PassPicks(text, s, Step(text, s, w, order[0]), order[1..], given);
    }
  }

  lemma {:induction false} PassCovers(text: Text, s: Strategy, w: Work, order: seq<Span>, x: Span)
    requires Chosen(text, w) && Ordered(order, SpanKey) && (order != [] ==> Follows(w.chosen, order[0]))
    requires Covered(x, w.chosen) || (x in order && InRange(text, x))
    ensures Covered(x, Pass(text, s, w, order).chosen)
    decreases |order|
  {
    if order != [] {
      StepChooses(text, s, w, order[0]);
      if Covered(x, w.chosen) {
        StepStillCovers(text, s, w, order[0], x);
      } else if x == order[0] {
        StepCovers(text, s, w, x);
      }
      TailOrdered(order, SpanKey);
      StepFollows(text, s, w, order);
      PassCovers(text, s, Step(text, s, w, order[0]), order[1..], x);
    }
  }

  /** The masked text is the text with some of the given spans swapped for their masks, and nothing
      detected escapes: every span in range has its first byte inside a masked span, or all of it
      when both start together. */
  lemma MaskingCoversSpans(text: Text, spans: seq<Span>, s: Strategy, d: Doc,
                           masked: Text, reps: seq<Replacement>, d': Doc) returns (chosen: seq<Span>)
    requires Applied(text, spans, s, d, masked, reps, d')
    ensures |chosen| == |reps| && Swaps(text, Forward(chosen, reps), masked)
    ensures forall k :: 0 <= k < |chosen| ==>
              chosen[k] in spans && InRange(text, chosen[k]) && reps[k].category == chosen[k].category
    ensures forall x :: x in spans && InRange(text, x) ==> Covered(x, chosen)
  {
    var order :| SortedPermutation(order, spans, SpanKey) && AppliedOver(text, s, d, order, masked, reps, d');
    chosen := Pass(text, s, Start(d), order).chosen;
    OverKeeps(text, s, d, order, masked, reps, d');
    MembersAgree(order, spans);
    PassPicks(text, s, Start(d), order, spans);
    forall x | x in spans && InRange(text, x) ensures Covered(x, chosen) {
      PassCovers(text, s, Start(d), order, x);
    }
  }

  lemma {:induction false} PassTakesAll(text: Text, s: Strategy, w: Work, order: seq<Span>)
    requires 0 <= w.pos <= |text| && Disjoint(order)
    requires forall k :: 0 <= k < |order| ==> w.pos <= order[k].start && order[k].end <= |text|
    ensures Pass(text, s, w, order).chosen == w.chosen + order
    decreases |order|
  {
    if order != [] {
      Resolver.DisjointTail(order);
      assert forall k :: 0 <= k < |order[1..]| ==> order[1..][k] == order[k + 1];
      PassTakesAll(text, s, Step(text, s, w, order[0]), order[1..]);
      assert w.chosen + order == w.chosen + [order[0]] + order[1..];
    }
  }

  /** Spans as the resolver leaves them, disjoint and in range, are all masked, and nothing else
      of the text changes. */
  lemma DisjointSpansAllMasked(text: Text, spans: seq<Span>, s: Strategy, d: Doc,
                               masked: Text, reps: seq<Replacement>, d': Doc)
    requires Applied(text, spans, s, d, masked, reps, d')
    requires Disjoint(spans) && forall k :: 0 <= k < |spans| ==> InRange(text, spans[k])
    ensures |reps| == |spans| && Swaps(text, Forward(spans, reps), masked)
  {
    var order :| SortedPermutation(order, spans, SpanKey) && AppliedOver(text, s, d, order, masked, reps, d');
    Resolver.DisjointHasOneOrder(spans, order);
    PassTakesAll(text, s, Start(d), order);
    OverKeeps(text, s, d, order, masked, reps, d');
    assert [] + spans == spans;
  }

  // ---------------------------------------------------------------- the document along the way

  function CallsOf(reps: seq<Replacement>): (calls: seq<MaskCall>)
    ensures |calls| == |reps|
    ensures forall k {:trigger calls[k]} :: 0 <= k < |reps| ==> calls[k] == MaskCall(reps[k].original, reps[k].category)
  {
    seq(|reps|, k requires 0 <= k < |reps| => MaskCall(reps[k].original, reps[k].category))
  }

  function MasksOf(reps: seq<Replacement>): (masks: seq<Text>)
    ensures |masks| == |reps|
    ensures forall k {:trigger masks[k]} :: 0 <= k < |reps| ==> masks[k] == reps[k].masked
  {
    seq(|reps|, k requires 0 <= k < |reps| => reps[k].masked)
  }

  /** The document state is that of a session that masked just these replacements, in order. */
  ghost predicate Logged(s: Strategy, earlier: seq<Replacement>, reps: seq<Replacement>, d: Doc) {
    var all := earlier + reps;
    MaskAll(s, CallsOf(all), |all|) == Session(d, MasksOf(all))
  }

  lemma {:induction false} MaskAllPrefix(s: Strategy, calls: seq<MaskCall>, last: MaskCall, n: nat)
    requires n <= |calls|
    ensures MaskAll(s, calls + [last], n) == MaskAll(s, calls, n)
  {
    if n > 0 {
      MaskAllPrefix(s, calls, last, n - 1);
    }
  }

  lemma LogOne(s: Strategy, all: seq<Replacement>, d: Doc, r: Replacement)
    requires MaskAll(s, CallsOf(all), |all|) == Session(d, MasksOf(all))
    requires r.masked == Masked(s, d, r.original, r.category).1
    ensures MaskAll(s, CallsOf(all + [r]), |all| + 1)
         == Session(Masked(s, d, r.original, r.category).0, MasksOf(all + [r]))
  {
    var last := MaskCall(r.original, r.category);
    assert CallsOf(all + [r]) == CallsOf(all) + [last];
    assert MasksOf(all + [r]) == MasksOf(all) + [r.masked];
    MaskAllPrefix(s, CallsOf(all), last, |all|);
  }

  lemma {:induction false} PassLogs(text: Text, s: Strategy, earlier: seq<Replacement>, w: Work, order: seq<Span>)
    requires 0 <= w.pos <= |text| && Logged(s, earlier, w.reps, w.doc)
    ensures Logged(s, earlier, Pass(text, s, w, order).reps, Pass(text, s, w, order).doc)
    decreases |order|
  {
    if order != [] {
      var w' := Step(text, s, w, order[0]);
      if Usable(text, w.pos, order[0]) {
        var r := w'.reps[|w.reps|];
        assert earlier + w'.reps == (earlier + w.reps) + [r];
        LogOne(s, earlier + w.reps, w.doc, r);
      }
      PassLogs(text, s, earlier, w', order[1..]);
    }
  }

  /** Masking continues the session of the document it is given. */
  lemma ApplyLogs(text: Text, spans: seq<Span>, s: Strategy, earlier: seq<Replacement>, d: Doc,
                  masked: Text, reps: seq<Replacement>, d': Doc)
    requires Applied(text, spans, s, d, masked, reps, d') && Logged(s, earlier, [], d)
    ensures Logged(s, earlier, reps, d')
  {
    var order :| SortedPermutation(order, spans, SpanKey) && AppliedOver(text, s, d, order, masked, reps, d');
    PassLogs(text, s, earlier, Start(d), order);
  }

  // ---------------------------------------------------------------- non-empty masks

  lemma {:induction false} PassShows(text: Text, s: Strategy, w: Work, order: seq<Span>)
    requires 0 <= w.pos <= |text| && MasksNonEmpty(w.reps) && KeepsNonEmpty(s)
    ensures MasksNonEmpty(Pass(text, s, w, order).reps)
    decreases |order|
  {
    if order != [] {
      var sp := order[0];
      if Usable(text, w.pos, sp) {
        MaskedNonEmpty(s, w.doc, text[sp.start..sp.end], sp.category);
      }
      PassShows(text, s, Step(text, s, w, sp), order[1..]);
    }
  }

  lemma MaskedNonEmpty(s: Strategy, d: Doc, value: Text, c: Category)
    requires KeepsNonEmpty(s) && value != []
    ensures Masked(s, d, value, c).1 != []
  {
    if s.shape(value, c) == None {
      assert |Token(c, Issued(d, c) + 1)| > 0;
    }
  }

  /** A strategy that gives no empty shape leaves no empty mask: only non-empty values are masked. */
  lemma ApplyShows(text: Text, spans: seq<Span>, s: Strategy, d: Doc,
                   masked: Text, reps: seq<Replacement>, d': Doc)
    requires Applied(text, spans, s, d, masked, reps, d') && KeepsNonEmpty(s)
    ensures MasksNonEmpty(reps)
  {
    var order :| SortedPermutation(order, spans, SpanKey) && AppliedOver(text, s, d, order, masked, reps, d');
    PassShows(text, s, Start(d), order);
  }

  // ---------------------------------------------------------------- where the masks come from

  /** Replacement `k` carries what the strategy makes of its original, for the category of the
      first replacement `j` that gave this original a mask. */
  ghost predicate MadeFor(s: Strategy, reps: seq<Replacement>, k: nat, j: nat)
    requires j <= k < |reps|
  {
    && reps[j].original == reps[k].original && reps[j].masked == reps[k].masked
    && Makes(s, MaskCall(reps[k].original, reps[j].category), reps[k].masked)
    && forall l: nat :: l < j && reps[l].original == reps[k].original ==> reps[l].masked == []
  }

  /** Every mask is what the strategy makes of its original. */
  ghost predicate AllMade(s: Strategy, reps: seq<Replacement>) {
    forall k: nat :: k < |reps| ==> Made(s, reps, k)
  }

  ghost predicate Made(s: Strategy, reps: seq<Replacement>, k: nat)
    requires k < |reps|
  {
    exists j: nat :: j <= k && MadeFor(s, reps, k, j)
  }

  lemma LoggedMasksMade(s: Strategy, reps: seq<Replacement>, d: Doc)
    requires Logged(s, [], reps, d)
    ensures AllMade(s, reps)
  {
    forall k: nat | k < |reps| ensures Made(s, reps, k) {
      LoggedMaskMade(s, reps, d, k);
    }
  }

  lemma LoggedMaskMade(s: Strategy, reps: seq<Replacement>, d: Doc, k: nat)
    requires Logged(s, [], reps, d) && k < |reps|
    ensures Made(s, reps, k)
  {
    assert [] + reps == reps;
    var calls := CallsOf(reps);
    var j := MasksAreMade(s, calls, k);
    OutputIs(s, calls, j, |calls|);
    assert MasksOf(reps)[j] == reps[j].masked && MasksOf(reps)[k] == reps[k].masked;
    forall l: nat | l < j && reps[l].original == reps[k].original ensures reps[l].masked == [] {
      OutputIs(s, calls, l, |calls|);
      assert MasksOf(reps)[l] == reps[l].masked && calls[l].value == calls[k].value;
    }
    assert MadeFor(s, reps, k, j);
  }

  lemma FreshSession(s: Strategy)
    ensures Logged(s, [], [], EMPTY_DOC)
  {
    assert CallsOf([]) == [] && MasksOf([]) == [];
  }

  /** On a new document every replacement carries the strategy's shape of its original, or a token. */
  lemma MasksComeFromStrategy(text: Text, spans: seq<Span>, s: Strategy, masked: Text, reps: seq<Replacement>, d': Doc)
    requires Applied(text, spans, s, EMPTY_DOC, masked, reps, d')
    ensures AllMade(s, reps)
  {
    FreshSession(s);
    ApplyLogs(text, spans, s, [], EMPTY_DOC, masked, reps, d');
    LoggedMasksMade(s, reps, d');
  }
}
