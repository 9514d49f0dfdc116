/** Windowed detection and its simple form, one run over the whole text. */
module WindowedDetection {
  import opened Bytes
  import opened Sorting
  import opened Spans
  import opened Resolver
  import opened Windows

  /** The detectors are opaque: any function from a text to spans of that text. */
  type Pipeline = Text -> seq<Span>

  function Shift(spans: seq<Span>, base: int): seq<Span> {
    seq(|spans|, i requires 0 <= i < |spans| => spans[i].(start := spans[i].start + base, end := spans[i].end + base))
  }

  predicate InText(text: Text, w: Window) {
    0 <= w.start <= w.end <= |text|
  }

  ghost predicate AllInText(text: Text, ws: seq<Window>) {
    forall k :: 0 <= k < |ws| ==> InText(text, ws[k])
  }

  lemma WindowsInText(text: Text)
    ensures AllInText(text, WindowsOf(text))
  {
    forall k | 0 <= k < |WindowsOf(text)| ensures InText(text, WindowsOf(text)[k]) {
      WindowAroundCore(text, k);
    }
  }

  /** What a window contributes, in whole-text offsets. */
  function WindowRun(pipe: Pipeline, text: Text, w: Window): seq<Span>
    requires InText(text, w)
  {
    Shift(pipe(text[w.start..w.end]), w.start)
  }

  function Merged(pipe: Pipeline, text: Text, ws: seq<Window>): seq<Span>
    requires AllInText(text, ws)
  {
    if ws == [] then []
    else Merged(pipe, text, ws[..|ws| - 1]) + WindowRun(pipe, text, ws[|ws| - 1])
  }

  /** The possible results of detectWindowed: a sweep over some sorted permutation of what
      the windows found, or a plain run when there is one window. */
  ghost predicate DetectedOver(pipe: Pipeline, text: Text, ws: seq<Window>, spans: seq<Span>)
    requires AllInText(text, ws)
  {
    if |ws| == 1 then spans == pipe(text)
    else exists p :: SortedPermutation(p, Merged(pipe, text, ws), SpanKey) && spans == Sweep([], p)
  }

  ghost predicate Detected(pipe: Pipeline, text: Text, spans: seq<Span>) {
    AllInText(text, WindowsOf(text)) && DetectedOver(pipe, text, WindowsOf(text), spans)
  }

  /** The order in which the window goroutines finish. */
  ghost predicate Schedule(order: seq<nat>, n: nat) {
    && (forall k :: 0 <= k < |order| ==> order[k] < n)
    && (forall i :: 0 <= i < n ==> i in order)
  }

  /** One run per window, each into its own slot, in any finishing order. */
  method RunWindows(pipe: Pipeline, text: Text, ws: seq<Window>, order: seq<nat>) returns (perWindow: array<seq<Span>>)
    requires AllInText(text, ws) && Schedule(order, |ws|)
    ensures fresh(perWindow) && perWindow.Length == |ws|
    ensures forall j :: 0 <= j < |ws| ==> perWindow[j] == WindowRun(pipe, text, ws[j])
  {
    perWindow := new seq<Span>[|ws|](_ => []);
    for k := 0 to |order|
      invariant forall j :: j in order[..k] ==> perWindow[j] == WindowRun(pipe, text, ws[j])
    {
      var w := ws[order[k]];
      perWindow[order[k]] := Shift(pipe(text[w.start..w.end]), w.start);
      assert order[..k + 1] == order[..k] + [order[k]];
    }
    assert order[..|order|] == order;
  }

  /** Runs and merges over given windows. */
  method DetectOver(pipe: Pipeline, text: Text, ws: seq<Window>, order: seq<nat>) returns (spans: seq<Span>)
    requires AllInText(text, ws) && Schedule(order, |ws|)
    ensures DetectedOver(pipe, text, ws, spans)
  {
    if |ws| == 1 {
      return pipe(text);
    }
    var perWindow := RunWindows(pipe, text, ws, order);
    var merged := [];
    for i := 0 to |ws|
      invariant forall j :: 0 <= j < |ws| ==> perWindow[j] == WindowRun(pipe, text, ws[j])
      invariant merged == Merged(pipe, text, ws[..i])
    {
      assert ws[..i + 1][..i] == ws[..i];
      merged := merged + perWindow[i];
    }
    assert ws[..|ws|] == ws;
    var slice := new Span[|merged|](i requires 0 <= i < |merged| => merged[i]);
    assert slice[..] == merged;
    spans := Resolve(slice);
  }

  /** Every goroutine fills its own slot, so the finishing order does not show in the result. */
  method DetectWindowed(pipe: Pipeline, text: Text, order: seq<nat>) returns (spans: seq<Span>)
    requires Schedule(order, |WindowsOf(text)|)
    ensures Detected(pipe, text, spans)
  {
    var ws := MakeWindows(text);
    WindowsInText(text);
    spans := DetectOver(pipe, text, ws, order);
  }

  // ---------------------------------------------------------------- refinement

  /** The whole-run spans that lie inside a window, in order. */
  function Inside(whole: seq<Span>, w: Window): (r: seq<Span>)
    ensures forall s :: s in r <==> s in whole && w.start <= s.start && s.end <= w.end
  {
    if whole == [] then []
    else if w.start <= whole[0].start && whole[0].end <= w.end then [whole[0]] + Inside(whole[1..], w)
    else Inside(whole[1..], w)
  }

  /** Windows see what a whole run sees: each window run finds exactly the whole-run spans
      lying inside that window. */
  ghost predicate WindowsAgree(pipe: Pipeline, text: Text, ws: seq<Window>) {
    AllInText(text, ws) && forall k :: 0 <= k < |ws| ==> WindowRun(pipe, text, ws[k]) == Inside(pipe(text), ws[k])
  }

  /** The whole run is what Resolve makes it, and its spans fit into the overlap. */
  ghost predicate FitsOverlap(whole: seq<Span>, text: Text) {
    && Disjoint(whole)
    && forall s :: s in whole ==> 0 <= s.start && s.end <= |text| && s.end - s.start <= CHUNK_OVERLAP + 1
  }

  lemma {:induction false} MergedSound(pipe: Pipeline, text: Text, ws: seq<Window>, s: Span)
    requires WindowsAgree(pipe, text, ws) && s in Merged(pipe, text, ws)
    ensures s in pipe(text)
    decreases |ws|
  {
    var init, w := ws[..|ws| - 1], ws[|ws| - 1];
    if s in Merged(pipe, text, init) {
      MergedSound(pipe, text, init, s);
    } else {
      assert s in Inside(pipe(text), w);
    }
  }

  lemma {:induction false} MergedComplete(pipe: Pipeline, text: Text, ws: seq<Window>, k: nat, s: Span)
    requires AllInText(text, ws) && k < |ws| && s in WindowRun(pipe, text, ws[k])
    ensures s in Merged(pipe, text, ws)
    decreases |ws|
  {
    if k < |ws| - 1 {
      MergedComplete(pipe, text, ws[..|ws| - 1], k, s);
    }
  }

  /** Nothing is lost: every whole-run span is found by the window of the core it starts in. */
  lemma EverySpanFound(pipe: Pipeline, text: Text, s: Span)
    requires WindowsAgree(pipe, text, WindowsOf(text)) && FitsOverlap(pipe(text), text) && s in pipe(text)
    ensures s in Merged(pipe, text, WindowsOf(text))
  {
    assert s.start < s.end;
    var k := CoreOf(text, s.start);
    CoverageWithMargin(text, s.start, s.end, k);
    assert s in Inside(pipe(text), WindowsOf(text)[k]);
    MergedComplete(pipe, text, WindowsOf(text), k, s);
  }

  /** What the sweep still has to see once it has kept whole[..k]: nothing older than the
      span it kept last, and every later span at least once. */
  ghost predicate Pending(p: seq<Span>, whole: seq<Span>, k: nat) {
    && k <= |whole|
    && (forall x :: x in p ==> exists m :: k - 1 <= m && 0 <= m < |whole| && whole[m] == x)
    && (forall m :: k <= m < |whole| ==> whole[m] in p)
  }

  lemma {:induction false} SweepCollapses(out: seq<Span>, p: seq<Span>, whole: seq<Span>, k: nat)
    requires Disjoint(whole) && Ordered(p, SpanKey) && Pending(p, whole, k)
    requires out == whole[..k]
    ensures Sweep(out, p) == whole
    decreases |p|
  {
    if p == [] {
      assert k >= |whole|;
    } else {
      var m := NextPending(p, whole, k);
      SweepTakes(whole, k, m);
      RestPending(p, whole, k, m);
      SweepCollapses(Step(out, p[0]), p[1..], whole, m + 1);
    }
  }

  /** The next span is either the one kept last, once more, or the next one of the whole run. */
  lemma NextPending(p: seq<Span>, whole: seq<Span>, k: nat) returns (m: int)
    requires Disjoint(whole) && Ordered(p, SpanKey) && Pending(p, whole, k) && p != []
    ensures 0 <= m < |whole| && (m == k || m == k - 1) && p[0] == whole[m]
  {
    assert p[0] in p;
    m :| k - 1 <= m && 0 <= m < |whole| && whole[m] == p[0];
    if k < |whole| {
      assert whole[k] in p;
      var i :| 0 <= i < |p| && p[i] == whole[k];
      assert i == 0 || Leq(SpanKey(p[0]), SpanKey(p[i]));
    }
  }

  lemma SweepTakes(whole: seq<Span>, k: nat, m: int)
    requires Disjoint(whole) && 0 <= m < |whole| && (m == k || m == k - 1)
    ensures k <= |whole| && Step(whole[..k], whole[m]) == whole[..m + 1]
  {
    if k > 0 {
      assert whole[..k][k - 1] == whole[k - 1];
    }
    if m == k {
      assert whole[..k] + [whole[m]] == whole[..k + 1];
    }
  }

  lemma RestPending(p: seq<Span>, whole: seq<Span>, k: nat, m: int)
    requires Disjoint(whole) && Ordered(p, SpanKey) && Pending(p, whole, k) && p != []
    requires 0 <= m < |whole| && (m == k || m == k - 1) && p[0] == whole[m]
    ensures Ordered(p[1..], SpanKey) && Pending(p[1..], whole, m + 1)
  {
    var rest := p[1..];
    TailOrdered(p, SpanKey);
    forall x | x in rest ensures exists n :: m <= n && 0 <= n < |whole| && whole[n] == x {
      var i :| 0 <= i < |rest| && rest[i] == x;
      LaterInWhole(p, whole, k, m, i + 1);
    }
    forall n | m + 1 <= n < |whole| ensures whole[n] in rest {
      assert whole[n] in p;
      var i :| 0 <= i < |p| && p[i] == whole[n];
      assert whole[m].end <= whole[n].start;
      assert rest[i - 1] == whole[n];
    }
  }

  lemma LaterInWhole(p: seq<Span>, whole: seq<Span>, k: nat, m: int, i: int)
    requires Disjoint(whole) && Ordered(p, SpanKey) && Pending(p, whole, k)
    requires 0 <= m < |whole| && 0 < i < |p| && p[0] == whole[m]
    ensures exists n :: m <= n && 0 <= n < |whole| && whole[n] == p[i]
  {
    assert p[i] in p;
    var n :| k - 1 <= n && 0 <= n < |whole| && whole[n] == p[i];
    assert Leq(SpanKey(p[0]), SpanKey(p[i]));
  }

  /** The windowed form refines the simple one: whatever order the goroutines finish in and
      whatever permutation the sort picks, the result is the whole-text span list itself. */
  lemma WindowedRefinesWhole(pipe: Pipeline, text: Text, spans: seq<Span>)
    requires WindowsAgree(pipe, text, WindowsOf(text)) && FitsOverlap(pipe(text), text)
    requires Detected(pipe, text, spans)
    ensures spans == pipe(text)
  {
    var ws, whole := WindowsOf(text), pipe(text);
    if |ws| != 1 {
      var p :| SortedPermutation(p, Merged(pipe, text, ws), SpanKey) && spans == Sweep([], p);
      forall s | s in whole ensures s in Merged(pipe, text, ws) {
        EverySpanFound(pipe, text, s);
      }
      forall s | s in Merged(pipe, text, ws) ensures s in whole {
        MergedSound(pipe, text, ws, s);
      }
      SweepOfMembers(p, Merged(pipe, text, ws), whole);
    }
  }

  /** A sorted permutation of whole-run spans, each at least once, sweeps to the whole run. */
  lemma SweepOfMembers(p: seq<Span>, merged: seq<Span>, whole: seq<Span>)
    requires SortedPermutation(p, merged, SpanKey) && Disjoint(whole)
    requires forall s :: s in merged <==> s in whole
    ensures Sweep([], p) == whole
  {
    MembersAgree(p, merged);
    forall x | x in p ensures exists m :: -1 <= m && 0 <= m < |whole| && whole[m] == x {
      assert x in whole;
    }
    assert forall m :: 0 <= m < |whole| ==> whole[m] in whole;
    SweepCollapses([], p, whole, 0);
  }

  /** Some result is possible, so the whole-text list is. */
  lemma WholeIsDetected(pipe: Pipeline, text: Text)
    requires WindowsAgree(pipe, text, WindowsOf(text)) && FitsOverlap(pipe(text), text)
    ensures Detected(pipe, text, pipe(text))
  {
    var ws := WindowsOf(text);
    if |ws| != 1 {
      var p := Arrange(Merged(pipe, text, ws), SpanKey);
      assert DetectedOver(pipe, text, ws, Sweep([], p));
      WindowedRefinesWhole(pipe, text, Sweep([], p));
    }
  }
}
