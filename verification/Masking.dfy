/** One masking run: detect, filter, apply; and a batch of them sharing a document. */
module Masking {
  import opened Bytes
  import opened Spans
  import Resolver
  import opened Windows
  import opened WindowedDetection
  import opened Strategies
  import opened TokenNumbering
  import opened Splicing
  import opened Applying
  import opened Restoring
  import opened RestoreLaws
  import opened TokenRestore

  datatype ComboRule = ComboRule(category: Category, requiresAny: seq<Category>)

  datatype Options = Options(
    categories: seq<Category>,
    strategy: Text,
    ttl: int,
    combos: seq<ComboRule>,
    unmask: bool,
    systemId: Text,
    defaultSystemId: Text)

  /** The detectors, the strategies by name, and, for n windows, the order they finish in. */
  datatype Config = Config(pipeline: Pipeline, strategies: map<Text, Strategy>, finish: nat -> seq<nat>)

  ghost predicate AnySchedule(cfg: Config) {
    forall n: nat :: Schedule(cfg.finish(n), n)
  }

  // ---------------------------------------------------------------- filtering

  /** The first rule for a category decides. */
  predicate ComboAllowed(c: Category, present: set<Category>, rules: seq<ComboRule>) {
    if rules == [] then true
    else if rules[0].category != c then ComboAllowed(c, present, rules[1..])
    else exists k :: 0 <= k < |rules[0].requiresAny| && rules[0].requiresAny[k] in present
  }

  predicate Wanted(s: Span, present: set<Category>, opt: Options) {
    (opt.categories == [] || s.category in opt.categories) && ComboAllowed(s.category, present, opt.combos)
  }

  function PresentIn(spans: seq<Span>): set<Category> {
    set k | 0 <= k < |spans| :: spans[k].category
  }

  function Wants(spans: seq<Span>, present: set<Category>, opt: Options): seq<Span> {
    if spans == [] then []
    else if Wanted(spans[0], present, opt) then [spans[0]] + Wants(spans[1..], present, opt)
    else Wants(spans[1..], present, opt)
  }

  function Filtered(spans: seq<Span>, opt: Options): seq<Span> {
    Wants(spans, PresentIn(spans), opt)
  }

  method FilterSpans(spans: seq<Span>, opt: Options) returns (out: seq<Span>)
    ensures out == Filtered(spans, opt)
  {
    var present := PresentIn(spans);
    out := [];
    assert spans[0..] == spans;
    for i := 0 to |spans|
      invariant out + Wants(spans[i..], present, opt) == Filtered(spans, opt)
    {
      assert spans[i..][0] == spans[i] && spans[i..][1..] == spans[i + 1..];
      if Wanted(spans[i], present, opt) {
        assert out + ([spans[i]] + Wants(spans[i + 1..], present, opt))
            == (out + [spans[i]]) + Wants(spans[i + 1..], present, opt);
        out := out + [spans[i]];
      }
    }
  }

  lemma {:induction false} WantsMembers(spans: seq<Span>, present: set<Category>, opt: Options)
    ensures forall s :: s in Wants(spans, present, opt) <==> s in spans && Wanted(s, present, opt)
    decreases |spans|
  {
    if spans != [] {
      WantsMembers(spans[1..], present, opt);
      assert spans == [spans[0]] + spans[1..];
    }
  }

  /** The i-th rule is the first for the category. */
  ghost predicate FirstRule(rules: seq<ComboRule>, c: Category, i: int) {
    0 <= i < |rules| && rules[i].category == c && forall j :: 0 <= j < i ==> rules[j].category != c
  }

  /** A detected span is to be masked: no categories are asked for or its own is, and the first
      rule for its category, if there is one, names a category that was detected as well. */
  ghost predicate Stays(x: Span, found: seq<Span>, opt: Options) {
    && x in found && (opt.categories == [] || x.category in opt.categories)
    && forall i :: FirstRule(opt.combos, x.category, i) ==> exists y :: y in found && y.category in opt.combos[i].requiresAny
  }

  lemma {:induction false} FirstRuleDecides(c: Category, found: seq<Span>, rules: seq<ComboRule>)
    ensures ComboAllowed(c, PresentIn(found), rules) <==>
              forall i :: FirstRule(rules, c, i) ==> exists y :: y in found && y.category in rules[i].requiresAny
    decreases |rules|
  {
    if rules != [] {
      if rules[0].category == c {
        assert forall i :: FirstRule(rules, c, i) <==> i == 0;
        RuleMet(found, rules[0]);
      } else {
        FirstRuleDecides(c, found, rules[1..]);
        assert forall i :: FirstRule(rules, c, i) ==> i > 0 && FirstRule(rules[1..], c, i - 1);
        assert forall i :: FirstRule(rules[1..], c, i) ==> FirstRule(rules, c, i + 1);
      }
    }
  }

  lemma RuleMet(found: seq<Span>, rule: ComboRule)
    ensures (exists k :: 0 <= k < |rule.requiresAny| && rule.requiresAny[k] in PresentIn(found)) <==>
              exists y :: y in found && y.category in rule.requiresAny
  {
    forall k | 0 <= k < |found| ensures found[k] in found && found[k].category in PresentIn(found) {}
  }

  /** The filter keeps exactly the spans to be masked, in order. */
  lemma FilteredStay(found: seq<Span>, opt: Options)
    ensures forall x :: x in Filtered(found, opt) <==> Stays(x, found, opt)
    ensures Disjoint(found) ==> Disjoint(Filtered(found, opt))
  {
    WantsMembers(found, PresentIn(found), opt);
    forall x ensures x in Filtered(found, opt) <==> Stays(x, found, opt) {
      FirstRuleDecides(x.category, found, opt.combos);
    }
    if Disjoint(found) {
      WantsKeepsDisjoint(found, PresentIn(found), opt);
    }
  }

  lemma {:induction false} WantsKeepsDisjoint(spans: seq<Span>, present: set<Category>, opt: Options)
    requires Disjoint(spans)
    ensures Disjoint(Wants(spans, present, opt))
    decreases |spans|
  {
    if spans != [] {
      Resolver.DisjointTail(spans);
      WantsKeepsDisjoint(spans[1..], present, opt);
      WantsMembers(spans[1..], present, opt);
      var rest := Wants(spans[1..], present, opt);
      forall j | 0 <= j < |rest| ensures spans[0].end <= rest[j].start {
        assert rest[j] in spans[1..];
        var k :| 0 <= k < |spans[1..]| && spans[1..][k] == rest[j];
        assert spans[k + 1] == rest[j];
      }
    }
  }

  // ---------------------------------------------------------------- one text

  ghost predicate Detects(pipe: Pipeline, text: Text, spans: seq<Span>) {
    if |text| > CHUNK_THRESHOLD then Detected(pipe, text, spans) else spans == pipe(text)
  }

  ghost predicate Masks(cfg: Config, text: Text, opt: Options, s: Strategy, d: Doc,
                        masked: Text, reps: seq<Replacement>, d': Doc) {
    exists spans :: Detects(cfg.pipeline, text, spans) && Applied(text, Filtered(spans, opt), s, d, masked, reps, d')
  }

  method RunMask(cfg: Config, text: Text, opt: Options, s: Strategy, doc: DocState)
    returns (masked: Text, reps: seq<Replacement>)
    requires AnySchedule(cfg)
    modifies doc
    ensures Masks(cfg, text, opt, s, old(doc.View()), masked, reps, doc.View())
  {
    var found;
    if |text| > CHUNK_THRESHOLD {
      found := DetectWindowed(cfg.pipeline, text, cfg.finish(|WindowsOf(text)|));
    } else {
      found := cfg.pipeline(text);
    }
    var spans := FilterSpans(found, opt);
    masked, reps := Apply(text, spans, s, doc);
  }

  /** A large text is masked exactly as if it had been detected in one run, provided the windows
      see what the whole run sees. */
  lemma LargeTextLikeSmall(cfg: Config, text: Text, opt: Options, s: Strategy, d: Doc,
                           masked: Text, reps: seq<Replacement>, d': Doc)
    requires WindowsAgree(cfg.pipeline, text, WindowsOf(text)) && FitsOverlap(cfg.pipeline(text), text)
    ensures Masks(cfg, text, opt, s, d, masked, reps, d')
       <==> Applied(text, Filtered(cfg.pipeline(text), opt), s, d, masked, reps, d')
  {
    WholeIsDetected(cfg.pipeline, text);
    assert Detects(cfg.pipeline, text, cfg.pipeline(text));
    if Masks(cfg, text, opt, s, d, masked, reps, d') {
      var spans :| Detects(cfg.pipeline, text, spans) && Applied(text, Filtered(spans, opt), s, d, masked, reps, d');
      if |text| > CHUNK_THRESHOLD {
        WindowedRefinesWhole(cfg.pipeline, text, spans);
      }
    }
  }

  /** When the spans detected are disjoint and in range, as a resolved run leaves them, exactly
      the wanted ones are masked and nothing else of the text changes. */
  lemma WantedSpansMasked(text: Text, found: seq<Span>, opt: Options, s: Strategy, d: Doc,
                          masked: Text, reps: seq<Replacement>, d': Doc)
    requires Disjoint(found) && forall k :: 0 <= k < |found| ==> InRange(text, found[k])
    requires Applied(text, Filtered(found, opt), s, d, masked, reps, d')
    ensures |reps| == |Filtered(found, opt)| && Swaps(text, Forward(Filtered(found, opt), reps), masked)
    ensures forall x :: x in Filtered(found, opt) <==> x in found && Wanted(x, PresentIn(found), opt)
  {
    WantsMembers(found, PresentIn(found), opt);
    WantsKeepsDisjoint(found, PresentIn(found), opt);
    var spans := Filtered(found, opt);
    forall k | 0 <= k < |spans| ensures InRange(text, spans[k]) {
      assert spans[k] in found;
    }
    DisjointSpansAllMasked(text, spans, s, d, masked, reps, d');
  }

  /** The masked text is the text with chosen spans swapped for their masks; the chosen ones are
      detected spans to be masked, and all those lie in chosen ones with their first byte at least. */
  ghost predicate HidesSpans(cfg: Config, text: Text, opt: Options, masked: Text, reps: seq<Replacement>,
                             found: seq<Span>, chosen: seq<Span>) {
    && Detects(cfg.pipeline, text, found)
    && |chosen| == |reps| && Swaps(text, Forward(chosen, reps), masked)
    && (forall k :: 0 <= k < |chosen| ==> Stays(chosen[k], found, opt) && reps[k].category == chosen[k].category)
    && forall x :: Stays(x, found, opt) && InRange(text, x) ==> Covered(x, chosen)
  }

  ghost predicate Hidden(cfg: Config, text: Text, opt: Options, masked: Text, reps: seq<Replacement>) {
    exists found, chosen :: HidesSpans(cfg, text, opt, masked, reps, found, chosen)
  }

  /** Every masking run hides the spans to be masked. */
  lemma RunHidesSpans(cfg: Config, text: Text, opt: Options, s: Strategy, d: Doc,
                      masked: Text, reps: seq<Replacement>, d': Doc)
    requires Masks(cfg, text, opt, s, d, masked, reps, d')
    ensures Hidden(cfg, text, opt, masked, reps)
  {
    var found :| Detects(cfg.pipeline, text, found) && Applied(text, Filtered(found, opt), s, d, masked, reps, d');
    var chosen := MaskingCoversSpans(text, Filtered(found, opt), s, d, masked, reps, d');
    FilteredStay(found, opt);
    assert HidesSpans(cfg, text, opt, masked, reps, found, chosen);
  }

  /** On a new document every mask is what the strategy makes of its original. */
  lemma RunMasksMade(cfg: Config, text: Text, opt: Options, s: Strategy, masked: Text, reps: seq<Replacement>, d': Doc)
    requires Masks(cfg, text, opt, s, EMPTY_DOC, masked, reps, d')
    ensures AllMade(s, reps)
  {
    var found :| Detects(cfg.pipeline, text, found) && Applied(text, Filtered(found, opt), s, EMPTY_DOC, masked, reps, d');
    MasksComeFromStrategy(text, Filtered(found, opt), s, masked, reps, d');
  }

  /** Any masking run can be undone: restoring the masked text gives the text, with no miss. */
  lemma MaskRestores(cfg: Config, text: Text, opt: Options, s: Strategy, d: Doc,
                     masked: Text, reps: seq<Replacement>, d': Doc, restored: Text, misses: int)
    requires Masks(cfg, text, opt, s, d, masked, reps, d') && KeepsNonEmpty(s)
    requires Restored(masked, reps, restored, misses)
    ensures restored == text && misses == 0
  {
    MaskFacts(cfg, text, opt, s, d, masked, reps, d');
    NonEmptyMasksRise(masked, reps, text);
    RoundTrip(masked, reps, text, restored, misses);
  }

  // ---------------------------------------------------------------- a batch

  /** The first n texts, each followed by a newline. */
  function Joined(texts: seq<Text>, n: nat): Text
    requires n <= |texts|
  {
    if n == 0 then [] else Joined(texts, n - 1) + texts[n - 1] + [NEWLINE]
  }

  method Join(texts: seq<Text>) returns (b: Text)
    ensures b == Joined(texts, |texts|)
  {
    b := [];
    for i := 0 to |texts|
      invariant b == Joined(texts, i)
    {
      b := b + texts[i];
      b := b + [NEWLINE];
    }
  }

  /** Where message `i` starts in the joined text. */
  function StartOf(texts: seq<Text>, i: nat): nat
    requires i <= |texts|
  {
    if i == 0 then 0 else StartOf(texts, i - 1) + |texts[i - 1]| + 1
  }

  /** Every message stands in the joined text at its place, followed by a newline, and nothing else
      does. */
  lemma {:induction false} JoinedHolds(texts: seq<Text>, n: nat, i: nat)
    requires i < n <= |texts|
    ensures |Joined(texts, n)| == StartOf(texts, n) && StartOf(texts, i) + |texts[i]| < StartOf(texts, n)
    ensures Joined(texts, n)[StartOf(texts, i)..StartOf(texts, i) + |texts[i]|] == texts[i]
    ensures Joined(texts, n)[StartOf(texts, i) + |texts[i]|] == NEWLINE
    decreases n
  {
    JoinedLength(texts, n);
    JoinedLength(texts, n - 1);
    if i < n - 1 {
      JoinedHolds(texts, n - 1, i);
      assert Joined(texts, n)[..StartOf(texts, n - 1)] == Joined(texts, n - 1);
    }
  }

  lemma {:induction false} JoinedLength(texts: seq<Text>, n: nat)
    requires n <= |texts|
    ensures |Joined(texts, n)| == StartOf(texts, n)
  {
    if n > 0 {
      JoinedLength(texts, n - 1);
    }
  }

  function ShiftReps(reps: seq<Replacement>, offset: int): (r: seq<Replacement>)
    ensures |r| == |reps|
    ensures forall k {:trigger r[k]} :: 0 <= k < |r| ==>
              r[k] == reps[k].(start := reps[k].start + offset, end := reps[k].end + offset)
  {
    seq(|reps|, k requires 0 <= k < |reps| => reps[k].(start := reps[k].start + offset, end := reps[k].end + offset))
  }

  /** All replacements of the first n messages, in offsets of the joined masked text. */
  function AllReps(masked: seq<Text>, perMsg: seq<seq<Replacement>>, n: nat): seq<Replacement>
    requires n <= |masked| == |perMsg|
  {
    if n == 0 then []
    else AllReps(masked, perMsg, n - 1) + ShiftReps(perMsg[n - 1], |Joined(masked, n - 1)|)
  }

  /** What one masking run may do: text and document before, masked text, replacements and
      document after. */
  type Run = (Text, Doc, Text, seq<Replacement>, Doc) -> bool

  ghost function RunOf(cfg: Config, opt: Options, s: Strategy): Run {
    (text, d, masked, reps, d') => Masks(cfg, text, opt, s, d, masked, reps, d')
  }

  /** The possible results of masking the texts one after another with one document, whose
      states are `docs`. */
  ghost predicate BatchMasks(run: Run, texts: seq<Text>,
                             masked: seq<Text>, perMsg: seq<seq<Replacement>>, docs: seq<Doc>) {
    && |masked| == |perMsg| == |texts| && |docs| == |texts| + 1
    && docs[0] == EMPTY_DOC
    && forall i {:trigger perMsg[i]} :: 0 <= i < |texts| ==>
         run(texts[i], docs[i], masked[i], perMsg[i], docs[i + 1])
  }

  /** A batch result: the masked texts and the replacements recorded for all of them. */
  ghost predicate BatchResult(run: Run, texts: seq<Text>,
                              masked: seq<Text>, allReps: seq<Replacement>) {
    exists perMsg, docs ::
      BatchMasks(run, texts, masked, perMsg, docs) && allReps == AllReps(masked, perMsg, |texts|)
  }

  /** A batch result together with the document it leaves. */
  ghost predicate BatchLeaves(run: Run, texts: seq<Text>,
                              masked: seq<Text>, allReps: seq<Replacement>, d: Doc) {
    exists perMsg, docs ::
      && BatchMasks(run, texts, masked, perMsg, docs)
      && allReps == AllReps(masked, perMsg, |texts|) && docs[|texts|] == d
  }

  /** Whatever the masking of a text may do, `run` allows. */
  ghost predicate Allows(run: Run, cfg: Config, opt: Options, s: Strategy) {
    forall text, d, m, reps, d' :: Masks(cfg, text, opt, s, d, m, reps, d') ==> run(text, d, m, reps, d')
  }

  method MaskBatch(cfg: Config, texts: seq<Text>, opt: Options, s: Strategy)
    returns (masked: seq<Text>, allReps: seq<Replacement>)
    requires AnySchedule(cfg)
    ensures BatchResult(RunOf(cfg, opt, s), texts, masked, allReps)
  {
    masked, allReps := MaskMessages(cfg, RunOf(cfg, opt, s), texts, opt, s);
  }

  method MaskMessages(cfg: Config, ghost run: Run, texts: seq<Text>, opt: Options, s: Strategy)
    returns (masked: seq<Text>, allReps: seq<Replacement>)
    requires AnySchedule(cfg) && Allows(run, cfg, opt, s)
    ensures BatchResult(run, texts, masked, allReps)
  {
    var doc := new DocState();
    masked, allReps := [], [];
    var msgOffset := 0;
    NoMessages(run);
    for i := 0 to |texts|
      invariant |masked| == i && msgOffset == |Joined(masked, i)|
      invariant BatchLeaves(run, texts[..i], masked, allReps, doc.View())
    {
      var text;
      text, allReps := MaskMessage(cfg, run, texts[..i], texts[i], opt, s, masked, allReps, msgOffset, doc);
      assert texts[..i + 1] == texts[..i] + [texts[i]];
      masked := masked + [text];
      msgOffset := msgOffset + |text| + 1;
    }
    assert texts[..|texts|] == texts;
    LeavesResult(run, texts, masked, allReps, doc.View());
  }

  lemma LeavesResult(run: Run, texts: seq<Text>, masked: seq<Text>, allReps: seq<Replacement>, d: Doc)
    requires BatchLeaves(run, texts, masked, allReps, d)
    ensures BatchResult(run, texts, masked, allReps)
  {}

  /** The body of the batch loop: mask one message, shift its replacements. */
  method MaskMessage(cfg: Config, ghost run: Run, ghost texts: seq<Text>, text: Text, opt: Options, s: Strategy,
                     masked: seq<Text>, allReps: seq<Replacement>, msgOffset: int, doc: DocState)
    returns (m: Text, all: seq<Replacement>)
    requires AnySchedule(cfg) && |masked| == |texts| && msgOffset == |Joined(masked, |masked|)|
    requires Allows(run, cfg, opt, s) && BatchLeaves(run, texts, masked, allReps, doc.View())
    modifies doc
    ensures BatchLeaves(run, texts + [text], masked + [m], all, doc.View())
    ensures |Joined(masked + [m], |masked| + 1)| == msgOffset + |m| + 1
  {
    ghost var d := doc.View();
    var reps;
    m, reps := RunMask(cfg, text, opt, s, doc);
    all := ShiftInto(allReps, reps, msgOffset);
    NextMessage(run, texts, masked, allReps, d, text, m, reps, doc.View());
  }

  lemma NoMessages(run: Run)
    ensures BatchLeaves(run, [], [], [], EMPTY_DOC)
  {
    assert BatchMasks(run, [], [], [], [EMPTY_DOC]);
  }

  lemma NextMessage(run: Run, texts: seq<Text>,
                    masked: seq<Text>, all: seq<Replacement>, d: Doc,
                    text: Text, m: Text, reps: seq<Replacement>, d': Doc)
    requires BatchLeaves(run, texts, masked, all, d) && |masked| == |texts|
    requires run(text, d, m, reps, d')
    ensures Joined(masked + [m], |masked| + 1) == Joined(masked, |masked|) + m + [NEWLINE]
    ensures BatchLeaves(run, texts + [text], masked + [m], all + ShiftReps(reps, |Joined(masked, |masked|)|), d')
  {
    var perMsg, docs :| BatchMasks(run, texts, masked, perMsg, docs)
      && all == AllReps(masked, perMsg, |texts|) && docs[|texts|] == d;
    BatchGrows(masked, perMsg, |texts|, m, reps);
    BatchStep(run, texts, masked, perMsg, docs, text, m, reps, d');
    LeavesBy(run, texts + [text], masked + [m], perMsg + [reps], docs + [d']);
  }

  lemma LeavesBy(run: Run, texts: seq<Text>,
                 masked: seq<Text>, perMsg: seq<seq<Replacement>>, docs: seq<Doc>)
    requires BatchMasks(run, texts, masked, perMsg, docs)
    ensures BatchLeaves(run, texts, masked, AllReps(masked, perMsg, |texts|), docs[|texts|])
  {}

  method ShiftInto(allReps: seq<Replacement>, reps: seq<Replacement>, msgOffset: int) returns (all: seq<Replacement>)
    ensures all == allReps + ShiftReps(reps, msgOffset)
  {
    all := allReps;
    for k := 0 to |reps|
      invariant all == allReps + ShiftReps(reps, msgOffset)[..k]
    {
      all := all + [reps[k].(start := reps[k].start + msgOffset, end := reps[k].end + msgOffset)];
    }
  }

  lemma {:induction false} JoinedPrefix(texts: seq<Text>, more: Text, n: nat)
    requires n <= |texts|
    ensures Joined(texts + [more], n) == Joined(texts, n)
  {
    if n > 0 {
      JoinedPrefix(texts, more, n - 1);
    }
  }

  lemma {:induction false} AllRepsPrefix(masked: seq<Text>, perMsg: seq<seq<Replacement>>, n: nat, m: Text, reps: seq<Replacement>)
    requires n <= |masked| == |perMsg|
    ensures AllReps(masked + [m], perMsg + [reps], n) == AllReps(masked, perMsg, n)
  {
    if n > 0 {
      AllRepsPrefix(masked, perMsg, n - 1, m, reps);
      JoinedPrefix(masked, m, n - 1);
      assert (perMsg + [reps])[n - 1] == perMsg[n - 1];
    }
  }

  lemma BatchGrows(masked: seq<Text>, perMsg: seq<seq<Replacement>>, n: nat, m: Text, reps: seq<Replacement>)
    requires n == |masked| == |perMsg|
    ensures Joined(masked + [m], n + 1) == Joined(masked, n) + m + [NEWLINE]
    ensures AllReps(masked + [m], perMsg + [reps], n + 1)
         == AllReps(masked, perMsg, n) + ShiftReps(reps, |Joined(masked, n)|)
  {
    JoinedPrefix(masked, m, n);
    AllRepsPrefix(masked, perMsg, n, m, reps);
  }

  lemma BatchStep(run: Run, texts: seq<Text>,
                  masked: seq<Text>, perMsg: seq<seq<Replacement>>, docs: seq<Doc>,
                  text: Text, m: Text, reps: seq<Replacement>, d: Doc)
    requires BatchMasks(run, texts, masked, perMsg, docs)
    requires run(text, docs[|texts|], m, reps, d)
    ensures BatchMasks(run, texts + [text], masked + [m], perMsg + [reps], docs + [d])
  {
    var n := |texts|;
    forall i {:trigger (perMsg + [reps])[i]} | 0 <= i < n + 1
      ensures run((texts + [text])[i], (docs + [d])[i], (masked + [m])[i], (perMsg + [reps])[i], (docs + [d])[i + 1])
    {
      if i < n {
        assert run(texts[i], docs[i], masked[i], perMsg[i], docs[i + 1]);
      }
    }
  }

  // ---------------------------------------------------------------- what a batch keeps

  /** Claims on the second of two texts, seen from the concatenation: only offsets differ. */
  ghost predicate Moved(claims: seq<Claim>, moved: seq<Claim>, offset: int) {
    && |moved| == |claims|
    && forall k {:trigger moved[k]} {:trigger claims[k]} :: 0 <= k < |claims| ==>
         && moved[k].start == claims[k].start + offset && moved[k].end == claims[k].end + offset
         && moved[k].source.original == claims[k].source.original
         && moved[k].source.masked == claims[k].source.masked
  }

  lemma {:induction false} SpliceMoved(pre: Text, text: Text, claims: seq<Claim>, moved: seq<Claim>, pos: int)
    requires Laid(text, claims, pos) && Moved(claims, moved, |pre|) && 0 <= pos
    ensures Laid(pre + text, moved, |pre| + pos)
    ensures Splice(pre + text, moved, |pre| + pos) == Splice(text, claims, pos)
    decreases |claims|
  {
    if claims == [] {
      assert (pre + text)[|pre| + pos..] == text[pos..];
    } else {
      var c := claims[0];
      MovedHead(claims, moved, |pre|);
      SpliceMoved(pre, text, claims[1..], moved[1..], c.end);
      SliceMoved(pre, text, pos, c.start);
      SameHead(text, claims, pos, pre + text, moved, |pre| + pos);
    }
  }

  lemma SameHead(a: Text, first: seq<Claim>, p: int, b: Text, second: seq<Claim>, q: int)
    requires Laid(a, first, p) && first != [] && second != [] && 0 <= q <= second[0].start <= second[0].end <= |b|
    requires Laid(b, second[1..], second[0].end)
    requires a[p..first[0].start] == b[q..second[0].start]
    requires first[0].source.original == second[0].source.original
    requires Splice(a, first[1..], first[0].end) == Splice(b, second[1..], second[0].end)
    ensures Laid(b, second, q) && Splice(a, first, p) == Splice(b, second, q)
  {}

  lemma MovedHead(claims: seq<Claim>, moved: seq<Claim>, offset: int)
    requires Moved(claims, moved, offset) && claims != []
    ensures moved[0].start == claims[0].start + offset && moved[0].end == claims[0].end + offset
    ensures moved[0].source.original == claims[0].source.original
    ensures Moved(claims[1..], moved[1..], offset)
  {}

  lemma SliceMoved(pre: Text, text: Text, p: int, q: int)
    requires 0 <= p <= q <= |text|
    ensures (pre + text)[|pre| + p..|pre| + q] == text[p..q]
  {}

  /** Behind a text without claims the moved ones are spliced as before. */
  lemma SpliceBehind(pre: Text, text: Text, claims: seq<Claim>, moved: seq<Claim>, pos: int)
    requires Laid(text, claims, 0) && Moved(claims, moved, |pre|) && 0 <= pos <= |pre|
    ensures Laid(pre + text, moved, pos)
    ensures Splice(pre + text, moved, pos) == pre[pos..] + Splice(text, claims, 0)
  {
    SpliceMoved(pre, text, claims, moved, 0);
    SpliceLonger(pre + text, moved, pos, |pre|);
    assert (pre + text)[pos..|pre|] == pre[pos..];
  }

  lemma {:induction false} SpliceJoin(a: Text, first: seq<Claim>, b: Text, second: seq<Claim>, moved: seq<Claim>, pos: int)
    requires Laid(a, first, pos) && Laid(b, second, 0) && Moved(second, moved, |a|)
    requires 0 <= pos
    ensures Laid(a + b, first + moved, pos)
    ensures Splice(a + b, first + moved, pos) == Splice(a, first, pos) + Splice(b, second, 0)
    decreases |first|
  {
    if first == [] {
      SpliceBehind(a, b, second, moved, pos);
      assert first + moved == moved;
    } else {
      var c := first[0];
      assert (first + moved)[1..] == first[1..] + moved;
      SpliceJoin(a, first[1..], b, second, moved, c.end);
      assert (a + b)[pos..c.start] == a[pos..c.start];
      Assoc(a[pos..c.start], c.source.original, Splice(a, first[1..], c.end), Splice(b, second, 0));
    }
  }

  /** Two swapped texts side by side, the offsets of the second moved along. */
  lemma SwapsJoin(a: Text, first: seq<Claim>, a': Text, b: Text, second: seq<Claim>, b': Text, moved: seq<Claim>)
    requires Swaps(a, first, a') && Swaps(b, second, b') && Moved(second, moved, |a|)
    ensures Swaps(a + b, first + moved, a' + b')
  {
    SpliceJoin(a, first, b, second, moved, 0);
    AnchoredJoin(a, first, b, second, moved);
  }

  lemma AnchoredJoin(a: Text, first: seq<Claim>, b: Text, second: seq<Claim>, moved: seq<Claim>)
    requires Anchored(a, first) && Anchored(b, second) && Moved(second, moved, |a|)
    ensures Anchored(a + b, first + moved)
  {
    AnchoredExtend(a, first, b);
    forall k | 0 <= k < |moved|
      ensures 0 <= moved[k].start <= moved[k].end <= |a + b|
      ensures (a + b)[moved[k].start..moved[k].end] == moved[k].source.masked
    {
      assert moved[k].start == second[k].start + |a|;
      SliceMoved(a, b, second[k].start, second[k].end);
    }
  }

  lemma PlacedMoves(all: seq<Replacement>, reps: seq<Replacement>, offset: int) returns (moved: seq<Claim>)
    ensures Moved(Placed(reps), moved, offset)
    ensures Placed(all + ShiftReps(reps, offset)) == Placed(all) + moved
  {
    moved := Placed(ShiftReps(reps, offset));
  }

  lemma MessageKeeps(joined: Text, all: seq<Replacement>, joinedTexts: Text, m: Text, reps: seq<Replacement>, text: Text)
    requires StandsFor(joined, all, joinedTexts) && StandsFor(m, reps, text)
    ensures StandsFor(joined + m + [NEWLINE], all + ShiftReps(reps, |joined|), joinedTexts + text + [NEWLINE])
  {
    var moved := PlacedMoves(all, reps, |joined|);
    SwapsJoin(joined, Placed(all), joinedTexts, m, Placed(reps), text, moved);
    SwapsEnd(joined + m, Placed(all) + moved, joinedTexts + text, [NEWLINE]);
  }

  lemma ShiftKeepsLog(s: Strategy, all: seq<Replacement>, reps: seq<Replacement>, offset: int, d: Doc)
    requires Logged(s, all, reps, d)
    ensures Logged(s, [], all + ShiftReps(reps, offset), d)
  {
    var shifted := ShiftReps(reps, offset);
    assert [] + (all + shifted) == all + shifted;
    assert CallsOf(all + shifted) == CallsOf(all + reps);
    assert MasksOf(all + shifted) == MasksOf(all + reps);
  }

  lemma LogRegroup(s: Strategy, all: seq<Replacement>, d: Doc)
    requires Logged(s, [], all, d)
    ensures Logged(s, all, [], d)
  {
    assert [] + all == all && all + [] == all;
  }

  /** What is kept about the joined texts so far. */
  ghost predicate BatchKept(s: Strategy, joined: Text, all: seq<Replacement>, joinedTexts: Text, d: Doc) {
    StandsFor(joined, all, joinedTexts) && Logged(s, [], all, d) && (KeepsNonEmpty(s) ==> MasksNonEmpty(all))
  }

  /** A run that masks faithfully: its result stands for the text, continues the session of
      its document, and shows no empty mask if the strategy does not. */
  ghost predicate Faithful(run: Run, s: Strategy) {
    && (forall text, d, m, reps, d' :: run(text, d, m, reps, d') ==>
          StandsFor(m, reps, text) && (KeepsNonEmpty(s) ==> MasksNonEmpty(reps)))
    && (forall text, d, m, reps, d', all :: run(text, d, m, reps, d') && Logged(s, all, [], d) ==> Logged(s, all, reps, d'))
  }

  lemma MaskFacts(cfg: Config, text: Text, opt: Options, s: Strategy, d: Doc, m: Text, reps: seq<Replacement>, d': Doc)
    requires Masks(cfg, text, opt, s, d, m, reps, d')
    ensures StandsFor(m, reps, text) && (KeepsNonEmpty(s) ==> MasksNonEmpty(reps))
  {
    var spans :| Detects(cfg.pipeline, text, spans) && Applied(text, Filtered(spans, opt), s, d, m, reps, d');
    MaskedStandsForText(text, Filtered(spans, opt), s, d, m, reps, d');
    if KeepsNonEmpty(s) {
      ApplyShows(text, Filtered(spans, opt), s, d, m, reps, d');
    }
  }

  lemma MaskingIsFaithful(cfg: Config, opt: Options, s: Strategy)
    ensures Faithful(RunOf(cfg, opt, s), s)
  {
    forall text, d, m, reps, d' | Masks(cfg, text, opt, s, d, m, reps, d')
      ensures StandsFor(m, reps, text) && (KeepsNonEmpty(s) ==> MasksNonEmpty(reps))
    {
      MaskFacts(cfg, text, opt, s, d, m, reps, d');
    }
    forall text, d, m, reps, d', all | Masks(cfg, text, opt, s, d, m, reps, d') && Logged(s, all, [], d)
      ensures Logged(s, all, reps, d')
    {
      var spans :| Detects(cfg.pipeline, text, spans) && Applied(text, Filtered(spans, opt), s, d, m, reps, d');
      ApplyLogs(text, Filtered(spans, opt), s, all, d, m, reps, d');
    }
  }

  /** One more message. */
  lemma MessageAdds(run: Run, text: Text, s: Strategy, d: Doc,
                    m: Text, reps: seq<Replacement>, d': Doc, joined: Text, all: seq<Replacement>, joinedTexts: Text)
    requires Faithful(run, s) && run(text, d, m, reps, d') && BatchKept(s, joined, all, joinedTexts, d)
    ensures BatchKept(s, joined + m + [NEWLINE], all + ShiftReps(reps, |joined|), joinedTexts + text + [NEWLINE], d')
  {
    MessageKeeps(joined, all, joinedTexts, m, reps, text);
    LogRegroup(s, all, d);
    ShiftKeepsLog(s, all, reps, |joined|, d');
  }

  /** Whatever the messages: in the joined masked text every shifted replacement sits at its
      offsets, in order and without overlap, putting the originals back gives the joined
      texts, and the replacements are those of one masking session. */
  lemma {:induction false} BatchStandsFor(run: Run, texts: seq<Text>, s: Strategy,
                                          masked: seq<Text>, perMsg: seq<seq<Replacement>>, docs: seq<Doc>, n: nat)
    requires Faithful(run, s) && BatchMasks(run, texts, masked, perMsg, docs) && n <= |texts|
    ensures BatchKept(s, Joined(masked, n), AllReps(masked, perMsg, n), Joined(texts, n), docs[n])
  {
    if n == 0 {
      NothingMasked(s);
    } else {
      BatchStandsFor(run, texts, s, masked, perMsg, docs, n - 1);
      var joined, all, joinedTexts := Joined(masked, n - 1), AllReps(masked, perMsg, n - 1), Joined(texts, n - 1);
      MessageOf(run, texts, masked, perMsg, docs, n - 1);
      MessageAdds(run, texts[n - 1], s, docs[n - 1], masked[n - 1], perMsg[n - 1], docs[n], joined, all, joinedTexts);
    }
  }

  lemma MessageOf(run: Run, texts: seq<Text>, masked: seq<Text>, perMsg: seq<seq<Replacement>>, docs: seq<Doc>, i: nat)
    requires BatchMasks(run, texts, masked, perMsg, docs) && i < |texts|
    ensures run(texts[i], docs[i], masked[i], perMsg[i], docs[i + 1])
  {}

  lemma NothingMasked(s: Strategy)
    ensures BatchKept(s, [], [], [], EMPTY_DOC)
  {
    assert CallsOf([]) == [] && MasksOf([]) == [] && Placed([]) == [];
  }

  lemma BatchFacts(run: Run, texts: seq<Text>, s: Strategy, masked: seq<Text>, allReps: seq<Replacement>) returns (d: Doc)
    requires Faithful(run, s) && BatchResult(run, texts, masked, allReps)
    ensures |masked| == |texts|
    ensures BatchKept(s, Joined(masked, |masked|), allReps, Joined(texts, |texts|), d)
  {
    var perMsg, docs :| BatchMasks(run, texts, masked, perMsg, docs) && allReps == AllReps(masked, perMsg, |texts|);
    BatchStandsFor(run, texts, s, masked, perMsg, docs, |texts|);
    d := docs[|texts|];
  }

  /** Batch round trip: restoring the joined masked texts with all replacements gives the joined
      texts, with no miss. */
  lemma BatchRoundTrip(cfg: Config, texts: seq<Text>, opt: Options, s: Strategy,
                       masked: seq<Text>, allReps: seq<Replacement>, restored: Text, misses: int)
    requires BatchResult(RunOf(cfg, opt, s), texts, masked, allReps) && KeepsNonEmpty(s)
    requires Restored(Joined(masked, |masked|), allReps, restored, misses)
    ensures restored == Joined(texts, |texts|) && misses == 0
  {
    MaskingIsFaithful(cfg, opt, s);
    var d := BatchFacts(RunOf(cfg, opt, s), texts, s, masked, allReps);
    NonEmptyMasksRise(Joined(masked, |masked|), allReps, Joined(texts, |texts|));
    RoundTrip(Joined(masked, |masked|), allReps, Joined(texts, |texts|), restored, misses);
  }

  /** Across all messages of a batch equal values are masked alike, and among numbered values, as
      all are with the token strategy, only equal ones. */
  lemma BatchMasksAlike(cfg: Config, texts: seq<Text>, opt: Options, s: Strategy,
                        masked: seq<Text>, allReps: seq<Replacement>, j: nat, k: nat)
    requires BatchResult(RunOf(cfg, opt, s), texts, masked, allReps) && j < k < |allReps|
    ensures KeepsNonEmpty(s) && allReps[j].original == allReps[k].original != [] ==> allReps[j].masked == allReps[k].masked
    ensures var calls := CallsOf(allReps);
            && NamedCategories(calls) && (Numbers(s) || (Numbered(s, calls, j) && Numbered(s, calls, k)))
            && allReps[j].masked == allReps[k].masked ==>
              allReps[j].original == allReps[k].original
  {
    MaskingIsFaithful(cfg, opt, s);
    var d := BatchFacts(RunOf(cfg, opt, s), texts, s, masked, allReps);
    assert [] + allReps == allReps;
    var calls := CallsOf(allReps);
    assert MasksOf(allReps)[j] == allReps[j].masked && MasksOf(allReps)[k] == allReps[k].masked;
    if KeepsNonEmpty(s) && allReps[j].original == allReps[k].original != [] {
      EqualValuesEqualMasks(s, calls, j, k);
    }
    if Numbers(s) {
      AllNumbered(s, calls, j);
      AllNumbered(s, calls, k);
    }
    if NamedCategories(calls) && Numbered(s, calls, j) && Numbered(s, calls, k) {
      EqualTokensEqualValues(s, calls, j, k);
    }
  }

  /** A batch masked with tokens can be restored in any answer whatever: each token by its own
      original, as often as it was recorded and occurs; by plain substitution when none occurs
      more often than recorded. */
  lemma BatchTokensRestoreAnywhere(cfg: Config, texts: seq<Text>, opt: Options, s: Strategy,
                                   masked: seq<Text>, allReps: seq<Replacement>,
                                   answer: Text, restored: Text, misses: int)
    requires BatchResult(RunOf(cfg, opt, s), texts, masked, allReps) && Numbers(s)
    requires NamedCategories(CallsOf(allReps))
    requires Restored(answer, allReps, restored, misses)
    ensures Tokens(DictionaryOf(allReps))
    ensures forall k :: 0 <= k < |allReps| ==> DictionaryOf(allReps)[allReps[k].masked] == allReps[k].original
    ensures misses == |RecordedTokens(allReps) - Seen(answer, 0, DictionaryOf(allReps))|
    ensures Seen(answer, 0, DictionaryOf(allReps)) <= RecordedTokens(allReps) ==>
              restored == Substitute(answer, 0, DictionaryOf(allReps))
  {
    MaskingIsFaithful(cfg, opt, s);
    var d := BatchFacts(RunOf(cfg, opt, s), texts, s, masked, allReps);
    TokenStrategyRecords(s, allReps, d);
    DictionaryFits(allReps);
    var plan := TokensRestoreAnywhere(answer, allReps, restored, misses);
  }

  /** Every message of a batch has its spans to be masked hidden. */
  ghost predicate AllHidden(cfg: Config, texts: seq<Text>, opt: Options, masked: seq<Text>) {
    |masked| == |texts| && forall i :: 0 <= i < |texts| ==> MessageHidden(cfg, texts[i], opt, masked[i])
  }

  ghost predicate MessageHidden(cfg: Config, text: Text, opt: Options, m: Text) {
    exists reps :: Hidden(cfg, text, opt, m, reps)
  }

  lemma BatchHides(cfg: Config, texts: seq<Text>, opt: Options, s: Strategy, masked: seq<Text>, allReps: seq<Replacement>)
    requires BatchResult(RunOf(cfg, opt, s), texts, masked, allReps)
    ensures AllHidden(cfg, texts, opt, masked)
  {
    assert |masked| == |texts|;
    forall i | 0 <= i < |texts| ensures MessageHidden(cfg, texts[i], opt, masked[i]) {
      BatchHidesSpans(cfg, texts, opt, s, masked, allReps, i);
    }
  }

  lemma BatchHidesSpans(cfg: Config, texts: seq<Text>, opt: Options, s: Strategy,
                        masked: seq<Text>, allReps: seq<Replacement>, i: nat)
    requires BatchResult(RunOf(cfg, opt, s), texts, masked, allReps) && i < |texts|
    ensures |masked| == |texts| && MessageHidden(cfg, texts[i], opt, masked[i])
  {
    var run := RunOf(cfg, opt, s);
    var perMsg, docs :| BatchMasks(run, texts, masked, perMsg, docs) && allReps == AllReps(masked, perMsg, |texts|);
    MessageOf(run, texts, masked, perMsg, docs, i);
    RunHidesSpans(cfg, texts[i], opt, s, docs[i], masked[i], perMsg[i], docs[i + 1]);
  }

  /** Across a batch every mask is what the strategy makes of its original. */
  lemma BatchMasksMade(cfg: Config, texts: seq<Text>, opt: Options, s: Strategy,
                       masked: seq<Text>, allReps: seq<Replacement>)
    requires BatchResult(RunOf(cfg, opt, s), texts, masked, allReps)
    ensures AllMade(s, allReps)
  {
    MaskingIsFaithful(cfg, opt, s);
    var d := BatchFacts(RunOf(cfg, opt, s), texts, s, masked, allReps);
    LoggedMasksMade(s, allReps, d);
  }
}
