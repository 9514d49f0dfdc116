/** The overlap resolver. One left-to-right sweep over the sorted spans keeps a winner for
    every run of overlapping spans. */
module Resolver {
  import opened Sorting
  import opened Spans

  predicate Better(a: Span, b: Span) {
    if a.confidence != b.confidence then a.confidence > b.confidence
    else a.end - a.start > b.end - b.start
  }

  function Step(out: seq<Span>, s: Span): seq<Span> {
    if out == [] || s.start >= out[|out| - 1].end then out + [s]
    else if Better(s, out[|out| - 1]) then out[|out| - 1 := s]
    else out
  }

  function Sweep(out: seq<Span>, spans: seq<Span>): seq<Span>
    decreases |spans|
  {
    if spans == [] then out else Sweep(Step(out, spans[0]), spans[1..])
  }

  /** Sorts the caller's slice in place and sweeps it. */
  method Resolve(a: array<Span>) returns (out: seq<Span>)
    modifies a
    ensures SortedPermutation(a[..], old(a[..]), SpanKey)
    ensures out == Sweep([], a[..])
    ensures forall i, j :: 0 <= i < j < a.Length ==>
              a[i].start < a[j].start || (a[i].start == a[j].start && a[i].end >= a[j].end)
  {
    if a.Length == 0 {
      return [];
    }
    Sort(a, SpanKey);
    out := [];
    for i := 0 to a.Length
      invariant SortedPermutation(a[..], old(a[..]), SpanKey)
      invariant Sweep(out, a[i..]) == Sweep([], a[..])
    {
      var s := a[i];
      assert a[i..][0] == s && a[i..][1..] == a[i + 1..];
      if |out| == 0 {
        out := out + [s];
      } else {
        var last := |out| - 1;
        if s.start >= out[last].end {
          out := out + [s];
        } else if Better(s, out[last]) {
          out := out[last := s];
        }
      }
    }
  }

  // ---------------------------------------------------------------- shape of the output

  lemma SweepSnoc(out: seq<Span>, spans: seq<Span>, s: Span)
    ensures Sweep(out, spans + [s]) == Step(Sweep(out, spans), s)
    decreases |spans|
  {
    if spans == [] {
      assert (spans + [s])[1..] == [];
      assert Sweep(out, [s]) == Sweep(Step(out, s), []);
    } else {
      assert (spans + [s])[1..] == spans[1..] + [s];
      SweepSnoc(Step(out, spans[0]), spans[1..], s);
    }
  }

  /** What the sweep keeps at each step: disjoint spans of the input, all starting no later
      than what is still to come. */
  ghost predicate Swept(done: seq<Span>, out: seq<Span>) {
    && Disjoint(out)
    && (forall x :: x in out ==> x in done)
    && (done == [] <==> out == [])
  }

  lemma StepKeepsSwept(done: seq<Span>, out: seq<Span>, s: Span)
    requires Swept(done, out) && s.start < s.end
    requires forall x :: x in done ==> x.start <= s.start
    ensures Swept(done + [s], Step(out, s))
  {
    if out != [] {
      assert out[|out| - 1] in done;
    }
  }

  lemma {:induction false} SweepIsSwept(spans: seq<Span>)
    requires NonEmpty(spans) && Ordered(spans, SpanKey)
    ensures Swept(spans, Sweep([], spans))
    decreases |spans|
  {
    if spans != [] {
      var init, s := spans[..|spans| - 1], spans[|spans| - 1];
      assert spans == init + [s];
      NewestStartsLast(init, s);
      SweepIsSwept(init);
      StepKeepsSwept(init, Sweep([], init), s);
      SweepSnoc([], init, s);
    }
  }

  // ---------------------------------------------------------------- order independence

  /** The same positions and confidences, whatever the categories and detectors. */
  ghost predicate SameTriples(a: seq<Span>, b: seq<Span>) {
    && |a| == |b|
    && forall i :: 0 <= i < |a| ==>
         a[i].start == b[i].start && a[i].end == b[i].end && a[i].confidence == b[i].confidence
  }

  lemma StepRespectsTriples(a: seq<Span>, b: seq<Span>, s: Span)
    requires SameTriples(a, b)
    ensures SameTriples(Step(a, s), Step(b, s))
  {}

  lemma {:induction false} SweepRespectsTriples(a: seq<Span>, b: seq<Span>, spans: seq<Span>)
    requires SameTriples(a, b)
    ensures SameTriples(Sweep(a, spans), Sweep(b, spans))
    decreases |spans|
  {
    if spans != [] {
      StepRespectsTriples(a, b, spans[0]);
      SweepRespectsTriples(Step(a, spans[0]), Step(b, spans[0]), spans[1..]);
    }
  }

  /** Two spans of equal position may be swept in either order. */
  lemma TiesCommute(out: seq<Span>, x: Span, y: Span)
    requires x.start == y.start < x.end == y.end
    ensures SameTriples(Step(Step(out, x), y), Step(Step(out, y), x))
  {
    if out == [] || x.start >= out[|out| - 1].end {
      TiesAppend(out, x, y);
    } else {
      TiesReplace(out, x, y);
    }
  }

  lemma TiesAppend(out: seq<Span>, x: Span, y: Span)
    requires x.start == y.start < x.end == y.end
    requires out == [] || x.start >= out[|out| - 1].end
    ensures SameTriples(Step(Step(out, x), y), Step(Step(out, y), x))
  {
    assert Step(out, x) == out + [x] && Step(out, y) == out + [y];
    assert (out + [x])[|out| := y] == out + [y] && (out + [y])[|out| := x] == out + [x];
  }

  lemma TiesReplace(out: seq<Span>, x: Span, y: Span)
    requires x.start == y.start < x.end == y.end
    requires out != [] && x.start < out[|out| - 1].end
    ensures SameTriples(Step(Step(out, x), y), Step(Step(out, y), x))
  {
    var n := |out| - 1;
    assert out[n := x][n := y] == out[n := y] && out[n := y][n := x] == out[n := x];
  }

  lemma {:induction false} SweepConcat(out: seq<Span>, a: seq<Span>, b: seq<Span>)
    ensures Sweep(out, a + b) == Sweep(Sweep(out, a), b)
    decreases |a|
  {
    if a == [] {
      assert a + b == b;
    } else {
      assert (a + b)[1..] == a[1..] + b;
      SweepConcat(Step(out, a[0]), a[1..], b);
    }
  }

  /** An element tied with everything before it may be swept first. */
  lemma {:induction false} MoveToFront(out: seq<Span>, ties: seq<Span>, x: Span)
    requires x.start < x.end
    requires forall k :: 0 <= k < |ties| ==> SpanKey(ties[k]) == SpanKey(x)
    ensures SameTriples(Step(Sweep(out, ties), x), Sweep(Step(out, x), ties))
    decreases |ties|
  {
    if ties != [] {
      var t, tail := ties[0], ties[1..];
      MoveToFront(Step(out, t), tail, x);
      TiesCommute(out, t, x);
      SweepRespectsTriples(Step(Step(out, t), x), Step(Step(out, x), t), tail);
    }
  }

  /** Whichever sorted permutation the unstable sort picks, and in whichever order the spans
      came in, the same positions and confidences are kept. */
  lemma {:induction false} OrderIndependent(a: seq<Span>, b: seq<Span>, outA: seq<Span>, outB: seq<Span>)
    requires multiset(a) == multiset(b) && NonEmpty(a)
    requires Ordered(a, SpanKey) && Ordered(b, SpanKey)
    requires SameTriples(outA, outB)
    ensures SameTriples(Sweep(outA, a), Sweep(outB, b))
    decreases |a|
  {
    if a == [] {
      MembersAgree(a, b);
    } else {
      var x := a[0];
      var j := IndexIn(x, b);
      EqualKeysBefore(a, b, j, SpanKey);
      FrontFirst(outB, b, j);
      TailPermutationOf(a, b, j);
      StepRespectsTriples(outA, outB, x);
      OrderIndependent(a[1..], Without(b, j), Step(outA, x), Step(outB, x));
    }
  }

  lemma TailPermutationOf(a: seq<Span>, b: seq<Span>, j: int)
    requires multiset(a) == multiset(b) && a != [] && 0 <= j < |b| && b[j] == a[0]
    requires Ordered(a, SpanKey) && Ordered(b, SpanKey) && NonEmpty(a)
    ensures multiset(a[1..]) == multiset(Without(b, j)) && NonEmpty(a[1..])
    ensures Ordered(a[1..], SpanKey) && Ordered(Without(b, j), SpanKey)
  {
    RemoveBoth(a, 0, b, j);
    TailIsWithout(a);
    TailOrdered(a, SpanKey);
    RemoveKeepsOrder(b, j, SpanKey);
  }

  lemma FrontFirst(out: seq<Span>, b: seq<Span>, j: int)
    requires 0 <= j < |b| && b[j].start < b[j].end
    requires forall k :: 0 <= k <= j ==> SpanKey(b[k]) == SpanKey(b[j])
    ensures SameTriples(Sweep(out, b), Sweep(Step(out, b[j]), Without(b, j)))
  {
    var ties, x, rest := b[..j], b[j], b[j + 1..];
    assert b == ties + [x] + rest;
    MoveToFront(out, ties, x);
    SweepConcat(out, ties + [x], rest);
    SweepSnoc(out, ties, x);
    SweepConcat(Step(out, x), ties, rest);
    SweepRespectsTriples(Step(Sweep(out, ties), x), Sweep(Step(out, x), ties), rest);
  }

  /** Resolving twice changes nothing, not even categories and detectors: the output has one
      sorted permutation, itself, and the sweep keeps all of it. */
  lemma ResolveIdempotent(spans: seq<Span>, p: seq<Span>, q: seq<Span>)
    requires NonEmpty(spans)
    requires SortedPermutation(p, spans, SpanKey)
    requires SortedPermutation(q, Sweep([], p), SpanKey)
    ensures Sweep([], q) == Sweep([], p)
  {
    MembersAgree(p, spans);
    SweepIsSwept(p);
    DisjointHasOneOrder(Sweep([], p), q);
    SweepKeepsDisjoint([], q);
  }

  lemma OneFirst(a: seq<Span>, q: seq<Span>)
    requires Disjoint(a) && SortedPermutation(q, a, SpanKey) && a != []
    ensures q != [] && q[0] == a[0]
  {
    MembersAgree(q, a);
    assert q[0] in a && a[0] in q;
    var i :| 0 <= i < |a| && a[i] == q[0];
    var k :| 0 <= k < |q| && q[k] == a[0];
    assert Leq(SpanKey(q[0]), SpanKey(q[k]));
  }

  lemma DisjointTail(a: seq<Span>)
    requires Disjoint(a) && a != []
    ensures Disjoint(a[1..])
  {}

  lemma {:induction false} DisjointHasOneOrder(a: seq<Span>, q: seq<Span>)
    requires Disjoint(a) && SortedPermutation(q, a, SpanKey)
    ensures q == a
    decreases |a|
  {
    if a == [] {
      MembersAgree(q, a);
    } else {
      OneFirst(a, q);
      TailPermutation(q, a, SpanKey);
      DisjointTail(a);
      DisjointHasOneOrder(a[1..], q[1..]);
      assert q == [q[0]] + q[1..] && a == [a[0]] + a[1..];
    }
  }

  lemma {:induction false} SweepKeepsDisjoint(out: seq<Span>, spans: seq<Span>)
    requires Disjoint(out + spans)
    ensures Sweep(out, spans) == out + spans
    decreases |spans|
  {
    if spans == [] {
      assert out + spans == out;
    } else {
      var k := |out|;
      assert (out + spans)[k] == spans[0];
      if out != [] {
        assert (out + spans)[k - 1] == out[k - 1];
      }
      assert Step(out, spans[0]) == out + [spans[0]];
      assert out + spans == (out + [spans[0]]) + spans[1..];
      SweepKeepsDisjoint(out + [spans[0]], spans[1..]);
    }
  }

  // ---------------------------------------------------------------- dominance

  /** `y` ranks at least as high as `x`: confidence first, then length. */
  predicate RanksUpTo(x: Span, y: Span) {
    || y.confidence > x.confidence
    || (y.confidence == x.confidence && y.end - y.start >= x.end - x.start)
  }

  /** `y` overlaps `x` and ranks at least as high, strictly higher when it starts later: of two
      equal spans the left one stays. */
  predicate Answers(x: Span, y: Span) {
    Overlap(x, y) && RanksUpTo(x, y) && (y.start > x.start ==> !RanksUpTo(y, x))
  }

  /** A chain of input spans from `x` to `y`, each answering for the one before. */
  ghost predicate Chain(path: seq<Span>, x: Span, y: Span, input: seq<Span>) {
    && path != [] && path[0] == x && path[|path| - 1] == y
    && (forall k :: 0 <= k < |path| ==> path[k] in input)
    && (forall k :: 0 < k < |path| ==> Answers(path[k - 1], path[k]))
  }

  /** `x` is answered for by some kept span. */
  ghost predicate Dominated(x: Span, out: seq<Span>, input: seq<Span>) {
    exists path, y :: y in out && Chain(path, x, y, input)
  }

  lemma DominatedByItself(x: Span, out: seq<Span>, input: seq<Span>)
    requires x in out && x in input
    ensures Dominated(x, out, input)
  {
    assert Chain([x], x, x, input);
  }

  lemma StepKeepsDominated(x: Span, done: seq<Span>, out: seq<Span>, s: Span, input: seq<Span>)
    requires Swept(done, out) && s.start < s.end && s in input
    requires forall z :: z in done ==> z.start <= s.start
    requires Dominated(x, out, input)
    ensures Dominated(x, Step(out, s), input)
  {
    var path, y :| y in out && Chain(path, x, y, input);
    var next := Step(out, s);
    if y in next {
      assert Dominated(x, next, input);
    } else {
      var last := out[|out| - 1];
      assert forall k :: 0 <= k < |out| - 1 ==> next[k] == out[k];
      assert y == last;
      assert next == out[|out| - 1 := s];
      assert last in done;
      assert next[|out| - 1] == s;
      assert Chain(path + [s], x, s, input);
    }
  }

  lemma NewcomerDominated(done: seq<Span>, out: seq<Span>, s: Span, input: seq<Span>)
    requires Swept(done, out) && s.start < s.end && s in input
    requires forall z :: z in done ==> z.start <= s.start && z in input
    ensures Dominated(s, Step(out, s), input)
  {
    var next := Step(out, s);
    if next == out {
      var last := out[|out| - 1];
      assert last in done;
      assert Chain([s, last], s, last, input);
      assert last in next;
    } else {
      assert next[|next| - 1] == s;
      DominatedByItself(s, next, input);
    }
  }

  lemma NewestStartsLast(init: seq<Span>, s: Span)
    requires Ordered(init + [s], SpanKey)
    ensures Ordered(init, SpanKey)
    ensures forall z :: z in init ==> z.start <= s.start
  {
    var spans := init + [s];
    forall i, j | 0 <= i < j < |init| ensures Leq(SpanKey(init[i]), SpanKey(init[j])) {
      assert init[i] == spans[i] && init[j] == spans[j];
    }
    forall z | z in init ensures z.start <= s.start {
      var k :| 0 <= k < |init| && init[k] == z;
      assert Leq(SpanKey(spans[k]), SpanKey(spans[|spans| - 1]));
    }
  }

  /** Every input span reaches a kept span through overlapping spans, never going down in rank. */
  lemma {:induction false} SweepDominates(spans: seq<Span>, input: seq<Span>, x: Span)
    requires NonEmpty(spans) && Ordered(spans, SpanKey)
    requires forall z :: z in spans ==> z in input
    requires x in spans
    ensures Dominated(x, Sweep([], spans), input)
    decreases |spans|
  {
    var init, s := spans[..|spans| - 1], spans[|spans| - 1];
    assert spans == init + [s];
    NewestStartsLast(init, s);
    SweepIsSwept(init);
    SweepSnoc([], init, s);
    if x in init {
      SweepDominates(init, input, x);
      StepKeepsDominated(x, init, Sweep([], init), s, input);
    } else {
      NewcomerDominated(init, Sweep([], init), s, input);
    }
  }

  /** Rank never goes down along a chain, however long. */
  lemma {:induction false} ChainRises(path: seq<Span>, x: Span, y: Span, input: seq<Span>)
    requires Chain(path, x, y, input)
    ensures RanksUpTo(x, y)
    decreases |path|
  {
    if |path| > 1 {
      ChainRises(path[..|path| - 1], x, path[|path| - 2], input);
      assert Answers(path[|path| - 2], path[|path| - 1]);
    }
  }

  /** A cluster is closed under overlap: no input span outside it overlaps a member. */
  ghost predicate Cluster(c: set<Span>, input: seq<Span>) {
    && c != {} && (forall x :: x in c ==> x in input)
    && (forall x, y :: x in c && y in input && Overlap(x, y) ==> y in c)
  }

  lemma {:induction false} ChainStaysInCluster(path: seq<Span>, x: Span, y: Span, c: set<Span>, input: seq<Span>)
    requires Chain(path, x, y, input) && Cluster(c, input) && x in c
    ensures y in c
    decreases |path|
  {
    if |path| > 1 {
      ChainStaysInCluster(path[..|path| - 1], x, path[|path| - 2], c, input);
      assert Answers(path[|path| - 2], path[|path| - 1]);
    }
  }

  lemma RankSurvives(x: Span, input: seq<Span>, out: seq<Span>)
    requires Dominated(x, out, input)
    ensures exists y :: y in out && RanksUpTo(x, y)
  {
    var path, y :| y in out && Chain(path, x, y, input);
    ChainRises(path, x, y, input);
  }

  /** For every order the sort may choose: the output is disjoint and taken from the input,
      and every input span is dominated, so some kept span has its rank or a higher one. A
      globally best rank therefore survives. */
  lemma ResolveDominance(spans: seq<Span>, p: seq<Span>, x: Span)
    requires NonEmpty(spans) && SortedPermutation(p, spans, SpanKey) && x in spans
    ensures Disjoint(Sweep([], p)) && (forall y :: y in Sweep([], p) ==> y in spans)
    ensures Dominated(x, Sweep([], p), spans)
    ensures exists y :: y in Sweep([], p)
              && (y.confidence > x.confidence
                  || (y.confidence == x.confidence && y.end - y.start >= x.end - x.start))
  {
    MembersAgree(p, spans);
    SweepIsSwept(p);
    SweepDominates(p, spans, x);
    RankSurvives(x, spans, Sweep([], p));
  }

  /** Every cluster of overlapping spans keeps at least one of them. */
  lemma ResolveKeepsClusters(spans: seq<Span>, p: seq<Span>, c: set<Span>)
    requires NonEmpty(spans) && SortedPermutation(p, spans, SpanKey) && Cluster(c, spans)
    ensures exists y :: y in c && y in Sweep([], p)
  {
    var x :| x in c;
    ResolveDominance(spans, p, x);
    var path, y :| y in Sweep([], p) && Chain(path, x, y, spans);
    ChainStaysInCluster(path, x, y, c, spans);
  }

  // ---------------------------------------------------------------- what a dropped span meets

  ghost predicate Meets(x: Span, out: seq<Span>) {
    exists y :: y in out && Overlap(x, y)
  }

  /** Every span overlaps a kept one. */
  ghost predicate AllMeet(spans: seq<Span>, out: seq<Span>) {
    forall x :: x in spans ==> Meets(x, out)
  }

  /** Goes along the spans behind the one that is kept last, as the sweep does. `reach` is the
      earliest end among all the spans that one stands for. It may be replaced only by a span
      that starts before `reach`. */
  predicate NoneLeftBehind(last: Span, reach: int, spans: seq<Span>)
    decreases |spans|
  {
    if spans == [] then true
    else
      var s, rest := spans[0], spans[1..];
      var nearer := if s.end < reach then s.end else reach;
      if s.start >= last.end then NoneLeftBehind(s, s.end, rest)
      else if !RanksUpTo(s, last) then s.start < reach && NoneLeftBehind(s, nearer, rest)
      else NoneLeftBehind(last, nearer, rest)
  }

  /** The whole list, from its first span on. */
  predicate NoneLost(spans: seq<Span>) {
    spans == [] || NoneLeftBehind(spans[0], spans[0].end, spans[1..])
  }

  /** `group` is what the span kept last stands for: all overlap it, and `reach` is the
      earliest of their ends. */
  ghost predicate Group(group: seq<Span>, last: Span, reach: int) {
    && last in group && (forall x :: x in group ==> Overlap(x, last) && reach <= x.end)
    && exists x :: x in group && x.end == reach
  }

  /** What is still to come starts behind everything in the group. */
  ghost predicate Ahead(group: seq<Span>, rest: seq<Span>) {
    && NonEmpty(rest) && Ordered(rest, SpanKey)
    && forall x, s :: x in group && s in rest ==> x.start <= s.start
  }

  lemma FirstAhead(rest: seq<Span>)
    requires NonEmpty(rest) && Ordered(rest, SpanKey) && rest != []
    ensures Ahead([rest[0]], rest[1..]) && rest[0].start < rest[0].end
    ensures forall s :: s in rest <==> s == rest[0] || s in rest[1..]
  {
    assert rest == [rest[0]] + rest[1..];
    TailOrdered(rest, SpanKey);
    forall s | s in rest[1..] ensures rest[0].start <= s.start {
      var k :| 0 < k < |rest| && rest[k] == s;
      assert Leq(SpanKey(rest[0]), SpanKey(rest[k]));
    }
  }

  /** Spans already closed stay in front. */
  lemma {:induction false} SweepBehind(closed: seq<Span>, last: Span, rest: seq<Span>)
    ensures Sweep(closed + [last], rest) == closed + Sweep([last], rest)
    decreases |rest|
  {
    if rest != [] {
      var s, out := rest[0], closed + [last];
      if s.start >= last.end {
        assert Step(out, s) == out + [s] && Step([last], s) == [last] + [s];
        SweepBehind(out, s, rest[1..]);
        SweepBehind([last], s, rest[1..]);
        assert out + Sweep([s], rest[1..]) == closed + ([last] + Sweep([s], rest[1..]));
      } else if Better(s, last) {
        assert Step(out, s) == closed + [s] && Step([last], s) == [s];
        SweepBehind(closed, s, rest[1..]);
      } else {
        SweepBehind(closed, last, rest[1..]);
      }
    }
  }

  /** The sweep over the rest, by the span that comes next. */
  lemma SweepNext(last: Span, rest: seq<Span>)
    requires rest != []
    ensures var s := rest[0];
            Sweep([last], rest) ==
              if s.start >= last.end then [last] + Sweep([s], rest[1..])
              else if Better(s, last) then Sweep([s], rest[1..])
              else Sweep([last], rest[1..])
  {
    var s := rest[0];
    if s.start >= last.end {
      SweepBehind([last], s, rest[1..]);
    } else if Better(s, last) {
      assert Step([last], s) == [s];
    }
  }

  lemma {:induction false} SweepStarts(last: Span, rest: seq<Span>)
    requires Ahead([last], rest)
    ensures forall y :: y in Sweep([last], rest) ==> last.start <= y.start
    decreases |rest|
  {
    if rest != [] {
      assert last in [last] && rest[0] in rest;
      FirstAhead(rest);
      SweepNext(last, rest);
      SweepStarts(rest[0], rest[1..]);
      SweepStarts(last, rest[1..]);
    }
  }

  /** A span that joins the group of the one kept last. */
  lemma Joins(group: seq<Span>, last: Span, reach: int, s: Span, last': Span)
    requires Group(group, last, reach) && (last' == last || last' == s)
    requires Overlap(s, last') && forall x :: x in group ==> Overlap(x, last')
    ensures Group(group + [s], last', if s.end < reach then s.end else reach)
  {
    var x :| x in group && x.end == reach;
    assert s in group + [s] && x in group + [s];
  }

  lemma AheadJoins(group: seq<Span>, rest: seq<Span>)
    requires Ahead(group, rest) && rest != []
    ensures Ahead(group + [rest[0]], rest[1..])
    ensures group + rest == group + [rest[0]] + rest[1..]
  {
    FirstAhead(rest);
  }

  /** A replacement that starts behind `reach` leaves a span behind. */
  lemma ReplaceLoses(group: seq<Span>, last: Span, reach: int, rest: seq<Span>)
    requires Group(group, last, reach) && Ahead(group, rest) && rest != []
    requires rest[0].start < last.end && Better(rest[0], last) && reach <= rest[0].start
    ensures !AllMeet(group + rest, Sweep([last], rest))
  {
    var x :| x in group && x.end == reach;
    FirstAhead(rest);
    SweepNext(last, rest);
    SweepStarts(rest[0], rest[1..]);
    assert x in group + rest;
  }

  lemma AppendMeets(group: seq<Span>, last: Span, reach: int, rest: seq<Span>)
    requires Group(group, last, reach) && Ahead(group, rest) && rest != []
    requires rest[0].start >= last.end
    ensures AllMeet(group + rest, Sweep([last], rest)) <==> AllMeet(rest, Sweep([rest[0]], rest[1..]))
  {
    var out := Sweep([rest[0]], rest[1..]);
    FirstAhead(rest);
    SweepNext(last, rest);
    assert last in [last] + out;
    forall x | x in rest ensures Meets(x, [last] + out) <==> Meets(x, out) {
      assert rest[0].start <= x.start;
    }
    forall x | x in group ensures Meets(x, [last] + out) {
      assert Overlap(x, last);
    }
    assert forall x :: x in rest ==> x in group + rest;
  }

  /** From any point of the sweep: all spans meet a kept one in the end exactly when no
      replacement leaves one behind. */
  lemma {:induction false} SweepMeets(group: seq<Span>, last: Span, reach: int, rest: seq<Span>)
    requires Group(group, last, reach) && Ahead(group, rest)
    ensures AllMeet(group + rest, Sweep([last], rest)) <==> NoneLeftBehind(last, reach, rest)
    decreases |rest|
  {
    if rest == [] {
      assert group + rest == group;
      assert last in [last];
    } else {
      var s := rest[0];
      FirstAhead(rest);
      SweepNext(last, rest);
      AheadJoins(group, rest);
      if s.start >= last.end {
        AppendMeets(group, last, reach, rest);
        assert s in [s];
        SweepMeets([s], s, s.end, rest[1..]);
        assert [s] + rest[1..] == rest;
      } else if !Better(s, last) {
        Joins(group, last, reach, s, last);
        SweepMeets(group + [s], last, if s.end < reach then s.end else reach, rest[1..]);
      } else if s.start < reach {
        Joins(group, last, reach, s, s);
        SweepMeets(group + [s], s, if s.end < reach then s.end else reach, rest[1..]);
      } else {
        ReplaceLoses(group, last, reach, rest);
      }
    }
  }

  /** Every span overlaps a kept one exactly when no span replaces a winner from behind the
      end of a span that winner stands for. */
  lemma EverySpanMeetsKept(spans: seq<Span>, p: seq<Span>)
    requires NonEmpty(spans) && SortedPermutation(p, spans, SpanKey)
    ensures AllMeet(spans, Sweep([], p)) <==> NoneLost(p)
  {
    MembersAgree(p, spans);
    assert AllMeet(spans, Sweep([], p)) <==> AllMeet(p, Sweep([], p));
    if p != [] {
      FirstAhead(p);
      assert p[0] in [p[0]] && Overlap(p[0], p[0]);
      SweepMeets([p[0]], p[0], p[0].end, p[1..]);
      assert [p[0]] + p[1..] == p && Step([], p[0]) == [p[0]];
    }
  }

  /** `b` overlaps both `x` and `c`, which ranks above it and starts behind the end of `x`. */
  predicate Straddles(b: Span, x: Span, c: Span) {
    Overlap(x, b) && Overlap(b, c) && !RanksUpTo(c, b) && x.end <= c.start
  }

  ghost predicate NoStraddle(spans: seq<Span>) {
    forall x, b, c :: x in spans && b in spans && c in spans ==> !Straddles(b, x, c)
  }

  lemma {:induction false} NoStraddleLosesNone(group: seq<Span>, last: Span, reach: int, rest: seq<Span>, all: seq<Span>)
    requires Group(group, last, reach) && Ahead(group, rest)
    requires NoStraddle(all) && (forall x :: x in group || x in rest ==> x in all)
    ensures NoneLeftBehind(last, reach, rest)
    decreases |rest|
  {
    if rest != [] {
      var s := rest[0];
      FirstAhead(rest);
      AheadJoins(group, rest);
      if s.start >= last.end {
        assert s in [s];
        NoStraddleLosesNone([s], s, s.end, rest[1..], all);
      } else if !Better(s, last) {
        Joins(group, last, reach, s, last);
        NoStraddleLosesNone(group + [s], last, if s.end < reach then s.end else reach, rest[1..], all);
      } else {
        var x :| x in group && x.end == reach;
        assert s in all && last in all && x in all && !Straddles(last, x, s);
        Joins(group, last, reach, s, s);
        NoStraddleLosesNone(group + [s], s, if s.end < reach then s.end else reach, rest[1..], all);
      }
    }
  }

  /** A condition on the bare input, whatever order the sort chooses: when no span straddles a
      higher one and one that ends before it, every span overlaps a kept one. */
  lemma UnstraddledSpansMeetKept(spans: seq<Span>, p: seq<Span>)
    requires NonEmpty(spans) && SortedPermutation(p, spans, SpanKey) && NoStraddle(spans)
    ensures AllMeet(spans, Sweep([], p))
  {
    MembersAgree(p, spans);
    if p != [] {
      FirstAhead(p);
      assert p[0] in [p[0]] && Overlap(p[0], p[0]);
      NoStraddleLosesNone([p[0]], p[0], p[0].end, p[1..], spans);
    }
    EverySpanMeetsKept(spans, p);
  }

  // ---------------------------------------------------------------- whatever the confidences

  /** The same ranges; categories, detectors and confidences may differ. */
  ghost predicate SameRanges(a: seq<Span>, b: seq<Span>) {
    |a| == |b| && forall i :: 0 <= i < |a| ==> a[i].start == b[i].start && a[i].end == b[i].end
  }

  /** However the detectors rank the ranges, every span overlaps a kept one. */
  ghost predicate AlwaysMeets(spans: seq<Span>) {
    forall q, p :: SameRanges(q, spans) && SortedPermutation(p, q, SpanKey) ==> AllMeet(q, Sweep([], p))
  }

  ghost predicate OverlapsTransitively(spans: seq<Span>) {
    forall x, b, c :: x in spans && b in spans && c in spans && Overlap(x, b) && Overlap(b, c) ==> Overlap(x, c)
  }

  /** `b` overlaps `x` and, further right, `c`; the ranks rise and all others are below. */
  ghost predicate Rising(spans: seq<Span>, x: Span, b: Span, c: Span) {
    && Overlap(x, b) && Overlap(b, c) && x.end <= c.start
    && 0.0 < x.confidence < b.confidence < c.confidence
    && forall s :: s in spans ==> s == x || s == b || s == c || s.confidence == 0.0
  }

  /** On the way `x` is kept, then `b` or only `b`, and in the end `c` replaces `b`. */
  lemma {:induction false} RisingLoses(last: Span, reach: int, rest: seq<Span>, x: Span, b: Span, c: Span)
    requires Rising(rest, x, b, c) && Ahead([last], rest) && c in rest
    requires last == b || (b in rest && (last == x || (x in rest && last.confidence == 0.0)))
    requires last == b && x !in rest ==> reach <= x.end
    requires last == x ==> reach <= x.end
    requires last.start <= c.start
    ensures !NoneLeftBehind(last, reach, rest)
    decreases |rest|
  {
    var s, tail := rest[0], rest[1..];
    FirstAhead(rest);
    AheadJoins([last], rest);
    assert last in [last] && s in [s];
    assert s != c || (x !in rest && last == b);
    if s.start >= last.end {
      RisingLoses(s, s.end, tail, x, b, c);
    } else if Better(s, last) {
      if s.start < reach {
        RisingLoses(s, if s.end < reach then s.end else reach, tail, x, b, c);
      }
    } else {
      RisingLoses(last, if s.end < reach then s.end else reach, tail, x, b, c);
    }
  }

  /** The same ranges, ranked so that three chosen ones rise above the others. */
  function Ranked(spans: seq<Span>, i: int, j: int, k: int): (q: seq<Span>)
    ensures |q| == |spans|
    ensures forall n {:trigger q[n]} :: 0 <= n < |q| ==>
              q[n] == spans[n].(confidence := if n == i then 1.0 else if n == j then 2.0 else if n == k then 3.0 else 0.0)
  {
    seq(|spans|, n requires 0 <= n < |spans| =>
      spans[n].(confidence := if n == i then 1.0 else if n == j then 2.0 else if n == k then 3.0 else 0.0))
  }

  lemma RankedRises(spans: seq<Span>, i: int, j: int, k: int)
    requires NonEmpty(spans) && 0 <= i < |spans| && 0 <= j < |spans| && 0 <= k < |spans|
    requires Overlap(spans[i], spans[j]) && Overlap(spans[j], spans[k]) && spans[i].end <= spans[k].start
    ensures var q := Ranked(spans, i, j, k);
            NonEmpty(q) && Rising(q, q[i], q[j], q[k])
  {
    var q := Ranked(spans, i, j, k);
    forall s | s in q ensures s.start < s.end && (s == q[i] || s == q[j] || s == q[k] || s.confidence == 0.0) {
      var n :| 0 <= n < |q| && q[n] == s;
      assert spans[n] in spans;
    }
    assert spans[i] in spans && spans[k] in spans;
  }

  /** Ranks that rise along three spans lose the first. */
  lemma RisingSpansLose(q: seq<Span>, p: seq<Span>, x: Span, b: Span, c: Span)
    requires NonEmpty(q) && Rising(q, x, b, c) && x in q && b in q && c in q
    requires SortedPermutation(p, q, SpanKey)
    ensures !AllMeet(q, Sweep([], p))
  {
    MembersAgree(p, q);
    FirstAhead(p);
    assert p[0] in [p[0]];
    RisingLoses(p[0], p[0].end, p[1..], x, b, c);
    EverySpanMeetsKept(q, p);
  }

  lemma PathLoses(spans: seq<Span>, i: int, j: int, k: int)
    requires NonEmpty(spans) && 0 <= i < |spans| && 0 <= j < |spans| && 0 <= k < |spans|
    requires Overlap(spans[i], spans[j]) && Overlap(spans[j], spans[k]) && spans[i].end <= spans[k].start
    ensures !AlwaysMeets(spans)
  {
    var q := Ranked(spans, i, j, k);
    var p := Arrange(q, SpanKey);
    RankedRises(spans, i, j, k);
    RisingSpansLose(q, p, q[i], q[j], q[k]);
    assert SameRanges(q, spans) && SortedPermutation(p, q, SpanKey);
  }

  /** Every span is sure to overlap a kept one, however the detectors rank the spans, exactly
      when overlapping is transitive among their ranges. */
  lemma SureToMeetExactlyWhenTransitive(spans: seq<Span>)
    requires NonEmpty(spans)
    ensures AlwaysMeets(spans) <==> OverlapsTransitively(spans)
  {
    if !OverlapsTransitively(spans) {
      var x, b, c :| x in spans && b in spans && c in spans && Overlap(x, b) && Overlap(b, c) && !Overlap(x, c);
      var i :| 0 <= i < |spans| && spans[i] == x;
      var j :| 0 <= j < |spans| && spans[j] == b;
      var k :| 0 <= k < |spans| && spans[k] == c;
      if x.end <= c.start {
        PathLoses(spans, i, j, k);
      } else {
        PathLoses(spans, k, j, i);
      }
    } else {
      forall q, p | SameRanges(q, spans) && SortedPermutation(p, q, SpanKey) ensures AllMeet(q, Sweep([], p)) {
        TransitiveMeets(spans, q, p);
      }
    }
  }

  lemma TransitiveMeets(spans: seq<Span>, q: seq<Span>, p: seq<Span>)
    requires NonEmpty(spans) && OverlapsTransitively(spans)
    requires SameRanges(q, spans) && SortedPermutation(p, q, SpanKey)
    ensures AllMeet(q, Sweep([], p))
  {
    forall x | x in q ensures x.start < x.end {
      var i :| 0 <= i < |q| && q[i] == x;
      assert spans[i] in spans;
    }
    forall x, b, c | x in q && b in q && c in q ensures !Straddles(b, x, c) {
      var i :| 0 <= i < |q| && q[i] == x;
      var j :| 0 <= j < |q| && q[j] == b;
      var k :| 0 <= k < |q| && q[k] == c;
      assert spans[i] in spans && spans[j] in spans && spans[k] in spans;
      assert Overlap(spans[i], spans[j]) && Overlap(spans[j], spans[k]) ==> Overlap(spans[i], spans[k]);
    }
    UnstraddledSpansMeetKept(q, p);
  }

  /** A span overlapping no kept span can be dropped: its winner is itself replaced from behind
      its end. */
  lemma DroppedWithoutOverlap()
    ensures var a := Span(0, 10, [], [], 0.5);
            var b := Span(5, 15, [], [], 0.6);
            var c := Span(12, 20, [], [], 0.7);
            && Ordered([a, b, c], SpanKey)
            && Sweep([], [a, b, c]) == [c] && !Overlap(a, c)
  {
    var a := Span(0, 10, [], [], 0.5);
    var b := Span(5, 15, [], [], 0.6);
    var c := Span(12, 20, [], [], 0.7);
    assert [a, b, c][1..] == [b, c] && [b, c][1..] == [c] && [c][1..] == [];
    assert Step([], a) == [a];
    assert Step([a], b) == [b] && Step([b], c) == [c];
    assert Sweep([], [a, b, c]) == Sweep([a], [b, c]);
    assert Sweep([a], [b, c]) == Sweep([b], [c]);
    assert Sweep([b], [c]) == Sweep([c], []);
  }
}
