/** What every run of Restore guarantees, whatever the text and the replacements. */
module RestoreLaws {
  import opened Bytes
  import opened Sorting
  import opened Splicing
  import opened Restoring

  function SourceOf(c: Claim): Replacement {
    c.source
  }

  /** The replacements that got a claim. */
  ghost function Sources(claims: seq<Claim>): multiset<Replacement> {
    Bag(claims, SourceOf)
  }

  // ---------------------------------------------------------------- allocation

  ghost predicate Apart(claims: seq<Claim>) {
    forall i, j :: 0 <= i < j < |claims| ==> !Overlaps(claims[i], claims[j].start, claims[j].end)
  }

  /** Claims carry their masks, do not overlap, and no replacement is lost or used twice. */
  ghost predicate Allocated(masked: Text, p: Phase, given: multiset<Replacement>) {
    && Anchored(masked, p.claims) && Apart(p.claims)
    && Sources(p.claims) + multiset(p.left) == given
  }

  lemma ClaimOne(masked: Text, p: Phase, given: multiset<Replacement>, c: Claim)
    requires Allocated(masked, p, given)
    requires InBounds(masked, c.start, c.end) && masked[c.start..c.end] == c.source.masked
    requires !Taken(p.claims, c.start, c.end)
    ensures Allocated(masked, Phase(p.claims + [c], p.left), given + multiset{c.source})
  {
    BagSnoc(p.claims, c, SourceOf);
  }

  lemma TrustOne(masked: Text, p: Phase, given: multiset<Replacement>, r: Replacement)
    requires Allocated(masked, p, given)
    ensures Allocated(masked, Trust(masked, p, r), given + multiset{r})
  {
    if Trust(masked, p, r).claims != p.claims {
      ClaimOne(masked, p, given, Claim(r.start, r.end, r));
    }
  }

  lemma SeekOne(masked: Text, p: Phase, given: multiset<Replacement>, r: Replacement)
    requires Allocated(masked, p, given)
    ensures Allocated(masked, Seek(masked, p, r), given + multiset{r})
  {
    var at := FirstFree(masked, r.masked, p.claims, 0);
    if r.masked != [] && at.Some? {
      ClaimOne(masked, p, given, Claim(at.value, at.value + |r.masked|, r));
    }
  }

  lemma {:induction false} TrustAllocates(masked: Text, p: Phase, given: multiset<Replacement>, order: seq<Replacement>)
    requires Allocated(masked, p, given)
    ensures Allocated(masked, TrustAll(masked, p, order), given + multiset(order))
    decreases |order|
  {
    if order != [] {
      TrustOne(masked, p, given, order[0]);
      TrustAllocates(masked, Trust(masked, p, order[0]), given + multiset{order[0]}, order[1..]);
      assert order == [order[0]] + order[1..];
    }
  }

  lemma {:induction false} SeekAllocates(masked: Text, p: Phase, given: multiset<Replacement>, order: seq<Replacement>)
    requires Allocated(masked, p, given)
    ensures Allocated(masked, SeekAll(masked, p, order), given + multiset(order))
    decreases |order|
  {
    if order != [] {
      SeekOne(masked, p, given, order[0]);
      SeekAllocates(masked, Seek(masked, p, order[0]), given + multiset{order[0]}, order[1..]);
      assert order == [order[0]] + order[1..];
    }
  }

  lemma AllocateSound(masked: Text, order: seq<Replacement>)
    ensures Allocated(masked, Allocate(masked, order), multiset(order))
  {
    var trusted := TrustAll(masked, Phase([], []), order);
    TrustAllocates(masked, Phase([], []), multiset{}, order);
    SeekAllocates(masked, Phase(trusted.claims, []), Sources(trusted.claims), trusted.left);
  }

  // ---------------------------------------------------------------- misses

  /** Every occurrence of the token overlaps a claim. */
  ghost predicate Exhausted(masked: Text, token: Text, claims: seq<Claim>) {
    forall q {:trigger OccursAt(masked, token, q)} :: OccursAt(masked, token, q) ==> Taken(claims, q, q + |token|)
  }

  ghost predicate MissesExhausted(masked: Text, p: Phase) {
    forall r :: r in p.left && r.masked != [] ==> Exhausted(masked, r.masked, p.claims)
  }

  lemma TakenGrows(claims: seq<Claim>, more: seq<Claim>, start: int, end: int)
    requires Taken(claims, start, end) && forall c :: c in claims ==> c in more
    ensures Taken(more, start, end)
  {
    var k :| 0 <= k < |claims| && Overlaps(claims[k], start, end);
    assert claims[k] in more;
    var j :| 0 <= j < |more| && more[j] == claims[k];
  }

  lemma ExhaustedGrows(masked: Text, token: Text, claims: seq<Claim>, more: seq<Claim>)
    requires Exhausted(masked, token, claims) && forall c :: c in claims ==> c in more
    ensures Exhausted(masked, token, more)
  {
    forall q | OccursAt(masked, token, q) ensures Taken(more, q, q + |token|) {
      TakenGrows(claims, more, q, q + |token|);
    }
  }

  lemma SeekExhausts(masked: Text, p: Phase, r: Replacement)
    requires MissesExhausted(masked, p)
    ensures MissesExhausted(masked, Seek(masked, p, r))
  {
    var p' := Seek(masked, p, r);
    forall x | x in p'.left && x.masked != [] ensures Exhausted(masked, x.masked, p'.claims) {
      if x in p.left {
        ExhaustedGrows(masked, x.masked, p.claims, p'.claims);
      }
    }
  }

  lemma {:induction false} SeekAllExhausts(masked: Text, p: Phase, order: seq<Replacement>)
    requires MissesExhausted(masked, p)
    ensures MissesExhausted(masked, SeekAll(masked, p, order))
    decreases |order|
  {
    if order != [] {
      SeekExhausts(masked, p, order[0]);
      SeekAllExhausts(masked, Seek(masked, p, order[0]), order[1..]);
    }
  }

  // ---------------------------------------------------------------- the splice

  lemma {:induction false} KeepSome(masked: Text, claims: seq<Claim>, pos: int)
    requires 0 <= pos <= |masked| && Anchored(masked, claims)
    ensures Anchored(masked, Keep(masked, claims, pos))
    ensures multiset(Keep(masked, claims, pos)) <= multiset(claims)
    decreases |claims|
  {
    if claims != [] {
      var c := claims[0];
      assert claims == [c] + claims[1..];
      KeepSome(masked, claims[1..], if c.start < pos then pos else c.end);
    }
  }

  /** Whatever the replacements, even nonsensical ones: the result is the text with disjoint
      in-bounds ranges, at most one per replacement and each carrying its mask, swapped for the
      originals, every other byte copied. What is not applied is reported as missed. */
  lemma RestoreSplices(masked: Text, reps: seq<Replacement>, text: Text, misses: int) returns (plan: seq<Claim>)
    requires Restored(masked, reps, text, misses)
    ensures Swaps(masked, plan, text)
    ensures Sources(plan) <= multiset(reps)
    ensures |plan| + misses == |reps|
  {
    var order, sorted :| SortedPermutation(order, reps, RepKey)
      && SortedPermutation(sorted, Allocate(masked, order).claims, ClaimKey)
      && RestoredOver(masked, order, sorted, text, misses);
    plan := Keep(masked, sorted, 0);
    AllocateSound(masked, order);
    AnchoredPermute(masked, Allocate(masked, order).claims, sorted);
    KeepSome(masked, sorted, 0);
    BagSubset(plan, sorted, SourceOf);
    BagPermute(sorted, Allocate(masked, order).claims, SourceOf);
    AllocationCount(masked, order, reps, sorted);
  }

  lemma AnchoredPermute(masked: Text, a: seq<Claim>, b: seq<Claim>)
    requires Anchored(masked, a) && multiset(a) == multiset(b)
    ensures Anchored(masked, b)
  {
    MembersAgree(a, b);
    forall k | 0 <= k < |b|
      ensures 0 <= b[k].start <= b[k].end <= |masked| && masked[b[k].start..b[k].end] == b[k].source.masked
    {
      assert b[k] in a;
      var j :| 0 <= j < |a| && a[j] == b[k];
    }
  }

  lemma AllocationCount(masked: Text, order: seq<Replacement>, reps: seq<Replacement>, sorted: seq<Claim>)
    requires multiset(order) == multiset(reps)
    requires multiset(sorted) == multiset(Allocate(masked, order).claims)
    ensures |sorted| + |Allocate(masked, order).left| == |reps|
    ensures Sources(Allocate(masked, order).claims) <= multiset(reps)
  {
    var p := Allocate(masked, order);
    AllocateSound(masked, order);
    MembersAgree(order, reps);
    MembersAgree(sorted, p.claims);
    BagCount(p.claims, SourceOf);
    assert |Sources(p.claims) + multiset(p.left)| == |multiset(reps)|;
  }

  // ---------------------------------------------------------------- non-empty masks

  ghost predicate NonEmptyRanges(claims: seq<Claim>) {
    forall k :: 0 <= k < |claims| ==> claims[k].start < claims[k].end
  }

  /** Non-empty claims that do not overlap are all kept: the defensive check never fires. */
  lemma {:induction false} KeepAll(masked: Text, claims: seq<Claim>, pos: int)
    requires 0 <= pos <= |masked| && Anchored(masked, claims)
    requires Apart(claims) && NonEmptyRanges(claims) && Ordered(claims, ClaimKey)
    requires claims != [] ==> pos <= claims[0].start
    ensures Keep(masked, claims, pos) == claims
    decreases |claims|
  {
    if claims != [] {
      ApartTail(claims);
      KeepAll(masked, claims[1..], claims[0].end);
      assert claims == [claims[0]] + claims[1..];
    }
  }

  lemma ApartTail(claims: seq<Claim>)
    requires Apart(claims) && NonEmptyRanges(claims) && Ordered(claims, ClaimKey) && claims != []
    ensures Apart(claims[1..]) && NonEmptyRanges(claims[1..]) && Ordered(claims[1..], ClaimKey)
    ensures |claims| > 1 ==> claims[0].end <= claims[1].start
  {
    if |claims| > 1 {
      assert !Overlaps(claims[0], claims[1].start, claims[1].end);
    }
    TailOrdered(claims, ClaimKey);
  }

  lemma ApartPermute(a: seq<Claim>, b: seq<Claim>)
    requires Apart(a) && NonEmptyRanges(a) && multiset(a) == multiset(b)
    ensures Apart(b) && NonEmptyRanges(b)
  {
    MembersAgree(a, b);
    forall k | 0 <= k < |b| ensures b[k].start < b[k].end {
      assert b[k] in a;
    }
    forall i, j | 0 <= i < j < |b| ensures !Overlaps(b[i], b[j].start, b[j].end) {
      assert b[i] in a && b[j] in a;
      OnceApart(a, b[i]);
      if b[i] == b[j] {
        TwiceInPermutation(b, i, j);
      }
    }
  }

  lemma {:induction false} OnceApart(a: seq<Claim>, c: Claim)
    requires Apart(a) && NonEmptyRanges(a)
    ensures multiset(a)[c] <= 1
    decreases |a|
  {
    if a != [] {
      var n := |a| - 1;
      assert a == a[..n] + [a[n]];
      OnceApart(a[..n], c);
      forall k | 0 <= k < n ensures a[k] != a[n] {
        assert !Overlaps(a[k], a[n].start, a[n].end);
      }
    }
  }

  lemma TwiceInPermutation<T>(b: seq<T>, i: int, j: int)
    requires 0 <= i < j < |b| && b[i] == b[j]
    ensures multiset(b)[b[i]] >= 2
  {
    assert b == b[..i] + [b[i]] + b[i + 1..j] + [b[j]] + b[j + 1..];
  }

  lemma SourceClaims(claims: seq<Claim>, reps: seq<Replacement>, k: int)
    requires Sources(claims) <= multiset(reps) && 0 <= k < |claims|
    ensures claims[k].source in reps
  {
    BagWithout(claims, k, SourceOf);
    assert claims[k].source in multiset(reps);
  }

  /** With non-empty masks nothing is skipped: applied and missed replacements are exactly those
      given, and a missed token has no occurrence left that no claim overlaps. */
  lemma RestoreExhausts(masked: Text, reps: seq<Replacement>, text: Text, misses: int)
    returns (plan: seq<Claim>, missed: seq<Replacement>)
    requires Restored(masked, reps, text, misses) && MasksNonEmpty(reps)
    ensures Swaps(masked, plan, text) && NonEmptyRanges(plan)
    ensures |missed| == misses && Sources(plan) + multiset(missed) == multiset(reps)
    ensures forall r :: r in missed ==> Exhausted(masked, r.masked, plan)
  {
    var order, sorted :| SortedPermutation(order, reps, RepKey)
      && SortedPermutation(sorted, Allocate(masked, order).claims, ClaimKey)
      && RestoredOver(masked, order, sorted, text, misses);
    plan, missed := sorted, Allocate(masked, order).left;
    PlanExhausts(masked, reps, text, misses, order, sorted);
  }

  lemma PlanExhausts(masked: Text, reps: seq<Replacement>, text: Text, misses: int,
                     order: seq<Replacement>, sorted: seq<Claim>)
    requires SortedPermutation(order, reps, RepKey) && MasksNonEmpty(reps)
    requires SortedPermutation(sorted, Allocate(masked, order).claims, ClaimKey)
    requires RestoredOver(masked, order, sorted, text, misses)
    ensures var missed := Allocate(masked, order).left;
            && Swaps(masked, sorted, text) && NonEmptyRanges(sorted)
            && |missed| == misses && Sources(sorted) + multiset(missed) == multiset(reps)
            && forall r :: r in missed ==> Exhausted(masked, r.masked, sorted)
  {
    var p := Allocate(masked, order);
    AllocateSound(masked, order);
    AllocationCount(masked, order, reps, sorted);
    ClaimsNonEmpty(masked, p.claims, reps);
    ApartPermute(p.claims, sorted);
    AnchoredPermute(masked, p.claims, sorted);
    KeepAll(masked, sorted, 0);
    BagPermute(sorted, p.claims, SourceOf);
    MissesAllExhausted(masked, order, reps, sorted);
  }

  lemma ClaimsNonEmpty(masked: Text, claims: seq<Claim>, reps: seq<Replacement>)
    requires Anchored(masked, claims) && MasksNonEmpty(reps)
    requires Sources(claims) <= multiset(reps)
    ensures NonEmptyRanges(claims)
  {
    forall k | 0 <= k < |claims| ensures claims[k].start < claims[k].end {
      SourceClaims(claims, reps, k);
      var j :| 0 <= j < |reps| && reps[j] == claims[k].source;
      assert reps[j].masked != [];
    }
  }

  lemma MissesAllExhausted(masked: Text, order: seq<Replacement>, reps: seq<Replacement>, sorted: seq<Claim>)
    requires multiset(order) == multiset(reps) && MasksNonEmpty(reps)
    requires multiset(sorted) == multiset(Allocate(masked, order).claims)
    ensures forall r :: r in Allocate(masked, order).left ==> Exhausted(masked, r.masked, sorted)
  {
    var p := Allocate(masked, order);
    var trusted := TrustAll(masked, Phase([], []), order);
    SeekAllExhausts(masked, Phase(trusted.claims, []), trusted.left);
    AllocateSound(masked, order);
    MembersAgree(sorted, p.claims);
    forall r | r in p.left ensures Exhausted(masked, r.masked, sorted) {
      assert r in multiset(p.left);
      assert r in multiset(reps);
      assert r in reps;
      var j :| 0 <= j < |reps| && reps[j] == r;
      assert reps[j].masked != [];
      ExhaustedGrows(masked, r.masked, p.claims, sorted);
    }
  }

  // ---------------------------------------------------------------- round trip

  ghost predicate StartsRise(reps: seq<Replacement>) {
    forall i, j :: 0 <= i < j < |reps| ==> reps[i].start < reps[j].start
  }

  lemma NonEmptyMasksRise(masked: Text, reps: seq<Replacement>, text: Text)
    requires StandsFor(masked, reps, text) && MasksNonEmpty(reps)
    ensures StartsRise(reps)
  {
    var claims := Placed(reps);
    forall i, j | 0 <= i < j < |reps| ensures reps[i].start < reps[j].start {
      LaidApart(masked, claims, 0, i, j);
      assert claims[i].start < claims[i].end;
    }
  }

  /** Rising starts leave a sort one permutation to choose. */
  lemma {:induction false} RisingHasOneOrder<T>(a: seq<T>, q: seq<T>, key: T -> Key)
    requires SortedPermutation(q, a, key)
    requires forall i, j :: 0 <= i < j < |a| ==> key(a[i]).0 < key(a[j]).0
    ensures q == a
    decreases |a|
  {
    if a == [] {
      MembersAgree(q, a);
    } else {
      RisingFirst(a, q, key);
      TailPermutation(q, a, key);
      RisingHasOneOrder(a[1..], q[1..], key);
      assert q == [q[0]] + q[1..] && a == [a[0]] + a[1..];
    }
  }

  lemma RisingFirst<T>(a: seq<T>, q: seq<T>, key: T -> Key)
    requires SortedPermutation(q, a, key) && a != []
    requires forall i, j :: 0 <= i < j < |a| ==> key(a[i]).0 < key(a[j]).0
    ensures q != [] && q[0] == a[0]
  {
    MembersAgree(q, a);
    assert q[0] in a && a[0] in q;
    var i :| 0 <= i < |a| && a[i] == q[0];
    var k :| 0 <= k < |q| && q[k] == a[0];
    assert k == 0 || Leq(key(q[0]), key(q[k]));
  }

  /** In the masked text itself every recorded position can be trusted. */
  lemma {:induction false} TrustPlaced(masked: Text, reps: seq<Replacement>, n: nat)
    requires Laid(masked, Placed(reps), 0) && Anchored(masked, Placed(reps)) && n <= |reps|
    ensures TrustAll(masked, Phase(Placed(reps)[..n], []), reps[n..]) == Phase(Placed(reps), [])
    decreases |reps| - n
  {
    var claims := Placed(reps);
    if n == |reps| {
      assert claims[..n] == claims && reps[n..] == [];
    } else {
      var r := reps[n];
      assert claims[n] == Claim(r.start, r.end, r);
      LaidInside(masked, claims, 0, n);
      forall k | 0 <= k < n ensures !Overlaps(claims[k], r.start, r.end) {
        LaidApart(masked, claims, 0, k, n);
      }
      assert !Taken(claims[..n], r.start, r.end);
      assert claims[..n] + [claims[n]] == claims[..n + 1];
      assert reps[n..][0] == r && reps[n..][1..] == reps[n + 1..];
      TrustPlaced(masked, reps, n + 1);
    }
  }

  lemma {:induction false} KeepLaid(masked: Text, claims: seq<Claim>, pos: int)
    requires Laid(masked, claims, pos) && 0 <= pos <= |masked|
    ensures Keep(masked, claims, pos) == claims
    decreases |claims|
  {
    if claims != [] {
      KeepLaid(masked, claims[1..], claims[0].end);
      assert claims == [claims[0]] + claims[1..];
    }
  }

  /** Restoring the masked text gives back the text, with no miss, provided no two replacements
      start at the same offset. */
  lemma RoundTrip(masked: Text, reps: seq<Replacement>, text: Text, restored: Text, misses: int)
    requires StandsFor(masked, reps, text) && StartsRise(reps)
    requires Restored(masked, reps, restored, misses)
    ensures restored == text && misses == 0
  {
    var order, sorted :| SortedPermutation(order, reps, RepKey)
      && SortedPermutation(sorted, Allocate(masked, order).claims, ClaimKey)
      && RestoredOver(masked, order, sorted, restored, misses);
    RisingHasOneOrder(reps, order, RepKey);
    TrustPlaced(masked, reps, 0);
    assert Placed(reps)[..0] == [] && reps[0..] == reps;
    assert Allocate(masked, order) == Phase(Placed(reps), []);
    RisingHasOneOrder(Placed(reps), sorted, ClaimKey);
    KeepLaid(masked, Placed(reps), 0);
  }

  /** Two empty masks at one offset may come back in the wrong order: the sort may swap them. */
  lemma EmptyMasksMaySwap(a: Replacement, b: Replacement)
    requires a.masked == b.masked == [] && a.start == b.start == a.end == b.end == 0
    requires a.original + b.original != b.original + a.original
    ensures StandsFor([], [a, b], a.original + b.original)
    ensures Restored([], [a, b], b.original + a.original, 0)
  {
    EmptyPairStands(a, b);
    SwappedSplice(a, b);
    SwappedAllocation(a, b);
    SwappedOrder(a, b);
    assert RestoredOver([], [b, a], [Claim(0, 0, b), Claim(0, 0, a)], b.original + a.original, 0);
  }

  lemma EmptyPairStands(a: Replacement, b: Replacement)
    requires a.masked == b.masked == [] && a.start == b.start == a.end == b.end == 0
    ensures StandsFor([], [a, b], a.original + b.original)
  {
    assert Placed([a, b]) == [Claim(0, 0, a), Claim(0, 0, b)];
    SwappedSplice(b, a);
  }

  lemma SwappedOrder(a: Replacement, b: Replacement)
    requires a.start == b.start
    ensures SortedPermutation([b, a], [a, b], RepKey)
    ensures SortedPermutation([Claim(0, 0, b), Claim(0, 0, a)], [Claim(0, 0, b), Claim(0, 0, a)], ClaimKey)
  {
    assert multiset([b, a]) == multiset([a, b]);
  }

  lemma SwappedSplice(a: Replacement, b: Replacement)
    ensures var claims := [Claim(0, 0, b), Claim(0, 0, a)];
            && Keep([], claims, 0) == claims
            && Splice([], claims, 0) == b.original + a.original
  {
    var ca, cb := Claim(0, 0, a), Claim(0, 0, b);
    assert [cb, ca][1..] == [ca] && [ca][1..] == [];
    assert Keep([], [ca], 0) == [ca];
    assert Splice([], [ca], 0) == a.original;
  }

  lemma SwappedAllocation(a: Replacement, b: Replacement)
    requires a.masked == b.masked == [] && a.start == b.start == a.end == b.end == 0
    ensures Allocate([], [b, a]) == Phase([Claim(0, 0, b), Claim(0, 0, a)], [])
  {
    var ca, cb, p0 := Claim(0, 0, a), Claim(0, 0, b), Phase([], []);
    assert Trust([], p0, b) == Phase([cb], []);
    assert Trust([], Phase([cb], []), a) == Phase([cb, ca], []);
    assert [b, a][1..] == [a] && [a][1..] == [];
    assert TrustAll([], p0, [b, a]) == TrustAll([], Phase([cb], []), [a]);
    assert TrustAll([], Phase([cb], []), [a]) == TrustAll([], Phase([cb, ca], []), []);
  }

  /** An empty mask directly before a non-empty one may get lost: when the sort puts it second,
      the defensive check skips it and its original is missing. */
  lemma EmptyMaskMayBeLost(a: Replacement, b: Replacement)
    requires a.masked == [] && b.masked != []
    requires a.start == a.end == b.start == 0 && b.end == |b.masked|
    ensures StandsFor(b.masked, [a, b], a.original + b.original)
    ensures Restored(b.masked, [a, b], b.original, 1)
  {
    var m, ca, cb := b.masked, Claim(0, 0, a), Claim(0, b.end, b);
    LostPairStands(a, b);
    LostAllocation(a, b);
    LostSplice(m, ca, cb);
    LostOrder(a, b);
    assert RestoredOver(m, [b, a], [cb, ca], b.original, 1);
  }

  lemma LostPairStands(a: Replacement, b: Replacement)
    requires a.masked == [] && b.masked != []
    requires a.start == a.end == b.start == 0 && b.end == |b.masked|
    ensures StandsFor(b.masked, [a, b], a.original + b.original)
  {
    var m, ca, cb := b.masked, Claim(0, 0, a), Claim(0, b.end, b);
    assert Placed([a, b]) == [ca, cb];
    assert [ca, cb][1..] == [cb] && [cb][1..] == [];
    assert Splice(m, [cb], 0) == b.original;
  }

  lemma LostOrder(a: Replacement, b: Replacement)
    requires a.start == b.start
    ensures SortedPermutation([b, a], [a, b], RepKey)
    ensures SortedPermutation([Claim(0, b.end, b), Claim(0, 0, a)], [Claim(0, b.end, b), Claim(0, 0, a)], ClaimKey)
  {
    assert multiset([b, a]) == multiset([a, b]);
  }

  lemma LostSplice(m: Text, ca: Claim, cb: Claim)
    requires ca.start == ca.end == cb.start == 0 < cb.end == |m|
    ensures Keep(m, [cb, ca], 0) == [cb]
    ensures Splice(m, [cb], 0) == cb.source.original
  {
    assert [cb, ca][1..] == [ca] && [ca][1..] == [] && [cb][1..] == [];
    assert Keep(m, [ca], cb.end) == [];
  }

  lemma LostAllocation(a: Replacement, b: Replacement)
    requires a.masked == [] && b.masked != []
    requires a.start == a.end == b.start == 0 && b.end == |b.masked|
    ensures Allocate(b.masked, [b, a]) == Phase([Claim(0, b.end, b), Claim(0, 0, a)], [])
  {
    var m, ca, cb, p0 := b.masked, Claim(0, 0, a), Claim(0, b.end, b), Phase([], []);
    assert Trust(m, p0, b) == Phase([cb], []);
    assert Trust(m, Phase([cb], []), a) == Phase([cb, ca], []);
    assert [b, a][1..] == [a] && [a][1..] == [];
    assert TrustAll(m, p0, [b, a]) == TrustAll(m, Phase([cb], []), [a]);
    assert TrustAll(m, Phase([cb], []), [a]) == TrustAll(m, Phase([cb, ca], []), []);
  }
}
