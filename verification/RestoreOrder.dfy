/** Which occurrence goes to which replacement: recorded places first, then from left to right. */
module RestoreOrder {
  import opened Bytes
  import opened Sorting
  import opened Splicing
  import opened Restoring
  import opened RestoreLaws

  // ---------------------------------------------------------------- what a plan owes

  /** The claim does not lie where its replacement was recorded. */
  predicate Elsewhere(c: Claim) {
    c.start != c.source.start || c.end != c.source.end
  }

  /** The text carries the mask at the recorded place. */
  predicate Fits(masked: Text, r: Replacement) {
    0 <= r.start < r.end <= |masked| && masked[r.start..r.end] == r.masked
  }

  /** Every occurrence to the left of a claim made elsewhere overlaps another claim. */
  ghost predicate Leftmost(masked: Text, plan: seq<Claim>) {
    forall c, q {:trigger c in plan, OccursAt(masked, c.source.masked, q)} ::
      c in plan && Elsewhere(c) && OccursAt(masked, c.source.masked, q) && q < c.start ==>
        exists d :: d in plan && d != c && d.start < q + |c.source.masked| && q < d.end
  }

  /** Of two equal masks claimed elsewhere the one recorded further left lies further left. */
  ghost predicate OrderKept(plan: seq<Claim>) {
    forall c, d :: c in plan && d in plan && Elsewhere(c) && Elsewhere(d) ==>
      c.source.masked == d.source.masked && c.source.start < d.source.start ==> c.start < d.start
  }

  /** A mask found where it was recorded is claimed there, unless that place overlaps the place of
      one recorded no further right, which was found there too. */
  ghost predicate PlacesTrusted(masked: Text, reps: seq<Replacement>, plan: seq<Claim>) {
    forall r :: r in reps && Fits(masked, r) ==>
      exists d :: d in plan && !Elsewhere(d) && d.source.start <= r.start && d.start < r.end && r.start < d.end
  }

  /** Of equal masks the ones recorded last are missed. */
  ghost predicate LastMissed(plan: seq<Claim>, missed: seq<Replacement>) {
    forall c, r :: c in plan && r in missed && Elsewhere(c) && c.source.masked == r.masked ==> c.source.start <= r.start
  }

  // ---------------------------------------------------------------- the first phase

  /** Some claim made so far stands in the way of the recorded place. */
  ghost predicate Served(claims: seq<Claim>, r: Replacement) {
    exists d :: d in claims && d.source.start <= r.start && d.start < r.end && r.start < d.end
  }

  ghost predicate TrustKept(masked: Text, p: Phase, done: seq<Replacement>) {
    && (forall c :: c in p.claims ==> !Elsewhere(c) && c.source in done)
    && (forall r :: r in p.left ==> r in done) && Ordered(p.left, RepKey)
    && forall r :: r in done && Fits(masked, r) ==> Served(p.claims, r)
  }

  lemma TrustOneKeeps(masked: Text, p: Phase, done: seq<Replacement>, r: Replacement)
    requires TrustKept(masked, p, done) && forall x :: x in done ==> x.start <= r.start
    ensures TrustKept(masked, Trust(masked, p, r), done + [r])
  {
    var p' := Trust(masked, p, r);
    assert forall c :: c in p.claims ==> c in p'.claims;
    if Fits(masked, r) {
      if Taken(p.claims, r.start, r.end) {
        var k :| 0 <= k < |p.claims| && Overlaps(p.claims[k], r.start, r.end);
        assert p.claims[k] in p'.claims;
      } else {
        assert Claim(r.start, r.end, r) in p'.claims;
      }
    }
    forall x | x in done && Fits(masked, x) ensures Served(p'.claims, x) {
      var d :| d in p.claims && d.source.start <= x.start && d.start < x.end && x.start < d.end;
      assert d in p'.claims;
    }
  }

  lemma {:induction false} TrustAllKeeps(masked: Text, p: Phase, done: seq<Replacement>, rest: seq<Replacement>)
    requires TrustKept(masked, p, done) && Ordered(rest, RepKey)
    requires forall x, r :: x in done && r in rest ==> x.start <= r.start
    ensures TrustKept(masked, TrustAll(masked, p, rest), done + rest)
    decreases |rest|
  {
    if rest == [] {
      assert done + rest == done;
    } else {
      TrustOneKeeps(masked, p, done, rest[0]);
      RestBehind(done, rest);
      TrustAllKeeps(masked, Trust(masked, p, rest[0]), done + [rest[0]], rest[1..]);
      assert done + [rest[0]] + rest[1..] == done + rest;
    }
  }

  lemma RestBehind(done: seq<Replacement>, rest: seq<Replacement>)
    requires Ordered(rest, RepKey) && rest != []
    requires forall x, r :: x in done && r in rest ==> x.start <= r.start
    ensures Ordered(rest[1..], RepKey)
    ensures forall x, r :: x in done + [rest[0]] && r in rest[1..] ==> x.start <= r.start
  {
    TailOrdered(rest, RepKey);
    forall r | r in rest[1..] ensures rest[0].start <= r.start && r in rest {
      var k :| 0 < k < |rest| && rest[k] == r;
      assert Leq(RepKey(rest[0]), RepKey(rest[k]));
    }
  }

  // ---------------------------------------------------------------- the second phase

  /** From the n-th on each claim was made at the leftmost occurrence that earlier ones left free. */
  ghost predicate LeftmostFrom(masked: Text, claims: seq<Claim>, n: nat) {
    forall k, q {:trigger claims[k], OccursAt(masked, claims[k].source.masked, q)} ::
      n <= k < |claims| && OccursAt(masked, claims[k].source.masked, q) && q < claims[k].start ==>
        Taken(claims[..k], q, q + |claims[k].source.masked|)
  }

  lemma SeekLeftmost(masked: Text, p: Phase, n: nat, r: Replacement)
    requires LeftmostFrom(masked, p.claims, n) && n <= |p.claims|
    ensures LeftmostFrom(masked, Seek(masked, p, r).claims, n)
  {
    var claims, more := p.claims, Seek(masked, p, r).claims;
    forall k, q | n <= k < |more| && OccursAt(masked, more[k].source.masked, q) && q < more[k].start
      ensures Taken(more[..k], q, q + |more[k].source.masked|)
    {
      assert more[..k] == claims[..k];
      if k < |claims| {
        assert more[k] == claims[k];
      } else {
        assert claims[..k] == claims;
      }
    }
  }

  lemma {:induction false} SeekAllLeftmost(masked: Text, p: Phase, n: nat, rest: seq<Replacement>)
    requires LeftmostFrom(masked, p.claims, n) && n <= |p.claims|
    ensures LeftmostFrom(masked, SeekAll(masked, p, rest).claims, n)
    decreases |rest|
  {
    if rest != [] {
      SeekLeftmost(masked, p, n, rest[0]);
      SeekAllLeftmost(masked, Seek(masked, p, rest[0]), n, rest[1..]);
    }
  }

  lemma {:induction false} SeekAllExtends(masked: Text, p: Phase, rest: seq<Replacement>)
    ensures p.claims <= SeekAll(masked, p, rest).claims
    decreases |rest|
  {
    if rest != [] {
      SeekAllExtends(masked, Seek(masked, p, rest[0]), rest[1..]);
    }
  }

  /** From the n-th on claims were made in the order of their records, all no later than `bound`. */
  ghost predicate RisesFrom(claims: seq<Claim>, n: nat) {
    forall k, l :: n <= k < l < |claims| ==> claims[k].source.start <= claims[l].source.start
  }

  ghost predicate UpTo(claims: seq<Claim>, n: nat, rest: seq<Replacement>) {
    forall k, r :: n <= k < |claims| && r in rest ==> claims[k].source.start <= r.start
  }

  lemma SeekRises(masked: Text, p: Phase, n: nat, rest: seq<Replacement>)
    requires RisesFrom(p.claims, n) && UpTo(p.claims, n, rest) && Ordered(rest, RepKey) && rest != []
    ensures var claims := Seek(masked, p, rest[0]).claims; RisesFrom(claims, n) && UpTo(claims, n, rest[1..])
    ensures Ordered(rest[1..], RepKey)
  {
    RestBehind([], rest);
    assert rest[0] in rest && rest[0] in [] + [rest[0]];
    assert forall r :: r in rest[1..] ==> r in rest;
  }

  lemma {:induction false} SeekAllRises(masked: Text, p: Phase, n: nat, rest: seq<Replacement>)
    requires RisesFrom(p.claims, n) && UpTo(p.claims, n, rest) && Ordered(rest, RepKey)
    ensures RisesFrom(SeekAll(masked, p, rest).claims, n)
    decreases |rest|
  {
    if rest != [] {
      SeekRises(masked, p, n, rest);
      SeekAllRises(masked, Seek(masked, p, rest[0]), n, rest[1..]);
    }
  }

  /** A replacement is left only after every claim from the n-th on for an equal mask. */
  ghost predicate LeftLast(p: Phase, n: nat) {
    forall k, r :: n <= k < |p.claims| && r in p.left && p.claims[k].source.masked == r.masked ==>
                     p.claims[k].source.start <= r.start
  }

  lemma SeekLeavesLast(masked: Text, p: Phase, n: nat, rest: seq<Replacement>)
    requires LeftLast(p, n) && MissesExhausted(masked, p) && UpTo(p.claims, n, rest) && rest != []
    ensures LeftLast(Seek(masked, p, rest[0]), n)
  {
    var r, p' := rest[0], Seek(masked, p, rest[0]);
    assert r in rest;
    forall x | x in p.left && x.masked == r.masked && r.masked != [] ensures p'.claims == p.claims {
      NothingFree(masked, r.masked, p.claims);
    }
  }

  lemma NothingFree(masked: Text, token: Text, claims: seq<Claim>)
    requires Exhausted(masked, token, claims)
    ensures FirstFree(masked, token, claims, 0).None?
  {}

  lemma {:induction false} SeekAllLeavesLast(masked: Text, p: Phase, n: nat, rest: seq<Replacement>)
    requires LeftLast(p, n) && MissesExhausted(masked, p)
    requires RisesFrom(p.claims, n) && UpTo(p.claims, n, rest) && Ordered(rest, RepKey)
    ensures LeftLast(SeekAll(masked, p, rest), n)
    decreases |rest|
  {
    if rest != [] {
      SeekLeavesLast(masked, p, n, rest);
      SeekExhausts(masked, p, rest[0]);
      SeekRises(masked, p, n, rest);
      SeekAllLeavesLast(masked, Seek(masked, p, rest[0]), n, rest[1..]);
    }
  }

  // ---------------------------------------------------------------- both together

  /** What the allocation leaves: `n` claims at recorded places, then those made elsewhere. */
  lemma AllocationOrdered(masked: Text, order: seq<Replacement>) returns (n: nat)
    requires Ordered(order, RepKey)
    ensures var p := Allocate(masked, order);
            && n <= |p.claims| && (forall k :: 0 <= k < n ==> !Elsewhere(p.claims[k]))
            && (forall r :: r in order && Fits(masked, r) ==> Served(p.claims[..n], r))
            && LeftmostFrom(masked, p.claims, n) && RisesFrom(p.claims, n) && LeftLast(p, n)
  {
    var trusted := TrustAll(masked, Phase([], []), order);
    n := |trusted.claims|;
    TrustAllKeeps(masked, Phase([], []), [], order);
    assert [] + order == order;
    var p0 := Phase(trusted.claims, []);
    SeekAllExtends(masked, p0, trusted.left);
    SeekAllLeftmost(masked, p0, n, trusted.left);
    SeekAllRises(masked, p0, n, trusted.left);
    SeekAllLeavesLast(masked, p0, n, trusted.left);
    var p := Allocate(masked, order);
    assert p.claims[..n] == trusted.claims;
    forall k | 0 <= k < n ensures !Elsewhere(p.claims[k]) {
      assert p.claims[k] == trusted.claims[k] && trusted.claims[k] in trusted.claims;
    }
  }

  /** Of two claims for equal masks made at leftmost places the earlier lies further left. */
  lemma EarlierLiesLeft(masked: Text, claims: seq<Claim>, n: nat, k: nat, l: nat)
    requires Anchored(masked, claims) && Apart(claims) && NonEmptyRanges(claims) && LeftmostFrom(masked, claims, n)
    requires n <= k < l < |claims| && claims[k].source.masked == claims[l].source.masked
    ensures claims[k].start < claims[l].start
  {
    var q := claims[l].start;
    assert OccursAt(masked, claims[k].source.masked, q);
    assert !Overlaps(claims[k], q, claims[l].end);
    forall j | 0 <= j < k ensures !Overlaps(claims[..k][j], q, q + |claims[k].source.masked|) {
      assert !Overlaps(claims[j], q, claims[l].end);
    }
  }

  lemma AllocationKeepsOrder(masked: Text, claims: seq<Claim>, n: nat)
    requires Anchored(masked, claims) && Apart(claims) && NonEmptyRanges(claims)
    requires LeftmostFrom(masked, claims, n) && RisesFrom(claims, n)
    requires n <= |claims| && forall k :: 0 <= k < n ==> !Elsewhere(claims[k])
    ensures OrderKept(claims)
  {
    forall c, d | c in claims && d in claims && Elsewhere(c) && Elsewhere(d) && c.source.masked == d.source.masked
                  && c.source.start < d.source.start
      ensures c.start < d.start
    {
      var k :| 0 <= k < |claims| && claims[k] == c;
      var l :| 0 <= l < |claims| && claims[l] == d;
      assert k < l;
      EarlierLiesLeft(masked, claims, n, k, l);
    }
  }

  lemma AllocationIsLeftmost(masked: Text, claims: seq<Claim>, n: nat)
    requires Apart(claims) && NonEmptyRanges(claims) && LeftmostFrom(masked, claims, n)
    requires n <= |claims| && forall k :: 0 <= k < n ==> !Elsewhere(claims[k])
    ensures Leftmost(masked, claims)
  {
    forall c, q | c in claims && Elsewhere(c) && OccursAt(masked, c.source.masked, q) && q < c.start
      ensures exists d :: d in claims && d != c && d.start < q + |c.source.masked| && q < d.end
    {
      var k :| 0 <= k < |claims| && claims[k] == c;
      assert Taken(claims[..k], q, q + |claims[k].source.masked|);
      var j :| 0 <= j < k && Overlaps(claims[..k][j], q, q + |c.source.masked|);
      assert claims[j] in claims && !Overlaps(claims[j], c.start, c.end);
    }
  }

  lemma LeftmostPermute(masked: Text, a: seq<Claim>, b: seq<Claim>)
    requires Leftmost(masked, a) && OrderKept(a) && forall c :: c in a <==> c in b
    ensures Leftmost(masked, b) && OrderKept(b)
  {
    forall c, q | c in b && Elsewhere(c) && OccursAt(masked, c.source.masked, q) && q < c.start
      ensures exists d :: d in b && d != c && d.start < q + |c.source.masked| && q < d.end
    {
      assert c in a;
      var d :| d in a && d != c && d.start < q + |c.source.masked| && q < d.end;
      assert d in b;
    }
  }

  /** For non-empty masks, whatever the text: recorded places that still fit are trusted; a mask
      sought elsewhere takes the leftmost occurrence that no other claim overlaps; equal masks
      keep the order of their records, and the last ones of them are those missed. */
  lemma RestoreInOrder(masked: Text, reps: seq<Replacement>, text: Text, misses: int)
    returns (plan: seq<Claim>, missed: seq<Replacement>)
    requires Restored(masked, reps, text, misses) && MasksNonEmpty(reps)
    ensures Swaps(masked, plan, text) && NonEmptyRanges(plan)
    ensures |missed| == misses && Sources(plan) + multiset(missed) == multiset(reps)
    ensures forall r :: r in missed ==> Exhausted(masked, r.masked, plan)
    ensures PlacesTrusted(masked, reps, plan) && Leftmost(masked, plan)
    ensures OrderKept(plan) && LastMissed(plan, missed)
  {
    var order, sorted :| SortedPermutation(order, reps, RepKey)
      && SortedPermutation(sorted, Allocate(masked, order).claims, ClaimKey)
      && RestoredOver(masked, order, sorted, text, misses);
    plan, missed := sorted, Allocate(masked, order).left;
    PlanExhausts(masked, reps, text, misses, order, sorted);
    PlanInOrder(masked, reps, order, sorted);
  }

  lemma PlanInOrder(masked: Text, reps: seq<Replacement>, order: seq<Replacement>, sorted: seq<Claim>)
    requires SortedPermutation(order, reps, RepKey) && MasksNonEmpty(reps)
    requires multiset(sorted) == multiset(Allocate(masked, order).claims)
    ensures PlacesTrusted(masked, reps, sorted) && Leftmost(masked, sorted)
    ensures OrderKept(sorted) && LastMissed(sorted, Allocate(masked, order).left)
  {
    var p := Allocate(masked, order);
    var n := AllocationOrdered(masked, order);
    AllocateSound(masked, order);
    MembersAgree(order, reps);
    MembersAgree(sorted, p.claims);
    AllocationCount(masked, order, reps, sorted);
    ClaimsNonEmpty(masked, p.claims, reps);
    AllocationKeepsOrder(masked, p.claims, n);
    AllocationIsLeftmost(masked, p.claims, n);
    LeftmostPermute(masked, p.claims, sorted);
    PlanTrusts(masked, reps, p.claims, n, sorted);
    PlanMissesLast(p, n, sorted);
  }

  lemma PlanTrusts(masked: Text, reps: seq<Replacement>, claims: seq<Claim>, n: nat, sorted: seq<Claim>)
    requires n <= |claims| && forall k :: 0 <= k < n ==> !Elsewhere(claims[k])
    requires forall r :: r in reps && Fits(masked, r) ==> Served(claims[..n], r)
    requires forall c :: c in sorted <==> c in claims
    ensures PlacesTrusted(masked, reps, sorted)
  {
    forall r | r in reps && Fits(masked, r)
      ensures exists d :: d in sorted && !Elsewhere(d) && d.source.start <= r.start && d.start < r.end && r.start < d.end
    {
      var d :| d in claims[..n] && d.source.start <= r.start && d.start < r.end && r.start < d.end;
      var k :| 0 <= k < n && claims[k] == d;
      assert d in claims;
    }
  }

  lemma PlanMissesLast(p: Phase, n: nat, sorted: seq<Claim>)
    requires LeftLast(p, n) && n <= |p.claims| && forall k :: 0 <= k < n ==> !Elsewhere(p.claims[k])
    requires forall c :: c in sorted <==> c in p.claims
    ensures LastMissed(sorted, p.left)
  {
    forall c, r | c in sorted && r in p.left && Elsewhere(c) && c.source.masked == r.masked
      ensures c.source.start <= r.start
    {
      assert c in p.claims;
      var k :| 0 <= k < |p.claims| && p.claims[k] == c;
    }
  }
}
