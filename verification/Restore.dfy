/** Restoring: every replacement claims a range of a text that may have been shifted, reordered,
    duplicated or cut since it was masked; then the originals are spliced in. */
module Restoring {
  import opened Bytes
  import opened Sorting
  import opened Splicing

  function RepKey(r: Replacement): Key {
    (r.start, 0)
  }

  function ClaimKey(c: Claim): Key {
    (c.start, 0)
  }

  predicate InBounds(masked: Text, start: int, end: int) {
    start >= 0 && end >= start && end <= |masked|
  }

  predicate Overlaps(c: Claim, start: int, end: int) {
    start < c.end && end > c.start
  }

  predicate Taken(claims: seq<Claim>, start: int, end: int) {
    exists k :: 0 <= k < |claims| && Overlaps(claims[k], start, end)
  }

  method OverlapsAny(claims: seq<Claim>, start: int, end: int) returns (b: bool)
    ensures b == Taken(claims, start, end)
  {
    for i := 0 to |claims|
      invariant forall k :: 0 <= k < i ==> !Overlaps(claims[k], start, end)
    {
      if Overlaps(claims[i], start, end) {
        return true;
      }
    }
    return false;
  }

  // ---------------------------------------------------------------- searching

  /** Leftmost occurrence of `token` at or behind `from`, or -1. */
  method Index(masked: Text, token: Text, from: nat) returns (i: int)
    requires from <= |masked|
    ensures i == -1 || (from <= i && OccursAt(masked, token, i))
    ensures forall q :: from <= q && OccursAt(masked, token, q) ==> i != -1 && i <= q
  {
    i := from;
    while i + |token| <= |masked|
      invariant from <= i
      invariant forall q :: from <= q < i ==> !OccursAt(masked, token, q)
      decreases |masked| - i
    {
      if masked[i..i + |token|] == token {
        return;
      }
      i := i + 1;
    }
    i := -1;
  }

  /** Leftmost unclaimed occurrence of `token` at or behind `from`. */
  function FirstFree(masked: Text, token: Text, claims: seq<Claim>, from: nat): (r: Option<nat>)
    ensures r.Some? ==> from <= r.value && OccursAt(masked, token, r.value)
                        && !Taken(claims, r.value, r.value + |token|)
    ensures forall q :: from <= q && OccursAt(masked, token, q) && (r.None? || q < r.value) ==>
              Taken(claims, q, q + |token|)
    decreases |masked| - from
  {
    if from + |token| > |masked| then None
    else if OccursAt(masked, token, from) && !Taken(claims, from, from + |token|) then Some(from)
    else FirstFree(masked, token, claims, from + 1)
  }

  lemma {:induction false} FirstFreeSkips(masked: Text, token: Text, claims: seq<Claim>, from: nat, until: nat)
    requires from <= until
    requires forall q :: from <= q < until && OccursAt(masked, token, q) ==> Taken(claims, q, q + |token|)
    ensures FirstFree(masked, token, claims, from) == FirstFree(masked, token, claims, until)
    decreases until - from
  {
    if from < until {
      FirstFreeSkips(masked, token, claims, from + 1, until);
    }
  }

  method FindUnclaimed(masked: Text, token: Text, claims: seq<Claim>) returns (start: int, end: int, ok: bool)
    ensures ok <==> token != [] && FirstFree(masked, token, claims, 0).Some?
    ensures ok ==> start == FirstFree(masked, token, claims, 0).value && end == start + |token|
  {
    start, end, ok := 0, 0, false;
    if token == [] {
      return;
    }
    var searchFrom: nat := 0;
    while searchFrom <= |masked|
      invariant 0 <= searchFrom
      invariant FirstFree(masked, token, claims, searchFrom) == FirstFree(masked, token, claims, 0)
      decreases |masked| + 1 - searchFrom
    {
      var idx := Index(masked, token, searchFrom);
      if idx < 0 {
        return 0, 0, false;
      }
      FirstFreeSkips(masked, token, claims, searchFrom, idx);
      start, end := idx, idx + |token|;
      var taken := OverlapsAny(claims, start, end);
      if !taken {
        return start, end, true;
      }
      searchFrom := start + 1;
    }
    return 0, 0, false;
  }

  // ---------------------------------------------------------------- the two phases

  /** Claims made so far, and the replacements that got none. */
  datatype Phase = Phase(claims: seq<Claim>, left: seq<Replacement>)

  /** Phase 1: trust the recorded position when it is in bounds, matches and is unclaimed. */
  function Trust(masked: Text, p: Phase, r: Replacement): Phase {
    if InBounds(masked, r.start, r.end) && masked[r.start..r.end] == r.masked && !Taken(p.claims, r.start, r.end)
    then Phase(p.claims + [Claim(r.start, r.end, r)], p.left)
    else Phase(p.claims, p.left + [r])
  }

  /** Phase 2: claim the leftmost unclaimed occurrence. */
  function Seek(masked: Text, p: Phase, r: Replacement): Phase {
    var at := FirstFree(masked, r.masked, p.claims, 0);
    if r.masked != [] && at.Some?
    then Phase(p.claims + [Claim(at.value, at.value + |r.masked|, r)], p.left)
    else Phase(p.claims, p.left + [r])
  }

  function TrustAll(masked: Text, p: Phase, order: seq<Replacement>): Phase
    decreases |order|
  {
    if order == [] then p else TrustAll(masked, Trust(masked, p, order[0]), order[1..])
  }

  function SeekAll(masked: Text, p: Phase, order: seq<Replacement>): Phase
    decreases |order|
  {
    if order == [] then p else SeekAll(masked, Seek(masked, p, order[0]), order[1..])
  }

  function Allocate(masked: Text, order: seq<Replacement>): Phase {
    var trusted := TrustAll(masked, Phase([], []), order);
    SeekAll(masked, Phase(trusted.claims, []), trusted.left)
  }

  /** The claims that survive the defensive check of the final pass. */
  function Keep(masked: Text, claims: seq<Claim>, pos: int): (kept: seq<Claim>)
    requires 0 <= pos <= |masked|
    ensures |kept| <= |claims| && Laid(masked, kept, pos)
    decreases |claims|
  {
    if claims == [] then []
    else
      var c := claims[0];
      if c.start < pos || !InBounds(masked, c.start, c.end) then Keep(masked, claims[1..], pos)
      else [c] + Keep(masked, claims[1..], c.end)
  }

  /** A result of Restore, for one order of the replacements and one of the claims. */
  ghost predicate RestoredOver(masked: Text, order: seq<Replacement>, sorted: seq<Claim>, text: Text, misses: int) {
    var kept := Keep(masked, sorted, 0);
    && text == Splice(masked, kept, 0)
    && misses == |Allocate(masked, order).left| + |sorted| - |kept|
  }

  /** The possible results of Restore: neither sort is stable. */
  ghost predicate Restored(masked: Text, reps: seq<Replacement>, text: Text, misses: int) {
    exists order, sorted ::
      && SortedPermutation(order, reps, RepKey)
      && SortedPermutation(sorted, Allocate(masked, order).claims, ClaimKey)
      && RestoredOver(masked, order, sorted, text, misses)
  }

  method Claims(masked: Text, order: seq<Replacement>) returns (claims: seq<Claim>, misses: nat)
    ensures claims == Allocate(masked, order).claims && misses == |Allocate(masked, order).left|
  {
    claims := [];
    var unresolved: seq<Replacement> := [];
    assert order[0..] == order;
    for i := 0 to |order|
      invariant TrustAll(masked, Phase(claims, unresolved), order[i..]) == TrustAll(masked, Phase([], []), order)
    {
      var r := order[i];
      assert order[i..][0] == r && order[i..][1..] == order[i + 1..];
      var taken := OverlapsAny(claims, r.start, r.end);
      if InBounds(masked, r.start, r.end) && masked[r.start..r.end] == r.masked && !taken {
        claims := claims + [Claim(r.start, r.end, r)];
      } else {
        unresolved := unresolved + [r];
      }
    }
    misses := 0;
    ghost var p, missed: seq<Replacement> := Phase(claims, []), [];
    assert unresolved[0..] == unresolved;
    for i := 0 to |unresolved|
      invariant SeekAll(masked, Phase(claims, missed), unresolved[i..]) == SeekAll(masked, p, unresolved)
      invariant misses == |missed|
    {
      var r := unresolved[i];
      assert unresolved[i..][0] == r && unresolved[i..][1..] == unresolved[i + 1..];
      var start, end, ok := FindUnclaimed(masked, r.masked, claims);
      if !ok {
        misses := misses + 1;
        missed := missed + [r];
      } else {
        claims := claims + [Claim(start, end, r)];
      }
    }
  }

  method Assemble(masked: Text, claims: seq<Claim>) returns (text: Text, skipped: nat)
    ensures text == Splice(masked, Keep(masked, claims, 0), 0)
    ensures skipped == |claims| - |Keep(masked, claims, 0)|
  {
    var b: Text, pos := [], 0;
    skipped := 0;
    assert claims[0..] == claims;
    for i := 0 to |claims|
      invariant 0 <= pos <= |masked|
      invariant b + Splice(masked, Keep(masked, claims[i..], pos), pos) == Splice(masked, Keep(masked, claims, 0), 0)
      invariant skipped + |claims[i..]| - |Keep(masked, claims[i..], pos)| == |claims| - |Keep(masked, claims, 0)|
    {
      var c := claims[i];
      assert claims[i..][0] == c && claims[i..][1..] == claims[i + 1..];
      if c.start < pos || !InBounds(masked, c.start, c.end) {
        skipped := skipped + 1;
        continue;
      }
      ghost var rest := Keep(masked, claims[i + 1..], c.end);
      assert ([c] + rest)[1..] == rest;
      assert b + (masked[pos..c.start] + c.source.original + Splice(masked, rest, c.end))
          == (b + masked[pos..c.start] + c.source.original) + Splice(masked, rest, c.end);
      b := b + masked[pos..c.start];
      b := b + c.source.original;
      pos := c.end;
    }
    text := b + masked[pos..];
  }

  method Restore(masked: Text, reps: seq<Replacement>) returns (text: Text, misses: nat)
    ensures Restored(masked, reps, text, misses)
  {
    var copied := new Replacement[|reps|](i requires 0 <= i < |reps| => reps[i]);
    assert copied[..] == reps;
    Sort(copied, RepKey);
    var order := copied[..];
    var claims;
    claims, misses := Claims(masked, order);
    var slice := new Claim[|claims|](i requires 0 <= i < |claims| => claims[i]);
    assert slice[..] == claims;
    Sort(slice, ClaimKey);
    var sorted := slice[..];
    MembersAgree(sorted, claims);
    var skipped;
    text, skipped := Assemble(masked, sorted);
    misses := misses + skipped;
    assert RestoredOver(masked, order, sorted, text, misses);
  }
}
