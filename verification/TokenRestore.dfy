/** Restoring bracket tokens in a text that may have been rearranged at will. */
module TokenRestore {
  import opened Bytes
  import opened Sorting
  import opened Strategies
  import opened TokenNumbering
  import opened Splicing
  import opened Applying
  import opened Restoring
  import opened RestoreLaws

  // ---------------------------------------------------------------- the simple form

  /** What each token stands for. */
  type Dictionary = map<Text, Text>

  ghost predicate Tokens(dict: Dictionary) {
    forall t :: t in dict ==> BracketToken(t)
  }

  ghost predicate TokenHere(text: Text, i: int, dict: Dictionary) {
    exists t :: t in dict && OccursAt(text, t, i)
  }

  ghost function TokenAt(text: Text, i: int, dict: Dictionary): (t: Text)
    requires TokenHere(text, i, dict)
    ensures t in dict && OccursAt(text, t, i)
  {
    var t :| t in dict && OccursAt(text, t, i);
    t
  }

  /** Plain substitution: one scan from left to right that swaps every token of the dictionary
      it meets. It knows nothing of recorded offsets or counts. */
  ghost function Substitute(text: Text, i: nat, dict: Dictionary): Text
    requires Tokens(dict)
    decreases |text| - i
  {
    if i >= |text| then []
    else if TokenHere(text, i, dict) then
      dict[TokenAt(text, i, dict)] + Substitute(text, i + |TokenAt(text, i, dict)|, dict)
    else [text[i]] + Substitute(text, i + 1, dict)
  }

  /** The tokens that scan meets. */
  ghost function Seen(text: Text, i: nat, dict: Dictionary): multiset<Text>
    requires Tokens(dict)
    decreases |text| - i
  {
    if i >= |text| then multiset{}
    else if TokenHere(text, i, dict) then
      multiset{TokenAt(text, i, dict)} + Seen(text, i + |TokenAt(text, i, dict)|, dict)
    else Seen(text, i + 1, dict)
  }

  // ---------------------------------------------------------------- occurrences

  /** Seen from the text, only the ends of a token are brackets. */
  lemma OnlyEndsBracket(text: Text, t: Text, p: int)
    requires BracketToken(t) && OccursAt(text, t, p)
    ensures text[p] == OPEN_BRACKET && text[p + |t| - 1] == CLOSE_BRACKET
    ensures forall x :: p < x < p + |t| ==> text[x] != OPEN_BRACKET
    ensures forall x :: p <= x < p + |t| - 1 ==> text[x] != CLOSE_BRACKET
  {
    assert forall k :: 0 <= k < |t| ==> text[p + k] == t[k];
    forall x | p < x < p + |t| ensures text[x] != OPEN_BRACKET {
      assert text[x] == t[x - p];
    }
    forall x | p <= x < p + |t| - 1 ensures text[x] != CLOSE_BRACKET {
      assert text[x] == t[x - p];
    }
  }

  lemma NoTokenInside(text: Text, t: Text, u: Text, p: int, q: int)
    requires BracketToken(t) && BracketToken(u) && OccursAt(text, t, p) && OccursAt(text, u, q)
    requires p < q
    ensures p + |t| <= q
  {
    OnlyEndsBracket(text, t, p);
    OnlyEndsBracket(text, u, q);
  }

  lemma OneTokenHere(text: Text, t: Text, u: Text, p: int)
    requires BracketToken(t) && BracketToken(u) && OccursAt(text, t, p) && OccursAt(text, u, p)
    ensures t == u
  {
    OnlyEndsBracket(text, t, p);
    OnlyEndsBracket(text, u, p);
  }

  /** Where a token occurs, from `i` on. */
  ghost function Occurrences(text: Text, t: Text, i: nat): set<int> {
    set p: int | i <= p < |text| && OccursAt(text, t, p)
  }

  /** Nothing but the token itself occurs within a token. */
  lemma OccurrencesPast(text: Text, u: Text, t: Text, i: nat)
    requires BracketToken(u) && BracketToken(t) && OccursAt(text, u, i)
    ensures |Occurrences(text, t, i)| == |Occurrences(text, t, i + |u|)| + if t == u then 1 else 0
  {
    var all, past := Occurrences(text, t, i), Occurrences(text, t, i + |u|);
    forall p | p in all ensures p >= i + |u| || (p == i && t == u) {
      if p > i {
        NoTokenInside(text, u, t, i, p);
      } else {
        OneTokenHere(text, u, t, i);
      }
    }
    if t == u {
      assert all == past + {i};
    } else {
      assert all == past;
    }
  }

  lemma NoOccurrenceHere(text: Text, t: Text, i: nat)
    requires !OccursAt(text, t, i)
    ensures Occurrences(text, t, i) == Occurrences(text, t, i + 1)
  {}

  lemma SeenStep(text: Text, i: nat, dict: Dictionary)
    requires Tokens(dict) && i < |text| && TokenHere(text, i, dict)
    ensures var u := TokenAt(text, i, dict);
            BracketToken(u) && OccursAt(text, u, i) && Seen(text, i, dict) == multiset{u} + Seen(text, i + |u|, dict)
  {}

  /** The scan meets every occurrence, each once. */
  lemma {:induction false} SeenCountsOccurrences(text: Text, i: nat, dict: Dictionary, t: Text)
    requires Tokens(dict) && t in dict
    ensures Seen(text, i, dict)[t] == |Occurrences(text, t, i)|
    decreases |text| - i
  {
    if i >= |text| {
      assert Occurrences(text, t, i) == {};
    } else if TokenHere(text, i, dict) {
      var u := TokenAt(text, i, dict);
      SeenStep(text, i, dict);
      OccurrencesPast(text, u, t, i);
      SeenCountsOccurrences(text, i + |u|, dict, t);
    } else {
      NoOccurrenceHere(text, t, i);
      SeenCountsOccurrences(text, i + 1, dict, t);
    }
  }

  // ---------------------------------------------------------------- claims against the scan

  function MaskOf(r: Replacement): Text {
    r.masked
  }

  function ClaimMask(c: Claim): Text {
    c.source.masked
  }

  /** The claims are of tokens of the dictionary, to be swapped as it says. */
  ghost predicate Translates(text: Text, plan: seq<Claim>, i: int, dict: Dictionary) {
    && Laid(text, plan, i) && Anchored(text, plan)
    && forall k :: 0 <= k < |plan| ==> plan[k].source.masked in dict && dict[plan[k].source.masked] == plan[k].source.original
  }

  /** Some occurrence behind `i` touches no claim. */
  ghost predicate Spare(text: Text, t: Text, plan: seq<Claim>, i: int) {
    exists q :: i <= q && OccursAt(text, t, q) && !Taken(plan, q, q + |t|)
  }

  lemma FirstClaim(text: Text, plan: seq<Claim>, i: int, dict: Dictionary)
    requires Translates(text, plan, i, dict) && Tokens(dict) && plan != []
    ensures OccursAt(text, plan[0].source.masked, plan[0].start)
    ensures i <= plan[0].start && plan[0].end == plan[0].start + |plan[0].source.masked|
    ensures BracketToken(plan[0].source.masked)
    ensures Translates(text, plan[1..], plan[0].end, dict)
  {}

  lemma ClaimsBehind(text: Text, plan: seq<Claim>, i: int, start: int, end: int)
    requires Laid(text, plan, i) && end <= i
    ensures !Taken(plan, start, end)
  {
    forall k | 0 <= k < |plan| ensures !Overlaps(plan[k], start, end) {
      LaidInside(text, plan, i, k);
    }
  }

  lemma SpareBefore(text: Text, t: Text, plan: seq<Claim>, i: int)
    requires plan != [] && Spare(text, t, plan[1..], plan[0].end) && i <= plan[0].end
    ensures Spare(text, t, plan, i)
  {
    var q :| plan[0].end <= q && OccursAt(text, t, q) && !Taken(plan[1..], q, q + |t|);
    forall k | 0 <= k < |plan| ensures !Overlaps(plan[k], q, q + |t|) {
      if k > 0 {
        assert plan[k] == plan[1..][k - 1];
      }
    }
  }

  ghost predicate AllSpare(text: Text, spare: multiset<Text>, plan: seq<Claim>, i: int) {
    forall t :: t in spare ==> Spare(text, t, plan, i)
  }

  lemma SpareEarlier(text: Text, spare: multiset<Text>, plan: seq<Claim>, i: int, j: int)
    requires AllSpare(text, spare, plan, j) && i <= j
    ensures AllSpare(text, spare, plan, i)
  {
    forall t | t in spare ensures Spare(text, t, plan, i) {
      assert Spare(text, t, plan, j);
      var q :| j <= q && OccursAt(text, t, q) && !Taken(plan, q, q + |t|);
    }
  }

  /** Walking claims and scan together: the tokens seen are those claimed and the spare ones,
      and with none to spare, splicing the claims is plain substitution. */
  ghost predicate Walked(text: Text, i: nat, plan: seq<Claim>, dict: Dictionary, spare: multiset<Text>)
    requires Tokens(dict) && Laid(text, plan, i)
  {
    && Seen(text, i, dict) == Bag(plan, ClaimMask) + spare
    && (spare == multiset{} ==> Splice(text, plan, i) == Substitute(text, i, dict))
  }

  lemma WalkByte(text: Text, i: nat, plan: seq<Claim>, dict: Dictionary, spare: multiset<Text>)
    requires Tokens(dict) && i < |text| && !TokenHere(text, i, dict)
    requires Laid(text, plan, i) && Laid(text, plan, i + 1) && Walked(text, i + 1, plan, dict, spare)
    ensures Walked(text, i, plan, dict, spare)
  {
    SpliceLonger(text, plan, i, i + 1);
    assert text[i..i + 1] == [text[i]];
  }

  lemma WalkClaim(text: Text, i: nat, plan: seq<Claim>, dict: Dictionary, spare: multiset<Text>)
    requires Tokens(dict) && i < |text| && TokenHere(text, i, dict)
    requires Laid(text, plan, i) && plan != [] && plan[0].start == i
    requires plan[0].source.masked == TokenAt(text, i, dict) && plan[0].end == i + |TokenAt(text, i, dict)|
    requires plan[0].source.original == dict[TokenAt(text, i, dict)]
    requires Walked(text, plan[0].end, plan[1..], dict, spare)
    ensures Walked(text, i, plan, dict, spare)
  {
    SeenHere(text, i, plan, dict, spare);
    if spare == multiset{} {
      PlainHere(text, i, plan, dict);
    }
  }

  lemma PlainHere(text: Text, i: nat, plan: seq<Claim>, dict: Dictionary)
    requires Tokens(dict) && i < |text| && TokenHere(text, i, dict)
    requires Laid(text, plan, i) && plan != [] && plan[0].start == i
    requires plan[0].end == i + |TokenAt(text, i, dict)| && plan[0].source.original == dict[TokenAt(text, i, dict)]
    requires Splice(text, plan[1..], plan[0].end) == Substitute(text, plan[0].end, dict)
    ensures Splice(text, plan, i) == Substitute(text, i, dict)
  {
    SpliceHere(text, i, plan);
    SubstituteHere(text, i, dict);
  }

  lemma SeenHere(text: Text, i: nat, plan: seq<Claim>, dict: Dictionary, spare: multiset<Text>)
    requires Tokens(dict) && i < |text| && TokenHere(text, i, dict)
    requires plan != [] && plan[0].source.masked == TokenAt(text, i, dict)
    requires plan[0].end == i + |TokenAt(text, i, dict)|
    requires Seen(text, plan[0].end, dict) == Bag(plan[1..], ClaimMask) + spare
    ensures Seen(text, i, dict) == Bag(plan, ClaimMask) + spare
  {
    BagHead(plan, ClaimMask);
  }

  lemma SpliceHere(text: Text, i: nat, plan: seq<Claim>)
    requires Laid(text, plan, i) && plan != [] && plan[0].start == i
    ensures Splice(text, plan, i) == plan[0].source.original + Splice(text, plan[1..], plan[0].end)
  {
    assert text[i..i] == [];
  }

  lemma SubstituteHere(text: Text, i: nat, dict: Dictionary)
    requires Tokens(dict) && i < |text| && TokenHere(text, i, dict)
    ensures var t := TokenAt(text, i, dict);
            Substitute(text, i, dict) == dict[t] + Substitute(text, i + |t|, dict)
  {}

  lemma WalkSpare(text: Text, i: nat, plan: seq<Claim>, dict: Dictionary, spare: multiset<Text>)
    requires Tokens(dict) && i < |text| && TokenHere(text, i, dict)
    requires Laid(text, plan, i) && Laid(text, plan, i + |TokenAt(text, i, dict)|)
    requires Walked(text, i + |TokenAt(text, i, dict)|, plan, dict, spare)
    ensures Walked(text, i, plan, dict, spare + multiset{TokenAt(text, i, dict)})
  {
    assert TokenAt(text, i, dict) in spare + multiset{TokenAt(text, i, dict)};
  }

  /** Where the scan goes on: past a token, or to the next byte. */
  ghost function Next(text: Text, i: nat, dict: Dictionary): nat
    requires Tokens(dict)
  {
    if TokenHere(text, i, dict) then i + |TokenAt(text, i, dict)| else i + 1
  }

  /** A claim that does not start here starts at or behind the place where the scan goes on. */
  lemma NextClaim(text: Text, i: nat, plan: seq<Claim>, dict: Dictionary)
    requires Tokens(dict) && Translates(text, plan, i, dict) && i < |text|
    ensures Next(text, i, dict) <= |text|
    ensures plan != [] && plan[0].start == i ==> TokenHere(text, i, dict) && plan[0].source.masked == TokenAt(text, i, dict)
    ensures plan == [] || plan[0].start != i ==> Translates(text, plan, Next(text, i, dict), dict)
  {
    if plan != [] {
      FirstClaim(text, plan, i, dict);
      if TokenHere(text, i, dict) {
        var t := TokenAt(text, i, dict);
        if plan[0].start == i {
          OneTokenHere(text, t, plan[0].source.masked, i);
        } else {
          NoTokenInside(text, t, plan[0].source.masked, i, plan[0].start);
        }
      }
    }
  }

  lemma {:induction false} Walk(text: Text, i: nat, plan: seq<Claim>, dict: Dictionary) returns (spare: multiset<Text>)
    requires Tokens(dict) && Translates(text, plan, i, dict)
    ensures Walked(text, i, plan, dict, spare) && AllSpare(text, spare, plan, i)
    decreases |text| - i
  {
    if i >= |text| {
      if plan != [] {
        FirstClaim(text, plan, i, dict);
      }
      spare := multiset{};
    } else {
      NextClaim(text, i, plan, dict);
      if plan != [] && plan[0].start == i {
        FirstClaim(text, plan, i, dict);
        spare := Walk(text, plan[0].end, plan[1..], dict);
        WalkClaim(text, i, plan, dict, spare);
        forall t | t in spare ensures Spare(text, t, plan, i) {
          SpareBefore(text, t, plan, i);
        }
      } else {
        spare := Walk(text, Next(text, i, dict), plan, dict);
        SpareEarlier(text, spare, plan, i, Next(text, i, dict));
        if TokenHere(text, i, dict) {
          var t := TokenAt(text, i, dict);
          WalkSpare(text, i, plan, dict, spare);
          spare := spare + multiset{t};
          ClaimsBehind(text, plan, i + |t|, i, i + |t|);
          assert Spare(text, t, plan, i);
        } else {
          WalkByte(text, i, plan, dict, spare);
        }
      }
    }
  }

  // ---------------------------------------------------------------- the theorem

  /** Bracket tokens, equal ones sharing an original. */
  ghost predicate TokenRecords(reps: seq<Replacement>) {
    && (forall k :: 0 <= k < |reps| ==> BracketToken(reps[k].masked))
    && (forall j, k :: 0 <= j < |reps| && 0 <= k < |reps| && reps[j].masked == reps[k].masked ==>
          reps[j].original == reps[k].original)
  }

  function DictionaryOf(reps: seq<Replacement>): (dict: Dictionary)
    ensures forall t :: t in dict <==> exists k :: 0 <= k < |reps| && reps[k].masked == t
    ensures forall t :: t in dict ==> exists k :: 0 <= k < |reps| && reps[k].masked == t && reps[k].original == dict[t]
  {
    if reps == [] then map[]
    else
      var n := |reps| - 1;
      DictionaryOf(reps[..n])[reps[n].masked := reps[n].original]
  }

  /** How often each token was recorded. */
  ghost function RecordedTokens(reps: seq<Replacement>): multiset<Text> {
    Bag(reps, MaskOf)
  }

  lemma DictionaryFits(reps: seq<Replacement>)
    requires TokenRecords(reps)
    ensures Tokens(DictionaryOf(reps))
    ensures forall k :: 0 <= k < |reps| ==>
              reps[k].masked in DictionaryOf(reps) && DictionaryOf(reps)[reps[k].masked] == reps[k].original
  {}

  /** Masks of applied and missed replacements add up to the masks recorded. */
  lemma {:induction false} MasksAddUp(plan: seq<Claim>, missed: seq<Replacement>, reps: seq<Replacement>)
    requires Sources(plan) + multiset(missed) == multiset(reps)
    ensures Bag(plan, ClaimMask) + Bag(missed, MaskOf) == Bag(reps, MaskOf)
    decreases |plan|
  {
    if plan == [] {
      BagPermute(missed, reps, MaskOf);
    } else {
      var n := |plan| - 1;
      var r := plan[n].source;
      assert Sources(plan) == Sources(plan[..n]) + multiset{r};
      assert r in multiset(reps);
      var j := IndexIn(r, reps);
      CancelOne(Sources(plan[..n]) + multiset(missed), multiset(Without(reps, j)), r);
      MasksAddUp(plan[..n], missed, Without(reps, j));
      BagWithout(reps, j, MaskOf);
    }
  }

  lemma PlanTranslates(text: Text, plan: seq<Claim>, restored: Text, missed: seq<Replacement>, reps: seq<Replacement>)
    requires TokenRecords(reps) && Swaps(text, plan, restored)
    requires Sources(plan) + multiset(missed) == multiset(reps)
    ensures Translates(text, plan, 0, DictionaryOf(reps))
  {
    DictionaryFits(reps);
    forall k | 0 <= k < |plan|
      ensures plan[k].source.masked in DictionaryOf(reps)
      ensures DictionaryOf(reps)[plan[k].source.masked] == plan[k].source.original
    {
      SourceClaims(plan, reps, k);
      var j :| 0 <= j < |reps| && reps[j] == plan[k].source;
    }
  }

  /** Bracket tokens in ANY text: every token t is replaced min(recorded(t), occurrences(t)) times,
      each time by its own original, and the misses are what is left of the recorded tokens.
      When no token occurs more often than it was recorded, the result is plain substitution:
      the recorded offsets do not matter. */
  lemma TokensRestoreAnywhere(text: Text, reps: seq<Replacement>, restored: Text, misses: int) returns (plan: seq<Claim>)
    requires TokenRecords(reps) && Restored(text, reps, restored, misses)
    ensures Swaps(text, plan, restored)
    ensures Tokens(DictionaryOf(reps)) && Translates(text, plan, 0, DictionaryOf(reps))
    ensures Bag(plan, ClaimMask) == RecordedTokens(reps) * Seen(text, 0, DictionaryOf(reps))
    ensures misses == |RecordedTokens(reps) - Seen(text, 0, DictionaryOf(reps))|
    ensures Seen(text, 0, DictionaryOf(reps)) <= RecordedTokens(reps) ==>
              restored == Substitute(text, 0, DictionaryOf(reps))
  {
    var dict := DictionaryOf(reps);
    var missed;
    DictionaryFits(reps);
    plan, missed := RestoreExhausts(text, reps, restored, misses);
    PlanTranslates(text, plan, restored, missed, reps);
    MasksAddUp(plan, missed, reps);
    BagCount(missed, MaskOf);
    var spare := Walk(text, 0, plan, dict);
    var lost := Bag(missed, MaskOf);
    NothingBothWays(text, plan, missed, spare);
    Shares(Bag(plan, ClaimMask), lost, spare);
  }

  lemma ExhaustedHasNoSpare(text: Text, t: Text, plan: seq<Claim>)
    requires Exhausted(text, t, plan)
    ensures !Spare(text, t, plan, 0)
  {}

  /** A token that was missed has no occurrence to spare. */
  lemma NothingBothWays(text: Text, plan: seq<Claim>, missed: seq<Replacement>, spare: multiset<Text>)
    requires AllSpare(text, spare, plan, 0)
    requires forall r :: r in missed ==> Exhausted(text, r.masked, plan)
    ensures Bag(missed, MaskOf) !! spare
  {
    forall t | t in Bag(missed, MaskOf) ensures t !in spare {
      var k := BagMember(missed, t);
      assert missed[k] in missed;
      ExhaustedHasNoSpare(text, t, plan);
    }
  }

  lemma {:induction false} BagMember(s: seq<Replacement>, t: Text) returns (k: nat)
    requires t in Bag(s, MaskOf)
    ensures k < |s| && s[k].masked == t
    decreases |s|
  {
    k := |s| - 1;
    if s[k].masked != t {
      k := BagMember(s[..|s| - 1], t);
    }
  }

  lemma Shares(both: multiset<Text>, lost: multiset<Text>, spare: multiset<Text>)
    requires lost !! spare
    ensures both == (both + lost) * (both + spare)
    ensures lost == (both + lost) - (both + spare)
    ensures both + spare <= both + lost ==> spare == multiset{}
  {
    forall t ensures lost[t] == 0 || spare[t] == 0 {}
    if both + spare <= both + lost {
      forall t ensures spare[t] == 0 {
        assert (both + spare)[t] <= (both + lost)[t];
      }
    }
  }

  /** The token strategy records just such tokens, over a whole session on one document. */
  lemma TokenStrategyRecords(s: Strategy, reps: seq<Replacement>, d: Doc)
    requires Numbers(s) && NamedCategories(CallsOf(reps)) && Logged(s, [], reps, d)
    ensures TokenRecords(reps)
  {
    assert [] + reps == reps;
    var calls := CallsOf(reps);
    forall j, k | 0 <= j < |reps| && 0 <= k < |reps|
      ensures BracketToken(reps[j].masked)
      ensures reps[j].masked == reps[k].masked ==> reps[j].original == reps[k].original
    {
      AllNumbered(s, calls, j);
      AllNumbered(s, calls, k);
      EqualTokensEqualValues(s, calls, j, k);
      assert MasksOf(reps)[j] == reps[j].masked && MasksOf(reps)[k] == reps[k].masked;
    }
  }
}
