/** The engine's decisions, as relations between the records it sees and what it answers. */
module Calls {
  import opened Bytes
  import opened Sorting
  import opened Splicing
  import opened Restoring
  import opened RestoreLaws
  import opened Store
  import opened Masking

  /** What masking a payload afresh may give: masked text, replacements, strategy name. */
  type Masker = (Text, Options, Text, seq<Replacement>, Text) -> bool

  /** What masking a batch may give: masked texts, replacements of all of them, strategy name. */
  type BatchMasker = (seq<Text>, Options, seq<Text>, seq<Replacement>, Text) -> bool

  /** `able` tells whether any strategy is registered. */
  datatype Env = Env(masks: Masker, batches: BatchMasker, able: bool)

  datatype Answer = MaskedAs(text: Text) | Unmasked(text: Text, misses: int) | NoStrategy

  const LEGACY_OWNER: Text := []

  predicate Owns(rec: Record, opt: Options) {
    if rec.systemId == LEGACY_OWNER then opt.systemId != [] && opt.systemId == opt.defaultSystemId
    else rec.systemId == opt.systemId
  }

  /** A record this call may write. */
  ghost predicate NewRecord(env: Env, payload: Text, opt: Options, rec: Record) {
    && env.masks(payload, opt, rec.maskedText, rec.replacements, rec.strategy)
    && rec.hash == Sha256(payload) && rec.systemId == opt.systemId
  }

  /** Mask afresh, save nothing. */
  ghost predicate FreshAnswer(env: Env, payload: Text, opt: Options, a: Answer) {
    if env.able then a.MaskedAs? && exists reps, name :: env.masks(payload, opt, a.text, reps, name)
    else a == NoStrategy
  }

  /** The answer on a record the caller owns: the stored mask on a hash match, a restored text,
      or a fresh mask. */
  ghost predicate OwnAnswer(env: Env, rec: Record, payload: Text, opt: Options, a: Answer) {
    if rec.hash == Sha256(payload) then a == MaskedAs(rec.maskedText)
    else if !opt.unmask then FreshAnswer(env, payload, opt, a)
    else exists restored, misses ::
      && Restored(payload, rec.replacements, restored, misses)
      && if misses >= |rec.replacements| then FreshAnswer(env, payload, opt, a) else a == Unmasked(restored, misses)
  }

  /** The sequential specification of Process on an existing record. */
  ghost predicate AnswersOn(env: Env, rec: Record, payload: Text, opt: Options, a: Answer) {
    if Owns(rec, opt) then OwnAnswer(env, rec, payload, opt, a) else FreshAnswer(env, payload, opt, a)
  }

  /** One Process call on its own, over the live records. */
  ghost predicate ProcessCall(env: Env, live: map<Id, Record>, id: Id, payload: Text, opt: Options,
                              live': map<Id, Record>, a: Answer) {
    if id in live then live' == live && AnswersOn(env, live[id], payload, opt, a)
    else if !env.able then live' == live && a == NoStrategy
    else exists rec :: NewRecord(env, payload, opt, rec) && live' == live[id := rec] && a == MaskedAs(rec.maskedText)
  }

  datatype MaskReply = MaskedText(text: Text) | Foreign | LooksLikeUnmask | NotAble

  /** One MaskEx call. */
  ghost predicate SingleCall(env: Env, live: map<Id, Record>, id: Id, text: Text, opt: Options,
                           live': map<Id, Record>, r: MaskReply) {
    if id in live && !Owns(live[id], opt) then live' == live && r == Foreign
    else if id in live && live[id].hash == Sha256(text) then live' == live && r == MaskedText(live[id].maskedText)
    else if id in live && live[id].maskedText == text then live' == live && r == LooksLikeUnmask
    else if !env.able then live' == live && r == NotAble
    else exists rec :: NewRecord(env, text, opt, rec) && live' == live[id := rec] && r == MaskedText(rec.maskedText)
  }

  datatype BatchReply = MaskedTexts(masked: seq<Text>) | BatchForeign | BatchNotAble

  ghost predicate BatchRecord(env: Env, texts: seq<Text>, opt: Options, masked: seq<Text>, rec: Record) {
    && env.batches(texts, opt, masked, rec.replacements, rec.strategy)
    && rec.maskedText == Joined(masked, |masked|)
    && rec.hash == Sha256(Joined(texts, |texts|)) && rec.systemId == opt.systemId
  }

  /** One MaskBatchEx call. */
  ghost predicate BatchCall(env: Env, live: map<Id, Record>, id: Id, texts: seq<Text>, opt: Options,
                            live': map<Id, Record>, r: BatchReply) {
    if id in live && !Owns(live[id], opt) then live' == live && r == BatchForeign
    else if !env.able then live' == live && r == BatchNotAble
    else exists masked, rec ::
      BatchRecord(env, texts, opt, masked, rec) && live' == live[id := rec] && r == MaskedTexts(masked)
  }

  datatype UnmaskReply = UnmaskedText(text: Text, misses: int) | NotFound

  /** One UnmaskEx call: a foreign record looks exactly like a missing one. */
  ghost predicate UnmaskCall(live: map<Id, Record>, id: Id, masked: Text, opt: Options, r: UnmaskReply) {
    if id !in live || !Owns(live[id], opt) then r == NotFound
    else r.UnmaskedText? && Restored(masked, live[id].replacements, r.text, r.misses)
  }

  // ---------------------------------------------------------------- masking that can be undone

  ghost predicate Undoable(env: Env) {
    && (forall payload, opt, masked, reps, name :: env.masks(payload, opt, masked, reps, name) ==>
          StandsFor(masked, reps, payload) && MasksNonEmpty(reps))
    && (forall texts, opt, masked, reps, name :: env.batches(texts, opt, masked, reps, name) ==>
          StandsFor(Joined(masked, |masked|), reps, Joined(texts, |texts|)) && MasksNonEmpty(reps))
  }

  /** What MaskEx or MaskBatchEx stored, UnmaskEx gives back to its owner, with no miss. */
  lemma UnmaskGivesTexts(env: Env, live: map<Id, Record>, id: Id, texts: seq<Text>, opt: Options,
                         masked: seq<Text>, opt': Options, r: UnmaskReply)
    requires Undoable(env) && id in live && Owns(live[id], opt')
    requires BatchRecord(env, texts, opt, masked, live[id])
          || (|texts| == 1 && NewRecord(env, texts[0], opt, live[id]))
    requires UnmaskCall(live, id, live[id].maskedText, opt', r)
    ensures r == UnmaskedText(if BatchRecord(env, texts, opt, masked, live[id]) then Joined(texts, |texts|) else texts[0], 0)
  {
    var rec := live[id];
    var text := if BatchRecord(env, texts, opt, masked, rec) then Joined(texts, |texts|) else texts[0];
    NonEmptyMasksRise(rec.maskedText, rec.replacements, text);
    RoundTrip(rec.maskedText, rec.replacements, text, r.text, r.misses);
  }

  /** A system owns what it writes exactly when it has a name. */
  lemma WriterOwns(env: Env, payload: Text, opt: Options, rec: Record)
    requires NewRecord(env, payload, opt, rec)
    ensures Owns(rec, opt) <==> opt.systemId != []
  {}

  /** The stored mask sent back by its owner, with Unmask on, gives the text: as the stored mask
      itself when masking changed nothing, else restored without a miss. */
  lemma OwnMaskGivesText(env: Env, t: Text, opt: Options, rec: Record, opt': Options, a: Answer)
    requires Undoable(env) && NewRecord(env, t, opt, rec)
    requires Owns(rec, opt') && opt'.unmask
    requires AnswersOn(env, rec, rec.maskedText, opt', a)
    ensures a == if rec.maskedText == t then MaskedAs(t) else Unmasked(t, 0)
  {
    if rec.maskedText != t {
      var restored, misses :| Restored(rec.maskedText, rec.replacements, restored, misses)
        && if misses >= |rec.replacements| then FreshAnswer(env, rec.maskedText, opt', a) else a == Unmasked(restored, misses);
      NonEmptyMasksRise(rec.maskedText, rec.replacements, t);
      RoundTrip(rec.maskedText, rec.replacements, t, restored, misses);
      if rec.replacements == [] {
        NothingReplaced(rec.maskedText, t);
      }
    }
  }

  lemma NothingReplaced(masked: Text, text: Text)
    requires StandsFor(masked, [], text)
    ensures masked == text
  {
    assert Placed([]) == [];
  }

  /** Without the Unmask permission, or for a record it does not own, a caller never gets a
      restored text. */
  lemma NothingRestored(env: Env, rec: Record, payload: Text, opt: Options, a: Answer)
    requires AnswersOn(env, rec, payload, opt, a) && (!opt.unmask || !Owns(rec, opt))
    ensures !a.Unmasked?
    ensures !Owns(rec, opt) ==> FreshAnswer(env, payload, opt, a)
  {}

  lemma PlanCount(reps: seq<Replacement>, plan: seq<Claim>, missed: seq<Replacement>)
    requires Sources(plan) + multiset(missed) == multiset(reps)
    ensures |plan| + |missed| == |reps|
  {
    BagCount(plan, SourceOf);
    assert |Sources(plan) + multiset(missed)| == |multiset(reps)|;
  }

  /** Some replacements are applied exactly when some mask occurs in the text. */
  lemma SomeRestored(payload: Text, reps: seq<Replacement>, restored: Text, misses: int)
    requires Restored(payload, reps, restored, misses) && MasksNonEmpty(reps)
    ensures misses < |reps| <==> exists r, q :: r in reps && OccursAt(payload, r.masked, q)
  {
    var plan, missed := RestoreExhausts(payload, reps, restored, misses);
    PlanCount(reps, plan, missed);
    if plan == [] {
      assert multiset(missed) == multiset(reps);
      MembersAgree(missed, reps);
      forall r, q | r in reps ensures !OccursAt(payload, r.masked, q) {
        assert Exhausted(payload, r.masked, plan) && !Taken(plan, q, q + |r.masked|);
      }
    } else {
      var c := plan[0];
      SourceClaims(plan, reps, 0);
      assert OccursAt(payload, c.source.masked, c.start);
    }
  }

  /** Process answers with a restored text exactly when the caller owns the record (its own, or one
      without owner for the default system), may unmask, did not send the text itself, and what it
      sent has at least one of the masks. */
  lemma RestoredExactlyWhen(env: Env, rec: Record, payload: Text, opt: Options, a: Answer)
    requires AnswersOn(env, rec, payload, opt, a) && MasksNonEmpty(rec.replacements)
    ensures a.Unmasked? <==>
              && opt.unmask && rec.hash != Sha256(payload)
              && (if rec.systemId != [] then rec.systemId == opt.systemId
                  else opt.systemId != [] && opt.systemId == opt.defaultSystemId)
              && exists r, q :: r in rec.replacements && OccursAt(payload, r.masked, q)
    ensures a.Unmasked? ==> Restored(payload, rec.replacements, a.text, a.misses) && a.misses < |rec.replacements|
  {
    if Owns(rec, opt) && rec.hash != Sha256(payload) && opt.unmask {
      var restored, misses :| Restored(payload, rec.replacements, restored, misses)
        && if misses >= |rec.replacements| then FreshAnswer(env, payload, opt, a) else a == Unmasked(restored, misses);
      SomeRestored(payload, rec.replacements, restored, misses);
    }
  }

  /** An owner that sends the text again gets the stored mask. */
  lemma ProcessRepeats(env: Env, rec: Record, payload: Text, opt: Options, a: Answer)
    requires AnswersOn(env, rec, payload, opt, a) && rec.hash == Sha256(payload)
    requires if rec.systemId != [] then rec.systemId == opt.systemId
             else opt.systemId != [] && opt.systemId == opt.defaultSystemId
    ensures a == MaskedAs(rec.maskedText)
  {}

  // ---------------------------------------------------------------- runs of calls

  datatype Call =
    | ProcessOp(id: Id, payload: Text, opt: Options)
    | MaskOp(id: Id, text: Text, opt: Options)
    | BatchOp(id: Id, texts: seq<Text>, opt: Options)
    | UnmaskOp(id: Id, masked: Text, opt: Options)
    | Elapse

  /** What a call does to the live records. Time only takes records away. */
  ghost predicate Changes(env: Env, live: map<Id, Record>, c: Call, live': map<Id, Record>) {
    match c
    case ProcessOp(id, payload, opt) => exists a :: ProcessCall(env, live, id, payload, opt, live', a)
    case MaskOp(id, text, opt) => exists r :: SingleCall(env, live, id, text, opt, live', r)
    case BatchOp(id, texts, opt) => exists r :: BatchCall(env, live, id, texts, opt, live', r)
    case UnmaskOp(_, _, _) => live' == live
    case Elapse => forall id :: id in live' ==> id in live && live[id] == live'[id]
  }

  ghost predicate CallRun(env: Env, calls: seq<Call>, states: seq<map<Id, Record>>) {
    && |states| == |calls| + 1
    && forall i {:trigger calls[i]} :: 0 <= i < |calls| ==> Changes(env, states[i], calls[i], states[i + 1])
  }

  predicate MasksId(c: Call, id: Id) {
    (c.MaskOp? || c.BatchOp?) && c.id == id
  }

  /** A live record changes only through MaskEx or MaskBatchEx, by a system that owns it, and
      then belongs to that system. */
  lemma OnlyOwnersChange(env: Env, live: map<Id, Record>, c: Call, live': map<Id, Record>, id: Id)
    requires Changes(env, live, c, live') && id in live && id in live'
    ensures live'[id] != live[id] ==> MasksId(c, id) && Owns(live[id], c.opt) && live'[id].systemId == c.opt.systemId
  {}

  /** The same with the owner spelled out: the system named in the record, or for a record without
      owner the default system. */
  lemma ChangerIsNamed(env: Env, live: map<Id, Record>, c: Call, live': map<Id, Record>, id: Id)
    requires Changes(env, live, c, live') && id in live && id in live' && live'[id] != live[id]
    ensures (c.MaskOp? || c.BatchOp?) && c.id == id
    ensures if live[id].systemId != [] then c.opt.systemId == live[id].systemId
            else c.opt.systemId != [] && c.opt.systemId == c.opt.defaultSystemId
  {
    OnlyOwnersChange(env, live, c, live', id);
  }

  /** The record is live at every point from `m` to `n`. */
  ghost predicate LiveThroughout(states: seq<map<Id, Record>>, id: Id, m: nat, n: nat) {
    n < |states| && forall i :: m <= i <= n ==> id in states[i]
  }

  /** Over any run: while a record with a named owner stays live, its owner stays the same, and
      as long as no owner masks under its id it does not change at all, whatever other
      systems call. */
  lemma {:induction false} OwnerKeepsRecord(env: Env, calls: seq<Call>, states: seq<map<Id, Record>>, id: Id, m: nat, n: nat)
    requires CallRun(env, calls, states) && m <= n && LiveThroughout(states, id, m, n)
    requires states[m][id].systemId != LEGACY_OWNER
    ensures states[n][id].systemId == states[m][id].systemId
    ensures (forall i :: m <= i < n && MasksId(calls[i], id) ==> calls[i].opt.systemId != states[m][id].systemId) ==>
              states[n][id] == states[m][id]
    decreases n
  {
    if m < n {
      OwnerKeepsRecord(env, calls, states, id, m, n - 1);
      OnlyOwnersChange(env, states[n - 1], calls[n - 1], states[n], id);
    }
  }

  /** Process round trip over whole runs: a text masked under a new id by a named system comes
      back when the mask is sent again, after any calls by any systems in between, as long
      as the record stays live and its owner masks nothing else under the id. */
  lemma ProcessRoundTrip(env: Env, calls: seq<Call>, states: seq<map<Id, Record>>, m: nat, n: nat,
                         id: Id, t: Text, opt: Options, first: Answer, opt': Options, last: map<Id, Record>, second: Answer)
    requires Undoable(env) && env.able && CallRun(env, calls, states)
    requires m < n < |states| && id !in states[m]
    requires ProcessCall(env, states[m], id, t, opt, states[m + 1], first)
    requires LiveThroughout(states, id, m + 1, n)
    requires forall i :: m < i < n && MasksId(calls[i], id) ==> calls[i].opt.systemId != opt.systemId
    requires opt.systemId != [] && opt'.systemId == opt.systemId && opt'.unmask
    requires first.MaskedAs? && ProcessCall(env, states[n], id, first.text, opt', last, second)
    ensures second == if first.text == t then MaskedAs(t) else Unmasked(t, 0)
    ensures last == states[n]
  {
    var rec :| NewRecord(env, t, opt, rec) && states[m + 1] == states[m][id := rec] && first == MaskedAs(rec.maskedText);
    OwnerKeepsRecord(env, calls, states, id, m + 1, n);
    assert states[n][id] == rec;
    OwnMaskGivesText(env, t, opt, rec, opt', second);
  }

  // ---------------------------------------------------------------- runs over the store

  datatype Outcome =
    | Processed(answer: Answer)
    | Single(single: MaskReply)
    | Batch(batch: BatchReply)
    | Unmasking(unmask: UnmaskReply)
    | Tick

  /** What a call does and answers. Elapse stands for a tick of the cleanup loop: it does not show. */
  ghost predicate Does(env: Env, live: map<Id, Record>, c: Call, live': map<Id, Record>, o: Outcome) {
    match c
    case ProcessOp(id, payload, opt) => o.Processed? && ProcessCall(env, live, id, payload, opt, live', o.answer)
    case MaskOp(id, text, opt) => o.Single? && SingleCall(env, live, id, text, opt, live', o.single)
    case BatchOp(id, texts, opt) => o.Batch? && BatchCall(env, live, id, texts, opt, live', o.batch)
    case UnmaskOp(id, masked, opt) => o.Unmasking? && live' == live && UnmaskCall(live, id, masked, opt, o.unmask)
    case Elapse => o == Tick && live' == live
  }

  /** Who gets a text back from UnmaskEx: the system named in the record, and for a record without
      owner the default system. */
  lemma WhoMayUnmask(env: Env, live: map<Id, Record>, id: Id, masked: Text, opt: Options, live': map<Id, Record>, o: Outcome)
    requires Does(env, live, UnmaskOp(id, masked, opt), live', o)
    ensures o.unmask.UnmaskedText? <==>
              && id in live
              && (if live[id].systemId != [] then live[id].systemId == opt.systemId
                  else opt.systemId != [] && opt.systemId == opt.defaultSystemId)
    ensures o.unmask.UnmaskedText? ==> Restored(masked, live[id].replacements, o.unmask.text, o.unmask.misses)
  {}

  /** To all others the record looks like one that is not there, whatever they send. */
  lemma ForeignLooksMissing(env: Env, live: map<Id, Record>, id: Id, masked: Text, opt: Options, live': map<Id, Record>, o: Outcome,
                            bare: map<Id, Record>, id': Id, masked': Text, opt': Options, bare': map<Id, Record>, o': Outcome)
    requires Does(env, live, UnmaskOp(id, masked, opt), live', o) && id in live
    requires if live[id].systemId != [] then live[id].systemId != opt.systemId
             else opt.systemId == [] || opt.systemId != opt.defaultSystemId
    requires Does(env, bare, UnmaskOp(id', masked', opt'), bare', o') && id' !in bare
    ensures o == o' && live' == live
  {}

  /** What MaskEx answers: the mask now live under the id for this text; a foreign record and an
      unmask request are told apart. */
  lemma MaskReplyIsStored(env: Env, live: map<Id, Record>, id: Id, text: Text, opt: Options, live': map<Id, Record>, o: Outcome)
    requires Does(env, live, MaskOp(id, text, opt), live', o)
    ensures o.single.MaskedText? ==>
              id in live' && live'[id].maskedText == o.single.text && live'[id].hash == Sha256(text)
    ensures o.single == Foreign <==>
              && id in live
              && (if live[id].systemId != [] then live[id].systemId != opt.systemId
                  else opt.systemId == [] || opt.systemId != opt.defaultSystemId)
    ensures o.single == LooksLikeUnmask <==>
              o.single != Foreign && id in live && live[id].maskedText == text && live[id].hash != Sha256(text)
    ensures !o.single.MaskedText? ==> live' == live
  {}

  /** A named system that sends the same text again gets the same mask, and nothing changes. */
  lemma MaskExRepeats(env: Env, live: map<Id, Record>, id: Id, text: Text, opt: Options, live': map<Id, Record>, o: Outcome,
                      live'': map<Id, Record>, o': Outcome)
    requires Does(env, live, MaskOp(id, text, opt), live', o) && o.single.MaskedText? && opt.systemId != []
    requires Does(env, live', MaskOp(id, text, opt), live'', o')
    ensures o' == o && live'' == live'
  {}

  /** What MaskBatchEx answers: the masks whose joined text is now live under the id for the joined
      texts; or that the record is foreign. */
  lemma BatchReplyIsStored(env: Env, live: map<Id, Record>, id: Id, texts: seq<Text>, opt: Options, live': map<Id, Record>, o: Outcome)
    requires Does(env, live, BatchOp(id, texts, opt), live', o)
    ensures o.batch.MaskedTexts? ==>
              && id in live' && live'[id].maskedText == Joined(o.batch.masked, |o.batch.masked|)
              && live'[id].hash == Sha256(Joined(texts, |texts|)) && live'[id].systemId == opt.systemId
    ensures o.batch == BatchForeign <==>
              && id in live
              && (if live[id].systemId != [] then live[id].systemId != opt.systemId
                  else opt.systemId == [] || opt.systemId != opt.defaultSystemId)
    ensures !o.batch.MaskedTexts? ==> live' == live
  {}

  datatype Request = Request(now: int, call: Call)

  /** The store before each request and after the last, and what each request answered. */
  datatype Trace = Trace(items: seq<Items>, outs: seq<Outcome>)

  /** Requests served one after another on the same store, each at its own time. */
  ghost predicate Served(env: Env, requests: seq<Request>, t: Trace) {
    && |t.items| == |requests| + 1 && |t.outs| == |requests|
    && forall i {:trigger t.outs[i]} :: 0 <= i < |requests| ==>
         Does(env, Live(t.items[i], requests[i].now), requests[i].call, Live(t.items[i + 1], requests[i].now), t.outs[i])
  }

  /** The time of the request before, at first that of the start. */
  function TimeBefore(requests: seq<Request>, since: int, i: nat): int
    requires i <= |requests|
  {
    if i == 0 then since else requests[i - 1].now
  }

  /** The clock does not go back. */
  ghost predicate TimesRise(requests: seq<Request>, since: int) {
    forall i {:trigger TimeBefore(requests, since, i)} :: 0 <= i < |requests| ==> TimeBefore(requests, since, i) <= requests[i].now
  }

  /** The k-th call: time passes before every request. */
  function CallAt(requests: seq<Request>, k: nat): Call
    requires k < 2 * |requests|
  {
    if k % 2 == 0 then Elapse else requests[k / 2].call
  }

  function Spread(requests: seq<Request>): (calls: seq<Call>)
    ensures |calls| == 2 * |requests|
    ensures forall k {:trigger calls[k]} :: 0 <= k < |calls| ==> calls[k] == CallAt(requests, k)
  {
    seq(2 * |requests|, k requires 0 <= k < 2 * |requests| => CallAt(requests, k))
  }

  /** What is live after a request, at its own time, and at the start. */
  function LiveAfter(requests: seq<Request>, items: seq<Items>, since: int, i: nat): map<Id, Record>
    requires i <= |requests| && |items| == |requests| + 1
  {
    Live(items[i], TimeBefore(requests, since, i))
  }

  /** What is live when a request comes. */
  function LiveBefore(requests: seq<Request>, items: seq<Items>, i: nat): map<Id, Record>
    requires i < |requests| && |items| == |requests| + 1
  {
    Live(items[i], requests[i].now)
  }

  function StateAt(requests: seq<Request>, items: seq<Items>, since: int, k: nat): map<Id, Record>
    requires k <= 2 * |requests| && |items| == |requests| + 1
  {
    if k % 2 == 0 then LiveAfter(requests, items, since, k / 2) else LiveBefore(requests, items, k / 2)
  }

  /** What is live at the start, and before and after every request. */
  function StatesOf(requests: seq<Request>, items: seq<Items>, since: int): (states: seq<map<Id, Record>>)
    requires |items| == |requests| + 1
    ensures |states| == 2 * |requests| + 1
    ensures forall k {:trigger states[k]} :: 0 <= k < |states| ==> states[k] == StateAt(requests, items, since, k)
  {
    seq(2 * |requests| + 1, k requires 0 <= k <= 2 * |requests| => StateAt(requests, items, since, k))
  }

  lemma RequestChanges(env: Env, requests: seq<Request>, t: Trace, since: int, i: nat)
    requires Served(env, requests, t) && i < |requests|
    ensures Changes(env, LiveBefore(requests, t.items, i), requests[i].call, LiveAfter(requests, t.items, since, i + 1))
  {
    assert Does(env, Live(t.items[i], requests[i].now), requests[i].call, Live(t.items[i + 1], requests[i].now), t.outs[i]);
  }

  lemma TimePasses(env: Env, requests: seq<Request>, t: Trace, since: int, i: nat)
    requires Served(env, requests, t) && TimesRise(requests, since) && i < |requests|
    ensures Changes(env, LiveAfter(requests, t.items, since, i), Elapse, LiveBefore(requests, t.items, i))
  {
    TimeOnlyExpires(t.items[i], TimeBefore(requests, since, i), requests[i].now);
  }

  /** Over the store and its clock: a request to unmask a record of another system is answered as
      one for an id without a live record. */
  lemma ServedForeignLooksMissing(env: Env, requests: seq<Request>, t: Trace, i: nat, j: nat)
    requires Served(env, requests, t) && i < |requests| && j < |requests|
    requires requests[i].call.UnmaskOp? && requests[j].call.UnmaskOp?
    requires requests[j].call.id !in Live(t.items[j], requests[j].now)
    requires var live, c := Live(t.items[i], requests[i].now), requests[i].call;
             && c.id in live
             && (if live[c.id].systemId != [] then live[c.id].systemId != c.opt.systemId
                 else c.opt.systemId == [] || c.opt.systemId != c.opt.defaultSystemId)
    ensures t.outs[i] == t.outs[j]
  {
    var c, c' := requests[i].call, requests[j].call;
    ForeignLooksMissing(env, Live(t.items[i], requests[i].now), c.id, c.masked, c.opt, Live(t.items[i + 1], requests[i].now), t.outs[i],
                        Live(t.items[j], requests[j].now), c'.id, c'.masked, c'.opt, Live(t.items[j + 1], requests[j].now), t.outs[j]);
  }

  /** What the store and its clock show of served requests, at times that do not go back, is a
      run of calls with time passing in between. */
  lemma ServedIsCallRun(env: Env, requests: seq<Request>, t: Trace, since: int)
    requires Served(env, requests, t) && TimesRise(requests, since)
    ensures CallRun(env, Spread(requests), StatesOf(requests, t.items, since))
  {
    var calls, states := Spread(requests), StatesOf(requests, t.items, since);
    forall k | 0 <= k < |calls| ensures Changes(env, states[k], calls[k], states[k + 1]) {
      if k % 2 == 0 {
        TimePasses(env, requests, t, since, k / 2);
      } else {
        RequestChanges(env, requests, t, since, k / 2);
      }
    }
  }

  /** The record is live whenever a request behind `m` comes, up to request `n`. */
  ghost predicate LiveFor(requests: seq<Request>, items: seq<Items>, id: Id, m: nat, n: nat)
    requires |items| == |requests| + 1 && n < |requests|
  {
    forall i :: m < i <= n ==> id in LiveBefore(requests, items, i)
  }

  lemma StaysLive(requests: seq<Request>, items: seq<Items>, since: int, id: Id, m: nat, n: nat)
    requires |items| == |requests| + 1 && m < n < |requests| && TimesRise(requests, since)
    requires LiveFor(requests, items, id, m, n)
    ensures LiveThroughout(StatesOf(requests, items, since), id, 2 * m + 2, 2 * n + 1)
  {
    var states := StatesOf(requests, items, since);
    forall k | 2 * m + 2 <= k <= 2 * n + 1 ensures id in states[k] {
      var i := k / 2;
      assert states[k] == StateAt(requests, items, since, k);
      assert id in LiveBefore(requests, items, i);
      TimeOnlyExpires(items[i], TimeBefore(requests, since, i), requests[i].now);
    }
  }

  /** Between the two requests no call of the system masks under the id. */
  ghost predicate OthersOnly(requests: seq<Request>, id: Id, system: Text, m: nat, n: nat)
    requires n < |requests|
  {
    forall i :: m < i < n && MasksId(requests[i].call, id) ==> requests[i].call.opt.systemId != system
  }

  lemma OthersOnlyInRun(requests: seq<Request>, id: Id, system: Text, m: nat, n: nat)
    requires n < |requests| && OthersOnly(requests, id, system, m, n)
    ensures forall k :: 2 * m + 1 < k < 2 * n + 1 && MasksId(Spread(requests)[k], id) ==>
              Spread(requests)[k].opt.systemId != system
  {
    forall k | 2 * m + 1 < k < 2 * n + 1 && MasksId(Spread(requests)[k], id)
      ensures Spread(requests)[k].opt.systemId != system
    {
      assert Spread(requests)[k] == CallAt(requests, k);
      assert m < k / 2 < n;
    }
  }

  /** Request `i` is a Process call, answered so. */
  ghost predicate Asked(env: Env, requests: seq<Request>, t: Trace, i: nat,
                        id: Id, payload: Text, opt: Options, a: Answer)
    requires Served(env, requests, t) && i < |requests|
  {
    requests[i].call == ProcessOp(id, payload, opt) && t.outs[i] == Processed(a)
  }

  lemma AskedIsCall(env: Env, requests: seq<Request>, t: Trace, since: int, i: nat,
                    id: Id, payload: Text, opt: Options, a: Answer)
    requires Served(env, requests, t) && i < |requests| && Asked(env, requests, t, i, id, payload, opt, a)
    ensures ProcessCall(env, LiveBefore(requests, t.items, i), id, payload, opt, LiveAfter(requests, t.items, since, i + 1), a)
  {
    assert Does(env, Live(t.items[i], requests[i].now), requests[i].call, Live(t.items[i + 1], requests[i].now), t.outs[i]);
  }

  /** The run of calls behind served requests, as far as it matters between two of them. */
  lemma RunBetween(env: Env, requests: seq<Request>, t: Trace, since: int, m: nat, n: nat, id: Id, system: Text)
    returns (calls: seq<Call>, states: seq<map<Id, Record>>)
    requires Served(env, requests, t) && TimesRise(requests, since) && m < n < |requests|
    requires LiveFor(requests, t.items, id, m, n) && OthersOnly(requests, id, system, m, n)
    ensures CallRun(env, calls, states) && |calls| == 2 * |requests|
    ensures LiveThroughout(states, id, 2 * m + 2, 2 * n + 1)
    ensures forall k :: 2 * m + 1 < k < 2 * n + 1 && MasksId(calls[k], id) ==> calls[k].opt.systemId != system
    ensures states[2 * m + 1] == LiveBefore(requests, t.items, m)
    ensures states[2 * m + 2] == LiveAfter(requests, t.items, since, m + 1)
    ensures states[2 * n + 1] == LiveBefore(requests, t.items, n)
    ensures states[2 * n + 2] == LiveAfter(requests, t.items, since, n + 1)
  {
    calls, states := Spread(requests), StatesOf(requests, t.items, since);
    ServedIsCallRun(env, requests, t, since);
    StaysLive(requests, t.items, since, id, m, n);
    OthersOnlyInRun(requests, id, system, m, n);
    StatesAround(requests, t.items, since, m);
    StatesAround(requests, t.items, since, n);
  }

  lemma StatesAround(requests: seq<Request>, items: seq<Items>, since: int, i: nat)
    requires |items| == |requests| + 1 && i < |requests|
    ensures StatesOf(requests, items, since)[2 * i + 1] == LiveBefore(requests, items, i)
    ensures StatesOf(requests, items, since)[2 * i + 2] == LiveAfter(requests, items, since, i + 1)
  {
    assert StateAt(requests, items, since, 2 * i + 1) == LiveBefore(requests, items, i);
    assert StateAt(requests, items, since, 2 * i + 2) == LiveAfter(requests, items, since, i + 1);
  }

  /** The Process round trip over the store and its clock: request `m` masks the text under a
      new id, request `n` sends the mask back, anything may be served in between. */
  lemma ServedRoundTrip(env: Env, requests: seq<Request>, t: Trace, since: int, m: nat, n: nat,
                        id: Id, text: Text, opt: Options, first: Answer, opt': Options, second: Answer)
    requires Undoable(env) && env.able && Served(env, requests, t) && TimesRise(requests, since)
    requires m < n < |requests| && id !in Live(t.items[m], requests[m].now)
    requires first.MaskedAs? && Asked(env, requests, t, m, id, text, opt, first)
    requires Asked(env, requests, t, n, id, first.text, opt', second)
    requires opt.systemId != [] && opt'.systemId == opt.systemId && opt'.unmask
    requires LiveFor(requests, t.items, id, m, n) && OthersOnly(requests, id, opt.systemId, m, n)
    ensures second == if first.text == text then MaskedAs(text) else Unmasked(text, 0)
  {
    AskedIsCall(env, requests, t, since, m, id, text, opt, first);
    AskedIsCall(env, requests, t, since, n, id, first.text, opt', second);
    var calls, states := RunBetween(env, requests, t, since, m, n, id, opt.systemId);
    ProcessRoundTrip(env, calls, states, 2 * m + 1, 2 * n + 1, id, text, opt, first, opt', states[2 * n + 2], second);
  }
}
