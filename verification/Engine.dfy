/** The engine: the calls of its interface, over the record store. */
module Engines {
  import opened Bytes
  import opened Strategies
  import opened Splicing
  import opened Applying
  import opened Restoring
  import opened Store
  import opened Masking
  import opened Calls

  const PARTIAL: Text := [112, 97, 114, 116, 105, 97, 108]

  /** The named strategy, else the partial one, else any. */
  ghost predicate StrategyFor(cfg: Config, name: Text, s: Strategy) {
    exists k :: k in cfg.strategies && cfg.strategies[k] == s
      && (name in cfg.strategies ==> k == name)
      && (name !in cfg.strategies && PARTIAL in cfg.strategies ==> k == PARTIAL)
  }

  /** A possible result of masking a payload on a fresh document. */
  ghost predicate MayMask(cfg: Config, payload: Text, opt: Options, masked: Text, reps: seq<Replacement>, name: Text) {
    exists s, d :: StrategyFor(cfg, opt.strategy, s) && s.name == name && Masks(cfg, payload, opt, s, EMPTY_DOC, masked, reps, d)
  }

  /** A possible result of masking a batch. */
  ghost predicate MayBatch(cfg: Config, texts: seq<Text>, opt: Options, masked: seq<Text>, reps: seq<Replacement>, name: Text) {
    exists s :: StrategyFor(cfg, opt.strategy, s) && s.name == name && BatchResult(RunOf(cfg, opt, s), texts, masked, reps)
  }

  /** The environment covers whatever this configuration may do. */
  ghost predicate Covers(env: Env, cfg: Config) {
    && (env.able <==> cfg.strategies.Keys != {})
    && (forall payload, opt, masked, reps, name :: MayMask(cfg, payload, opt, masked, reps, name)
          ==> env.masks(payload, opt, masked, reps, name))
    && (forall texts, opt, masked, reps, name :: MayBatch(cfg, texts, opt, masked, reps, name)
          ==> env.batches(texts, opt, masked, reps, name))
  }

  /** Exactly what this configuration may do. */
  ghost function EnvOf(cfg: Config): Env {
    Env((payload: Text, opt: Options, masked: Text, reps: seq<Replacement>, name: Text) =>
          MayMask(cfg, payload, opt, masked, reps, name),
        (texts: seq<Text>, opt: Options, masked: seq<Text>, reps: seq<Replacement>, name: Text) =>
          MayBatch(cfg, texts, opt, masked, reps, name),
        cfg.strategies.Keys != {})
  }

  /** No strategy gives a non-empty value an empty mask. */
  ghost predicate ShowingStrategies(cfg: Config) {
    forall k :: k in cfg.strategies ==> KeepsNonEmpty(cfg.strategies[k])
  }

  /** Every masking this engine may store can be undone. */
  lemma ShowingIsUndoable(cfg: Config)
    requires ShowingStrategies(cfg)
    ensures Undoable(EnvOf(cfg))
  {
    var env := EnvOf(cfg);
    forall payload, opt, masked, reps, name | env.masks(payload, opt, masked, reps, name)
      ensures StandsFor(masked, reps, payload) && MasksNonEmpty(reps)
    {
      MaskUndoable(cfg, payload, opt, masked, reps, name);
    }
    forall texts, opt, masked, reps, name | env.batches(texts, opt, masked, reps, name)
      ensures StandsFor(Joined(masked, |masked|), reps, Joined(texts, |texts|)) && MasksNonEmpty(reps)
    {
      BatchUndoable(cfg, texts, opt, masked, reps, name);
    }
  }

  lemma MaskUndoable(cfg: Config, payload: Text, opt: Options, masked: Text, reps: seq<Replacement>, name: Text)
    requires ShowingStrategies(cfg) && MayMask(cfg, payload, opt, masked, reps, name)
    ensures StandsFor(masked, reps, payload) && MasksNonEmpty(reps)
  {
    var s, d :| StrategyFor(cfg, opt.strategy, s) && s.name == name && Masks(cfg, payload, opt, s, EMPTY_DOC, masked, reps, d);
    MaskFacts(cfg, payload, opt, s, EMPTY_DOC, masked, reps, d);
  }

  lemma BatchUndoable(cfg: Config, texts: seq<Text>, opt: Options, masked: seq<Text>, reps: seq<Replacement>, name: Text)
    requires ShowingStrategies(cfg) && MayBatch(cfg, texts, opt, masked, reps, name)
    ensures StandsFor(Joined(masked, |masked|), reps, Joined(texts, |texts|)) && MasksNonEmpty(reps)
  {
    var s :| StrategyFor(cfg, opt.strategy, s) && s.name == name && BatchResult(RunOf(cfg, opt, s), texts, masked, reps);
    MaskingIsFaithful(cfg, opt, s);
    var d := BatchFacts(RunOf(cfg, opt, s), texts, s, masked, reps);
  }

  /** The strategy a record was masked with: the one asked for, else the partial one, else any. */
  ghost predicate AskedFor(cfg: Config, name: Text, s: Strategy) {
    && (exists k :: k in cfg.strategies && cfg.strategies[k] == s)
    && (name in cfg.strategies ==> s == cfg.strategies[name])
    && (name !in cfg.strategies && PARTIAL in cfg.strategies ==> s == cfg.strategies[PARTIAL])
  }

  /** The spans to be masked are hidden, behind what the strategy asked for makes of them. */
  ghost predicate HiddenBy(cfg: Config, text: Text, opt: Options, masked: Text, reps: seq<Replacement>, s: Strategy) {
    AskedFor(cfg, opt.strategy, s) && Hidden(cfg, text, opt, masked, reps) && AllMade(s, reps)
  }

  lemma MaskingHides(cfg: Config, text: Text, opt: Options, masked: Text, reps: seq<Replacement>, name: Text)
    returns (s: Strategy)
    requires MayMask(cfg, text, opt, masked, reps, name)
    ensures HiddenBy(cfg, text, opt, masked, reps, s) && s.name == name && StandsFor(masked, reps, text)
  {
    var d;
    s, d :| StrategyFor(cfg, opt.strategy, s) && s.name == name && Masks(cfg, text, opt, s, EMPTY_DOC, masked, reps, d);
    RunHidesSpans(cfg, text, opt, s, EMPTY_DOC, masked, reps, d);
    RunMasksMade(cfg, text, opt, s, masked, reps, d);
    MaskFacts(cfg, text, opt, s, EMPTY_DOC, masked, reps, d);
  }

  /** A record the engine writes for a text. */
  lemma RecordHides(cfg: Config, text: Text, opt: Options, rec: Record) returns (s: Strategy)
    requires NewRecord(EnvOf(cfg), text, opt, rec)
    ensures HiddenBy(cfg, text, opt, rec.maskedText, rec.replacements, s) && s.name == rec.strategy
  {
    s := MaskingHides(cfg, text, opt, rec.maskedText, rec.replacements, rec.strategy);
  }

  /** A fresh answer stands for the payload, with its spans to be masked hidden. */
  lemma FreshAnswerHides(cfg: Config, payload: Text, opt: Options, a: Answer) returns (s: Strategy, reps: seq<Replacement>)
    requires FreshAnswer(EnvOf(cfg), payload, opt, a) && cfg.strategies.Keys != {}
    ensures a.MaskedAs? && StandsFor(a.text, reps, payload) && HiddenBy(cfg, payload, opt, a.text, reps, s)
  {
    var name;
    reps, name :| EnvOf(cfg).masks(payload, opt, a.text, reps, name);
    s := MaskingHides(cfg, payload, opt, a.text, reps, name);
  }

  /** A record the engine writes for a batch: every message hidden, every mask made by the strategy
      asked for. */
  lemma BatchRecordHides(cfg: Config, texts: seq<Text>, opt: Options, masked: seq<Text>, rec: Record) returns (s: Strategy)
    requires BatchRecord(EnvOf(cfg), texts, opt, masked, rec)
    ensures AskedFor(cfg, opt.strategy, s) && s.name == rec.strategy
    ensures AllHidden(cfg, texts, opt, masked) && AllMade(s, rec.replacements)
  {
    s :| StrategyFor(cfg, opt.strategy, s) && s.name == rec.strategy
      && BatchResult(RunOf(cfg, opt, s), texts, masked, rec.replacements);
    BatchHides(cfg, texts, opt, s, masked, rec.replacements);
    BatchMasksMade(cfg, texts, opt, s, masked, rec.replacements);
  }

  class Engine {
    const cfg: Config
    const store: Memory
    ghost const env: Env

    ghost predicate Valid() {
      AnySchedule(cfg) && Covers(env, cfg)
    }

    constructor (cfg: Config, store: Memory)
      requires AnySchedule(cfg)
      ensures Valid() && this.cfg == cfg && this.store == store && env == EnvOf(cfg)
    {
      this.cfg, this.store, this.env := cfg, store, EnvOf(cfg);
    }

    method ResolveStrategy(name: Text) returns (s: Option<Strategy>)
      ensures s.Some? <==> cfg.strategies.Keys != {}
      ensures s.Some? ==> StrategyFor(cfg, name, s.value)
    {
      if name in cfg.strategies {
        return Some(cfg.strategies[name]);
      }
      if PARTIAL in cfg.strategies {
        return Some(cfg.strategies[PARTIAL]);
      }
      if cfg.strategies.Keys == {} {
        return None;
      }
      var k :| k in cfg.strategies.Keys;
      return Some(cfg.strategies[k]);
    }

    /** Masks a text on a fresh document; None when there is no strategy. */
    method MaskOnly(text: Text, opt: Options) returns (r: Option<Record>)
      requires Valid()
      ensures r.Some? <==> env.able
      ensures r.Some? ==> NewRecord(env, text, opt, r.value)
    {
      var strategy := ResolveStrategy(opt.strategy);
      if strategy.None? {
        return None;
      }
      var doc := new DocState();
      var masked, reps := RunMask(cfg, text, opt, strategy.value, doc);
      return Some(Record(reps, strategy.value.name, masked, Sha256(text), opt.systemId));
    }

    method MaskFreshResult(payload: Text, opt: Options) returns (a: Answer)
      requires Valid()
      ensures FreshAnswer(env, payload, opt, a)
    {
      var r := MaskOnly(payload, opt);
      a := if r.None? then NoStrategy else MaskedAs(r.value.maskedText);
    }

    method ProcessExisting(rec: Record, payload: Text, opt: Options) returns (a: Answer)
      requires Valid()
      ensures OwnAnswer(env, rec, payload, opt, a)
    {
      if rec.hash == Sha256(payload) {
        return MaskedAs(rec.maskedText);
      }
      if !opt.unmask {
        a := MaskFreshResult(payload, opt);
        return;
      }
      var restored, misses := Restore(payload, rec.replacements);
      if misses >= |rec.replacements| {
        a := MaskFreshResult(payload, opt);
      } else {
        a := Unmasked(restored, misses);
      }
    }

    /** A whole Process call at one instant. The branches after a lost race cannot be reached
        this way; they are steps of the concurrent protocol. */
    method Process(id: Id, payload: Text, opt: Options, now: int) returns (a: Answer)
      requires Valid()
      modifies store
      ensures ProcessCall(env, Live(old(store.items), now), id, payload, opt, Live(store.items, now), a)
      ensures KeepsTime(old(store.items), store.items, id, now)
      ensures WritesOnly(old(store.items), store.items, id, opt.ttl, now)
    {
      var loaded := store.Load(id, now);
      if loaded.Some? {
        if !Owns(loaded.value, opt) {
          a := MaskFreshResult(payload, opt);
        } else {
          a := ProcessExisting(loaded.value, payload, opt);
        }
        return;
      }
      var written := MaskOnly(payload, opt);
      if written.None? {
        return NoStrategy;
      }
      var created := store.SaveNew(id, written.value, opt.ttl, now);
      assert created;
      return MaskedAs(written.value.maskedText);
    }

    method MaskEx(id: Id, text: Text, opt: Options, now: int) returns (r: MaskReply)
      requires Valid()
      modifies store
      ensures SingleCall(env, Live(old(store.items), now), id, text, opt, Live(store.items, now), r)
      ensures KeepsTime(old(store.items), store.items, id, now)
      ensures WritesOnly(old(store.items), store.items, id, opt.ttl, now)
    {
      var loaded := store.Load(id, now);
      if loaded.Some? {
        var rec := loaded.value;
        if !Owns(rec, opt) {
          return Foreign;
        }
        if rec.hash == Sha256(text) {
          return MaskedText(rec.maskedText);
        }
        if rec.maskedText == text {
          return LooksLikeUnmask;
        }
      }
      var written := MaskOnly(text, opt);
      if written.None? {
        return NotAble;
      }
      store.Save(id, written.value, opt.ttl, now);
      return MaskedText(written.value.maskedText);
    }

    /** Masks all texts of a batch; None when there is no strategy. */
    method MaskAllOnly(texts: seq<Text>, opt: Options) returns (r: Option<(seq<Text>, Record)>)
      requires Valid()
      ensures r.Some? <==> env.able
      ensures r.Some? ==> BatchRecord(env, texts, opt, r.value.0, r.value.1)
    {
      var strategy := ResolveStrategy(opt.strategy);
      if strategy.None? {
        return None;
      }
      var masked, allReps := MaskBatch(cfg, texts, opt, strategy.value);
      var maskedText := Join(masked);
      var text := Join(texts);
      var rec := Record(allReps, strategy.value.name, maskedText, Sha256(text), opt.systemId);
      return Some((masked, rec));
    }

    method MaskBatchEx(id: Id, texts: seq<Text>, opt: Options, now: int) returns (r: BatchReply)
      requires Valid()
      modifies store
      ensures BatchCall(env, Live(old(store.items), now), id, texts, opt, Live(store.items, now), r)
      ensures WritesOnly(old(store.items), store.items, id, opt.ttl, now)
    {
      var loaded := store.Load(id, now);
      if loaded.Some? && !Owns(loaded.value, opt) {
        return BatchForeign;
      }
      var written := MaskAllOnly(texts, opt);
      if written.None? {
        return BatchNotAble;
      }
      var (masked, rec) := written.value;
      store.Save(id, rec, opt.ttl, now);
      return MaskedTexts(masked);
    }

    method UnmaskEx(id: Id, masked: Text, opt: Options, now: int) returns (r: UnmaskReply)
      requires Valid()
      modifies store
      ensures UnmaskCall(Live(old(store.items), now), id, masked, opt, r)
      ensures Live(store.items, now) == Live(old(store.items), now)
    {
      var loaded := store.Load(id, now);
      if loaded.None? || !Owns(loaded.value, opt) {
        return NotFound;
      }
      var restored, misses := Restore(masked, loaded.value.replacements);
      return UnmaskedText(restored, misses);
    }

    /** One request of a run: a call of the interface, or a tick of the cleanup loop. */
    method Serve(c: Call, now: int) returns (o: Outcome)
      requires Valid()
      modifies store
      ensures Does(env, Live(old(store.items), now), c, Live(store.items, now), o)
    {
      match c
      case ProcessOp(id, payload, opt) =>
        var a := Process(id, payload, opt, now);
        o := Processed(a);
      case MaskOp(id, text, opt) =>
        var r := MaskEx(id, text, opt, now);
        o := Single(r);
      case BatchOp(id, texts, opt) =>
        var r := MaskBatchEx(id, texts, opt, now);
        o := Batch(r);
      case UnmaskOp(id, masked, opt) =>
        var r := UnmaskEx(id, masked, opt, now);
        o := Unmasking(r);
      case Elapse =>
        store.Cleanup(now);
        o := Tick;
    }
  }
}
