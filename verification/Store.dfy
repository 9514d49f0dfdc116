/** The in-memory record store, and the plain map with expiries that it amounts to. */
module Store {
  import opened Bytes
  import opened Splicing

  /** An ideal hash: equal digests come from equal texts. */
  datatype Digest = Sha256(preimage: Text)

  datatype Record = Record(replacements: seq<Replacement>, strategy: Text, maskedText: Text, hash: Digest, systemId: Text)

  type Id = Text

  /** `expiry` is None for a record that never expires. */
  datatype Entry = Entry(record: Record, expiry: Option<int>)

  type Items = map<Id, Entry>

  predicate Expired(e: Entry, now: int) {
    e.expiry.Some? && now > e.expiry.value
  }

  function ExpiryFor(ttl: int, now: int): Option<int> {
    if ttl <= 0 then None else Some(now + ttl)
  }

  /** The records a reader sees at a given time. */
  function Live(items: Items, now: int): map<Id, Record> {
    map id | id in items && !Expired(items[id], now) :: items[id].record
  }

  /** The store, its clock read by the caller. Records are kept as they are, not encrypted. */
  class Memory {
    var items: Items

    constructor ()
      ensures items == map[]
    {
      items := map[];
    }

    method Save(id: Id, rec: Record, ttl: int, now: int)
      modifies this
      ensures items == old(items)[id := Entry(rec, ExpiryFor(ttl, now))]
      ensures Live(items, now) == Live(old(items), now)[id := rec]
    {
      items := items[id := Entry(rec, ExpiryFor(ttl, now))];
    }

    method SaveNew(id: Id, rec: Record, ttl: int, now: int) returns (created: bool)
      modifies this
      ensures created <==> id !in Live(old(items), now)
      ensures items == if created then old(items)[id := Entry(rec, ExpiryFor(ttl, now))] else old(items)
      ensures Live(items, now) == if created then Live(old(items), now)[id := rec] else Live(old(items), now)
    {
      if id in items && !Expired(items[id], now) {
        return false;
      }
      items := items[id := Entry(rec, ExpiryFor(ttl, now))];
      return true;
    }

    /** An expired entry is deleted on the way. */
    method Load(id: Id, now: int) returns (r: Option<Record>)
      modifies this
      ensures r == if id in Live(old(items), now) then Some(Live(old(items), now)[id]) else None
      ensures items == if id in old(items) && Expired(old(items)[id], now) then old(items) - {id} else old(items)
      ensures Live(items, now) == Live(old(items), now)
    {
      if id !in items {
        return None;
      }
      if Expired(items[id], now) {
        items := items - {id};
        return None;
      }
      return Some(items[id].record);
    }

    method Delete(id: Id)
      modifies this
      ensures items == old(items) - {id}
    {
      items := items - {id};
    }

    /** One tick of the cleanup loop. */
    method Cleanup(now: int)
      modifies this
      ensures items == map id | id in old(items) && !Expired(old(items)[id], now) :: old(items)[id]
      ensures forall t :: now <= t ==> Live(items, t) == Live(old(items), t)
    {
      var ids := items.Keys;
      while ids != {}
        invariant ids <= old(items).Keys
        invariant forall id :: id in items <==> id in old(items) && (id in ids || !Expired(old(items)[id], now))
        invariant forall id :: id in items ==> items[id] == old(items)[id]
        decreases ids
      {
        var id :| id in ids;
        if Expired(items[id], now) {
          items := items - {id};
        }
        ids := ids - {id};
      }
    }
  }

  // ---------------------------------------------------------------- whole runs

  datatype Op =
    | SaveOp(id: Id, rec: Record, ttl: int)
    | SaveNewOp(id: Id, rec: Record, ttl: int)
    | LoadOp(id: Id)
    | DeleteOp(id: Id)
    | CleanupOp

  datatype Reply = Done | Created(created: bool) | Found(rec: Option<Record>)

  datatype Event = Event(now: int, op: Op)

  /** What the store does, operation by operation. */
  function MemoryItems(items: Items, e: Event): Items {
    match e.op
    case SaveOp(id, rec, ttl) => items[id := Entry(rec, ExpiryFor(ttl, e.now))]
    case SaveNewOp(id, rec, ttl) =>
      if id in items && !Expired(items[id], e.now) then items else items[id := Entry(rec, ExpiryFor(ttl, e.now))]
    case LoadOp(id) => if id in items && Expired(items[id], e.now) then items - {id} else items
    case DeleteOp(id) => items - {id}
    case CleanupOp => map id | id in items && !Expired(items[id], e.now) :: items[id]
  }

  /** The plain map: last write wins, nothing expired is ever removed. */
  function PlainItems(items: Items, e: Event): Items {
    match e.op
    case SaveOp(id, rec, ttl) => items[id := Entry(rec, ExpiryFor(ttl, e.now))]
    case SaveNewOp(id, rec, ttl) =>
      if id in Live(items, e.now) then items else items[id := Entry(rec, ExpiryFor(ttl, e.now))]
    case LoadOp(id) => items
    case DeleteOp(id) => items - {id}
    case CleanupOp => items
  }

  function ReplyOf(items: Items, e: Event): Reply {
    match e.op
    case SaveOp(_, _, _) => Done
    case SaveNewOp(id, _, _) => Created(id !in Live(items, e.now))
    case LoadOp(id) => Found(if id in Live(items, e.now) then Some(Live(items, e.now)[id]) else None)
    case DeleteOp(_) => Done
    case CleanupOp => Done
  }

  /** Runs one event on the class itself. */
  method Perform(m: Memory, e: Event) returns (reply: Reply)
    modifies m
    ensures m.items == MemoryItems(old(m.items), e) && reply == ReplyOf(old(m.items), e)
  {
    match e.op
    case SaveOp(id, rec, ttl) =>
      m.Save(id, rec, ttl, e.now);
      reply := Done;
    case SaveNewOp(id, rec, ttl) =>
      var created := m.SaveNew(id, rec, ttl, e.now);
      reply := Created(created);
    case LoadOp(id) =>
      var r := m.Load(id, e.now);
      reply := Found(r);
    case DeleteOp(id) =>
      m.Delete(id);
      reply := Done;
    case CleanupOp =>
      m.Cleanup(e.now);
      reply := Done;
  }

  /** From `now` on no reader can tell the two apart. */
  ghost predicate Agree(memory: Items, plain: Items, now: int) {
    forall id, t :: t >= now ==> ((id in Live(memory, t) <==> id in Live(plain, t))
                                  && (id in Live(memory, t) ==> memory[id] == plain[id]))
  }

  lemma EventKeepsAgreement(memory: Items, plain: Items, before: int, e: Event)
    requires Agree(memory, plain, before) && before <= e.now
    ensures ReplyOf(memory, e) == ReplyOf(plain, e)
    ensures Agree(MemoryItems(memory, e), PlainItems(plain, e), e.now)
  {
    if e.op.SaveNewOp? || e.op.LoadOp? {
      assert e.op.id in Live(memory, e.now) <==> e.op.id in Live(plain, e.now);
    }
  }

  function MemoryReplies(items: Items, events: seq<Event>): seq<Reply>
    decreases |events|
  {
    if events == [] then []
    else [ReplyOf(items, events[0])] + MemoryReplies(MemoryItems(items, events[0]), events[1..])
  }

  function PlainReplies(items: Items, events: seq<Event>): seq<Reply>
    decreases |events|
  {
    if events == [] then []
    else [ReplyOf(items, events[0])] + PlainReplies(PlainItems(items, events[0]), events[1..])
  }

  ghost predicate ClockRuns(events: seq<Event>, now: int) {
    && (forall i :: 0 <= i < |events| ==> now <= events[i].now)
    && (forall i, j :: 0 <= i < j < |events| ==> events[i].now <= events[j].now)
  }

  /** Over any run with a clock that does not go back the store answers like the plain map:
      cleanup and lazy deletes are invisible, SaveNew succeeds exactly when nothing live is there. */
  lemma {:induction false} MemoryIsPlainMap(memory: Items, plain: Items, events: seq<Event>, now: int)
    requires Agree(memory, plain, now) && ClockRuns(events, now)
    ensures MemoryReplies(memory, events) == PlainReplies(plain, events)
    decreases |events|
  {
    if events != [] {
      EventKeepsAgreement(memory, plain, now, events[0]);
      MemoryIsPlainMap(MemoryItems(memory, events[0]), PlainItems(plain, events[0]), events[1..], events[0].now);
    }
  }

  /** As time passes records only leave sight; none appears or changes. */
  lemma TimeOnlyExpires(items: Items, now: int, later: int)
    requires now <= later
    ensures forall id :: id in Live(items, later) ==> id in Live(items, now) && Live(items, now)[id] == Live(items, later)[id]
  {}

  // ---------------------------------------------------------------- how long a record lives

  /** The operation may write or remove the record of the id. */
  predicate Touches(op: Op, id: Id) {
    !op.LoadOp? && !op.CleanupOp? && op.id == id
  }

  /** Readers find the record up to its last moment, and nothing afterwards. */
  ghost predicate LivesUntil(items: Items, id: Id, rec: Record, ttl: int, saved: int, now: int) {
    forall t :: now <= t ==>
      && (id in Live(items, t) <==> ttl <= 0 || t <= saved + ttl)
      && (id in Live(items, t) ==> Live(items, t)[id] == rec)
  }

  function ItemsAfter(items: Items, events: seq<Event>): Items
    decreases |events|
  {
    if events == [] then items else ItemsAfter(MemoryItems(items, events[0]), events[1..])
  }

  lemma EventLeavesAlone(items: Items, id: Id, rec: Record, ttl: int, saved: int, e: Event, now: int)
    requires LivesUntil(items, id, rec, ttl, saved, now) && now <= e.now && !Touches(e.op, id)
    ensures LivesUntil(MemoryItems(items, e), id, rec, ttl, saved, e.now)
  {
    var items' := MemoryItems(items, e);
    assert id in Live(items, e.now) <==> ttl <= 0 || e.now <= saved + ttl;
    forall t | e.now <= t
      ensures id in Live(items', t) <==> ttl <= 0 || t <= saved + ttl
      ensures id in Live(items', t) ==> Live(items', t)[id] == rec
    {
      assert id in Live(items, t) <==> ttl <= 0 || t <= saved + ttl;
    }
  }

  lemma {:induction false} LeftAlone(items: Items, id: Id, rec: Record, ttl: int, saved: int, events: seq<Event>, now: int)
    requires LivesUntil(items, id, rec, ttl, saved, now) && ClockRuns(events, now)
    requires forall i :: 0 <= i < |events| ==> !Touches(events[i].op, id)
    ensures LivesUntil(ItemsAfter(items, events), id, rec, ttl, saved, if events == [] then now else events[|events| - 1].now)
    decreases |events|
  {
    if events != [] {
      var e := events[0];
      EventLeavesAlone(items, id, rec, ttl, saved, e, now);
      assert forall i :: 0 <= i < |events[1..]| ==> events[1..][i] == events[i + 1];
      LeftAlone(MemoryItems(items, e), id, rec, ttl, saved, events[1..], e.now);
    }
  }

  /** A saved record is found at `t` exactly when it has no TTL or the TTL has not run out, whatever
      happened to other ids in between. */
  lemma SavedIsFound(items: Items, id: Id, rec: Record, ttl: int, now: int, events: seq<Event>, t: int)
    requires ClockRuns(events, now) && now <= t && forall i :: 0 <= i < |events| ==> !Touches(events[i].op, id) && events[i].now <= t
    ensures ReplyOf(ItemsAfter(MemoryItems(items, Event(now, SaveOp(id, rec, ttl))), events), Event(t, LoadOp(id)))
         == Found(if ttl <= 0 || t <= now + ttl then Some(rec) else None)
    ensures id !in Live(items, now) ==>
              ReplyOf(ItemsAfter(MemoryItems(items, Event(now, SaveNewOp(id, rec, ttl))), events), Event(t, LoadOp(id)))
              == Found(if ttl <= 0 || t <= now + ttl then Some(rec) else None)
  {
    var items' := MemoryItems(items, Event(now, SaveOp(id, rec, ttl)));
    assert id !in Live(items, now) ==> MemoryItems(items, Event(now, SaveNewOp(id, rec, ttl))) == items';
    LeftAlone(items', id, rec, ttl, now, events, now);
  }

  /** A live record that stays the same keeps its expiry. */
  ghost predicate KeepsTime(before: Items, after: Items, id: Id, now: int) {
    id in Live(before, now) && id in after && after[id].record == before[id].record ==> after[id] == before[id]
  }

  /** Entries after a call that may write under one id: that one is new and expires with the TTL, all
      others are as before. */
  ghost predicate WritesOnly(before: Items, after: Items, id: Id, ttl: int, now: int) {
    && (forall k :: k in after ==>
          || (k in before && after[k] == before[k])
          || (k == id && after[k].expiry == if ttl <= 0 then None else Some(now + ttl)))
    && forall k :: k in before && k != id ==> k in after
  }
}
