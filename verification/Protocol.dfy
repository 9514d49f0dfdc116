/** Any number of Process calls at once, split into their accesses to the store. Records are
    neither deleted nor do they expire meanwhile. */
module Protocol {
  import opened Bytes
  import opened Store
  import opened Masking
  import opened Calls

  type TaskId = nat

  datatype Stage =
    | Loading
    | Saving(rec: Record)
    | Reloading(rec: Record)
    | FallingBack(rec: Record)
    | Finished(a: Answer)

  datatype Task = Task(id: Id, payload: Text, opt: Options, stage: Stage)

  /** `saved` lists the ids of the successful SaveNew steps, in order. */
  datatype World = World(store: map<Id, Record>, tasks: map<TaskId, Task>, saved: seq<Id>)

  function At(w: World, c: TaskId, stage: Stage): World
    requires c in w.tasks
  {
    w.(tasks := w.tasks[c := w.tasks[c].(stage := stage)])
  }

  // ---------------------------------------------------------------- steps

  ghost predicate Begins(w: World, c: TaskId, w': World) {
    && c !in w.tasks
    && exists id, payload, opt :: w' == w.(tasks := w.tasks[c := Task(id, payload, opt, Loading)])
  }

  /** The first Load, and the masking that follows a miss. */
  ghost predicate Loads(env: Env, w: World, c: TaskId, w': World) {
    && c in w.tasks && w.tasks[c].stage == Loading
    && var t := w.tasks[c];
       if t.id in w.store then exists a :: AnswersOn(env, w.store[t.id], t.payload, t.opt, a) && w' == At(w, c, Finished(a))
       else if !env.able then w' == At(w, c, Finished(NoStrategy))
       else exists rec :: NewRecord(env, t.payload, t.opt, rec) && w' == At(w, c, Saving(rec))
  }

  ghost predicate SavesNew(w: World, c: TaskId, w': World) {
    && c in w.tasks && w.tasks[c].stage.Saving?
    && var t, rec := w.tasks[c], w.tasks[c].stage.rec;
       if t.id in w.store then w' == At(w, c, Reloading(rec))
       else w' == At(w, c, Finished(MaskedAs(rec.maskedText))).(store := w.store[t.id := rec], saved := w.saved + [t.id])
  }

  /** The Load after a lost race. */
  ghost predicate Reloads(env: Env, w: World, c: TaskId, w': World) {
    && c in w.tasks && w.tasks[c].stage.Reloading?
    && var t := w.tasks[c];
       if t.id in w.store then exists a :: AnswersOn(env, w.store[t.id], t.payload, t.opt, a) && w' == At(w, c, Finished(a))
       else w' == At(w, c, FallingBack(t.stage.rec))
  }

  /** The plain Save when the winner's record is gone. */
  ghost predicate FallsBack(w: World, c: TaskId, w': World) {
    && c in w.tasks && w.tasks[c].stage.FallingBack?
    && var t, rec := w.tasks[c], w.tasks[c].stage.rec;
       w' == At(w, c, Finished(MaskedAs(rec.maskedText))).(store := w.store[t.id := rec])
  }

  ghost predicate Moves(env: Env, w: World, c: TaskId, w': World) {
    || Begins(w, c, w')
    || Loads(env, w, c, w')
    || SavesNew(w, c, w')
    || Reloads(env, w, c, w')
    || FallsBack(w, c, w')
  }

  /** A run from given records, in any interleaving: at each point some task moves. */
  ghost predicate Interleaving(env: Env, init: map<Id, Record>, run: seq<World>, who: seq<TaskId>) {
    && |run| == |who| + 1
    && run[0] == World(init, map[], [])
    && forall i {:trigger who[i]} :: 0 <= i < |who| ==> Moves(env, run[i], who[i], run[i + 1])
  }

  // ---------------------------------------------------------------- the invariant

  /** A finished call agrees with the one record of its id. A caller without a name does not
      own the record it wrote, but got that record's mask. */
  ghost predicate Settled(env: Env, store: map<Id, Record>, t: Task, a: Answer) {
    if t.id in store then
      || AnswersOn(env, store[t.id], t.payload, t.opt, a)
      || (t.opt.systemId == [] && store[t.id].hash == Sha256(t.payload) && a == MaskedAs(store[t.id].maskedText))
    else a == NoStrategy && !env.able
  }

  ghost predicate TaskInv(env: Env, store: map<Id, Record>, t: Task) {
    match t.stage
    case Loading => true
    case Saving(rec) => env.able && NewRecord(env, t.payload, t.opt, rec)
    case Reloading(rec) => env.able && t.id in store
    case FallingBack(rec) => false
    case Finished(a) => Settled(env, store, t, a)
  }

  ghost predicate TasksInv(env: Env, w: World) {
    forall c :: c in w.tasks ==> TaskInv(env, w.store, w.tasks[c])
  }

  ghost predicate Written(env: Env, rec: Record) {
    exists payload, opt :: NewRecord(env, payload, opt, rec)
  }

  /** Each id was saved at most once, and only where the run began without a record. */
  ghost predicate StoreInv(env: Env, init: map<Id, Record>, w: World) {
    && (forall i, j :: 0 <= i < j < |w.saved| ==> w.saved[i] != w.saved[j])
    && (forall id :: id in w.saved ==> id !in init && id in w.store && Written(env, w.store[id]))
    && (forall id :: id in w.store ==> (id in init && w.store[id] == init[id]) || id in w.saved)
    && (forall id :: id in init ==> id in w.store)
  }

  /** Records are added, never changed or removed. */
  ghost predicate Grows(store: map<Id, Record>, store': map<Id, Record>) {
    forall id :: id in store ==> id in store' && store'[id] == store[id]
  }

  lemma MovesGrow(env: Env, w: World, c: TaskId, w': World)
    requires TasksInv(env, w) && Moves(env, w, c, w')
    ensures Grows(w.store, w'.store)
    ensures w'.store == w.store || env.able
    ensures forall d :: d in w.tasks && d != c ==> d in w'.tasks && w'.tasks[d] == w.tasks[d]
    ensures forall d :: d in w'.tasks ==> d == c || d in w.tasks
  {
    if c in w.tasks {
      assert TaskInv(env, w.store, w.tasks[c]);
    }
  }

  lemma TaskInvGrows(env: Env, store: map<Id, Record>, store': map<Id, Record>, t: Task)
    requires TaskInv(env, store, t) && Grows(store, store') && (store' == store || env.able)
    ensures TaskInv(env, store', t)
  {}

  lemma MoverKeepsInv(env: Env, w: World, c: TaskId, w': World)
    requires TasksInv(env, w) && Moves(env, w, c, w')
    ensures c in w'.tasks && TaskInv(env, w'.store, w'.tasks[c])
  {
    if c in w.tasks {
      assert TaskInv(env, w.store, w.tasks[c]);
      if SavesNew(w, c, w') && w.tasks[c].id !in w.store {
        WriterOwns(env, w.tasks[c].payload, w.tasks[c].opt, w.tasks[c].stage.rec);
      }
    }
  }

  lemma MovesKeepTasks(env: Env, w: World, c: TaskId, w': World)
    requires TasksInv(env, w) && Moves(env, w, c, w')
    ensures TasksInv(env, w')
  {
    MovesGrow(env, w, c, w');
    MoverKeepsInv(env, w, c, w');
    forall d | d in w'.tasks ensures TaskInv(env, w'.store, w'.tasks[d]) {
      if d != c {
        assert TaskInv(env, w.store, w.tasks[d]);
        TaskInvGrows(env, w.store, w'.store, w.tasks[d]);
      }
    }
  }

  lemma MovesKeepStore(env: Env, init: map<Id, Record>, w: World, c: TaskId, w': World)
    requires TasksInv(env, w) && StoreInv(env, init, w) && Moves(env, w, c, w')
    ensures StoreInv(env, init, w')
  {
    if c in w.tasks {
      assert TaskInv(env, w.store, w.tasks[c]);
      if w'.store != w.store {
        var t := w.tasks[c];
        assert SavesNew(w, c, w') && w'.saved == w.saved + [t.id];
        assert Written(env, t.stage.rec);
        assert t.id !in w.saved;
      }
    }
  }

  lemma {:induction false} RunKeepsInv(env: Env, init: map<Id, Record>, run: seq<World>, who: seq<TaskId>, n: nat)
    requires Interleaving(env, init, run, who) && n < |run|
    ensures TasksInv(env, run[n]) && StoreInv(env, init, run[n])
  {
    if n > 0 {
      RunKeepsInv(env, init, run, who, n - 1);
      assert Moves(env, run[n - 1], who[n - 1], run[n]);
      MovesKeepTasks(env, run[n - 1], who[n - 1], run[n]);
      MovesKeepStore(env, init, run[n - 1], who[n - 1], run[n]);
    }
  }

  // ---------------------------------------------------------------- safety

  /** Once written, a record never changes. */
  lemma {:induction false} RecordNeverChanges(env: Env, init: map<Id, Record>, run: seq<World>, who: seq<TaskId>, m: nat, n: nat)
    requires Interleaving(env, init, run, who) && m <= n < |run|
    ensures Grows(run[m].store, run[n].store)
    decreases n
  {
    if m < n {
      RecordNeverChanges(env, init, run, who, m, n - 1);
      RunKeepsInv(env, init, run, who, n - 1);
      assert Moves(env, run[n - 1], who[n - 1], run[n]);
      MovesGrow(env, run[n - 1], who[n - 1], run[n]);
    }
  }

  /** First write wins, in every interleaving of any calls by any systems: at most one SaveNew
      per id succeeds and none where a record already was, and the plain-Save fallback is
      never reached. */
  lemma FirstWriteWins(env: Env, init: map<Id, Record>, run: seq<World>, who: seq<TaskId>, n: nat)
    requires Interleaving(env, init, run, who) && n < |run|
    ensures forall i, j :: 0 <= i < j < |run[n].saved| ==> run[n].saved[i] != run[n].saved[j]
    ensures forall id :: id in run[n].saved ==> id !in init
    ensures forall c :: c in run[n].tasks ==> !run[n].tasks[c].stage.FallingBack?
  {
    RunKeepsInv(env, init, run, who, n);
    forall c | c in run[n].tasks ensures !run[n].tasks[c].stage.FallingBack? {
      assert TaskInv(env, run[n].store, run[n].tasks[c]);
    }
  }

  /** Every completed call, whenever it completed, has answered what the sequential
      specification allows on the one record its id has at any later point. */
  lemma CompletedCallsAgree(env: Env, init: map<Id, Record>, run: seq<World>, who: seq<TaskId>, n: nat, c: TaskId)
    requires Interleaving(env, init, run, who) && n < |run|
    requires c in run[n].tasks && run[n].tasks[c].stage.Finished?
    ensures Settled(env, run[n].store, run[n].tasks[c], run[n].tasks[c].stage.a)
    ensures run[n].tasks[c].opt.systemId != [] && run[n].tasks[c].id in run[n].store ==>
              AnswersOn(env, run[n].store[run[n].tasks[c].id], run[n].tasks[c].payload, run[n].tasks[c].opt, run[n].tasks[c].stage.a)
  {
    RunKeepsInv(env, init, run, who, n);
    assert TaskInv(env, run[n].store, run[n].tasks[c]);
  }

  /** Round trip under concurrency: of two completed calls on an id first written in this run,
      one whose text is the text recorded and one whose text is the recorded mask, the owner
      asking the second with Unmask on gets the first's text. */
  lemma ConcurrentRoundTrip(env: Env, init: map<Id, Record>, run: seq<World>, who: seq<TaskId>, n: nat, c: TaskId, t: Text)
    requires Undoable(env) && Interleaving(env, init, run, who) && n < |run|
    requires c in run[n].tasks && run[n].tasks[c].stage.Finished?
    requires var task := run[n].tasks[c];
             && task.id in run[n].saved && task.id in run[n].store
             && run[n].store[task.id].hash == Sha256(t) && run[n].store[task.id].maskedText == task.payload
             && Owns(run[n].store[task.id], task.opt) && task.opt.systemId != [] && task.opt.unmask
    ensures run[n].tasks[c].stage.a == if run[n].tasks[c].payload == t then MaskedAs(t) else Unmasked(t, 0)
  {
    RunKeepsInv(env, init, run, who, n);
    CompletedCallsAgree(env, init, run, who, n, c);
    var task := run[n].tasks[c];
    var rec := run[n].store[task.id];
    assert Written(env, rec);
    var payload, opt :| NewRecord(env, payload, opt, rec);
    assert payload == t;
    OwnMaskGivesText(env, t, opt, rec, task.opt, task.stage.a);
  }

  /** The steps of one call with nothing in between are a Process call as a whole. */
  lemma StepsMakeACall(env: Env, w: World, c: TaskId, w1: World, w2: World)
    requires Loads(env, w, c, w1)
    requires if w1.tasks[c].stage.Finished? then w2 == w1 else SavesNew(w1, c, w2)
    ensures c in w2.tasks && w2.tasks[c].stage.Finished?
    ensures ProcessCall(env, w.store, w.tasks[c].id, w.tasks[c].payload, w.tasks[c].opt, w2.store, w2.tasks[c].stage.a)
  {}
}
