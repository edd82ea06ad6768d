// UploadMultipleParallel as a state machine: any number of overlapping calls, each an errgroup
// whose goroutines share one metadata table, one file store and one notification pipeline.
// A run is a sequence of events; the events carry every choice the environment can make, so a
// statement about all runs is a statement about all interleavings, faults and allocators.

module UploadProtocol {
  import opened Domain

  datatype Cause = Fault(code: int) | ContextDone

  datatype Call = CreateCall | SaveCall | CompleteCall

  datatype Failure = Failure(call: Call, cause: Cause)

  /** The reply to a database or pipeline call.  A call that reports an error may still have
      taken effect: the reply can be lost after the statement was committed. */
  datatype Reply = Ok | Err(cause: Cause, applied: bool) {
    predicate Applied() { Ok? || applied }
  }

  /** The reply to Save.  A successful Save can have stored something else than it was given (a
      local store loses a failing Close); a failed one may leave anything, or nothing new. */
  datatype SaveReply = SaveOk(stored: Bytes) | SaveErr(cause: Cause, left: Option<Bytes>)

  /** What a Save leaves under its name, if it writes at all. */
  function Left(o: SaveReply): Option<Bytes> {
    match o
    case SaveOk(stored) => Some(stored)
    case SaveErr(_, left) => left
  }

  // The program counter of one goroutine, from eg.Go to the end of errgroup's wrapper.
  datatype Phase =
    | Idle
    | Creating
    | Saving
    | Compensating(why: Failure)
    | Completing
    | Notifying
    | Returning(result: Option<Failure>)
    | Cancelling(why: Failure)
    | Finished(result: Option<Failure>)

  datatype SaveNote = NotTried | SaveFailed | Saved(stored: Bytes)

  // row and save record what this goroutine's calls did, whether or not it was told.
  datatype Worker = Worker(group: nat, file: File, phase: Phase, row: Option<int>, save: SaveNote)

  datatype Blame = Blame(worker: nat, failure: Failure)

  // errgroup's sync.Once: unused, its function running in one goroutine, or over.
  datatype Once = Unused | Busy(worker: nat) | Over

  datatype Verdict = Running | Returned(err: Option<Blame>)

  // One call of UploadMultipleParallel; its goroutines are workers first .. first + count.
  datatype Group = Group(
    tenant: string,
    first: nat,
    count: nat,
    spawned: nat,
    firstErr: Option<Blame>,
    once: Once,
    cancelled: bool,
    parentDone: bool,
    verdict: Verdict)
  {
    predicate CtxDone() { cancelled || parentDone }
  }

  datatype Note = Note(worker: nat, id: int, fileName: string, tenantId: string, status: TransferStatus)

  // lastId is the largest id handed out so far; owner remembers which goroutine's INSERT
  // produced a row.
  datatype System = System(
    table: Table,
    lastId: int,
    owner: map<int, nat>,
    store: map<string, Bytes>,
    notes: seq<Note>,
    hasPipeline: bool,
    workers: seq<Worker>,
    groups: seq<Group>)

  datatype Event =
    | Begin(tenant: string, files: seq<File>)
    | ParentDone(g: nat)
    | Spawn(g: nat)
    | Create(w: nat, id: int, now: int, reply: Reply)
    | Save(w: nat, outcome: SaveReply)
    | Compensate(w: nat, now: int, reply: Reply)
    | Complete(w: nat, now: int, reply: Reply)
    | Notify(w: nat, reply: Reply)
    | Report(w: nat)
    | Cancel(w: nat)
    | Join(g: nat)

  // ---------------------------------------------------------------------- when a step can happen

  predicate Live(s: System, w: nat) {
    w < |s.workers| && s.workers[w].group < |s.groups|
  }

  predicate At(s: System, w: nat, p: Phase) {
    Live(s, w) && s.workers[w].phase == p
  }

  function GroupOf(s: System, w: nat): Group
    requires Live(s, w)
  {
    s.groups[s.workers[w].group]
  }

  /** A call on a context can fail because the context is done only when it is done. */
  predicate Plausible(cause: Cause, ctxDone: bool) {
    cause.ContextDone? ==> ctxDone
  }

  predicate PlausibleReply(s: System, w: nat, r: Reply)
    requires Live(s, w)
  {
    r.Err? ==> Plausible(r.cause, GroupOf(s, w).CtxDone())
  }

  predicate AllFinished(s: System, g: nat) {
    forall w | 0 <= w < |s.workers| && s.workers[w].group == g :: s.workers[w].phase.Finished?
  }

  predicate Enabled(s: System, e: Event) {
    match e
    case Begin(_, _) => true
    case ParentDone(g) => g < |s.groups| && !s.groups[g].parentDone
    case Spawn(g) =>
      // The loop of eg.Go calls starts the goroutines in file order.
      && g < |s.groups|
      && s.groups[g].spawned < s.groups[g].count
      && At(s, s.groups[g].first + s.groups[g].spawned, Idle)
      && s.workers[s.groups[g].first + s.groups[g].spawned].group == g
    case Create(w, id, _, r) => At(s, w, Creating) && id !in s.table && PlausibleReply(s, w, r)
    case Save(w, SaveOk(_)) => At(s, w, Saving)
    case Save(w, SaveErr(c, _)) => At(s, w, Saving) && Plausible(c, GroupOf(s, w).CtxDone())
    case Compensate(w, _, r) =>
      // The rollback runs on context.Background(), which is never done.
      Live(s, w) && s.workers[w].phase.Compensating? && (r.Err? ==> Plausible(r.cause, false))
    case Complete(w, _, r) => At(s, w, Completing) && PlausibleReply(s, w, r)
    case Notify(w, r) => At(s, w, Notifying) && PlausibleReply(s, w, r)
    case Report(w) =>
      // Once.Do blocks while its function runs in another goroutine.
      && Live(s, w) && s.workers[w].phase.Returning?
      && (s.workers[w].phase.result.Some? ==> !GroupOf(s, w).once.Busy?)
    case Cancel(w) => Live(s, w) && s.workers[w].phase.Cancelling?
    case Join(g) =>
      && g < |s.groups|
      && s.groups[g].verdict.Running?
      && s.groups[g].spawned == s.groups[g].count
      && AllFinished(s, g)
  }

  // ---------------------------------------------------------------------------- what it changes

  datatype Put = Put(id: int, row: Row)

  datatype Write = Write(name: string, bytes: Bytes)

  // Everything one step changes: a new call; one group's record; or one goroutine, its group's
  // record, and at most one row, one stored file and one notification.
  datatype Effect =
    | Opened(tenant: string, files: seq<File>)
    | OnGroup(g: nat, group: Group)
    | OnWorker(
        w: nat,
        worker: Worker,
        group: Group,
        lastId: int,
        put: Option<Put>,
        write: Option<Write>,
        note: Option<Note>)

  function Goto(s: System, w: nat, p: Phase): Effect
    requires Live(s, w)
  {
    OnWorker(w, s.workers[w].(phase := p), GroupOf(s, w), s.lastId, None, None, None)
  }

  function MetaOf(s: System, w: nat): Metadata
    requires Live(s, w)
  {
    ToMetadata(s.workers[w].file, "parallel-upload", GroupOf(s, w).tenant).(status := Pending)
  }

  function Max(a: int, b: int): int {
    if a < b then b else a
  }

  function CreateEffect(s: System, w: nat, id: int, now: int, r: Reply): Effect
    requires Live(s, w)
  {
    var next := if r.Ok? then Saving else Returning(Some(Failure(CreateCall, r.cause)));
    if r.Applied() then
      Goto(s, w, next).(worker := s.workers[w].(phase := next, row := Some(id)), lastId := Max(s.lastId, id),
      put := Some(Put(id, NewRow(MetaOf(s, w), now))))
    else
      Goto(s, w, next).(lastId := Max(s.lastId, id))
  }

  function SaveEffect(s: System, w: nat, o: SaveReply): Effect
    requires Live(s, w)
  {
    var me := s.workers[w];
    match o
    case SaveOk(stored) =>
      Goto(s, w, Completing).(worker := me.(phase := Completing, save := Saved(stored)),
      write := Some(Write(me.file.name, stored)))
    case SaveErr(c, left) =>
      var next := Compensating(Failure(SaveCall, c));
      Goto(s, w, next).(worker := me.(phase := next, save := SaveFailed),
      write := if left.Some? then Some(Write(me.file.name, left.value)) else None)
  }

  /** UpdateStatus(meta.ID, status): an id without a row changes nothing. */
  function StatusPut(s: System, w: nat, status: TransferStatus, now: int): Option<Put>
    requires Live(s, w)
  {
    match s.workers[w].row
    case None => None
    case Some(id) => if id in s.table then Some(Put(id, Restamped(s.table[id], status, now))) else None
  }

  function CompleteEffect(s: System, w: nat, now: int, r: Reply): Effect
    requires Live(s, w)
  {
    var next := if r.Err? then Returning(Some(Failure(CompleteCall, r.cause)))
                else if s.hasPipeline then Notifying
                else Returning(None);
    Goto(s, w, next).(put := if r.Applied() then StatusPut(s, w, Completed, now) else None)
  }

  /** The payload is built from the goroutine's own record, whose Status nothing has changed. */
  function NotifyEffect(s: System, w: nat, r: Reply): Effect
    requires Live(s, w)
  {
    var m := MetaOf(s, w);
    Goto(s, w, Returning(None)).(
    note := match s.workers[w].row
            case Some(id) =>
              if r.Applied() then Some(Note(w, id, m.fileName, m.tenantId, m.status)) else None
            case None => None)
  }

  /** errgroup's wrapper: the first error is recorded, and only then is the context cancelled. */
  function ReportEffect(s: System, w: nat): Effect
    requires Enabled(s, Report(w))
  {
    match s.workers[w].phase.result
    case None => Goto(s, w, Finished(None))
    case Some(f) =>
      if GroupOf(s, w).once.Unused? then
        Goto(s, w, Cancelling(f)).(group := GroupOf(s, w).(once := Busy(w), firstErr := Some(Blame(w, f))))
      else Goto(s, w, Finished(Some(f)))
  }

  function EffectOf(s: System, e: Event): Effect
    requires Enabled(s, e)
  {
    match e
    case Begin(tenant, files) => Opened(tenant, files)
    case ParentDone(g) => OnGroup(g, s.groups[g].(parentDone := true))
    case Spawn(g) =>
      Goto(s, s.groups[g].first + s.groups[g].spawned, Creating).(
      group := s.groups[g].(spawned := s.groups[g].spawned + 1))
    case Create(w, id, now, r) => CreateEffect(s, w, id, now, r)
    case Save(w, o) => SaveEffect(s, w, o)
    case Compensate(w, now, r) =>
      Goto(s, w, Returning(Some(s.workers[w].phase.why))).(
      put := if r.Applied() then StatusPut(s, w, Failed, now) else None)
    case Complete(w, now, r) => CompleteEffect(s, w, now, r)
    case Notify(w, r) => NotifyEffect(s, w, r)
    case Report(w) => ReportEffect(s, w)
    case Cancel(w) =>
      Goto(s, w, Finished(Some(s.workers[w].phase.why))).(
      group := GroupOf(s, w).(once := Over, cancelled := true))
    case Join(g) => OnGroup(g, s.groups[g].(verdict := Returned(s.groups[g].firstErr), cancelled := true))
  }

  predicate Fits(s: System, f: Effect) {
    match f
    case Opened(_, _) => true
    case OnGroup(g, _) => g < |s.groups|
    case OnWorker(w, me, _, _, _, _, _) => w < |s.workers| && me.group < |s.groups|
  }

  function FreshWorkers(g: nat, files: seq<File>): (ws: seq<Worker>)
    ensures |ws| == |files|
    ensures forall i | 0 <= i < |ws| :: ws[i] == Worker(g, files[i], Idle, None, NotTried)
  {
    seq(|files|, i requires 0 <= i < |files| => Worker(g, files[i], Idle, None, NotTried))
  }

  function Patched(s: System, f: Effect): System
    requires Fits(s, f)
  {
    match f
    case Opened(tenant, files) =>
      s.(workers := s.workers + FreshWorkers(|s.groups|, files),
      groups := s.groups + [Group(tenant, |s.workers|, |files|, 0, None, Unused, false, false, Running)])
    case OnGroup(g, grp) => s.(groups := s.groups[g := grp])
    case OnWorker(w, me, grp, lastId, put, write, note) =>
      System(
        if put.Some? then s.table[put.value.id := put.value.row] else s.table,
        lastId,
        if put.Some? then s.owner[put.value.id := w] else s.owner,
        if write.Some? then s.store[write.value.name := write.value.bytes] else s.store,
        if note.Some? then s.notes + [note.value] else s.notes,
        s.hasPipeline,
        s.workers[w := me],
        s.groups[me.group := grp])
  }

  function Apply(s: System, e: Event): System
    requires Enabled(s, e)
  {
    Patched(s, EffectOf(s, e))
  }

  // ----------------------------------------------------------------------------------- runs

  /** The state after the events es, if each was enabled when it happened. */
  ghost function Run(s: System, es: seq<Event>): Option<System>
    decreases |es|
  {
    if es == [] then Some(s) else
    var k := |es| - 1;
    match Run(s, es[..k])
    case None => None
    case Some(t) => if Enabled(t, es[k]) then Some(Apply(t, es[k])) else None
  }

  ghost predicate Valid(s: System, es: seq<Event>) {
    Run(s, es).Some?
  }

  ghost function Exec(s: System, es: seq<Event>): System
    requires Valid(s, es)
  {
    Run(s, es).value
  }

  lemma Extend(s: System, es: seq<Event>, e: Event)
    requires Valid(s, es) && Enabled(Exec(s, es), e)
    ensures Valid(s, es + [e]) && Exec(s, es + [e]) == Apply(Exec(s, es), e)
  {
    assert (es + [e])[..|es|] == es;
  }

  /** Before any parallel upload: the table, the store and the id sequence are arbitrary. */
  ghost predicate Initial(s: System) {
    && s.workers == [] && s.groups == [] && s.notes == [] && s.owner == map[]
    && (forall id | id in s.table :: id <= s.lastId)
  }

  lemma {:induction false} Prefix(s: System, es: seq<Event>, k: nat)
    requires Valid(s, es) && k <= |es|
    ensures Valid(s, es[..k])
    ensures k < |es| ==>
              && Enabled(Exec(s, es[..k]), es[k])
              && Valid(s, es[..k + 1])
              && Exec(s, es[..k + 1]) == Apply(Exec(s, es[..k]), es[k])
    decreases |es|
  {
    if k == |es| {
      assert es[..k] == es;
    } else if k + 1 == |es| {
      assert es[..k + 1] == es;
    } else {
      var n := |es| - 1;
      Prefix(s, es[..n], k);
      assert es[..n][..k] == es[..k] && es[..n][..k + 1] == es[..k + 1];
    }
  }
}
