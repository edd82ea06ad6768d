// GRPCFileHandler.UploadFile: the chunk pump, the local store's Save and the parallel upload
// running together, among any number of other uploads.

module UploadHandler {
  import opened Domain
  import opened UploadProtocol
  import opened UploadInvariants
  import opened UploadGuarantees
  import Pump = ChunkPump
  import Store = LocalStore

  /** The first message of the stream: GetMetadata is nil for a message that carries a chunk. */
  datatype FirstMessage = NoMetadata | Metadata(filename: string, tenantId: string, expectedSize: int)

  predicate Admitted(m: FirstMessage) {
    m.Metadata? && m.filename != "" && m.tenantId != "" && ValidFile(m.filename, m.expectedSize)
  }

  datatype Reply = NoReply | Success | Internal

  // w is the goroutine of this upload, g its errgroup; disk is how the local store behaved
  // during its Save, once that Save has ended.
  datatype Handler = Handler(
    pump: Pump.Pump,
    sys: System,
    g: nat,
    w: nat,
    disk: Option<Store.Disk>,
    reply: Reply)

  datatype Step =
    | OfPump(p: Pump.Event)
    | OfSystem(e: Event)
    | EndSave(d: Store.Disk)
    | SendReply

  function FileOf(m: FirstMessage): File
    requires Admitted(m)
  {
    File(m.filename, m.expectedSize, Pipe)
  }

  /** After the first message was admitted: the pump runs, and the upload call has begun. */
  function Started(s: System, m: FirstMessage): Handler
    requires Admitted(m)
  {
    Handler(Pump.START, Apply(s, Begin(m.tenantId, [FileOf(m)])), |s.groups|, |s.workers|, None, NoReply)
  }

  /** What Save replies to the goroutine, given what the pipe has delivered. */
  function SaveReplyOf(answers: seq<Store.Read>, d: Store.Disk): SaveReply {
    if !d.canCreate then SaveErr(Fault(-1), None)
    else
      var stored := Store.Stored(Store.Written(answers, d.room), d);
      match Store.CopyOutcome(answers, d.room)
      case Copied => SaveOk(stored)
      case ReadFailed(c) => SaveErr(Fault(c), Some(stored))
      case _ => SaveErr(Fault(-2), Some(stored))
  }

  predicate Reads(p: Pump.Event) {
    p.Transfer? || p.ReadEnd?
  }

  predicate CanStep(h: Handler, x: Step) {
    match x
    case OfPump(p) => Pump.Enabled(h.pump, p) && !p.Stop? && (Reads(p) ==> At(h.sys, h.w, Saving))
    case OfSystem(e) => Enabled(h.sys, e) && !(e.Save? && e.w == h.w)
    case EndSave(d) =>
      && At(h.sys, h.w, Saving) && !h.pump.stopped
      && (if d.canCreate then Store.CopyOutcome(h.pump.answers, d.room) != Store.Unfinished
          else h.pump.answers == [])
      && Enabled(h.sys, Save(h.w, SaveReplyOf(h.pump.answers, d)))
    case SendReply => h.reply.NoReply? && h.g < |h.sys.groups| && h.sys.groups[h.g].verdict.Returned?
  }

  function Next(h: Handler, x: Step): Handler
    requires CanStep(h, x)
  {
    match x
    case OfPump(p) => h.(pump := Pump.Apply(h.pump, p))
    case OfSystem(e) => h.(sys := Apply(h.sys, e))
    case EndSave(d) =>
      h.(sys := Apply(h.sys, Save(h.w, SaveReplyOf(h.pump.answers, d))),
      pump := h.pump.(stopped := true),
      disk := Some(d))
    case SendReply => h.(reply := if h.sys.groups[h.g].verdict.err.None? then Success else Internal)
  }

  ghost function Run(h: Handler, xs: seq<Step>): Option<Handler>
    decreases |xs|
  {
    if xs == [] then Some(h) else
    var k := |xs| - 1;
    match Run(h, xs[..k])
    case None => None
    case Some(i) => if CanStep(i, xs[k]) then Some(Next(i, xs[k])) else None
  }

  // ---------------------------------------------------------------------------- the invariant

  ghost predicate SaveMatches(h: Handler, me: Worker) {
    && (me.save.NotTried? <==> h.disk.None?)
    && (h.disk.Some? <==> h.pump.stopped)
    && (me.save.Saved? && h.disk.Some? ==>
          && h.disk.value.canCreate
          && Store.CopyOutcome(h.pump.answers, h.disk.value.room) == Store.Copied
          && me.save.stored == Store.Stored(Store.Written(h.pump.answers, h.disk.value.room), h.disk.value))
  }

  ghost predicate Ok(h: Handler, m: FirstMessage) {
    && Admitted(m)
    && Inv(h.sys) && Pump.PumpOk(h.pump)
    && h.w < |h.sys.workers| && h.g < |h.sys.groups|
    && h.sys.workers[h.w].file == FileOf(m) && h.sys.workers[h.w].group == h.g
    && h.sys.groups[h.g].first == h.w && h.sys.groups[h.g].count == 1
    && SaveMatches(h, h.sys.workers[h.w])
    && (!h.reply.NoReply? ==> h.sys.groups[h.g].verdict.Returned?)
    && (h.reply.Success? ==> h.sys.groups[h.g].verdict.err.None?)
    && (h.reply.Internal? ==> h.sys.groups[h.g].verdict.err.Some?)
  }

  lemma StartedOk(s: System, m: FirstMessage)
    requires Admitted(m) && Inv(s)
    ensures Ok(Started(s, m), m)
  {
    var e := Begin(m.tenantId, [FileOf(m)]);
    StepKeepsInv(s, e);
    assert Apply(s, e).workers[|s.workers|] == Worker(|s.groups|, FileOf(m), Idle, None, NotTried);
  }

  /** A step of the system that is not this goroutine's Save leaves its save note alone. */
  lemma OtherStepKeeps(s: System, e: Event, w: nat, g: nat)
    requires Enabled(s, e) && w < |s.workers| && g < |s.groups| && !(e.Save? && e.w == w) && WorkerOk(s, w)
    ensures w < |Apply(s, e).workers| && g < |Apply(s, e).groups|
    ensures var me, me' := s.workers[w], Apply(s, e).workers[w];
            me'.save == me.save && me'.file == me.file && me'.group == me.group
  {
    WorkerAfter(s, e, w);
  }

  lemma GroupPlaceKept(s: System, e: Event, g: nat)
    requires Enabled(s, e) && g < |s.groups|
    ensures g < |Apply(s, e).groups|
    ensures Apply(s, e).groups[g].first == s.groups[g].first && Apply(s, e).groups[g].count == s.groups[g].count
  {
    assert g < |Apply(s, e).groups|;
  }

  lemma WorkerKeepsGroup(s: System, e: Event)
    requires Enabled(s, e) && EffectOf(s, e).OnWorker?
    ensures EffectOf(s, e).worker.group == s.workers[EffectOf(s, e).w].group
  {
  }

  lemma VerdictKept(s: System, e: Event, g: nat)
    requires Enabled(s, e) && g < |s.groups| && s.groups[g].verdict.Returned?
    requires EffectOf(s, e).OnWorker? ==> s.workers[EffectOf(s, e).w].group != g
    ensures g < |Apply(s, e).groups| && Apply(s, e).groups[g].verdict == s.groups[g].verdict
  {
    if EffectOf(s, e).OnWorker? {
      WorkerKeepsGroup(s, e);
    }
  }

  lemma NotFinished(s: System, e: Event)
    requires Enabled(s, e) && EffectOf(s, e).OnWorker?
    ensures !s.workers[EffectOf(s, e).w].phase.Finished?
  {
  }

  lemma ReturnedStays(h: Handler, m: FirstMessage, e: Event)
    requires Ok(h, m) && Enabled(h.sys, e) && !h.reply.NoReply?
    ensures h.g < |Apply(h.sys, e).groups| && Apply(h.sys, e).groups[h.g].verdict == h.sys.groups[h.g].verdict
  {
    assert GroupOk(h.sys, h.g);
    if EffectOf(h.sys, e).OnWorker? {
      NotFinished(h.sys, e);
    }
    VerdictKept(h.sys, e, h.g);
  }

  lemma SystemStepOk(h: Handler, m: FirstMessage, e: Event)
    requires Ok(h, m) && CanStep(h, OfSystem(e))
    ensures Ok(Next(h, OfSystem(e)), m)
  {
    StepKeepsInv(h.sys, e);
    assert WorkerOk(h.sys, h.w);
    OtherStepKeeps(h.sys, e, h.w, h.g);
    if !h.reply.NoReply? {
      ReturnedStays(h, m, e);
    }
    GroupPlaceKept(h.sys, e, h.g);
  }

  lemma SavedMatches(h: Handler, d: Store.Disk)
    requires CanStep(h, EndSave(d)) && h.sys.workers[h.w].file.content.Pipe?
    ensures var h' := Next(h, EndSave(d));
            && h.w < |h'.sys.workers|
            && h'.sys.workers[h.w].file == h.sys.workers[h.w].file
            && h'.sys.workers[h.w].group == h.sys.workers[h.w].group
            && SaveMatches(h', h'.sys.workers[h.w])
  {
  }

  /** A call with a goroutine in Save has not returned. */
  lemma StillRunning(s: System, w: nat)
    requires At(s, w, Saving) && GroupOk(s, s.workers[w].group)
    ensures GroupOf(s, w).verdict.Running?
  {
  }

  lemma EndSaveOk(h: Handler, m: FirstMessage, d: Store.Disk)
    requires Ok(h, m) && CanStep(h, EndSave(d))
    ensures Ok(Next(h, EndSave(d)), m)
  {
    var e := Save(h.w, SaveReplyOf(h.pump.answers, d));
    StepKeepsInv(h.sys, e);
    StillRunning(h.sys, h.w);
    GroupPlaceKept(h.sys, e, h.g);
    SavedMatches(h, d);
  }

  lemma PumpStepOk(h: Handler, m: FirstMessage, p: Pump.Event)
    requires Ok(h, m) && CanStep(h, OfPump(p))
    ensures Ok(Next(h, OfPump(p)), m)
  {
    Pump.StepKeepsOk(h.pump, p);
  }

  lemma StepOk(h: Handler, m: FirstMessage, x: Step)
    requires Ok(h, m) && CanStep(h, x)
    ensures Ok(Next(h, x), m)
  {
    match x
    case OfPump(p) => PumpStepOk(h, m, p);
    case OfSystem(e) => SystemStepOk(h, m, e);
    case EndSave(d) => EndSaveOk(h, m, d);
    case SendReply =>
  }

  lemma {:induction false} RunOk(h: Handler, m: FirstMessage, xs: seq<Step>)
    requires Ok(h, m) && Run(h, xs).Some?
    ensures Ok(Run(h, xs).value, m)
    decreases |xs|
  {
    if xs != [] {
      RunOk(h, m, xs[..|xs| - 1]);
      StepOk(Run(h, xs[..|xs| - 1]).value, m, xs[|xs| - 1]);
    }
  }

  /** Save is over or will never be called: its goroutine has gone past it. */
  predicate PastSave(s: System, w: nat) {
    w < |s.workers| && WorkLeft(s.workers[w].phase) < WorkLeft(Saving)
  }

  // --------------------------------------------------------------------- rivals for one name

  /** Every goroutine other than w with a file of this name has its Save behind it. */
  ghost predicate NoRival(s: System, w: nat, name: string) {
    forall v | 0 <= v < |s.workers| && v != w && s.workers[v].file.name == name :: PastSave(s, v)
  }

  predicate Names(files: seq<File>, name: string) {
    exists i | 0 <= i < |files| :: files[i].name == name
  }

  /** No upload of a file of this name begins. */
  predicate Unclaimed(xs: seq<Step>, name: string) {
    forall k | 0 <= k < |xs| && xs[k].OfSystem? && xs[k].e.Begin? :: !Names(xs[k].e.files, name)
  }

  lemma NewWorkerNamed(s: System, e: Event, v: nat)
    requires Enabled(s, e) && |s.workers| <= v < |Apply(s, e).workers|
    ensures e.Begin? && Names(e.files, Apply(s, e).workers[v].file.name)
  {
    var name := Apply(s, e).workers[v].file.name;
    assert e.files[v - |s.workers|].name == name;
  }

  lemma StepKeepsNoRival(s: System, e: Event, w: nat, name: string)
    requires Enabled(s, e) && NoRival(s, w, name) && (e.Begin? ==> !Names(e.files, name))
    ensures NoRival(Apply(s, e), w, name)
  {
    var s' := Apply(s, e);
    forall v | 0 <= v < |s'.workers| && v != w && s'.workers[v].file.name == name
      ensures PastSave(s', v)
    {
      if v < |s.workers| {
        FileStays(s, e, v);
        NoWayBack(s, e, v);
        assert PastSave(s, v);
      } else {
        NewWorkerNamed(s, e, v);
      }
    }
  }

  /** Without a rival only w's own Save writes under the name. */
  lemma OthersWriteElsewhere(s: System, e: Event, w: nat, name: string)
    requires Enabled(s, e) && NoRival(s, w, name) && !(e.Save? && e.w == w)
    ensures name in Apply(s, e).store <==> name in s.store
    ensures name in s.store ==> Apply(s, e).store[name] == s.store[name]
  {
    StoreAfterStep(s, e);
    if e.Save? {
      var past := PastSave(s, e.w);
    }
  }

  function Lookup(store: map<string, Bytes>, name: string): Option<Bytes> {
    if name in store then Some(store[name]) else None
  }

  /** Under the name is what was there before, until this upload's Save has ended; and then what
      that Save has left, whatever it replied. */
  predicate Kept(h: Handler, name: string, was: Option<Bytes>) {
    Lookup(h.sys.store, name) ==
    if h.disk.Some? && h.disk.value.canCreate
    then Some(Store.Stored(Store.Written(h.pump.answers, h.disk.value.room), h.disk.value))
    else was
  }

  lemma PumpStepKept(h: Handler, m: FirstMessage, p: Pump.Event, was: Option<Bytes>)
    requires Ok(h, m) && CanStep(h, OfPump(p)) && Kept(h, m.filename, was)
    ensures Kept(Next(h, OfPump(p)), m.filename, was)
  {
    assert h.disk.Some? ==> h.pump.stopped;
  }

  lemma SystemStepKept(h: Handler, m: FirstMessage, e: Event, was: Option<Bytes>)
    requires Ok(h, m) && CanStep(h, OfSystem(e)) && Kept(h, m.filename, was) && NoRival(h.sys, h.w, m.filename)
    ensures Kept(Next(h, OfSystem(e)), m.filename, was)
  {
    OthersWriteElsewhere(h.sys, e, h.w, m.filename);
  }

  lemma EndSaveKept(h: Handler, m: FirstMessage, d: Store.Disk, was: Option<Bytes>)
    requires Ok(h, m) && CanStep(h, EndSave(d)) && Kept(h, m.filename, was)
    ensures Kept(Next(h, EndSave(d)), m.filename, was)
  {
    var e := Save(h.w, SaveReplyOf(h.pump.answers, d));
    StoreAfterStep(h.sys, e);
  }

  lemma StepKept(h: Handler, m: FirstMessage, x: Step, was: Option<Bytes>)
    requires Ok(h, m) && CanStep(h, x) && Unclaimed([x], m.filename)
    requires Kept(h, m.filename, was) && NoRival(h.sys, h.w, m.filename)
    ensures Kept(Next(h, x), m.filename, was) && NoRival(Next(h, x).sys, h.w, m.filename)
  {
    assert [x][0] == x;
    match x
    case OfPump(p) => PumpStepKept(h, m, p, was);
    case OfSystem(e) =>
      SystemStepKept(h, m, e, was);
      StepKeepsNoRival(h.sys, e, h.w, m.filename);
    case EndSave(d) =>
      EndSaveKept(h, m, d, was);
      StepKeepsNoRival(h.sys, Save(h.w, SaveReplyOf(h.pump.answers, d)), h.w, m.filename);
    case SendReply =>
  }

  lemma UnclaimedParts(xs: seq<Step>, name: string)
    requires Unclaimed(xs, name) && xs != []
    ensures Unclaimed(xs[..|xs| - 1], name) && Unclaimed([xs[|xs| - 1]], name)
  {
    var init := xs[..|xs| - 1];
    assert forall k | 0 <= k < |init| :: init[k] == xs[k];
  }

  lemma {:induction false} RunKept(h: Handler, m: FirstMessage, xs: seq<Step>, was: Option<Bytes>)
    requires Ok(h, m) && Run(h, xs).Some? && Unclaimed(xs, m.filename)
    requires Kept(h, m.filename, was) && NoRival(h.sys, h.w, m.filename)
    ensures Kept(Run(h, xs).value, m.filename, was) && NoRival(Run(h, xs).value.sys, h.w, m.filename)
    ensures Run(h, xs).value.w == h.w
    decreases |xs|
  {
    if xs != [] {
      var n := |xs| - 1;
      UnclaimedParts(xs, m.filename);
      RunKept(h, m, xs[..n], was);
      RunOk(h, m, xs[..n]);
      StepKept(Run(h, xs[..n]).value, m, xs[n], was);
    }
  }

  lemma StartedKept(s: System, m: FirstMessage)
    requires Admitted(m) && NoRival(s, |s.workers|, m.filename)
    ensures var h := Started(s, m);
            Kept(h, m.filename, Lookup(s.store, m.filename)) && NoRival(h.sys, h.w, m.filename)
  {
    var h := Started(s, m);
    assert h.sys.workers[h.w] == Worker(h.g, FileOf(m), Idle, None, NotTried);
    forall v | 0 <= v < |h.sys.workers| && v != h.w && h.sys.workers[v].file.name == m.filename
      ensures PastSave(h.sys, v)
    {
      assert h.sys.workers[v] == s.workers[v];
      assert PastSave(s, v);
    }
  }

  // ----------------------------------------------------------------- what the steps amount to

  /** What a step is to the pump; the end of Save stops the reading. */
  function PumpEventOf(x: Step): seq<Pump.Event> {
    match x
    case OfPump(p) => [p]
    case EndSave(_) => [Pump.Stop]
    case _ => []
  }

  /** The events of the pump among the steps. */
  function PumpEvents(xs: seq<Step>): seq<Pump.Event> {
    if xs == [] then [] else PumpEvents(xs[..|xs| - 1]) + PumpEventOf(xs[|xs| - 1])
  }

  lemma PumpMore(es: seq<Pump.Event>, h: Handler, x: Step)
    requires Pump.Run(Pump.START, es) == Some(h.pump) && CanStep(h, x)
    ensures Pump.Run(Pump.START, es + PumpEventOf(x)) == Some(Next(h, x).pump)
  {
    match x
    case OfPump(p) => Pump.RunMore(Pump.START, es, h.pump, p);
    case EndSave(_) => Pump.RunMore(Pump.START, es, h.pump, Pump.Stop);
    case _ => assert es + PumpEventOf(x) == es;
  }

  lemma SamePlaces(h: Handler, x: Step)
    requires CanStep(h, x)
    ensures Next(h, x).g == h.g && Next(h, x).w == h.w
    ensures Next(h, x).disk == if x.EndSave? then Some(x.d) else h.disk
  {
  }

  /** The handler's pump is the pump of these events, and its disk is the one Save has met. */
  lemma {:induction false} StepsAreTrue(s: System, m: FirstMessage, xs: seq<Step>)
    requires Admitted(m) && Run(Started(s, m), xs).Some?
    ensures var h := Run(Started(s, m), xs).value;
            && Pump.Run(Pump.START, PumpEvents(xs)) == Some(h.pump)
            && (h.disk.Some? ==> EndSave(h.disk.value) in xs)
            && h.g == |s.groups| && h.w == |s.workers|
    decreases |xs|
  {
    if xs == [] {
      assert PumpEvents(xs) == [];
    } else {
      var init, x := xs[..|xs| - 1], xs[|xs| - 1];
      var h := Run(Started(s, m), init).value;
      StepsAreTrue(s, m, init);
      PumpMore(PumpEvents(init), h, x);
      SamePlaces(h, x);
      assert forall y :: y in init ==> y in xs;
    }
  }

  // ------------------------------------------------------------------------------ end to end

  /** The checks of the first message before anything is started. */
  method CheckFirst(m: FirstMessage) returns (ok: bool)
    ensures ok <==> m.Metadata? && m.filename != "" && m.tenantId != "" && m.expectedSize >= 0
    ensures ok <==> Admitted(m)
  {
    if m.NoMetadata? || m.filename == "" || m.tenantId == "" {
      return false;
    }
    ok := ValidFile(m.filename, m.expectedSize);
  }

  /** The upload's row is Completed and shows the name and the size the client has announced. */
  predicate RowOf(h: Handler, m: FirstMessage) {
    && h.w < |h.sys.workers| && h.sys.workers[h.w].row.Some? && m.Metadata?
    && var id := h.sys.workers[h.w].row.value;
       && id in h.sys.table && h.sys.table[id].status == Completed
       && h.sys.table[id].fileName == m.filename && h.sys.table[id].fileSize == m.expectedSize
  }

  lemma SuccessIsSaved(h: Handler, m: FirstMessage)
    requires Ok(h, m) && h.reply.Success?
    ensures h.sys.workers[h.w].save.Saved? && h.disk.Some? && StatusOf(h.sys, h.w) == Some(Completed)
    ensures RowOf(h, m)
  {
    assert GroupOk(h.sys, h.g) && AllFinished(h.sys, h.g);
    assert WorkerOk(h.sys, h.w) && PlaceOk(h.sys, h.w);
    assert h.sys.workers[h.w].phase == Finished(None);
  }

  /** If the handler replies success, the stream ended and did not break.  If moreover every earlier
      upload of the name had its Save behind it when this one began, and none began since, the
      store holds all chunks that the stream's messages carried, in order, exactly when the local
      store's Close, whose error is dropped, kept them. */
  lemma SuccessMeansStored(s: System, m: FirstMessage, xs: seq<Step>)
    requires Admitted(m) && Inv(s)
    requires Run(Started(s, m), xs).Some? && Run(Started(s, m), xs).value.reply.Success?
    ensures var h := Run(Started(s, m), xs).value;
            var stream := PumpEvents(xs);
            var sent := Pump.Flat(Pump.Received(stream));
            && Pump.RecvEof in stream && (forall code :: Pump.RecvErr(code) !in stream)
            && RowOf(h, m) && h.disk.Some? && EndSave(h.disk.value) in xs
            && (NoRival(s, |s.workers|, m.filename) && Unclaimed(xs, m.filename) ==>
                  && m.filename in h.sys.store
                  && (h.sys.store[m.filename] == sent <==> h.disk.value.closeOk || h.disk.value.kept >= |sent|))
  {
    StartedOk(s, m);
    RunOk(Started(s, m), m, xs);
    StepsAreTrue(s, m, xs);
    Pump.RunIsTrue(PumpEvents(xs));
    var h := Run(Started(s, m), xs).value;
    SuccessIsSaved(h, m);
    Store.SuccessStoresPayload(h.pump.answers, h.disk.value);
    if NoRival(s, |s.workers|, m.filename) && Unclaimed(xs, m.filename) {
      StartedKept(s, m);
      RunKept(Started(s, m), m, xs, Lookup(s.store, m.filename));
    }
  }

  /** Whatever the reply, and whether there is one yet: without a rival, the name holds what it held
      before, as long as Save has not created the file and ended; and then a part from the start of
      what the stream has sent: as much of it as was read and fits, if Close keeps it. */
  lemma SaveLeavesPrefix(s: System, m: FirstMessage, xs: seq<Step>)
    requires Admitted(m) && Inv(s) && Run(Started(s, m), xs).Some?
    requires NoRival(s, |s.workers|, m.filename) && Unclaimed(xs, m.filename)
    ensures var h := Run(Started(s, m), xs).value;
            var sent := Pump.Flat(Pump.Received(PumpEvents(xs)));
            var got := Store.Payload(h.pump.answers);
            && got <= sent
            && if h.disk.Some? && h.disk.value.canCreate then
                 && m.filename in h.sys.store && h.sys.store[m.filename] <= got
                 && (h.disk.value.closeOk ==>
                       |h.sys.store[m.filename]| == if |got| <= h.disk.value.room then |got| else h.disk.value.room)
               else Lookup(h.sys.store, m.filename) == Lookup(s.store, m.filename)
  {
    StartedOk(s, m);
    StepsAreTrue(s, m, xs);
    var h := Run(Started(s, m), xs).value;
    Pump.ReaderHasPrefix(PumpEvents(xs), h.pump);
    StartedKept(s, m);
    RunKept(Started(s, m), m, xs, Lookup(s.store, m.filename));
    if h.disk.Some? {
      Store.StoredIs(h.pump.answers, h.disk.value);
    }
  }

  /** The reply is success exactly when the upload call has returned nil. */
  lemma ReplyIsVerdict(s: System, m: FirstMessage, xs: seq<Step>)
    requires Admitted(m) && Inv(s) && Run(Started(s, m), xs).Some?
    requires !Run(Started(s, m), xs).value.reply.NoReply?
    ensures var h := Run(Started(s, m), xs).value;
            && |s.groups| < |h.sys.groups| && h.sys.groups[|s.groups|].verdict.Returned?
            && (h.reply.Success? <==> h.sys.groups[|s.groups|].verdict.err.None?)
  {
    StartedOk(s, m);
    RunOk(Started(s, m), m, xs);
    StepsAreTrue(s, m, xs);
  }

  /** A stream that broke before its end is never answered with success. */
  lemma BrokenStreamNeverSucceeds(s: System, m: FirstMessage, xs: seq<Step>, code: int)
    requires Admitted(m) && Inv(s)
    requires Run(Started(s, m), xs).Some? && Pump.RecvErr(code) in PumpEvents(xs)
    ensures !Run(Started(s, m), xs).value.reply.Success?
  {
    if Run(Started(s, m), xs).value.reply.Success? {
      SuccessMeansStored(s, m, xs);
    }
  }

  // ------------------------------------------------------------------- when the pump is left

  lemma StuckStep(h: Handler, m: FirstMessage, x: Step)
    requires Ok(h, m) && PastSave(h.sys, h.w) && h.pump.phase.Writing? && CanStep(h, x)
    ensures PastSave(Next(h, x).sys, h.w) && Next(h, x).pump == h.pump
  {
    if x.OfSystem? {
      NoWayBack(h.sys, x.e, h.w);
    }
  }

  /** Nobody closes the reading end, so a pump that is in a Write when Save is over, or when
      Create failed and Save is never called, stays in it whatever happens next. */
  lemma {:induction false} AbandonedWriteIsStuck(h: Handler, m: FirstMessage, xs: seq<Step>)
    requires Ok(h, m) && PastSave(h.sys, h.w) && h.pump.phase.Writing? && Run(h, xs).Some?
    ensures Run(h, xs).value.pump == h.pump && PastSave(Run(h, xs).value.sys, h.w) && Run(h, xs).value.w == h.w
    decreases |xs|
  {
    if xs != [] {
      AbandonedWriteIsStuck(h, m, xs[..|xs| - 1]);
      RunOk(h, m, xs[..|xs| - 1]);
      StuckStep(Run(h, xs[..|xs| - 1]).value, m, xs[|xs| - 1]);
    }
  }

  lemma WayOut(h: Handler, m: FirstMessage) returns (xs: seq<Step>)
    requires Ok(h, m) && !h.pump.phase.Writing?
    ensures Run(h, xs).Some? && Run(h, xs).value.pump.phase.Done?
  {
    if h.pump.phase.Done? {
      xs := [];
    } else if h.pump.phase.Closing? {
      xs := [OfPump(Pump.DeferredClose)];
      assert xs[..0] == [];
    } else {
      xs := [OfPump(Pump.RecvEof), OfPump(Pump.DeferredClose)];
      assert xs[..1] == [OfPump(Pump.RecvEof)] && xs[..1][..0] == [];
      assert Run(h, xs[..1]) == Some(Next(h, OfPump(Pump.RecvEof)));
    }
  }

  /** Once Save is out of the way, the pump goroutine can still end exactly when it is not in
      the middle of a Write. */
  lemma AbandonedPumpCanEnd(h: Handler, m: FirstMessage)
    requires Ok(h, m) && PastSave(h.sys, h.w)
    ensures (exists xs :: Run(h, xs).Some? && Run(h, xs).value.pump.phase.Done?) <==> !h.pump.phase.Writing?
  {
    if h.pump.phase.Writing? {
      forall xs | Run(h, xs).Some?
        ensures !Run(h, xs).value.pump.phase.Done?
      {
        AbandonedWriteIsStuck(h, m, xs);
      }
    } else {
      var xs := WayOut(h, m);
    }
  }

  // ------------------------------------------------------------------ an upload can succeed

  predicate QuietStep(x: Step) {
    x.OfSystem? ==> !x.e.Begin? && !x.e.ParentDone?
  }

  /** No new upload begins and nobody cancels from outside. */
  predicate Quiet(xs: seq<Step>) {
    forall k | 0 <= k < |xs| :: QuietStep(xs[k])
  }

  ghost predicate Gets(h0: Handler, h: Handler) {
    exists xs :: Run(h0, xs) == Some(h) && Quiet(xs)
  }

  lemma OkWhereGot(h0: Handler, h: Handler, m: FirstMessage)
    requires Gets(h0, h) && Ok(h0, m)
    ensures Ok(h, m)
  {
    var xs :| Run(h0, xs) == Some(h) && Quiet(xs);
    RunOk(h0, m, xs);
  }

  lemma StartIsGot(h0: Handler)
    ensures Gets(h0, h0)
  {
    assert Run(h0, []) == Some(h0) && Quiet([]);
  }

  lemma RunMore(h0: Handler, xs: seq<Step>, h: Handler, x: Step)
    requires Run(h0, xs) == Some(h) && CanStep(h, x)
    ensures Run(h0, xs + [x]) == Some(Next(h, x))
  {
    assert (xs + [x])[..|xs|] == xs;
  }

  lemma QuietMore(xs: seq<Step>, x: Step)
    requires Quiet(xs) && QuietStep(x)
    ensures Quiet(xs + [x])
  {
  }

  lemma Go(h0: Handler, h: Handler, x: Step) returns (h': Handler)
    requires Gets(h0, h) && CanStep(h, x) && QuietStep(x)
    ensures h' == Next(h, x) && Gets(h0, h')
  {
    var xs :| Run(h0, xs) == Some(h) && Quiet(xs);
    h' := Next(h, x);
    RunMore(h0, xs, h, x);
    QuietMore(xs, x);
  }

  /** The upload's goroutine is in phase p, and nothing has gone wrong so far. */
  ghost predicate Fine(h: Handler, p: Phase) {
    && h.w < |h.sys.workers| && h.g < |h.sys.groups|
    && h.sys.workers[h.w].group == h.g && h.sys.workers[h.w].phase == p && h.sys.workers[h.w].file.content.Pipe?
    && h.sys.groups[h.g].first == h.w && h.sys.groups[h.g].count == 1
    && h.sys.groups[h.g].spawned == 1 && h.sys.groups[h.g].firstErr.None?
    && h.sys.groups[h.g].verdict.Running? && h.reply.NoReply?
  }

  lemma FineCall(h: Handler, p: Phase, e: Event)
    requires Fine(h, p) && Enabled(h.sys, e) && Healthy(e)
    requires IsCallOf(e, h.w) || (e == Report(h.w) && p == Returning(None))
    ensures Fine(h.(sys := Apply(h.sys, e)), EffectOf(h.sys, e).worker.phase)
  {
  }

  ghost predicate PumpIdle(p: Pump.Pump) {
    p.phase.Receiving? && p.closed.None? && p.streamErr.None? && !p.stopped
    && Pump.EndsLast(p.answers) && Store.Ending(p.answers).None?
  }

  lemma OneChunk(h0: Handler, h: Handler, chunk: Bytes) returns (h': Handler)
    requires Gets(h0, h) && Fine(h, Saving) && PumpIdle(h.pump)
    ensures Gets(h0, h') && h' == h.(pump := h'.pump) && PumpIdle(h'.pump)
    ensures h'.pump.chunks == h.pump.chunks + [chunk]
  {
    h' := Go(h0, h, OfPump(Pump.RecvChunk(chunk)));
    Pump.Answered(h'.pump.answers, Store.Data(chunk));
    assert chunk[..|chunk|] == chunk;
    h' := Go(h0, h', OfPump(Pump.Transfer(|chunk|)));
  }

  /** The chunks go through the pipe one after another. */
  lemma {:induction false} Pumped(h0: Handler, h: Handler, chunks: seq<Bytes>) returns (h': Handler)
    requires Gets(h0, h) && Fine(h, Saving) && PumpIdle(h.pump)
    ensures Gets(h0, h') && h' == h.(pump := h'.pump) && PumpIdle(h'.pump)
    ensures h'.pump.chunks == h.pump.chunks + chunks
    decreases |chunks|
  {
    h' := h;
    if chunks == [] {
      assert h.pump.chunks + chunks == h.pump.chunks;
    } else {
      h' := OneChunk(h0, h, chunks[0]);
      h' := Pumped(h0, h', chunks[1..]);
      assert h.pump.chunks + [chunks[0]] + chunks[1..] == h.pump.chunks + chunks;
    }
  }

  lemma Spawned(h0: Handler, s: System, m: FirstMessage) returns (h: Handler)
    requires Admitted(m) && IdsOk(s) && h0 == Started(s, m) && Gets(h0, h0)
    ensures Gets(h0, h) && Fine(h, Creating) && h.pump == Pump.START && h.disk.None?
    ensures forall id | id in h.sys.table :: id <= h.sys.lastId
  {
    assert h0.sys.workers[h0.w] == Worker(h0.g, FileOf(m), Idle, None, NotTried);
    h := Go(h0, h0, OfSystem(Spawn(h0.g)));
  }

  lemma UpToSave(h0: Handler, s: System, m: FirstMessage) returns (h: Handler)
    requires Admitted(m) && IdsOk(s) && h0 == Started(s, m)
    ensures Gets(h0, h) && Fine(h, Saving) && h.pump == Pump.START && h.disk.None?
  {
    StartIsGot(h0);
    h := Spawned(h0, s, m);
    var e := Create(h.w, h.sys.lastId + 1, 0, UploadProtocol.Ok);
    FineCall(h, Creating, e);
    h := Go(h0, h, OfSystem(e));
  }

  /** End of the stream: the pipe is closed, and Save reads to its end. */
  lemma Drained(h0: Handler, h: Handler) returns (h': Handler)
    requires Gets(h0, h) && Fine(h, Saving) && PumpIdle(h.pump)
    ensures Gets(h0, h') && h' == h.(pump := h'.pump) && !h'.pump.stopped
    ensures h'.pump.chunks == h.pump.chunks && Store.Ending(h'.pump.answers) == Some(Store.Eof)
  {
    h' := Go(h0, h, OfPump(Pump.RecvEof));
    h' := Go(h0, h', OfPump(Pump.DeferredClose));
    Pump.Answered(h'.pump.answers, Store.Eof);
    h' := Go(h0, h', OfPump(Pump.ReadEnd));
  }

  lemma SaveEnds(h0: Handler, h: Handler) returns (h': Handler)
    requires Gets(h0, h) && Fine(h, Saving) && !h.pump.stopped
    requires Store.Ending(h.pump.answers) == Some(Store.Eof)
    ensures Gets(h0, h') && Fine(h', Completing) && h'.pump.chunks == h.pump.chunks
    ensures h'.disk.Some? && h'.disk.value.closeOk
  {
    var d := Store.Disk(true, |Store.Payload(h.pump.answers)|, true, 0);
    FineCall(h, Saving, Save(h.w, SaveReplyOf(h.pump.answers, d)));
    h' := Go(h0, h, EndSave(d));
  }

  lemma Completes(h0: Handler, h: Handler) returns (h': Handler)
    requires Gets(h0, h) && Fine(h, Completing)
    ensures Gets(h0, h') && Fine(h', Finished(None)) && h'.pump == h.pump && h'.disk == h.disk
  {
    var e := Complete(h.w, 0, UploadProtocol.Ok);
    FineCall(h, Completing, e);
    h' := Go(h0, h, OfSystem(e));
    if h'.sys.workers[h.w].phase.Notifying? {
      e := Notify(h.w, UploadProtocol.Ok);
      FineCall(h', Notifying, e);
      h' := Go(h0, h', OfSystem(e));
    }
    FineCall(h', Returning(None), Report(h.w));
    h' := Go(h0, h', OfSystem(Report(h.w)));
  }

  lemma OneMember(s: System, g: nat, w: nat)
    requires (forall v | 0 <= v < |s.workers| :: PlaceOk(s, v)) && g < |s.groups| && w < |s.workers|
    requires s.groups[g].first == w && s.groups[g].count == 1 && s.workers[w].phase.Finished?
    ensures AllFinished(s, g)
  {
    forall v | 0 <= v < |s.workers| && s.workers[v].group == g
      ensures s.workers[v].phase.Finished?
    {
      assert PlaceOk(s, v);
    }
  }

  lemma GroupIsDone(h0: Handler, h: Handler, m: FirstMessage)
    requires Gets(h0, h) && Ok(h0, m) && Fine(h, Finished(None))
    ensures AllFinished(h.sys, h.g)
  {
    OkWhereGot(h0, h, m);
    OneMember(h.sys, h.g, h.w);
  }

  lemma Answers(h0: Handler, h: Handler, m: FirstMessage) returns (h': Handler)
    requires Gets(h0, h) && Ok(h0, m) && Fine(h, Finished(None))
    ensures Gets(h0, h') && h'.reply.Success? && h'.pump == h.pump && h'.disk == h.disk
  {
    GroupIsDone(h0, h, m);
    h' := Go(h0, h, OfSystem(Join(h.g)));
    h' := Go(h0, h', SendReply);
  }

  /** Everything after the metadata message, up to the end of Save. */
  lemma AllReceived(h0: Handler, h: Handler, chunks: seq<Bytes>) returns (h': Handler)
    requires Gets(h0, h) && Fine(h, Saving) && h.pump == Pump.START
    ensures Gets(h0, h') && Fine(h', Completing) && h'.pump.chunks == chunks
    ensures h'.disk.Some? && h'.disk.value.closeOk
  {
    h' := Pumped(h0, h, chunks);
    assert [] + chunks == chunks;
    h' := Drained(h0, h');
    h' := SaveEnds(h0, h');
  }

  /** Whatever the chunks of the stream, and whatever else has been uploaded before, the handler
      has a run in which its messages carry exactly them and it answers success. */
  lemma EveryStreamCanSucceed(s: System, m: FirstMessage, chunks: seq<Bytes>) returns (xs: seq<Step>)
    requires Admitted(m) && Inv(s)
    ensures Run(Started(s, m), xs).Some? && Quiet(xs)
    ensures var h := Run(Started(s, m), xs).value;
            && h.reply.Success? && Pump.Received(PumpEvents(xs)) == chunks && h.disk.Some? && h.disk.value.closeOk
  {
    var h0 := Started(s, m);
    var h := UpToSave(h0, s, m);
    h := AllReceived(h0, h, chunks);
    h := Completes(h0, h);
    StartedOk(s, m);
    h := Answers(h0, h, m);
    xs :| Run(h0, xs) == Some(h) && Quiet(xs);
    StepsAreTrue(s, m, xs);
    Pump.RunIsTrue(PumpEvents(xs));
  }

  lemma FailedCreate(h0: Handler, h: Handler) returns (h': Handler)
    requires Gets(h0, h) && Fine(h, Creating) && (forall id | id in h.sys.table :: id <= h.sys.lastId)
    ensures Gets(h0, h') && PastSave(h'.sys, h'.w) && h'.pump == h.pump
  {
    h' := Go(h0, h, OfSystem(Create(h.w, h.sys.lastId + 1, 0, Err(Fault(1), false))));
  }

  lemma ChunkThenFailure(h0: Handler, s: System, m: FirstMessage) returns (h: Handler)
    requires Admitted(m) && IdsOk(s) && h0 == Started(s, m) && Gets(h0, h0)
    ensures Gets(h0, h) && PastSave(h.sys, h.w) && h.pump.phase == Pump.Writing([7])
  {
    h := Spawned(h0, s, m);
    h := Go(h0, h, OfPump(Pump.RecvChunk([7])));
    h := FailedCreate(h0, h);
  }

  /** The pump can indeed be left in the middle of a Write: one chunk has arrived when Create
      fails, and then nothing ever moves the pump again. */
  lemma PumpIsAbandoned(s: System, m: FirstMessage) returns (xs: seq<Step>)
    requires Admitted(m) && Inv(s)
    ensures Run(Started(s, m), xs).Some?
    ensures var h := Run(Started(s, m), xs).value;
            && Ok(h, m) && PastSave(h.sys, h.w) && h.pump.phase == Pump.Writing([7])
            && forall ys | Run(h, ys).Some? :: Run(h, ys).value.pump == h.pump
  {
    StartIsGot(Started(s, m));
    var h := ChunkThenFailure(Started(s, m), s, m);
    StartedOk(s, m);
    OkWhereGot(Started(s, m), h, m);
    xs :| Run(Started(s, m), xs) == Some(h) && Quiet(xs);
    forall ys | Run(h, ys).Some?
      ensures Run(h, ys).value.pump == h.pump
    {
      AbandonedWriteIsStuck(h, m, ys);
    }
  }

  // ------------------------------------------------------------- the handler can always reply

  /** How far the pump is from the end of the pipe. */
  function PumpLeft(p: Pump.Phase): nat {
    match p
    case Writing(_) => 4
    case Receiving => 3
    case Closing => 2
    case Done => 1
  }

  lemma InSave(h: Handler, m: FirstMessage)
    requires Ok(h, m) && At(h.sys, h.w, Saving)
    ensures h.disk.None? && !h.pump.stopped
  {
    assert WorkerOk(h.sys, h.w);
  }

  lemma EndRead(h: Handler)
    requires Pump.PumpOk(h.pump) && Pump.Enabled(h.pump, Pump.ReadEnd)
    ensures Store.Ending(Pump.Apply(h.pump, Pump.ReadEnd).answers).Some?
  {
    var why := h.pump.closed.value;
    Pump.Answered(h.pump.answers, match why case CleanEof => Store.Eof case Broken(c) => Store.ReadErr(c));
  }

  /** While Save runs, the stream can be brought to its end and read to it. */
  lemma {:induction false} ReadToEnd(h0: Handler, h: Handler, m: FirstMessage) returns (h': Handler)
    requires Gets(h0, h) && Ok(h0, m) && At(h.sys, h.w, Saving)
    ensures Gets(h0, h') && h' == h.(pump := h'.pump) && Store.Ending(h'.pump.answers).Some?
    decreases PumpLeft(h.pump.phase)
  {
    h' := h;
    OkWhereGot(h0, h, m);
    InSave(h, m);
    if Store.Ending(h.pump.answers).None? {
      match h.pump.phase
      case Writing(rest) =>
        h' := Go(h0, h, OfPump(Pump.Transfer(|rest|)));
        h' := ReadToEnd(h0, h', m);
      case Receiving =>
        h' := Go(h0, h, OfPump(Pump.RecvEof));
        h' := ReadToEnd(h0, h', m);
      case Closing =>
        h' := Go(h0, h, OfPump(Pump.DeferredClose));
        h' := ReadToEnd(h0, h', m);
      case Done =>
        EndRead(h);
        h' := Go(h0, h, OfPump(Pump.ReadEnd));
    }
  }

  lemma SaveCanEnd(h0: Handler, h: Handler, m: FirstMessage) returns (h': Handler)
    requires Gets(h0, h) && Ok(h0, m) && At(h.sys, h.w, Saving)
    ensures Gets(h0, h') && h'.g == h.g && h'.w == h.w && h'.reply == h.reply
    ensures StepsLeft(h'.sys) < StepsLeft(h.sys)
  {
    h' := ReadToEnd(h0, h, m);
    OkWhereGot(h0, h', m);
    InSave(h', m);
    var d := Store.Disk(true, |Store.Payload(h'.pump.answers)|, true, 0);
    var e := Save(h.w, SaveReplyOf(h'.pump.answers, d));
    assert h'.sys.workers[h.w].file == FileOf(m);
    StepShrinks(h'.sys, e);
    h' := Go(h0, h', EndSave(d));
  }

  /** From every state the handler can get to, whatever has failed, it can still reply, with no
      help from outside but the end of the stream and answers to its calls. */
  lemma {:induction false} CanStillReply(h0: Handler, h: Handler, m: FirstMessage) returns (h': Handler)
    requires Gets(h0, h) && Ok(h0, m)
    ensures Gets(h0, h') && !h'.reply.NoReply?
    decreases StepsLeft(h.sys)
  {
    OkWhereGot(h0, h, m);
    h' := h;
    if h.reply.NoReply? {
      if h.sys.groups[h.g].verdict.Returned? {
        h' := Go(h0, h, SendReply);
      } else if At(h.sys, h.w, Saving) {
        h' := SaveCanEnd(h0, h, m);
        h' := CanStillReply(h0, h', m);
      } else {
        var e := StepIn(h.sys, h.g);
        StepShrinks(h.sys, e);
        h' := Go(h0, h, OfSystem(e));
        h' := CanStillReply(h0, h', m);
      }
    }
  }

  /** After any steps at all of the handler, a continuation without new uploads or cancellations
      from outside ends in a reply. */
  lemma ReplyIsReachable(s: System, m: FirstMessage, xs: seq<Step>) returns (ys: seq<Step>)
    requires Admitted(m) && Inv(s) && Run(Started(s, m), xs).Some?
    ensures Quiet(ys) && Run(Run(Started(s, m), xs).value, ys).Some?
    ensures !Run(Run(Started(s, m), xs).value, ys).value.reply.NoReply?
  {
    StartedOk(s, m);
    RunOk(Started(s, m), m, xs);
    var h := Run(Started(s, m), xs).value;
    assert Run(h, []) == Some(h);
    var h' := CanStillReply(h, h, m);
    ys :| Run(h, ys) == Some(h') && Quiet(ys);
  }
}
