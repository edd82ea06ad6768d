// What holds over whole runs of overlapping parallel uploads.

module UploadGuarantees {
  import opened Domain
  import opened UploadProtocol
  import opened UploadInvariants

  lemma ReachableInv(s0: System, es: seq<Event>)
    requires Initial(s0) && Valid(s0, es)
    ensures Inv(Exec(s0, es))
  {
    InitialInv(s0);
    RunKeepsInv(s0, es);
  }

  /** The last step of a run that is not empty. */
  lemma LastStep(s0: System, es: seq<Event>) returns (t: System, e: Event)
    requires Initial(s0) && Valid(s0, es) && es != []
    ensures var n := |es| - 1;
            && Valid(s0, es[..n]) && t == Exec(s0, es[..n]) && e == es[n]
            && Inv(t) && Enabled(t, e) && Exec(s0, es) == Apply(t, e)
  {
    var n := |es| - 1;
    t, e := Exec(s0, es[..n]), es[n];
    ReachableInv(s0, es[..n]);
  }

  // ---------------------------------------------------------------- rows over the whole run

  /** A row stays as it is, or goes once from Pending to a terminal status. */
  predicate Evolves(r: Row, r': Row) {
    || r' == r
    || (&& r.status == Pending
        && (r'.status == Completed || r'.status == Failed)
        && r' == r.(status := r'.status, updatedAt := r'.updatedAt))
  }

  ghost predicate RowsEvolve(s: System, s': System) {
    && (forall id | id in s.table ::
          && id in s'.table
          && (id in s.owner ==> Evolves(s.table[id], s'.table[id]))
          && (id !in s.owner ==> s'.table[id] == s.table[id]))
    && (forall id | id in s.owner :: id in s'.owner && s'.owner[id] == s.owner[id])
    && (forall id | id in s'.owner && id !in s.owner :: id !in s.table)
  }

  lemma PutAdvances(s: System, e: Event)
    requires Enabled(s, e) && EffectOf(s, e).OnWorker? && EffectOf(s, e).put.Some?
    requires WorkerOk(s, EffectOf(s, e).w) && IdsOk(s)
    ensures var Put(id, row) := EffectOf(s, e).put.value;
            if id in s.table then
              && id in s.owner && s.owner[id] == EffectOf(s, e).w
              && s.table[id].status == Pending && row.status != Pending && Evolves(s.table[id], row)
            else row.status == Pending
  {
  }

  lemma PatchEvolves(s: System, f: Effect)
    requires f.OnWorker? && Fits(s, f) && IdsOk(s) && f.put.Some?
    requires f.put.value.id in s.table ==>
               && f.put.value.id in s.owner && s.owner[f.put.value.id] == f.w
               && Evolves(s.table[f.put.value.id], f.put.value.row)
    ensures RowsEvolve(s, Patched(s, f))
  {
  }

  lemma StepEvolves(s: System, e: Event)
    requires Inv(s) && Enabled(s, e)
    ensures RowsEvolve(s, Apply(s, e))
  {
    var f := EffectOf(s, e);
    if f.OnWorker? && f.put.Some? {
      assert WorkerOk(s, f.w);
      PutAdvances(s, e);
      PatchEvolves(s, f);
    }
  }

  /** Rows change status at most once, from Pending to Completed or Failed; a row that no
      parallel upload created is never touched at all. */
  lemma {:induction false} RowsOnlyAdvance(s0: System, es: seq<Event>, k: nat)
    requires Initial(s0) && Valid(s0, es) && k <= |es|
    ensures Valid(s0, es[..k]) && RowsEvolve(Exec(s0, es[..k]), Exec(s0, es))
    decreases |es|
  {
    if k == |es| {
      assert es[..k] == es;
    } else {
      var t, e := LastStep(s0, es);
      RowsOnlyAdvance(s0, es[..|es| - 1], k);
      assert es[..|es| - 1][..k] == es[..k];
      StepEvolves(t, e);
    }
  }

  /** Once a row's status has changed it never changes again. */
  lemma StatusChangesOnce(s0: System, es: seq<Event>, i: nat, j: nat, id: int)
    requires Initial(s0) && Valid(s0, es) && i <= j <= |es|
    requires Valid(s0, es[..i]) && Valid(s0, es[..j]) && id in Exec(s0, es[..i]).table
    ensures id in Exec(s0, es[..j]).table && id in Exec(s0, es).table
    ensures Exec(s0, es[..i]).table[id].status != Exec(s0, es[..j]).table[id].status
            ==> Exec(s0, es).table[id] == Exec(s0, es[..j]).table[id]
  {
    assert es[..j][..i] == es[..i];
    RowsOnlyAdvance(s0, es[..j], i);
    RowsOnlyAdvance(s0, es, j);
  }

  /** Every row the uploads add is first written as Pending. */
  lemma RowsStartPending(s: System, e: Event, id: int)
    requires Inv(s) && Enabled(s, e) && id in Apply(s, e).table && id !in s.table
    ensures Apply(s, e).table[id].status == Pending && e.Create? && e.id == id
    ensures Apply(s, e).table[id].createdAt == Apply(s, e).table[id].updatedAt == e.now
  {
    assert WorkerOk(s, EffectOf(s, e).w);
    PutAdvances(s, e);
  }

  // ------------------------------------------------------------------- errors are genuine

  /** e is the call of goroutine w that came back with failure f. */
  predicate Reports(e: Event, w: nat, f: Failure) {
    match e
    case Create(v, _, _, Err(c, _)) => v == w && f == Failure(CreateCall, c)
    case Save(v, SaveErr(c, _)) => v == w && f == Failure(SaveCall, c)
    case Complete(v, _, Err(c, _)) => v == w && f == Failure(CompleteCall, c)
    case _ => false
  }

  /** A step gives a new record to at most one goroutine. */
  lemma WorkerAfter(s: System, e: Event, w: nat)
    requires Enabled(s, e) && w < |Apply(s, e).workers|
    ensures w < |s.workers| ==>
              Apply(s, e).workers[w] ==
              if EffectOf(s, e).OnWorker? && EffectOf(s, e).w == w then EffectOf(s, e).worker else s.workers[w]
    ensures w >= |s.workers| ==> Apply(s, e).workers[w].phase.Idle?
  {
  }

  lemma EffectFailure(s: System, e: Event)
    requires Enabled(s, e) && EffectOf(s, e).OnWorker? && FailureOf(EffectOf(s, e).worker.phase).Some?
    ensures var f := FailureOf(EffectOf(s, e).worker.phase);
            || Reports(e, EffectOf(s, e).w, f.value)
            || FailureOf(s.workers[EffectOf(s, e).w].phase) == f
  {
  }

  lemma StepFailure(s: System, e: Event, w: nat, f: Failure)
    requires Enabled(s, e) && w < |Apply(s, e).workers| && FailureOf(Apply(s, e).workers[w].phase) == Some(f)
    ensures Reports(e, w, f) || (w < |s.workers| && FailureOf(s.workers[w].phase) == Some(f))
  {
    WorkerAfter(s, e, w);
    if w < |s.workers| && EffectOf(s, e).OnWorker? && EffectOf(s, e).w == w {
      EffectFailure(s, e);
    }
  }

  lemma {:induction false} FailureHasEvent(s0: System, es: seq<Event>, w: nat, f: Failure) returns (k: nat)
    requires Initial(s0) && Valid(s0, es)
    requires w < |Exec(s0, es).workers| && FailureOf(Exec(s0, es).workers[w].phase) == Some(f)
    ensures k < |es| && Reports(es[k], w, f)
    decreases |es|
  {
    var t, e := LastStep(s0, es);
    StepFailure(t, e, w, f);
    if Reports(e, w, f) {
      k := |es| - 1;
    } else {
      k := FailureHasEvent(s0, es[..|es| - 1], w, f);
    }
  }

  /** The error of a call whose parent context was never done is a fault that one of its own
      goroutines met in one of its own calls: never the group's own cancellation. */
  lemma ErrorIsGenuine(s0: System, es: seq<Event>, g: nat, b: Blame)
    requires Initial(s0) && Valid(s0, es) && g < |Exec(s0, es).groups|
    requires Exec(s0, es).groups[g].verdict == Returned(Some(b)) && !Exec(s0, es).groups[g].parentDone
    ensures b.failure.cause.Fault?
    ensures b.worker < |Exec(s0, es).workers| && Exec(s0, es).workers[b.worker].group == g
    ensures exists k :: 0 <= k < |es| && Reports(es[k], b.worker, b.failure)
  {
    var s := Exec(s0, es);
    ReachableInv(s0, es);
    assert GroupOk(s, g) && BlameOk(s, g, b);
    assert s.workers[b.worker].phase.Finished? by {
      assert AllFinished(s, g);
    }
    var k := FailureHasEvent(s0, es, b.worker, b.failure);
    assert Reports(es[k], b.worker, b.failure);
  }

  // ------------------------------------------------------------- the first error, and only it

  /** The context is cancelled exactly when some goroutine has recorded the first error and got
      past errgroup's once, or when the call has returned. */
  lemma CancelledByFirstError(s0: System, es: seq<Event>, g: nat)
    requires Initial(s0) && Valid(s0, es) && g < |Exec(s0, es).groups|
    ensures var s := Exec(s0, es);
            s.groups[g].cancelled <==>
            || s.groups[g].verdict.Returned?
            || (exists b :: s.groups[g].firstErr == Some(b) && b.worker < |s.workers|
                            && s.workers[b.worker].phase == Finished(Some(b.failure)))
  {
    var s := Exec(s0, es);
    ReachableInv(s0, es);
    assert GroupOk(s, g);
    if s.groups[g].firstErr.Some? {
      assert BlameOk(s, g, s.groups[g].firstErr.value);
    }
  }

  /** e hands an error of one of g's goroutines to errgroup. */
  predicate ReportsError(s: System, e: Event, g: nat) {
    e.Report? && Live(s, e.w) && s.workers[e.w].group == g
    && s.workers[e.w].phase.Returning? && s.workers[e.w].phase.result.Some?
  }

  lemma OtherStepsKeepFirst(s: System, e: Event, g: nat)
    requires Enabled(s, e) && g < |s.groups| && !e.Report?
    ensures g < |Apply(s, e).groups| && Apply(s, e).groups[g].firstErr == s.groups[g].firstErr
  {
  }

  lemma FirstErrorStep(s: System, e: Event, g: nat)
    requires Inv(s) && Enabled(s, e) && g < |s.groups|
    ensures g < |Apply(s, e).groups|
    ensures Apply(s, e).groups[g].firstErr ==
            if s.groups[g].firstErr.None? && ReportsError(s, e, g)
            then Some(Blame(e.w, s.workers[e.w].phase.result.value))
            else s.groups[g].firstErr
  {
    assert GroupOk(s, g);
    if !e.Report? {
      OtherStepsKeepFirst(s, e, g);
    }
  }

  lemma NoReportBefore(s0: System, es: seq<Event>, n: nat, g: nat)
    requires n <= |es|
    requires forall j | 0 <= j < n && Valid(s0, es[..j]) :: !ReportsError(Exec(s0, es[..j]), es[j], g)
    ensures forall j | 0 <= j < n && Valid(s0, es[..n][..j]) :: !ReportsError(Exec(s0, es[..n][..j]), es[..n][j], g)
  {
    forall j | 0 <= j < n && Valid(s0, es[..n][..j])
      ensures !ReportsError(Exec(s0, es[..n][..j]), es[..n][j], g)
    {
      assert es[..n][..j] == es[..j] && es[..n][j] == es[j];
    }
  }

  lemma NewGroup(s: System, e: Event, g: nat)
    requires Enabled(s, e) && |s.groups| <= g < |Apply(s, e).groups|
    ensures Apply(s, e).groups[g].firstErr.None?
  {
  }

  lemma {:induction false} NoReportNoError(s0: System, es: seq<Event>, g: nat)
    requires Initial(s0) && Valid(s0, es) && g < |Exec(s0, es).groups|
    requires forall j | 0 <= j < |es| && Valid(s0, es[..j]) :: !ReportsError(Exec(s0, es[..j]), es[j], g)
    ensures Exec(s0, es).groups[g].firstErr.None?
    decreases |es|
  {
    var t, e := LastStep(s0, es);
    var n := |es| - 1;
    if g < |t.groups| {
      NoReportBefore(s0, es, n, g);
      NoReportNoError(s0, es[..n], g);
      FirstErrorStep(t, e, g);
    } else {
      NewGroup(t, e, g);
    }
  }

  lemma {:induction false} RecordedErrorStays(s0: System, es: seq<Event>, i: nat, g: nat)
    requires Initial(s0) && Valid(s0, es) && i <= |es| && Valid(s0, es[..i])
    requires g < |Exec(s0, es[..i]).groups| && Exec(s0, es[..i]).groups[g].firstErr.Some?
    ensures g < |Exec(s0, es).groups| && Exec(s0, es).groups[g].firstErr == Exec(s0, es[..i]).groups[g].firstErr
    decreases |es|
  {
    if i == |es| {
      assert es[..i] == es;
    } else {
      var t, e := LastStep(s0, es);
      assert es[..|es| - 1][..i] == es[..i];
      RecordedErrorStays(s0, es[..|es| - 1], i, g);
      FirstErrorStep(t, e, g);
    }
  }

  /** The error a call keeps, and returns, is the one that was handed to errgroup first. */
  lemma FirstErrorWins(s0: System, es: seq<Event>, k: nat, g: nat)
    requires Initial(s0) && Valid(s0, es) && k < |es|
    requires Valid(s0, es[..k]) && g < |Exec(s0, es[..k]).groups| && ReportsError(Exec(s0, es[..k]), es[k], g)
    requires forall j | 0 <= j < k && Valid(s0, es[..j]) :: !ReportsError(Exec(s0, es[..j]), es[j], g)
    ensures var s := Exec(s0, es);
            var first := Blame(es[k].w, Exec(s0, es[..k]).workers[es[k].w].phase.result.value);
            && g < |s.groups| && s.groups[g].firstErr == Some(first)
            && (s.groups[g].verdict.Returned? ==> s.groups[g].verdict.err == Some(first))
  {
    Prefix(s0, es, k);
    NoReportBefore(s0, es, k, g);
    NoReportNoError(s0, es[..k], g);
    ReachableInv(s0, es[..k]);
    FirstErrorStep(Exec(s0, es[..k]), es[k], g);
    RecordedErrorStays(s0, es, k + 1, g);
    ReachableInv(s0, es);
    assert GroupOk(Exec(s0, es), g);
  }

  // -------------------------------------------------------------------- how each file ends

  datatype Ending = NoRow | OrphanPending | RowFailed | PendingUnsaved | PendingSaved | CompletedSaved

  predicate Ends(s: System, w: nat, o: Ending)
    requires w < |s.workers|
  {
    match o
    case NoRow => s.workers[w].row.None? && s.workers[w].save.NotTried?
    case OrphanPending => StatusOf(s, w) == Some(Pending) && s.workers[w].save.NotTried?
    case RowFailed => StatusOf(s, w) == Some(Failed) && s.workers[w].save.SaveFailed?
    case PendingUnsaved => StatusOf(s, w) == Some(Pending) && s.workers[w].save.SaveFailed?
    case PendingSaved => StatusOf(s, w) == Some(Pending) && s.workers[w].save.Saved?
    case CompletedSaved => StatusOf(s, w) == Some(Completed) && s.workers[w].save.Saved?
  }

  ghost predicate HasReturned(s: System, g: nat) {
    g < |s.groups| && s.groups[g].verdict.Returned?
  }

  predicate CompleteFailed(e: Event, w: nat) {
    e.Complete? && e.w == w && e.reply.Err?
  }

  /** The goroutine is returning the error of its update to Completed. */
  predicate UpdateFailed(p: Phase) {
    FailureOf(p).Some? && FailureOf(p).value.call.CompleteCall? && !p.Compensating?
  }

  lemma CompleteErrorStays(s: System, e: Event, w: nat)
    requires Enabled(s, e) && w < |s.workers|
    requires UpdateFailed(s.workers[w].phase)
    ensures w < |Apply(s, e).workers|
    ensures UpdateFailed(Apply(s, e).workers[w].phase)
  {
    assert w < |Apply(s, e).workers|;
    WorkerAfter(s, e, w);
  }

  lemma {:induction false} CompleteErrorIsKept(s0: System, es: seq<Event>, w: nat, k: nat)
    requires Initial(s0) && Valid(s0, es) && k < |es| && CompleteFailed(es[k], w)
    ensures w < |Exec(s0, es).workers|
    ensures UpdateFailed(Exec(s0, es).workers[w].phase)
    decreases |es|
  {
    var t, e := LastStep(s0, es);
    if k < |es| - 1 {
      CompleteErrorIsKept(s0, es[..|es| - 1], w, k);
      CompleteErrorStays(t, e, w);
    } else {
      WorkerAfter(t, e, w);
    }
  }

  lemma EndIsUnique(s: System, w: nat)
    requires w < |s.workers| && WorkerOk(s, w) && s.workers[w].phase.Finished?
    ensures exists o :: Ends(s, w, o) && forall o' | Ends(s, w, o') :: o' == o
  {
    var o := match s.workers[w].save
      case NotTried => if s.workers[w].row.None? then NoRow else OrphanPending
      case SaveFailed => if StatusOf(s, w) == Some(Failed) then RowFailed else PendingUnsaved
      case Saved(_) => if StatusOf(s, w) == Some(Completed) then CompletedSaved else PendingSaved;
    assert Ends(s, w, o);
  }

  /** A finished goroutine returns nil exactly when its row is Completed and it met no error. */
  lemma NilMeansCompleted(s0: System, es: seq<Event>, w: nat)
    requires Initial(s0) && Valid(s0, es) && w < |Exec(s0, es).workers| && Exec(s0, es).workers[w].phase.Finished?
    ensures Exec(s0, es).workers[w].phase.result.None? <==>
            Ends(Exec(s0, es), w, CompletedSaved) && forall k | 0 <= k < |es| :: !CompleteFailed(es[k], w)
  {
    var s := Exec(s0, es);
    ReachableInv(s0, es);
    assert WorkerOk(s, w);
    if s.workers[w].phase.result.None? {
      forall k | 0 <= k < |es|
        ensures !CompleteFailed(es[k], w)
      {
        if CompleteFailed(es[k], w) {
          CompleteErrorIsKept(s0, es, w, k);
        }
      }
    } else if Ends(s, w, CompletedSaved) {
      var k := FailureHasEvent(s0, es, w, s.workers[w].phase.result.value);
      assert CompleteFailed(es[k], w);
    }
  }

  /** When the call returns, none of its goroutines is still running and every file is in
      exactly one of six states; the result is nil exactly when every row is Completed and no
      reply to a Completed update was an error. */
  lemma HowFilesEnd(s0: System, es: seq<Event>, g: nat)
    requires Initial(s0) && Valid(s0, es) && HasReturned(Exec(s0, es), g)
    ensures var s := Exec(s0, es);
            && AllFinished(s, g)
            && (forall w | 0 <= w < |s.workers| && s.workers[w].group == g ::
                  exists o :: Ends(s, w, o) && forall o' | Ends(s, w, o') :: o' == o)
            && (s.groups[g].verdict.err.None? <==>
                forall w | 0 <= w < |s.workers| && s.workers[w].group == g ::
                  Ends(s, w, CompletedSaved) && forall k | 0 <= k < |es| :: !CompleteFailed(es[k], w))
  {
    var s := Exec(s0, es);
    ReachableInv(s0, es);
    assert GroupOk(s, g) && AllFinished(s, g);
    forall w | 0 <= w < |s.workers| && s.workers[w].group == g
      ensures exists o :: Ends(s, w, o) && forall o' | Ends(s, w, o') :: o' == o
      ensures s.workers[w].phase.result.None? <==>
              Ends(s, w, CompletedSaved) && forall k | 0 <= k < |es| :: !CompleteFailed(es[k], w)
      ensures s.workers[w].phase.result.Some? ==> s.groups[g].firstErr.Some?
    {
      assert WorkerOk(s, w) && PlaceOk(s, w);
      EndIsUnique(s, w);
      NilMeansCompleted(s0, es, w);
    }
    if s.groups[g].firstErr.Some? {
      var b := s.groups[g].firstErr.value;
      assert BlameOk(s, g, b) && s.workers[b.worker].phase == Finished(Some(b.failure));
    }
  }

  ghost predicate Reach(s0: System, s: System) {
    exists es :: Run(s0, es) == Some(s)
  }

  lemma Move(s0: System, s: System, e: Event) returns (s': System)
    requires Reach(s0, s) && Enabled(s, e)
    ensures s' == Apply(s, e) && Reach(s0, s')
  {
    var es :| Run(s0, es) == Some(s);
    Extend(s0, es, e);
    s' := Apply(s, e);
    assert Run(s0, es + [e]) == Some(s');
  }

  /** One call, one file, its goroutine in phase p. */
  ghost predicate Alone(s: System, p: Phase) {
    && |s.workers| == 1 && s.workers[0].group == 0 && s.workers[0].phase == p && !s.hasPipeline
    && |s.groups| == 1 && s.groups[0].spawned == s.groups[0].count == 1
    && s.groups[0].once.Unused? && s.groups[0].firstErr.None? && s.groups[0].verdict.Running?
  }

  lemma StartAlone() returns (s0: System, s: System)
    ensures Initial(s0) && Reach(s0, s) && Alone(s, Creating)
    ensures s.table == map[] && s.lastId == 0
    ensures s.workers[0] == Worker(0, File("a", 0, Pipe), Creating, None, NotTried)
  {
    s0 := System(map[], 0, map[], map[], [], false, [], []);
    assert Run(s0, []) == Some(s0);
    s := Move(s0, s0, Begin("t", [File("a", 0, Pipe)]));
    s := Move(s0, s, Spawn(0));
  }

  /** What is left once the goroutine has made its calls. */
  lemma Wrapped(s0: System, s: System, r: Option<Failure>) returns (s': System)
    requires Reach(s0, s) && Alone(s, Returning(r))
    ensures Reach(s0, s') && HasReturned(s', 0) && (s'.groups[0].verdict.err.None? <==> r.None?)
    ensures s'.table == s.table && s'.workers == [s.workers[0].(phase := Finished(r))]
  {
    s' := Move(s0, s, Report(0));
    if r.Some? {
      assert s'.workers == [s.workers[0].(phase := Cancelling(r.value))];
      s' := Move(s0, s', Cancel(0));
    }
    assert s'.workers == [s.workers[0].(phase := Finished(r))];
    s' := Move(s0, s', Join(0));
  }

  /** The calls of repositories and pipeline that goroutine w makes. */
  predicate IsCallOf(e: Event, w: nat) {
    (e.Create? || e.Save? || e.Compensate? || e.Complete? || e.Notify?) && e.w == w
  }

  lemma AloneMoves(s: System, e: Event)
    requires |s.workers| == 1 && Alone(s, s.workers[0].phase) && Enabled(s, e)
    requires IsCallOf(e, 0)
    ensures |Apply(s, e).workers| == 1 && Apply(s, e).workers == [EffectOf(s, e).worker]
    ensures Alone(Apply(s, e), EffectOf(s, e).worker.phase)
  {
  }

  lemma CreateAlone(s0: System, s: System, reply: Reply) returns (s': System)
    requires Reach(s0, s) && Alone(s, Creating) && s.table == map[] && s.lastId == 0
    requires s.workers[0] == Worker(0, File("a", 0, Pipe), Creating, None, NotTried)
    requires reply.Err? ==> reply.cause.Fault?
    ensures var p := if reply.Ok? then Saving else Returning(Some(Failure(CreateCall, reply.cause)));
            && Reach(s0, s') && Alone(s', p)
            && s'.workers[0] == Worker(0, File("a", 0, Pipe), p, if reply.Applied() then Some(1) else None, NotTried)
    ensures StatusOf(s', 0) == if reply.Applied() then Some(Pending) else None
  {
    var e := Create(0, 1, 0, reply);
    AloneMoves(s, e);
    s' := Move(s0, s, e);
  }

  lemma SaveAlone(s0: System, s: System, saved: bool) returns (s': System)
    requires Reach(s0, s) && Alone(s, Saving) && StatusOf(s, 0) == Some(Pending)
    ensures Reach(s0, s') && Alone(s', if saved then Completing else Compensating(Failure(SaveCall, Fault(1))))
    ensures if saved then s'.workers[0].save.Saved? else s'.workers[0].save.SaveFailed?
    ensures StatusOf(s', 0) == Some(Pending)
  {
    var file := s.workers[0].file;
    var e := if saved then Save(0, SaveOk(if file.content.Buffer? then file.content.bytes else []))
             else Save(0, SaveErr(Fault(1), None));
    AloneMoves(s, e);
    s' := Move(s0, s, e);
  }

  /** The update of the status that follows Save. */
  lemma UpdateAlone(s0: System, s: System, reply: Reply) returns (s': System, r: Option<Failure>)
    requires Reach(s0, s) && |s.workers| == 1 && Alone(s, s.workers[0].phase) && StatusOf(s, 0) == Some(Pending)
    requires s.workers[0].phase.Completing? || s.workers[0].phase.Compensating?
    requires reply.Err? ==> reply.cause.Fault?
    ensures Reach(s0, s') && Alone(s', Returning(r)) && s'.workers[0].save == s.workers[0].save
    ensures r.None? <==> s.workers[0].phase.Completing? && reply.Ok?
    ensures StatusOf(s', 0) ==
            Some(if !reply.Applied() then Pending else if s.workers[0].phase.Completing? then Completed else Failed)
  {
    var e := if s.workers[0].phase.Completing? then Complete(0, 0, reply) else Compensate(0, 0, reply);
    AloneMoves(s, e);
    s' := Move(s0, s, e);
    r := s'.workers[0].phase.result;
  }

  /** The goroutine's own calls, from its start to its return. */
  lemma Scripted(s0: System, s: System, o: Ending) returns (s': System, r: Option<Failure>)
    requires Reach(s0, s) && Alone(s, Creating) && s.table == map[] && s.lastId == 0
    requires s.workers[0] == Worker(0, File("a", 0, Pipe), Creating, None, NotTried)
    ensures Reach(s0, s') && Alone(s', Returning(r)) && Ends(s', 0, o)
    ensures r.None? <==> o.CompletedSaved?
  {
    if o.NoRow? || o.OrphanPending? {
      s' := CreateAlone(s0, s, Err(Fault(1), o.OrphanPending?));
      r := s'.workers[0].phase.result;
    } else {
      s' := CreateAlone(s0, s, Ok);
      var last := if o.RowFailed? || o.CompletedSaved? then Ok else Err(Fault(1), false);
      s' := SaveAlone(s0, s', o.PendingSaved? || o.CompletedSaved?);
      s', r := UpdateAlone(s0, s', last);
    }
  }

  /** Each of the six endings happens: none is there for show. */
  lemma EveryEndingHappens(o: Ending) returns (s0: System, es: seq<Event>)
    ensures Initial(s0) && Valid(s0, es) && HasReturned(Exec(s0, es), 0)
    ensures |Exec(s0, es).workers| == 1 && Ends(Exec(s0, es), 0, o)
    ensures Exec(s0, es).groups[0].verdict.err.None? <==> o.CompletedSaved?
  {
    var s, r;
    s0, s := StartAlone();
    s, r := Scripted(s0, s, o);
    s := Wrapped(s0, s, r);
    es :| Run(s0, es) == Some(s);
  }

  /** What HowFilesEnd leaves open does happen: the last update was carried out, its reply was
      lost, and the call returns an error although its only file is saved and its row Completed. */
  lemma CompletedDespiteError() returns (s0: System, es: seq<Event>)
    ensures Initial(s0) && Valid(s0, es) && HasReturned(Exec(s0, es), 0)
    ensures |Exec(s0, es).workers| == 1 && Ends(Exec(s0, es), 0, CompletedSaved)
    ensures Exec(s0, es).groups[0].verdict.err.Some?
  {
    var s, r;
    s0, s := StartAlone();
    s := CreateAlone(s0, s, Ok);
    s := SaveAlone(s0, s, true);
    s, r := UpdateAlone(s0, s, Err(Fault(1), true));
    s := Wrapped(s0, s, r);
    es :| Run(s0, es) == Some(s);
  }

  const A := File("a", 0, Pipe)
  const B := File("b", 0, Pipe)

  lemma SpawnMoves(s: System, g: nat)
    requires Enabled(s, Spawn(g))
    ensures var w := s.groups[g].first + s.groups[g].spawned;
            Apply(s, Spawn(g)) ==
            s.(workers := s.workers[w := s.workers[w].(phase := Creating)],
               groups := s.groups[g := s.groups[g].(spawned := s.groups[g].spawned + 1)])
  {
  }

  lemma TwoSpawned(s0: System, s: System) returns (s': System)
    requires Reach(s0, s) && s.groups == [Group("t", 0, 2, 0, None, Unused, false, false, Running)]
    requires s.workers == [Worker(0, A, Idle, None, NotTried), Worker(0, B, Idle, None, NotTried)]
    ensures Reach(s0, s') && s'.table == s.table && s'.lastId == s.lastId && s'.hasPipeline == s.hasPipeline
    ensures s'.workers == [Worker(0, A, Creating, None, NotTried), Worker(0, B, Creating, None, NotTried)]
    ensures s'.groups == [Group("t", 0, 2, 2, None, Unused, false, false, Running)]
  {
    SpawnMoves(s, 0);
    s' := Move(s0, s, Spawn(0));
    assert s'.workers == [Worker(0, A, Creating, None, NotTried), Worker(0, B, Idle, None, NotTried)];
    assert s'.groups == [Group("t", 0, 2, 1, None, Unused, false, false, Running)];
    SpawnMoves(s', 0);
    s' := Move(s0, s', Spawn(0));
  }

  lemma TwoStarted() returns (s0: System, s: System)
    ensures Initial(s0) && Reach(s0, s) && s.lastId == 1 && s.table.Keys == {1} && !s.hasPipeline
    ensures s.table[1].status == Pending
    ensures s.workers == [Worker(0, A, Creating, None, NotTried), Worker(0, B, Saving, Some(1), NotTried)]
    ensures s.groups == [Group("t", 0, 2, 2, None, Unused, false, false, Running)]
  {
    s0 := System(map[], 0, map[], map[], [], false, [], []);
    assert Run(s0, []) == Some(s0);
    s := Move(s0, s0, Begin("t", [A, B]));
    assert s.workers == [Worker(0, A, Idle, None, NotTried), Worker(0, B, Idle, None, NotTried)];
    s := TwoSpawned(s0, s);
    s := Move(s0, s, Create(1, 1, 0, Ok));
  }

  lemma FirstFails(s0: System, s: System) returns (s': System)
    requires Reach(s0, s) && |s.workers| == 2 && s.workers[0] == Worker(0, A, Creating, None, NotTried)
    requires s.groups == [Group("t", 0, 2, 2, None, Unused, false, false, Running)] && s.table.Keys == {1}
    ensures var f := Failure(CreateCall, Fault(1));
            && Reach(s0, s') && s'.table == s.table && s'.hasPipeline == s.hasPipeline
            && s'.workers == [Worker(0, A, Finished(Some(f)), None, NotTried), s.workers[1]]
            && s'.groups == [Group("t", 0, 2, 2, Some(Blame(0, f)), Over, true, false, Running)]
  {
    var f := Failure(CreateCall, Fault(1));
    s' := Move(s0, s, Create(0, 2, 0, Err(Fault(1), false)));
    assert s'.workers == [Worker(0, A, Returning(Some(f)), None, NotTried), s.workers[1]];
    s' := Move(s0, s', Report(0));
    s' := Move(s0, s', Cancel(0));
  }

  lemma SecondCancelled(s0: System, s: System) returns (s': System)
    requires var f := Failure(CreateCall, Fault(1));
             && Reach(s0, s) && s.table.Keys == {1} && s.table[1].status == Pending
             && s.workers == [Worker(0, A, Finished(Some(f)), None, NotTried), Worker(0, B, Saving, Some(1), NotTried)]
             && s.groups == [Group("t", 0, 2, 2, Some(Blame(0, f)), Over, true, false, Running)]
    ensures var f := Failure(SaveCall, ContextDone);
            && Reach(s0, s') && s'.groups == s.groups && 1 in s'.table && s'.table[1].status == Failed
            && s'.workers == [s.workers[0], Worker(0, B, Returning(Some(f)), Some(1), SaveFailed)]
  {
    s' := Move(s0, s, Save(1, SaveErr(ContextDone, None)));
    s' := Move(s0, s', Compensate(1, 0, Ok));
  }

  lemma BothReturn(s0: System, s: System) returns (s': System)
    requires var f := Failure(SaveCall, ContextDone);
             && Reach(s0, s) && |s.workers| == 2 && s.workers[0].phase.Finished? && s.workers[0].group == 0
             && s.workers[1] == Worker(0, B, Returning(Some(f)), Some(1), SaveFailed)
    requires |s.groups| == 1 && s.groups[0].spawned == s.groups[0].count && s.groups[0].once.Over?
    requires s.groups[0].cancelled && s.groups[0].verdict.Running?
    ensures var f := Failure(SaveCall, ContextDone);
            && Reach(s0, s') && s'.table == s.table
            && s'.workers == [s.workers[0], Worker(0, B, Finished(Some(f)), Some(1), SaveFailed)]
            && s'.groups == [s.groups[0].(verdict := Returned(s.groups[0].firstErr))]
  {
    s' := Move(s0, s, Report(1));
    s' := Move(s0, s', Join(0));
  }

  /** Two files; the first one's Create fails, and the cancellation that follows reaches the second
      one's Save.  Its row is still set to Failed, and the call returns the first error. */
  lemma CancelledSiblingIsCompensated() returns (s0: System, es: seq<Event>)
    ensures Initial(s0) && Valid(s0, es) && HasReturned(Exec(s0, es), 0) && |Exec(s0, es).workers| == 2
    ensures var s := Exec(s0, es);
            && Ends(s, 0, NoRow) && Ends(s, 1, RowFailed)
            && s.workers[1].phase == Finished(Some(Failure(SaveCall, ContextDone)))
            && s.groups[0].verdict == Returned(Some(Blame(0, Failure(CreateCall, Fault(1)))))
            && !s.groups[0].parentDone
  {
    var s;
    s0, s := TwoStarted();
    s := FirstFails(s0, s);
    s := SecondCancelled(s0, s);
    s := BothReturn(s0, s);
    es :| Run(s0, es) == Some(s);
  }

  /** A run in which every call that reports an error had no effect. */
  predicate Lossless(es: seq<Event>) {
    forall k | 0 <= k < |es| ::
      match es[k]
      case Create(_, _, _, r) => !(r.Err? && r.applied)
      case Compensate(_, _, r) => !(r.Err? && r.applied)
      case Complete(_, _, r) => !(r.Err? && r.applied)
      case _ => true
  }

  ghost predicate TightAt(s: System, w: nat)
    requires w < |s.workers|
  {
    var f := FailureOf(s.workers[w].phase);
    && (f.Some? && f.value.call.CreateCall? ==> s.workers[w].row.None?)
    && (f.Some? && f.value.call.CompleteCall? ==> StatusOf(s, w) == Some(Pending))
  }

  ghost predicate Tight(s: System) {
    forall w | 0 <= w < |s.workers| :: TightAt(s, w)
  }

  lemma TightActor(s: System, e: Event)
    requires Enabled(s, e) && EffectOf(s, e).OnWorker? && Lossless([e])
    requires WorkerOk(s, EffectOf(s, e).w) && TightAt(s, EffectOf(s, e).w)
    ensures TightAt(Apply(s, e), EffectOf(s, e).w)
  {
    assert [e][0] == e;
    assert StatusOf(Apply(s, e), EffectOf(s, e).w) == StatusAfter(s, EffectOf(s, e));
  }

  lemma TightStep(s: System, e: Event)
    requires Inv(s) && Enabled(s, e) && Tight(s) && Lossless([e])
    ensures Tight(Apply(s, e))
  {
    var s' := Apply(s, e);
    var f := EffectOf(s, e);
    forall w | 0 <= w < |s'.workers|
      ensures TightAt(s', w)
    {
      if f.OnWorker? {
        assert WorkerOk(s, f.w) && WorkerOk(s, w) && TightAt(s, w) && TightAt(s, f.w);
        if w == f.w {
          TightActor(s, e);
        } else {
          EffectIsSound(s, e);
          OtherWorkerOk(s, f, w);
        }
      } else if w < |s.workers| {
        assert TightAt(s, w);
      }
    }
  }

  lemma {:induction false} LosslessRunIsTight(s0: System, es: seq<Event>)
    requires Initial(s0) && Valid(s0, es) && Lossless(es)
    ensures Tight(Exec(s0, es))
    decreases |es|
  {
    if es != [] {
      var t, e := LastStep(s0, es);
      LosslessRunIsTight(s0, es[..|es| - 1]);
      assert Lossless([e]) by {
        assert es[|es| - 1] == e;
      }
      TightStep(t, e);
    }
  }

  /** When no reply is lost, there is no orphan row, and the result is nil exactly when every
      file ends completed and saved. */
  lemma HowFilesEndLossless(s0: System, es: seq<Event>, g: nat)
    requires Initial(s0) && Valid(s0, es) && HasReturned(Exec(s0, es), g) && Lossless(es)
    ensures var s := Exec(s0, es);
            && (forall w | 0 <= w < |s.workers| && s.workers[w].group == g :: !Ends(s, w, OrphanPending))
            && (s.groups[g].verdict.err.None? <==>
                forall w | 0 <= w < |s.workers| && s.workers[w].group == g :: Ends(s, w, CompletedSaved))
  {
    var s := Exec(s0, es);
    ReachableInv(s0, es);
    HowFilesEnd(s0, es, g);
    LosslessRunIsTight(s0, es);
    forall w | 0 <= w < |s.workers| && s.workers[w].group == g
      ensures !Ends(s, w, OrphanPending)
      ensures Ends(s, w, CompletedSaved) ==> forall k | 0 <= k < |es| :: !CompleteFailed(es[k], w)
    {
      assert WorkerOk(s, w) && TightAt(s, w) && s.workers[w].phase.Finished?;
      forall k | 0 <= k < |es| && Ends(s, w, CompletedSaved)
        ensures !CompleteFailed(es[k], w)
      {
        if CompleteFailed(es[k], w) {
          CompleteErrorIsKept(s0, es, w, k);
        }
      }
    }
  }

  // ------------------------------------------------------------------ the order of the calls

  function CallsOf(es: seq<Event>, w: nat): nat {
    if es == [] then 0
    else CallsOf(es[..|es| - 1], w) + if IsCallOf(es[|es| - 1], w) then 1 else 0
  }

  function CallsLeft(p: Phase): nat {
    match p
    case Idle => 4
    case Creating => 4
    case Saving => 3
    case Completing => 2
    case Notifying => 1
    case Compensating(_) => 1
    case _ => 0
  }

  lemma StepSpendsCalls(s: System, e: Event, w: nat)
    requires Enabled(s, e) && w < |s.workers|
    ensures w < |Apply(s, e).workers|
    ensures CallsLeft(Apply(s, e).workers[w].phase) + (if IsCallOf(e, w) then 1 else 0) <= CallsLeft(s.workers[w].phase)
  {
    assert w < |Apply(s, e).workers|;
    WorkerAfter(s, e, w);
  }

  /** However a run goes, a goroutine makes at most four calls. */
  lemma {:induction false} AtMostFourCalls(s0: System, es: seq<Event>, w: nat)
    requires Initial(s0) && Valid(s0, es)
    ensures w < |Exec(s0, es).workers| ==> CallsOf(es, w) + CallsLeft(Exec(s0, es).workers[w].phase) <= 4
    ensures w >= |Exec(s0, es).workers| ==> CallsOf(es, w) == 0
    decreases |es|
  {
    if es != [] {
      var t, e := LastStep(s0, es);
      AtMostFourCalls(s0, es[..|es| - 1], w);
      if w < |t.workers| {
        StepSpendsCalls(t, e, w);
      } else if w < |Apply(t, e).workers| {
        WorkerAfter(t, e, w);
      }
    }
  }

  lemma SaveNoteAfter(s: System, e: Event, w: nat)
    requires Enabled(s, e) && w < |Apply(s, e).workers| && Apply(s, e).workers[w].save.Saved?
    ensures var me := Apply(s, e).workers[w];
            e == Save(w, SaveOk(me.save.stored)) || (w < |s.workers| && s.workers[w].save == me.save)
  {
    WorkerAfter(s, e, w);
  }

  lemma {:induction false} SavedHasEvent(s0: System, es: seq<Event>, w: nat) returns (k: nat)
    requires Initial(s0) && Valid(s0, es) && w < |Exec(s0, es).workers| && Exec(s0, es).workers[w].save.Saved?
    ensures k < |es| && es[k] == Save(w, SaveOk(Exec(s0, es).workers[w].save.stored))
    decreases |es|
  {
    var t, e := LastStep(s0, es);
    SaveNoteAfter(t, e, w);
    if w < |t.workers| && t.workers[w].save == Exec(s0, es).workers[w].save {
      k := SavedHasEvent(s0, es[..|es| - 1], w);
    } else {
      k := |es| - 1;
    }
  }

  lemma CompletedAfter(s: System, e: Event, id: int)
    requires Inv(s) && Enabled(s, e) && id in Apply(s, e).owner && Apply(s, e).table[id].status == Completed
    ensures || (id in s.owner && s.owner[id] == Apply(s, e).owner[id] && s.table[id].status == Completed)
            || (&& e.Complete? && e.reply.Applied() && e.w == Apply(s, e).owner[id]
                && e.w < |s.workers| && s.workers[e.w].save.Saved? && Apply(s, e).table[id].updatedAt == e.now)
  {
    var f := EffectOf(s, e);
    if f.OnWorker? && f.put.Some? {
      assert WorkerOk(s, f.w);
      PutAdvances(s, e);
    }
  }

  /** A Completed row of the parallel upload: its own goroutine saved the file first and
      completed the row later. */
  lemma {:induction false} CompletedAfterSave(s0: System, es: seq<Event>, id: int) returns (j: nat, k: nat)
    requires Initial(s0) && Valid(s0, es)
    requires id in Exec(s0, es).owner && id in Exec(s0, es).table && Exec(s0, es).table[id].status == Completed
    ensures j < k < |es|
    ensures var w := Exec(s0, es).owner[id];
            && es[j].Save? && es[j].w == w && es[j].outcome.SaveOk?
            && es[k].Complete? && es[k].w == w && es[k].reply.Applied()
            && Exec(s0, es).table[id].updatedAt == es[k].now
    decreases |es|
  {
    var t, e := LastStep(s0, es);
    CompletedAfter(t, e, id);
    if id in t.owner && t.owner[id] == Exec(s0, es).owner[id] && t.table[id].status == Completed {
      StepEvolves(t, e);
      j, k := CompletedAfterSave(s0, es[..|es| - 1], id);
    } else {
      j := SavedHasEvent(s0, es[..|es| - 1], e.w);
      k := |es| - 1;
    }
  }

  /** A notification is attempted only when the goroutine's row is already Completed. */
  lemma NotifyAfterCompleted(s0: System, es: seq<Event>, k: nat)
    requires Initial(s0) && Valid(s0, es) && k < |es| && es[k].Notify?
    ensures Valid(s0, es[..k]) && es[k].w < |Exec(s0, es[..k]).workers|
    ensures StatusOf(Exec(s0, es[..k]), es[k].w) == Some(Completed)
  {
    Prefix(s0, es, k);
    ReachableInv(s0, es[..k]);
    assert WorkerOk(Exec(s0, es[..k]), es[k].w);
  }

  lemma SilenceStays(s: System, e: Event, w: nat)
    requires Enabled(s, e) && w < |s.workers| && CallsLeft(s.workers[w].phase) == 0
    ensures !IsCallOf(e, w)
    ensures w < |Apply(s, e).workers| && CallsLeft(Apply(s, e).workers[w].phase) == 0
  {
    StepSpendsCalls(s, e, w);
  }

  lemma StillSilent(es: seq<Event>, k: nat, w: nat)
    requires es != [] && !IsCallOf(es[|es| - 1], w)
    requires var init := es[..|es| - 1]; forall j | k < j < |init| :: !IsCallOf(init[j], w)
    ensures forall j | k < j < |es| :: !IsCallOf(es[j], w)
  {
    var init := es[..|es| - 1];
    forall j | k < j < |es|
      ensures !IsCallOf(es[j], w)
    {
      assert j < |init| ==> init[j] == es[j];
    }
  }

  /** After its notification a goroutine makes no further call of any kind, so no file is
      notified twice. */
  lemma {:induction false} NothingAfterNotify(s0: System, es: seq<Event>, k: nat)
    requires Initial(s0) && Valid(s0, es) && k < |es| && es[k].Notify?
    ensures forall j | k < j < |es| :: !IsCallOf(es[j], es[k].w)
    ensures es[k].w < |Exec(s0, es).workers| && CallsLeft(Exec(s0, es).workers[es[k].w].phase) == 0
    decreases |es|
  {
    var t, e := LastStep(s0, es);
    var n := |es| - 1;
    if k < n {
      NothingAfterNotify(s0, es[..n], k);
      SilenceStays(t, e, es[k].w);
      StillSilent(es, k, es[k].w);
    } else {
      StepSpendsCalls(t, e, e.w);
    }
  }

  /** Every notification that went out names a row that is Completed, yet its payload still
      says Pending: the goroutine's record never learns the new status. */
  lemma NotificationsSayPending(s0: System, es: seq<Event>, k: nat)
    requires Initial(s0) && Valid(s0, es) && k < |Exec(s0, es).notes|
    ensures var s := Exec(s0, es);
            var n := s.notes[k];
            && n.id in s.table && s.table[n.id].status == Completed && s.table[n.id].fileName == n.fileName
            && n.worker < |s.workers| && s.workers[n.worker].group < |s.groups|
            && n.tenantId == TenantShown(s.groups[s.workers[n.worker].group].tenant)
            && n.status == Pending
  {
    var s := Exec(s0, es);
    ReachableInv(s0, es);
    assert NoteOk(s, s.notes[k]) && WorkerOk(s, s.notes[k].worker);
  }

  predicate ReturnsNil(p: Phase) {
    p == Returning(None) || p == Finished(None)
  }

  lemma NilStep(s: System, e: Event, w: nat)
    requires Enabled(s, e) && w < |Apply(s, e).workers|
    ensures Apply(s, e).hasPipeline == s.hasPipeline
    ensures s.hasPipeline && ReturnsNil(Apply(s, e).workers[w].phase) ==>
              (e.Notify? && e.w == w) || (w < |s.workers| && ReturnsNil(s.workers[w].phase))
    ensures !s.hasPipeline && Apply(s, e).workers[w].phase.Notifying? ==>
              w < |s.workers| && s.workers[w].phase.Notifying?
  {
    WorkerAfter(s, e, w);
  }

  lemma {:induction false} PipelineFixed(s0: System, es: seq<Event>)
    requires Initial(s0) && Valid(s0, es)
    ensures Exec(s0, es).hasPipeline == s0.hasPipeline
    ensures !s0.hasPipeline ==> forall w | 0 <= w < |Exec(s0, es).workers| :: !Exec(s0, es).workers[w].phase.Notifying?
    decreases |es|
  {
    if es != [] {
      var t, e := LastStep(s0, es);
      PipelineFixed(s0, es[..|es| - 1]);
      assert Apply(t, e).hasPipeline == t.hasPipeline;
      forall w | 0 <= w < |Apply(t, e).workers| && !s0.hasPipeline
        ensures !Apply(t, e).workers[w].phase.Notifying?
      {
        NilStep(t, e, w);
      }
    }
  }

  /** With a pipeline, a goroutine returns nil only after its notification was attempted. */
  lemma {:induction false} NilMeansNotified(s0: System, es: seq<Event>, w: nat) returns (k: nat)
    requires Initial(s0) && Valid(s0, es) && s0.hasPipeline
    requires w < |Exec(s0, es).workers| && ReturnsNil(Exec(s0, es).workers[w].phase)
    ensures k < |es| && es[k].Notify? && es[k].w == w
    decreases |es|
  {
    var t, e := LastStep(s0, es);
    PipelineFixed(s0, es[..|es| - 1]);
    NilStep(t, e, w);
    if e.Notify? && e.w == w {
      k := |es| - 1;
    } else {
      k := NilMeansNotified(s0, es[..|es| - 1], w);
    }
  }

  // ---------------------------------------------------------------------------- compensation

  predicate Resting(p: Phase) {
    p.Returning? || p.Cancelling? || p.Finished?
  }

  /** The goroutine's row, as an id and in the table, and its save note are the same. */
  predicate SameOutcome(s: System, s': System, w: nat) {
    && w < |s.workers| && w < |s'.workers|
    && s'.workers[w].row == s.workers[w].row && s'.workers[w].save == s.workers[w].save
    && (s.workers[w].row.Some? ==>
          var id := s.workers[w].row.value;
          id in s.table && id in s'.table && s'.table[id] == s.table[id])
  }

  lemma RestingActor(s: System, e: Event)
    requires Enabled(s, e) && EffectOf(s, e).OnWorker?
    requires WorkerOk(s, EffectOf(s, e).w) && Resting(s.workers[EffectOf(s, e).w].phase)
    ensures var s', w := Apply(s, e), EffectOf(s, e).w;
            w < |s'.workers| && Resting(s'.workers[w].phase) && SameOutcome(s, s', w)
  {
  }

  lemma OtherRests(s: System, e: Event, w: nat)
    requires Enabled(s, e) && EffectOf(s, e).OnWorker? && EffectOf(s, e).w != w && w < |s.workers|
    requires WorkerOk(s, EffectOf(s, e).w) && WorkerOk(s, w) && IdsOk(s)
    ensures w < |Apply(s, e).workers| && Apply(s, e).workers[w] == s.workers[w]
    ensures SameOutcome(s, Apply(s, e), w)
  {
    EffectIsSound(s, e);
    OtherWorkerOk(s, EffectOf(s, e), w);
  }

  /** Once a goroutine has made its last call, its row and its save note are final. */
  lemma RestingStays(s: System, e: Event, w: nat)
    requires Inv(s) && Enabled(s, e) && w < |s.workers| && Resting(s.workers[w].phase)
    ensures w < |Apply(s, e).workers| && Resting(Apply(s, e).workers[w].phase)
    ensures SameOutcome(s, Apply(s, e), w)
  {
    var f := EffectOf(s, e);
    assert WorkerOk(s, w);
    if f.OnWorker? {
      assert WorkerOk(s, f.w);
      if f.w == w {
        RestingActor(s, e);
      } else {
        OtherRests(s, e, w);
      }
    }
  }

  /** From the moment a goroutine has made its last call to the end of the run, its row and its
      save note stay as they are. */
  lemma {:induction false} RestingIsFinal(s0: System, es: seq<Event>, i: nat, w: nat)
    requires Initial(s0) && Valid(s0, es) && i <= |es| && Valid(s0, es[..i])
    requires w < |Exec(s0, es[..i]).workers| && Resting(Exec(s0, es[..i]).workers[w].phase)
    ensures w < |Exec(s0, es).workers| && Resting(Exec(s0, es).workers[w].phase)
    ensures SameOutcome(Exec(s0, es[..i]), Exec(s0, es), w)
    decreases |es|
  {
    if i == |es| {
      assert es[..i] == es;
      ReachableInv(s0, es);
      assert WorkerOk(Exec(s0, es), w);
    } else {
      var t, e := LastStep(s0, es);
      assert es[..|es| - 1][..i] == es[..i];
      RestingIsFinal(s0, es[..|es| - 1], i, w);
      RestingStays(t, e, w);
    }
  }

  function UpdatedAt(s: System, w: nat): Option<int>
    requires w < |s.workers|
  {
    match s.workers[w].row
    case None => None
    case Some(id) => if id in s.table then Some(s.table[id].updatedAt) else None
  }

  lemma CompensateStep(s: System, e: Event)
    requires Inv(s) && Enabled(s, e) && e.Compensate?
    ensures e.w < |Apply(s, e).workers|
    ensures Resting(Apply(s, e).workers[e.w].phase)
    ensures StatusOf(Apply(s, e), e.w) == Some(if e.reply.Applied() then Failed else Pending)
    ensures e.reply.Err? ==> e.reply.cause.Fault?
    ensures e.reply.Applied() ==> UpdatedAt(Apply(s, e), e.w) == Some(e.now)
  {
    assert WorkerOk(s, e.w);
    assert StatusOf(Apply(s, e), e.w) == StatusAfter(s, EffectOf(s, e));
  }

  lemma BeforeFailedSave(s: System, e: Event, w: nat)
    requires Enabled(s, e) && w < |Apply(s, e).workers| && !(e.Compensate? && e.w == w)
    requires Apply(s, e).workers[w].save.SaveFailed? && !Apply(s, e).workers[w].phase.Compensating?
    ensures w < |s.workers| && s.workers[w].save.SaveFailed? && !s.workers[w].phase.Compensating?
  {
    WorkerAfter(s, e, w);
  }

  /** A failed Save is always compensated, cancelled group or not: the goroutine's rollback
      call is made, cannot fail by cancellation, and decides whether the row ends Failed. */
  lemma {:induction false} FailedSaveIsCompensated(s0: System, es: seq<Event>, w: nat) returns (k: nat)
    requires Initial(s0) && Valid(s0, es) && w < |Exec(s0, es).workers|
    requires Exec(s0, es).workers[w].save.SaveFailed? && !Exec(s0, es).workers[w].phase.Compensating?
    ensures k < |es| && es[k].Compensate? && es[k].w == w
    ensures es[k].reply.Err? ==> es[k].reply.cause.Fault?
    ensures StatusOf(Exec(s0, es), w) == Some(if es[k].reply.Applied() then Failed else Pending)
    ensures es[k].reply.Applied() ==> UpdatedAt(Exec(s0, es), w) == Some(es[k].now)
    ensures Resting(Exec(s0, es).workers[w].phase)
    decreases |es|
  {
    var t, e := LastStep(s0, es);
    WorkerAfter(t, e, w);
    if e.Compensate? && e.w == w {
      CompensateStep(t, e);
      k := |es| - 1;
    } else {
      BeforeFailedSave(t, e, w);
      k := FailedSaveIsCompensated(s0, es[..|es| - 1], w);
      RestingStays(t, e, w);
    }
  }

  // -------------------------------------------------------------------- the call terminates

  function WorkLeft(p: Phase): nat {
    match p
    case Idle => 7
    case Creating => 6
    case Saving => 5
    case Completing => 4
    case Notifying => 3
    case Compensating(_) => 3
    case Returning(_) => 2
    case Cancelling(_) => 1
    case Finished(_) => 0
  }

  function WorkersLeft(ws: seq<Worker>): nat {
    if ws == [] then 0 else WorkersLeft(ws[..|ws| - 1]) + WorkLeft(ws[|ws| - 1].phase)
  }

  function GroupsLeft(gs: seq<Group>): nat {
    if gs == [] then 0
    else
      GroupsLeft(gs[..|gs| - 1])
      + (if gs[|gs| - 1].verdict.Running? then 1 else 0)
      + (if gs[|gs| - 1].parentDone then 0 else 1)
  }

  /** How many more steps the calls already begun can take. */
  function StepsLeft(s: System): nat {
    WorkersLeft(s.workers) + GroupsLeft(s.groups)
  }

  lemma {:induction false} WorkersLeftUpdate(ws: seq<Worker>, w: nat, me: Worker)
    requires w < |ws|
    ensures WorkersLeft(ws[w := me]) + WorkLeft(ws[w].phase) == WorkersLeft(ws) + WorkLeft(me.phase)
    decreases |ws|
  {
    var n := |ws| - 1;
    var ws' := ws[w := me];
    if w < n {
      WorkersLeftUpdate(ws[..n], w, me);
      assert ws'[..n] == ws[..n][w := me];
    } else {
      assert ws'[..n] == ws[..n];
    }
  }

  lemma {:induction false} GroupsLeftUpdate(gs: seq<Group>, g: nat, grp: Group)
    requires g < |gs|
    ensures GroupsLeft(gs[g := grp]) + GroupsLeft([gs[g]]) == GroupsLeft(gs) + GroupsLeft([grp])
    decreases |gs|
  {
    var n := |gs| - 1;
    var gs' := gs[g := grp];
    if g < n {
      GroupsLeftUpdate(gs[..n], g, grp);
      assert gs'[..n] == gs[..n][g := grp];
    } else {
      assert gs'[..n] == gs[..n];
      assert [gs[g]][..0] == [] && [grp][..0] == [];
    }
  }

  lemma EffectShrinks(s: System, e: Event)
    requires Enabled(s, e) && !e.Begin?
    ensures var f := EffectOf(s, e);
            && (f.OnWorker? ==>
                  && WorkLeft(f.worker.phase) < WorkLeft(s.workers[f.w].phase)
                  && f.worker.group == s.workers[f.w].group
                  && GroupsLeft([f.group]) == GroupsLeft([GroupOf(s, f.w)]))
            && (f.OnGroup? ==> GroupsLeft([f.group]) < GroupsLeft([s.groups[f.g]]))
  {
  }

  lemma NoWayBack(s: System, e: Event, w: nat)
    requires Enabled(s, e) && w < |s.workers|
    ensures w < |Apply(s, e).workers|
    ensures WorkLeft(Apply(s, e).workers[w].phase) <= WorkLeft(s.workers[w].phase)
  {
    WorkerAfter(s, e, w);
    if !e.Begin? {
      EffectShrinks(s, e);
    }
  }

  lemma StepShrinks(s: System, e: Event)
    requires Enabled(s, e) && !e.Begin?
    ensures StepsLeft(Apply(s, e)) < StepsLeft(s)
  {
    var f := EffectOf(s, e);
    EffectShrinks(s, e);
    if f.OnWorker? {
      WorkersLeftUpdate(s.workers, f.w, f.worker);
      GroupsLeftUpdate(s.groups, f.worker.group, f.group);
    } else {
      GroupsLeftUpdate(s.groups, f.g, f.group);
    }
  }

  /** Without new calls, no run is longer than the work that is left. */
  lemma {:induction false} RunsAreBounded(s: System, es: seq<Event>)
    requires Valid(s, es) && forall k | 0 <= k < |es| :: !es[k].Begin?
    ensures |es| + StepsLeft(Exec(s, es)) <= StepsLeft(s)
    decreases |es|
  {
    if es != [] {
      var n := |es| - 1;
      forall k | 0 <= k < n
        ensures !es[..n][k].Begin?
      {
        assert es[..n][k] == es[k];
      }
      RunsAreBounded(s, es[..n]);
      StepShrinks(Exec(s, es[..n]), es[n]);
    }
  }

  /** A step in which no call fails and nobody cancels from outside. */
  predicate Healthy(e: Event) {
    match e
    case ParentDone(_) => false
    case Create(_, _, _, r) => r.Ok?
    case Save(_, o) => o.SaveOk?
    case Compensate(_, _, r) => r.Ok?
    case Complete(_, _, r) => r.Ok?
    case Notify(_, r) => r.Ok?
    case _ => true
  }

  /** A Save that reports success has stored its buffer as it was given. */
  predicate Whole(s: System, e: Event) {
    match e
    case Save(w, SaveOk(stored)) =>
      w < |s.workers| && (s.workers[w].file.content.Buffer? ==> stored == s.workers[w].file.content.bytes)
    case _ => true
  }

  /** A step of goroutine w's own, when it can take one: here every call succeeds. */
  function NextOf(s: System, w: nat): Event
    requires w < |s.workers|
  {
    var me := s.workers[w];
    match me.phase
    case Idle => Spawn(me.group)
    case Creating => Create(w, s.lastId + 1, 0, Ok)
    case Saving => Save(w, SaveOk(if me.file.content.Buffer? then me.file.content.bytes else []))
    case Compensating(_) => Compensate(w, 0, Ok)
    case Completing => Complete(w, 0, Ok)
    case Notifying => Notify(w, Ok)
    case Cancelling(_) => Cancel(w)
    case _ => Report(w)
  }

  lemma NextIsEnabled(s: System, w: nat)
    requires w < |s.workers| && PlaceOk(s, w) && GroupOk(s, s.workers[w].group) && IdsOk(s)
    requires !s.workers[w].phase.Finished? && !GroupOf(s, w).once.Busy?
    requires s.workers[w].phase.Idle? ==> w == GroupOf(s, w).first + GroupOf(s, w).spawned
    ensures Enabled(s, NextOf(s, w)) && !NextOf(s, w).Begin? && Healthy(NextOf(s, w)) && Whole(s, NextOf(s, w))
    ensures EffectOf(s, NextOf(s, w)).OnWorker? && EffectOf(s, NextOf(s, w)).w == w
  {
  }

  lemma StepIn(s: System, g: nat) returns (e: Event)
    requires Inv(s) && g < |s.groups| && s.groups[g].verdict.Running?
    ensures Enabled(s, e) && !e.Begin? && !e.ParentDone? && Healthy(e) && Whole(s, e)
    ensures EffectOf(s, e).OnWorker? ==> s.workers[EffectOf(s, e).w].group == g
  {
    var grp := s.groups[g];
    assert GroupOk(s, g);
    if grp.once.Busy? {
      var b := grp.firstErr.value;
      assert BlameOk(s, g, b);
      e := Cancel(b.worker);
    } else if grp.spawned < grp.count {
      var w := grp.first + grp.spawned;
      assert PlaceOk(s, w);
      NextIsEnabled(s, w);
      e := NextOf(s, w);
    } else if AllFinished(s, g) {
      e := Join(g);
    } else {
      var w :| 0 <= w < |s.workers| && s.workers[w].group == g && !s.workers[w].phase.Finished?;
      assert PlaceOk(s, w);
      NextIsEnabled(s, w);
      e := NextOf(s, w);
    }
  }

  /** No deadlock: as long as a call has not returned, some goroutine of it, or its Wait, can
      take a step, provided every call it makes of a repository is answered. */
  lemma SomeStepIsEnabled(s0: System, es: seq<Event>, g: nat) returns (e: Event)
    requires Initial(s0) && Valid(s0, es) && g < |Exec(s0, es).groups| && Exec(s0, es).groups[g].verdict.Running?
    ensures Enabled(Exec(s0, es), e) && !e.Begin? && !e.ParentDone? && Healthy(e) && Whole(Exec(s0, es), e)
  {
    ReachableInv(s0, es);
    e := StepIn(Exec(s0, es), g);
  }

  /** Nothing enabled but new calls and cancellations from outside. */
  ghost predicate Quiescent(s: System) {
    forall e | Enabled(s, e) :: e.Begin? || e.ParentDone?
  }

  /** Every run without further calls reaches, within StepsLeft steps, a state where nothing of
      its own can happen; and there every call has returned. */
  lemma CallsReturn(s0: System, es: seq<Event>)
    requires Initial(s0) && Valid(s0, es) && Quiescent(Exec(s0, es))
    ensures forall g | 0 <= g < |Exec(s0, es).groups| :: HasReturned(Exec(s0, es), g)
  {
    var s := Exec(s0, es);
    forall g | 0 <= g < |s.groups|
      ensures HasReturned(s, g)
    {
      if s.groups[g].verdict.Running? {
        var e := SomeStepIsEnabled(s0, es, g);
        assert false;
      }
    }
  }

  // ------------------------------------------------------------------ which notifications arrive

  /** e is an attempt of goroutine w to notify that was carried out. */
  predicate Arrives(e: Event, w: nat) {
    e.Notify? && e.w == w && (e.reply.Ok? || e.reply.applied)
  }

  /** The goroutines whose notifications arrive, in order. */
  function Sent(es: seq<Event>): seq<nat> {
    if es == [] then []
    else
      var e := es[|es| - 1];
      Sent(es[..|es| - 1]) + if e.Notify? && Arrives(e, e.w) then [e.w] else []
  }

  function Senders(notes: seq<Note>): (ws: seq<nat>)
    ensures |ws| == |notes| && forall i | 0 <= i < |ws| :: ws[i] == notes[i].worker
  {
    seq(|notes|, i requires 0 <= i < |notes| => notes[i].worker)
  }

  lemma NoteStep(s: System, e: Event)
    requires Inv(s) && Enabled(s, e)
    ensures e.Notify? && Arrives(e, e.w) ==>
              |Apply(s, e).notes| == |s.notes| + 1 && Apply(s, e).notes[..|s.notes|] == s.notes
              && Apply(s, e).notes[|s.notes|].worker == e.w
    ensures !(e.Notify? && Arrives(e, e.w)) ==> Apply(s, e).notes == s.notes
  {
    if e.Notify? {
      assert WorkerOk(s, e.w);
    }
  }

  /** The log of notifications is exactly the attempts that were carried out, in their order. */
  lemma {:induction false} NotesAreSent(s0: System, es: seq<Event>)
    requires Initial(s0) && Valid(s0, es)
    ensures Senders(Exec(s0, es).notes) == Sent(es)
    decreases |es|
  {
    if es != [] {
      var t, e := LastStep(s0, es);
      NotesAreSent(s0, es[..|es| - 1]);
      NoteStep(t, e);
      var notes := Apply(t, e).notes;
      assert Senders(notes) == Senders(t.notes) + if e.Notify? && Arrives(e, e.w) then [e.w] else [];
    }
  }

  lemma {:induction false} SentHasEvent(es: seq<Event>, w: nat) returns (k: nat)
    requires w in Sent(es)
    ensures k < |es| && Arrives(es[k], w)
  {
    var n := |es| - 1;
    if w in Sent(es[..n]) {
      k := SentHasEvent(es[..n], w);
    } else {
      k := n;
    }
  }

  lemma {:induction false} EventIsSent(es: seq<Event>, k: nat, w: nat)
    requires k < |es| && Arrives(es[k], w)
    ensures w in Sent(es)
  {
    var n := |es| - 1;
    if k < n {
      EventIsSent(es[..n], k, w);
    }
  }

  lemma {:induction false} SentOnce(s0: System, es: seq<Event>)
    requires Initial(s0) && Valid(s0, es)
    ensures forall i, j | 0 <= i < j < |Sent(es)| :: Sent(es)[i] != Sent(es)[j]
    decreases |es|
  {
    if es != [] {
      var t, e := LastStep(s0, es);
      SentOnce(s0, es[..|es| - 1]);
      if e.Notify? && e.w in Sent(es[..|es| - 1]) {
        var k := SentHasEvent(es[..|es| - 1], e.w);
        NothingAfterNotify(s0, es, k);
      }
    }
  }

  /** A goroutine has a notification in the log exactly when an attempt of it was carried out, and
      then it has one. */
  lemma NotificationsArrive(s0: System, es: seq<Event>, w: nat)
    requires Initial(s0) && Valid(s0, es)
    ensures var notes := Exec(s0, es).notes;
            && ((exists i :: 0 <= i < |notes| && notes[i].worker == w)
                <==> exists k :: 0 <= k < |es| && Arrives(es[k], w))
            && forall i, j | 0 <= i < j < |notes| :: notes[i].worker != notes[j].worker
  {
    var notes := Exec(s0, es).notes;
    NotesAreSent(s0, es);
    SentOnce(s0, es);
    var ws := Senders(notes);
    assert forall i | 0 <= i < |notes| :: notes[i].worker == ws[i];
    if i :| 0 <= i < |notes| && notes[i].worker == w {
      assert ws[i] in Sent(es);
      var k := SentHasEvent(es, w);
    }
    if k :| 0 <= k < |es| && Arrives(es[k], w) {
      EventIsSent(es, k, w);
      var i :| 0 <= i < |ws| && ws[i] == w;
    }
  }

  // ------------------------------------------------------------------------ what a call is about

  /** Call g is for this tenant and these files, one goroutine from first on for each. */
  ghost predicate Placed(s: System, g: nat, first: nat, tenant: string, files: seq<File>) {
    && g < |s.groups| && first + |files| <= |s.workers|
    && s.groups[g].tenant == tenant && s.groups[g].first == first && s.groups[g].count == |files|
    && forall w | first <= w < first + |files| :: s.workers[w].group == g && s.workers[w].file == files[w - first]
  }

  lemma MoreWorkers(s: System, e: Event)
    requires Enabled(s, e)
    ensures |Apply(s, e).workers| >= |s.workers|
  {
  }

  lemma GroupStays(s: System, e: Event, g: nat)
    requires Enabled(s, e) && g < |s.groups|
    ensures g < |Apply(s, e).groups|
    ensures var a, b := s.groups[g], Apply(s, e).groups[g];
            b.tenant == a.tenant && b.first == a.first && b.count == a.count
  {
    assert g < |Apply(s, e).groups|;
  }

  lemma WorkerStays(s: System, e: Event, w: nat)
    requires Enabled(s, e) && w < |s.workers| < |Apply(s, e).workers| + 1
    ensures Apply(s, e).workers[w].group == s.workers[w].group && Apply(s, e).workers[w].file == s.workers[w].file
  {
    WorkerAfter(s, e, w);
  }

  lemma PlacedStays(s: System, e: Event, g: nat, first: nat, tenant: string, files: seq<File>)
    requires Enabled(s, e) && Placed(s, g, first, tenant, files)
    ensures Placed(Apply(s, e), g, first, tenant, files)
  {
    var s' := Apply(s, e);
    MoreWorkers(s, e);
    GroupStays(s, e, g);
    forall w | first <= w < first + |files|
      ensures s'.workers[w].group == g && s'.workers[w].file == files[w - first]
    {
      WorkerStays(s, e, w);
    }
  }

  lemma BeginPlaces(s: System, tenant: string, files: seq<File>)
    ensures Placed(Apply(s, Begin(tenant, files)), |s.groups|, |s.workers|, tenant, files)
  {
    var s' := Apply(s, Begin(tenant, files));
    var added := FreshWorkers(|s.groups|, files);
    assert s'.workers == s.workers + added;
    forall w | |s.workers| <= w < |s.workers| + |files|
      ensures s'.workers[w].group == |s.groups| && s'.workers[w].file == files[w - |s.workers|]
    {
      assert s'.workers[w] == added[w - |s.workers|];
    }
  }

  lemma {:induction false} PlacedFrom(s0: System, es: seq<Event>, k: nat,
          g: nat, first: nat, tenant: string, files: seq<File>)
    requires Initial(s0) && Valid(s0, es) && k <= |es| && Valid(s0, es[..k])
    requires Placed(Exec(s0, es[..k]), g, first, tenant, files)
    ensures Placed(Exec(s0, es), g, first, tenant, files)
    decreases |es|
  {
    if k == |es| {
      assert es[..k] == es;
    } else {
      var t, e := LastStep(s0, es);
      assert es[..|es| - 1][..k] == es[..k];
      PlacedFrom(s0, es[..|es| - 1], k, g, first, tenant, files);
      PlacedStays(t, e, g, first, tenant, files);
    }
  }

  /** A call keeps the tenant and the files it was begun with, one goroutine for each file in the
      order given. */
  lemma BeginIsKept(s0: System, es: seq<Event>, k: nat)
    requires Initial(s0) && Valid(s0, es) && k < |es| && es[k].Begin? && Valid(s0, es[..k])
    ensures var t := Exec(s0, es[..k]);
            Placed(Exec(s0, es), |t.groups|, |t.workers|, es[k].tenant, es[k].files)
  {
    var t := Exec(s0, es[..k]);
    Prefix(s0, es, k);
    BeginPlaces(t, es[k].tenant, es[k].files);
    PlacedFrom(s0, es, k + 1, |t.groups|, |t.workers|, es[k].tenant, es[k].files);
  }

  // ---------------------------------------------------------------------- what the store holds

  /** What a step leaves under its goroutine's file name, if it writes at all. */
  function LeftBy(e: Event): Option<Bytes> {
    if e.Save? then Left(e.outcome) else None
  }

  function NameOf(s: System, w: nat): string {
    if w < |s.workers| then s.workers[w].file.name else ""
  }

  /** e writes to the store under this name. */
  predicate WritesTo(s: System, e: Event, name: string) {
    LeftBy(e).Some? && NameOf(s, e.w) == name
  }

  lemma StoreAfterStep(s: System, e: Event)
    requires Enabled(s, e)
    ensures Apply(s, e).store ==
            if LeftBy(e).Some? then s.store[NameOf(s, e.w) := LeftBy(e).value] else s.store
    ensures LeftBy(e).Some? ==> e.w < |s.workers|
  {
  }

  lemma FileStays(s: System, e: Event, w: nat)
    requires Enabled(s, e) && w < |s.workers|
    ensures w < |Apply(s, e).workers| && Apply(s, e).workers[w].file == s.workers[w].file
  {
    assert w < |Apply(s, e).workers|;
    WorkerAfter(s, e, w);
  }

  lemma {:induction false} FileKnown(s0: System, es: seq<Event>, k: nat)
    requires Initial(s0) && Valid(s0, es) && k < |es| && LeftBy(es[k]).Some?
    ensures es[k].w < |Exec(s0, es).workers|
    ensures k < |es| - 1 ==>
              var t := Exec(s0, es[..|es| - 1]);
              es[k].w < |t.workers| && NameOf(t, es[k].w) == NameOf(Exec(s0, es), es[k].w)
    decreases |es|
  {
    var t, e := LastStep(s0, es);
    if k < |es| - 1 {
      FileKnown(s0, es[..|es| - 1], k);
    } else {
      StoreAfterStep(t, e);
    }
    FileStays(t, e, es[k].w);
  }

  lemma QuietTail(s0: System, es: seq<Event>, k: nat, name: string)
    requires Initial(s0) && Valid(s0, es) && es != []
    requires forall j | k <= j < |es| :: !WritesTo(Exec(s0, es), es[j], name)
    ensures var init := es[..|es| - 1];
            forall j | k <= j < |init| :: !WritesTo(Exec(s0, init), init[j], name)
  {
    var n := |es| - 1;
    forall j | k <= j < n
      ensures !WritesTo(Exec(s0, es[..n]), es[..n][j], name)
    {
      assert es[..n][j] == es[j];
      if LeftBy(es[j]).Some? {
        FileKnown(s0, es, j);
      }
    }
  }

  lemma OtherNameStays(s: System, e: Event, name: string)
    requires Enabled(s, e) && !WritesTo(Apply(s, e), e, name)
    ensures name in Apply(s, e).store <==> name in s.store
    ensures name in s.store ==> Apply(s, e).store[name] == s.store[name]
  {
    StoreAfterStep(s, e);
    if LeftBy(e).Some? {
      FileStays(s, e, e.w);
    }
  }

  /** In a store that replaces whole objects, the last Save that wrote under a name decides what is
      stored there, whoever used the name before. */
  lemma {:induction false} SavedFileIsStored(s0: System, es: seq<Event>, k: nat)
    requires Initial(s0) && Valid(s0, es) && k < |es| && LeftBy(es[k]).Some?
    requires var s := Exec(s0, es); forall j | k < j < |es| :: !WritesTo(s, es[j], NameOf(s, es[k].w))
    ensures var s := Exec(s0, es);
            && es[k].w < |s.workers| && s.workers[es[k].w].file.name in s.store
            && s.store[s.workers[es[k].w].file.name] == LeftBy(es[k]).value
    decreases |es|
  {
    var t, e := LastStep(s0, es);
    var n := |es| - 1;
    FileKnown(s0, es, k);
    if k < n {
      QuietTail(s0, es, k + 1, NameOf(Exec(s0, es), es[k].w));
      SavedFileIsStored(s0, es[..n], k);
      OtherNameStays(t, e, NameOf(Exec(s0, es), es[k].w));
    } else {
      StoreAfterStep(t, e);
      FileStays(t, e, e.w);
    }
  }

  /** A name that no Save has written under is as it was before the run. */
  lemma {:induction false} UnwrittenNameStays(s0: System, es: seq<Event>, name: string)
    requires Initial(s0) && Valid(s0, es)
    requires forall j | 0 <= j < |es| :: !WritesTo(Exec(s0, es), es[j], name)
    ensures name in Exec(s0, es).store <==> name in s0.store
    ensures name in s0.store ==> Exec(s0, es).store[name] == s0.store[name]
    decreases |es|
  {
    if es != [] {
      var t, e := LastStep(s0, es);
      QuietTail(s0, es, 0, name);
      UnwrittenNameStays(s0, es[..|es| - 1], name);
      OtherNameStays(t, e, name);
    }
  }
}
