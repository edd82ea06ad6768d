// What every step of the upload protocol keeps, whatever the interleaving and the faults.

module UploadInvariants {
  import opened Domain
  import opened UploadProtocol

  function StatusOf(s: System, w: nat): Option<TransferStatus>
    requires w < |s.workers|
  {
    match s.workers[w].row
    case None => None
    case Some(id) => if id in s.table then Some(s.table[id].status) else None
  }

  function FailureOf(p: Phase): Option<Failure> {
    match p
    case Compensating(f) => Some(f)
    case Cancelling(f) => Some(f)
    case Returning(r) => r
    case Finished(r) => r
    case _ => None
  }

  /** What a goroutine's result says about its row and its file. */
  predicate Settled(result: Option<Failure>, save: SaveNote, status: Option<TransferStatus>) {
    match result
    case None => save.Saved? && status == Some(Completed)
    case Some(f) =>
      match f.call
      case CreateCall => save.NotTried? && (status == None || status == Some(Pending))
      case SaveCall => save.SaveFailed? && (status == Some(Pending) || status == Some(Failed))
      case CompleteCall => save.Saved? && (status == Some(Pending) || status == Some(Completed))
  }

  predicate Consistent(p: Phase, save: SaveNote, status: Option<TransferStatus>) {
    match p
    case Idle => save.NotTried? && status == None
    case Creating => save.NotTried? && status == None
    case Saving => save.NotTried? && status == Some(Pending)
    case Compensating(f) => save.SaveFailed? && status == Some(Pending) && f.call.SaveCall?
    case Completing => save.Saved? && status == Some(Pending)
    case Notifying => save.Saved? && status == Some(Completed)
    case Returning(r) => Settled(r, save, status)
    case Cancelling(f) => Settled(Some(f), save, status)
    case Finished(r) => Settled(r, save, status)
  }

  /** A row written for f by the parallel upload, apart from its status and times. */
  predicate Describes(r: Row, f: File) {
    r.fileName == f.name && r.fileSize == f.size && r.source == "parallel-upload" && r.tags == Some(["auto-generated"])
  }

  ghost predicate WorkerOk(s: System, w: nat)
    requires w < |s.workers|
  {
    var me := s.workers[w];
    && (me.row.Some? ==>
          var id := me.row.value;
          id in s.table && id in s.owner && s.owner[id] == w && Describes(s.table[id], me.file))
    && Consistent(me.phase, me.save, StatusOf(s, w))
    && (FailureOf(me.phase).Some? && FailureOf(me.phase).value.cause.ContextDone? ==>
          Live(s, w) && GroupOf(s, w).CtxDone())
  }

  ghost predicate PlaceOk(s: System, w: nat)
    requires w < |s.workers|
  {
    var me := s.workers[w];
    me.group < |s.groups| &&
    var grp := s.groups[me.group];
    && grp.first <= w < grp.first + grp.count
    && (me.phase.Idle? <==> w - grp.first >= grp.spawned)
    && (me.phase.Cancelling? ==> grp.once == Busy(w))
    && (me.phase.Cancelling? || (me.phase.Finished? && me.phase.result.Some?) ==> grp.firstErr.Some?)
  }

  ghost predicate BlameOk(s: System, g: nat, b: Blame)
    requires g < |s.groups|
  {
    var grp := s.groups[g];
    && grp.first <= b.worker < grp.first + grp.count && b.worker < |s.workers|
    && (grp.once.Busy? ==> grp.once.worker == b.worker && s.workers[b.worker].phase == Cancelling(b.failure))
    && (grp.once.Over? ==> s.workers[b.worker].phase == Finished(Some(b.failure)))
    && (!grp.parentDone ==> b.failure.cause.Fault?)
  }

  ghost predicate GroupOk(s: System, g: nat)
    requires g < |s.groups|
  {
    var grp := s.groups[g];
    && grp.first + grp.count <= |s.workers|
    && grp.spawned <= grp.count
    && (forall w | grp.first <= w < grp.first + grp.count :: s.workers[w].group == g)
    && (grp.once.Unused? <==> grp.firstErr.None?)
    && (grp.firstErr.Some? ==> BlameOk(s, g, grp.firstErr.value))
    && (grp.verdict.Running? ==> (grp.cancelled <==> grp.once.Over?))
    && (grp.verdict.Returned? ==>
          grp.spawned == grp.count && AllFinished(s, g) && grp.verdict.err == grp.firstErr && grp.cancelled)
  }

  ghost predicate IdsOk(s: System) {
    && (forall id | id in s.table :: id <= s.lastId)
    && (forall id | id in s.owner ::
          id in s.table && s.owner[id] < |s.workers| && s.workers[s.owner[id]].row == Some(id))
  }

  function TenantShown(tenant: string): string {
    if tenant != "" then tenant else "default-tenant"
  }

  ghost predicate NoteOk(s: System, n: Note) {
    && n.worker < |s.workers|
    && s.workers[n.worker].row == Some(n.id)
    && StatusOf(s, n.worker) == Some(Completed)
    && n.fileName == s.workers[n.worker].file.name
    && s.workers[n.worker].group < |s.groups|
    && n.tenantId == TenantShown(s.groups[s.workers[n.worker].group].tenant)
    && n.status == Pending
  }

  ghost predicate Inv(s: System) {
    && (forall w | 0 <= w < |s.workers| :: WorkerOk(s, w))
    && (forall w | 0 <= w < |s.workers| :: PlaceOk(s, w))
    && (forall g | 0 <= g < |s.groups| :: GroupOk(s, g))
    && (forall k | 0 <= k < |s.notes| :: NoteOk(s, s.notes[k]))
    && IdsOk(s)
  }

  // ----------------------------------------------------------------- what one effect may change

  /** What the invariant needs to know about an effect on goroutine f.w. */
  ghost predicate Sound(s: System, f: Effect)
    requires f.OnWorker?
  {
    && Live(s, f.w)
    && var before := s.workers[f.w];
    && f.worker.group == before.group && f.worker.file == before.file
    && f.lastId >= s.lastId
    && (f.group.CtxDone() || !GroupOf(s, f.w).CtxDone())
    && f.group.first == GroupOf(s, f.w).first && f.group.count == GroupOf(s, f.w).count
    && f.group.tenant == GroupOf(s, f.w).tenant
    && !before.phase.Finished?
    && (f.put.None? ==> f.worker.row == before.row)
    && (f.put.Some? ==>
          && f.worker.row == Some(f.put.value.id)
          && (before.row.None? ==> f.put.value.id !in s.table && f.put.value.id <= f.lastId)
          && (before.row.Some? ==> before.row == f.worker.row)
          && Describes(f.put.value.row, before.file))
    && (f.note.Some? ==>
          && before.row == Some(f.note.value.id) && f.note.value.worker == f.w && f.put.None?
          && f.note.value.fileName == before.file.name && f.note.value.status == Pending
          && f.note.value.tenantId == TenantShown(GroupOf(s, f.w).tenant)
          && StatusOf(s, f.w) == Some(Completed))
    && (before.phase.Creating? || before.row == f.worker.row)
  }

  lemma CreateIsSound(s: System, e: Event)
    requires Enabled(s, e) && e.Create? && WorkerOk(s, e.w) && IdsOk(s)
    ensures Sound(s, EffectOf(s, e))
  {
  }

  /** UpdateStatus rewrites the goroutine's own row, or nothing. */
  lemma StatusPutIsOwn(s: System, w: nat, status: TransferStatus, now: int)
    requires Live(s, w) && WorkerOk(s, w)
    ensures var put := StatusPut(s, w, status, now);
            put.Some? ==>
              && s.workers[w].row == Some(put.value.id)
              && Describes(put.value.row, s.workers[w].file)
  {
  }

  lemma UpdateIsSound(s: System, e: Event)
    requires Enabled(s, e) && (e.Compensate? || e.Complete?) && WorkerOk(s, e.w)
    ensures Sound(s, EffectOf(s, e))
  {
    StatusPutIsOwn(s, e.w, if e.Complete? then Completed else Failed, e.now);
  }

  lemma EffectIsSound(s: System, e: Event)
    requires Enabled(s, e) && EffectOf(s, e).OnWorker?
    requires WorkerOk(s, EffectOf(s, e).w) && IdsOk(s)
    ensures Sound(s, EffectOf(s, e))
  {
    if e.Create? {
      CreateIsSound(s, e);
    } else if e.Compensate? || e.Complete? {
      UpdateIsSound(s, e);
    }
  }

  /** The status of the moved goroutine's row after the effect. */
  function StatusAfter(s: System, f: Effect): Option<TransferStatus>
    requires f.OnWorker? && f.w < |s.workers|
  {
    if f.put.Some? then Some(f.put.value.row.status) else StatusOf(s, f.w)
  }

  lemma EffectIsConsistent(s: System, e: Event)
    requires Enabled(s, e) && EffectOf(s, e).OnWorker?
    requires WorkerOk(s, EffectOf(s, e).w)
    ensures var f := EffectOf(s, e);
            && Consistent(f.worker.phase, f.worker.save, StatusAfter(s, f))
            && (FailureOf(f.worker.phase).Some? && FailureOf(f.worker.phase).value.cause.ContextDone?
                ==> f.group.CtxDone())
  {
  }

  // ------------------------------------------------------------------- every step keeps it all

  lemma MovedWorkerOk(s: System, f: Effect)
    requires f.OnWorker? && Fits(s, f) && Sound(s, f) && WorkerOk(s, f.w)
    requires Consistent(f.worker.phase, f.worker.save, StatusAfter(s, f))
    requires FailureOf(f.worker.phase).Some? && FailureOf(f.worker.phase).value.cause.ContextDone? ==> f.group.CtxDone()
    ensures WorkerOk(Patched(s, f), f.w)
  {
    assert StatusOf(Patched(s, f), f.w) == StatusAfter(s, f);
  }

  lemma OtherWorkerOk(s: System, f: Effect, w: nat)
    requires f.OnWorker? && Fits(s, f) && Sound(s, f) && WorkerOk(s, f.w)
    requires w < |s.workers| && w != f.w && WorkerOk(s, w)
    ensures WorkerOk(Patched(s, f), w)
    ensures StatusOf(Patched(s, f), w) == StatusOf(s, w)
  {
    if f.put.Some? && s.workers[w].row.Some? {
      assert f.put.value.id != s.workers[w].row.value;
    }
    assert StatusOf(Patched(s, f), w) == StatusOf(s, w);
  }

  lemma StepKeepsWorkers(s: System, e: Event)
    requires Inv(s) && Enabled(s, e)
    ensures var s' := Apply(s, e); forall w | 0 <= w < |s'.workers| :: WorkerOk(s', w)
  {
    var s' := Apply(s, e);
    var f := EffectOf(s, e);
    forall w | 0 <= w < |s'.workers|
      ensures WorkerOk(s', w)
    {
      if f.OnWorker? {
        assert WorkerOk(s, f.w);
        EffectIsSound(s, e);
        if w == f.w {
          EffectIsConsistent(s, e);
          MovedWorkerOk(s, f);
        } else {
          assert WorkerOk(s, w);
          OtherWorkerOk(s, f, w);
        }
      } else if w < |s.workers| {
        assert WorkerOk(s, w);
      }
    }
  }

  /** What an effect may do to the group record, as far as the other goroutines can tell. */
  ghost predicate GroupMove(s: System, f: Effect)
    requires f.OnWorker? && Live(s, f.w)
  {
    var grp := GroupOf(s, f.w);
    && f.worker.group == s.workers[f.w].group
    && f.group.first == grp.first && f.group.count == grp.count
    && (f.group.spawned == grp.spawned || (f.group.spawned == grp.spawned + 1 && f.w == grp.first + grp.spawned))
    && (grp.firstErr.Some? ==> f.group.firstErr == grp.firstErr)
    && (grp.once.Busy? && grp.once.worker != f.w ==> f.group.once == grp.once)
  }

  lemma EffectMovesGroup(s: System, e: Event)
    requires Enabled(s, e) && EffectOf(s, e).OnWorker?
    requires PlaceOk(s, EffectOf(s, e).w) && GroupOk(s, s.workers[EffectOf(s, e).w].group)
    ensures GroupMove(s, EffectOf(s, e))
  {
  }

  lemma MovedWorkerPlaced(s: System, e: Event)
    requires Enabled(s, e) && EffectOf(s, e).OnWorker?
    requires PlaceOk(s, EffectOf(s, e).w) && GroupOk(s, s.workers[EffectOf(s, e).w].group)
    ensures var f := EffectOf(s, e); Fits(s, f) && PlaceOk(Patched(s, f), f.w)
  {
  }

  lemma OtherWorkerPlaced(s: System, f: Effect, w: nat)
    requires f.OnWorker? && Live(s, f.w) && GroupMove(s, f)
    requires w < |s.workers| && w != f.w && PlaceOk(s, w)
    ensures PlaceOk(Patched(s, f), w)
  {
  }

  lemma StepKeepsPlaces(s: System, e: Event)
    requires Inv(s) && Enabled(s, e)
    ensures var s' := Apply(s, e); forall w | 0 <= w < |s'.workers| :: PlaceOk(s', w)
  {
    var s' := Apply(s, e);
    var f := EffectOf(s, e);
    forall w | 0 <= w < |s'.workers|
      ensures PlaceOk(s', w)
    {
      if f.OnWorker? {
        assert PlaceOk(s, f.w) && GroupOk(s, s.workers[f.w].group);
        if w == f.w {
          MovedWorkerPlaced(s, e);
        } else {
          assert PlaceOk(s, w);
          EffectMovesGroup(s, e);
          OtherWorkerPlaced(s, f, w);
        }
      } else if w < |s.workers| {
        assert PlaceOk(s, w);
      }
    }
  }

  lemma OtherGroupOk(s: System, f: Effect, g: nat)
    requires f.OnWorker? && Live(s, f.w) && PlaceOk(s, f.w) && GroupMove(s, f)
    requires g < |s.groups| && g != s.workers[f.w].group && GroupOk(s, g)
    ensures GroupOk(Patched(s, f), g)
  {
    var s' := Patched(s, f);
    assert s'.groups[g] == s.groups[g];
    forall w | s.groups[g].first <= w < s.groups[g].first + s.groups[g].count
      ensures w != f.w && s'.workers[w] == s.workers[w]
    {
    }
    if s.groups[g].verdict.Returned? {
      assert AllFinished(s', g);
    }
  }

  /** A step that leaves the group record as it was. */
  lemma SameRecordGroupOk(s: System, f: Effect)
    requires f.OnWorker? && Live(s, f.w) && PlaceOk(s, f.w) && GroupOk(s, s.workers[f.w].group)
    requires f.group == GroupOf(s, f.w) && f.worker.group == s.workers[f.w].group
    requires !s.workers[f.w].phase.Finished? && !s.workers[f.w].phase.Cancelling?
    ensures GroupOk(Patched(s, f), f.worker.group)
  {
    var g := f.worker.group;
    assert s.groups[g].verdict.Returned? ==> AllFinished(s, g);
    assert Patched(s, f).groups[g] == s.groups[g];
  }

  lemma RecordingGroupOk(s: System, w: nat)
    requires Enabled(s, Report(w)) && s.workers[w].phase.result.Some? && GroupOf(s, w).once.Unused?
    requires WorkerOk(s, w) && PlaceOk(s, w) && GroupOk(s, s.workers[w].group)
    ensures GroupOk(Apply(s, Report(w)), s.workers[w].group)
  {
    var g := s.workers[w].group;
    assert s.groups[g].verdict.Returned? ==> AllFinished(s, g);
    var f := EffectOf(s, Report(w));
    assert Patched(s, f).groups[g] == f.group;
    assert BlameOk(Patched(s, f), g, f.group.firstErr.value);
  }

  lemma CancellingGroupOk(s: System, w: nat)
    requires Enabled(s, Cancel(w)) && PlaceOk(s, w) && GroupOk(s, s.workers[w].group)
    ensures GroupOk(Apply(s, Cancel(w)), s.workers[w].group)
  {
    var g := s.workers[w].group;
    var f := EffectOf(s, Cancel(w));
    assert s.groups[g].verdict.Returned? ==> AllFinished(s, g);
    assert Patched(s, f).groups[g] == f.group;
    assert BlameOk(s, g, s.groups[g].firstErr.value);
    assert BlameOk(Patched(s, f), g, f.group.firstErr.value);
  }

  lemma SpawningGroupOk(s: System, g: nat)
    requires Enabled(s, Spawn(g)) && GroupOk(s, g)
    ensures GroupOk(Apply(s, Spawn(g)), g)
  {
    var f := EffectOf(s, Spawn(g));
    assert s.groups[g].verdict.Returned? ==> AllFinished(s, g);
    assert Patched(s, f).groups[g] == f.group;
    if f.group.firstErr.Some? {
      assert BlameOk(s, g, s.groups[g].firstErr.value);
      assert BlameOk(Patched(s, f), g, f.group.firstErr.value);
    }
  }

  lemma OwnGroupOk(s: System, e: Event)
    requires Enabled(s, e) && EffectOf(s, e).OnWorker?
    requires WorkerOk(s, EffectOf(s, e).w) && PlaceOk(s, EffectOf(s, e).w)
    requires GroupOk(s, s.workers[EffectOf(s, e).w].group)
    ensures GroupOk(Apply(s, e), s.workers[EffectOf(s, e).w].group)
  {
    if e.Spawn? {
      SpawningGroupOk(s, e.g);
    } else if e.Cancel? {
      CancellingGroupOk(s, e.w);
    } else if e.Report? && s.workers[e.w].phase.result.Some? && GroupOf(s, e.w).once.Unused? {
      RecordingGroupOk(s, e.w);
    } else {
      SameRecordGroupOk(s, EffectOf(s, e));
    }
  }

  lemma GroupEventOk(s: System, e: Event, g: nat)
    requires Enabled(s, e) && EffectOf(s, e).OnGroup? && g < |s.groups| && GroupOk(s, g)
    ensures g < |Apply(s, e).groups| && GroupOk(Apply(s, e), g)
  {
    var s' := Apply(s, e);
    assert s'.workers == s.workers;
    assert AllFinished(s', g) <==> AllFinished(s, g);
    if s.groups[g].firstErr.Some? {
      assert BlameOk(s, g, s.groups[g].firstErr.value);
      assert BlameOk(s', g, s.groups[g].firstErr.value);
    }
  }

  lemma OpeningGroupOk(s: System, f: Effect, g: nat)
    requires f.Opened? && g <= |s.groups| && (g < |s.groups| ==> GroupOk(s, g))
    requires forall w | 0 <= w < |s.workers| :: PlaceOk(s, w)
    ensures GroupOk(Patched(s, f), g)
  {
    var s' := Patched(s, f);
    if g < |s.groups| {
      assert s'.groups[g] == s.groups[g];
      if s.groups[g].firstErr.Some? {
        assert BlameOk(s, g, s.groups[g].firstErr.value);
        assert BlameOk(s', g, s.groups[g].firstErr.value);
      }
      if s.groups[g].verdict.Returned? {
        assert AllFinished(s', g);
      }
    }
  }

  lemma StepKeepsGroups(s: System, e: Event)
    requires Inv(s) && Enabled(s, e)
    ensures var s' := Apply(s, e); forall g | 0 <= g < |s'.groups| :: GroupOk(s', g)
  {
    var s' := Apply(s, e);
    var f := EffectOf(s, e);
    forall g | 0 <= g < |s'.groups|
      ensures GroupOk(s', g)
    {
      if f.OnWorker? {
        assert WorkerOk(s, f.w) && PlaceOk(s, f.w) && GroupOk(s, g);
        if s.workers[f.w].group == g {
          OwnGroupOk(s, e);
        } else {
          assert GroupOk(s, s.workers[f.w].group);
          EffectMovesGroup(s, e);
          OtherGroupOk(s, f, g);
        }
      } else if f.OnGroup? {
        assert GroupOk(s, g);
        GroupEventOk(s, e, g);
      } else {
        OpeningGroupOk(s, f, g);
      }
    }
  }

  lemma PatchKeepsIds(s: System, f: Effect)
    requires f.OnWorker? && Live(s, f.w) && IdsOk(s) && Sound(s, f) && WorkerOk(s, f.w)
    ensures IdsOk(Patched(s, f))
  {
  }

  lemma StepKeepsIds(s: System, e: Event)
    requires Inv(s) && Enabled(s, e)
    ensures IdsOk(Apply(s, e))
  {
    var f := EffectOf(s, e);
    if f.OnWorker? {
      assert WorkerOk(s, f.w);
      EffectIsSound(s, e);
      PatchKeepsIds(s, f);
    }
  }

  /** No step of a goroutine moves its row away from Completed. */
  lemma NotedRowStays(s: System, e: Event)
    requires Enabled(s, e) && EffectOf(s, e).OnWorker?
    requires WorkerOk(s, EffectOf(s, e).w) && IdsOk(s) && StatusOf(s, EffectOf(s, e).w) == Some(Completed)
    ensures var f := EffectOf(s, e);
            && Fits(s, f) && f.worker.row == s.workers[f.w].row
            && StatusOf(Patched(s, f), f.w) == Some(Completed)
  {
  }

  lemma OldNoteOk(s: System, e: Event, n: Note)
    requires Enabled(s, e) && EffectOf(s, e).OnWorker? && IdsOk(s)
    requires WorkerOk(s, EffectOf(s, e).w) && NoteOk(s, n) && WorkerOk(s, n.worker)
    ensures NoteOk(Apply(s, e), n)
  {
    EffectIsSound(s, e);
    if n.worker == EffectOf(s, e).w {
      NotedRowStays(s, e);
    } else {
      OtherWorkerOk(s, EffectOf(s, e), n.worker);
    }
  }

  lemma NewNoteOk(s: System, f: Effect)
    requires f.OnWorker? && Live(s, f.w) && f.worker.group < |s.groups| && f.note.Some? && Sound(s, f)
    ensures NoteOk(Patched(s, f), f.note.value)
  {
    assert StatusOf(Patched(s, f), f.w) == StatusOf(s, f.w);
  }

  lemma QuietNoteOk(s: System, f: Effect, n: Note)
    requires !f.OnWorker? && Fits(s, f) && NoteOk(s, n)
    requires f.OnGroup? ==> f.group.tenant == s.groups[f.g].tenant
    ensures NoteOk(Patched(s, f), n)
  {
    assert Patched(s, f).workers[n.worker] == s.workers[n.worker];
  }

  lemma OldNoteAt(s: System, e: Event, n: Note)
    requires Inv(s) && Enabled(s, e) && NoteOk(s, n)
    ensures NoteOk(Apply(s, e), n)
  {
    var f := EffectOf(s, e);
    assert WorkerOk(s, n.worker);
    if f.OnWorker? {
      assert WorkerOk(s, f.w);
      OldNoteOk(s, e, n);
    } else {
      QuietNoteOk(s, f, n);
    }
  }

  lemma NewNoteAt(s: System, e: Event)
    requires Inv(s) && Enabled(s, e) && EffectOf(s, e).OnWorker? && EffectOf(s, e).note.Some?
    ensures NoteOk(Apply(s, e), EffectOf(s, e).note.value)
  {
    assert WorkerOk(s, EffectOf(s, e).w);
    EffectIsSound(s, e);
    NewNoteOk(s, EffectOf(s, e));
  }

  lemma NotesAfter(s: System, e: Event)
    requires Enabled(s, e)
    ensures var f := EffectOf(s, e);
            Apply(s, e).notes == if f.OnWorker? && f.note.Some? then s.notes + [f.note.value] else s.notes
  {
  }

  lemma StepKeepsNotes(s: System, e: Event)
    requires Inv(s) && Enabled(s, e)
    ensures var s' := Apply(s, e); forall k | 0 <= k < |s'.notes| :: NoteOk(s', s'.notes[k])
  {
    var s' := Apply(s, e);
    NotesAfter(s, e);
    forall k | 0 <= k < |s'.notes|
      ensures NoteOk(s', s'.notes[k])
    {
      if k < |s.notes| {
        OldNoteAt(s, e, s.notes[k]);
      } else {
        NewNoteAt(s, e);
      }
    }
  }

  lemma StepKeepsInv(s: System, e: Event)
    requires Inv(s) && Enabled(s, e)
    ensures Inv(Apply(s, e))
  {
    StepKeepsWorkers(s, e);
    StepKeepsPlaces(s, e);
    StepKeepsGroups(s, e);
    StepKeepsIds(s, e);
    StepKeepsNotes(s, e);
  }

  /** Every state of every run from an initial state satisfies the invariant. */
  lemma {:induction false} RunKeepsInv(s: System, es: seq<Event>)
    requires Inv(s) && Valid(s, es)
    ensures Inv(Exec(s, es))
    decreases |es|
  {
    if es != [] {
      var k := |es| - 1;
      RunKeepsInv(s, es[..k]);
      StepKeepsInv(Exec(s, es[..k]), es[k]);
    }
  }

  lemma InitialInv(s: System)
    requires Initial(s)
    ensures Inv(s)
  {
  }
}
