// The parallel upload over the local store, with every Save taken apart into opening the file,
// writing chunks and closing it.  Where Saves of a name do not overlap, the files are what the
// protocol's store, in which a Save is one event, says they are.

module LocalUpload {
  import opened Domain
  import opened UploadProtocol
  import opened UploadInvariants
  import opened UploadGuarantees
  import opened SerialUpload
  import opened UploadEquivalence
  import Disk = LocalOverlap

  // slot tells which of the opens of its file belongs to a goroutine.
  datatype Joint = Joint(sys: System, disk: map<string, Disk.OpenFile>, slot: map<nat, nat>)

  datatype Step =
    | FileOpened(w: nat)
    | ChunkWritten(w: nat, chunk: Bytes)
    | SaveEnded(w: nat, why: Option<Cause>)
    | OfSystem(e: Event)

  function FileOf(j: Joint, w: nat): Disk.OpenFile {
    var name := NameOf(j.sys, w);
    if name in j.disk then j.disk[name] else Disk.OpenFile([], [])
  }

  /** Goroutine w has its file open. */
  predicate HasOpen(j: Joint, w: nat) {
    w in j.slot && Disk.InProgress(FileOf(j, w), j.slot[w])
  }

  /** What Save replies, with why as the error that stopped its copy loop, if one did. */
  function ReplyOf(j: Joint, w: nat, why: Option<Cause>): SaveReply
    requires HasOpen(j, w)
  {
    var written := FileOf(j, w).saves[j.slot[w]].written;
    match why case None => SaveOk(written) case Some(c) => SaveErr(c, Some(written))
  }

  predicate CanStep(j: Joint, x: Step) {
    match x
    case FileOpened(w) => At(j.sys, w, Saving) && w !in j.slot
    case ChunkWritten(w, _) => At(j.sys, w, Saving) && HasOpen(j, w)
    case SaveEnded(w, why) => HasOpen(j, w) && Enabled(j.sys, Save(w, ReplyOf(j, w, why)))
    case OfSystem(e) =>
      // A Save that is one step is one whose os.Create failed.
      Enabled(j.sys, e) && (e.Save? ==> e.w !in j.slot && LeftBy(e).None?)
  }

  function Next(j: Joint, x: Step): Joint
    requires CanStep(j, x)
  {
    match x
    case FileOpened(w) =>
      j.(disk := j.disk[NameOf(j.sys, w) := Disk.Apply(FileOf(j, w), Disk.Create)],
      slot := j.slot[w := |FileOf(j, w).saves|])
    case ChunkWritten(w, chunk) =>
      j.(disk := j.disk[NameOf(j.sys, w) := Disk.Apply(FileOf(j, w), Disk.Write(j.slot[w], chunk))])
    case SaveEnded(w, why) =>
      j.(sys := Apply(j.sys, Save(w, ReplyOf(j, w, why))),
      disk := j.disk[NameOf(j.sys, w) := Disk.Apply(FileOf(j, w), Disk.Close(j.slot[w]))])
    case OfSystem(e) => j.(sys := Apply(j.sys, e))
  }

  ghost function RunAll(j: Joint, xs: seq<Step>): Option<Joint>
    decreases |xs|
  {
    if xs == [] then Some(j) else
    var k := |xs| - 1;
    match RunAll(j, xs[..k])
    case None => None
    case Some(i) => if CanStep(i, xs[k]) then Some(Next(i, xs[k])) else None
  }

  /** The disk holds what the store holds, and no file is open. */
  function Started(s: System): Joint {
    Joint(s, map name | name in s.store :: Disk.OpenFile(s.store[name], []), map[])
  }

  /** Every file of the run was opened when no other goroutine had it open. */
  ghost predicate Exclusive(j: Joint, xs: seq<Step>)
    requires RunAll(j, xs).Some?
    decreases |xs|
  {
    xs != [] ==>
      var k := |xs| - 1;
      && Exclusive(j, xs[..k])
      && (xs[k].FileOpened? ==> Disk.Idle(FileOf(RunAll(j, xs[..k]).value, xs[k].w)))
  }

  // -------------------------------------------------------------------- the disk and the store

  /** The file is in order; and if no Save of it is in progress, the store has its bytes. */
  ghost predicate FileAgrees(j: Joint, name: string)
    requires name in j.disk
  {
    && Disk.Tidy(j.disk[name])
    && (Disk.Idle(j.disk[name]) ==> name in j.sys.store && j.sys.store[name] == j.disk[name].bytes)
  }

  ghost predicate Agrees(j: Joint) {
    && (forall name | name in j.disk :: FileAgrees(j, name))
    && (forall name | name in j.sys.store :: name in j.disk)
  }

  lemma OpenAgrees(j: Joint, w: nat)
    requires Agrees(j) && CanStep(j, FileOpened(w)) && Disk.Idle(FileOf(j, w))
    ensures Agrees(Next(j, FileOpened(w)))
  {
    var j' := Next(j, FileOpened(w));
    forall name | name in j'.disk
      ensures FileAgrees(j', name)
    {
      if name == NameOf(j.sys, w) {
        var f := j'.disk[name];
        assert f.saves[|f.saves| - 1].open;
      } else {
        assert FileAgrees(j, name);
      }
    }
  }

  lemma WriteAgrees(j: Joint, w: nat, chunk: Bytes)
    requires Agrees(j) && CanStep(j, ChunkWritten(w, chunk))
    ensures Agrees(Next(j, ChunkWritten(w, chunk)))
  {
    var x := ChunkWritten(w, chunk);
    var j' := Next(j, x);
    forall name | name in j'.disk
      ensures FileAgrees(j', name)
    {
      if name == NameOf(j.sys, w) {
        assert FileAgrees(j, name);
        Disk.StepKeepsTidy(j.disk[name], Disk.Write(j.slot[w], chunk));
        assert j'.disk[name].saves[j.slot[w]].open;
      } else {
        assert FileAgrees(j, name);
      }
    }
  }

  lemma EndAgrees(j: Joint, w: nat, why: Option<Cause>)
    requires Agrees(j) && CanStep(j, SaveEnded(w, why))
    ensures Agrees(Next(j, SaveEnded(w, why)))
  {
    var j' := Next(j, SaveEnded(w, why));
    StoreAfterStep(j.sys, Save(w, ReplyOf(j, w, why)));
    forall name | name in j'.disk
      ensures FileAgrees(j', name)
    {
      assert FileAgrees(j, name);
      if name == NameOf(j.sys, w) {
        Disk.StepKeepsTidy(j.disk[name], Disk.Close(j.slot[w]));
      }
    }
  }

  lemma SystemAgrees(j: Joint, e: Event)
    requires Agrees(j) && CanStep(j, OfSystem(e))
    ensures Agrees(Next(j, OfSystem(e)))
  {
    StoreAfterStep(j.sys, e);
    var j' := Next(j, OfSystem(e));
    forall name | name in j'.disk
      ensures FileAgrees(j', name)
    {
      assert FileAgrees(j, name);
    }
  }

  lemma StepAgrees(j: Joint, x: Step)
    requires Agrees(j) && CanStep(j, x) && (x.FileOpened? ==> Disk.Idle(FileOf(j, x.w)))
    ensures Agrees(Next(j, x))
  {
    match x
    case FileOpened(w) => OpenAgrees(j, w);
    case ChunkWritten(w, chunk) => WriteAgrees(j, w, chunk);
    case SaveEnded(w, why) => EndAgrees(j, w, why);
    case OfSystem(e) => SystemAgrees(j, e);
  }

  lemma {:induction false} RunAgrees(j: Joint, xs: seq<Step>)
    requires Agrees(j) && RunAll(j, xs).Some? && Exclusive(j, xs)
    ensures Agrees(RunAll(j, xs).value)
    decreases |xs|
  {
    if xs != [] {
      RunAgrees(j, xs[..|xs| - 1]);
      StepAgrees(RunAll(j, xs[..|xs| - 1]).value, xs[|xs| - 1]);
    }
  }

  // ---------------------------------------------------------------- distinct names do not overlap

  ghost predicate DistinctFiles(s: System) {
    forall v, w | 0 <= v < w < |s.workers| :: s.workers[v].file.name != s.workers[w].file.name
  }

  /** Some goroutine that is in its Save has opened the file of this name. */
  ghost predicate OpenedBy(j: Joint, name: string) {
    exists w: nat :: w in j.slot && At(j.sys, w, Saving) && j.sys.workers[w].file.name == name
  }

  ghost predicate OpensKnown(j: Joint) {
    forall name | name in j.disk && !Disk.Idle(j.disk[name]) :: OpenedBy(j, name)
  }

  /** The goroutines that exist keep their files, and more may come. */
  ghost predicate Grows(s: System, s': System) {
    |s.workers| <= |s'.workers| && forall w | 0 <= w < |s.workers| :: s'.workers[w].file == s.workers[w].file
  }

  lemma SystemGrows(s: System, e: Event)
    requires Enabled(s, e)
    ensures Grows(s, Apply(s, e))
  {
    var s' := Apply(s, e);
    assert |s'.workers| >= |s.workers|;
    forall w | 0 <= w < |s.workers|
      ensures s'.workers[w].file == s.workers[w].file
    {
      FileStays(s, e, w);
    }
  }

  lemma JointGrows(j: Joint, x: Step)
    requires CanStep(j, x)
    ensures Grows(j.sys, Next(j, x).sys)
  {
    if x.OfSystem? {
      SystemGrows(j.sys, x.e);
    } else if x.SaveEnded? {
      SystemGrows(j.sys, Save(x.w, ReplyOf(j, x.w, x.why)));
    }
  }

  /** A goroutine in its Save leaves it only by the Save itself. */
  lemma StillSaving(s: System, e: Event, w: nat)
    requires Enabled(s, e) && At(s, w, Saving) && !(e.Save? && e.w == w)
    ensures At(Apply(s, e), w, Saving)
  {
    WorkerAfter(s, e, w);
    GroupsStay(s, e);
  }

  lemma SystemKnowsOpens(j: Joint, e: Event)
    requires OpensKnown(j) && CanStep(j, OfSystem(e))
    ensures OpensKnown(Next(j, OfSystem(e)))
  {
    var j' := Next(j, OfSystem(e));
    forall name | name in j'.disk && !Disk.Idle(j'.disk[name])
      ensures OpenedBy(j', name)
    {
      assert OpenedBy(j, name);
      var w: nat :| w in j.slot && At(j.sys, w, Saving) && j.sys.workers[w].file.name == name;
      StillSaving(j.sys, e, w);
      FileStays(j.sys, e, w);
    }
  }

  lemma EndKnowsOpens(j: Joint, w: nat, why: Option<Cause>)
    requires Agrees(j) && OpensKnown(j) && CanStep(j, SaveEnded(w, why))
    ensures OpensKnown(Next(j, SaveEnded(w, why)))
  {
    var j' := Next(j, SaveEnded(w, why));
    var e := Save(w, ReplyOf(j, w, why));
    forall name | name in j'.disk && !Disk.Idle(j'.disk[name])
      ensures OpenedBy(j', name)
    {
      assert FileAgrees(j, name);
      assert name != NameOf(j.sys, w);
      assert OpenedBy(j, name);
      var v: nat :| v in j.slot && At(j.sys, v, Saving) && j.sys.workers[v].file.name == name;
      StillSaving(j.sys, e, v);
      FileStays(j.sys, e, v);
    }
  }

  lemma DiskKnowsOpens(j: Joint, x: Step)
    requires OpensKnown(j) && CanStep(j, x) && (x.FileOpened? || x.ChunkWritten?)
    ensures OpensKnown(Next(j, x))
  {
    var j' := Next(j, x);
    forall name | name in j'.disk && !Disk.Idle(j'.disk[name])
      ensures OpenedBy(j', name)
    {
      if name == NameOf(j.sys, x.w) {
        assert x.w in j'.slot && At(j'.sys, x.w, Saving);
      } else {
        assert OpenedBy(j, name);
        var w: nat :| w in j.slot && At(j.sys, w, Saving) && j.sys.workers[w].file.name == name;
        assert w in j'.slot;
      }
    }
  }

  lemma {:induction false} RunKnowsOpens(j: Joint, xs: seq<Step>)
    requires Agrees(j) && OpensKnown(j) && RunAll(j, xs).Some? && Exclusive(j, xs)
    ensures OpensKnown(RunAll(j, xs).value)
    decreases |xs|
  {
    if xs != [] {
      var i := RunAll(j, xs[..|xs| - 1]).value;
      RunKnowsOpens(j, xs[..|xs| - 1]);
      RunAgrees(j, xs[..|xs| - 1]);
      match xs[|xs| - 1]
      case OfSystem(e) => SystemKnowsOpens(i, e);
      case SaveEnded(w, why) => EndKnowsOpens(i, w, why);
      case _ => DiskKnowsOpens(i, xs[|xs| - 1]);
    }
  }

  lemma NobodyElse(j: Joint, w: nat)
    requires DistinctFiles(j.sys) && At(j.sys, w, Saving) && w !in j.slot
    ensures !OpenedBy(j, NameOf(j.sys, w))
  {
    forall v: nat | v in j.slot && At(j.sys, v, Saving)
      ensures j.sys.workers[v].file.name != NameOf(j.sys, w)
    {
      assert v < w || w < v;
    }
  }

  lemma OpensAlone(j: Joint, w: nat)
    requires OpensKnown(j) && DistinctFiles(j.sys) && CanStep(j, FileOpened(w))
    ensures Disk.Idle(FileOf(j, w))
  {
    NobodyElse(j, w);
  }

  lemma DistinctBefore(s: System, s': System)
    requires Grows(s, s') && DistinctFiles(s')
    ensures DistinctFiles(s)
  {
    forall v, w | 0 <= v < w < |s.workers|
      ensures s.workers[v].file.name != s.workers[w].file.name
    {
      assert s'.workers[v].file.name != s'.workers[w].file.name;
    }
  }

  /** If no two goroutines ever have files of one name, no two Saves of one name overlap. */
  lemma {:induction false} DistinctNamesAreExclusive(j: Joint, xs: seq<Step>)
    requires Agrees(j) && OpensKnown(j) && RunAll(j, xs).Some? && DistinctFiles(RunAll(j, xs).value.sys)
    ensures Exclusive(j, xs)
    decreases |xs|
  {
    if xs != [] {
      var init, x := xs[..|xs| - 1], xs[|xs| - 1];
      var i := RunAll(j, init).value;
      JointGrows(i, x);
      DistinctBefore(i.sys, Next(i, x).sys);
      DistinctNamesAreExclusive(j, init);
      RunKnowsOpens(j, init);
      if x.FileOpened? {
        OpensAlone(i, x.w);
      }
    }
  }

  // ----------------------------------------------------------------------------- the refinement

  /** The event of the protocol that a step amounts to, if it is one that the protocol sees. */
  function EventOf(j: Joint, x: Step): seq<Event>
    requires CanStep(j, x)
  {
    match x
    case OfSystem(e) => [e]
    case SaveEnded(w, why) => [Save(w, ReplyOf(j, w, why))]
    case _ => []
  }

  /** The events of the protocol that the steps from j amount to. */
  ghost function Events(j: Joint, xs: seq<Step>): seq<Event>
    requires RunAll(j, xs).Some?
    decreases |xs|
  {
    if xs == [] then []
    else
      var init := xs[..|xs| - 1];
      Events(j, init) + EventOf(RunAll(j, init).value, xs[|xs| - 1])
  }

  lemma {:induction false} Projects(j: Joint, xs: seq<Step>)
    requires RunAll(j, xs).Some?
    ensures Run(j.sys, Events(j, xs)) == Some(RunAll(j, xs).value.sys)
    decreases |xs|
  {
    if xs != [] {
      var i, x := RunAll(j, xs[..|xs| - 1]).value, xs[|xs| - 1];
      Projects(j, xs[..|xs| - 1]);
      if x.OfSystem? {
        Extend(j.sys, Events(j, xs[..|xs| - 1]), x.e);
      } else if x.SaveEnded? {
        Extend(j.sys, Events(j, xs[..|xs| - 1]), Save(x.w, ReplyOf(i, x.w, x.why)));
      } else {
        assert Events(j, xs) == Events(j, xs[..|xs| - 1]);
      }
    }
  }

  lemma StartedAgrees(s: System)
    ensures Agrees(Started(s)) && OpensKnown(Started(s))
  {
  }

  /** Every run in which Saves of a name do not overlap is, seen from outside, a run of the
      protocol; and a file of which no Save is in progress holds what that run's store says. */
  lemma FilesAreTheStore(s: System, xs: seq<Step>)
    requires RunAll(Started(s), xs).Some?
    requires Exclusive(Started(s), xs) || DistinctFiles(RunAll(Started(s), xs).value.sys)
    ensures var j := RunAll(Started(s), xs).value;
            && Run(s, Events(Started(s), xs)) == Some(j.sys)
            && (forall name | name in j.disk && Disk.Idle(j.disk[name]) ::
                  name in j.sys.store && j.sys.store[name] == j.disk[name].bytes)
            && (forall name | name in j.sys.store :: name in j.disk)
            && (forall name | name in j.disk && !Disk.Idle(j.disk[name]) :: OpenedBy(j, name))
  {
    var j0 := Started(s);
    StartedAgrees(s);
    Projects(j0, xs);
    if DistinctFiles(RunAll(j0, xs).value.sys) {
      DistinctNamesAreExclusive(j0, xs);
    }
    RunAgrees(j0, xs);
    RunKnowsOpens(j0, xs);
    var j := RunAll(j0, xs).value;
    forall name | name in j.disk && Disk.Idle(j.disk[name])
      ensures name in j.sys.store && j.sys.store[name] == j.disk[name].bytes
    {
      assert FileAgrees(j, name);
    }
  }

  function Contents(disk: map<string, Disk.OpenFile>): map<string, Bytes> {
    map name | name in disk :: disk[name].bytes
  }

  /** When the call has returned, no goroutine is in its Save. */
  lemma NobodySaves(s: System, es: seq<Event>, tenant: string, files: seq<File>, j: Joint, name: string)
    requires WholeCall(s, es, tenant, files) && Exec(s, es) == j.sys
    ensures !OpenedBy(j, name)
  {
    OneCallOneGroup(s, es, tenant, files);
    ReachableInv(s, es);
    assert GroupOk(j.sys, 0) && AllFinished(j.sys, 0);
    forall w: nat | w < |j.sys.workers|
      ensures j.sys.workers[w].phase.Finished?
    {
      assert j.sys.workers[w].group == 0;
    }
  }

  /** One fault-free call with distinct names over the local store: however the writes of its Saves
      interleave, the files on disk end as the serial upload leaves them. */
  lemma LocalEqualsSerial(s: System, xs: seq<Step>, tenant: string, files: seq<File>)
    requires RunAll(Started(s), xs).Some? && AllBuffers(files) && DistinctNames(files)
    requires var es := Events(Started(s), xs);
             Initial(s) && WholeCall(s, es, tenant, files) && FaultFree(es) && StoredWhole(es, files)
    ensures Contents(RunAll(Started(s), xs).value.disk) == Replay(s.store, files)
  {
    var es := Events(Started(s), xs);
    var j := RunAll(Started(s), xs).value;
    Projects(Started(s), xs);
    OneCallOneGroup(s, es, tenant, files);
    forall v, w | 0 <= v < w < |j.sys.workers|
      ensures j.sys.workers[v].file.name != j.sys.workers[w].file.name
    {
      assert files[v].name != files[w].name;
    }
    FilesAreTheStore(s, xs);
    ParallelEqualsSerial(s, es, tenant, files);
    forall name | name in j.disk
      ensures Disk.Idle(j.disk[name])
    {
      NobodySaves(s, es, tenant, files, j, name);
    }
  }

  // ------------------------------------------------------------------ what a Save is said to store

  /** What goroutine w has been given to write, in order. */
  function ChunksBy(xs: seq<Step>, w: nat): Bytes {
    if xs == [] then []
    else
      var x := xs[|xs| - 1];
      ChunksBy(xs[..|xs| - 1], w) + if x.ChunkWritten? && x.w == w then x.chunk else []
  }

  /** The opens of goroutines are opens of their own files, no two the same. */
  predicate SlotsOk(j: Joint) {
    && (forall w | w in j.slot :: w < |j.sys.workers| && j.slot[w] < |FileOf(j, w).saves|)
    && (forall v, w | v in j.slot && w in j.slot && v != w && NameOf(j.sys, v) == NameOf(j.sys, w) ::
          j.slot[v] != j.slot[w])
  }

  /** What w has written by now. */
  function WrittenBy(j: Joint, w: nat): Bytes
    requires SlotsOk(j)
  {
    if w in j.slot then FileOf(j, w).saves[j.slot[w]].written else []
  }

  lemma NamesStay(j: Joint, x: Step, w: nat)
    requires CanStep(j, x) && w < |j.sys.workers|
    ensures w < |Next(j, x).sys.workers| && NameOf(Next(j, x).sys, w) == NameOf(j.sys, w)
  {
    JointGrows(j, x);
  }

  lemma FileAfter(j: Joint, x: Step, w: nat)
    requires SlotsOk(j) && CanStep(j, x) && w in j.slot
    ensures w in Next(j, x).slot && Next(j, x).slot[w] == j.slot[w]
    ensures |FileOf(Next(j, x), w).saves| >= |FileOf(j, w).saves|
    ensures FileOf(Next(j, x), w).saves[j.slot[w]].written ==
            FileOf(j, w).saves[j.slot[w]].written + if x.ChunkWritten? && x.w == w then x.chunk else []
  {
    NamesStay(j, x, w);
  }

  lemma SlotsStayApart(j: Joint, x: Step)
    requires SlotsOk(j) && CanStep(j, x)
    ensures var j' := Next(j, x);
            forall v, w | v in j'.slot && w in j'.slot && v != w && NameOf(j'.sys, v) == NameOf(j'.sys, w) ::
              j'.slot[v] != j'.slot[w]
  {
    var j' := Next(j, x);
    forall v, w | v in j'.slot && w in j'.slot && v != w && NameOf(j'.sys, v) == NameOf(j'.sys, w)
      ensures j'.slot[v] != j'.slot[w]
    {
      if x.FileOpened? {
        assert j'.sys == j.sys;
      } else {
        NamesStay(j, x, v);
        NamesStay(j, x, w);
      }
    }
  }

  lemma StepKeepsSlots(j: Joint, x: Step)
    requires SlotsOk(j) && CanStep(j, x)
    ensures SlotsOk(Next(j, x))
    ensures forall w: nat ::
              WrittenBy(Next(j, x), w) == WrittenBy(j, w) + if x.ChunkWritten? && x.w == w then x.chunk else []
  {
    var j' := Next(j, x);
    forall w | w in j'.slot
      ensures w < |j'.sys.workers| && j'.slot[w] < |FileOf(j', w).saves|
    {
      if w in j.slot {
        NamesStay(j, x, w);
        FileAfter(j, x, w);
      }
    }
    SlotsStayApart(j, x);
    forall w: nat
      ensures WrittenBy(j', w) == WrittenBy(j, w) + if x.ChunkWritten? && x.w == w then x.chunk else []
    {
      if w in j.slot {
        FileAfter(j, x, w);
      } else if w in j'.slot {
        assert x == FileOpened(w);
      }
    }
  }

  lemma {:induction false} WrittenAreChunks(s: System, xs: seq<Step>)
    requires RunAll(Started(s), xs).Some?
    ensures SlotsOk(RunAll(Started(s), xs).value)
    ensures forall w: nat :: WrittenBy(RunAll(Started(s), xs).value, w) == ChunksBy(xs, w)
    decreases |xs|
  {
    if xs != [] {
      var n := |xs| - 1;
      WrittenAreChunks(s, xs[..n]);
      StepKeepsSlots(RunAll(Started(s), xs[..n]).value, xs[n]);
    }
  }

  /** The Save that a step amounts to is said to have stored what its goroutine was given to write,
      with success exactly when no error ended it. */
  lemma SavesCarryTheChunks(s: System, xs: seq<Step>, w: nat, why: Option<Cause>)
    requires RunAll(Started(s), xs).Some? && CanStep(RunAll(Started(s), xs).value, SaveEnded(w, why))
    ensures var o := ReplyOf(RunAll(Started(s), xs).value, w, why);
            && Left(o) == Some(ChunksBy(xs, w))
            && (o.SaveOk? <==> why.None?)
            && EventOf(RunAll(Started(s), xs).value, SaveEnded(w, why)) == [Save(w, o)]
  {
    WrittenAreChunks(s, xs);
    assert WrittenBy(RunAll(Started(s), xs).value, w) == ChunksBy(xs, w);
  }

  // ------------------------------------------------------------------------- the other direction

  /** Whoever has opened a file has its Save behind it. */
  predicate Spent(j: Joint) {
    forall w | w in j.slot :: w < |j.sys.workers| && WorkLeft(j.sys.workers[w].phase) < WorkLeft(Saving)
  }

  /** Some steps lead from j0 to j and amount to es. */
  ghost predicate Yields(j0: Joint, j: Joint, es: seq<Event>) {
    exists xs :: RunAll(j0, xs) == Some(j) && Events(j0, xs) == es
  }

  lemma Onward(j0: Joint, j: Joint, es: seq<Event>, x: Step) returns (j': Joint)
    requires Yields(j0, j, es) && CanStep(j, x)
    ensures j' == Next(j, x) && Yields(j0, j', es + EventOf(j, x))
  {
    var xs :| RunAll(j0, xs) == Some(j) && Events(j0, xs) == es;
    j' := Next(j, x);
    assert (xs + [x])[..|xs|] == xs;
    assert RunAll(j0, xs + [x]) == Some(j');
    assert Events(j0, xs + [x]) == es + EventOf(j, x);
  }

  lemma EventKeepsSpent(j: Joint, e: Event, j': Joint)
    requires Spent(j) && Enabled(j.sys, e) && j'.sys == Apply(j.sys, e)
    requires forall w | w in j'.slot :: w in j.slot || (e.Save? && e.w == w)
    ensures Spent(j')
  {
    forall w | w in j'.slot
      ensures w < |j'.sys.workers| && WorkLeft(j'.sys.workers[w].phase) < WorkLeft(Saving)
    {
      NoWayBack(j.sys, e, w);
      if e.Save? && e.w == w {
        EffectShrinks(j.sys, e);
        WorkerAfter(j.sys, e, w);
      }
    }
  }

  /** w has its file open and has written these bytes. */
  predicate HasWritten(j: Joint, w: nat, b: Bytes) {
    HasOpen(j, w) && FileOf(j, w).saves[j.slot[w]].written == b
  }

  lemma AfterOpen(j: Joint, w: nat)
    requires CanStep(j, FileOpened(w))
    ensures HasWritten(Next(j, FileOpened(w)), w, [])
  {
  }

  lemma AfterWrite(j: Joint, w: nat, b: Bytes)
    requires CanStep(j, ChunkWritten(w, b)) && HasWritten(j, w, [])
    ensures HasWritten(Next(j, ChunkWritten(w, b)), w, b)
  {
    assert [] + b == b;
  }

  /** One Save of the protocol as open, one write, and close. */
  lemma SaveInSteps(j0: Joint, j: Joint, es: seq<Event>, w: nat, o: SaveReply) returns (j': Joint)
    requires Yields(j0, j, es) && Spent(j) && Enabled(j.sys, Save(w, o)) && Left(o).Some?
    ensures Yields(j0, j', es + [Save(w, o)]) && Spent(j') && j'.sys == Apply(j.sys, Save(w, o))
  {
    var b := Left(o).value;
    AfterOpen(j, w);
    j' := Onward(j0, j, es, FileOpened(w));
    assert es + [] == es;
    AfterWrite(j', w, b);
    j' := Onward(j0, j', es, ChunkWritten(w, b));
    j' := Onward(j0, j', es, SaveEnded(w, if o.SaveOk? then None else Some(o.cause)));
    EventKeepsSpent(j, Save(w, o), j');
  }

  lemma EventInSteps(j0: Joint, j: Joint, es: seq<Event>, e: Event) returns (j': Joint)
    requires Yields(j0, j, es) && Spent(j) && Enabled(j.sys, e)
    ensures Yields(j0, j', es + [e]) && Spent(j') && j'.sys == Apply(j.sys, e)
  {
    if e.Save? && LeftBy(e).Some? {
      j' := SaveInSteps(j0, j, es, e.w, e.outcome);
    } else {
      j' := Onward(j0, j, es, OfSystem(e));
      EventKeepsSpent(j, e, j');
    }
  }

  lemma NoEventIsLocal(s: System)
    ensures Yields(Started(s), Started(s), []) && Spent(Started(s)) && Run(s, []) == Some(s)
  {
    assert RunAll(Started(s), []) == Some(Started(s));
    assert Events(Started(s), []) == [];
  }

  lemma RunParts(s: System, es: seq<Event>) returns (init: seq<Event>, e: Event, t: System)
    requires Run(s, es).Some? && es != []
    ensures es == init + [e] && Run(s, init) == Some(t) && Enabled(t, e) && Run(s, es) == Some(Apply(t, e))
  {
    init, e := es[..|es| - 1], es[|es| - 1];
    t := Run(s, init).value;
  }

  lemma {:induction false} EventsAreLocal(s: System, es: seq<Event>) returns (j: Joint)
    requires Run(s, es).Some?
    ensures Yields(Started(s), j, es) && Spent(j) && Run(s, es) == Some(j.sys)
    decreases |es|
  {
    if es == [] {
      NoEventIsLocal(s);
      j := Started(s);
    } else {
      var init, e, t := RunParts(s, es);
      var i := EventsAreLocal(s, init);
      j := EventInSteps(Started(s), i, init, e);
    }
  }

  /** Every run of the protocol is one of the upload over the local store. */
  lemma EveryRunIsLocal(s: System, es: seq<Event>) returns (xs: seq<Step>)
    requires Run(s, es).Some?
    ensures RunAll(Started(s), xs).Some? && Events(Started(s), xs) == es
  {
    var j := EventsAreLocal(s, es);
    xs :| RunAll(Started(s), xs) == Some(j) && Events(Started(s), xs) == es;
  }
}
