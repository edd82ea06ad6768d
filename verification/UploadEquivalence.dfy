// One parallel call against the serial loop, and parallel calls against each other.

module UploadEquivalence {
  import opened Domain
  import opened UploadProtocol
  import opened UploadInvariants
  import opened UploadGuarantees
  import opened SerialUpload

  /** A run of a single call of the parallel upload. */
  ghost predicate OneCall(s0: System, es: seq<Event>, tenant: string, files: seq<File>) {
    && Initial(s0) && Valid(s0, es)
    && es != [] && es[0] == Begin(tenant, files)
    && forall k | 1 <= k < |es| :: !es[k].Begin?
  }

  ghost predicate WholeCall(s0: System, es: seq<Event>, tenant: string, files: seq<File>) {
    OneCall(s0, es, tenant, files) && HasReturned(Exec(s0, es), 0)
  }

  lemma OneCallPrefix(s0: System, es: seq<Event>, tenant: string, files: seq<File>)
    requires OneCall(s0, es, tenant, files) && |es| > 1
    ensures OneCall(s0, es[..|es| - 1], tenant, files)
  {
    var init := es[..|es| - 1];
    forall k | 1 <= k < |init|
      ensures !init[k].Begin?
    {
      assert init[k] == es[k];
    }
  }

  ghost predicate OneGroup(s: System, files: seq<File>) {
    && |s.groups| == 1 && s.groups[0].first == 0 && s.groups[0].count == |files|
    && |s.workers| == |files|
    && forall w | 0 <= w < |files| :: s.workers[w].group == 0 && s.workers[w].file == files[w]
  }

  lemma FirstStep(s0: System, es: seq<Event>)
    requires Initial(s0) && Valid(s0, es) && |es| == 1
    ensures Enabled(s0, es[0]) && Exec(s0, es) == Apply(s0, es[0])
  {
    var t, e := LastStep(s0, es);
    assert es[..0] == [];
  }

  lemma EffectKeepsPlace(s: System, e: Event)
    requires Enabled(s, e)
    ensures var f := EffectOf(s, e);
            && (f.OnWorker? ==>
                  && f.worker.group == s.workers[f.w].group && f.worker.file == s.workers[f.w].file
                  && f.group.first == GroupOf(s, f.w).first && f.group.count == GroupOf(s, f.w).count)
            && (f.OnGroup? ==> f.group.first == s.groups[f.g].first && f.group.count == s.groups[f.g].count)
  {
  }

  lemma OneGroupStep(s: System, e: Event, files: seq<File>)
    requires Enabled(s, e) && !e.Begin? && OneGroup(s, files)
    ensures OneGroup(Apply(s, e), files)
  {
    EffectKeepsPlace(s, e);
    var s' := Patched(s, EffectOf(s, e));
    assert OneGroup(s', files);
  }

  lemma {:induction false} OneCallOneGroup(s0: System, es: seq<Event>, tenant: string, files: seq<File>)
    requires OneCall(s0, es, tenant, files)
    ensures OneGroup(Exec(s0, es), files)
    decreases |es|
  {
    var n := |es| - 1;
    if n == 0 {
      FirstStep(s0, es);
      assert Exec(s0, es).workers == FreshWorkers(0, files);
    } else {
      OneCallPrefix(s0, es, tenant, files);
      OneCallOneGroup(s0, es[..n], tenant, files);
      OneGroupStep(Exec(s0, es[..n]), es[n], files);
    }
  }

  // ------------------------------------------------------------------------ fault-free runs

  predicate FaultFree(es: seq<Event>) {
    forall k | 0 <= k < |es| :: Healthy(es[k])
  }

  /** A complete fault-free run ends with every row Completed, every file saved, and no error. */
  lemma FaultFreeEnds(s0: System, es: seq<Event>, tenant: string, files: seq<File>)
    requires WholeCall(s0, es, tenant, files) && FaultFree(es)
    ensures var s := Exec(s0, es);
            && s.groups[0].verdict.err.None?
            && OneGroup(s, files) && Inv(s)
            && (forall w | 0 <= w < |files| :: Ends(s, w, CompletedSaved))
  {
    var s := Exec(s0, es);
    OneCallOneGroup(s0, es, tenant, files);
    ReachableInv(s0, es);
    assert GroupOk(s, 0) && AllFinished(s, 0);
    forall w | 0 <= w < |files|
      ensures s.workers[w].phase == Finished(None)
    {
      if s.workers[w].phase.result.Some? {
        var k := FailureHasEvent(s0, es, w, s.workers[w].phase.result.value);
      }
    }
    forall w | 0 <= w < |files|
      ensures Ends(s, w, CompletedSaved)
    {
      assert WorkerOk(s, w);
    }
  }

  /** Every Save that reported success stored the file's buffer as it was given. */
  predicate StoredWhole(es: seq<Event>, files: seq<File>) {
    forall k | 0 <= k < |es| ::
      match es[k]
      case Save(w, SaveOk(stored)) =>
        w < |files| && (files[w].content.Buffer? ==> stored == files[w].content.bytes)
      case _ => true
  }

  lemma GroupsStay(s: System, e: Event)
    requires Enabled(s, e)
    ensures |Apply(s, e).groups| >= |s.groups|
  {
  }

  lemma OneStepCloser(s0: System, es: seq<Event>, g: nat) returns (e: Event)
    requires Initial(s0) && Valid(s0, es) && g < |Exec(s0, es).groups| && Exec(s0, es).groups[g].verdict.Running?
    ensures Healthy(e) && !e.Begin? && Whole(Exec(s0, es), e) && Valid(s0, es + [e])
    ensures g < |Exec(s0, es + [e]).groups| && StepsLeft(Exec(s0, es + [e])) < StepsLeft(Exec(s0, es))
  {
    e := SomeStepIsEnabled(s0, es, g);
    Extend(s0, es, e);
    StepShrinks(Exec(s0, es), e);
    GroupsStay(Exec(s0, es), e);
  }

  lemma {:induction false} FilesStay(s0: System, es: seq<Event>, n: nat)
    requires Initial(s0) && Valid(s0, es) && n <= |es| && Valid(s0, es[..n])
    ensures var ws, ws' := Exec(s0, es[..n]).workers, Exec(s0, es).workers;
            |ws| <= |ws'| && forall w | 0 <= w < |ws| :: ws'[w].file == ws[w].file
    decreases |es|
  {
    if n == |es| {
      assert es[..n] == es;
    } else {
      var t, e := LastStep(s0, es);
      assert es[..|es| - 1][..n] == es[..n];
      FilesStay(s0, es[..|es| - 1], n);
      forall w | 0 <= w < |t.workers|
        ensures w < |Apply(t, e).workers| && Apply(t, e).workers[w].file == t.workers[w].file
      {
        FileStays(t, e, w);
      }
      MoreWorkers(t, e);
    }
  }

  /** No call fails, no new call begins, and what is saved is saved whole. */
  predicate Calm(s: System, es: seq<Event>) {
    forall k | 0 <= k < |es| :: Healthy(es[k]) && !es[k].Begin? && Whole(s, es[k])
  }

  lemma Regroup(es: seq<Event>, e: Event, rest: seq<Event>)
    ensures es + ([e] + rest) == (es + [e]) + rest
    ensures (es + ([e] + rest))[..|es|] == es
  {
  }

  lemma CalmCons(s: System, e: Event, rest: seq<Event>)
    requires Healthy(e) && !e.Begin? && Whole(s, e) && Calm(s, rest)
    ensures Calm(s, [e] + rest)
  {
  }

  /** From wherever a run has got to, faults or not, every call can still return, and without a
      further fault. */
  lemma {:induction false} CallCanReturn(s0: System, es: seq<Event>, g: nat) returns (more: seq<Event>)
    requires Initial(s0) && Valid(s0, es) && g < |Exec(s0, es).groups|
    ensures Valid(s0, es + more) && HasReturned(Exec(s0, es + more), g)
    ensures Calm(Exec(s0, es + more), more)
    decreases StepsLeft(Exec(s0, es))
  {
    more := [];
    assert es + more == es;
    if Exec(s0, es).groups[g].verdict.Running? {
      var e := OneStepCloser(s0, es, g);
      var rest := CallCanReturn(s0, es + [e], g);
      more := [e] + rest;
      Regroup(es, e, rest);
      FilesStay(s0, es + more, |es|);
      CalmCons(Exec(s0, es + more), e, rest);
    }
  }

  /** Every list of files, from every table and store, has a complete fault-free run that saves
      every buffer whole. */
  lemma FaultFreeRunExists(s0: System, tenant: string, files: seq<File>) returns (es: seq<Event>)
    requires Initial(s0)
    ensures WholeCall(s0, es, tenant, files) && FaultFree(es) && StoredWhole(es, files)
  {
    var first := [Begin(tenant, files)];
    assert first[..0] == [];
    assert Run(s0, first) == Some(Apply(s0, first[0]));
    var more := CallCanReturn(s0, first, 0);
    es := first + more;
    OneCallOneGroup(s0, es, tenant, files);
    forall k | 0 <= k < |es|
      ensures match es[k]
              case Save(w, SaveOk(stored)) =>
                w < |files| && (files[w].content.Buffer? ==> stored == files[w].content.bytes)
              case _ => true
    {
      if k > 0 {
        assert es[k] == more[k - 1];
      }
    }
  }

  /** The goroutines in the order of their Save calls. */
  function SaveOrder(es: seq<Event>): seq<nat> {
    if es == [] then []
    else
      var n := |es| - 1;
      SaveOrder(es[..n]) + if es[n].Save? then [es[n].w] else []
  }

  function Select(files: seq<File>, order: seq<nat>): (r: seq<File>)
    requires forall i | 0 <= i < |order| :: order[i] < |files|
    ensures |r| == |order| && forall i | 0 <= i < |r| :: r[i] == files[order[i]]
  {
    seq(|order|, i requires 0 <= i < |order| => files[order[i]])
  }

  /** The order lists exactly the goroutines that have tried to save, each once. */
  ghost predicate OrderOf(s: System, order: seq<nat>) {
    && (forall i | 0 <= i < |order| :: order[i] < |s.workers| && !s.workers[order[i]].save.NotTried?)
    && (forall w | 0 <= w < |s.workers| && !s.workers[w].save.NotTried? :: w in order)
    && (forall i, j | 0 <= i < j < |order| :: order[i] != order[j])
  }

  lemma SaveNoteMoves(s: System, e: Event, w: nat)
    requires Enabled(s, e) && !e.Begin? && w < |s.workers| && WorkerOk(s, w)
    ensures |Apply(s, e).workers| == |s.workers|
    ensures Apply(s, e).workers[w].save.NotTried? <==> s.workers[w].save.NotTried? && !(e.Save? && e.w == w)
    ensures e.Save? && e.w == w ==> s.workers[w].save.NotTried?
  {
    WorkerAfter(s, e, w);
  }

  lemma SaveNoteMovesNone(s: System, e: Event)
    requires Enabled(s, e) && !e.Begin?
    ensures |Apply(s, e).workers| == |s.workers|
  {
  }

  lemma OrderGrows(s: System, s': System, order: seq<nat>, v: nat)
    requires OrderOf(s, order) && |s'.workers| == |s.workers| && v < |s.workers|
    requires forall w | 0 <= w < |s.workers| ::
               s'.workers[w].save.NotTried? <==> s.workers[w].save.NotTried? && w != v
    requires s.workers[v].save.NotTried?
    ensures OrderOf(s', order + [v])
  {
    var order' := order + [v];
    assert order'[|order|] == v;
    forall w | 0 <= w < |s'.workers| && !s'.workers[w].save.NotTried?
      ensures w in order'
    {
      if w != v {
        assert w in order;
      }
    }
  }

  lemma OrderStep(s: System, e: Event, order: seq<nat>)
    requires Inv(s) && Enabled(s, e) && !e.Begin? && OrderOf(s, order)
    ensures OrderOf(Apply(s, e), order + if e.Save? then [e.w] else [])
  {
    var s' := Apply(s, e);
    forall w | 0 <= w < |s.workers|
      ensures |s'.workers| == |s.workers|
      ensures s'.workers[w].save.NotTried? <==> s.workers[w].save.NotTried? && !(e.Save? && e.w == w)
      ensures e.Save? && e.w == w ==> s.workers[w].save.NotTried?
    {
      assert WorkerOk(s, w);
      SaveNoteMoves(s, e, w);
    }
    if e.Save? {
      assert e.w < |s.workers|;
      OrderGrows(s, s', order, e.w);
    } else {
      SaveNoteMovesNone(s, e);
      assert order + [] == order;
    }
  }

  lemma StoreStep(s: System, e: Event, files: seq<File>)
    requires Enabled(s, e) && !e.Begin? && Healthy(e) && StoredWhole([e], files)
    requires OneGroup(s, files) && AllBuffers(files)
    ensures e.Save? ==> e.w < |files| && Apply(s, e).store == s.store[files[e.w].name := files[e.w].content.bytes]
    ensures !e.Save? ==> Apply(s, e).store == s.store
  {
    assert [e][0] == e;
  }

  lemma FaultFreePrefix(es: seq<Event>)
    requires FaultFree(es) && es != []
    ensures FaultFree(es[..|es| - 1])
  {
    var init := es[..|es| - 1];
    forall k | 0 <= k < |init|
      ensures Healthy(init[k])
    {
      assert init[k] == es[k];
    }
  }

  lemma WholePrefix(es: seq<Event>, files: seq<File>)
    requires StoredWhole(es, files) && es != []
    ensures StoredWhole(es[..|es| - 1], files) && StoredWhole([es[|es| - 1]], files)
  {
    var init := es[..|es| - 1];
    assert forall k | 0 <= k < |init| :: init[k] == es[k];
    assert [es[|es| - 1]][0] == es[|es| - 1];
  }

  lemma SelectGrows(files: seq<File>, order: seq<nat>, w: nat, store: map<string, Bytes>)
    requires AllBuffers(files) && w < |files| && forall i | 0 <= i < |order| :: order[i] < |files|
    ensures Replay(store, Select(files, order + [w])) ==
            Replay(store, Select(files, order))[files[w].name := files[w].content.bytes]
  {
    var sel := Select(files, order + [w]);
    assert sel[..|order|] == Select(files, order);
  }

  lemma StoreAfter(s0: System, es: seq<Event>, files: seq<File>)
    requires Initial(s0) && Valid(s0, es) && |es| > 1 && !es[|es| - 1].Begin? && Healthy(es[|es| - 1])
    requires StoredWhole([es[|es| - 1]], files) && AllBuffers(files)
    requires var init := es[..|es| - 1];
             && Valid(s0, init) && OneGroup(Exec(s0, init), files) && OrderOf(Exec(s0, init), SaveOrder(init))
             && Exec(s0, init).store == Replay(s0.store, Select(files, SaveOrder(init)))
    ensures OrderOf(Exec(s0, es), SaveOrder(es)) && |Exec(s0, es).workers| == |files|
    ensures Exec(s0, es).store == Replay(s0.store, Select(files, SaveOrder(es)))
  {
    var init := es[..|es| - 1];
    var t, e := LastStep(s0, es);
    OrderStep(t, e, SaveOrder(init));
    OneGroupStep(t, e, files);
    StoreStep(t, e, files);
    if e.Save? {
      SelectGrows(files, SaveOrder(init), e.w, s0.store);
    } else {
      assert SaveOrder(es) == SaveOrder(init);
    }
  }

  lemma {:induction false} StoreIsReplay(s0: System, es: seq<Event>, tenant: string, files: seq<File>)
    requires OneCall(s0, es, tenant, files) && FaultFree(es) && StoredWhole(es, files) && AllBuffers(files)
    ensures OrderOf(Exec(s0, es), SaveOrder(es)) && |Exec(s0, es).workers| == |files|
    ensures Exec(s0, es).store == Replay(s0.store, Select(files, SaveOrder(es)))
    decreases |es|
  {
    var n := |es| - 1;
    OneCallOneGroup(s0, es, tenant, files);
    if n == 0 {
      FirstStep(s0, es);
      assert es[..0] == [] && SaveOrder(es) == [];
    } else {
      var init := es[..n];
      OneCallPrefix(s0, es, tenant, files);
      FaultFreePrefix(es);
      WholePrefix(es, files);
      StoreIsReplay(s0, init, tenant, files);
      OneCallOneGroup(s0, init, tenant, files);
      StoreAfter(s0, es, files);
    }
  }

  ghost predicate Permutation(order: seq<nat>, n: nat) {
    && (forall i | 0 <= i < |order| :: order[i] < n)
    && (forall w | 0 <= w < n :: w in order)
    && (forall i, j | 0 <= i < j < |order| :: order[i] != order[j])
  }

  /** In a store that replaces whole objects, every fault-free interleaving leaves what the serial
      loop leaves for the same files in the order of their Saves, whether or not names repeat.
      (For the local store see LocalOverlap and LocalUpload.) */
  lemma ParallelIsSerializable(s0: System, es: seq<Event>, tenant: string, files: seq<File>)
    requires WholeCall(s0, es, tenant, files) && FaultFree(es) && StoredWhole(es, files) && AllBuffers(files)
    ensures Permutation(SaveOrder(es), |files|)
    ensures Exec(s0, es).store == Replay(s0.store, Select(files, SaveOrder(es)))
    ensures Exec(s0, es).groups[0].verdict.err.None?
  {
    StoreIsReplay(s0, es, tenant, files);
    FaultFreeEnds(s0, es, tenant, files);
    forall w | 0 <= w < |files|
      ensures w in SaveOrder(es)
    {
      assert Ends(Exec(s0, es), w, CompletedSaved);
    }
  }

  lemma SelectKeepsDistinct(files: seq<File>, order: seq<nat>)
    requires DistinctNames(files) && Permutation(order, |files|)
    ensures DistinctNames(Select(files, order))
  {
    var sel := Select(files, order);
    forall i, j | 0 <= i < j < |sel|
      ensures sel[i].name != sel[j].name
    {
      assert order[i] != order[j];
      var a, b := order[i], order[j];
      assert if a < b then files[a].name != files[b].name else files[b].name != files[a].name;
    }
  }

  lemma SelectKeepsNames(files: seq<File>, order: seq<nat>, name: string)
    requires Permutation(order, |files|)
    ensures NameUsed(Select(files, order), name) <==> NameUsed(files, name)
  {
    var sel := Select(files, order);
    if NameUsed(files, name) {
      var w :| 0 <= w < |files| && files[w].name == name;
      assert w in order;
      var i :| 0 <= i < |order| && order[i] == w;
      assert sel[i] == files[w];
    }
    if NameUsed(sel, name) {
      var i :| 0 <= i < |sel| && sel[i].name == name;
      assert files[order[i]].name == name;
    }
  }

  /** With distinct names the order of the saves does not matter. */
  lemma ReplayIgnoresOrder(store: map<string, Bytes>, files: seq<File>, order: seq<nat>)
    requires AllBuffers(files) && DistinctNames(files) && Permutation(order, |files|)
    ensures Replay(store, Select(files, order)) == Replay(store, files)
  {
    var sel := Select(files, order);
    SelectKeepsDistinct(files, order);
    ReplayLookup(store, sel);
    ReplayLookup(store, files);
    var a, b := Replay(store, sel), Replay(store, files);
    forall name
      ensures (name in a <==> name in b) && (name in a ==> a[name] == b[name])
    {
      SelectKeepsNames(files, order, name);
      if NameUsed(sel, name) {
        var i :| 0 <= i < |sel| && sel[i].name == name;
        assert files[order[i]] == sel[i];
      }
    }
    assert a == b;
  }

  /** For files with distinct names, every fault-free interleaving of the parallel upload
      leaves exactly the store of the serial upload, and neither reports an error. */
  lemma ParallelEqualsSerial(s0: System, es: seq<Event>, tenant: string, files: seq<File>)
    requires WholeCall(s0, es, tenant, files) && FaultFree(es) && StoredWhole(es, files)
    requires AllBuffers(files) && DistinctNames(files)
    ensures Exec(s0, es).store == Replay(s0.store, files)
    ensures Exec(s0, es).groups[0].verdict.err.None?
  {
    ParallelIsSerializable(s0, es, tenant, files);
    ReplayIgnoresOrder(s0.store, files, SaveOrder(es));
  }

  // ----------------------------------------------------------------- Save faults by file name

  /** The only genuine faults of the run are those of Save on the names in refused. */
  ghost predicate OnlyRefusals(es: seq<Event>, files: seq<File>, refused: set<string>) {
    forall k | 0 <= k < |es| ::
      match es[k]
      case ParentDone(_) => false
      case Create(_, _, _, r) => r.Err? ==> r.cause.ContextDone?
      case Save(w, SaveOk(_)) => w < |files| && files[w].name !in refused
      case Save(w, SaveErr(c, _)) => c.Fault? ==> w < |files| && files[w].name in refused
      case Compensate(_, _, r) => r.Err? ==> r.cause.ContextDone?
      case Complete(_, _, r) => r.Err? ==> r.cause.ContextDone?
      case _ => true
  }

  lemma ParentKept(s: System, e: Event, g: nat)
    requires Enabled(s, e) && g < |s.groups| && !e.ParentDone?
    ensures g < |Apply(s, e).groups| && Apply(s, e).groups[g].parentDone == s.groups[g].parentDone
  {
  }

  lemma {:induction false} ParentNeverDone(s0: System, es: seq<Event>, g: nat)
    requires Initial(s0) && Valid(s0, es) && g < |Exec(s0, es).groups|
    requires forall k | 0 <= k < |es| :: !es[k].ParentDone?
    ensures !Exec(s0, es).groups[g].parentDone
    decreases |es|
  {
    var t, e := LastStep(s0, es);
    var n := |es| - 1;
    forall k | 0 <= k < n
      ensures !es[..n][k].ParentDone?
    {
      assert es[..n][k] == es[k];
    }
    if g < |t.groups| {
      ParentNeverDone(s0, es[..n], g);
      ParentKept(t, e, g);
    }
  }

  /** When some names are refused and nothing else goes wrong, the parallel upload reports an error
      exactly when the serial one does for the same files and names, and its error is a refusal. */
  lemma ParallelFailsLikeSerial(s0: System, es: seq<Event>, tenant: string, files: seq<File>,
          refused: set<string>, replies: seq<SaveReply>)
    requires WholeCall(s0, es, tenant, files) && OnlyRefusals(es, files, refused)
    requires |replies| == |files|
    requires forall i | 0 <= i < |files| :: replies[i].SaveOk? <==> files[i].name !in refused
    ensures var err := Exec(s0, es).groups[0].verdict.err;
            && (err.Some? <==> FirstFailure(replies).Some?)
            && (err.Some? <==> exists i | 0 <= i < |files| :: files[i].name in refused)
            && (err.Some? ==> err.value.worker < |files| && files[err.value.worker].name in refused
                              && err.value.failure.call.SaveCall? && err.value.failure.cause.Fault?)
  {
    var s := Exec(s0, es);
    ReachableInv(s0, es);
    OneCallOneGroup(s0, es, tenant, files);
    ParentNeverDone(s0, es, 0);
    HowFilesEnd(s0, es, 0);
    var err := s.groups[0].verdict.err;
    if err.Some? {
      ErrorIsGenuine(s0, es, 0, err.value);
      var k :| 0 <= k < |es| && Reports(es[k], err.value.worker, err.value.failure);
      assert es[k].Save?;
    } else {
      forall i | 0 <= i < |files|
        ensures files[i].name !in refused
      {
        assert Ends(s, i, CompletedSaved);
        var k := SavedHasEvent(s0, es, i);
      }
    }
  }

  // ---------------------------------------------------------------------- confluence of rows

  function Untimed(r: Row): Row {
    r.(createdAt := 0, updatedAt := 0)
  }

  lemma OwnedOrOld(s: System, e: Event)
    requires Enabled(s, e)
    ensures forall id | id in Apply(s, e).table && id !in s.table :: id in Apply(s, e).owner
  {
  }

  /** Rows are either the ones the run started with or ones the uploads inserted. */
  lemma {:induction false} TableIsOldAndOwned(s0: System, es: seq<Event>)
    requires Initial(s0) && Valid(s0, es)
    ensures var s := Exec(s0, es);
            && s.table.Keys == s0.table.Keys + s.owner.Keys
            && s0.table.Keys !! s.owner.Keys
            && (forall id | id in s0.table :: s.table[id] == s0.table[id])
    decreases |es|
  {
    RowsOnlyAdvance(s0, es, 0);
    assert es[..0] == [];
    if es != [] {
      var t, e := LastStep(s0, es);
      TableIsOldAndOwned(s0, es[..|es| - 1]);
      OwnedOrOld(t, e);
    }
  }

  ghost function IdOf(s: System, w: nat): int {
    if w < |s.workers| && s.workers[w].row.Some? then s.workers[w].row.value else 0
  }

  /** At the end of a fault-free run each file has one Completed row of its own. */
  lemma FinalRow(s0: System, es: seq<Event>, tenant: string, files: seq<File>, w: nat)
    requires WholeCall(s0, es, tenant, files) && FaultFree(es) && w < |files|
    ensures var s := Exec(s0, es);
            var id := IdOf(s, w);
            && id in s.owner && s.owner[id] == w && id in s.table
            && Untimed(s.table[id]) ==
               Row(files[w].name, files[w].size, Completed, "parallel-upload", Some(["auto-generated"]), 0, 0)
  {
    var s := Exec(s0, es);
    FaultFreeEnds(s0, es, tenant, files);
    assert Ends(s, w, CompletedSaved) && WorkerOk(s, w);
  }

  lemma OwnerIndex(s0: System, es: seq<Event>, tenant: string, files: seq<File>, a: int)
    requires OneCall(s0, es, tenant, files) && a in Exec(s0, es).owner
    ensures Exec(s0, es).owner[a] < |files| && IdOf(Exec(s0, es), Exec(s0, es).owner[a]) == a
  {
    OneCallOneGroup(s0, es, tenant, files);
    ReachableInv(s0, es);
  }

  lemma FaultFreeNil(s0: System, es: seq<Event>, w: nat)
    requires Initial(s0) && Valid(s0, es) && FaultFree(es)
    requires w < |Exec(s0, es).workers| && Exec(s0, es).workers[w].phase.Finished?
    ensures Exec(s0, es).workers[w].phase == Finished(None)
  {
    if Exec(s0, es).workers[w].phase.result.Some? {
      var k := FailureHasEvent(s0, es, w, Exec(s0, es).workers[w].phase.result.value);
    }
  }

  lemma TenantOfCall(s0: System, es: seq<Event>, tenant: string, files: seq<File>)
    requires OneCall(s0, es, tenant, files)
    ensures |Exec(s0, es).groups| == 1 && Exec(s0, es).groups[0].tenant == tenant
  {
    assert es[..0] == [];
    BeginIsKept(s0, es, 0);
    OneCallOneGroup(s0, es, tenant, files);
  }

  /** A fault-free call with a pipeline sends exactly one notification for each file, with the
      file's name, the id of its row and the tenant, and no others. */
  lemma FaultFreeNotifies(s0: System, es: seq<Event>, tenant: string, files: seq<File>, w: nat) returns (i: nat)
    requires WholeCall(s0, es, tenant, files) && FaultFree(es) && s0.hasPipeline && w < |files|
    ensures var s := Exec(s0, es);
            && i < |s.notes|
            && s.notes[i] == Note(w, IdOf(s, w), files[w].name, TenantShown(tenant), Pending)
            && (forall j | 0 <= j < |s.notes| && j != i :: s.notes[j].worker != w)
            && (forall j | 0 <= j < |s.notes| :: s.notes[j].worker < |files|)
  {
    var s := Exec(s0, es);
    FaultFreeEnds(s0, es, tenant, files);
    assert s.workers[w].phase.Finished? by {
      assert GroupOk(s, 0) && AllFinished(s, 0);
    }
    assert Ends(s, w, CompletedSaved);
    NilMeansCompleted(s0, es, w);
    FaultFreeNil(s0, es, w);
    var k := NilMeansNotified(s0, es, w);
    assert Healthy(es[k]) && Arrives(es[k], w);
    NotificationsArrive(s0, es, w);
    i :| 0 <= i < |s.notes| && s.notes[i].worker == w;
    TenantOfCall(s0, es, tenant, files);
    assert NoteOk(s, s.notes[i]);
    forall j | 0 <= j < |s.notes|
      ensures s.notes[j].worker < |files|
    {
      assert NoteOk(s, s.notes[j]);
    }
  }

  /** Two fault-free interleavings of the same call leave the same rows, up to times and a
      renaming of the new ids. */
  lemma RowsAreConfluent(s0: System, es1: seq<Event>, es2: seq<Event>, tenant: string, files: seq<File>)
    returns (rename: map<int, int>)
    requires WholeCall(s0, es1, tenant, files) && FaultFree(es1)
    requires WholeCall(s0, es2, tenant, files) && FaultFree(es2)
    ensures var t1, t2 := Exec(s0, es1).table, Exec(s0, es2).table;
            && rename.Keys == t1.Keys - s0.table.Keys
            && rename.Values == t2.Keys - s0.table.Keys
            && (forall a, b | a in rename && b in rename && a != b :: rename[a] != rename[b])
            && (forall a | a in rename :: rename[a] in t2 && Untimed(t1[a]) == Untimed(t2[rename[a]]))
            && (forall id | id in s0.table :: id in t1 && id in t2 && t1[id] == s0.table[id] && t2[id] == s0.table[id])
  {
    var s1, s2 := Exec(s0, es1), Exec(s0, es2);
    TableIsOldAndOwned(s0, es1);
    TableIsOldAndOwned(s0, es2);
    rename := map a | a in s1.owner :: IdOf(s2, s1.owner[a]);
    forall a | a in s1.owner
      ensures rename[a] in s2.owner && s2.owner[rename[a]] == s1.owner[a] && IdOf(s1, s1.owner[a]) == a
      ensures rename[a] in s2.table && Untimed(s1.table[a]) == Untimed(s2.table[rename[a]])
    {
      OwnerIndex(s0, es1, tenant, files, a);
      FinalRow(s0, es1, tenant, files, s1.owner[a]);
      FinalRow(s0, es2, tenant, files, s1.owner[a]);
    }
    forall b | b in s2.owner
      ensures b in rename.Values
    {
      var w := s2.owner[b];
      OwnerIndex(s0, es2, tenant, files, b);
      FinalRow(s0, es1, tenant, files, w);
      assert rename[IdOf(s1, w)] == b;
    }
    assert rename.Values == s2.owner.Keys;
  }

  /** The in-memory allocator: every Create takes the next number. */
  ghost predicate Consecutive(s0: System, es: seq<Event>)
    requires Valid(s0, es)
  {
    forall k | 0 <= k < |es| && es[k].Create? ::
      Valid(s0, es[..k]) && es[k].id == Exec(s0, es[..k]).lastId + 1
  }

  function RowsMade(ws: seq<Worker>): nat {
    if ws == [] then 0 else RowsMade(ws[..|ws| - 1]) + if ws[|ws| - 1].row.Some? then 1 else 0
  }

  lemma {:induction false} RowsMadeUpdate(ws: seq<Worker>, w: nat, me: Worker)
    requires w < |ws|
    ensures RowsMade(ws[w := me]) + (if ws[w].row.Some? then 1 else 0) == RowsMade(ws) + (if me.row.Some? then 1 else 0)
    decreases |ws|
  {
    var n := |ws| - 1;
    var ws' := ws[w := me];
    if w < n {
      RowsMadeUpdate(ws[..n], w, me);
      assert ws'[..n] == ws[..n][w := me];
    } else {
      assert ws'[..n] == ws[..n];
    }
  }

  lemma {:induction false} RowsMadeUniform(ws: seq<Worker>, made: bool)
    requires forall w | 0 <= w < |ws| :: ws[w].row.Some? == made
    ensures RowsMade(ws) == if made then |ws| else 0
  {
    if ws != [] {
      RowsMadeUniform(ws[..|ws| - 1], made);
    }
  }

  lemma PutOnlyOwn(s: System, e: Event)
    requires Enabled(s, e) && EffectOf(s, e).OnWorker? && WorkerOk(s, EffectOf(s, e).w) && Healthy(e)
    requires e.Create? ==> e.id > s.lastId
    ensures var f := EffectOf(s, e);
            && (e.Create? ==>
                  && s.workers[f.w].row.None? && f.worker.row == Some(e.id)
                  && f.put.Some? && f.put.value.id == e.id && f.lastId == e.id)
            && (!e.Create? ==>
                  && f.worker.row == s.workers[f.w].row && f.lastId == s.lastId
                  && (f.put.Some? ==> f.put.value.id in s.owner && s.owner[f.put.value.id] == f.w))
  {
  }

  lemma IdsStep(s: System, e: Event, base: int)
    requires Enabled(s, e) && !e.Begin? && Healthy(e)
    requires EffectOf(s, e).OnWorker? ==> WorkerOk(s, EffectOf(s, e).w)
    requires e.Create? ==> e.id == s.lastId + 1
    requires s.lastId == base + RowsMade(s.workers)
    requires forall id :: id in s.owner <==> base < id <= s.lastId
    ensures var s' := Apply(s, e);
            && s'.lastId == base + RowsMade(s'.workers)
            && forall id :: id in s'.owner <==> base < id <= s'.lastId
  {
    var f := EffectOf(s, e);
    if f.OnWorker? {
      assert WorkerOk(s, f.w);
      RowsMadeUpdate(s.workers, f.w, f.worker);
      PutOnlyOwn(s, e);
      assert Apply(s, e).owner == if f.put.Some? then s.owner[f.put.value.id := f.w] else s.owner;
      assert Apply(s, e).workers == s.workers[f.w := f.worker];
    }
  }

  lemma {:induction false} IdsSoFar(s0: System, es: seq<Event>, tenant: string, files: seq<File>)
    requires OneCall(s0, es, tenant, files) && FaultFree(es) && Consecutive(s0, es)
    ensures var s := Exec(s0, es);
            && s.lastId == s0.lastId + RowsMade(s.workers)
            && forall id :: id in s.owner <==> s0.lastId < id <= s.lastId
    decreases |es|
  {
    var n := |es| - 1;
    if n == 0 {
      FirstStep(s0, es);
      RowsMadeUniform(Exec(s0, es).workers, false);
    } else {
      var init := es[..n];
      OneCallPrefix(s0, es, tenant, files);
      FaultFreePrefix(es);
      forall k | 0 <= k < n && init[k].Create?
        ensures Valid(s0, init[..k]) && init[k].id == Exec(s0, init[..k]).lastId + 1
      {
        assert init[k] == es[k] && init[..k] == es[..k];
      }
      IdsSoFar(s0, init, tenant, files);
      var t, e := LastStep(s0, es);
      if EffectOf(t, e).OnWorker? {
        assert WorkerOk(t, EffectOf(t, e).w);
      }
      IdsStep(t, e, s0.lastId);
    }
  }

  /** Under the in-memory allocator the new ids are the next |files| numbers. */
  lemma NewIdsAreConsecutive(s0: System, es: seq<Event>, tenant: string, files: seq<File>)
    requires WholeCall(s0, es, tenant, files) && FaultFree(es) && Consecutive(s0, es)
    ensures forall id :: id in Exec(s0, es).table && id !in s0.table <==> s0.lastId < id <= s0.lastId + |files|
  {
    IdsSoFar(s0, es, tenant, files);
    FaultFreeEnds(s0, es, tenant, files);
    TableIsOldAndOwned(s0, es);
    var s := Exec(s0, es);
    forall w | 0 <= w < |s.workers|
      ensures s.workers[w].row.Some?
    {
      assert Ends(s, w, CompletedSaved);
    }
    RowsMadeUniform(s.workers, true);
  }
}
