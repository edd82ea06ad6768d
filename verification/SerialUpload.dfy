// UploadMultipleSerial: the loop that saves one file after another.

module SerialUpload {
  import opened Domain
  import opened UploadProtocol

  /** The store after saving the files one after another. */
  function Replay(store: map<string, Bytes>, files: seq<File>): map<string, Bytes>
    requires forall i | 0 <= i < |files| :: files[i].content.Buffer?
  {
    if files == [] then store
    else
      var n := |files| - 1;
      Replay(store, files[..n])[files[n].name := files[n].content.bytes]
  }

  predicate DistinctNames(files: seq<File>) {
    forall i, j | 0 <= i < j < |files| :: files[i].name != files[j].name
  }

  predicate AllBuffers(files: seq<File>) {
    forall i | 0 <= i < |files| :: files[i].content.Buffer?
  }

  predicate NameUsed(files: seq<File>, name: string) {
    exists i | 0 <= i < |files| :: files[i].name == name
  }

  /** What Replay leaves under each name, when no two files share one. */
  lemma {:induction false} ReplayLookup(store: map<string, Bytes>, files: seq<File>)
    requires AllBuffers(files) && DistinctNames(files)
    ensures forall i | 0 <= i < |files| ::
              files[i].name in Replay(store, files) && Replay(store, files)[files[i].name] == files[i].content.bytes
    ensures forall name | !NameUsed(files, name) ::
              (name in Replay(store, files) <==> name in store)
              && (name in store ==> Replay(store, files)[name] == store[name])
  {
    if files != [] {
      var n := |files| - 1;
      var init := files[..n];
      ReplayLookup(store, init);
      var r := Replay(store, files);
      forall i | 0 <= i < |files|
        ensures files[i].name in r && r[files[i].name] == files[i].content.bytes
      {
        if i < n {
          assert init[i] == files[i] && files[i].name != files[n].name;
        }
      }
      forall name | !NameUsed(files, name)
        ensures (name in r <==> name in store) && (name in store ==> r[name] == store[name])
      {
        assert files[n].name != name;
        forall i | 0 <= i < |init|
          ensures init[i].name != name
        {
          assert files[i].name != name;
        }
      }
    }
  }

  /** The store after Saves of the files, one after another, with whatever replies. */
  function Stores(store: map<string, Bytes>, files: seq<File>, replies: seq<SaveReply>): map<string, Bytes>
    requires |files| == |replies|
  {
    if files == [] then store
    else
      var n := |files| - 1;
      var before := Stores(store, files[..n], replies[..n]);
      match Left(replies[n]) case Some(b) => before[files[n].name := b] case None => before
  }

  /** The last Save of a name that left anything decides what the store holds under it. */
  lemma {:induction false} StoresLast(store: map<string, Bytes>, files: seq<File>, replies: seq<SaveReply>, i: nat)
    requires |files| == |replies| && i < |files| && Left(replies[i]).Some?
    requires forall j | i < j < |files| && files[j].name == files[i].name :: Left(replies[j]).None?
    ensures files[i].name in Stores(store, files, replies)
    ensures Stores(store, files, replies)[files[i].name] == Left(replies[i]).value
    decreases |files|
  {
    var n := |files| - 1;
    if i < n {
      StoresLast(store, files[..n], replies[..n], i);
    }
  }

  /** A name under which no Save left anything is as it was. */
  lemma {:induction false} StoresKeep(store: map<string, Bytes>, files: seq<File>, replies: seq<SaveReply>,
          name: string)
    requires |files| == |replies|
    requires forall j | 0 <= j < |files| && files[j].name == name :: Left(replies[j]).None?
    ensures name in Stores(store, files, replies) <==> name in store
    ensures name in store ==> Stores(store, files, replies)[name] == store[name]
    decreases |files|
  {
    if files != [] {
      var n := |files| - 1;
      StoresKeep(store, files[..n], replies[..n], name);
    }
  }

  /** Every file is answered with success and stored as it is. */
  predicate AllWhole(files: seq<File>, replies: seq<SaveReply>)
    requires |files| == |replies|
  {
    forall i | 0 <= i < |files| :: files[i].content.Buffer? && replies[i] == SaveOk(files[i].content.bytes)
  }

  lemma {:induction false} WholeIsReplay(store: map<string, Bytes>, files: seq<File>, replies: seq<SaveReply>)
    requires |files| == |replies| && AllWhole(files, replies)
    ensures AllBuffers(files) && Stores(store, files, replies) == Replay(store, files)
  {
    if files != [] {
      var n := |files| - 1;
      WholeIsReplay(store, files[..n], replies[..n]);
      assert files[n].content.Buffer?;
    }
  }

  /** The first Save that fails. */
  function FirstFailure(replies: seq<SaveReply>): (r: Option<nat>)
    ensures r.None? <==> forall i | 0 <= i < |replies| :: replies[i].SaveOk?
    ensures r.Some? ==>
              && r.value < |replies| && replies[r.value].SaveErr?
              && forall i | 0 <= i < r.value :: replies[i].SaveOk?
  {
    if replies == [] then None
    else
      var n := |replies| - 1;
      var r := FirstFailure(replies[..n]);
      assert forall i | 0 <= i < n :: replies[i] == replies[..n][i];
      if r.Some? then r else if replies[n].SaveErr? then Some(n) else None
  }

  class FileStore {
    var files: map<string, Bytes>

    constructor ()
      ensures files == map[]
    {
      files := map[];
    }

    method Save(name: string, reply: SaveReply) returns (ok: bool)
      modifies this
      ensures ok <==> reply.SaveOk?
      ensures forall other | other != name :: other in files <==> other in old(files)
      ensures forall other | other != name && other in files :: files[other] == old(files)[other]
      ensures match Left(reply)
              case Some(b) => name in files && files[name] == b
              case None => files == old(files)
    {
      var left := Left(reply);
      if left.Some? {
        files := files[name := left.value];
      }
      ok := reply.SaveOk?;
    }
  }

  /** UploadMultipleSerial, with the replies that its Saves would get: the index of the file whose
      Save failed, if one did.  Files after it are never tried. */
  method UploadMultipleSerial(repo: FileStore, files: seq<File>, replies: seq<SaveReply>) returns (err: Option<nat>)
    requires |replies| == |files|
    modifies repo
    ensures err.None? <==> forall i | 0 <= i < |files| :: replies[i].SaveOk?
    ensures err == FirstFailure(replies)
    ensures err.None? ==> repo.files == Stores(old(repo.files), files, replies)
    ensures err.None? && AllWhole(files, replies) ==> repo.files == Replay(old(repo.files), files)
    ensures err.Some? ==>
              && err.value < |files| && replies[err.value].SaveErr?
              && (forall i | 0 <= i < err.value :: replies[i].SaveOk?)
              && repo.files == Stores(old(repo.files), files[..err.value + 1], replies[..err.value + 1])
  {
    for i := 0 to |files|
      invariant forall j | 0 <= j < i :: replies[j].SaveOk?
      invariant repo.files == Stores(old(repo.files), files[..i], replies[..i])
    {
      ghost var before := repo.files;
      var ok := repo.Save(files[i].name, replies[i]);
      assert files[..i + 1][..i] == files[..i] && replies[..i + 1][..i] == replies[..i];
      assert repo.files == match Left(replies[i]) case Some(b) => before[files[i].name := b] case None => before;
      if !ok {
        return Some(i);
      }
    }
    assert files[..|files|] == files && replies[..|files|] == replies;
    if AllWhole(files, replies) {
      WholeIsReplay(old(repo.files), files, replies);
    }
    err := None;
  }
}
