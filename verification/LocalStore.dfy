// LocalRepository.Save: os.Create, io.Copy, and the deferred Close.

module LocalStore {
  import opened Domain

  /** What one Read of an io.Reader returns. */
  datatype Read = Data(bytes: Bytes) | Eof | ReadErr(code: int)

  /** The disk during one Save: whether the file can be created, how many bytes fit, and
      whether Close reports success.  A failing Close keeps only the first kept bytes. */
  datatype Disk = Disk(canCreate: bool, room: nat, closeOk: bool, kept: nat)

  datatype CopyEnd = Copied | ReadFailed(code: int) | WriteFailed | Unfinished

  datatype SaveError = CreateFailed | CopyFailed(why: CopyEnd)

  /** Everything the reader delivers before its first answer that is not data. */
  function Payload(answers: seq<Read>): Bytes {
    if answers == [] || !answers[0].Data? then [] else answers[0].bytes + Payload(answers[1..])
  }

  /** The reader's first answer that is not data, if it has given one. */
  function Ending(answers: seq<Read>): (r: Option<Read>)
    ensures r.Some? ==> !r.value.Data?
  {
    if answers == [] then None
    else if answers[0].Data? then Ending(answers[1..])
    else Some(answers[0])
  }

  function Stored(written: Bytes, disk: Disk): Bytes {
    if disk.closeOk || disk.kept >= |written| then written else written[..disk.kept]
  }

  /** How io.Copy ends: a write that does not fit stops it, otherwise the reader's ending does. */
  function CopyOutcome(answers: seq<Read>, room: nat): CopyEnd {
    if |Payload(answers)| > room then WriteFailed
    else
      match Ending(answers)
      case None => Unfinished
      case Some(Eof) => Copied
      case Some(ReadErr(c)) => ReadFailed(c)
  }

  /** What io.Copy has written when it ends. */
  function Written(answers: seq<Read>, room: nat): (w: Bytes)
    ensures w <= Payload(answers) && |w| <= room
  {
    var p := Payload(answers);
    if |p| <= room then p else p[..room]
  }

  lemma {:induction false} PayloadSplit(answers: seq<Read>, i: nat)
    requires i <= |answers| && forall j | 0 <= j < i :: answers[j].Data?
    ensures Payload(answers) == Payload(answers[..i]) + Payload(answers[i..])
    ensures Ending(answers) == Ending(answers[i..]) && Ending(answers[..i]) == None
  {
    if i == 0 {
      assert answers[0..] == answers;
    } else {
      PayloadSplit(answers[1..], i - 1);
      assert answers[1..][..i - 1] == answers[..i][1..];
      assert answers[1..][i - 1..] == answers[i..];
    }
  }

  lemma OneAnswer(a: Read)
    requires a.Data?
    ensures Payload([a]) == a.bytes
  {
    assert [a][1..] == [];
  }

  lemma OneMore(answers: seq<Read>, i: nat)
    requires i < |answers| && forall j | 0 <= j <= i :: answers[j].Data?
    ensures Payload(answers[..i + 1]) == Payload(answers[..i]) + answers[i].bytes
    ensures Payload(answers[..i + 1]) <= Payload(answers)
  {
    var front := answers[..i + 1];
    PayloadSplit(answers, i + 1);
    PayloadSplit(front, i);
    assert front[..i] == answers[..i];
    assert front[i..] == [answers[i]];
    OneAnswer(answers[i]);
  }

  /** Whatever the reply of a Save that could create its file: the file holds the longest part of
      what the reader delivered that fits on the disk, less what a failing Close loses. */
  lemma StoredIs(answers: seq<Read>, disk: Disk)
    ensures var file := Stored(Written(answers, disk.room), disk);
            && file <= Payload(answers)
            && var fits := if |Payload(answers)| <= disk.room then |Payload(answers)| else disk.room;
               |file| == if disk.closeOk || disk.kept >= fits then fits else disk.kept
  {
    var p := Payload(answers);
    assert Written(answers, disk.room) == if |p| <= disk.room then p else p[..disk.room];
  }

  /** When Save reports success, the file holds what the reader delivered exactly when Close
      kept it all: the error of a failing Close is lost. */
  lemma SuccessStoresPayload(answers: seq<Read>, disk: Disk)
    requires CopyOutcome(answers, disk.room) == Copied
    ensures Ending(answers) == Some(Eof)
    ensures Stored(Written(answers, disk.room), disk) == Payload(answers) <==>
            disk.closeOk || disk.kept >= |Payload(answers)|
  {
  }

  class LocalRepository {
    var files: map<string, Bytes>

    constructor ()
      ensures files == map[]
    {
      files := map[];
    }

    /** The function's result is not named, so the deferred Close assigns its error to a local
        that nobody answers: the reply ignores disk.closeOk. */
    method Save(name: string, answers: seq<Read>, disk: Disk) returns (err: Option<SaveError>)
      requires disk.canCreate ==> CopyOutcome(answers, disk.room) != Unfinished
      modifies this
      ensures !disk.canCreate ==> err == Some(CreateFailed) && files == old(files)
      ensures disk.canCreate ==>
                && name in files && files == old(files)[name := files[name]]
                && files[name] <= Payload(answers)
                && var fits := if |Payload(answers)| <= disk.room then |Payload(answers)| else disk.room;
                   |files[name]| == if disk.closeOk || disk.kept >= fits then fits else disk.kept
      ensures err.None? <==> disk.canCreate && |Payload(answers)| <= disk.room && Ending(answers) == Some(Eof)
      ensures err == Some(CopyFailed(WriteFailed)) <==> disk.canCreate && |Payload(answers)| > disk.room
      ensures forall code :: err == Some(CopyFailed(ReadFailed(code))) <==>
                disk.canCreate && |Payload(answers)| <= disk.room && Ending(answers) == Some(ReadErr(code))
      ensures disk.canCreate ==>
                && files[name] == Stored(Written(answers, disk.room), disk)
                && err == (if CopyOutcome(answers, disk.room) == Copied then None
                           else Some(CopyFailed(CopyOutcome(answers, disk.room))))
    {
      if !disk.canCreate {
        return Some(CreateFailed);
      }
      var f: Bytes := [];
      files := files[name := f];
      var i := 0;
      var end := Unfinished;
      while end.Unfinished?
        invariant 0 <= i <= |answers| && forall j | 0 <= j < i :: answers[j].Data?
        invariant end.Unfinished? ==> f == Payload(answers[..i]) && |f| <= disk.room
        invariant !end.Unfinished? ==> f == Written(answers, disk.room) && end == CopyOutcome(answers, disk.room)
        invariant files == old(files)[name := f]
        decreases end.Unfinished?, |answers| - i
      {
        PayloadSplit(answers, i);
        match answers[i]
        case Data(chunk) =>
          OneMore(answers, i);
          if |f| + |chunk| <= disk.room {
            f := f + chunk;
            i := i + 1;
          } else {
            f := f + chunk[..disk.room - |f|];
            assert f == Payload(answers)[..disk.room];
            end := WriteFailed;
          }
          files := files[name := f];
        case Eof =>
          end := Copied;
        case ReadErr(code) =>
          end := ReadFailed(code);
      }
      err := if end == Copied then None else Some(CopyFailed(end));
      files := files[name := Stored(f, disk)];
      StoredIs(answers, disk);
    }
  }

  /** One byte, a disk with room for it, and a Close that fails: Save answers nil, and the byte is
      gone. */
  method LoseCloseError(repo: LocalRepository, name: string, b: byte) returns (err: Option<SaveError>)
    modifies repo
    ensures err.None? && repo.files == old(repo.files)[name := []]
  {
    var answers := [Data([b]), Eof];
    assert answers[1..] == [Eof];
    assert Payload([Eof]) == [] && Ending(answers) == Ending([Eof]) == Some(Eof);
    err := repo.Save(name, answers, Disk(true, 10, false, 0));
  }
}
