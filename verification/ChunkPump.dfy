// The gRPC upload handler: a goroutine pumps received chunks into an unbuffered io.Pipe while
// Save, inside UploadMultipleParallel, reads the other end.

module ChunkPump {
  import opened Domain
  import opened LocalStore

  datatype CloseReason = CleanEof | Broken(code: int)

  datatype Phase = Receiving | Writing(rest: Bytes) | Closing | Done

  // closed is the pipe's first close reason; answers are the results of the reader's Reads;
  // streamErr remembers a Recv that failed; stopped says the reader will read no more.
  datatype Pump = Pump(
    phase: Phase,
    chunks: seq<Bytes>,
    closed: Option<CloseReason>,
    answers: seq<Read>,
    streamErr: Option<int>,
    stopped: bool)

  const START := Pump(Receiving, [], None, [], None, false)

  datatype Event =
    | RecvChunk(chunk: Bytes)
    | RecvOther
    | RecvEof
    | RecvErr(code: int)
    | WriteErr
    | DeferredClose
    | Transfer(n: nat)
    | ReadEnd
    | Stop

  /** io.Pipe's CloseWithError: only the first reason is kept. */
  function CloseWith(p: Pump, why: CloseReason): Pump {
    p.(closed := if p.closed.None? then Some(why) else p.closed)
  }

  predicate ReaderActive(p: Pump) {
    !p.stopped && Ending(p.answers).None?
  }

  predicate Enabled(p: Pump, e: Event) {
    match e
    case RecvChunk(_) => p.phase.Receiving?
    case RecvOther => p.phase.Receiving?
    case RecvEof => p.phase.Receiving?
    case RecvErr(_) => p.phase.Receiving?
    case WriteErr => p.phase.Writing? && p.closed.Some?
    case DeferredClose => p.phase.Closing?
    case Transfer(n) =>
      // One Read meets the blocked Write; an empty Write still meets one Read.
      && p.phase.Writing? && p.closed.None? && ReaderActive(p)
      && n <= |p.phase.rest| && (n == 0 ==> p.phase.rest == [])
    case ReadEnd => p.closed.Some? && ReaderActive(p)
    case Stop => !p.stopped
  }

  function Apply(p: Pump, e: Event): Pump
    requires Enabled(p, e)
  {
    match e
    case RecvChunk(c) => p.(phase := Writing(c), chunks := p.chunks + [c])
    case RecvOther => p
    case RecvEof => p.(phase := Closing)
    case RecvErr(code) => CloseWith(p, Broken(code)).(phase := Closing, streamErr := Some(code))
    case WriteErr => CloseWith(p, Broken(-1)).(phase := Closing)
    case DeferredClose => CloseWith(p, CleanEof).(phase := Done)
    case Transfer(n) =>
      p.(answers := p.answers + [Data(p.phase.rest[..n])],
      phase := if n == |p.phase.rest| then Receiving else Writing(p.phase.rest[n..]))
    case ReadEnd =>
      p.(answers := p.answers + [match p.closed.value case CleanEof => Eof case Broken(c) => ReadErr(c)])
    case Stop => p.(stopped := true)
  }

  ghost function Run(p: Pump, es: seq<Event>): Option<Pump>
    decreases |es|
  {
    if es == [] then Some(p) else
    var k := |es| - 1;
    match Run(p, es[..k])
    case None => None
    case Some(q) => if Enabled(q, es[k]) then Some(Apply(q, es[k])) else None
  }

  lemma RunMore(p: Pump, es: seq<Event>, q: Pump, e: Event)
    requires Run(p, es) == Some(q) && Enabled(q, e)
    ensures Run(p, es + [e]) == Some(Apply(q, e))
  {
    assert (es + [e])[..|es|] == es;
  }

  ghost predicate Reachable(p: Pump) {
    exists es :: Run(START, es) == Some(p)
  }

  function Flat(chunks: seq<Bytes>): Bytes {
    if chunks == [] then [] else Flat(chunks[..|chunks| - 1]) + chunks[|chunks| - 1]
  }

  function Pending(p: Pump): Bytes {
    if p.phase.Writing? then p.phase.rest else []
  }

  ghost predicate EndsLast(answers: seq<Read>) {
    forall i | 0 <= i < |answers| - 1 :: answers[i].Data?
  }

  predicate EndOf(all: Bytes, rest: Bytes) {
    |rest| <= |all| && all[|all| - |rest|..] == rest
  }

  /** No byte is lost between the stream and the reader. */
  ghost predicate BytesOk(p: Pump) {
    && EndsLast(p.answers)
    && Flat(p.chunks) == Payload(p.answers) + Pending(p)
    && (p.phase.Writing? ==>
          p.chunks != [] && EndOf(p.chunks[|p.chunks| - 1], p.phase.rest))
  }

  /** The pipe is closed once, for the right reason, and the reader is told that reason. */
  predicate CloseOk(p: Pump) {
    && (p.closed.Some? ==> p.phase.Closing? || p.phase.Done?)
    && (p.phase.Done? ==> p.closed.Some?)
    && (p.closed.Some? && p.phase.Closing? ==> p.streamErr.Some?)
    && (p.streamErr.Some? ==> p.closed == Some(Broken(p.streamErr.value)))
    && (p.streamErr.None? && p.closed.Some? ==> p.closed == Some(CleanEof))
    && (Ending(p.answers) == Some(Eof) ==> p.closed == Some(CleanEof))
    && (Ending(p.answers).Some? && Ending(p.answers).value.ReadErr? ==>
          p.streamErr == Some(Ending(p.answers).value.code))
    && (Ending(p.answers).Some? ==> p.closed.Some?)
  }

  ghost predicate PumpOk(p: Pump) {
    BytesOk(p) && CloseOk(p)
  }

  lemma {:induction false} AllData(answers: seq<Read>)
    requires Ending(answers).None?
    ensures forall i | 0 <= i < |answers| :: answers[i].Data?
  {
    if answers != [] {
      AllData(answers[1..]);
    }
  }

  lemma {:induction false} Answered(answers: seq<Read>, a: Read)
    requires EndsLast(answers) && Ending(answers).None?
    ensures EndsLast(answers + [a])
    ensures Payload(answers + [a]) == Payload(answers) + (if a.Data? then a.bytes else [])
    ensures Ending(answers + [a]) == if a.Data? then None else Some(a)
  {
    AllData(answers);
    var all := answers + [a];
    PayloadSplit(all, |answers|);
    assert all[..|answers|] == answers && all[|answers|..] == [a];
    assert Payload([a]) == if a.Data? then a.bytes else [];
    assert Ending([a]) == if a.Data? then None else Some(a);
  }

  lemma SuffixShrinks(last: Bytes, rest: Bytes, n: nat)
    requires EndOf(last, rest) && n <= |rest|
    ensures EndOf(last, rest[n..])
  {
    assert last[|last| - |rest|..][n..] == rest[n..];
  }

  lemma HeadMoves(a: Bytes, rest: Bytes, n: nat)
    requires n <= |rest|
    ensures a + rest == (a + rest[..n]) + rest[n..]
    ensures n == |rest| ==> rest[n..] == []
  {
  }

  lemma TransferAnswered(p: Pump, n: nat)
    requires EndsLast(p.answers) && Enabled(p, Transfer(n))
    ensures var q := Apply(p, Transfer(n));
            && EndsLast(q.answers) && Ending(q.answers).None?
            && Payload(q.answers) == Payload(p.answers) + p.phase.rest[..n]
            && q.chunks == p.chunks && Pending(q) == p.phase.rest[n..]
  {
    Answered(p.answers, Data(p.phase.rest[..n]));
  }

  lemma TransferKeepsBytes(p: Pump, n: nat)
    requires BytesOk(p) && Enabled(p, Transfer(n))
    ensures BytesOk(Apply(p, Transfer(n)))
    ensures Ending(Apply(p, Transfer(n)).answers).None?
  {
    TransferAnswered(p, n);
    SuffixShrinks(p.chunks[|p.chunks| - 1], p.phase.rest, n);
    HeadMoves(Payload(p.answers), p.phase.rest, n);
  }

  lemma TransferKeepsOk(p: Pump, n: nat)
    requires PumpOk(p) && Enabled(p, Transfer(n))
    ensures PumpOk(Apply(p, Transfer(n)))
  {
    TransferKeepsBytes(p, n);
  }

  lemma ReadEndKeepsOk(p: Pump)
    requires PumpOk(p) && Enabled(p, ReadEnd)
    ensures PumpOk(Apply(p, ReadEnd))
  {
    var a := match p.closed.value case CleanEof => Eof case Broken(c) => ReadErr(c);
    Answered(p.answers, a);
  }

  lemma RecvKeepsOk(p: Pump, c: Bytes)
    requires PumpOk(p) && Enabled(p, RecvChunk(c))
    ensures PumpOk(Apply(p, RecvChunk(c)))
  {
    assert (p.chunks + [c])[..|p.chunks|] == p.chunks;
  }

  lemma StepKeepsOk(p: Pump, e: Event)
    requires PumpOk(p) && Enabled(p, e)
    ensures PumpOk(Apply(p, e))
  {
    if e.RecvChunk? {
      RecvKeepsOk(p, e.chunk);
    } else if e.Transfer? {
      TransferKeepsOk(p, e.n);
    } else if e.ReadEnd? {
      ReadEndKeepsOk(p);
    }
  }

  lemma {:induction false} RunKeepsOk(p: Pump, es: seq<Event>)
    requires PumpOk(p) && Run(p, es).Some?
    ensures PumpOk(Run(p, es).value)
    decreases |es|
  {
    if es != [] {
      RunKeepsOk(p, es[..|es| - 1]);
      StepKeepsOk(Run(p, es[..|es| - 1]).value, es[|es| - 1]);
    }
  }

  lemma ReachableOk(p: Pump)
    requires Reachable(p)
    ensures PumpOk(p)
  {
    var es :| Run(START, es) == Some(p);
    RunKeepsOk(START, es);
  }

  // ------------------------------------------------------------------ what the stream has sent

  /** The chunks that the stream's messages carried, in order. */
  function Received(es: seq<Event>): seq<Bytes> {
    if es == [] then []
    else
      var e := es[|es| - 1];
      Received(es[..|es| - 1]) + if e.RecvChunk? then [e.chunk] else []
  }

  /** How the pump stands to the messages received so far. */
  ghost predicate TrueTo(p: Pump, es: seq<Event>) {
    && p.chunks == Received(es)
    && (forall code :: RecvErr(code) in es <==> p.streamErr == Some(code))
    && (p.closed == Some(CleanEof) ==> RecvEof in es)
    && (p.phase.Closing? && p.closed.None? ==> RecvEof in es)
    && (RecvEof in es ==> p.streamErr.None?)
    && (p.phase.Receiving? || p.phase.Writing? ==> RecvEof !in es && p.streamErr.None?)
  }

  lemma StepKeepsTrue(p: Pump, es: seq<Event>, e: Event)
    requires PumpOk(p) && TrueTo(p, es) && Enabled(p, e)
    ensures TrueTo(Apply(p, e), es + [e])
  {
    assert (es + [e])[..|es|] == es;
    assert forall x :: x in es + [e] <==> x in es || x == e;
  }

  lemma {:induction false} RunIsTrue(es: seq<Event>)
    requires Run(START, es).Some?
    ensures TrueTo(Run(START, es).value, es) && PumpOk(Run(START, es).value)
    decreases |es|
  {
    if es != [] {
      var init, e := es[..|es| - 1], es[|es| - 1];
      var p := Run(START, init).value;
      RunIsTrue(init);
      assert es == init + [e];
      StepKeepsTrue(p, init, e);
      StepKeepsOk(p, e);
    }
  }

  /** At every step, what the reader has got is a prefix of the chunks that the stream has sent, in
      their order, short of them by no more than the unread end of the last one; it is all of them
      once the reader has seen the end, which is an end of file only if the stream has ended, and
      an error only if the stream has broken with that error. */
  lemma ReaderHasPrefix(es: seq<Event>, p: Pump)
    requires Run(START, es) == Some(p)
    ensures Payload(p.answers) <= Flat(Received(es))
    ensures Flat(Received(es)) == Payload(p.answers) + Pending(p)
    ensures Pending(p) != [] ==> Received(es) != [] && |Pending(p)| <= |Received(es)[|Received(es)| - 1]|
    ensures Ending(p.answers).Some? ==> Payload(p.answers) == Flat(Received(es))
    ensures Ending(p.answers) == Some(Eof) ==> RecvEof in es
    ensures Ending(p.answers).Some? && Ending(p.answers).value.ReadErr? ==>
              RecvErr(Ending(p.answers).value.code) in es
  {
    RunIsTrue(es);
  }

  /** A stream that broke never looks like a clean end: the deferred Close comes second. */
  lemma BrokenStreamIsSeen(es: seq<Event>, p: Pump, code: int)
    requires Run(START, es) == Some(p) && RecvErr(code) in es
    ensures p.closed == Some(Broken(code))
    ensures Ending(p.answers) != Some(Eof)
    ensures Enabled(p, ReadEnd) ==> Ending(Apply(p, ReadEnd).answers) == Some(ReadErr(code))
  {
    RunIsTrue(es);
    if Enabled(p, ReadEnd) {
      Answered(p.answers, ReadErr(code));
    }
  }

  function WithoutOther(es: seq<Event>): seq<Event> {
    if es == [] then []
    else
      var e := es[|es| - 1];
      WithoutOther(es[..|es| - 1]) + if e.RecvOther? then [] else [e]
  }

  /** Messages without a chunk make no difference: the pump is where it would be without them. */
  lemma {:induction false} OtherMessagesIgnored(es: seq<Event>)
    requires Run(START, es).Some?
    ensures Run(START, WithoutOther(es)) == Run(START, es)
    decreases |es|
  {
    if es != [] {
      var n := |es| - 1;
      OtherMessagesIgnored(es[..n]);
      var rest := WithoutOther(es[..n]);
      if es[n].RecvOther? {
        assert WithoutOther(es) == rest;
      } else {
        assert (rest + [es[n]])[..|rest|] == rest;
      }
    }
  }

  /** Nobody closes the reading end, so the pump's write never fails. */
  lemma WriteNeverFails(p: Pump)
    requires Reachable(p)
    ensures !Enabled(p, WriteErr)
  {
    ReachableOk(p);
  }

  // --------------------------------------------------------------------- when the pump leaks

  /** If Save stops reading in the middle of a chunk, the pump stays in its Write for ever. */
  lemma {:induction false} StoppedWriterIsStuck(p: Pump, es: seq<Event>)
    requires Reachable(p) && p.stopped && p.phase.Writing? && Run(p, es).Some?
    ensures Run(p, es) == Some(p)
    decreases |es|
  {
    ReachableOk(p);
    if es != [] {
      StoppedWriterIsStuck(p, es[..|es| - 1]);
    }
  }

  lemma WayOut(p: Pump) returns (es: seq<Event>)
    requires PumpOk(p) && !p.phase.Writing?
    ensures Run(p, es).Some? && Run(p, es).value.phase.Done?
  {
    if p.phase.Done? {
      es := [];
    } else if p.phase.Closing? {
      es := [DeferredClose];
      assert es[..0] == [];
    } else {
      es := [RecvEof, DeferredClose];
      assert es[..1] == [RecvEof] && es[..1][..0] == [];
      assert Run(p, es[..1]) == Some(Apply(p, RecvEof));
    }
  }

  /** Once Save has stopped reading, the pump can still finish exactly when it is not in a Write. */
  lemma StoppedPumpCanFinish(p: Pump)
    requires Reachable(p) && p.stopped
    ensures (exists es :: Run(p, es).Some? && Run(p, es).value.phase.Done?) <==> !p.phase.Writing?
  {
    ReachableOk(p);
    if p.phase.Writing? {
      forall es | Run(p, es).Some?
        ensures !Run(p, es).value.phase.Done?
      {
        StoppedWriterIsStuck(p, es);
      }
    } else {
      var es := WayOut(p);
    }
  }
}
