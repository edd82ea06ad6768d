// The Pub/Sub worker: the handler's decision to acknowledge or to give back, the server's
// wrapper that acknowledges in its finally block, and the subscribe loop that starts one task
// per delivered message.

module PubSub {
  import opened Domain

  // A value of the decoded JSON object: missing, falsy (null, 0, ...), a string, or some other
  // truthy value.
  datatype Field = Absent | Falsy | Text(s: string) | OtherValue {
    predicate Truthy() { (Text? && s != "") || OtherValue? }
  }

  datatype Payload = Undecodable | NotAnObject | Object(fileName: Field, tenantId: Field)

  /** How run_pipeline ends: with an exception, by cancellation of the task, or with a result
      whose status is or is not "success". */
  datatype PipelineRun = Raises | CancelledRun | Returns(success: bool)

  /** The reply to a request to the broker: an answer, an exception, or a cancellation of the task
      while it waits.  Without an answer the request may still have been applied; and a request
      that comes too late can be answered without being applied. */
  datatype Reply = Fine(applied: bool) | Lost(applied: bool) | Cut(applied: bool)

  /** Everything the outside contributes to one delivery. */
  datatype Input = Input(prologueRaises: bool, payload: Payload, run: PipelineRun, call: Reply, last: Reply)

  datatype Call = Ack(task: nat, applied: bool) | Nack(task: nat, applied: bool)

  datatype Verdict = Good | Bad | Interrupted

  /** A payload whose pipeline is started: the path is built from a string name. */
  predicate Accepted(p: Payload) {
    p.Object? && p.fileName.Text? && p.fileName.Truthy() && p.tenantId.Truthy()
  }

  function Judge(p: Payload, run: PipelineRun): Verdict {
    if !Accepted(p) then Bad
    else
      match run
      case Returns(success) => if success then Good else Bad
      case Raises => Bad
      case CancelledRun => Interrupted
  }

  /** The broker requests of one delivery handled by the handler alone. */
  function HandlerTrace(t: nat, x: Input): seq<Call> {
    if x.prologueRaises then []
    else
      match Judge(x.payload, x.run)
      case Good => [Ack(t, x.call.applied)]
      case Bad => [Nack(t, x.call.applied)]
      case Interrupted => []
  }

  /** The broker requests of one delivery handled by the server. */
  function ServerTrace(t: nat, x: Input): seq<Call> {
    HandlerTrace(t, x) + [Ack(t, x.last.applied)]
  }

  // -------------------------------------------------------------------------- the handler

  datatype End = Normal | Exception | CancelledError

  class Broker {
    var calls: seq<Call>

    constructor ()
      ensures calls == []
    {
      calls := [];
    }

    method Send(c: Call, reply: Reply) returns (end: End)
      requires c.applied == reply.applied
      modifies this
      ensures calls == old(calls) + [c]
      ensures end == match reply case Fine(_) => Normal case Lost(_) => Exception case Cut(_) => CancelledError
    {
      calls := calls + [c];
      match reply
      case Fine(_) => end := Normal;
      case Lost(_) => end := Exception;
      case Cut(_) => end := CancelledError;
    }
  }

  /** handle_message_core: every exception but a cancellation is caught and means failure. */
  method HandleMessageCore(p: Payload, run: PipelineRun) returns (v: Verdict)
    ensures v == Judge(p, run)
    ensures v.Good? <==>
              && p.Object? && p.fileName.Text? && p.fileName.s != ""
              && ((p.tenantId.Text? && p.tenantId.s != "") || p.tenantId.OtherValue?)
              && run == Returns(true)
    ensures v.Interrupted? <==>
              && p.Object? && p.fileName.Text? && p.fileName.s != ""
              && ((p.tenantId.Text? && p.tenantId.s != "") || p.tenantId.OtherValue?)
              && run.CancelledRun?
  {
    // json.loads raises; data.get raises when data is not an object.
    if p.Undecodable? || p.NotAnObject? {
      return Bad;
    }
    if !p.fileName.Truthy() {
      return Bad;
    }
    if !p.tenantId.Truthy() {
      return Bad;
    }
    // os.path.join raises on a name that is not a string.
    if p.fileName.OtherValue? {
      return Bad;
    }
    match run
    case Raises => return Bad;
    case CancelledRun => return Interrupted;
    case Returns(success) =>
      if success {
        return Good;
      }
      return Bad;
  }

  /** The task is cancelled while the pipeline runs or while the handler's request is awaited. */
  predicate IsCancelled(x: Input) {
    !x.prologueRaises && ((Accepted(x.payload) && x.run.CancelledRun?) || x.call.Cut?)
  }

  method ProcessMessage(broker: Broker, t: nat, x: Input) returns (end: End)
    modifies broker
    ensures broker.calls == old(broker.calls) + HandlerTrace(t, x)
    ensures x.prologueRaises || (Accepted(x.payload) && x.run.CancelledRun?) ==> broker.calls == old(broker.calls)
    ensures !x.prologueRaises && Accepted(x.payload) && x.run == Returns(true) ==>
              broker.calls == old(broker.calls) + [Ack(t, x.call.applied)]
    ensures !x.prologueRaises && (!Accepted(x.payload) || x.run.Raises? || x.run == Returns(false)) ==>
              broker.calls == old(broker.calls) + [Nack(t, x.call.applied)]
    ensures end.CancelledError? <==> IsCancelled(x)
    ensures end.Exception? <==>
              x.prologueRaises || (x.call.Lost? && !(Accepted(x.payload) && x.run.CancelledRun?))
  {
    if x.prologueRaises {
      return Exception;
    }
    var v := HandleMessageCore(x.payload, x.run);
    match v
    case Interrupted => end := CancelledError;
    case Good => end := broker.Send(Ack(t, x.call.applied), x.call);
    case Bad => end := broker.Send(Nack(t, x.call.applied), x.call);
  }

  /** _safe_process: no exception of the handler gets out, and whatever the handler did, the
      finally block acknowledges. */
  method SafeProcess(broker: Broker, t: nat, x: Input) returns (end: End)
    modifies broker
    ensures broker.calls == old(broker.calls) + ServerTrace(t, x)
    ensures !end.Exception?
    ensures end.CancelledError? <==> IsCancelled(x) || x.last.Cut?
  {
    end := ProcessMessage(broker, t, x);
    if end.Exception? {
      end := Normal;
    }
    var acked := broker.Send(Ack(t, x.last.applied), x.last);
    if acked.CancelledError? {
      end := CancelledError;
    }
  }

  // --------------------------------------------------------------------------- the server

  datatype Message = Message(id: int, ackId: int)

  datatype LoopState = Scheduled | CancelRequested | Ended

  /** What one look-up of the subscription answers: it exists, NotFound, or any other error. */
  datatype Probe = Exists | Missing | Fault

  const MAX_RETRIES := 10

  /** Some look-up finds the subscription, after none but NotFound answers. */
  predicate Found(probes: seq<Probe>) {
    exists k | 0 <= k < |probes| :: probes[k].Exists? && forall j | 0 <= j < k :: probes[j].Missing?
  }

  function Flatten(responses: seq<seq<Message>>): seq<Message> {
    if responses == [] then [] else Flatten(responses[..|responses| - 1]) + responses[|responses| - 1]
  }

  /** How many messages the responses hold. */
  function Total(responses: seq<seq<Message>>): nat {
    if responses == [] then 0 else Total(responses[..|responses| - 1]) + |responses[|responses| - 1]|
  }

  lemma {:induction false} FlattenLength(responses: seq<seq<Message>>)
    ensures |Flatten(responses)| == Total(responses)
  {
    if responses != [] {
      FlattenLength(responses[..|responses| - 1]);
    }
  }

  lemma {:induction false} FlattenAt(responses: seq<seq<Message>>, i: nat, j: nat)
    requires i < |responses| && j < |responses[i]|
    ensures |Flatten(responses)| == Total(responses)
    ensures Total(responses[..i]) + j < |Flatten(responses)|
    ensures Flatten(responses)[Total(responses[..i]) + j] == responses[i][j]
  {
    var n := |responses| - 1;
    FlattenLength(responses[..n]);
    if i < n {
      FlattenAt(responses[..n], i, j);
      assert responses[..n][..i] == responses[..i];
    }
  }

  predicate StandsAt(ms: seq<Message>, at: nat, m: Message) {
    at < |ms| && ms[at] == m
  }

  /** after is before and then every message of the first k responses, in order. */
  predicate TakesAll(before: seq<Message>, after: seq<Message>, responses: seq<seq<Message>>, k: nat)
    requires k <= |responses|
  {
    && |after| == |before| + Total(responses[..k]) && before <= after
    && forall i, j | 0 <= i < k && 0 <= j < |responses[i]| ::
         StandsAt(after, |before| + Total(responses[..i]) + j, responses[i][j])
  }

  lemma FlattenTakesAll(before: seq<Message>, responses: seq<seq<Message>>, k: nat)
    requires k <= |responses|
    ensures TakesAll(before, before + Flatten(responses[..k]), responses, k)
  {
    var taken := responses[..k];
    var after := before + Flatten(taken);
    FlattenLength(taken);
    assert after[..|before|] == before;
    forall i, j | 0 <= i < k && 0 <= j < |responses[i]|
      ensures StandsAt(after, |before| + Total(responses[..i]) + j, responses[i][j])
    {
      assert taken[i] == responses[i] && taken[..i] == responses[..i];
      FlattenAt(taken, i, j);
    }
  }

  class ServerManager {
    var loops: seq<LoopState>
    var mainTask: Option<nat>
    var stopEvent: bool
    var tasks: seq<Message>

    constructor ()
      ensures loops == [] && mainTask.None? && !stopEvent && tasks == []
    {
      loops, mainTask, stopEvent, tasks := [], None, false, [];
    }

    /** A subscribe loop whose stream cannot be opened, or breaks, logs the error and returns. */
    method LoopEnds(i: nat)
      requires i < |loops|
      modifies this`loops
      ensures loops == old(loops)[i := Ended]
    {
      loops := loops[i := Ended];
    }

    /** start: a loop is scheduled before the subscription is known to exist, and a second one
        after; only the second is remembered.  While start waits, the first one may already fail
        and end. */
    method Start(probes: seq<Probe>, firstFails: bool) returns (raised: bool)
      requires |probes| == MAX_RETRIES
      modifies this`loops, this`mainTask, this`stopEvent
      ensures !stopEvent
      ensures !raised <==> Found(probes)
      ensures !raised <==>
                exists k | 0 <= k < |probes| :: probes[k].Exists? && forall j | 0 <= j < k :: probes[j].Missing?
      ensures loops == old(loops) + [if firstFails then Ended else Scheduled] + (if raised then [] else [Scheduled])
      ensures mainTask == Some(|loops| - 1)
    {
      stopEvent := false;
      var first := |loops|;
      loops := loops + [Scheduled];
      mainTask := Some(first);
      if firstFails {
        LoopEnds(first);
      }
      var isReady := false;
      var attempt := 1;
      while attempt <= MAX_RETRIES
        invariant 1 <= attempt <= MAX_RETRIES && forall j | 0 <= j < attempt - 1 :: probes[j].Missing?
        invariant !isReady
      {
        match probes[attempt - 1]
        case Exists =>
          isReady := true;
          break;
        case Fault =>
          return true;
        case Missing =>
          if attempt == MAX_RETRIES {
            return true;
          }
        attempt := attempt + 1;
      }
      if isReady {
        loops := loops + [Scheduled];
        mainTask := Some(|loops| - 1);
      }
      raised := false;
    }

    /** stop: the event is set for every loop, but only the remembered loop is cancelled. */
    method Stop()
      requires mainTask.Some? ==> mainTask.value < |loops|
      modifies this`loops, this`stopEvent
      ensures mainTask.None? || old(loops)[mainTask.value].Ended? ==> loops == old(loops) && stopEvent == old(stopEvent)
      ensures mainTask.Some? && !old(loops)[mainTask.value].Ended? ==>
                stopEvent && loops == old(loops)[mainTask.value := CancelRequested]
    {
      if mainTask.None? || loops[mainTask.value].Ended? {
        return;
      }
      stopEvent := true;
      loops := loops[mainTask.value := CancelRequested];
    }

    /** One subscribe loop: for every response taken before the stop event is seen, or before the
        stream fails, one task per message, in order. */
    method SubscribeLoop(responses: seq<seq<Message>>, stopSeenAt: Option<nat>, failsAt: Option<nat>)
      modifies this`tasks
      ensures exists k | 0 <= k <= |responses| ::
                && TakesAll(old(tasks), tasks, responses, k)
                && (k < |responses| ==> stopSeenAt == Some(k) || failsAt == Some(k))
                && (stopSeenAt.Some? ==> k <= stopSeenAt.value)
                && (failsAt.Some? ==> k <= failsAt.value)
    {
      var k := 0;
      while k < |responses| && failsAt != Some(k) && stopSeenAt != Some(k)
        invariant k <= |responses|
        invariant tasks == old(tasks) + Flatten(responses[..k])
        invariant (stopSeenAt.Some? ==> k <= stopSeenAt.value) && (failsAt.Some? ==> k <= failsAt.value)
      {
        ghost var before := tasks;
        var received := responses[k];
        for i := 0 to |received|
          invariant tasks == before + received[..i]
        {
          tasks := tasks + [received[i]];
        }
        assert received[..|received|] == received;
        assert responses[..k + 1][..k] == responses[..k];
        k := k + 1;
      }
      FlattenTakesAll(old(tasks), responses, k);
    }
  }

  /** start, then perhaps a failure of the last loop, then stop.  After a successful start whose
      last loop has not failed by itself, only that loop is asked to end: the first one, unless it
      has failed, stays scheduled. */
  method StartThenStop(probes: seq<Probe>, firstFails: bool, lastFails: bool)
    returns (m: ServerManager, raised: bool)
    requires |probes| == MAX_RETRIES
    ensures raised <==> !Found(probes)
    ensures !raised ==>
              && m.loops == [if firstFails then Ended else Scheduled, if lastFails then Ended else CancelRequested]
              && m.stopEvent == !lastFails
    ensures raised ==>
              && m.loops == [if firstFails || lastFails then Ended else CancelRequested]
              && m.stopEvent == !(firstFails || lastFails)
  {
    m := new ServerManager();
    raised := m.Start(probes, firstFails);
    if lastFails {
      m.LoopEnds(|m.loops| - 1);
    }
    m.Stop();
  }

  // ---------------------------------------------------------- deliveries and redeliveries

  datatype Stage = Running | Handled | Finished

  datatype Task = Task(msg: int, input: Input, stage: Stage)

  // waiting: the published messages that the broker still holds and may deliver (again).
  // server: the wrapper runs around the handler.
  datatype State = State(server: bool, published: set<int>, waiting: set<int>, tasks: seq<Task>, calls: seq<Call>)

  datatype Event = Deliver(msg: int, input: Input) | Handle(t: nat) | Final(t: nat)

  predicate Enabled(s: State, e: Event) {
    match e
    case Deliver(m, _) => m in s.waiting
    case Handle(t) => t < |s.tasks| && s.tasks[t].stage.Running?
    case Final(t) => s.server && t < |s.tasks| && s.tasks[t].stage.Handled?
  }

  predicate Removes(c: Call) {
    c.Ack? && c.applied
  }

  /** The broker carries out one request about message m. */
  function Settle(s: State, m: int, c: Call): State {
    s.(calls := s.calls + [c], waiting := if Removes(c) then s.waiting - {m} else s.waiting)
  }

  function Apply(s: State, e: Event): State
    requires Enabled(s, e)
  {
    match e
    case Deliver(m, x) => s.(tasks := s.tasks + [Task(m, x, Running)])
    case Handle(t) =>
      var s1 := s.(tasks := s.tasks[t := s.tasks[t].(stage := Handled)]);
      var trace := HandlerTrace(t, s.tasks[t].input);
      if trace == [] then s1 else Settle(s1, s.tasks[t].msg, trace[0])
    case Final(t) =>
      Settle(s.(tasks := s.tasks[t := s.tasks[t].(stage := Finished)]), s.tasks[t].msg,
             Ack(t, s.tasks[t].input.last.applied))
  }

  ghost function Run(s: State, es: seq<Event>): Option<State>
    decreases |es|
  {
    if es == [] then Some(s) else
    var k := |es| - 1;
    match Run(s, es[..k])
    case None => None
    case Some(t) => if Enabled(t, es[k]) then Some(Apply(t, es[k])) else None
  }

  function Start(server: bool, messages: set<int>): State {
    State(server, messages, messages, [], [])
  }

  /** The requests of task t in the log, in order. */
  function CallsOf(calls: seq<Call>, t: nat): seq<Call> {
    if calls == [] then []
    else
      var n := |calls| - 1;
      CallsOf(calls[..n], t) + if calls[n].task == t then [calls[n]] else []
  }

  /** What task t has asked of the broker by its present stage. */
  function Trace(t: nat, k: Task): seq<Call> {
    match k.stage
    case Running => []
    case Handled => HandlerTrace(t, k.input)
    case Finished => ServerTrace(t, k.input)
  }

  /** c is an acknowledgement that took effect, of a delivery of m. */
  predicate RemovedBy(s: State, c: Call, m: int) {
    Removes(c) && c.task < |s.tasks| && s.tasks[c.task].msg == m
  }

  ghost predicate Removed(s: State, m: int) {
    exists i :: 0 <= i < |s.calls| && RemovedBy(s, s.calls[i], m)
  }

  ghost predicate Inv(s: State) {
    && s.waiting <= s.published
    && (forall t: nat :: CallsOf(s.calls, t) == if t < |s.tasks| then Trace(t, s.tasks[t]) else [])
    && (forall t | 0 <= t < |s.tasks| :: s.tasks[t].msg in s.published && (s.tasks[t].stage.Finished? ==> s.server))
    && (forall i | 0 <= i < |s.calls| :: s.calls[i].task < |s.tasks|)
    && (forall m | m in s.published :: m !in s.waiting <==> Removed(s, m))
  }

  lemma CallsOfAppend(calls: seq<Call>, c: Call, t: nat)
    ensures CallsOf(calls + [c], t) == CallsOf(calls, t) + if c.task == t then [c] else []
  {
    assert (calls + [c])[..|calls|] == calls;
  }

  lemma TraceGrows(s: State, s': State, t: nat, c: Call)
    requires t < |s.tasks| == |s'.tasks| && c.task == t && s'.calls == s.calls + [c]
    requires forall u | 0 <= u < |s.tasks| && u != t :: s'.tasks[u] == s.tasks[u]
    requires Trace(t, s'.tasks[t]) == Trace(t, s.tasks[t]) + [c]
    requires forall u: nat :: CallsOf(s.calls, u) == if u < |s.tasks| then Trace(u, s.tasks[u]) else []
    ensures forall u: nat :: CallsOf(s'.calls, u) == if u < |s'.tasks| then Trace(u, s'.tasks[u]) else []
  {
    forall u: nat
      ensures CallsOf(s'.calls, u) == if u < |s'.tasks| then Trace(u, s'.tasks[u]) else []
    {
      CallsOfAppend(s.calls, c, u);
    }
  }

  lemma RemovedGrows(s: State, s': State, t: nat, c: Call, m: int)
    requires t < |s.tasks| == |s'.tasks| && c.task == t && s'.calls == s.calls + [c]
    requires forall u | 0 <= u < |s.tasks| :: s'.tasks[u].msg == s.tasks[u].msg
    ensures Removed(s', m) <==> Removed(s, m) || (Removes(c) && s.tasks[t].msg == m)
  {
    if Removed(s, m) {
      var i :| 0 <= i < |s.calls| && RemovedBy(s, s.calls[i], m);
      assert s'.calls[i] == s.calls[i];
    }
    if Removes(c) && s.tasks[t].msg == m {
      assert s'.calls[|s.calls|] == c;
    }
    if Removed(s', m) {
      var i :| 0 <= i < |s'.calls| && RemovedBy(s', s'.calls[i], m);
      assert if i < |s.calls| then s.calls[i] == s'.calls[i] else s'.calls[i] == c;
    }
  }

  /** Task t moves to the given stage and makes its request c. */
  function Moved(s: State, t: nat, stage: Stage, c: Call): State
    requires t < |s.tasks|
  {
    Settle(s.(tasks := s.tasks[t := s.tasks[t].(stage := stage)]), s.tasks[t].msg, c)
  }

  lemma MovedWaiting(s: State, t: nat, stage: Stage, c: Call, n: int)
    requires t < |s.tasks| && c.task == t
    requires n !in s.waiting <==> Removed(s, n)
    ensures n !in Moved(s, t, stage, c).waiting <==> Removed(Moved(s, t, stage, c), n)
  {
    RemovedGrows(s, Moved(s, t, stage, c), t, c, n);
  }

  /** Carrying out task t's next request keeps the books. */
  lemma SettleKeeps(s: State, t: nat, stage: Stage, c: Call)
    requires Inv(s) && t < |s.tasks| && c.task == t && (stage.Finished? ==> s.server)
    requires Trace(t, s.tasks[t].(stage := stage)) == Trace(t, s.tasks[t]) + [c]
    ensures Inv(Moved(s, t, stage, c))
  {
    var s' := Moved(s, t, stage, c);
    TraceGrows(s, s', t, c);
    forall u | 0 <= u < |s'.tasks|
      ensures s'.tasks[u].msg in s'.published && (s'.tasks[u].stage.Finished? ==> s'.server)
    {
      assert s'.tasks[u].msg == s.tasks[u].msg;
    }
    forall i | 0 <= i < |s'.calls|
      ensures s'.calls[i].task < |s'.tasks|
    {
      assert i < |s.calls| ==> s'.calls[i] == s.calls[i];
    }
    forall n | n in s.published
      ensures n !in s'.waiting <==> Removed(s', n)
    {
      MovedWaiting(s, t, stage, c, n);
    }
  }

  lemma QuietStepKeeps(s: State, s': State)
    requires Inv(s) && s'.calls == s.calls && s'.waiting == s.waiting
    requires s'.published == s.published && s'.server == s.server
    requires |s'.tasks| >= |s.tasks|
    requires forall t | 0 <= t < |s.tasks| ::
               s'.tasks[t].msg == s.tasks[t].msg && Trace(t, s'.tasks[t]) == Trace(t, s.tasks[t])
               && (s'.tasks[t].stage.Finished? ==> s.server)
    requires forall t | |s.tasks| <= t < |s'.tasks| :: s'.tasks[t].stage.Running? && s'.tasks[t].msg in s.published
    ensures Inv(s')
  {
    forall m | m in s.published
      ensures m !in s'.waiting <==> Removed(s', m)
    {
      assert Removed(s, m) <==> Removed(s', m);
    }
  }

  lemma StepKeepsInv(s: State, e: Event)
    requires Inv(s) && Enabled(s, e)
    ensures Inv(Apply(s, e))
  {
    match e
    case Deliver(m, x) =>
      QuietStepKeeps(s, Apply(s, e));
    case Handle(t) =>
      var trace := HandlerTrace(t, s.tasks[t].input);
      if trace == [] {
        QuietStepKeeps(s, Apply(s, e));
      } else {
        SettleKeeps(s, t, Handled, trace[0]);
      }
    case Final(t) =>
      SettleKeeps(s, t, Finished, Ack(t, s.tasks[t].input.last.applied));
  }

  lemma {:induction false} RunKeepsInv(s: State, es: seq<Event>)
    requires Inv(s) && Run(s, es).Some?
    ensures Inv(Run(s, es).value) && Run(s, es).value.server == s.server && Run(s, es).value.published == s.published
    decreases |es|
  {
    if es != [] {
      RunKeepsInv(s, es[..|es| - 1]);
      StepKeepsInv(Run(s, es[..|es| - 1]).value, es[|es| - 1]);
    }
  }

  ghost predicate Reached(server: bool, messages: set<int>, s: State) {
    exists es :: Run(Start(server, messages), es) == Some(s)
  }

  lemma ReachedInv(server: bool, messages: set<int>, s: State)
    requires Reached(server, messages, s)
    ensures Inv(s) && s.server == server && s.published == messages
  {
    var es :| Run(Start(server, messages), es) == Some(s);
    RunKeepsInv(Start(server, messages), es);
  }

  lemma {:induction false} CallsOfContains(calls: seq<Call>, i: nat)
    requires i < |calls|
    ensures calls[i] in CallsOf(calls, calls[i].task)
  {
    var n := |calls| - 1;
    if i < n {
      CallsOfContains(calls[..n], i);
    }
  }

  lemma {:induction false} CallsOfComeFrom(calls: seq<Call>, t: nat, c: Call)
    requires c in CallsOf(calls, t)
    ensures exists i :: 0 <= i < |calls| && calls[i] == c && c.task == t
  {
    var n := |calls| - 1;
    if c in CallsOf(calls[..n], t) {
      CallsOfComeFrom(calls[..n], t, c);
      var i :| 0 <= i < n && calls[..n][i] == c;
      assert calls[i] == c;
    } else {
      assert calls[n] == c;
    }
  }

  /** A delivery of m whose pipeline succeeded and whose acknowledgement took effect. */
  predicate AckedAfterSuccess(k: Task, m: int) {
    k.msg == m && !k.stage.Running? && !k.input.prologueRaises
    && Accepted(k.input.payload) && k.input.run == Returns(true) && k.input.call.applied
  }

  /** A delivery of m that has finished and whose final acknowledgement took effect. */
  predicate AckedAtTheEnd(k: Task, m: int) {
    k.msg == m && k.stage.Finished? && k.input.last.applied
  }

  lemma AckInTrace(t: nat, k: Task, c: Call)
    requires c in Trace(t, k) && Removes(c)
    ensures AckedAfterSuccess(k, k.msg) || AckedAtTheEnd(k, k.msg)
  {
  }

  lemma RemovalHasTask(s: State, m: int)
    requires Inv(s) && Removed(s, m)
    ensures exists t :: 0 <= t < |s.tasks| && (AckedAfterSuccess(s.tasks[t], m) || AckedAtTheEnd(s.tasks[t], m))
  {
    var i :| 0 <= i < |s.calls| && RemovedBy(s, s.calls[i], m);
    var t := s.calls[i].task;
    CallsOfContains(s.calls, i);
    AckInTrace(t, s.tasks[t], s.calls[i]);
  }

  lemma TraceHasAck(t: nat, k: Task, m: int)
    requires AckedAfterSuccess(k, m) || AckedAtTheEnd(k, m)
    ensures Ack(t, true) in Trace(t, k)
  {
    if AckedAfterSuccess(k, m) {
      assert HandlerTrace(t, k.input)[0] == Ack(t, true);
      assert k.stage.Finished? ==> ServerTrace(t, k.input)[0] == Ack(t, true);
    } else {
      assert ServerTrace(t, k.input)[|ServerTrace(t, k.input)| - 1] == Ack(t, true);
    }
  }

  lemma AckedTaskRemoves(s: State, t: nat, m: int)
    requires Inv(s) && t < |s.tasks|
    requires AckedAfterSuccess(s.tasks[t], m) || AckedAtTheEnd(s.tasks[t], m)
    ensures Removed(s, m)
  {
    TraceHasAck(t, s.tasks[t], m);
    CallsOfComeFrom(s.calls, t, Ack(t, true));
    var i :| 0 <= i < |s.calls| && s.calls[i] == Ack(t, true);
    assert RemovedBy(s, s.calls[i], m);
  }

  /** Over any deliveries and redeliveries, with overlapping tasks, a published message has left
      the broker exactly when some delivery of it acknowledged it after a successful pipeline
      run, or finished in the server's finally block. */
  lemma WhenAMessageLeaves(server: bool, messages: set<int>, s: State, m: int)
    requires Reached(server, messages, s) && m in messages
    ensures m !in s.waiting <==>
            exists t :: 0 <= t < |s.tasks| && (AckedAfterSuccess(s.tasks[t], m) || AckedAtTheEnd(s.tasks[t], m))
  {
    ReachedInv(server, messages, s);
    if m !in s.waiting {
      RemovalHasTask(s, m);
    }
    if t :| 0 <= t < |s.tasks| && (AckedAfterSuccess(s.tasks[t], m) || AckedAtTheEnd(s.tasks[t], m)) {
      AckedTaskRemoves(s, t, m);
    }
  }

  /** The handler alone: a message leaves the broker exactly when a delivery of it has been handled
      with a successful pipeline run and its acknowledgement took effect. */
  lemma HandlerAloneLosesNothing(messages: set<int>, s: State, m: int)
    requires Reached(false, messages, s) && m in messages
    ensures m !in s.waiting <==> exists t :: 0 <= t < |s.tasks| && AckedAfterSuccess(s.tasks[t], m)
  {
    ReachedInv(false, messages, s);
    WhenAMessageLeaves(false, messages, s, m);
  }

  /** Each delivery makes its requests once.  The handler acknowledges exactly after a success, and
      gives back exactly when the payload is bad, or the pipeline raises or does not succeed; it
      makes no request if its prologue raises or the pipeline is cancelled.  The server makes one
      acknowledgement more, at the end. */
  lemma EachDeliveryOnce(server: bool, messages: set<int>, s: State, t: nat)
    requires Reached(server, messages, s) && t < |s.tasks|
    ensures var k, calls := s.tasks[t], CallsOf(s.calls, t);
            var x := k.input;
            var none := x.prologueRaises || (Accepted(x.payload) && x.run.CancelledRun?);
            var good := Accepted(x.payload) && x.run == Returns(true);
            var asked := if none then [] else if good then [Ack(t, x.call.applied)] else [Nack(t, x.call.applied)];
            && (k.stage.Running? ==> calls == [])
            && (k.stage.Handled? ==> calls == asked)
            && (k.stage.Finished? ==> calls == asked + [Ack(t, x.last.applied)])
  {
    ReachedInv(server, messages, s);
  }

  /** The server as written: one delivery whose pipeline fails, given back and then acknowledged
      by the finally block, removes the message for good. */
  lemma ServerLosesFailedMessage(m: int)
    ensures var x := Input(false, Object(Text("a"), Text("b")), Returns(false), Fine(true), Fine(true));
            var s := Run(Start(true, {m}), [Deliver(m, x), Handle(0), Final(0)]);
            && s.Some? && m !in s.value.waiting
            && s.value.calls == [Nack(0, true), Ack(0, true)]
            && forall e :: !Enabled(s.value, e)
  {
    var x := Input(false, Object(Text("a"), Text("b")), Returns(false), Fine(true), Fine(true));
    var es := [Deliver(m, x), Handle(0), Final(0)];
    var s0 := Start(true, {m});
    assert es[..2] == [Deliver(m, x), Handle(0)] && es[..2][..1] == [Deliver(m, x)] && es[..2][..1][..0] == [];
    assert Run(s0, es[..2][..1]) == Some(Apply(s0, es[0]));
    assert Run(s0, es[..2]) == Some(Apply(Apply(s0, es[0]), es[1]));
  }

  // ------------------------------------------------------- the loop's tasks are the deliveries

  /** One delivery for each message that the loop has made a task for. */
  function Deliveries(ms: seq<Message>, inputs: seq<Input>): (es: seq<Event>)
    requires |ms| == |inputs|
    ensures |es| == |ms|
  {
    seq(|ms|, i requires 0 <= i < |ms| => Deliver(ms[i].id, inputs[i]))
  }

  function NewTasks(ms: seq<Message>, inputs: seq<Input>): (ts: seq<Task>)
    requires |ms| == |inputs|
    ensures |ts| == |ms|
  {
    seq(|ms|, i requires 0 <= i < |ms| => Task(ms[i].id, inputs[i], Running))
  }

  /** The messages a subscribe loop takes from the broker, in its order, are deliveries that can
      happen, and each adds one running task and changes nothing else. */
  lemma {:induction false} TasksAreDeliveries(s: State, ms: seq<Message>, inputs: seq<Input>)
    requires |ms| == |inputs| && forall i | 0 <= i < |ms| :: ms[i].id in s.waiting
    ensures Run(s, Deliveries(ms, inputs)) == Some(s.(tasks := s.tasks + NewTasks(ms, inputs)))
    decreases |ms|
  {
    if ms == [] {
      assert s.tasks + NewTasks(ms, inputs) == s.tasks;
    } else {
      var n := |ms| - 1;
      TasksAreDeliveries(s, ms[..n], inputs[..n]);
      assert Deliveries(ms, inputs)[..n] == Deliveries(ms[..n], inputs[..n]);
      assert NewTasks(ms, inputs) == NewTasks(ms[..n], inputs[..n]) + [Task(ms[n].id, inputs[n], Running)];
      assert s.tasks + NewTasks(ms, inputs)
          == s.tasks + NewTasks(ms[..n], inputs[..n]) + [Task(ms[n].id, inputs[n], Running)];
    }
  }
}
