/**
  The database actor as a step machine: callers that pass one admission gate, a bounded FIFO
  channel, one worker that may poison itself after a failed post-commit step, and a reaper that
  publishes the worker's outcome. Steps interleave freely and callers may give up while they wait;
  the worker does not panic.

  A call is named by a number that is never reused, and so is the command it sends.
 */
module ActorProtocol {
  import opened Common

  type CallId = nat
  type Message = string

  const ACTOR_CLOSED_ERROR: Message := "database actor is closing or closed"
  const ACTOR_POISONED_FALLBACK: Message := "database actor is poisoned"
  const CHANNEL_CAPACITY: nat := 128

  datatype Phase = Open | Poisoned | Closing | Closed

  function Rank(phase: Phase): nat {
    match phase case Open => 0 case Poisoned => 1 case Closing => 2 case Closed => 3
  }

  datatype Outcome = Success | Failure(message: Message)

  datatype Request = Admission | Shutdown

  datatype Call =
    | WantGate(request: Request)
    | Gated(request: Request)     // holds the gate, has not looked at the phase
    | SawOpen                     // holds the gate, has read phase Open
    | Sending                     // holds the gate and a clone of the sender
    | AwaitReply
    | Marked                      // a shutdown that holds the gate and has marked the phase
    | AwaitTerminal

  datatype Worker =
    | Idle
    | Busy(command: CallId)
    | Poisoning(message: Message)   // the command came back with a post-commit failure
    | Publishing(message: Message)  // the slot is set, the phase not yet
    | Finished(outcome: Outcome)    // checkpoint done, the worker thread has returned
    | Reaped(outcome: Outcome)      // the reaper has set the phase

  datatype State = State(
    phase: Phase,
    poison: Option<Message>,
    txOpen: bool,
    gate: Option<CallId>,
    handles: nat,
    calls: map<CallId, Call>,
    nextCall: CallId,
    queue: seq<CallId>,
    worker: Worker,
    local: Option<Message>,          // the worker's own poison variable
    terminal: Option<Outcome>,
    // What has happened so far.
    admitted: seq<CallId>,
    executed: seq<CallId>,
    rejected: seq<(CallId, Message)>,
    refused: seq<(CallId, Message)>,
    answered: map<CallId, Outcome>)

  datatype Step =
    | CloneHandle
    | DropHandle
    | Enter(request: Request)
    | TakeGate(id: CallId)
    | CheckPhase(id: CallId)
    | CloneSender(id: CallId)
    | Send(id: CallId)
    | Mark(id: CallId)
    | TakeSender(id: CallId)
    | Cancel(id: CallId)
    | GetReply(id: CallId)
    | GetTerminal(id: CallId)
    | Receive
    | Handle(failure: Option<Message>)
    | SetPoison
    | SetPhase
    | Checkpoint(outcome: Outcome)
    | Reap
    | Publish

  function Started(): State {
    State(Open, None, true, None, 1, map[], 0, [], Idle, None, None, [], [], [], [], map[])
  }

  predicate In(s: State, id: CallId, call: Call) {
    id in s.calls && s.calls[id] == call
  }

  predicate HoldsGate(call: Call) {
    call.Gated? || call.SawOpen? || call.Sending? || call.Marked?
  }

  /** The receiver sees the end of the channel only when no sender is left. */
  predicate SenderLeft(s: State) {
    s.txOpen || exists id | id in s.calls :: s.calls[id].Sending?
  }

  predicate ReceiverAlive(s: State) {
    !s.worker.Finished? && !s.worker.Reaped?
  }

  function MarkClosing(phase: Phase): Phase {
    if phase.Closing? || phase.Closed? then phase else Closing
  }

  function Remove(calls: map<CallId, Call>, id: CallId): map<CallId, Call> {
    map other | other in calls && other != id :: calls[other]
  }

  function Refuse(s: State, id: CallId, message: Message): State {
    s.(gate := None, calls := Remove(s.calls, id), refused := s.refused + [(id, message)])
  }

  // ----- Enabledness and effect -----

  predicate Enabled(s: State, step: Step) {
    match step
    case CloneHandle => s.handles > 0
    case DropHandle => s.handles > 1 || (s.handles == 1 && s.calls == map[])
    case Enter(_) => s.handles > 0
    case TakeGate(id) => s.gate == None && id in s.calls && s.calls[id].WantGate?
    case CheckPhase(id) => In(s, id, Gated(Admission))
    case CloneSender(id) => In(s, id, SawOpen)
    case Send(id) => In(s, id, Sending) && (ReceiverAlive(s) ==> |s.queue| < CHANNEL_CAPACITY)
    case Mark(id) => In(s, id, Gated(Shutdown))
    case TakeSender(id) => In(s, id, Marked)
    case Cancel(id) =>
      id in s.calls && (s.calls[id].WantGate? || s.calls[id].Sending? || s.calls[id].AwaitReply? || s.calls[id].AwaitTerminal?)
    case GetReply(id) => In(s, id, AwaitReply) && (id in s.executed || exists r | r in s.rejected :: r.0 == id)
    case GetTerminal(id) => In(s, id, AwaitTerminal) && s.terminal.Some?
    case Receive => s.worker.Idle? && s.queue != []
    case Handle(_) => s.worker.Busy?
    case SetPoison => s.worker.Poisoning?
    case SetPhase => s.worker.Publishing?
    case Checkpoint(_) => s.worker.Idle? && s.queue == [] && !SenderLeft(s)
    case Reap => s.worker.Finished?
    case Publish => s.worker.Reaped? && s.terminal == None
  }

  function Apply(s: State, step: Step): State
    requires Enabled(s, step)
  {
    match step
    case CloneHandle => s.(handles := s.handles + 1)
    case DropHandle =>
      if s.handles > 1 then s.(handles := s.handles - 1)
      else s.(handles := 0, phase := MarkClosing(s.phase), txOpen := false)
    case Enter(request) => s.(calls := s.calls[s.nextCall := WantGate(request)], nextCall := s.nextCall + 1)
    case TakeGate(id) => s.(gate := Some(id), calls := s.calls[id := Gated(s.calls[id].request)])
    case CheckPhase(id) =>
      (match s.phase
       case Open => s.(calls := s.calls[id := SawOpen])
       case Poisoned => Refuse(s, id, if s.poison.Some? then s.poison.value else ACTOR_POISONED_FALLBACK)
       case _ => Refuse(s, id, ACTOR_CLOSED_ERROR))
    case CloneSender(id) =>
      if s.txOpen then s.(calls := s.calls[id := Sending]) else Refuse(s, id, ACTOR_CLOSED_ERROR)
    case Send(id) =>
      if ReceiverAlive(s)
      then s.(gate := None, calls := s.calls[id := AwaitReply], queue := s.queue + [id], admitted := s.admitted + [id])
      else Refuse(s.(phase := MarkClosing(s.phase), txOpen := false), id, ACTOR_CLOSED_ERROR)
    case Mark(id) => s.(phase := MarkClosing(s.phase), calls := s.calls[id := Marked])
    case TakeSender(id) => s.(txOpen := false, gate := None, calls := s.calls[id := AwaitTerminal])
    case Cancel(id) =>
      s.(calls := Remove(s.calls, id), gate := if s.calls[id].Sending? then None else s.gate)
    case GetReply(id) => s.(calls := Remove(s.calls, id))
    case GetTerminal(id) => s.(calls := Remove(s.calls, id), answered := s.answered[id := s.terminal.value])
    case Receive =>
      if s.local.Some?
      then s.(queue := s.queue[1..], rejected := s.rejected + [(s.queue[0], s.local.value)])
      else s.(queue := s.queue[1..], worker := Busy(s.queue[0]))
    case Handle(failure) =>
      s.(executed := s.executed + [s.worker.command], worker := if failure == None then Idle else Poisoning(failure.value))
    case SetPoison =>
      var stable := if s.poison.Some? then s.poison.value else s.worker.message;
      s.(poison := Some(stable), worker := Publishing(stable))
    case SetPhase =>
      s.(phase := if s.phase == Open then Poisoned else s.phase, local := Some(s.worker.message), worker := Idle)
    case Checkpoint(outcome) => s.(worker := Finished(outcome))
    case Reap => s.(phase := Closed, worker := Reaped(s.worker.outcome))
    case Publish => s.(terminal := Some(s.worker.outcome))
  }

  predicate IsWorkerStep(step: Step) {
    step.Receive? || step.Handle? || step.SetPoison? || step.SetPhase? || step.Checkpoint? || step.Reap? || step.Publish?
  }

  /** A step that is not enabled when its turn comes changes nothing. */
  function Next(s: State, step: Step): State {
    if Enabled(s, step) then Apply(s, step) else s
  }

  function Run(s: State, steps: seq<Step>): State
    decreases |steps|
  {
    if steps == [] then s else Next(Run(s, steps[..|steps| - 1]), steps[|steps| - 1])
  }

  // ----- The invariant -----

  function Ids(rejected: seq<(CallId, Message)>): seq<CallId> {
    seq(|rejected|, i requires 0 <= i < |rejected| => rejected[i].0)
  }

  function InHand(worker: Worker): seq<CallId> {
    if worker.Busy? then [worker.command] else []
  }

  /** Everything admitted, in order: first what was executed, then what was rejected, then the rest. */
  function Accounted(s: State): seq<CallId> {
    s.executed + InHand(s.worker) + Ids(s.rejected) + s.queue
  }

  ghost predicate PoisonStable(s: State) {
    && (s.phase.Poisoned? ==> s.poison.Some?)
    && (s.poison.Some? <==> s.local.Some? || s.worker.Publishing?)
    && (s.local.Some? ==> s.local == s.poison && !s.worker.Busy? && !s.worker.Poisoning? && !s.worker.Publishing?)
    && (s.worker.Publishing? ==> s.poison == Some(s.worker.message))
    && (s.local == None ==> s.rejected == [])
    && (forall r | r in s.rejected :: Some(r.1) == s.poison)
    && (forall r | r in s.refused :: r.1 == ACTOR_CLOSED_ERROR || Some(r.1) == s.poison)
  }

  ghost predicate GateHeldByOne(s: State) {
    && (forall id | id in s.calls :: HoldsGate(s.calls[id]) <==> s.gate == Some(id))
    && (s.gate.Some? ==> s.gate.value in s.calls)
    && (forall id | id in s.calls :: id < s.nextCall)
  }

  ghost predicate SenderFollowsPhase(s: State) {
    && (s.handles == 0 ==> s.calls == map[] && !s.txOpen)
    && (!s.txOpen ==> Rank(s.phase) >= 2)
    && (s.txOpen && Rank(s.phase) >= 2 ==> s.gate.Some? && In(s, s.gate.value, Marked))
    && (forall id | id in s.calls && (s.calls[id].SawOpen? || s.calls[id].Sending?) :: s.txOpen)
    && (forall id | id in s.calls && s.calls[id].Marked? :: Rank(s.phase) >= 2)
    && (s.phase.Closed? <==> s.worker.Reaped?)
    && (!ReceiverAlive(s) ==> s.queue == [] && !s.txOpen)
  }

  ghost predicate InOrder(s: State) {
    && s.admitted == Accounted(s)
    && (forall i | 0 <= i < |s.admitted| :: s.admitted[i] < s.nextCall)
    && (forall i, j | 0 <= i < j < |s.admitted| :: s.admitted[i] != s.admitted[j])
    && (forall i | 0 <= i < |s.admitted| && s.admitted[i] in s.calls :: s.calls[s.admitted[i]].AwaitReply?)
  }

  ghost predicate OneOutcome(s: State) {
    && (s.terminal.Some? ==> s.worker == Reaped(s.terminal.value))
    && (forall id | id in s.answered :: Some(s.answered[id]) == s.terminal)
  }

  ghost predicate Consistent(s: State) {
    PoisonStable(s) && GateHeldByOne(s) && SenderFollowsPhase(s) && InOrder(s) && OneOutcome(s)
  }

  /** Nothing that has been decided is taken back. */
  ghost predicate Extends(s: State, t: State) {
    && Rank(s.phase) <= Rank(t.phase)
    && (s.poison.Some? ==> t.poison == s.poison && t.executed == s.executed)
    && (s.terminal.Some? ==> t.terminal == s.terminal)
    && s.admitted <= t.admitted && s.executed <= t.executed && s.rejected <= t.rejected
    && (!ReceiverAlive(s) ==> !ReceiverAlive(t) && t.admitted == s.admitted && t.executed == s.executed
                              && t.rejected == s.rejected)
    && (!s.txOpen ==> !t.txOpen)
  }

  lemma CloneHandleKeeps(s: State)
    requires Consistent(s) && Enabled(s, CloneHandle)
    ensures Consistent(Apply(s, CloneHandle)) && Extends(s, Apply(s, CloneHandle))
  {
  }

  lemma OneHandleLess(s: State)
    requires Consistent(s) && s.handles > 1
    ensures Consistent(s.(handles := s.handles - 1)) && Extends(s, s.(handles := s.handles - 1))
  {
  }

  lemma LastHandleDrops(s: State)
    requires Consistent(s) && s.calls == map[]
    ensures var t := s.(handles := 0, phase := MarkClosing(s.phase), txOpen := false);
            Consistent(t) && Extends(s, t)
  {
  }

  lemma DropHandleKeeps(s: State)
    requires Consistent(s) && Enabled(s, DropHandle)
    ensures Consistent(Apply(s, DropHandle)) && Extends(s, Apply(s, DropHandle))
  {
    if s.handles > 1 {
      OneHandleLess(s);
    } else {
      LastHandleDrops(s);
    }
  }

  lemma NewCallHasNoCommand(s: State, call: Call)
    requires Consistent(s)
    ensures InOrder(s.(calls := s.calls[s.nextCall := call], nextCall := s.nextCall + 1))
  {
  }

  lemma EnterKeeps(s: State, request: Request)
    requires Consistent(s) && Enabled(s, Enter(request))
    ensures Consistent(Apply(s, Enter(request))) && Extends(s, Apply(s, Enter(request)))
  {
    NewCallHasNoCommand(s, WantGate(request));
  }

  lemma TakeGateKeeps(s: State, id: CallId)
    requires Consistent(s) && Enabled(s, TakeGate(id))
    ensures Consistent(Apply(s, TakeGate(id))) && Extends(s, Apply(s, TakeGate(id)))
  {
  }

  lemma RefuseKeeps(s: State, id: CallId, message: Message)
    requires Consistent(s) && In(s, id, Gated(Admission))
    requires message == ACTOR_CLOSED_ERROR || Some(message) == s.poison
    ensures Consistent(Refuse(s, id, message)) && Extends(s, Refuse(s, id, message))
  {
  }

  lemma SeeOpenKeeps(s: State, id: CallId)
    requires Consistent(s) && In(s, id, Gated(Admission)) && s.phase.Open?
    ensures Consistent(s.(calls := s.calls[id := SawOpen])) && Extends(s, s.(calls := s.calls[id := SawOpen]))
  {
  }

  lemma CheckPhaseKeeps(s: State, id: CallId)
    requires Consistent(s) && Enabled(s, CheckPhase(id))
    ensures Consistent(Apply(s, CheckPhase(id))) && Extends(s, Apply(s, CheckPhase(id)))
  {
    match s.phase
    case Open => SeeOpenKeeps(s, id);
    case Poisoned => RefuseKeeps(s, id, s.poison.value);
    case _ => RefuseKeeps(s, id, ACTOR_CLOSED_ERROR);
  }

  lemma CloneSenderKeeps(s: State, id: CallId)
    requires Consistent(s) && Enabled(s, CloneSender(id))
    ensures Consistent(Apply(s, CloneSender(id))) && Extends(s, Apply(s, CloneSender(id)))
  {
  }

  lemma SendingIsReceived(s: State, id: CallId)
    requires Consistent(s) && In(s, id, Sending)
    ensures ReceiverAlive(s) && s.gate == Some(id)
  {
  }

  lemma SendKeepsOrder(s: State, id: CallId)
    requires Consistent(s) && Enabled(s, Send(id)) && ReceiverAlive(s)
    ensures InOrder(Apply(s, Send(id)))
  {
  }

  lemma SendKeeps(s: State, id: CallId)
    requires Consistent(s) && Enabled(s, Send(id))
    ensures Consistent(Apply(s, Send(id))) && Extends(s, Apply(s, Send(id)))
  {
    SendingIsReceived(s, id);
    SendKeepsOrder(s, id);
  }

  lemma MarkKeepsSender(s: State, id: CallId)
    requires Consistent(s) && Enabled(s, Mark(id))
    ensures SenderFollowsPhase(Apply(s, Mark(id)))
  {
  }

  lemma MarkKeeps(s: State, id: CallId)
    requires Consistent(s) && Enabled(s, Mark(id))
    ensures Consistent(Apply(s, Mark(id))) && Extends(s, Apply(s, Mark(id)))
  {
    MarkKeepsSender(s, id);
  }

  lemma TakeSenderKeeps(s: State, id: CallId)
    requires Consistent(s) && Enabled(s, TakeSender(id))
    ensures Consistent(Apply(s, TakeSender(id))) && Extends(s, Apply(s, TakeSender(id)))
  {
  }

  lemma CancelKeeps(s: State, id: CallId)
    requires Consistent(s) && Enabled(s, Cancel(id))
    ensures Consistent(Apply(s, Cancel(id))) && Extends(s, Apply(s, Cancel(id)))
  {
  }

  lemma GetReplyKeeps(s: State, id: CallId)
    requires Consistent(s) && Enabled(s, GetReply(id))
    ensures Consistent(Apply(s, GetReply(id))) && Extends(s, Apply(s, GetReply(id)))
  {
  }

  lemma GetTerminalKeeps(s: State, id: CallId)
    requires Consistent(s) && Enabled(s, GetTerminal(id))
    ensures Consistent(Apply(s, GetTerminal(id))) && Extends(s, Apply(s, GetTerminal(id)))
  {
  }

  lemma RejectNext(s: State)
    requires Consistent(s) && s.worker.Idle? && s.queue != [] && s.local.Some?
    ensures Apply(s, Receive).admitted == Accounted(Apply(s, Receive))
  {
    assert s.queue == [s.queue[0]] + s.queue[1..];
    assert Ids(Apply(s, Receive).rejected) == Ids(s.rejected) + [s.queue[0]];
  }

  lemma TakeNext(s: State)
    requires Consistent(s) && s.worker.Idle? && s.queue != [] && s.local == None
    ensures Apply(s, Receive).admitted == Accounted(Apply(s, Receive))
  {
    assert s.queue == [s.queue[0]] + s.queue[1..];
    assert Ids(s.rejected) == [];
  }

  lemma RejectKeepsPoison(s: State)
    requires Consistent(s) && s.worker.Idle? && s.queue != [] && s.local.Some?
    ensures PoisonStable(Apply(s, Receive)) && Extends(s, Apply(s, Receive))
  {
  }

  lemma TakeKeepsPoison(s: State)
    requires Consistent(s) && s.worker.Idle? && s.queue != [] && s.local == None
    ensures PoisonStable(Apply(s, Receive)) && Extends(s, Apply(s, Receive))
  {
  }

  lemma ReceiveKeeps(s: State)
    requires Consistent(s) && Enabled(s, Receive)
    ensures Consistent(Apply(s, Receive)) && Extends(s, Apply(s, Receive))
  {
    if s.local.Some? {
      RejectNext(s);
      RejectKeepsPoison(s);
    } else {
      TakeNext(s);
      TakeKeepsPoison(s);
    }
  }

  lemma HandleKeeps(s: State, failure: Option<Message>)
    requires Consistent(s) && Enabled(s, Handle(failure))
    ensures Consistent(Apply(s, Handle(failure))) && Extends(s, Apply(s, Handle(failure)))
  {
    assert Ids(s.rejected) == [];
  }

  lemma SetPoisonKeeps(s: State)
    requires Consistent(s) && Enabled(s, SetPoison)
    ensures Consistent(Apply(s, SetPoison)) && Extends(s, Apply(s, SetPoison))
  {
  }

  lemma SetPhaseKeeps(s: State)
    requires Consistent(s) && Enabled(s, SetPhase)
    ensures Consistent(Apply(s, SetPhase)) && Extends(s, Apply(s, SetPhase))
  {
  }

  lemma CheckpointKeeps(s: State, outcome: Outcome)
    requires Consistent(s) && Enabled(s, Checkpoint(outcome))
    ensures Consistent(Apply(s, Checkpoint(outcome))) && Extends(s, Apply(s, Checkpoint(outcome)))
  {
  }

  lemma ReapKeeps(s: State)
    requires Consistent(s) && Enabled(s, Reap)
    ensures Consistent(Apply(s, Reap)) && Extends(s, Apply(s, Reap))
  {
  }

  lemma PublishKeeps(s: State)
    requires Consistent(s) && Enabled(s, Publish)
    ensures Consistent(Apply(s, Publish)) && Extends(s, Apply(s, Publish))
  {
  }

  lemma CallerStepKeeps(s: State, step: Step)
    requires Consistent(s) && Enabled(s, step) && !IsWorkerStep(step)
    ensures Consistent(Apply(s, step)) && Extends(s, Apply(s, step))
  {
    match step
    case CloneHandle => CloneHandleKeeps(s);
    case DropHandle => DropHandleKeeps(s);
    case Enter(request) => EnterKeeps(s, request);
    case TakeGate(id) => TakeGateKeeps(s, id);
    case CheckPhase(id) => CheckPhaseKeeps(s, id);
    case CloneSender(id) => CloneSenderKeeps(s, id);
    case Send(id) => SendKeeps(s, id);
    case Mark(id) => MarkKeeps(s, id);
    case TakeSender(id) => TakeSenderKeeps(s, id);
    case Cancel(id) => CancelKeeps(s, id);
    case GetReply(id) => GetReplyKeeps(s, id);
    case GetTerminal(id) => GetTerminalKeeps(s, id);
  }

  lemma WorkerStepKeeps(s: State, step: Step)
    requires Consistent(s) && Enabled(s, step) && IsWorkerStep(step)
    ensures Consistent(Apply(s, step)) && Extends(s, Apply(s, step))
  {
    match step
    case Receive => ReceiveKeeps(s);
    case Handle(failure) => HandleKeeps(s, failure);
    case SetPoison => SetPoisonKeeps(s);
    case SetPhase => SetPhaseKeeps(s);
    case Checkpoint(outcome) => CheckpointKeeps(s, outcome);
    case Reap => ReapKeeps(s);
    case Publish => PublishKeeps(s);
  }

  lemma StepKeepsConsistent(s: State, step: Step)
    requires Consistent(s) && Enabled(s, step)
    ensures Consistent(Apply(s, step)) && Extends(s, Apply(s, step))
  {
    if IsWorkerStep(step) {
      WorkerStepKeeps(s, step);
    } else {
      CallerStepKeeps(s, step);
    }
  }

  lemma {:induction false} EveryRunIsConsistent(steps: seq<Step>)
    ensures Consistent(Run(Started(), steps))
    decreases |steps|
  {
    if steps != [] {
      EveryRunIsConsistent(steps[..|steps| - 1]);
      var before, step := Run(Started(), steps[..|steps| - 1]), steps[|steps| - 1];
      if Enabled(before, step) {
        StepKeepsConsistent(before, step);
      }
    }
  }

  // ----- Where a run can only move forward -----

  lemma RunAppend(s: State, steps: seq<Step>, step: Step)
    ensures Run(s, steps + [step]) == Next(Run(s, steps), step)
  {
    assert (steps + [step])[..|steps|] == steps;
  }

  lemma ExtendsAcross(s: State, t: State, u: State)
    requires Extends(s, t) && Extends(t, u)
    ensures Extends(s, u)
  {
  }

  lemma {:induction false} LaterExtends(steps: seq<Step>, more: seq<Step>)
    ensures Extends(Run(Started(), steps), Run(Started(), steps + more))
    decreases |more|
  {
    if more == [] {
      assert steps + more == steps;
    } else {
      var before, step := more[..|more| - 1], more[|more| - 1];
      LaterExtends(steps, before);
      assert steps + more == (steps + before) + [step];
      RunAppend(Started(), steps + before, step);
      OneStepExtends(steps, steps + before, step);
    }
  }

  lemma OneStepExtends(early: seq<Step>, steps: seq<Step>, step: Step)
    requires Extends(Run(Started(), early), Run(Started(), steps))
    ensures var t := Run(Started(), steps);
            Enabled(t, step) ==> Extends(Run(Started(), early), Apply(t, step))
  {
    var t := Run(Started(), steps);
    EveryRunIsConsistent(steps);
    if Enabled(t, step) {
      StepKeepsConsistent(t, step);
      ExtendsAcross(Run(Started(), early), t, Apply(t, step));
    }
  }

  // ----- What callers rely on -----

  /**
    Each admitted command is handled exactly once and in admission order: at any moment the
    admitted commands are the executed ones, the one in hand, the rejected ones and the queue, in
    this order and without repetition; once the worker has returned, nothing is left over and
    nothing more will ever be admitted.
   */
  lemma HandledOnceInOrder(steps: seq<Step>, more: seq<Step>)
    ensures var s := Run(Started(), steps);
            && s.admitted == s.executed + InHand(s.worker) + Ids(s.rejected) + s.queue
            && (forall i, j | 0 <= i < j < |s.admitted| :: s.admitted[i] != s.admitted[j])
            && (!ReceiverAlive(s) ==>
                  && !SenderLeft(s)
                  && s.admitted == s.executed + Ids(s.rejected)
                  && Run(Started(), steps + more).admitted == s.admitted)
  {
    EveryRunIsConsistent(steps);
    LaterExtends(steps, more);
    var s := Run(Started(), steps);
    if !ReceiverAlive(s) {
      assert InHand(s.worker) == [] && s.queue == [];
      assert s.executed + [] + Ids(s.rejected) + [] == s.executed + Ids(s.rejected);
    }
  }

  /** The message of the command that has failed after its commit, from the moment it comes back. */
  function Doom(s: State): Option<Message> {
    if s.worker.Poisoning? then Some(s.worker.message) else s.poison
  }

  /** A command that fails after its commit is the last one executed, and its message is the doom. */
  lemma FailureDooms(s: State, message: Message)
    requires Consistent(s) && s.worker.Busy?
    ensures Doom(s) == None
    ensures var t := Apply(s, Handle(Some(message)));
            Doom(t) == Some(message) && t.executed == s.executed + [s.worker.command]
  {
  }

  lemma CallerStepKeepsDoom(s: State, step: Step)
    requires Consistent(s) && Enabled(s, step) && !IsWorkerStep(step) && Doom(s).Some?
    ensures Doom(Apply(s, step)) == Doom(s) && Apply(s, step).executed == s.executed
  {
  }

  lemma WorkerStepKeepsDoom(s: State, step: Step)
    requires Consistent(s) && Enabled(s, step) && IsWorkerStep(step) && Doom(s).Some?
    ensures Doom(Apply(s, step)) == Doom(s) && Apply(s, step).executed == s.executed
  {
  }

  /** `t` is doomed like `s`, and has executed nothing more. */
  predicate SameDoom(s: State, t: State) {
    Doom(s).Some? && Doom(t) == Doom(s) && t.executed == s.executed
  }

  lemma NextKeepsDoom(s: State, steps: seq<Step>, step: Step)
    requires SameDoom(s, Run(Started(), steps))
    ensures SameDoom(s, Run(Started(), steps + [step]))
  {
    var t := Run(Started(), steps);
    EveryRunIsConsistent(steps);
    RunAppend(Started(), steps, step);
    if Enabled(t, step) {
      if IsWorkerStep(step) {
        WorkerStepKeepsDoom(t, step);
      } else {
        CallerStepKeepsDoom(t, step);
      }
    }
  }

  lemma {:induction false} DoomIsFinal(s: State, steps: seq<Step>, more: seq<Step>)
    requires SameDoom(s, Run(Started(), steps))
    ensures SameDoom(s, Run(Started(), steps + more))
    decreases |more|
  {
    if more == [] {
      assert steps + more == steps;
    } else {
      var n := |more| - 1;
      DoomIsFinal(s, steps, more[..n]);
      NextKeepsDoom(s, steps + more[..n], more[n]);
      assert steps + more == (steps + more[..n]) + [more[n]];
    }
  }

  lemma DoomIsTheMessage(s: State)
    requires Consistent(s) && Doom(s).Some?
    ensures s.poison.Some? ==> s.poison == Doom(s)
    ensures forall r | r in s.rejected :: r.1 == Doom(s).value
    ensures forall r | r in s.refused :: r.1 == ACTOR_CLOSED_ERROR || r.1 == Doom(s).value
  {
  }

  /**
    From the moment a command comes back as failed after its commit, no other command is executed,
    whether queued or admitted later; and every rejection by the worker, every refusal that is not
    the closed one, and the poison slot itself carry the message of that command for ever.
   */
  lemma PoisonIsFinal(steps: seq<Step>, message: Message, more: seq<Step>)
    requires Run(Started(), steps).worker.Busy?
    ensures var s, t := Run(Started(), steps), Run(Started(), steps + [Handle(Some(message))] + more);
            && t.executed == s.executed + [s.worker.command]
            && (t.poison.Some? ==> t.poison == Some(message))
            && (forall r | r in t.rejected :: r.1 == message)
            && (forall r | r in t.refused :: r.1 == ACTOR_CLOSED_ERROR || r.1 == message)
  {
    var failed := steps + [Handle(Some(message))];
    EveryRunIsConsistent(steps);
    RunAppend(Started(), steps, Handle(Some(message)));
    FailureDooms(Run(Started(), steps), message);
    DoomIsFinal(Run(Started(), failed), failed, more);
    EveryRunIsConsistent(failed + more);
    DoomIsTheMessage(Run(Started(), failed + more));
  }

  /** The poison slot is never filled in any other way. */
  lemma {:induction false} PoisonHasACause(steps: seq<Step>) returns (k: nat)
    requires Doom(Run(Started(), steps)).Some?
    ensures k < |steps| && steps[k] == Handle(Doom(Run(Started(), steps)))
    ensures Run(Started(), steps[..k]).worker.Busy? && Doom(Run(Started(), steps[..k])) == None
    decreases |steps|
  {
    var n := |steps| - 1;
    var before, step := Run(Started(), steps[..n]), steps[n];
    EveryRunIsConsistent(steps[..n]);
    if Doom(before).Some? {
      NextKeepsDoom(before, steps[..n], step);
      assert steps[..n] + [step] == steps;
      k := PoisonHasACause(steps[..n]);
      assert steps[..n][..k] == steps[..k];
    } else {
      OnlyFailureDooms(before, step);
      k := n;
    }
  }

  lemma OnlyFailureDooms(s: State, step: Step)
    requires Consistent(s) && Doom(s) == None && Enabled(s, step) && Doom(Apply(s, step)).Some?
    ensures s.worker.Busy? && step == Handle(Doom(Apply(s, step)))
  {
  }

  /** Phases only move forward, and phase Poisoned always finds its message. */
  lemma PhasesMoveForward(steps: seq<Step>, more: seq<Step>)
    ensures Rank(Run(Started(), steps).phase) <= Rank(Run(Started(), steps + more).phase)
    ensures Run(Started(), steps).phase.Poisoned? ==> Run(Started(), steps).poison.Some?
  {
    LaterExtends(steps, more);
    EveryRunIsConsistent(steps);
  }

  /** The two error paths of an admission that has seen phase Open are never taken. */
  lemma OpenAdmissionSucceeds(steps: seq<Step>, id: CallId)
    ensures var s := Run(Started(), steps);
            && (In(s, id, SawOpen) ==> s.txOpen)
            && (In(s, id, Sending) ==> ReceiverAlive(s))
  {
    EveryRunIsConsistent(steps);
  }

  /** All shutdown callers of a run get one and the same outcome, that of the worker. */
  lemma ShutdownCallersAgree(steps: seq<Step>, more: seq<Step>)
    ensures var s, t := Run(Started(), steps), Run(Started(), steps + more);
            forall a, b | a in s.answered && b in t.answered ::
              s.answered[a] == t.answered[b] && t.worker == Reaped(s.answered[a])
  {
    EveryRunIsConsistent(steps);
    EveryRunIsConsistent(steps + more);
    LaterExtends(steps, more);
  }

  // ----- Shutdown terminates -----

  /** How much the worker and the reaper still have to do. */
  function Work(s: State): nat {
    4 * |s.queue| +
    match s.worker
    case Idle => 3
    case Busy(_) => 6
    case Poisoning(_) => 5
    case Publishing(_) => 4
    case Finished(_) => 2
    case Reaped(_) => if s.terminal == None then 1 else 0
  }

  function NextWorkerStep(s: State): Step {
    match s.worker
    case Idle => if s.queue != [] then Receive else Checkpoint(Success)
    case Busy(_) => Handle(None)
    case Poisoning(_) => SetPoison
    case Publishing(_) => SetPhase
    case Finished(_) => Reap
    case Reaped(_) => Publish
  }

  lemma WorkerStepReducesWork(s: State, step: Step)
    requires Consistent(s) && !s.txOpen && Enabled(s, step) && IsWorkerStep(step)
    ensures Work(Apply(s, step)) < Work(s)
  {
  }

  lemma CallerStepAddsNoWork(s: State, step: Step)
    requires Consistent(s) && !s.txOpen && Enabled(s, step) && !IsWorkerStep(step)
    ensures Work(Apply(s, step)) <= Work(s)
  {
  }

  lemma StepReducesWork(s: State, step: Step)
    requires Consistent(s) && !s.txOpen && Enabled(s, step)
    ensures Work(Apply(s, step)) <= Work(s)
    ensures IsWorkerStep(step) ==> Work(Apply(s, step)) < Work(s)
  {
    if IsWorkerStep(step) {
      WorkerStepReducesWork(s, step);
    } else {
      CallerStepAddsNoWork(s, step);
    }
  }

  /**
    Once the sender has been dropped, the outcome is only a bounded number of worker steps away:
    until it is published one of them is always enabled, each of them leaves less to do, and no
    step of anyone else adds to it.
   */
  lemma ShutdownTerminates(steps: seq<Step>)
    requires !Run(Started(), steps).txOpen
    ensures var s := Run(Started(), steps);
            && (s.terminal == None ==> IsWorkerStep(NextWorkerStep(s)) && Enabled(s, NextWorkerStep(s)))
            && (forall step | Enabled(s, step) ::
                  Work(Apply(s, step)) <= Work(s) && (IsWorkerStep(step) ==> Work(Apply(s, step)) < Work(s)))
  {
    EveryRunIsConsistent(steps);
    var s := Run(Started(), steps);
    forall step | Enabled(s, step)
      ensures Work(Apply(s, step)) <= Work(s) && (IsWorkerStep(step) ==> Work(Apply(s, step)) < Work(s))
    {
      StepReducesWork(s, step);
    }
  }

  // ----- What gets done -----

  lemma RunTwo(s: State, steps: seq<Step>, a: Step, b: Step)
    ensures Run(s, steps + [a, b]) == Next(Next(Run(s, steps), a), b)
  {
    assert steps + [a, b] == (steps + [a]) + [b];
    RunAppend(s, steps, a);
    RunAppend(s, steps + [a], b);
  }

  lemma RunThree(s: State, steps: seq<Step>, a: Step, b: Step, c: Step)
    ensures Run(s, steps + [a, b, c]) == Next(Next(Next(Run(s, steps), a), b), c)
  {
    assert steps + [a, b, c] == (steps + [a, b]) + [c];
    RunTwo(s, steps, a, b);
    RunAppend(s, steps + [a, b], c);
  }

  lemma RunFour(s: State, steps: seq<Step>, a: Step, b: Step, c: Step, d: Step)
    ensures Run(s, steps + [a, b, c, d]) == Next(Next(Next(Next(Run(s, steps), a), b), c), d)
  {
    assert steps + [a, b, c, d] == (steps + [a, b]) + [c, d];
    RunTwo(s, steps, a, b);
    RunTwo(s, steps + [a, b], c, d);
  }

  /** A call that waits for the gate, which is free. */
  predicate IsNextIn(s: State, id: CallId, request: Request) {
    s.gate == None && In(s, id, WantGate(request))
  }

  lemma OpenIsLetThrough(s: State, id: CallId)
    requires Consistent(s) && IsNextIn(s, id, Admission) && s.phase.Open?
    ensures Next(Next(s, TakeGate(id)), CheckPhase(id)) == s.(gate := Some(id), calls := s.calls[id := SawOpen])
  {
    assert s.calls[id := Gated(Admission)][id := SawOpen] == s.calls[id := SawOpen];
  }

  lemma SeenOpenIsSent(s: State, id: CallId)
    requires In(s, id, SawOpen) && s.txOpen && ReceiverAlive(s) && |s.queue| < CHANNEL_CAPACITY
    ensures Next(Next(s, CloneSender(id)), Send(id))
            == s.(gate := None, calls := s.calls[id := AwaitReply], queue := s.queue + [id], admitted := s.admitted + [id])
  {
    assert s.calls[id := Sending][id := AwaitReply] == s.calls[id := AwaitReply];
  }

  /** While the actor is open and its channel has room, the next call gets its command admitted, and nothing else changes. */
  lemma OpenActorAdmits(steps: seq<Step>, id: CallId)
    requires var s := Run(Started(), steps);
             IsNextIn(s, id, Admission) && s.phase.Open? && |s.queue| < CHANNEL_CAPACITY
    ensures var s := Run(Started(), steps);
            Run(Started(), steps + [TakeGate(id), CheckPhase(id), CloneSender(id), Send(id)])
            == s.(calls := s.calls[id := AwaitReply], queue := s.queue + [id], admitted := s.admitted + [id])
  {
    var s := Run(Started(), steps);
    EveryRunIsConsistent(steps);
    RunFour(Started(), steps, TakeGate(id), CheckPhase(id), CloneSender(id), Send(id));
    OpenIsLetThrough(s, id);
    var t := s.(gate := Some(id), calls := s.calls[id := SawOpen]);
    SeenOpenIsSent(t, id);
    assert t.calls[id := AwaitReply] == s.calls[id := AwaitReply];
  }

  lemma RemoveGated(s: State, id: CallId, call: Call)
    ensures Remove(s.calls[id := call], id) == Remove(s.calls, id)
  {
  }

  /** In phase Poisoned the next call is refused with the message of the failed command, otherwise as closed. */
  lemma OtherPhasesRefuse(steps: seq<Step>, id: CallId)
    requires IsNextIn(Run(Started(), steps), id, Admission) && !Run(Started(), steps).phase.Open?
    ensures var s := Run(Started(), steps);
            && (s.phase.Poisoned? ==> s.poison.Some?)
            && Run(Started(), steps + [TakeGate(id), CheckPhase(id)])
               == s.(calls := Remove(s.calls, id),
                     refused := s.refused + [(id, if s.phase.Poisoned? then s.poison.value
                                                  else "database actor is closing or closed")])
  {
    var s := Run(Started(), steps);
    EveryRunIsConsistent(steps);
    RunTwo(Started(), steps, TakeGate(id), CheckPhase(id));
    RemoveGated(s, id, Gated(Admission));
  }

  lemma ShutdownMarks(s: State, id: CallId)
    requires IsNextIn(s, id, Shutdown)
    ensures Next(Next(s, TakeGate(id)), Mark(id))
            == s.(gate := Some(id), phase := MarkClosing(s.phase), calls := s.calls[id := Marked])
  {
    assert s.calls[id := Gated(Shutdown)][id := Marked] == s.calls[id := Marked];
  }

  /** The next call that asks for a shutdown closes the door and takes the sender away, and waits for the outcome. */
  lemma ShutdownCloses(steps: seq<Step>, id: CallId)
    requires IsNextIn(Run(Started(), steps), id, Shutdown)
    ensures var s := Run(Started(), steps);
            var t := Run(Started(), steps + [TakeGate(id), Mark(id), TakeSender(id)]);
            && t == s.(txOpen := false, phase := t.phase, calls := s.calls[id := AwaitTerminal])
            && t.phase == if s.phase.Closed? then Closed else Closing
  {
    var s := Run(Started(), steps);
    RunThree(Started(), steps, TakeGate(id), Mark(id), TakeSender(id));
    ShutdownMarks(s, id);
    assert s.calls[id := Marked][id := AwaitTerminal] == s.calls[id := AwaitTerminal];
  }

  /** So does the drop of the last handle. */
  lemma LastDropCloses(s: State)
    requires s.handles == 1 && s.calls == map[]
    ensures Next(s, DropHandle) == s.(handles := 0, txOpen := false, phase := if s.phase.Closed? then Closed else Closing)
  {
  }

  /** An idle worker that has seen no failure executes the next command, and its caller can collect the reply. */
  lemma NextCommandIsExecuted(s: State, failure: Option<Message>)
    requires s.worker.Idle? && s.queue != [] && s.local == None
    ensures Next(Next(s, Receive), Handle(failure))
            == s.(queue := s.queue[1..], executed := s.executed + [s.queue[0]],
                  worker := if failure == None then Idle else Poisoning(failure.value))
    ensures In(s, s.queue[0], AwaitReply) ==> Enabled(Next(Next(s, Receive), Handle(failure)), GetReply(s.queue[0]))
  {
    assert (s.executed + [s.queue[0]])[|s.executed|] == s.queue[0];
  }

  /** After a failure it rejects the next command with the message. */
  lemma NextCommandIsRejected(s: State)
    requires s.worker.Idle? && s.queue != [] && s.local.Some?
    ensures Next(s, Receive) == s.(queue := s.queue[1..], rejected := s.rejected + [(s.queue[0], s.local.value)])
    ensures In(s, s.queue[0], AwaitReply) ==> Enabled(Next(s, Receive), GetReply(s.queue[0]))
  {
    assert (s.rejected + [(s.queue[0], s.local.value)])[|s.rejected|] == (s.queue[0], s.local.value);
  }

  lemma FailureSets(s: State, message: Message)
    requires s.worker.Busy? && s.poison == None
    ensures Next(Next(Next(s, Handle(Some(message))), SetPoison), SetPhase)
            == s.(executed := s.executed + [s.worker.command], worker := Idle, poison := Some(message),
                  local := Some(message), phase := if s.phase.Open? then Poisoned else s.phase)
  {
  }

  lemma BusyIsUnharmed(s: State)
    requires PoisonStable(s) && s.worker.Busy?
    ensures s.poison == None
  {
  }

  /** A failure after the commit poisons the actor: slot, phase unless it is closing, and the worker's own note. */
  lemma FailurePoisons(steps: seq<Step>, message: Message)
    requires Run(Started(), steps).worker.Busy?
    ensures var s := Run(Started(), steps);
            Run(Started(), steps + [Handle(Some(message)), SetPoison, SetPhase])
            == s.(executed := s.executed + [s.worker.command], worker := Idle, poison := Some(message),
                  local := Some(message), phase := if s.phase.Open? then Poisoned else s.phase)
  {
    EveryRunIsConsistent(steps);
    BusyIsUnharmed(Run(Started(), steps));
    RunThree(Started(), steps, Handle(Some(message)), SetPoison, SetPhase);
    FailureSets(Run(Started(), steps), message);
  }

  lemma CheckpointEnds(s: State, outcome: Outcome)
    requires s.worker.Idle? && s.queue == [] && !SenderLeft(s) && s.terminal == None
    ensures Next(Next(Next(s, Checkpoint(outcome)), Reap), Publish)
            == s.(worker := Reaped(outcome), phase := Closed, terminal := Some(outcome))
  {
  }

  lemma IdleHasNoOutcome(s: State)
    requires OneOutcome(s) && s.worker.Idle?
    ensures s.terminal == None
  {
  }

  /** When the queue is empty and no sender is left, the outcome of the checkpoint is published. */
  lemma OutcomeIsPublished(steps: seq<Step>, outcome: Outcome)
    requires var s := Run(Started(), steps); s.worker.Idle? && s.queue == [] && !SenderLeft(s)
    ensures var s := Run(Started(), steps);
            Run(Started(), steps + [Checkpoint(outcome), Reap, Publish])
            == s.(worker := Reaped(outcome), phase := Closed, terminal := Some(outcome))
  {
    EveryRunIsConsistent(steps);
    IdleHasNoOutcome(Run(Started(), steps));
    RunThree(Started(), steps, Checkpoint(outcome), Reap, Publish);
    CheckpointEnds(Run(Started(), steps), outcome);
  }

  /** And every shutdown that waits for it gets it. */
  lemma WaiterGetsOutcome(s: State, id: CallId)
    requires In(s, id, AwaitTerminal) && s.terminal.Some?
    ensures Next(s, GetTerminal(id)) == s.(calls := Remove(s.calls, id), answered := s.answered[id := s.terminal.value])
  {
  }

  /** The channel never holds more commands than it has room for. */
  lemma {:induction false} QueueStaysBounded(steps: seq<Step>)
    ensures |Run(Started(), steps).queue| <= 128
    decreases |steps|
  {
    if steps != [] {
      QueueStaysBounded(steps[..|steps| - 1]);
      var s, step := Run(Started(), steps[..|steps| - 1]), steps[|steps| - 1];
      QueueStep(s, step);
    }
  }

  lemma QueueStep(s: State, step: Step)
    requires |s.queue| <= 128
    ensures |Next(s, step).queue| <= 128
  {
  }

  lemma AdmissionsGrow(s: State, step: Step)
    ensures s.admitted <= Next(s, step).admitted
  {
  }

  lemma AwaitingStep(s: State, step: Step, id: CallId)
    requires In(Next(s, step), id, AwaitReply)
    ensures In(s, id, AwaitReply) || step == Send(id)
    ensures step == Send(id) && !In(s, id, AwaitReply) ==> id in Next(s, step).admitted
  {
  }

  lemma {:induction false} AwaitingIsAdmitted(steps: seq<Step>, id: CallId)
    requires In(Run(Started(), steps), id, AwaitReply)
    ensures id in Run(Started(), steps).admitted
    decreases |steps|
  {
    var s, step := Run(Started(), steps[..|steps| - 1]), steps[|steps| - 1];
    AwaitingStep(s, step, id);
    AdmissionsGrow(s, step);
    if In(s, id, AwaitReply) {
      AwaitingIsAdmitted(steps[..|steps| - 1], id);
      var i :| 0 <= i < |s.admitted| && s.admitted[i] == id;
      assert Next(s, step).admitted[i] == id;
    }
  }

  lemma IdsHold(rejected: seq<(CallId, Message)>, id: CallId)
    ensures id in Ids(rejected) <==> exists r | r in rejected :: r.0 == id
  {
    if id in Ids(rejected) {
      var i :| 0 <= i < |rejected| && Ids(rejected)[i] == id;
      assert rejected[i] in rejected;
    }
    forall r | r in rejected && r.0 == id ensures id in Ids(rejected) {
      var i :| 0 <= i < |rejected| && rejected[i] == r;
      assert Ids(rejected)[i] == id;
    }
  }

  lemma PartsAreApart(all: seq<CallId>, first: seq<CallId>, second: seq<CallId>)
    requires forall i, j | 0 <= i < j < |all| :: all[i] != all[j]
    requires all == first + second
    ensures forall id | id in first :: id !in second
  {
    forall i, j | 0 <= i < |first| && 0 <= j < |second| ensures first[i] != second[j] {
      assert all[i] == first[i] && all[|first| + j] == second[j];
    }
  }

  /** The handled commands are not those that are queued or in the worker's hand. */
  lemma HandledIsNotWaiting(s: State, id: CallId)
    requires InOrder(s) && id in s.admitted
    ensures id in s.executed || id in Ids(s.rejected) <==> id !in s.queue && id !in InHand(s.worker)
  {
    PartsAreApart(s.admitted, s.executed, InHand(s.worker) + Ids(s.rejected) + s.queue);
    PartsAreApart(s.admitted, s.executed + InHand(s.worker), Ids(s.rejected) + s.queue);
    PartsAreApart(s.admitted, s.executed + InHand(s.worker) + Ids(s.rejected), s.queue);
  }

  /** A caller can collect its reply exactly when its command is neither queued nor in the worker's hand. */
  lemma RepliesExactlyWhenHandled(steps: seq<Step>, id: CallId)
    requires In(Run(Started(), steps), id, AwaitReply)
    ensures var s := Run(Started(), steps);
            Enabled(s, GetReply(id)) <==> id !in s.queue && s.worker != Busy(id)
  {
    var s := Run(Started(), steps);
    EveryRunIsConsistent(steps);
    AwaitingIsAdmitted(steps, id);
    IdsHold(s.rejected, id);
    HandledIsNotWaiting(s, id);
  }

  // ----- Coming and going -----

  /** Whoever has a handle can make a call, which waits for the gate. */
  lemma CallsEnter(s: State, request: Request)
    requires s.handles > 0
    ensures Next(s, Enter(request)) == s.(calls := s.calls[s.nextCall := WantGate(request)], nextCall := s.nextCall + 1)
  {
  }

  /** So an open actor with a free gate and room in its channel takes a new command from every holder of a handle. */
  lemma NewCallIsAdmitted(steps: seq<Step>)
    requires var s := Run(Started(), steps);
             s.handles > 0 && s.gate == None && s.phase.Open? && |s.queue| < CHANNEL_CAPACITY
    ensures var s := Run(Started(), steps);
            var id := s.nextCall;
            Run(Started(), steps + [Enter(Admission), TakeGate(id), CheckPhase(id), CloneSender(id), Send(id)])
            == s.(calls := s.calls[id := AwaitReply], nextCall := id + 1, queue := s.queue + [id], admitted := s.admitted + [id])
  {
    var s := Run(Started(), steps);
    var id := s.nextCall;
    RunAppend(Started(), steps, Enter(Admission));
    CallsEnter(s, Admission);
    AdmittedFromEntry(s, id);
    assert IsNextIn(Run(Started(), steps + [Enter(Admission)]), id, Admission);
    OpenActorAdmits(steps + [Enter(Admission)], id);
    FirstOfFive(steps, Enter(Admission), TakeGate(id), CheckPhase(id), CloneSender(id), Send(id));
  }

  lemma FirstOfFive(steps: seq<Step>, a: Step, b: Step, c: Step, d: Step, e: Step)
    ensures steps + [a, b, c, d, e] == (steps + [a]) + [b, c, d, e]
  {
  }

  lemma AdmittedFromEntry(s: State, id: CallId)
    ensures var t := s.(calls := s.calls[id := WantGate(Admission)], nextCall := id + 1);
            t.(calls := t.calls[id := AwaitReply], queue := t.queue + [id], admitted := t.admitted + [id])
            == s.(calls := s.calls[id := AwaitReply], nextCall := id + 1, queue := s.queue + [id], admitted := s.admitted + [id])
  {
    assert s.calls[id := WantGate(Admission)][id := AwaitReply] == s.calls[id := AwaitReply];
  }

  /** What the holder of the gate does next. */
  function GateStep(call: Call, id: CallId): Step {
    match call
    case Gated(Admission) => CheckPhase(id)
    case Gated(Shutdown) => Mark(id)
    case SawOpen => CloneSender(id)
    case Sending => Send(id)
    case _ => TakeSender(id)
  }

  /** The gate is never stuck: its holder can go on, unless it waits for room in the channel. */
  lemma GateIsNeverStuck(steps: seq<Step>, id: CallId)
    requires Run(Started(), steps).gate == Some(id)
    ensures var s := Run(Started(), steps);
            && id in s.calls
            && (Enabled(s, GateStep(s.calls[id], id)) || (s.calls[id].Sending? && ReceiverAlive(s) && |s.queue| == 128))
  {
    EveryRunIsConsistent(steps);
    QueueStaysBounded(steps);
    HolderGoesOn(Run(Started(), steps), id);
  }

  lemma HolderGoesOn(s: State, id: CallId)
    requires GateHeldByOne(s) && s.gate == Some(id) && |s.queue| <= 128
    ensures id in s.calls
    ensures Enabled(s, GateStep(s.calls[id], id)) || (s.calls[id].Sending? && ReceiverAlive(s) && |s.queue| == 128)
  {
    assert HoldsGate(s.calls[id]);
  }

  /** A caller that waits may give up; that frees the gate if it held it, and takes no admitted command back. */
  lemma CallersMayLeave(s: State, id: CallId)
    requires In(s, id, WantGate(Admission)) || In(s, id, WantGate(Shutdown)) || In(s, id, Sending)
             || In(s, id, AwaitReply) || In(s, id, AwaitTerminal)
    ensures Next(s, Cancel(id)) == s.(calls := Remove(s.calls, id), gate := if In(s, id, Sending) then None else s.gate)
  {
  }

  /** Handles are counted: dropping a clone undoes the cloning, so only the last drop closes the actor. */
  lemma DropUndoesClone(s: State)
    requires s.handles > 0
    ensures Next(Next(s, CloneHandle), DropHandle) == s && Next(s, CloneHandle).handles == s.handles + 1
  {
  }
}
