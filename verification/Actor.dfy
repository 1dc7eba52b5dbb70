/** The state that the actor shares between threads, and the worker's loop over its channel. */
module Actor {
  import opened Common
  import opened ActorProtocol

  class ActorState {
    var phase: Phase
    var slot: Option<Message>

    constructor ()
      ensures phase == Open && slot == None
    {
      phase, slot := Open, None;
    }

    /** The first message stays; the phase turns to Poisoned unless a shutdown has already begun. */
    method Poison(message: Message) returns (stable: Message)
      modifies this
      ensures slot == Some(stable) && stable == (if old(slot).Some? then old(slot).value else message)
      ensures phase == (if old(phase) == Open then Poisoned else old(phase))
    {
      if slot == None {
        slot := Some(message);
      }
      stable := slot.value;
      if phase == Open {
        phase := Poisoned;
      }
    }

    method PoisonError() returns (message: Message)
      ensures slot.Some? ==> message == slot.value
      ensures slot == None ==> message == ACTOR_POISONED_FALLBACK
    {
      message := if slot.Some? then slot.value else ACTOR_POISONED_FALLBACK;
    }

    /** Closing is reached from Open and Poisoned only; it never takes Closed back. */
    method MarkAsClosing()
      modifies this`phase
      ensures phase == MarkClosing(old(phase)) && Rank(phase) >= 2 && Rank(phase) >= Rank(old(phase))
    {
      if phase.Closing? || phase.Closed? {
        return;
      }
      phase := Closing;
    }
  }

  /** A command with what its execution will report: nothing, or a failure after its commit. */
  datatype Command = Command(id: CallId, failure: Option<Message>)

  datatype Effect = Executed(command: CallId) | Checkpointed

  /** The database as the worker sees it: what it was asked to do, and how its checkpoint ends. */
  class Database {
    const checkpoint: Outcome
    var effects: seq<Effect>

    constructor (checkpoint: Outcome)
      ensures this.checkpoint == checkpoint && effects == []
    {
      this.checkpoint, effects := checkpoint, [];
    }

    method Handle(command: Command) returns (failure: Option<Message>)
      modifies this
      ensures effects == old(effects) + [Executed(command.id)] && failure == command.failure
    {
      effects := effects + [Executed(command.id)];
      failure := command.failure;
    }

    method Checkpoint() returns (outcome: Outcome)
      modifies this
      ensures effects == old(effects) + [Checkpointed] && outcome == checkpoint
    {
      effects := effects + [Checkpointed];
      outcome := checkpoint;
    }
  }

  function Effects(commands: seq<Command>): seq<Effect> {
    seq(|commands|, i requires 0 <= i < |commands| => Executed(commands[i].id))
  }

  /** What the worker executes: the commands up to and including the first that fails after its commit. */
  predicate IsExecutedPart(executed: seq<Command>, commands: seq<Command>) {
    && executed <= commands
    && (forall i | 0 <= i < |executed| - 1 :: executed[i].failure == None)
    && (|executed| < |commands| ==> executed != [] && executed[|executed| - 1].failure.Some?)
  }

  function LastFailure(executed: seq<Command>): Option<Message> {
    if executed == [] then None else executed[|executed| - 1].failure
  }

  /** Each later command is turned away with the one message. */
  predicate AreRejected(rejected: seq<(CallId, Message)>, commands: seq<Command>, from: nat, message: Option<Message>) {
    && |rejected| + from == |commands|
    && (forall i | 0 <= i < |rejected| :: rejected[i].0 == commands[from + i].id && Some(rejected[i].1) == message)
  }

  /**
    The worker's loop: it executes commands as they come until one fails after its commit, rejects
    all later ones with that one message, and closes with a checkpoint, whose outcome is its own.
   */
  method RunWorker(state: ActorState, db: Database, commands: seq<Command>)
    returns (ghost executed: seq<Command>, rejected: seq<(CallId, Message)>, outcome: Outcome)
    requires state.slot == None
    modifies state, db
    ensures IsExecutedPart(executed, commands) && state.slot == LastFailure(executed)
    ensures AreRejected(rejected, commands, |executed|, state.slot)
    ensures db.effects == old(db.effects) + Effects(executed) + [Checkpointed]
    ensures outcome == db.checkpoint
    ensures state.phase == if state.slot.Some? && old(state.phase) == Open then Poisoned else old(state.phase)
  {
    executed, rejected := [], [];
    var poison: Option<Message> := None;
    for i := 0 to |commands|
      invariant |executed| + |rejected| == i
      invariant IsExecutedPart(executed, commands[..i]) && poison == state.slot == LastFailure(executed)
      invariant AreRejected(rejected, commands[..i], |executed|, poison)
      invariant db.effects == old(db.effects) + Effects(executed)
      invariant state.phase == if poison.Some? && old(state.phase) == Open then Poisoned else old(state.phase)
    {
      var command := commands[i];
      assert commands[..i + 1] == commands[..i] + [command];
      if poison.Some? {
        rejected := rejected + [(command.id, poison.value)];
      } else {
        assert executed == commands[..i];
        assert Effects(executed + [command]) == Effects(executed) + [Executed(command.id)];
        executed := executed + [command];
        var failure := db.Handle(command);
        if failure.Some? {
          var stable := state.Poison(failure.value);
          poison := Some(stable);
        }
      }
    }
    assert commands[..|commands|] == commands;
    outcome := db.Checkpoint();
  }
}
