/** The handler of update requests and the update actor, interleaved step by step. They share the
    in-progress flag and a queue of two messages. */
module OtaProtocol {
  import opened Wrappers
  import opened OtaStatuses
  import OtaEngine

  const MAX_OTA_OPERATION := 2

  /** A request on its way to the actor; the serial stands for its cancellation token. */
  datatype Message = Message(id: OtaId, serial: nat)

  // ----- The handler's decisions -----

  datatype Reply = Accepted | AlreadyInProgress(id: OtaId) | Dropped

  /** What the handler makes of an update request, and the request it then considers current. */
  function Check(current: Option<Message>, flag: bool, id: OtaId): (Option<Message>, Reply) {
    if current.Some? && !flag then (None, Accepted)
    else if current.None? then (current, Accepted)
    else if current.value.id != id then (current, AlreadyInProgress(id))
    else (current, Dropped)
  }

  class OtaHandler {
    var flag: bool
    var queue: seq<Message>
    var current: Option<Message>
    var cancelled: set<nat>
    var serial: nat
    var published: seq<OtaStatus>

    constructor ()
      ensures !flag && queue == [] && current == None && cancelled == {} && serial == 0 && published == []
    {
      flag, queue, current, cancelled, serial, published := false, [], None, {}, 0, [];
    }

    method CheckUpdateAlreadyInProgress(id: OtaId) returns (inProgress: bool)
      modifies this`current, this`published
      ensures var (after, reply) := Check(old(current), flag, id);
        && current == after && inProgress == !reply.Accepted?
        && published == old(published) +
             if reply.AlreadyInProgress? then [Failure(UpdateAlreadyInProgress, Some(id))] else []
    {
      if current.Some? && !flag {
        current := None;
        return false;
      }
      if current.None? {
        return false;
      }
      if current.value.id != id {
        published := published + [Failure(UpdateAlreadyInProgress, Some(id))];
      }
      inProgress := true;
    }

    /** The handler between two requests, as a state of both processes. */
    ghost function Between(actor: Actor): State
      reads this
    {
      State(flag, queue, current, cancelled, serial, Ready, actor)
    }

    /** Run without interruption, with room in the queue: the request is queued and becomes current
        exactly when the check accepts it. */
    method HandleUpdate(id: OtaId)
      requires |queue| < MAX_OTA_OPERATION
      modifies this
      ensures cancelled == old(cancelled)
      ensures var (after, reply) := Check(old(current), old(flag), id);
        if reply.Accepted? then
          && flag && current == Some(Message(id, old(serial))) && queue == old(queue) + [Message(id, old(serial))]
          && serial == old(serial) + 1 && published == old(published)
        else
          && flag == old(flag) && current == after && queue == old(queue) && serial == old(serial)
          && published == old(published) +
               if reply.AlreadyInProgress? then [Failure(UpdateAlreadyInProgress, Some(id))] else []
      ensures forall actor :: Between(actor) == Handled(old(Between(actor)), id)
    {
      var inProgress := CheckUpdateAlreadyInProgress(id);
      if inProgress {
        return;
      }
      flag := true;
      var message := Message(id, serial);
      serial := serial + 1;
      queue := queue + [message];
      current := Some(message);
    }

    /** Only the current request can be cancelled; any other cancellation is answered with a failure. */
    method HandleCancel(id: OtaId)
      modifies this`current, this`cancelled, this`published
      ensures if old(current).Some? && old(current).value.id == id then
                cancelled == old(cancelled) + {old(current).value.serial} && current == None
                && published == old(published)
              else
                cancelled == old(cancelled) && current == old(current)
                && published == old(published) +
                     [Failure(Internal(if old(current).Some? then CancelDiffers else CancelEmpty), Some(id))]
    {
      if current.Some? && current.value.id == id {
        cancelled := cancelled + {current.value.serial};
        current := None;
      } else {
        published := published + [Failure(Internal(if current.Some? then CancelDiffers else CancelEmpty), Some(id))];
      }
    }
  }

  // ----- The interleaving -----

  datatype Run = Startup | Serving(message: Message)

  /** How far the status of a run is: it can still go anywhere, it waits for the reboot, or it is idle
      and the next look at it lowers the flag. */
  datatype Phase = Working | AwaitingReboot | Done

  datatype Actor = Loop(run: Run, phase: Phase) | Leaving(run: Run) | Receiving

  /** Where the handler is with the request it accepted. */
  datatype Handler = Ready | Accepting(message: Message) | Raised(message: Message) | Sent(message: Message)

  datatype State = State(
    flag: bool, queue: seq<Message>, current: Option<Message>, cancelled: set<nat>, serial: nat,
    handler: Handler, actor: Actor)

  datatype Action =
    | Update(id: OtaId, reply: Reply)
    | Raise | Send | Settle
    | Cancel(id: OtaId)
    | RebootRequest(refused: bool)
    | Iterate(next: Phase) | Leave | Close | Receive

  /** One atomic step of either process. */
  ghost predicate Step(s: State, a: Action, t: State) {
    match a
    case Update(id, reply) =>
      && s.handler.Ready? && reply == Check(s.current, s.flag, id).1
      && var c := s.(current := Check(s.current, s.flag, id).0);
         t == if reply.Accepted? then c.(handler := Accepting(Message(id, s.serial)), serial := s.serial + 1) else c
    case Raise =>
      s.handler.Accepting? && t == s.(flag := true, handler := Raised(s.handler.message))
    case Send =>
      && s.handler.Raised? && |s.queue| < MAX_OTA_OPERATION
      && t == s.(queue := s.queue + [s.handler.message], handler := Sent(s.handler.message))
    case Settle =>
      s.handler.Sent? && t == s.(current := Some(s.handler.message), handler := Ready)
    case Cancel(id) =>
      && s.handler.Ready?
      && t == if s.current.Some? && s.current.value.id == id
              then s.(cancelled := s.cancelled + {s.current.value.serial}, current := None) else s
    case RebootRequest(refused) =>
      s.handler.Ready? && refused == s.flag && t == s
    case Iterate(next) =>
      && s.actor.Loop? && !s.actor.phase.Done? && (s.actor.phase.AwaitingReboot? ==> next.AwaitingReboot?)
      && t == s.(flag := true, actor := Loop(s.actor.run, next))
    case Leave =>
      s.actor.Loop? && s.actor.phase.Done? && t == s.(flag := false, actor := Leaving(s.actor.run))
    case Close =>
      s.actor.Leaving? && t == s.(actor := Receiving)
    case Receive =>
      && s.actor.Receiving? && s.queue != []
      && t == s.(queue := s.queue[1..], actor := Loop(Serving(s.queue[0]), Working))
  }

  /** Start-up: the actor enters its first run, idle or with a pending update. */
  ghost predicate Initial(s: State) {
    && s.flag == false && s.queue == [] && s.current == None && s.cancelled == {} && s.serial == 0
    && s.handler.Ready? && s.actor.Loop? && s.actor.run.Startup? && !s.actor.phase.AwaitingReboot?
  }

  /** A finite execution: one more state than actions. */
  ghost predicate Execution(states: seq<State>, actions: seq<Action>) {
    |states| == |actions| + 1 && forall i | 0 <= i < |actions| :: Step(states[i], actions[i], states[i + 1])
  }

  /** The state after the handler took in a request without interruption. */
  function Queued(s: State, m: Message): State {
    s.(flag := true, queue := s.queue + [m], current := Some(m), serial := s.serial + 1, handler := Ready)
  }

  /** The state after the handler was asked for an update and not interrupted. */
  function Handled(s: State, id: OtaId): State {
    var (current, reply) := Check(s.current, s.flag, id);
    if reply.Accepted? then Queued(s, Message(id, s.serial)) else s.(current := current)
  }

  predicate Continues(a: Action) {
    a.Raise? || a.Send? || a.Settle?
  }

  /** What one uninterrupted call does is what the handler's steps do in a row: `Update` alone if the request is
      not accepted, else also `Raise`, `Send` and `Settle`. */
  lemma StepsInARow(states: seq<State>, actions: seq<Action>)
    requires Execution(states, actions) && actions != [] && actions[0].Update?
    requires forall k | 0 < k < |actions| :: Continues(actions[k])
    requires states[|actions|].handler.Ready?
    ensures states[|actions|] == Handled(states[0], actions[0].id)
    ensures |actions| == if actions[0].reply.Accepted? then 4 else 1
  {
    assert Step(states[0], actions[0], states[1]);
    if |actions| > 1 {
      assert Step(states[1], actions[1], states[2]);
    }
    if |actions| > 2 {
      assert Step(states[2], actions[2], states[3]);
    }
    if |actions| > 3 {
      assert Step(states[3], actions[3], states[4]);
    }
    if |actions| > 4 {
      assert Step(states[4], actions[4], states[5]);
    }
  }

  /** The phases are those of the engine's statuses. */
  function PhaseOf(status: OtaStatus): Phase {
    if status.Idle? then Done else if status.Rebooting? then AwaitingReboot else Working
  }

  /** An iteration of the engine moves between phases as the protocol allows. */
  lemma TurnsArePhases(status: OtaStatus, step: OtaEngine.Step, d: OtaEngine.Device, file: OtaEngine.Stored,
                       env: OtaEngine.Environment, token: OtaEngine.Token, check: bool)
    requires !status.Idle? && step == OtaEngine.Next(d, file, status, env)
    ensures var next := PhaseOf(OtaEngine.TurnOf(status, step, token, check).status);
      PhaseOf(status).AwaitingReboot? ==> next.AwaitingReboot?
  {
  }

  // ----- The flag of an accepted request -----

  predicate Outside(s: State) {
    s.actor.Leaving? || s.actor.Receiving?
  }

  predicate LeavesRunOf(s: State, a: Action, m: Message) {
    a.Leave? && s.actor == Loop(Serving(m), Done)
  }

  /** The request is on its way to an actor outside its loop, or in its own run; the flag is up. */
  ghost predicate Holds(s: State, m: Message) {
    && s.flag
    && ((Outside(s) && s.queue == [] && s.handler == Raised(m)) ||
        (Outside(s) && s.queue != [] && s.queue[0] == m) ||
        (s.actor.Loop? && s.actor.run == Serving(m)))
  }

  lemma HoldsUntilLeft(s: State, a: Action, t: State, m: Message)
    requires Holds(s, m) && Step(s, a, t) && !LeavesRunOf(s, a, m)
    ensures Holds(t, m)
  {
  }

  /** The flag of a request accepted while the queue is empty and the actor is outside its loop stays
      up, whatever both processes do, until that request's own run leaves the loop. */
  lemma {:induction false} FlagStaysUp(states: seq<State>, actions: seq<Action>, i: nat, j: nat, m: Message)
    requires Execution(states, actions) && i < j < |states|
    requires actions[i].Raise? && states[i].handler == Accepting(m) && states[i].queue == [] && Outside(states[i])
    requires forall k | i < k < j :: !LeavesRunOf(states[k], actions[k], m)
    ensures Holds(states[j], m)
    decreases j
  {
    assert Step(states[j - 1], actions[j - 1], states[j]);
    if i < j - 1 {
      FlagStaysUp(states, actions, i, j - 1, m);
      HoldsUntilLeft(states[j - 1], actions[j - 1], states[j], m);
    }
  }

  /** In addition nothing but this request is known to the handler. */
  ghost predicate Tracked(s: State, m: Message) {
    && Holds(s, m)
    && (s.handler == Raised(m) || s.handler == Sent(m) || (s.handler.Ready? && s.current == Some(m)))
  }

  lemma TrackedUntilLeft(s: State, a: Action, t: State, m: Message)
    requires Tracked(s, m) && Step(s, a, t) && !LeavesRunOf(s, a, m) && a != Cancel(m.id)
    ensures Tracked(t, m)
    ensures a.Update? ==> a.reply == if a.id == m.id then Dropped else AlreadyInProgress(a.id)
    ensures a.RebootRequest? ==> a.refused
  {
  }

  /** Meanwhile, unless the request is cancelled, any other update is answered with
      `UpdateAlreadyInProgress`, the same one is dropped, and a reboot command is refused. */
  lemma {:induction false} OthersAreRefused(states: seq<State>, actions: seq<Action>, i: nat, j: nat, m: Message)
    requires Execution(states, actions) && i < j < |actions|
    requires actions[i].Raise? && states[i].handler == Accepting(m) && states[i].queue == [] && Outside(states[i])
    requires forall k | i < k <= j :: actions[k] != Cancel(m.id) && !LeavesRunOf(states[k], actions[k], m)
    ensures Tracked(states[j], m)
    ensures actions[j].Update? ==>
              actions[j].reply == if actions[j].id == m.id then Dropped else AlreadyInProgress(actions[j].id)
    ensures actions[j].RebootRequest? ==> actions[j].refused
    decreases j
  {
    assert Step(states[j - 1], actions[j - 1], states[j]);
    if i < j - 1 {
      OthersAreRefused(states, actions, i, j - 1, m);
      TrackedUntilLeft(states[j - 1], actions[j - 1], states[j], m);
    }
    assert Step(states[j], actions[j], states[j + 1]);
    TrackedUntilLeft(states[j], actions[j], states[j + 1], m);
  }

  // ----- Exactly when the flag can be lost -----

  /** The serials of all requests that exist, each below the next serial; an unsent request is unseen. */
  ghost predicate Consistent(s: State) {
    && (forall m <- s.queue :: m.serial < s.serial)
    && (s.actor.Loop? && s.actor.run.Serving? ==> s.actor.run.message.serial < s.serial)
    && (!s.handler.Ready? ==> s.handler.message.serial < s.serial)
    && (s.handler.Accepting? || s.handler.Raised? ==>
         && (forall m <- s.queue :: m.serial != s.handler.message.serial)
         && (s.actor.Loop? && s.actor.run.Serving? ==> s.actor.run.message.serial != s.handler.message.serial))
  }

  lemma {:induction false} AlwaysConsistent(states: seq<State>, actions: seq<Action>, j: nat)
    requires Execution(states, actions) && Initial(states[0]) && j < |states|
    ensures Consistent(states[j])
    decreases j
  {
    if j > 0 {
      AlwaysConsistent(states, actions, j - 1);
      StaysConsistent(states[j - 1], actions[j - 1], states[j]);
    }
  }

  lemma StaysConsistent(s: State, a: Action, t: State)
    requires Consistent(s) && Step(s, a, t)
    ensures Consistent(t)
  {
    assert a.Receive? ==> s.queue[0] in s.queue && forall m <- t.queue :: m in s.queue;
  }

  /** Some continuation lowers the flag although the run of `m` has not left the loop. */
  ghost predicate CanLoseFlag(s: State, m: Message) {
    exists states: seq<State>, actions: seq<Action> ::
      && Execution(states, actions) && states[0] == s && !states[|actions|].flag
      && forall k | 0 <= k < |actions| :: !LeavesRunOf(states[k], actions[k], m)
  }

  lemma {:induction false} WaitingKeepsFlag(states: seq<State>, actions: seq<Action>, j: nat)
    requires Execution(states, actions) && j < |states|
    requires states[0].flag && states[0].actor.Loop? && states[0].actor.phase.AwaitingReboot?
    ensures states[j].flag && states[j].actor == states[0].actor
    decreases j
  {
    if j > 0 {
      WaitingKeepsFlag(states, actions, j - 1);
      assert Step(states[j - 1], actions[j - 1], states[j]);
    }
  }

  lemma {:induction false} HoldingKeepsFlag(states: seq<State>, actions: seq<Action>, j: nat, m: Message)
    requires Execution(states, actions) && j < |states| && Holds(states[0], m)
    requires forall k | 0 <= k < j :: !LeavesRunOf(states[k], actions[k], m)
    ensures Holds(states[j], m)
    decreases j
  {
    if j > 0 {
      HoldingKeepsFlag(states, actions, j - 1, m);
      assert Step(states[j - 1], actions[j - 1], states[j]);
      HoldsUntilLeft(states[j - 1], actions[j - 1], states[j], m);
    }
  }

  /** One step that does not end the run of `m`, followed by a loss of the flag. */
  lemma LosesFlagLater(s: State, a: Action, t: State, m: Message)
    requires Step(s, a, t) && !LeavesRunOf(s, a, m) && (!t.flag || CanLoseFlag(t, m))
    ensures CanLoseFlag(s, m)
  {
    if !t.flag {
      var states, actions := [s, t], [a];
      assert Execution(states, actions) && states[|actions|] == t;
    } else {
      var states: seq<State>, actions: seq<Action> :|
        Execution(states, actions) && states[0] == t && !states[|actions|].flag
        && forall k | 0 <= k < |actions| :: !LeavesRunOf(states[k], actions[k], m);
      var states', actions' := [s] + states, [a] + actions;
      forall k | 0 <= k < |actions'|
        ensures Step(states'[k], actions'[k], states'[k + 1]) && !LeavesRunOf(states'[k], actions'[k], m)
      {
        if k == 0 {
          assert states'[1] == states[0];
        } else {
          assert states'[k] == states[k - 1] && actions'[k] == actions[k - 1] && states'[k + 1] == states[k];
        }
      }
      assert Execution(states', actions') && states'[|actions'|] == states[|actions|];
    }
  }

  lemma RunCanEnd(s: State, m: Message)
    requires s.actor.Loop? && s.actor.run != Serving(m) && !s.actor.phase.AwaitingReboot?
    ensures CanLoseFlag(s, m)
  {
    if s.actor.phase.Working? {
      var t := s.(flag := true, actor := Loop(s.actor.run, Done));
      LosesFlagLater(t, Leave, t.(flag := false, actor := Leaving(s.actor.run)), m);
      LosesFlagLater(s, Iterate(Done), t, m);
    } else {
      LosesFlagLater(s, Leave, s.(flag := false, actor := Leaving(s.actor.run)), m);
    }
  }

  /** The flag of a request that was just accepted is safe exactly when the actor was outside its loop
      with nothing queued, or waits for a reboot and will never leave its run. */
  lemma FlagIsSafeExactlyWhenAlone(s: State, m: Message)
    requires Consistent(s) && s.handler == Raised(m) && s.flag
    ensures !CanLoseFlag(s, m) <==>
      (Outside(s) && s.queue == []) || (s.actor.Loop? && s.actor.phase.AwaitingReboot?)
  {
    if CanLoseFlag(s, m) {
      var states: seq<State>, actions: seq<Action> :|
        Execution(states, actions) && states[0] == s && !states[|actions|].flag
        && forall k | 0 <= k < |actions| :: !LeavesRunOf(states[k], actions[k], m);
      if Outside(s) && s.queue == [] {
        HoldingKeepsFlag(states, actions, |actions|, m);
      } else if s.actor.Loop? && s.actor.phase.AwaitingReboot? {
        WaitingKeepsFlag(states, actions, |actions|);
      }
    }
    if s.actor.Loop? && !s.actor.phase.AwaitingReboot? {
      RunCanEnd(s, m);
    } else if Outside(s) && s.queue != [] {
      var r := s.(actor := Receiving);
      var t := r.(queue := s.queue[1..], actor := Loop(Serving(s.queue[0]), Working));
      assert s.queue[0] in s.queue;
      RunCanEnd(t, m);
      LosesFlagLater(r, Receive, t, m);
      if s.actor.Leaving? {
        LosesFlagLater(s, Close, r, m);
      } else {
        assert r == s;
      }
    }
  }

  ghost predicate Reaches(s: State, t: State) {
    exists states: seq<State>, actions: seq<Action> ::
      Execution(states, actions) && states[0] == s && states[|actions|] == t
  }

  lemma ReachesNext(s: State, t: State, a: Action, u: State)
    requires (s == t || Reaches(s, t)) && Step(t, a, u)
    ensures Reaches(s, u)
  {
    if s == t {
      assert Execution([s, u], [a]);
    } else {
      var states: seq<State>, actions: seq<Action> :|
        Execution(states, actions) && states[0] == s && states[|actions|] == t;
      var states', actions' := states + [u], actions + [a];
      forall k | 0 <= k < |actions'|
        ensures Step(states'[k], actions'[k], states'[k + 1])
      {
        if k < |actions| {
          assert Step(states[k], actions[k], states[k + 1]);
        }
      }
      assert Execution(states', actions');
    }
  }

  /** With room in the queue the handler can get there, whatever it makes of the request. */
  lemma ReachesHandled(s: State, t: State, id: OtaId)
    requires (s == t || Reaches(s, t)) && t.handler.Ready? && |t.queue| < MAX_OTA_OPERATION
    ensures Reaches(s, Handled(t, id))
  {
    hide Reaches;
    var (current, reply) := Check(t.current, t.flag, id);
    if reply.Accepted? {
      var m := Message(id, t.serial);
      var u := t.(current := current, handler := Accepting(m), serial := t.serial + 1);
      ReachesNext(s, t, Update(id, Accepted), u);
      var v := u.(flag := true, handler := Raised(m));
      ReachesNext(s, u, Raise, v);
      var w := v.(queue := v.queue + [m], handler := Sent(m));
      ReachesNext(s, v, Send, w);
      ReachesNext(s, w, Settle, w.(current := Some(m), handler := Ready));
      assert w.(current := Some(m), handler := Ready) == Queued(t, m);
    } else {
      ReachesNext(s, t, Update(id, reply), t.(current := current));
    }
  }

  /** Every run of the engine is a run of the actor: it raises the flag with each turn, and lowers it and goes
      back to the queue exactly if the engine leaves its loop. */
  lemma {:induction false} RunsAreExecutions(r: State, s: State, run: Run, d: OtaEngine.Device,
                                             file: OtaEngine.Stored, status: OtaStatus,
                                             envs: seq<OtaEngine.Environment>, token: OtaEngine.Token, check: bool,
                                             close: OtaEngine.Closing)
    requires (r == s || Reaches(r, s)) && s.actor == Loop(run, PhaseOf(status))
    ensures var result := OtaEngine.Run(d, file, status, envs, token, check, close);
      var t := if result.left then s.(flag := false, actor := Receiving)
               else s.(flag := s.flag || envs != [], actor := Loop(run, PhaseOf(result.status)));
      r == t || Reaches(r, t)
    decreases |envs|
  {
    hide Reaches;
    if status.Idle? {
      ReachesNext(r, s, Leave, s.(flag := false, actor := Leaving(run)));
      ReachesNext(r, s.(flag := false, actor := Leaving(run)), Close, s.(flag := false, actor := Receiving));
    } else if envs == [] {
      assert s.(flag := s.flag || false, actor := Loop(run, PhaseOf(status))) == s;
    } else {
      var step := OtaEngine.Next(d, file, status, envs[0]);
      var t := OtaEngine.TurnOf(status, step, token, check);
      TurnsArePhases(status, step, d, file, envs[0], token, check);
      hide OtaEngine.Next, OtaEngine.TurnOf, OtaEngine.Replay;
      var u := s.(flag := true, actor := Loop(run, PhaseOf(t.status)));
      ReachesNext(r, s, Iterate(PhaseOf(t.status)), u);
      RunsAreExecutions(r, u, run, d, OtaEngine.Replay(file, t.effects), t.status, envs[1..], t.token, t.check, close);
    }
  }

  /** The flag is lost in practice: a request that follows a cancellation can find the flag down while
      it is still queued, so that a reboot is allowed and a third request is accepted as well. */
  lemma CancelledRunLowersTheNextFlag(first: OtaId, second: OtaId, third: OtaId)
    requires first != second
    ensures exists s, t ::
      && Initial(s) && Reaches(s, t)
      && t.queue == [Message(second, 1)] && t.current == Some(Message(second, 1)) && !t.flag
      && Step(t, RebootRequest(false), t)
      && Check(t.current, t.flag, third).1 == Accepted
  {
    hide Reaches;
    var a, b := Message(first, 0), Message(second, 1);
    var s := State(false, [], None, {}, 0, Ready, Loop(Startup, Done));
    var t := s.(actor := Leaving(Startup));
    ReachesNext(s, s, Leave, t);
    var u := t.(actor := Receiving);
    ReachesNext(s, t, Close, u);
    ReachesHandled(s, u, first);
    t := Queued(u, a).(queue := [], actor := Loop(Serving(a), Working));
    ReachesNext(s, Queued(u, a), Receive, t);
    u := t.(cancelled := {0}, current := None);
    ReachesNext(s, t, Cancel(first), u);
    ReachesHandled(s, u, second);
    t := Queued(u, b).(actor := Loop(Serving(a), Done));
    ReachesNext(s, Queued(u, b), Iterate(Done), t);
    u := t.(flag := false, actor := Leaving(Serving(a)));
    ReachesNext(s, t, Leave, u);
    assert Initial(s);
  }
}
