/**
 * The command channel to the Workers: requests correlated with responses, each under a timer. A
 * ticket numbers the calls of `dispatch`; `settled` is what became of each returned promise.
 */
module WorkerChannel {
  import opened Wrappers

  type WorkerId = nat
  type SocketId = nat
  type RequestId = nat
  type MessageType = nat
  type Ticket = nat

  datatype Command = Command(worker: WorkerId, id: RequestId, requestType: MessageType)

  datatype Pending = Pending(worker: WorkerId, requestType: MessageType, ticket: Ticket)

  /** `Resolved` names the Worker and the request type of the response that resolved the promise. */
  datatype Outcome =
    | NotConnected | DuplicateRequest | ConnectionClosed | TimedOut | Mismatched
    | Resolved(worker: WorkerId, requestType: MessageType, ok: bool)

  datatype Channel = Channel(
    connections: map<WorkerId, SocketId>, pending: map<RequestId, Pending>, timers: set<Ticket>,
    commands: seq<Command>, settled: map<Ticket, Outcome>)

  function Lookup<K, V>(m: map<K, V>, k: K): Option<V> {
    if k in m then Some(m[k]) else None
  }

  /** `ready`: the Worker's socket is open; `sends`: sending on it does not throw. */
  function Dispatched(c: Channel, command: Command, ready: bool, sends: bool): Channel {
    var ticket := |c.commands|;
    var next := c.(commands := c.commands + [command]);
    if command.worker !in c.connections || !ready then next.(settled := c.settled[ticket := NotConnected])
    else if command.id in c.pending then next.(settled := c.settled[ticket := DuplicateRequest])
    else if !sends then next.(settled := c.settled[ticket := ConnectionClosed])
    else
      next.(
        pending := c.pending[command.id := Pending(command.worker, command.requestType, ticket)],
        timers := c.timers + {ticket})
  }

  /** Removes a pending command, stops its timer and settles its promise. */
  function Settled(c: Channel, id: RequestId, outcome: Outcome): Channel
    requires id in c.pending
  {
    var ticket := c.pending[id].ticket;
    c.(pending := c.pending - {id}, timers := c.timers - {ticket}, settled := c.settled[ticket := outcome])
  }

  function OfWorker(c: Channel, worker: WorkerId): set<RequestId> {
    set id | id in c.pending && c.pending[id].worker == worker
  }

  function TicketsOf(c: Channel, ids: set<RequestId>): set<Ticket> {
    set id | id in ids && id in c.pending :: c.pending[id].ticket
  }

  function Closed(c: Channel, ids: set<RequestId>): Channel {
    var tickets := TicketsOf(c, ids);
    c.(pending := c.pending - ids, timers := c.timers - tickets,
       settled := map t | t in c.settled.Keys + tickets :: if t in tickets then ConnectionClosed else c.settled[t])
  }

  function Unregistered(c: Channel, worker: WorkerId, socket: SocketId): Channel {
    if Lookup(c.connections, worker) != Some(socket) then c
    else Closed(c.(connections := c.connections - {worker}), OfWorker(c, worker))
  }

  function Accepted(c: Channel, worker: WorkerId, id: RequestId, requestType: MessageType, ok: bool): (Channel, bool) {
    if id !in c.pending || c.pending[id].worker != worker then (c, false)
    else if c.pending[id].requestType != requestType then (Settled(c, id, Mismatched), false)
    else (Settled(c, id, Resolved(worker, requestType, ok)), true)
  }

  /** The timer callback of a ticket, which removes whatever is pending under its request ID. */
  function Fired(c: Channel, ticket: Ticket): Channel
    requires ticket in c.timers && ticket < |c.commands|
  {
    c.(pending := c.pending - {c.commands[ticket].id}, timers := c.timers - {ticket}, settled := c.settled[ticket := TimedOut])
  }

  class WorkerChannel {
    var connections: map<WorkerId, SocketId>
    var pending: map<RequestId, Pending>
    var timers: set<Ticket>
    var commands: seq<Command>
    var settled: map<Ticket, Outcome>

    function State(): Channel
      reads this
    {
      Channel(connections, pending, timers, commands, settled)
    }

    constructor ()
      ensures State() == Channel(map[], map[], {}, [], map[])
    {
      connections, pending, timers, commands, settled := map[], map[], {}, [], map[];
    }

    /** Returns the socket to close: a superseded one closes, and unregisters, later. */
    method Register(workerId: WorkerId, socket: SocketId) returns (superseded: Option<SocketId>)
      modifies this
      ensures State() == old(State()).(connections := old(connections)[workerId := socket])
      ensures superseded == if Lookup(old(connections), workerId) == Some(socket) then None else Lookup(old(connections), workerId)
    {
      superseded := None;
      if workerId in connections && connections[workerId] != socket { superseded := Some(connections[workerId]); }
      connections := connections[workerId := socket];
    }

    method Settle(id: RequestId, outcome: Outcome)
      requires id in pending
      modifies this
      ensures State() == Settled(old(State()), id, outcome)
    {
      timers := timers - {pending[id].ticket};
      settled := settled[pending[id].ticket := outcome];
      pending := pending - {id};
    }

    method CloseCommands(workerId: WorkerId)
      modifies this
      ensures State() == Closed(old(State()), OfWorker(old(State()), workerId))
    {
      ghost var start := State();
      ghost var ofWorker := OfWorker(start, workerId);
      ghost var closed: set<RequestId> := {};
      ClosedNone(start);
      hide TicketsOf, Settled, Closed;
      var left := pending.Keys;
      while left != {}
        invariant forall id :: id in left ==> id in start.pending
        invariant forall id :: id in closed <==> id in ofWorker && id !in left
        invariant State() == Closed(start, closed)
        decreases |left|
      {
        var id :| id in left;
        left := left - {id};
        ClosedPending(start, closed, id);
        if pending[id].worker == workerId {
          ClosedOneMore(start, closed, id);
          closed := closed + {id};
          Settle(id, ConnectionClosed);
        }
      }
      assert closed == ofWorker;
    }

    method Unregister(workerId: WorkerId, socket: SocketId)
      requires Consistent(State())
      modifies this
      ensures Consistent(State())
      ensures State() == Unregistered(old(State()), workerId, socket)
    {
      UnregisterKeeps(State(), workerId, socket);
      UnregisteredCloses(State(), workerId, socket);
      hide Consistent, Closed, Unregistered;
      if workerId !in connections || connections[workerId] != socket { return; }
      connections := connections - {workerId};
      CloseCommands(workerId);
    }

    method Dispatch(workerId: WorkerId, requestId: RequestId, requestType: MessageType, ready: bool, sends: bool)
      returns (ticket: Ticket)
      requires Consistent(State())
      modifies this
      ensures Consistent(State())
      ensures ticket == |old(commands)|
      ensures State() == Dispatched(old(State()), Command(workerId, requestId, requestType), ready, sends)
    {
      DispatchKeeps(State(), Command(workerId, requestId, requestType), ready, sends);
      assert TicketOk(State(), |commands|);
      hide Consistent, Extends;
      ticket := |commands|;
      commands := commands + [Command(workerId, requestId, requestType)];
      if workerId !in connections || !ready {
        settled := settled[ticket := NotConnected];
        return;
      }
      if requestId in pending {
        settled := settled[ticket := DuplicateRequest];
        return;
      }
      timers := timers + {ticket};
      pending := pending[requestId := Pending(workerId, requestType, ticket)];
      if !sends {
        // The command and its timer are taken back before anything else runs.
        timers := timers - {ticket};
        pending := pending - {requestId};
        settled := settled[ticket := ConnectionClosed];
        assert timers == old(timers) && pending == old(pending);
      }
    }

    method AcceptResponse(workerId: WorkerId, requestId: RequestId, requestType: MessageType, ok: bool) returns (accepted: bool)
      requires Consistent(State())
      modifies this
      ensures Consistent(State())
      ensures (State(), accepted) == Accepted(old(State()), workerId, requestId, requestType, ok)
      ensures accepted <==>
        requestId in old(pending) && old(pending)[requestId].worker == workerId && old(pending)[requestId].requestType == requestType
    {
      AcceptKeeps(State(), workerId, requestId, requestType, ok);
      hide Consistent;
      if requestId !in pending { return false; }
      if pending[requestId].worker != workerId { return false; }
      if pending[requestId].requestType != requestType {
        Settle(requestId, Mismatched);
        return false;
      }
      Settle(requestId, Resolved(workerId, requestType, ok));
      return true;
    }

    method FireTimer(ticket: Ticket)
      requires Consistent(State()) && ticket in timers && ticket < |commands|
      modifies this
      ensures Consistent(State())
      ensures State() == Fired(old(State()), ticket)
    {
      FireKeeps(State(), ticket);
      hide Consistent;
      timers := timers - {ticket};
      pending := pending - {commands[ticket].id};
      settled := settled[ticket := TimedOut];
    }
  }

  // ---------------------------------------------------------------- what every state keeps

  predicate IdOk(c: Channel, id: RequestId) {
    id in c.pending ==>
      var p := c.pending[id];
      && p.ticket < |c.commands| && c.commands[p.ticket] == Command(p.worker, id, p.requestType)
      && p.ticket in c.timers
  }

  predicate TicketOk(c: Channel, t: Ticket) {
    && (t in c.timers ==> t < |c.commands| && c.commands[t].id in c.pending && c.pending[c.commands[t].id].ticket == t)
    && (t in c.settled ==> t < |c.commands| && t !in c.timers)
    && (t < |c.commands| ==> t in c.settled || t in c.timers)
    && (t in c.settled && c.settled[t].Resolved? ==>
        c.settled[t].worker == c.commands[t].worker && c.settled[t].requestType == c.commands[t].requestType)
  }

  /** A command is pending exactly while it is unsettled, and then under a live timer of its own. */
  ghost predicate Consistent(c: Channel) {
    (forall id :: IdOk(c, id)) && (forall t: Ticket :: TicketOk(c, t))
  }

  lemma ClosedOneMore(c: Channel, ids: set<RequestId>, id: RequestId)
    requires id in c.pending && id !in ids
    ensures id in Closed(c, ids).pending
    ensures Closed(c, ids + {id}) == Settled(Closed(c, ids), id, ConnectionClosed)
  {
    var ticket := c.pending[id].ticket;
    var tickets, more := TicketsOf(c, ids), TicketsOf(c, ids + {id});
    assert more == tickets + {ticket};
    hide TicketsOf;
    assert c.pending - (ids + {id}) == c.pending - ids - {id};
    assert c.timers - more == c.timers - tickets - {ticket};
    assert Closed(c, ids + {id}).settled == Closed(c, ids).settled[ticket := ConnectionClosed];
  }

  lemma ClosedNone(c: Channel)
    ensures Closed(c, {}) == c
  {
    assert TicketsOf(c, {}) == {};
    assert Closed(c, {}).settled == c.settled && Closed(c, {}).pending == c.pending;
  }

  lemma ClosedPending(c: Channel, ids: set<RequestId>, id: RequestId)
    requires id in c.pending && id !in ids
    ensures id in Closed(c, ids).pending && Closed(c, ids).pending[id] == c.pending[id]
  {
  }

  lemma UnregisteredCloses(c: Channel, worker: WorkerId, socket: SocketId)
    ensures Lookup(c.connections, worker) != Some(socket) ==> Unregistered(c, worker, socket) == c
    ensures Lookup(c.connections, worker) == Some(socket) ==>
      var d := c.(connections := c.connections - {worker}); Unregistered(c, worker, socket) == Closed(d, OfWorker(d, worker))
  {
    assert OfWorker(c.(connections := c.connections - {worker}), worker) == OfWorker(c, worker);
  }

  datatype Step =
    | Register(worker: WorkerId, socket: SocketId)
    | Unregister(worker: WorkerId, socket: SocketId)
    | Dispatch(command: Command, ready: bool, sends: bool)
    | Accept(worker: WorkerId, id: RequestId, requestType: MessageType, ok: bool)
    | Fire(ticket: Ticket)

  predicate Enabled(c: Channel, step: Step) {
    step.Fire? ==> step.ticket in c.timers && step.ticket < |c.commands|
  }

  function Apply(c: Channel, step: Step): Channel
    requires Enabled(c, step)
  {
    match step
    case Register(worker, socket) => c.(connections := c.connections[worker := socket])
    case Unregister(worker, socket) => Unregistered(c, worker, socket)
    case Dispatch(command, ready, sends) => Dispatched(c, command, ready, sends)
    case Accept(worker, id, requestType, ok) => Accepted(c, worker, id, requestType, ok).0
    case Fire(ticket) => Fired(c, ticket)
  }

  ghost predicate IsRun(states: seq<Channel>, steps: seq<Step>) {
    && |states| == |steps| + 1
    && states[0] == Channel(map[], map[], {}, [], map[])
    && forall k :: 0 <= k < |steps| ==> Enabled(states[k], steps[k]) && states[k + 1] == Apply(states[k], steps[k])
  }

  /** What the two states of a step have in common: nothing settled is ever settled again. */
  ghost predicate Extends(d: Channel, c: Channel) {
    && (forall t :: t in c.settled ==> t in d.settled && d.settled[t] == c.settled[t])
    && c.commands <= d.commands
  }

  lemma ClosedKeeps(c: Channel, worker: WorkerId)
    requires Consistent(c)
    ensures var d := Closed(c, OfWorker(c, worker)); Consistent(d) && OfWorker(d, worker) == {} && Extends(d, c)
  {
    var ids := OfWorker(c, worker);
    var d := Closed(c, ids);
    forall id ensures IdOk(d, id) {
      assert IdOk(c, id);
      if id in d.pending { UnclosedTicket(c, ids, id); }
    }
    forall t: Ticket ensures TicketOk(d, t) && (t in c.settled ==> t in d.settled && d.settled[t] == c.settled[t]) {
      assert TicketOk(c, t);
      ClosedTicket(c, ids, t);
    }
  }

  lemma SettledKeeps(c: Channel, id: RequestId, outcome: Outcome)
    requires Consistent(c) && id in c.pending
    requires outcome.Resolved? ==> outcome.worker == c.pending[id].worker && outcome.requestType == c.pending[id].requestType
    ensures Consistent(Settled(c, id, outcome)) && Extends(Settled(c, id, outcome), c)
  {
    var d := Settled(c, id, outcome);
    assert IdOk(c, id) && TicketOk(c, c.pending[id].ticket);
    forall other ensures IdOk(d, other) { assert IdOk(c, other); }
    forall t: Ticket ensures TicketOk(d, t) { assert TicketOk(c, t); }
  }

  lemma UnclosedTicket(c: Channel, ids: set<RequestId>, id: RequestId)
    requires Consistent(c) && id in c.pending && id !in ids
    ensures c.pending[id].ticket !in TicketsOf(c, ids)
  {
    assert IdOk(c, id);
    forall other | other in ids && other in c.pending ensures c.pending[other].ticket != c.pending[id].ticket {
      assert IdOk(c, other);
    }
  }

  lemma ClosedTicket(c: Channel, ids: set<RequestId>, t: Ticket)
    requires Consistent(c) && ids <= c.pending.Keys
    ensures t in TicketsOf(c, ids) <==> t in c.timers && t < |c.commands| && c.commands[t].id in ids
  {
    assert TicketOk(c, t);
    if t in TicketsOf(c, ids) {
      var id :| id in ids && id in c.pending && c.pending[id].ticket == t;
      assert IdOk(c, id);
    }
  }

  /** A command that is settled before its promise is returned. */
  lemma RefusedKeeps(c: Channel, command: Command, outcome: Outcome)
    requires Consistent(c) && !outcome.Resolved?
    ensures var d := c.(commands := c.commands + [command], settled := c.settled[|c.commands| := outcome]);
      Consistent(d) && Extends(d, c)
  {
    var d := c.(commands := c.commands + [command], settled := c.settled[|c.commands| := outcome]);
    assert TicketOk(c, |c.commands|);
    forall id ensures IdOk(d, id) { assert IdOk(c, id); }
    forall t: Ticket ensures TicketOk(d, t) { assert TicketOk(c, t); }
  }

  lemma PendingKeeps(c: Channel, command: Command)
    requires Consistent(c) && command.id !in c.pending
    ensures var ticket := |c.commands|;
      var d := c.(
        commands := c.commands + [command],
        pending := c.pending[command.id := Pending(command.worker, command.requestType, ticket)], timers := c.timers + {ticket});
      Consistent(d) && Extends(d, c)
  {
    var ticket := |c.commands|;
    var d := c.(
      commands := c.commands + [command],
      pending := c.pending[command.id := Pending(command.worker, command.requestType, ticket)], timers := c.timers + {ticket});
    assert TicketOk(c, ticket);
    forall id ensures IdOk(d, id) { assert IdOk(c, id); }
    forall t: Ticket ensures TicketOk(d, t) { assert TicketOk(c, t); }
  }

  lemma DispatchKeeps(c: Channel, command: Command, ready: bool, sends: bool)
    requires Consistent(c)
    ensures Consistent(Dispatched(c, command, ready, sends)) && Extends(Dispatched(c, command, ready, sends), c)
  {
    hide Consistent, Extends;
    RefusedKeeps(c, command, NotConnected);
    RefusedKeeps(c, command, DuplicateRequest);
    RefusedKeeps(c, command, ConnectionClosed);
    if command.id !in c.pending { PendingKeeps(c, command); }
  }

  lemma RegisterKeeps(c: Channel, worker: WorkerId, socket: SocketId)
    requires Consistent(c)
    ensures var d := c.(connections := c.connections[worker := socket]); Consistent(d) && Extends(d, c)
  {
    var d := c.(connections := c.connections[worker := socket]);
    forall id ensures IdOk(d, id) { assert IdOk(c, id); }
    forall t: Ticket ensures TicketOk(d, t) { assert TicketOk(c, t); }
  }

  lemma UnregisterKeeps(c: Channel, worker: WorkerId, socket: SocketId)
    requires Consistent(c)
    ensures Consistent(Unregistered(c, worker, socket)) && Extends(Unregistered(c, worker, socket), c)
  {
    var d := c.(connections := c.connections - {worker});
    assert OfWorker(d, worker) == OfWorker(c, worker);
    forall id ensures IdOk(d, id) { assert IdOk(c, id); }
    forall t: Ticket ensures TicketOk(d, t) { assert TicketOk(c, t); }
    ClosedKeeps(d, worker);
    hide Consistent, Closed;
  }

  lemma AcceptKeeps(c: Channel, worker: WorkerId, id: RequestId, requestType: MessageType, ok: bool)
    requires Consistent(c)
    ensures Consistent(Accepted(c, worker, id, requestType, ok).0) && Extends(Accepted(c, worker, id, requestType, ok).0, c)
  {
    if id in c.pending {
      SettledKeeps(c, id, Mismatched);
      if c.pending[id].worker == worker && c.pending[id].requestType == requestType {
        SettledKeeps(c, id, Resolved(worker, requestType, ok));
      }
    }
    hide Consistent;
  }

  lemma FireKeeps(c: Channel, ticket: Ticket)
    requires Consistent(c) && ticket in c.timers && ticket < |c.commands|
    ensures Consistent(Fired(c, ticket)) && Extends(Fired(c, ticket), c)
  {
    assert TicketOk(c, ticket);
    assert Fired(c, ticket) == Settled(c, c.commands[ticket].id, TimedOut);
    SettledKeeps(c, c.commands[ticket].id, TimedOut);
    hide Consistent;
  }

  lemma KeepsConsistent(c: Channel, step: Step)
    requires Enabled(c, step) && Consistent(c)
    ensures Consistent(Apply(c, step)) && Extends(Apply(c, step), c)
  {
    match step
    case Register(worker, socket) => RegisterKeeps(c, worker, socket);
    case Unregister(worker, socket) => UnregisterKeeps(c, worker, socket);
    case Dispatch(command, ready, sends) => DispatchKeeps(c, command, ready, sends);
    case Accept(worker, id, requestType, ok) => AcceptKeeps(c, worker, id, requestType, ok);
    case Fire(ticket) => FireKeeps(c, ticket);
  }

  lemma {:induction false} ConsistentOnRuns(states: seq<Channel>, steps: seq<Step>, k: nat)
    requires IsRun(states, steps) && k < |states|
    ensures Consistent(states[k])
  {
    if k > 0 {
      ConsistentOnRuns(states, steps, k - 1);
      KeepsConsistent(states[k - 1], steps[k - 1]);
      assert states[k - 1 + 1] == Apply(states[k - 1], steps[k - 1]);
    }
  }

  /** A dispatched command is pending, under a live timer, exactly while it has not settled. */
  lemma PendingIffUnsettled(states: seq<Channel>, steps: seq<Step>, k: nat, t: Ticket)
    requires IsRun(states, steps) && k < |states| && t < |states[k].commands|
    ensures var c := states[k];
      && (t !in c.settled <==> t in c.timers)
      && (t !in c.settled <==> exists id :: id in c.pending && c.pending[id].ticket == t)
  {
    ConsistentOnRuns(states, steps, k);
    var c := states[k];
    assert TicketOk(c, t);
    forall id | id in c.pending ensures c.pending[id].ticket == t ==> t in c.timers { assert IdOk(c, id); }
    if t in c.timers { assert c.commands[t].id in c.pending; }
  }

  /** A command settles at most once: what its promise became never changes. */
  lemma {:induction false} SettlesOnce(states: seq<Channel>, steps: seq<Step>, i: nat, j: nat, t: Ticket)
    requires IsRun(states, steps) && i <= j < |states| && t in states[i].settled
    ensures t in states[j].settled && states[j].settled[t] == states[i].settled[t]
    ensures states[i].commands <= states[j].commands
  {
    if i < j {
      SettlesOnce(states, steps, i, j - 1, t);
      ConsistentOnRuns(states, steps, j - 1);
      KeepsConsistent(states[j - 1], steps[j - 1]);
      assert states[j - 1 + 1] == Apply(states[j - 1], steps[j - 1]);
    }
  }

  /** Only a response of the Worker and of the request type it was sent to resolves a command. */
  lemma ResolvedByItsWorker(states: seq<Channel>, steps: seq<Step>, k: nat, t: Ticket)
    requires IsRun(states, steps) && k < |states| && t in states[k].settled && states[k].settled[t].Resolved?
    ensures var c := states[k];
      t < |c.commands| && c.settled[t].worker == c.commands[t].worker && c.settled[t].requestType == c.commands[t].requestType
  {
    ConsistentOnRuns(states, steps, k);
    assert TicketOk(states[k], t);
  }

  /**
   * When the current socket closes, no command of its Worker stays pending and nobody else's is
   * touched; the close of a superseded socket settles nothing.
   */
  lemma UnregisterSettlesItsWorker(states: seq<Channel>, steps: seq<Step>, k: nat)
    requires IsRun(states, steps) && k < |steps| && steps[k].Unregister?
    ensures var c, d := states[k], states[k + 1];
      if Lookup(c.connections, steps[k].worker) == Some(steps[k].socket) then
        && OfWorker(d, steps[k].worker) == {}
        && forall id :: id in c.pending && c.pending[id].worker != steps[k].worker ==>
            id in d.pending && d.pending[id] == c.pending[id]
      else d == c
  {
    ConsistentOnRuns(states, steps, k);
    assert states[k + 1] == Apply(states[k], steps[k]);
    var d := states[k].(connections := states[k].connections - {steps[k].worker});
    assert OfWorker(d, steps[k].worker) == OfWorker(states[k], steps[k].worker);
  }

  // ---------------------------------------------------------------- what exactly ends a command

  /** What the step makes of a command that is under way; `None` when it does not end it. */
  function EndOf(c: Channel, step: Step, t: Ticket): Option<Outcome>
    requires t < |c.commands|
  {
    var command := c.commands[t];
    if step == Fire(t) then Some(TimedOut)
    else if step.Accept? && step.worker == command.worker && step.id == command.id then
      Some(if step.requestType == command.requestType then Resolved(step.worker, step.requestType, step.ok) else Mismatched)
    else if step.Unregister? && step.worker == command.worker && Lookup(c.connections, step.worker) == Some(step.socket) then
      Some(ConnectionClosed)
    else None
  }

  lemma UnsettledIsPending(c: Channel, t: Ticket)
    requires Consistent(c) && t < |c.commands| && t !in c.settled
    ensures t in c.timers && c.commands[t].id in c.pending
    ensures c.pending[c.commands[t].id] == Pending(c.commands[t].worker, c.commands[t].requestType, t)
  {
    assert TicketOk(c, t);
    assert IdOk(c, c.commands[t].id);
  }

  lemma UnregisterEnds(c: Channel, worker: WorkerId, socket: SocketId, t: Ticket)
    requires Consistent(c) && t < |c.commands| && t !in c.settled
    ensures Lookup(Unregistered(c, worker, socket).settled, t)
      == if c.commands[t].worker == worker && Lookup(c.connections, worker) == Some(socket) then Some(ConnectionClosed) else None
  {
    UnsettledIsPending(c, t);
    UnregisteredCloses(c, worker, socket);
    if Lookup(c.connections, worker) == Some(socket) {
      var d := c.(connections := c.connections - {worker});
      assert OfWorker(d, worker) == OfWorker(c, worker);
      var ids := OfWorker(c, worker);
      assert TicketsOf(d, ids) == TicketsOf(c, ids);
      ClosedTicket(c, ids, t);
      hide Consistent, TicketsOf;
    }
  }

  lemma OtherEnds(c: Channel, step: Step, t: Ticket)
    requires Consistent(c) && Enabled(c, step) && !step.Unregister? && t < |c.commands| && t !in c.settled
    ensures Lookup(Apply(c, step).settled, t) == EndOf(c, step, t)
  {
    UnsettledIsPending(c, t);
    if step.Accept? && step.id in c.pending { assert IdOk(c, step.id); }
    if step.Fire? { assert TicketOk(c, step.ticket); }
    hide Consistent;
  }

  /**
   * On every run a command under way ends exactly by its own timer, by a response of its Worker
   * under its request ID, which resolves it with what it says when the type matches, and by the
   * close of its Worker's current socket.
   */
  lemma EndsIff(states: seq<Channel>, steps: seq<Step>, k: nat, t: Ticket)
    requires IsRun(states, steps) && k < |steps| && t < |states[k].commands| && t !in states[k].settled
    ensures Lookup(states[k + 1].settled, t) == EndOf(states[k], steps[k], t)
  {
    ConsistentOnRuns(states, steps, k);
    assert states[k + 1] == Apply(states[k], steps[k]);
    hide Consistent;
    if steps[k].Unregister? {
      UnregisterEnds(states[k], steps[k].worker, steps[k].socket, t);
    } else {
      OtherEnds(states[k], steps[k], t);
    }
  }

  /** The caller is told of success exactly when the response has resolved a command. */
  lemma AcceptedIff(states: seq<Channel>, steps: seq<Step>, k: nat)
    requires IsRun(states, steps) && k < |steps| && steps[k].Accept?
    ensures var c, d, step := states[k], states[k + 1], steps[k];
      Accepted(c, step.worker, step.id, step.requestType, step.ok).1 <==>
        exists t :: 0 <= t < |c.commands| && t !in c.settled && Lookup(d.settled, t) == Some(Resolved(step.worker, step.requestType, step.ok))
  {
    ConsistentOnRuns(states, steps, k);
    var c, d, step := states[k], states[k + 1], steps[k];
    assert d == Apply(c, step);
    if step.id in c.pending {
      assert IdOk(c, step.id) && TicketOk(c, c.pending[step.id].ticket);
      if Accepted(c, step.worker, step.id, step.requestType, step.ok).1 {
        assert Lookup(d.settled, c.pending[step.id].ticket) == Some(Resolved(step.worker, step.requestType, step.ok));
      }
    }
    hide Consistent;
  }

  /** Some command with this request ID is under way. */
  ghost predicate UnderWay(c: Channel, id: RequestId) {
    exists t :: 0 <= t < |c.commands| && c.commands[t].id == id && t !in c.settled
  }

  /**
   * On every run a dispatched command is under way exactly when its Worker's socket is open, no
   * other one has its request ID and sending works; otherwise it has failed for the first of these
   * reasons. No earlier command is touched.
   */
  lemma DispatchIff(states: seq<Channel>, steps: seq<Step>, k: nat)
    requires IsRun(states, steps) && k < |steps| && steps[k].Dispatch?
    ensures var c, d, step := states[k], states[k + 1], steps[k];
      && d.commands == c.commands + [step.command]
      && Lookup(d.settled, |c.commands|) == (
        if step.command.worker !in c.connections || !step.ready then Some(NotConnected)
        else if UnderWay(c, step.command.id) then Some(DuplicateRequest)
        else if !step.sends then Some(ConnectionClosed)
        else None)
      && forall t :: 0 <= t < |c.commands| ==> Lookup(d.settled, t) == Lookup(c.settled, t)
  {
    ConsistentOnRuns(states, steps, k);
    var c, id := states[k], steps[k].command.id;
    assert states[k + 1] == Apply(c, steps[k]);
    assert TicketOk(c, |c.commands|);
    assert id in c.pending <==> UnderWay(c, id) by {
      if id in c.pending {
        assert IdOk(c, id) && TicketOk(c, c.pending[id].ticket);
        assert c.commands[c.pending[id].ticket].id == id;
      }
      if t :| 0 <= t < |c.commands| && c.commands[t].id == id && t !in c.settled { UnsettledIsPending(c, t); }
    }
    hide Consistent, UnderWay;
  }
}
