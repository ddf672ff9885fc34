/**
 QMP commands in flight: each issued id waits in the pending map with a running timer until a reply,
 its timer, a failed write, a close or a disconnect settles it. Any order of these is possible.
 */
module QmpCommands {
  import opened Wrappers
  import opened JsText

  datatype Response = Response(id: Option<string>, isError: bool)

  datatype Cause = Reply(response: Response) | TimedOut | WriteFailed | ConnectionClosed | ClientDisconnected

  /** A call of `resolve` or `reject` of the promise of one command. */
  datatype Settlement = Settlement(id: string, cause: Cause)

  datatype Options = Options(reconnect: bool, maxReconnectAttempts: nat)

  /**
   `socket` says that there is a socket with its listeners, `retrying` that a retry waits for its connection.
   `timers` are the command timers the event loop still holds; `settled` counts every settlement.
   */
  datatype Client = Client(
    options: Options, connected: bool, socket: bool, intentionallyClosed: bool, commandId: nat,
    pending: set<string>, timers: set<string>, reconnectAttempts: nat, reconnectTimer: bool, retrying: bool,
    settled: multiset<Settlement>)

  datatype Event =
    | Execute(written: bool)
    | Replied(response: Response)
    | TimerFired(id: string)
    | SocketClosed
    | Disconnected
    | CleanedUp
    | Connecting
    | HandshakeDone
    | ReconnectFired
    | ReconnectFailed

  function Fresh(options: Options): Client {
    Client(options, false, false, false, 0, {}, {}, 0, false, false, multiset{})
  }

  // ----- steps -----

  function SettleAll(ids: set<string>, cause: Cause): multiset<Settlement> {
    multiset(set id | id in ids :: Settlement(id, cause))
  }

  function Settle(c: Client, id: string, cause: Cause): Client {
    c.(pending := c.pending - {id}, timers := c.timers - {id}, settled := c.settled + multiset{Settlement(id, cause)})
  }

  function RejectAll(c: Client, cause: Cause): Client {
    c.(pending := {}, timers := c.timers - c.pending, settled := c.settled + SettleAll(c.pending, cause))
  }

  /** Arms the retry timer unless the client was closed on purpose. */
  function AttemptReconnect(c: Client): Client {
    if c.intentionallyClosed then c else c.(reconnectAttempts := c.reconnectAttempts + 1, reconnectTimer := true)
  }

  /** Retries are on, left and wanted. */
  predicate MayRetry(c: Client) {
    c.options.reconnect && c.reconnectAttempts < c.options.maxReconnectAttempts && !c.intentionallyClosed
  }

  /** A command is issued only while connected; a failed write settles it at once. */
  function ExecuteStep(c: Client, written: bool): Client {
    if !c.connected || !c.socket then c
    else
      var id := Digits(c.commandId + 1);
      var sent := c.(commandId := c.commandId + 1, pending := c.pending + {id}, timers := c.timers + {id});
      if written then sent else Settle(sent, id, WriteFailed)
  }

  /** A reply settles the pending command of its own id; an empty or unknown id settles none. */
  function ReplyStep(c: Client, r: Response): Client {
    if r.id.None? || r.id.value == "" || r.id.value !in c.pending then c else Settle(c, r.id.value, Reply(r))
  }

  function CloseStep(c: Client): Client {
    var closed := RejectAll(c, ConnectionClosed).(connected := false);
    if c.connected && c.options.reconnect && c.reconnectAttempts < c.options.maxReconnectAttempts
    then AttemptReconnect(closed) else closed
  }

  /** Rejects what is pending, but only while there is a socket. */
  function DisconnectStep(c: Client): Client {
    var closed := c.(intentionallyClosed := true, reconnectTimer := false);
    if !c.socket then closed else RejectAll(closed, ClientDisconnected)
  }

  /** `cleanup` drops the socket with its listeners and the retry timer, and leaves pending commands alone. */
  function CleanupStep(c: Client): Client {
    c.(connected := false, reconnectTimer := false, socket := false)
  }

  /** `connect` replaces the socket; it does nothing when connected and fails when closed on purpose. */
  function ConnectStep(c: Client): Client {
    if c.connected || c.intentionallyClosed then c else c.(socket := true)
  }

  function HandshakeStep(c: Client): Client {
    if !c.socket then c else c.(connected := true, reconnectAttempts := 0, retrying := false)
  }

  /** The retry timer runs `connect` unless the client was closed meanwhile. */
  function ReconnectStep(c: Client): Client {
    if !c.reconnectTimer then c
    else
      var fired := c.(reconnectTimer := false);
      if c.connected || c.intentionallyClosed then fired else fired.(socket := true, retrying := true)
  }

  /** A retry that failed arms the next one while the budget lasts. */
  function ReconnectFailedStep(c: Client): Client {
    if !c.retrying then c
    else if !c.intentionallyClosed && c.reconnectAttempts < c.options.maxReconnectAttempts then
      AttemptReconnect(c.(retrying := false))
    else c.(retrying := false)
  }

  /** Replies and closes are heard only through the listeners of a socket. */
  function Step(c: Client, e: Event): Client {
    match e
    case Execute(written) => ExecuteStep(c, written)
    case Replied(response) => if c.socket then ReplyStep(c, response) else c
    case TimerFired(id) => if id in c.timers then Settle(c, id, TimedOut) else c
    case SocketClosed => if c.socket then CloseStep(c) else c
    case Disconnected => DisconnectStep(c)
    case CleanedUp => CleanupStep(c)
    case Connecting => ConnectStep(c)
    case HandshakeDone => HandshakeStep(c)
    case ReconnectFired => ReconnectStep(c)
    case ReconnectFailed => ReconnectFailedStep(c)
  }

  function Run(c: Client, es: seq<Event>): Client {
    if es == [] then c else Step(Run(c, es[..|es| - 1]), es[|es| - 1])
  }

  // ----- the client object -----

  class QMPClient {
    const options: Options
    var connected: bool
    var socket: bool
    var intentionallyClosed: bool
    var commandId: nat
    var pendingCommands: set<string>
    var timers: set<string>
    var reconnectAttempts: nat
    var reconnectTimer: bool
    var retrying: bool
    ghost var settled: multiset<Settlement>

    constructor (options: Options)
      ensures Snapshot() == Fresh(options)
    {
      this.options := options;
      connected, socket, intentionallyClosed, commandId := false, false, false, 0;
      pendingCommands, timers, reconnectAttempts, reconnectTimer, retrying := {}, {}, 0, false, false;
      settled := multiset{};
    }

    ghost function Snapshot(): Client
      reads this
    {
      Client(options, connected, socket, intentionallyClosed, commandId, pendingCommands, timers,
             reconnectAttempts, reconnectTimer, retrying, settled)
    }

    /** Clears the timer, forgets the command and settles its promise. */
    method SettleOne(id: string, ghost cause: Cause)
      modifies this`pendingCommands, this`timers, this`settled
      ensures Snapshot() == Settle(old(Snapshot()), id, cause)
    {
      timers := timers - {id};
      pendingCommands := pendingCommands - {id};
      settled := settled + multiset{Settlement(id, cause)};
    }

    /**
     Registers a new command, then writes it; a write that throws is rolled back. The id is new: it waits
     with its timer, or is settled at once, and every other command is as it was.
     */
    method ExecuteCommand(written: bool) returns (id: Option<string>)
      modifies this
      ensures Snapshot() == Step(old(Snapshot()), Execute(written))
      ensures id.None? <==> !old(connected) || !old(socket)
      ensures id.None? ==> Snapshot() == old(Snapshot())
      ensures Inv(old(Snapshot())) ==> Inv(Snapshot())
      ensures Inv(old(Snapshot())) && id.Some? ==>
                && id.value !in old(pendingCommands) && !SettledId(old(Snapshot()), id.value)
                && (id.value in pendingCommands <==> written) && (id.value in timers <==> written)
                && (SettledId(Snapshot(), id.value) <==> !written)
      ensures id.Some? ==> OnlyTouches(old(Snapshot()), Snapshot(), {id.value})
    {
      ghost var before := Snapshot();
      if Inv(before) { ExecuteMeaning(before, written); }
      ExecuteTouchesOne(before, written);
      hide Inv, SettledId, OnlyTouches;
      id := None;
      if !connected || !socket {
        return;
      }
      commandId := commandId + 1;
      var newId := Digits(commandId);
      timers := timers + {newId};
      pendingCommands := pendingCommands + {newId};
      if !written {
        SettleOne(newId, WriteFailed);
      }
      id := Some(newId);
    }

    /** Settles the command the reply names, if it is pending, and no other. */
    method HandleResponse(response: Response)
      requires socket
      modifies this`pendingCommands, this`timers, this`settled
      ensures Snapshot() == Step(old(Snapshot()), Replied(response))
      ensures Inv(old(Snapshot())) ==> Inv(Snapshot())
      ensures response.id.Some? && response.id.value in old(pendingCommands) && response.id.value != "" ==>
                && response.id.value !in pendingCommands
                && Settlement(response.id.value, Reply(response)) in settled
      ensures OnlyTouches(old(Snapshot()), Snapshot(), if response.id.Some? then {response.id.value} else {})
      ensures response.id.None? || response.id.value !in old(pendingCommands) ==> Snapshot() == old(Snapshot())
    {
      ghost var before := Snapshot();
      if Inv(before) { StepKeepsInv(before, Replied(response)); }
      if response.id.None? || response.id.value == "" {
        return;
      }
      var id := response.id.value;
      if id !in pendingCommands {
        return;
      }
      SettleOne(id, Reply(response));
    }

    /** The command's own timer: it is settled and forgotten, and no other is. */
    method CommandTimeout(id: string)
      requires id in timers
      modifies this`pendingCommands, this`timers, this`settled
      ensures Snapshot() == Step(old(Snapshot()), TimerFired(id))
      ensures Inv(old(Snapshot())) ==> Inv(Snapshot())
      ensures id !in pendingCommands && id !in timers && Settlement(id, TimedOut) in settled
      ensures OnlyTouches(old(Snapshot()), Snapshot(), {id})
    {
      ghost var before := Snapshot();
      if Inv(before) { StepKeepsInv(before, TimerFired(id)); }
      SettleOne(id, TimedOut);
    }

    /** Settles every pending command, one after the other. */
    method RejectPending(ghost cause: Cause)
      modifies this`pendingCommands, this`timers, this`settled
      ensures Snapshot() == RejectAll(old(Snapshot()), cause)
    {
      ghost var all := pendingCommands;
      while pendingCommands != {}
        invariant pendingCommands <= all
        invariant timers == old(timers) - (all - pendingCommands)
        invariant settled == old(settled) + SettleAll(all - pendingCommands, cause)
        decreases pendingCommands
      {
        var id :| id in pendingCommands;
        SettleOneMore(all - pendingCommands, id, cause);
        assert all - (pendingCommands - {id}) == all - pendingCommands + {id};
        SettleOne(id, cause);
      }
      assert all - pendingCommands == all;
    }

    /** A processed close: every pending command is settled, and a retry is armed if one is wanted and left. */
    method HandleDisconnect()
      requires socket
      modifies this
      ensures Snapshot() == Step(old(Snapshot()), SocketClosed)
      ensures Inv(old(Snapshot())) ==> Inv(Snapshot())
      ensures pendingCommands == {} && !connected
      ensures AllSettled(old(pendingCommands), settled, ConnectionClosed)
      ensures reconnectTimer <==> old(reconnectTimer) || (old(connected) && MayRetry(old(Snapshot())))
    {
      ghost var before := Snapshot();
      if Inv(before) { StepKeepsInv(before, SocketClosed); }
      RejectedAreSettled(before, ConnectionClosed);
      hide Inv, AllSettled, SettleAll;
      var wasConnected := connected;
      connected := false;
      RejectPending(ConnectionClosed);
      if wasConnected && options.reconnect && reconnectAttempts < options.maxReconnectAttempts {
        ScheduleReconnect();
      }
    }

    method ScheduleReconnect()
      modifies this`reconnectAttempts, this`reconnectTimer
      ensures Snapshot() == AttemptReconnect(old(Snapshot()))
    {
      if intentionallyClosed {
        return;
      }
      reconnectAttempts := reconnectAttempts + 1;
      reconnectTimer := true;
    }

    /** No retry is left; pending commands are settled if there is a socket, and left to their timers if not. */
    method Disconnect()
      modifies this
      ensures Snapshot() == Step(old(Snapshot()), Disconnected)
      ensures Inv(old(Snapshot())) ==> Inv(Snapshot())
      ensures intentionallyClosed && !reconnectTimer
      ensures old(socket) ==> pendingCommands == {} && AllSettled(old(pendingCommands), settled, ClientDisconnected)
      ensures !old(socket) ==> pendingCommands == old(pendingCommands) && settled == old(settled)
    {
      ghost var before := Snapshot();
      if Inv(before) { StepKeepsInv(before, Disconnected); }
      RejectedAreSettled(before, ClientDisconnected);
      intentionallyClosed := true;
      reconnectTimer := false;
      if !socket {
        return;
      }
      RejectPending(ClientDisconnected);
    }

    /** After a socket error: no socket and no retry timer, and no command is settled. */
    method Cleanup()
      modifies this
      ensures Snapshot() == Step(old(Snapshot()), CleanedUp)
      ensures Inv(old(Snapshot())) ==> Inv(Snapshot())
      ensures !socket && !connected && !reconnectTimer
      ensures pendingCommands == old(pendingCommands) && timers == old(timers) && settled == old(settled)
    {
      ghost var before := Snapshot();
      if Inv(before) { StepKeepsInv(before, CleanedUp); }
      connected := false;
      reconnectTimer := false;
      socket := false;
    }

    /** Opens a socket unless connected or closed for good; the handshake is still to come. */
    method Connect()
      modifies this
      ensures Snapshot() == Step(old(Snapshot()), Connecting)
      ensures Inv(old(Snapshot())) ==> Inv(Snapshot())
      ensures socket <==> old(socket) || (!old(connected) && !old(intentionallyClosed))
      ensures connected == old(connected) && pendingCommands == old(pendingCommands) && settled == old(settled)
    {
      ghost var before := Snapshot();
      if Inv(before) { StepKeepsInv(before, Connecting); }
      if connected || intentionallyClosed {
        return;
      }
      socket := true;
    }

    /** The handshake on a socket that is still there: connected, with all retries left again. */
    method OnGreeting()
      modifies this
      ensures Snapshot() == Step(old(Snapshot()), HandshakeDone)
      ensures Inv(old(Snapshot())) ==> Inv(Snapshot())
      ensures old(socket) ==> connected && reconnectAttempts == 0
      ensures !old(socket) ==> Snapshot() == old(Snapshot())
      ensures pendingCommands == old(pendingCommands) && settled == old(settled)
    {
      ghost var before := Snapshot();
      if Inv(before) { StepKeepsInv(before, HandshakeDone); }
      if socket {
        connected := true;
        reconnectAttempts := 0;
        retrying := false;
      }
    }
  }

  /** Each of the commands is settled for this cause. */
  ghost predicate AllSettled(ids: set<string>, settled: multiset<Settlement>, cause: Cause) {
    forall id :: id in ids ==> Settlement(id, cause) in settled
  }

  lemma RejectedAreSettled(c: Client, cause: Cause)
    ensures AllSettled(c.pending, RejectAll(c, cause).settled, cause)
  {
    forall id | id in c.pending ensures Settlement(id, cause) in RejectAll(c, cause).settled {
      assert Settlement(id, cause) in (set x | x in c.pending :: Settlement(x, cause));
    }
  }

  lemma SettleOneMore(ids: set<string>, id: string, cause: Cause)
    requires id !in ids
    ensures SettleAll(ids + {id}, cause) == SettleAll(ids, cause) + multiset{Settlement(id, cause)}
  {
    assert (set x | x in ids + {id} :: Settlement(x, cause)) == (set x | x in ids :: Settlement(x, cause)) + {Settlement(id, cause)};
  }

  /** Commands outside `ids` are pending and settled as before. */
  ghost predicate OnlyTouches(before: Client, now: Client, ids: set<string>) {
    && (forall x :: x !in ids ==> (x in now.pending <==> x in before.pending))
    && (forall s: Settlement :: s.id !in ids ==> now.settled[s] == before.settled[s])
  }

  lemma ExecuteTouchesOne(c: Client, written: bool)
    ensures OnlyTouches(c, Step(c, Execute(written)), {Digits(c.commandId + 1)})
  {
    hide Digits;
  }

  lemma ExecuteMeaning(c: Client, written: bool)
    requires Inv(c)
    ensures var d := Step(c, Execute(written));
      && Inv(d)
      && (c.connected && c.socket ==>
            var id := Digits(c.commandId + 1);
            && id !in c.pending && !SettledId(c, id)
            && (id in d.pending <==> written) && (id in d.timers <==> written) && (SettledId(d, id) <==> !written))
  {
    StepKeepsInv(c, Execute(written));
    if c.connected && c.socket {
      IssueKeepsInv(c);
      var id := Digits(c.commandId + 1);
      var sent := c.(commandId := c.commandId + 1, pending := c.pending + {id}, timers := c.timers + {id});
      assert SettledId(sent, id) <==> SettledId(c, id);
      SettledBy(sent, id, WriteFailed);
    }
  }

  // ----- invariant -----

  predicate SettledId(c: Client, id: string) {
    exists s :: s in c.settled && s.id == id
  }

  /** Each promise is settled at most once, and by a reply only if the reply carries its id. */
  ghost predicate SettledOnce(c: Client) {
    && (forall s :: s in c.settled ==> c.settled[s] == 1)
    && (forall s, t :: s in c.settled && t in c.settled && s.id == t.id ==> s == t)
    && (forall s :: s in c.settled && s.cause.Reply? ==> s.cause.response.id == Some(s.id))
  }

  predicate IssuedId(c: Client, id: string) {
    exists n: nat :: 1 <= n <= c.commandId && id == Digits(n)
  }

  ghost predicate Inv(c: Client) {
    && c.pending == c.timers
    && SettledOnce(c)
    && (forall id :: id in c.pending ==> IssuedId(c, id) && !SettledId(c, id))
    && (forall id :: SettledId(c, id) ==> IssuedId(c, id))
    && (forall n: nat :: 1 <= n <= c.commandId ==> Digits(n) in c.pending || SettledId(c, Digits(n)))
    && (c.connected ==> c.socket && !c.retrying)
    && (c.intentionallyClosed ==> !c.reconnectTimer)
    && c.reconnectAttempts <= c.options.maxReconnectAttempts
  }

  lemma FreshInv(options: Options)
    ensures Inv(Fresh(options))
  {
  }

  /** Settling one pending command keeps the invariant. */
  lemma SettleKeepsInv(c: Client, id: string, cause: Cause)
    requires Inv(c) && id in c.pending && (cause.Reply? ==> cause.response.id == Some(id))
    ensures Inv(Settle(c, id, cause))
  {
    var d, s := Settle(c, id, cause), Settlement(id, cause);
    assert s !in c.settled;
    forall t | t in d.settled ensures t in c.settled || t == s {}
    forall x ensures SettledId(d, x) <==> SettledId(c, x) || x == id {
      if SettledId(c, x) { var t :| t in c.settled && t.id == x; assert t in d.settled; }
      if x == id { assert s in d.settled; }
    }
    hide SettledId;
    forall x | x in d.pending || SettledId(d, x) ensures IssuedId(d, x) { assert IssuedId(c, x); }
  }

  lemma IssueKeepsInv(c: Client)
    requires Inv(c) && c.connected
    ensures var id := Digits(c.commandId + 1);
      && id !in c.pending && !SettledId(c, id)
      && Inv(c.(commandId := c.commandId + 1, pending := c.pending + {id}, timers := c.timers + {id}))
  {
    var id := Digits(c.commandId + 1);
    var d := c.(commandId := c.commandId + 1, pending := c.pending + {id}, timers := c.timers + {id});
    NewId(c);
    hide Digits;
    forall x ensures SettledId(d, x) <==> SettledId(c, x) {}
    forall x | IssuedId(c, x) ensures IssuedId(d, x) {
      var n: nat :| 1 <= n <= c.commandId && x == Digits(n);
    }
    assert IssuedId(d, id);
    hide SettledId, IssuedId;
  }

  lemma NewId(c: Client)
    ensures !IssuedId(c, Digits(c.commandId + 1))
  {
    var id := Digits(c.commandId + 1);
    forall n: nat | 1 <= n <= c.commandId ensures Digits(n) != id {
      if Digits(n) == id { DigitsInjective(n, c.commandId + 1); }
    }
  }

  lemma RejectOneFirst(c: Client, id: string, cause: Cause)
    requires id in c.pending
    ensures RejectAll(Settle(c, id, cause), cause) == RejectAll(c, cause)
  {
    var d := Settle(c, id, cause);
    SettleOneMore(d.pending, id, cause);
    assert d.pending + {id} == c.pending;
    assert d.timers - d.pending == c.timers - c.pending;
  }

  lemma {:induction false} RejectAllKeepsInv(c: Client, cause: Cause)
    requires Inv(c) && !cause.Reply?
    ensures Inv(RejectAll(c, cause))
    decreases c.pending
  {
    if c.pending == {} {
      assert RejectAll(c, cause) == c;
    } else {
      var id :| id in c.pending;
      SettleKeepsInv(c, id, cause);
      RejectOneFirst(c, id, cause);
      hide Inv, RejectAll;
      RejectAllKeepsInv(Settle(c, id, cause), cause);
    }
  }

  lemma SettledBy(c: Client, id: string, cause: Cause)
    ensures forall x :: SettledId(Settle(c, id, cause), x) <==> SettledId(c, x) || x == id
  {
    var d, s := Settle(c, id, cause), Settlement(id, cause);
    forall x ensures SettledId(d, x) <==> SettledId(c, x) || x == id {
      if SettledId(c, x) { var t :| t in c.settled && t.id == x; assert t in d.settled; }
      if x == id { assert s in d.settled; }
    }
  }

  /** No event breaks the invariant. */
  lemma StepKeepsInv(c: Client, e: Event)
    requires Inv(c)
    ensures Inv(Step(c, e))
  {
    hide Digits, SettledId, IssuedId, SettledOnce, SettleAll;
    match e {
      case Execute(written) =>
        if c.connected && c.socket {
          var id := Digits(c.commandId + 1);
          IssueKeepsInv(c);
          if !written {
            SettleKeepsInv(c.(commandId := c.commandId + 1, pending := c.pending + {id}, timers := c.timers + {id}), id, WriteFailed);
          }
        }
      case Replied(r) =>
        if c.socket && r.id.Some? && r.id.value in c.pending { SettleKeepsInv(c, r.id.value, Reply(r)); }
      case TimerFired(id) =>
        if id in c.timers { SettleKeepsInv(c, id, TimedOut); }
      case SocketClosed =>
        if c.socket {
          RejectAllKeepsInv(c, ConnectionClosed);
          SameCommands(RejectAll(c, ConnectionClosed), Step(c, e));
        }
      case Disconnected =>
        var closed := c.(intentionallyClosed := true, reconnectTimer := false);
        SameCommands(c, closed);
        if c.socket { RejectAllKeepsInv(closed, ClientDisconnected); }
      case _ =>
        SameCommands(c, Step(c, e));
    }
  }

  /** What the commands are does not depend on the connection flags. */
  lemma SameCommands(c: Client, d: Client)
    requires Inv(c) && d.pending == c.pending && d.timers == c.timers && d.settled == c.settled && d.commandId == c.commandId
    requires (d.connected ==> d.socket && !d.retrying) && (d.intentionallyClosed ==> !d.reconnectTimer)
    requires d.reconnectAttempts <= d.options.maxReconnectAttempts
    ensures Inv(d)
  {
    forall id ensures SettledId(c, id) <==> SettledId(d, id) {}
    forall id ensures IssuedId(c, id) <==> IssuedId(d, id) {}
  }

  /** Over every run, in any order of events, the invariant holds. */
  lemma {:induction false} RunKeepsInv(options: Options, es: seq<Event>)
    ensures Inv(Run(Fresh(options), es))
  {
    if es == [] {
      FreshInv(options);
    } else {
      RunKeepsInv(options, es[..|es| - 1]);
      StepKeepsInv(Run(Fresh(options), es[..|es| - 1]), es[|es| - 1]);
    }
  }

  // ----- what follows for a command -----

  /** An issued command is unsettled exactly while it is pending, and then its timer runs. */
  lemma UnsettledIffPending(options: Options, es: seq<Event>, n: nat)
    requires 1 <= n <= Run(Fresh(options), es).commandId
    ensures var c := Run(Fresh(options), es);
      && (Digits(n) in c.pending <==> !SettledId(c, Digits(n)))
      && (Digits(n) in c.pending <==> Digits(n) in c.timers)
  {
    RunKeepsInv(options, es);
  }

  lemma StepKeepsSettlements(c: Client, e: Event, s: Settlement)
    requires s in c.settled
    ensures s in Step(c, e).settled
  {
    hide ExecuteStep, ReplyStep, CloseStep, DisconnectStep, CleanupStep, ConnectStep, HandshakeStep, ReconnectStep,
      ReconnectFailedStep, Settle;
    match e {
      case Execute(written) => ExecuteKeepsSettlements(c, written, s);
      case Replied(r) => ReplyKeepsSettlements(c, r, s);
      case TimerFired(id) => SettleKeepsSettlements(c, id, TimedOut, s);
      case SocketClosed => ClosingKeepsSettlements(c, s);
      case Disconnected => ClosingKeepsSettlements(c, s);
      case _ => ConnectionKeepsSettlements(c);
    }
  }

  lemma SettleKeepsSettlements(c: Client, id: string, cause: Cause, s: Settlement)
    requires s in c.settled
    ensures s in Settle(c, id, cause).settled
  {
  }

  lemma ReplyKeepsSettlements(c: Client, r: Response, s: Settlement)
    requires s in c.settled
    ensures s in ReplyStep(c, r).settled
  {
  }

  lemma ExecuteKeepsSettlements(c: Client, written: bool, s: Settlement)
    requires s in c.settled
    ensures s in ExecuteStep(c, written).settled
  {
    hide Digits;
  }

  lemma ClosingKeepsSettlements(c: Client, s: Settlement)
    requires s in c.settled
    ensures s in CloseStep(c).settled && s in DisconnectStep(c).settled
  {
    hide SettleAll;
  }

  lemma ConnectionKeepsSettlements(c: Client)
    ensures CleanupStep(c).settled == c.settled && ConnectStep(c).settled == c.settled && HandshakeStep(c).settled == c.settled
    ensures ReconnectStep(c).settled == c.settled && ReconnectFailedStep(c).settled == c.settled
  {
  }

  /** What has been settled stays settled the same way, whatever happens later. */
  lemma {:induction false} SettlementIsFinal(c: Client, es: seq<Event>, s: Settlement)
    requires Inv(c) && s in c.settled
    ensures Inv(Run(c, es)) && s in Run(c, es).settled
    ensures forall t :: t in Run(c, es).settled && t.id == s.id ==> t == s
  {
    if es != [] {
      var n := |es| - 1;
      var d := Run(c, es[..n]);
      SettlementIsFinal(c, es[..n], s);
      StepKeepsInv(d, es[n]);
      StepKeepsSettlements(d, es[n], s);
      assert Run(c, es) == Step(d, es[n]);
      hide Step, Run;
    }
    assert SettledOnce(Run(c, es));
  }

  /** A processed close leaves no command pending. */
  lemma CloseLeavesNonePending(c: Client, n: nat)
    requires Inv(c) && c.socket && 1 <= n <= c.commandId
    ensures Step(c, SocketClosed).pending == {} && SettledId(Step(c, SocketClosed), Digits(n))
    ensures !Step(c, SocketClosed).connected
  {
    StepKeepsInv(c, SocketClosed);
    assert Step(c, SocketClosed).commandId == c.commandId;
  }

  /** A reply settles the command of its own id and touches no other. */
  lemma ReplyReachesItsCommand(c: Client, r: Response, id: string)
    requires Inv(c) && c.socket
    ensures r.id == Some(id) && id in c.pending ==>
              Settlement(id, Reply(r)) in Step(c, Replied(r)).settled && id !in Step(c, Replied(r)).pending
    ensures r.id != Some(id) ==>
              (id in Step(c, Replied(r)).pending <==> id in c.pending)
              && (SettledId(Step(c, Replied(r)), id) <==> SettledId(c, id))
  {
    if r.id.Some? && r.id.value in c.pending {
      var x := r.id.value;
      var n: nat :| 1 <= n <= c.commandId && x == Digits(n);
      SettledBy(c, x, Reply(r));
    }
  }

  // ----- how long a command stays pending -----

  /** The event settles the pending command where it happens. */
  predicate Settles(c: Client, e: Event, id: string) {
    || (e.Replied? && c.socket && e.response.id == Some(id))
    || e == TimerFired(id)
    || (e.SocketClosed? && c.socket)
    || (e.Disconnected? && c.socket)
  }

  lemma StaysPendingIff(c: Client, e: Event, id: string)
    requires Inv(c) && id in c.pending
    ensures id in Step(c, e).pending <==> !Settles(c, e, id)
  {
    NewId(c);
    assert IssuedId(c, id);
    hide Digits, SettledId, IssuedId, SettleAll, SettledOnce, Inv;
  }

  /** A settled command is never pending again. */
  lemma {:induction false} SettledNotPending(c: Client, es: seq<Event>, s: Settlement)
    requires Inv(c) && s in c.settled
    ensures s.id !in Run(c, es).pending
  {
    SettlementIsFinal(c, es, s);
    assert SettledId(Run(c, es), s.id);
  }

  lemma {:induction false} InvAfter(c: Client, es: seq<Event>)
    requires Inv(c)
    ensures Inv(Run(c, es))
  {
    if es != [] {
      InvAfter(c, es[..|es| - 1]);
      StepKeepsInv(Run(c, es[..|es| - 1]), es[|es| - 1]);
    }
  }

  predicate NeverSettles(c: Client, es: seq<Event>, id: string) {
    forall k :: 0 <= k < |es| ==> !Settles(Run(c, es[..k]), es[k], id)
  }

  lemma NeverSettlesPrefix(c: Client, es: seq<Event>, id: string)
    requires es != []
    ensures var n := |es| - 1;
      NeverSettles(c, es, id) <==> NeverSettles(c, es[..n], id) && !Settles(Run(c, es[..n]), es[n], id)
  {
    hide Run, Settles;
    var n := |es| - 1;
    assert forall k :: 0 <= k < n ==> es[..n][..k] == es[..k] && es[..n][k] == es[k];
    if NeverSettles(c, es, id) {
      forall k | 0 <= k < n ensures !Settles(Run(c, es[..n][..k]), es[..n][k], id) { assert !Settles(Run(c, es[..k]), es[k], id); }
    }
    if NeverSettles(c, es[..n], id) && !Settles(Run(c, es[..n]), es[n], id) {
      forall k | 0 <= k < |es| ensures !Settles(Run(c, es[..k]), es[k], id) {
        if k < n { assert !Settles(Run(c, es[..n][..k]), es[..n][k], id); }
      }
    }
  }

  /** A pending command that stopped being pending was settled. */
  lemma GoneIsSettled(c: Client, d: Client, id: string)
    requires Inv(c) && Inv(d) && id in c.pending && id !in d.pending && d.commandId >= c.commandId
    ensures SettledId(d, id)
  {
    assert IssuedId(c, id);
    var n: nat :| 1 <= n <= c.commandId && id == Digits(n);
    assert Digits(n) in d.pending || SettledId(d, Digits(n));
  }

  lemma CommandIdGrows(c: Client, e: Event)
    ensures Step(c, e).commandId >= c.commandId
  {
    hide Digits, SettleAll;
  }

  /** Over any run a command is still pending exactly when no event settled it where it happened. */
  lemma {:induction false} PendingAfterRunIff(c: Client, es: seq<Event>, id: string)
    requires Inv(c) && id in c.pending
    ensures id in Run(c, es).pending <==> NeverSettles(c, es, id)
    ensures Run(c, es).commandId >= c.commandId
  {
    if es != [] {
      var n := |es| - 1;
      var d := Run(c, es[..n]);
      PendingAfterRunIff(c, es[..n], id);
      InvAfter(c, es[..n]);
      StepKeepsInv(d, es[n]);
      CommandIdGrows(d, es[n]);
      NeverSettlesPrefix(c, es, id);
      assert Run(c, es) == Step(d, es[n]);
      if id in d.pending {
        StaysPendingIff(d, es[n], id);
      } else {
        GoneIsSettled(c, d, id);
        var s :| s in d.settled && s.id == id;
        StepKeepsSettlements(d, es[n], s);
        assert SettledId(Step(d, es[n]), id);
      }
    }
  }

  // ----- after the socket is gone -----

  predicate NoConnect(es: seq<Event>) {
    forall k :: 0 <= k < |es| ==> !es[k].Connecting?
  }

  /** No socket, and no retry that could open one. */
  predicate Severed(c: Client) {
    !c.socket && !c.connected && !c.reconnectTimer && !c.retrying
  }

  /** Without a socket and without a retry under way nothing but a new `connect` brings one back. */
  lemma {:induction false} StaysSevered(c: Client, es: seq<Event>)
    requires Severed(c) && NoConnect(es)
    ensures Severed(Run(c, es)) && Run(c, es).commandId == c.commandId
  {
    if es != [] {
      assert NoConnect(es[..|es| - 1]);
      StaysSevered(c, es[..|es| - 1]);
      SeveredStep(Run(c, es[..|es| - 1]), es[|es| - 1]);
      hide Step, Severed;
    }
  }

  lemma SeveredStep(c: Client, e: Event)
    requires Severed(c) && !e.Connecting?
    ensures Severed(Step(c, e)) && Step(c, e).commandId == c.commandId
  {
    hide Digits, SettleAll;
  }

  /**
   A connection lost by a close is retried exactly when retries are on, left and wanted; one lost by an
   error, which runs `cleanup`, is never retried: until the next `connect` the client stays severed.
   */
  lemma LostConnectionRetries(c: Client, es: seq<Event>)
    requires Inv(c) && c.connected && NoConnect(es)
    ensures var closed := Step(c, SocketClosed);
      !closed.connected
      && (closed.reconnectTimer <==> c.reconnectTimer || MayRetry(c))
    ensures Severed(Run(Step(c, CleanedUp), es)) && Run(Step(c, CleanedUp), es).commandId == c.commandId
  {
    StaysSevered(Step(c, CleanedUp), es);
    hide SettleAll;
  }

  /** A command pending when the connection is lost by an error outlives every run up to its own timer. */
  lemma OutlivesCleanup(c: Client, es: seq<Event>, id: string)
    requires Inv(c) && c.connected && id in c.pending && NoConnect(es)
    ensures id in Run(Step(c, CleanedUp), es).pending <==> TimerFired(id) !in es
  {
    var d := Step(c, CleanedUp);
    StepKeepsInv(c, CleanedUp);
    PendingAfterRunIff(d, es, id);
    forall k | 0 <= k < |es| ensures Settles(Run(d, es[..k]), es[k], id) <==> es[k] == TimerFired(id) {
      assert NoConnect(es[..k]);
      StaysSevered(d, es[..k]);
    }
    hide Run, Settles;
    if TimerFired(id) in es {
      var k :| 0 <= k < |es| && es[k] == TimerFired(id);
      assert Settles(Run(d, es[..k]), es[k], id);
    }
  }

  /** `disconnect` settles what is pending exactly when there is a socket; what it leaves ends with its timer. */
  lemma DisconnectSettlesIff(c: Client, es: seq<Event>, id: string)
    requires Inv(c) && id in c.pending
    ensures id in Step(c, Disconnected).pending <==> !c.socket
    ensures id in Run(Step(c, Disconnected), es).pending <==> !c.socket && TimerFired(id) !in es
  {
    StaysPendingIff(c, Disconnected, id);
    var d := Step(c, Disconnected);
    StepKeepsInv(c, Disconnected);
    if c.socket {
      assert d.commandId == c.commandId;
      GoneIsSettled(c, d, id);
      var s :| s in d.settled && s.id == id;
      SettledNotPending(d, es, s);
    } else {
      PendingAfterRunIff(d, es, id);
      forall k | 0 <= k < |es| ensures Settles(Run(d, es[..k]), es[k], id) <==> es[k] == TimerFired(id) {
        ClosedForGood(d, es[..k]);
      }
      hide Run, Settles;
      if TimerFired(id) in es {
        var k :| 0 <= k < |es| && es[k] == TimerFired(id);
        assert Settles(Run(d, es[..k]), es[k], id);
      }
    }
  }

  /** Such a state is reachable: a socket error while a command waits, then `disconnect`. */
  lemma CommandOutlivesDisconnect(options: Options)
    ensures var c := Run(Fresh(options), [Connecting, HandshakeDone, Execute(true), CleanedUp, Disconnected]);
      && c.pending == {Digits(1)} && c.timers == {Digits(1)}
      && c.intentionallyClosed && !c.socket && c.settled == multiset{}
  {
    var c0 := Fresh(options);
    var c2 := c0.(socket := true, connected := true);
    var c3 := c2.(commandId := 1, pending := {Digits(1)}, timers := {Digits(1)});
    assert Step(Step(c0, Connecting), HandshakeDone) == c2;
    assert Step(c2, Execute(true)) == c3;
    assert Step(Step(c3, CleanedUp), Disconnected) == c3.(socket := false, connected := false, intentionallyClosed := true);
    hide Step, Digits;
    RunFive(c0, Connecting, HandshakeDone, Execute(true), CleanedUp, Disconnected);
  }

  lemma RunFive(c: Client, e1: Event, e2: Event, e3: Event, e4: Event, e5: Event)
    ensures Run(c, [e1, e2, e3, e4, e5]) == Step(Step(Step(Step(Step(c, e1), e2), e3), e4), e5)
  {
    hide Step;
    assert Run(c, []) == c;
    assert [] + [e1] == [e1] && [e1] + [e2] == [e1, e2] && [e1, e2] + [e3] == [e1, e2, e3];
    assert [e1, e2, e3] + [e4] == [e1, e2, e3, e4] && [e1, e2, e3, e4] + [e5] == [e1, e2, e3, e4, e5];
    RunSnoc(c, [], e1);
    RunSnoc(c, [e1], e2);
    RunSnoc(c, [e1, e2], e3);
    RunSnoc(c, [e1, e2, e3], e4);
    RunSnoc(c, [e1, e2, e3, e4], e5);
    hide Run;
  }

  lemma RunSnoc(c: Client, es: seq<Event>, e: Event)
    ensures Run(c, es + [e]) == Step(Run(c, es), e)
  {
    hide Step;
    assert (es + [e])[..|es|] == es;
  }

  /** Once disconnected without a socket the client never comes back. */
  lemma {:induction false} ClosedForGood(c: Client, es: seq<Event>)
    requires c.intentionallyClosed && !c.socket && !c.connected && !c.reconnectTimer
    ensures var d := Run(c, es);
      && d.intentionallyClosed && !d.socket && !d.connected && !d.reconnectTimer
      && d.commandId == c.commandId
  {
    if es != [] {
      ClosedForGood(c, es[..|es| - 1]);
      StaysClosed(Run(c, es[..|es| - 1]), es[|es| - 1]);
      hide Step;
    }
  }

  lemma StaysClosed(c: Client, e: Event)
    requires c.intentionallyClosed && !c.socket && !c.connected && !c.reconnectTimer
    ensures var d := Step(c, e);
      d.intentionallyClosed && !d.socket && !d.connected && !d.reconnectTimer && d.commandId == c.commandId
  {
    hide Digits, SettleAll;
  }

  // ----- retries -----

  /** The retry timer fires and the attempt fails. */
  function FailOnce(c: Client): Client {
    Step(Step(c, ReconnectFired), ReconnectFailed)
  }

  function FailTimes(c: Client, k: nat): Client {
    if k == 0 then c else FailOnce(FailTimes(c, k - 1))
  }

  /** A wanted retry whose timer runs opens a socket; when its handshake is done the client is connected, with all retries left. */
  lemma RetryConnects(c: Client)
    requires Inv(c) && c.reconnectTimer && !c.connected
    ensures var fired := Step(c, ReconnectFired);
      && fired.socket && !fired.connected && !fired.reconnectTimer && fired.retrying
      && var back := Step(fired, HandshakeDone);
      && back.connected && back.socket && !back.retrying && back.reconnectAttempts == 0
      && back.pending == c.pending && back.settled == c.settled && back.commandId == c.commandId
  {
    hide SettleAll, Digits;
  }

  /**
   After a close that arms a retry exactly the retries left are made: each failed one arms the next, and the last one
   none. No command is settled meanwhile.
   */
  lemma {:induction false} RetriesExactly(c: Client, k: nat)
    requires c.reconnectTimer && !c.connected && !c.intentionallyClosed && !c.retrying
    requires c.reconnectAttempts <= c.options.maxReconnectAttempts
    requires c.reconnectAttempts + k <= c.options.maxReconnectAttempts + 1
    ensures var d := FailTimes(c, k);
      && (d.reconnectTimer <==> c.reconnectAttempts + k <= c.options.maxReconnectAttempts)
      && d.reconnectAttempts == (if d.reconnectTimer then c.reconnectAttempts + k else c.options.maxReconnectAttempts)
      && !d.connected && !d.intentionallyClosed && !d.retrying && d.options == c.options
      && d.pending == c.pending && d.settled == c.settled
  {
    if k > 0 {
      RetriesExactly(c, k - 1);
      FailOnceIs(FailTimes(c, k - 1));
      hide FailOnce;
    }
  }

  lemma FailOnceIs(c: Client)
    requires c.reconnectTimer && !c.connected && !c.intentionallyClosed && !c.retrying
    ensures var d := FailOnce(c);
      && (d.reconnectTimer <==> c.reconnectAttempts < c.options.maxReconnectAttempts)
      && d.reconnectAttempts == c.reconnectAttempts + (if d.reconnectTimer then 1 else 0)
      && !d.connected && !d.intentionallyClosed && !d.retrying && d.options == c.options
      && d.pending == c.pending && d.settled == c.settled
  {
    hide SettleAll, Digits;
  }
}
