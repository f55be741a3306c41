/**
 * The client of the settings-based copy: the same session, with both
 * callbacks and the response timeout taken from its settings, and Connect
 * and the six command operations run under the reentrancy guard.
 */
module GuardedSession {
  import opened LircTypes
  import opened LircProtocol
  import opened LircCommands
  import opened LircSession
  import opened Reentrancy

  /** The settings the client is created with. */
  datatype Settings = Settings(onEventSync: bool, onEventAsync: bool, responseTimeoutMs: nat)

  class GuardedClient {
    const session: Client
    const guard: ReentrancyPrevention

    ghost predicate Valid()
      reads this, session
    {
      session.Valid()
    }

    constructor(wire: seq<string>, settings: Settings)
      ensures Valid() && fresh(session) && fresh(guard) && guard.counter == 0
      ensures !session.isConnected && session.wire == wire
      ensures session.onEventSync == settings.onEventSync && session.onEventAsync == settings.onEventAsync
      ensures session.responseTimeoutMs == settings.responseTimeoutMs
    {
      session := new Client.WithSettings(wire, settings.onEventSync, settings.onEventAsync, settings.responseTimeoutMs);
      guard := new ReentrancyPrevention();
    }

    /** Creates a client and connects it; the refusal of the endpoint is the only failure. */
    static method ConnectNew(wire: seq<string>, settings: Settings, peerAccepts: bool) returns (r: Result<GuardedClient>)
      ensures r.Ok? <==> peerAccepts
      ensures r.Err? ==> r.error == ConnectFailed
      ensures r.Ok? ==> fresh(r.value) && fresh(r.value.session) && fresh(r.value.guard) && r.value.Valid()
      ensures r.Ok? ==> r.value.session.isConnected && r.value.session.Snapshot() == Connected()
      ensures r.Ok? ==> r.value.guard.counter == 0 && r.value.session.wire == wire
      ensures r.Ok? ==> r.value.session.onEventSync == settings.onEventSync && r.value.session.onEventAsync == settings.onEventAsync
      ensures r.Ok? ==> r.value.session.responseTimeoutMs == settings.responseTimeoutMs
    {
      var client := new GuardedClient(wire, settings);
      var connected := client.Connect(peerAccepts);
      if connected.Err? {
        return Err(connected.error);
      }
      return Ok(client);
    }

    /** Connects under the guard: the guard is checked before the connection state. */
    method Connect(peerAccepts: bool) returns (r: Result<()>)
      requires Valid()
      modifies session, guard
      ensures Valid() && guard.counter == old(guard.counter)
      ensures unchanged(session`responseTimeoutMs)
      ensures old(guard.counter) > 0 ==> r == Err(NotReentrant) && unchanged(session)
      ensures old(guard.counter) <= 0 && old(session.isConnected) ==> r == Err(AlreadyConnected) && unchanged(session)
      ensures old(guard.counter) <= 0 && !old(session.isConnected) && !peerAccepts ==>
                r == Err(ConnectFailed) && unchanged(session)
      ensures old(guard.counter) <= 0 && !old(session.isConnected) && peerAccepts ==>
                r == Ok(()) && session.isConnected && session.Snapshot() == Connected()
    {
      var token := guard.AssertNotReentrant();
      if token.Err? {
        return Err(token.error);
      }
      r := session.Connect(peerAccepts);
      token.value.Dispose();
    }

    method GetVersion(budget: nat) returns (r: Result<string>)
      requires Valid()
      modifies session, guard
      ensures Valid() && guard.counter == old(guard.counter)
      ensures unchanged(session`isConnected, session`hasWorker, session`cancelled, session`responseTimeoutMs)
      ensures !old(session.isConnected) ==> r == Err(NotConnected) && unchanged(session)
      ensures old(session.isConnected) && old(guard.counter) > 0 ==> r == Err(NotReentrant) && unchanged(session)
      ensures old(session.isConnected) && old(guard.counter) <= 0 ==>
                Outcome(r, session.Snapshot()) == GetVersionOp(session.wire, old(session.Snapshot()), budget)
    {
      var connected := session.AssertConnected();
      if connected.Err? {
        return Err(connected.error);
      }
      var token := guard.AssertNotReentrant();
      if token.Err? {
        return Err(token.error);
      }
      r := session.GetVersion(budget);
      token.value.Dispose();
    }

    method ListRemoteControls(budget: nat) returns (r: Result<seq<string>>)
      requires Valid()
      modifies session, guard
      ensures Valid() && guard.counter == old(guard.counter)
      ensures unchanged(session`isConnected, session`hasWorker, session`cancelled, session`responseTimeoutMs)
      ensures !old(session.isConnected) ==> r == Err(NotConnected) && unchanged(session)
      ensures old(session.isConnected) && old(guard.counter) > 0 ==> r == Err(NotReentrant) && unchanged(session)
      ensures old(session.isConnected) && old(guard.counter) <= 0 ==>
                Outcome(r, session.Snapshot()) == ListRemoteControlsOp(session.wire, old(session.Snapshot()), budget)
    {
      var connected := session.AssertConnected();
      if connected.Err? {
        return Err(connected.error);
      }
      var token := guard.AssertNotReentrant();
      if token.Err? {
        return Err(token.error);
      }
      r := session.ListRemoteControls(budget);
      token.value.Dispose();
    }

    method ListRemoteControlKeys(remoteControl: string, budget: nat) returns (r: Result<seq<ButtonInfo>>)
      requires Valid()
      modifies session, guard
      ensures Valid() && guard.counter == old(guard.counter)
      ensures unchanged(session`isConnected, session`hasWorker, session`cancelled, session`responseTimeoutMs)
      ensures !old(session.isConnected) ==> r == Err(NotConnected) && unchanged(session)
      ensures old(session.isConnected) && old(guard.counter) > 0 ==> r == Err(NotReentrant) && unchanged(session)
      ensures old(session.isConnected) && old(guard.counter) <= 0 ==>
                Outcome(r, session.Snapshot())
                == ListRemoteControlKeysOp(session.wire, old(session.Snapshot()), remoteControl, budget)
    {
      var connected := session.AssertConnected();
      if connected.Err? {
        return Err(connected.error);
      }
      var token := guard.AssertNotReentrant();
      if token.Err? {
        return Err(token.error);
      }
      r := session.ListRemoteControlKeys(remoteControl, budget);
      token.value.Dispose();
    }

    method SendOnce(remoteControl: string, button: string, repeats: Int32, budget: nat) returns (r: Result<()>)
      requires Valid()
      modifies session, guard
      ensures Valid() && guard.counter == old(guard.counter)
      ensures unchanged(session`isConnected, session`hasWorker, session`cancelled, session`responseTimeoutMs)
      ensures !old(session.isConnected) ==> r == Err(NotConnected) && unchanged(session)
      ensures old(session.isConnected) && old(guard.counter) > 0 ==> r == Err(NotReentrant) && unchanged(session)
      ensures old(session.isConnected) && old(guard.counter) <= 0 ==>
                Outcome(r, session.Snapshot())
                == SendOp(session.wire, old(session.Snapshot()), Once(remoteControl, button, repeats), budget)
    {
      var connected := session.AssertConnected();
      if connected.Err? {
        return Err(connected.error);
      }
      var token := guard.AssertNotReentrant();
      if token.Err? {
        return Err(token.error);
      }
      r := session.SendOnce(remoteControl, button, repeats, budget);
      token.value.Dispose();
    }

    method SendStart(remoteControl: string, button: string, budget: nat) returns (r: Result<()>)
      requires Valid()
      modifies session, guard
      ensures Valid() && guard.counter == old(guard.counter)
      ensures unchanged(session`isConnected, session`hasWorker, session`cancelled, session`responseTimeoutMs)
      ensures !old(session.isConnected) ==> r == Err(NotConnected) && unchanged(session)
      ensures old(session.isConnected) && old(guard.counter) > 0 ==> r == Err(NotReentrant) && unchanged(session)
      ensures old(session.isConnected) && old(guard.counter) <= 0 ==>
                Outcome(r, session.Snapshot())
                == SendOp(session.wire, old(session.Snapshot()), Start(remoteControl, button), budget)
    {
      var connected := session.AssertConnected();
      if connected.Err? {
        return Err(connected.error);
      }
      var token := guard.AssertNotReentrant();
      if token.Err? {
        return Err(token.error);
      }
      r := session.SendStart(remoteControl, button, budget);
      token.value.Dispose();
    }

    method SendStop(remoteControl: string, button: string, budget: nat) returns (r: Result<()>)
      requires Valid()
      modifies session, guard
      ensures Valid() && guard.counter == old(guard.counter)
      ensures unchanged(session`isConnected, session`hasWorker, session`cancelled, session`responseTimeoutMs)
      ensures !old(session.isConnected) ==> r == Err(NotConnected) && unchanged(session)
      ensures old(session.isConnected) && old(guard.counter) > 0 ==> r == Err(NotReentrant) && unchanged(session)
      ensures old(session.isConnected) && old(guard.counter) <= 0 ==>
                Outcome(r, session.Snapshot())
                == SendOp(session.wire, old(session.Snapshot()), Stop(remoteControl, button), budget)
    {
      var connected := session.AssertConnected();
      if connected.Err? {
        return Err(connected.error);
      }
      var token := guard.AssertNotReentrant();
      if token.Err? {
        return Err(token.error);
      }
      r := session.SendStop(remoteControl, button, budget);
      token.value.Dispose();
    }

    /** Disposing is not guarded. */
    method Dispose()
      requires Valid()
      modifies session
      ensures Valid() && !session.running && !session.hasWorker && !session.streamOpen
      ensures session.cancelled == (old(session.cancelled) || old(session.hasWorker))
      ensures session.cursor == old(session.cursor) && session.queue == old(session.queue)
      ensures session.written == old(session.written)
      ensures session.fired == old(session.fired) && session.delivered == old(session.delivered)
      ensures unchanged(session`isConnected, session`responseTimeoutMs)
      ensures old(!session.hasWorker && !session.streamOpen) ==> unchanged(session)
    {
      session.Dispose();
    }
  }
}
