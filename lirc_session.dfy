/**
 * The client object: its connection flags, the reader loop that runs in
 * the background, the response queue, the callbacks it fires and the
 * operations of its public surface, each proved against the session
 * functions of LircProtocol and LircCommands.
 *
 * The daemon's side of the socket is the sequence `wire` of lines it
 * sends; how far the background reader gets while an operation waits is
 * the `budget` argument (the number of reader iterations that complete
 * before the response timeout fires).
 */
module LircSession {
  import opened LircTypes
  import opened LircText
  import opened LircProtocol
  import opened LircCommands

  /** One call of an event callback. */
  datatype Call = SyncCall(event: Event) | AsyncCall(event: Event)

  /** Firing one event: the synchronous callback first, then the asynchronous one, each only when set. */
  function Calls(sync: bool, async: bool, ev: Event): (cs: seq<Call>)
    ensures |cs| == (if sync then 1 else 0) + (if async then 1 else 0)
    ensures forall i :: 0 <= i < |cs| ==> cs[i].event == ev
    ensures sync ==> cs[0] == SyncCall(ev)
    ensures async ==> cs[|cs| - 1] == AsyncCall(ev)
  {
    (if sync then [SyncCall(ev)] else []) + (if async then [AsyncCall(ev)] else [])
  }

  /** The callback calls for a sequence of fired events. */
  function Deliveries(sync: bool, async: bool, evs: seq<Event>): (cs: seq<Call>)
    ensures !sync && !async ==> cs == []
    ensures sync != async ==> |cs| == |evs|
  {
    if evs == [] then [] else Deliveries(sync, async, evs[..|evs| - 1]) + Calls(sync, async, evs[|evs| - 1])
  }

  /** Delivering two runs of events delivers the first run, then the second. */
  lemma {:induction false} DeliveriesAppend(sync: bool, async: bool, a: seq<Event>, b: seq<Event>)
    ensures Deliveries(sync, async, a + b) == Deliveries(sync, async, a) + Deliveries(sync, async, b)
    decreases |b|
  {
    if b == [] {
      assert a + b == a;
    } else {
      var init := b[..|b| - 1];
      assert (a + b)[..|a + b| - 1] == a + init;
      DeliveriesAppend(sync, async, a, init);
    }
  }

  /**
   * Every event reaches the callbacks that are set, in the order the events
   * were fired: the calls for event i come after those for the events
   * before it and before those for the events after it, the synchronous
   * callback first.
   */
  lemma DeliveriesInOrder(sync: bool, async: bool, evs: seq<Event>, i: nat)
    requires i < |evs|
    ensures Deliveries(sync, async, evs)
            == Deliveries(sync, async, evs[..i]) + Calls(sync, async, evs[i]) + Deliveries(sync, async, evs[i + 1..])
  {
    assert evs == (evs[..i] + [evs[i]]) + evs[i + 1..];
    DeliveriesAppend(sync, async, evs[..i] + [evs[i]], evs[i + 1..]);
    DeliveriesAppend(sync, async, evs[..i], [evs[i]]);
    assert Deliveries(sync, async, [evs[i]]) == Calls(sync, async, evs[i]) by {
      assert [evs[i]][..0] == [];
    }
  }

  class Client {
    /** The lines the daemon sends on the socket, in order. */
    const wire: seq<string>
    /** Whether the synchronous and the asynchronous event callbacks are set. */
    const onEventSync: bool
    const onEventAsync: bool
    /** How long an operation waits for its reply. */
    var responseTimeoutMs: nat

    var isConnected: bool
    /** The reader loop's task exists. */
    var hasWorker: bool
    /** The cancellation source of the reader loop has been cancelled. */
    var cancelled: bool
    /** The network stream exists and is not disposed. */
    var streamOpen: bool
    /** The reader loop has not ended. */
    var running: bool
    /** The number of lines of `wire` the reader has consumed. */
    var cursor: nat
    /** The response channel. */
    var queue: seq<Response>
    /** The events fired so far, and the callback calls they made. */
    var fired: seq<Event>
    var delivered: seq<Call>
    /** The command lines written to the socket. */
    var written: seq<string>

    ghost predicate Valid()
      reads this
    {
      && cursor <= |wire|
      && delivered == Deliveries(onEventSync, onEventAsync, fired)
      && (running ==> hasWorker)
      && (hasWorker ==> isConnected && streamOpen && !cancelled)
      && (streamOpen ==> isConnected)
      && (!isConnected ==> cursor == 0 && queue == [] && fired == [] && written == [] && !cancelled)
    }

    /** The part of the state the reader loop and the command engine work on. */
    function Snapshot(): Engine
      reads this
    {
      Engine(cursor, queue, fired, running, written, streamOpen)
    }

    /** A client with one asynchronous callback and a ten-second response timeout. */
    constructor(wire: seq<string>)
      ensures Valid() && !isConnected && !streamOpen
      ensures this.wire == wire && !onEventSync && onEventAsync && responseTimeoutMs == 10000
    {
      this.wire := wire;
      onEventSync := false;
      onEventAsync := true;
      responseTimeoutMs := 10000;
      isConnected, hasWorker, cancelled, streamOpen, running := false, false, false, false, false;
      cursor, queue, fired, delivered, written := 0, [], [], [], [];
    }

    /** A client with the callbacks and the response timeout of its settings. */
    constructor WithSettings(wire: seq<string>, onEventSync: bool, onEventAsync: bool, responseTimeoutMs: nat)
      ensures Valid() && !isConnected && !streamOpen
      ensures this.wire == wire && this.onEventSync == onEventSync && this.onEventAsync == onEventAsync
      ensures this.responseTimeoutMs == responseTimeoutMs
    {
      this.wire := wire;
      this.onEventSync := onEventSync;
      this.onEventAsync := onEventAsync;
      this.responseTimeoutMs := responseTimeoutMs;
      isConnected, hasWorker, cancelled, streamOpen, running := false, false, false, false, false;
      cursor, queue, fired, delivered, written := 0, [], [], [], [];
    }

    /**
     * Connects once: a second call fails with AlreadyConnected, an endpoint
     * that refuses fails with ConnectFailed, and both leave the client as
     * it was; otherwise the reader loop starts on an empty session.
     */
    method Connect(peerAccepts: bool) returns (r: Result<()>)
      requires Valid()
      modifies this
      ensures Valid()
      ensures old(isConnected) ==> r == Err(AlreadyConnected) && unchanged(this)
      ensures !old(isConnected) && !peerAccepts ==> r == Err(ConnectFailed) && unchanged(this)
      ensures !old(isConnected) && peerAccepts ==>
                r == Ok(()) && isConnected && hasWorker && Snapshot() == Connected()
                && responseTimeoutMs == old(responseTimeoutMs)
    {
      if isConnected {
        return Err(AlreadyConnected);
      }
      if !peerAccepts {
        return Err(ConnectFailed);
      }
      CompleteConnection();
      r := Ok(());
    }

    /** Opens the stream, starts the reader loop and marks the client connected. */
    method CompleteConnection()
      requires Valid() && !isConnected
      modifies this
      ensures Valid() && isConnected && hasWorker && Snapshot() == Connected()
      ensures responseTimeoutMs == old(responseTimeoutMs)
    {
      streamOpen := true;
      hasWorker := true;
      running := true;
      isConnected := true;
    }

    method AssertConnected() returns (r: Result<()>)
      ensures r.Ok? <==> isConnected
      ensures r.Err? ==> r.error == NotConnected
    {
      if !isConnected {
        return Err(NotConnected);
      }
      return Ok(());
    }

    /** Drops every reply still queued. */
    method FlushResponses()
      modifies this`queue
      ensures queue == []
    {
      while queue != []
        decreases |queue|
      {
        queue := queue[1..];
      }
    }

    // -------------------------------------------------------------------
    // The reader.

    /** The next line; the end of the stream is "connection lost". */
    method ReadResponseLine() returns (r: Result<string>)
      modifies this`cursor
      ensures Read(r, cursor) == LineAt(wire, old(cursor))
    {
      if cursor < |wire| {
        r := Ok(wire[cursor]);
        cursor := cursor + 1;
      } else {
        r := Err(ConnectionLost);
      }
    }

    /** The `n` data lines of a reply, or "connection lost" when the stream ends first. */
    method ReadDataLines(n: nat) returns (r: Result<seq<string>>)
      requires cursor <= |wire|
      modifies this`cursor
      ensures old(cursor) + n <= |wire| ==> r == Ok(wire[old(cursor)..old(cursor) + n]) && cursor == old(cursor) + n
      ensures old(cursor) + n > |wire| ==> r == Err(ConnectionLost) && cursor == |wire|
    {
      var data: seq<string> := [];
      for i := 0 to n
        invariant cursor == old(cursor) + i <= |wire|
        invariant data == wire[old(cursor)..cursor]
      {
        var line := ReadResponseLine();
        if line.Err? {
          return Err(line.error);
        }
        data := data + [line.value];
      }
      return Ok(data);
    }

    /** Reads the count line, that many data lines and the closing END of a reply. */
    method ReadDataBlock(command: string, success: bool) returns (r: Result<Response>)
      requires cursor <= |wire|
      modifies this`cursor
      ensures Read(r, cursor) == DataBlockAt(wire, old(cursor), command, success)
    {
      var length := ReadResponseLine();
      if length.Err? {
        return Err(length.error);
      }
      var numLines := TryParseInt32(length.value);
      if numLines.None? {
        return Err(InvalidResponseFormat);
      }
      if numLines.value < 0 {
        return Err(ArgumentError);
      }
      var data := ReadDataLines(numLines.value);
      if data.Err? {
        return Err(data.error);
      }
      var end := ReadResponseLine();
      if end.Err? {
        return Err(end.error);
      }
      if end.value != END {
        return Err(InvalidResponseFormat);
      }
      return Ok(Response(command, success, data.value));
    }

    /** The rest of a reply after its echoed command. */
    method ReadPacket(command: string) returns (r: Result<Response>)
      requires cursor <= |wire|
      modifies this`cursor
      ensures Read(r, cursor) == PacketAt(wire, old(cursor), command)
    {
      var status := ReadResponseLine();
      if status.Err? {
        return Err(status.error);
      }
      if status.value != SUCCESS && status.value != ERROR {
        return Err(InvalidResponseFormat);
      }
      var dataOrEnd := ReadResponseLine();
      if dataOrEnd.Err? {
        return Err(dataOrEnd.error);
      }
      if dataOrEnd.value == DATA {
        r := ReadDataBlock(command, status.value == SUCCESS);
      } else if dataOrEnd.value == END {
        return Ok(Response(command, status.value == SUCCESS, []));
      } else {
        return Err(InvalidResponseFormat);
      }
    }

    /** One iteration of the reader loop's body, up to the point where it dispatches what it read. */
    method ReadItem() returns (r: Result<Item>)
      requires cursor <= |wire|
      modifies this`cursor
      ensures Read(r, cursor) == ItemAt(wire, old(cursor))
    {
      var line := ReadResponseLine();
      if line.Err? {
        return Err(line.error);
      }
      if line.value == BEGIN {
        var commandOrSighup := ReadResponseLine();
        if commandOrSighup.Err? {
          return Err(commandOrSighup.error);
        }
        if commandOrSighup.value == SIGHUP {
          var end := ReadResponseLine();
          if end.Err? {
            return Err(end.error);
          }
          if end.value != END {
            return Err(InvalidSighupMessage);
          }
          return Ok(Notice(Sighup));
        }
        var packet := ReadPacket(commandOrSighup.value);
        if packet.Err? {
          return Err(packet.error);
        }
        return Ok(Packet(packet.value));
      }
      var split := Split(line.value);
      if |split| < 4 {
        return Ok(Dropped);
      }
      var repeat := HexInt32(split[1]);
      if repeat.Err? {
        return Err(repeat.error);
      }
      var code := FromHexString(split[0]);
      if code.None? {
        return Err(FormatError);
      }
      return Ok(Notice(ReceivedButton(DecodedButton(ButtonInfo(code.value, split[2], split[3]), repeat.value))));
    }

    /** Calls the callbacks that are set with the event. */
    method FireEvent(ev: Event)
      requires delivered == Deliveries(onEventSync, onEventAsync, fired)
      modifies this`fired, this`delivered
      ensures fired == old(fired) + [ev]
      ensures delivered == old(delivered) + Calls(onEventSync, onEventAsync, ev)
      ensures delivered == Deliveries(onEventSync, onEventAsync, fired)
    {
      ghost var calls := Calls(onEventSync, onEventAsync, ev);
      if onEventSync {
        delivered := delivered + [SyncCall(ev)];
      }
      if onEventAsync {
        delivered := delivered + [AsyncCall(ev)];
      }
      assert delivered == old(delivered) + calls by {
        if onEventSync && onEventAsync {
          assert calls == [SyncCall(ev), AsyncCall(ev)];
        }
      }
      fired := fired + [ev];
      assert fired[..|fired| - 1] == old(fired);
      assert Deliveries(onEventSync, onEventAsync, fired) == old(delivered) + calls;
    }

    /**
     * One iteration of the reader loop: a reply goes to the response queue,
     * a notice to the callbacks; a failure is reported as Disconnected and
     * ends the loop.
     */
    method WorkerStep()
      requires Valid() && running
      modifies this
      ensures Valid()
      ensures Snapshot() == Step(wire, old(Snapshot()))
      ensures unchanged(this`isConnected, this`hasWorker, this`cancelled, this`responseTimeoutMs)
    {
      ghost var e := Snapshot();
      var item := ReadItem();
      assert Step(wire, e) == Apply(e, Read(item, cursor));
      Dispatch(item);
    }

    /** The second half of an iteration: what is done with the unit just read. */
    method Dispatch(item: Result<Item>)
      requires Valid() && running
      modifies this`queue, this`fired, this`delivered, this`running
      ensures Valid()
      ensures Snapshot() == Apply(old(Snapshot()), Read(item, cursor))
    {
      ghost var e := Snapshot();
      match item
      case Ok(Packet(response)) =>
        queue := queue + [response];
        assert Snapshot() == e.(queue := e.queue + [response]);
      case Ok(Notice(ev)) =>
        FireEvent(ev);
        assert Snapshot() == e.(fired := e.fired + [ev]);
      case Ok(Dropped) =>
      case Err(err) =>
        FireEvent(Disconnected(err));
        running := false;
        assert Snapshot() == e.(fired := e.fired + [Disconnected(err)], running := false);
    }

    /** The reader loop, left to run for `budget` iterations while no operation waits. */
    method RunWorker(budget: nat)
      requires Valid()
      modifies this
      ensures Valid()
      ensures Snapshot() == Run(wire, old(Snapshot()), budget)
      ensures unchanged(this`isConnected, this`hasWorker, this`cancelled, this`responseTimeoutMs)
    {
      ghost var e0 := Snapshot();
      var i := 0;
      while i < budget && running
        invariant i <= budget && Valid()
        invariant Snapshot() == Run(wire, e0, i)
        invariant unchanged(this`isConnected, this`hasWorker, this`cancelled, this`responseTimeoutMs)
      {
        RunSnoc(wire, e0, i);
        WorkerStep();
        i := i + 1;
      }
      if i < budget {
        RunStopped(wire, e0, i, budget);
      }
    }

    /** The reader loop while an operation waits for its reply. */
    method AwaitResponse(budget: nat)
      requires Valid()
      modifies this
      ensures Valid()
      ensures Snapshot() == Await(wire, old(Snapshot()), budget)
      ensures unchanged(this`isConnected, this`hasWorker, this`cancelled, this`responseTimeoutMs)
    {
      ghost var e0 := Snapshot();
      var i := 0;
      while i < budget && running && queue == []
        invariant i <= budget && Valid()
        invariant Snapshot() == Await(wire, e0, i)
        invariant unchanged(this`isConnected, this`hasWorker, this`cancelled, this`responseTimeoutMs)
      {
        AwaitSnoc(wire, e0, i);
        WorkerStep();
        i := i + 1;
      }
      if i < budget {
        AwaitStopped(wire, e0, i, budget);
      }
    }

    // -------------------------------------------------------------------
    // The command engine.

    /**
     * Drains stale replies, writes the command line, waits for the next
     * reply and checks that it answers the command and succeeded.
     */
    method SendReceive(command: string, budget: nat) returns (r: Result<Response>)
      requires Valid() && isConnected
      modifies this
      ensures Valid()
      ensures Outcome(r, Snapshot()) == LircCommands.SendReceive(wire, old(Snapshot()), command, budget)
      ensures unchanged(this`isConnected, this`hasWorker, this`cancelled, this`responseTimeoutMs)
    {
      FlushResponses();
      if !streamOpen {
        return Err(ObjectDisposed);
      }
      written := written + [command];
      AwaitResponse(budget);
      r := TakeReply(command);
    }

    /** Takes the reply the wait produced, or times out, and checks it against the command. */
    method TakeReply(command: string) returns (r: Result<Response>)
      requires Valid()
      modifies this`queue
      ensures Valid()
      ensures old(queue) == [] ==> r == Err(Timeout) && queue == []
      ensures old(queue) != [] ==> r == Check(command, old(queue)[0]) && queue == old(queue)[1..]
    {
      if queue == [] {
        return Err(Timeout);
      }
      var response := queue[0];
      queue := queue[1..];
      if response.command != command {
        return Err(ResponseMismatch);
      }
      if !response.success {
        if |response.data| > 0 {
          return Err(CommandFailed(response.data[0]));
        }
        return Err(CommandFailedWithoutDetails);
      }
      return Ok(response);
    }

    method GetVersion(budget: nat) returns (r: Result<string>)
      requires Valid()
      modifies this
      ensures Valid()
      ensures !old(isConnected) ==> r == Err(NotConnected) && unchanged(this)
      ensures old(isConnected) ==> Outcome(r, Snapshot()) == GetVersionOp(wire, old(Snapshot()), budget)
      ensures unchanged(this`isConnected, this`hasWorker, this`cancelled, this`responseTimeoutMs)
    {
      var connected := AssertConnected();
      if connected.Err? {
        return Err(connected.error);
      }
      var response := SendReceive(VERSION, budget);
      if response.Err? {
        return Err(response.error);
      }
      if |response.value.data| == 0 {
        return Err(ArgumentError);
      }
      return Ok(response.value.data[0]);
    }

    method ListRemoteControls(budget: nat) returns (r: Result<seq<string>>)
      requires Valid()
      modifies this
      ensures Valid()
      ensures !old(isConnected) ==> r == Err(NotConnected) && unchanged(this)
      ensures old(isConnected) ==> Outcome(r, Snapshot()) == ListRemoteControlsOp(wire, old(Snapshot()), budget)
      ensures unchanged(this`isConnected, this`hasWorker, this`cancelled, this`responseTimeoutMs)
    {
      var connected := AssertConnected();
      if connected.Err? {
        return Err(connected.error);
      }
      var response := SendReceive(LIST, budget);
      if response.Err? {
        return Err(response.error);
      }
      return Ok(response.value.data);
    }

    method ListRemoteControlKeys(remoteControl: string, budget: nat) returns (r: Result<seq<ButtonInfo>>)
      requires Valid()
      modifies this
      ensures Valid()
      ensures !old(isConnected) ==> r == Err(NotConnected) && unchanged(this)
      ensures old(isConnected) ==>
                Outcome(r, Snapshot()) == ListRemoteControlKeysOp(wire, old(Snapshot()), remoteControl, budget)
      ensures unchanged(this`isConnected, this`hasWorker, this`cancelled, this`responseTimeoutMs)
    {
      var connected := AssertConnected();
      if connected.Err? {
        return Err(connected.error);
      }
      var response := SendReceive(LIST + " " + remoteControl, budget);
      if response.Err? {
        return Err(response.error);
      }
      r := ParseKeyList(remoteControl, response.value.data);
    }

    method SendOnce(remoteControl: string, button: string, repeats: Int32, budget: nat) returns (r: Result<()>)
      requires Valid()
      modifies this
      ensures Valid()
      ensures !old(isConnected) ==> r == Err(NotConnected) && unchanged(this)
      ensures old(isConnected) ==>
                Outcome(r, Snapshot()) == SendOp(wire, old(Snapshot()), Once(remoteControl, button, repeats), budget)
      ensures unchanged(this`isConnected, this`hasWorker, this`cancelled, this`responseTimeoutMs)
    {
      var connected := AssertConnected();
      if connected.Err? {
        return Err(connected.error);
      }
      var command := SEND_ONCE + " " + remoteControl + " " + button;
      if repeats > 0 {
        command := command + " " + DecimalOf(repeats);
      }
      assert command == RequestText(Once(remoteControl, button, repeats));
      var response := SendReceive(command, budget);
      if response.Err? {
        return Err(response.error);
      }
      return Ok(());
    }

    method SendStart(remoteControl: string, button: string, budget: nat) returns (r: Result<()>)
      requires Valid()
      modifies this
      ensures Valid()
      ensures !old(isConnected) ==> r == Err(NotConnected) && unchanged(this)
      ensures old(isConnected) ==>
                Outcome(r, Snapshot()) == SendOp(wire, old(Snapshot()), Start(remoteControl, button), budget)
      ensures unchanged(this`isConnected, this`hasWorker, this`cancelled, this`responseTimeoutMs)
    {
      var connected := AssertConnected();
      if connected.Err? {
        return Err(connected.error);
      }
      var response := SendReceive(SEND_START + " " + remoteControl + " " + button, budget);
      if response.Err? {
        return Err(response.error);
      }
      return Ok(());
    }

    method SendStop(remoteControl: string, button: string, budget: nat) returns (r: Result<()>)
      requires Valid()
      modifies this
      ensures Valid()
      ensures !old(isConnected) ==> r == Err(NotConnected) && unchanged(this)
      ensures old(isConnected) ==>
                Outcome(r, Snapshot()) == SendOp(wire, old(Snapshot()), Stop(remoteControl, button), budget)
      ensures unchanged(this`isConnected, this`hasWorker, this`cancelled, this`responseTimeoutMs)
    {
      var connected := AssertConnected();
      if connected.Err? {
        return Err(connected.error);
      }
      var response := SendReceive(SEND_STOP + " " + remoteControl + " " + button, budget);
      if response.Err? {
        return Err(response.error);
      }
      return Ok(());
    }

    /**
     * Cancels and awaits the reader loop, which ends without reporting
     * Disconnected, then disposes the stream; the client still counts as
     * connected. A second call changes nothing.
     */
    method Dispose()
      requires Valid()
      modifies this
      ensures Valid()
      ensures !running && !hasWorker && !streamOpen
      ensures cancelled == (old(cancelled) || old(hasWorker))
      ensures cursor == old(cursor) && queue == old(queue) && written == old(written)
      ensures fired == old(fired) && delivered == old(delivered)
      ensures unchanged(this`isConnected, this`responseTimeoutMs)
      ensures old(!hasWorker && !streamOpen) ==> unchanged(this)
    {
      if hasWorker {
        cancelled := true;
        running := false;
        hasWorker := false;
      }
      streamOpen := false;
    }
  }
}
