/**
 * The line-level grammar of lircd's output and the background reader that
 * consumes it. The daemon's output is a sequence of lines `w`; the reader
 * holds a cursor into it, and a cursor at `|w|` is the end of the stream
 * (the `null` of a line read).
 */
module LircProtocol {
  import opened LircTypes
  import opened LircText

  const BEGIN: string := "BEGIN"
  const SIGHUP: string := "SIGHUP"
  const DATA: string := "DATA"
  const END: string := "END"
  const SUCCESS: string := "SUCCESS"
  const ERROR: string := "ERROR"

  /** What reading from the wire yields, and where it leaves the cursor. */
  datatype Read<T> = Read(result: Result<T>, next: nat)

  /** One logical unit of the daemon's output, as the reader loop classifies it. */
  datatype Item =
    | Packet(response: Response)   // a reply, for the response queue
    | Notice(event: Event)         // a reload signal or a button press, for the callbacks
    | Dropped                      // a broadcast line with fewer than four fields

  /** Reading one line: the end of the stream is "connection lost". */
  function LineAt(w: seq<string>, p: nat): (r: Read<string>)
    ensures r.result.Ok? <==> p < |w|
    ensures r.result.Ok? ==> r.result.value == w[p] && r.next == p + 1
    ensures r.result.Err? ==> r.result.error == ConnectionLost && r.next == p
  {
    if p < |w| then Read(Ok(w[p]), p + 1) else Read(Err(ConnectionLost), p)
  }

  /**
   * The rest of a reply after BEGIN and the echoed `command`: the status
   * line, then END, or DATA, a count n, n data lines and END.
   */
  function PacketAt(w: seq<string>, p: nat, command: string): (r: Read<Response>)
    ensures p <= r.next && (p <= |w| ==> r.next <= |w|)
    ensures r.result.Ok? ==> p < |w| && r.result.value.command == command
                             && (r.result.value.success <==> w[p] == SUCCESS)
  {
    if p >= |w| then Read(Err(ConnectionLost), p)
    else if w[p] != SUCCESS && w[p] != ERROR then Read(Err(InvalidResponseFormat), p + 1)
    else if p + 1 >= |w| then Read(Err(ConnectionLost), p + 1)
    else if w[p + 1] == DATA then DataBlockAt(w, p + 2, command, w[p] == SUCCESS)
    else if w[p + 1] == END then Read(Ok(Response(command, w[p] == SUCCESS, [])), p + 2)
    else Read(Err(InvalidResponseFormat), p + 2)
  }

  /**
   * The data block of a reply, from its count line: the count n, n data
   * lines and END.
   */
  function DataBlockAt(w: seq<string>, p: nat, command: string, success: bool): (r: Read<Response>)
    ensures p <= r.next && (p <= |w| ==> r.next <= |w|)
    ensures r.result.Ok? ==> p < |w| && r.result.value == Response(command, success, r.result.value.data)
                             && TryParseInt32(w[p]) == Some(|r.result.value.data|)
  {
    if p >= |w| then Read(Err(ConnectionLost), p)
    else
      match TryParseInt32(w[p])
      case None => Read(Err(InvalidResponseFormat), p + 1)
      case Some(n) =>
        // a negative count parses, but the list of that capacity cannot be made
        if n < 0 then Read(Err(ArgumentError), p + 1)
        else if p + 1 + n >= |w| then Read(Err(ConnectionLost), |w|)
        else if w[p + 1 + n] != END then Read(Err(InvalidResponseFormat), p + 2 + n)
        else Read(Ok(Response(command, success, w[p + 1..p + 1 + n])), p + 2 + n)
  }

  /**
   * A broadcast line `<code> <repeat> <button> <remote> ...`: the repeat is
   * converted before the code, so a line where both are bad fails as the
   * repeat does.
   */
  function DecodeBroadcast(line: string): Result<Item>
  {
    var fields := Split(line);
    if |fields| < 4 then Ok(Dropped)
    else
      match HexInt32(fields[1])
      case Err(e) => Err(e)
      case Ok(repeat) =>
        match FromHexString(fields[0])
        case None => Err(FormatError)
        case Some(code) =>
          Ok(Notice(ReceivedButton(DecodedButton(ButtonInfo(code, fields[2], fields[3]), repeat))))
  }

  /** One iteration of the reader loop, starting at cursor `p`. */
  function ItemAt(w: seq<string>, p: nat): (r: Read<Item>)
    ensures p <= r.next && (p <= |w| ==> r.next <= |w|)
    ensures r.result.Ok? && r.result.value.Notice? ==> !r.result.value.event.Disconnected?
  {
    if p >= |w| then Read(Err(ConnectionLost), p)
    else if w[p] == BEGIN then
      if p + 1 >= |w| then Read(Err(ConnectionLost), p + 1)
      else if w[p + 1] == SIGHUP then
        if p + 2 >= |w| then Read(Err(ConnectionLost), p + 2)
        else if w[p + 2] != END then Read(Err(InvalidSighupMessage), p + 3)
        else Read(Ok(Notice(Sighup)), p + 3)
      else
        var r := PacketAt(w, p + 2, w[p + 1]);
        Read(if r.result.Ok? then Ok(Packet(r.result.value)) else Err(r.result.error), r.next)
    else Read(DecodeBroadcast(w[p]), p + 1)
  }

  /**
   * A line with fewer than four fields is dropped; otherwise the press takes
   * its code, repeat, button and remote from the first four fields, and the
   * line fails exactly when the repeat or the code does not convert, as the
   * repeat does when both are bad.
   */
  lemma DecodeBroadcastFields(line: string)
    ensures var r := DecodeBroadcast(line);
            var f := Split(line);
            && (|f| < 4 ==> r == Ok(Dropped))
            && (r.Err? <==> |f| >= 4 && (HexInt32(f[1]).Err? || FromHexString(f[0]).None?))
            && (r.Err? ==> r.error == (if HexInt32(f[1]).Err? then HexInt32(f[1]).error else FormatError))
            && (r.Ok? && |f| >= 4 ==>
                  && r.value.Notice? && r.value.event.ReceivedButton?
                  && var b := r.value.event.button;
                  && Some(b.buttonInfo.code) == FromHexString(f[0]) && Ok(b.repeat) == HexInt32(f[1])
                  && b.buttonInfo.button == f[2] && b.buttonInfo.remoteControl == f[3])
  {
  }

  // ---------------------------------------------------------------------
  // What the daemon sends, as the reader's partner.

  function StatusLine(success: bool): string
  {
    if success then SUCCESS else ERROR
  }

  /** A reply: BEGIN, the echoed command, the status, then END or DATA n, the lines, END. */
  function ReplyLines(r: Response): seq<string>
  {
    [BEGIN, r.command, StatusLine(r.success)]
    + (if r.data == [] then [END] else [DATA, DecimalOf(|r.data|)] + r.data + [END])
  }

  /**
   * A broadcast of a button press with a non-negative repeat count: the
   * code, the repeat in at least two zero-padded hex digits, the button and
   * the remote.
   */
  function BroadcastLine(d: DecodedButton): string
    requires d.repeat >= 0
  {
    Join([ToHexString(d.buttonInfo.code), Hex2(d.repeat), d.buttonInfo.button, d.buttonInfo.remoteControl])
  }

  /** Every reply the daemon can send is read back as itself, and exactly its lines are consumed. */
  lemma ReplyRoundTrip(r: Response, rest: seq<string>)
    requires r.command != SIGHUP && |r.data| < 0x8000_0000
    ensures ItemAt(ReplyLines(r) + rest, 0) == Read(Ok(Packet(r)), |ReplyLines(r)|)
  {
    var w := ReplyLines(r) + rest;
    assert w[0] == BEGIN && w[1] == r.command && w[2] == StatusLine(r.success);
    if r.data == [] {
      assert w[3] == END;
    } else {
      DecimalRoundTrip(|r.data|);
      assert w[3] == DATA && w[4] == DecimalOf(|r.data|);
      assert w[5..5 + |r.data|] == r.data;
      assert w[5 + |r.data|] == END;
    }
  }

  /**
   * A broadcast whose repeat field is any run of hex digits (leading zeros
   * included) of a 32-bit value decodes to the button press with that value
   * read as a two's-complement int.
   */
  lemma BroadcastDecodes(d: DecodedButton, rep: string)
    requires |rep| >= 1 && AllHex(rep) && HexValue(rep) < 0x1_0000_0000 && d.repeat == Wrap32(HexValue(rep))
    requires SpaceFree(d.buttonInfo.button) && SpaceFree(d.buttonInfo.remoteControl)
    ensures DecodeBroadcast(Join([ToHexString(d.buttonInfo.code), rep, d.buttonInfo.button, d.buttonInfo.remoteControl]))
            == Ok(Notice(ReceivedButton(d)))
  {
    var code := ToHexString(d.buttonInfo.code);
    HexSpaceFree(code);
    HexSpaceFree(rep);
    var fields := [code, rep, d.buttonInfo.button, d.buttonInfo.remoteControl];
    var line := Join(fields);
    SplitJoin(fields);
    assert Split(line) == fields;
    HexRoundTrip(d.buttonInfo.code);
    HexInt32Value(rep);
    DecodeFields(line, fields, d.buttonInfo.code, d.repeat);
  }

  /** A button press survives the daemon's broadcast of it and decoding unchanged. */
  lemma BroadcastRoundTrip(d: DecodedButton)
    requires d.repeat >= 0
    requires SpaceFree(d.buttonInfo.button) && SpaceFree(d.buttonInfo.remoteControl)
    ensures DecodeBroadcast(BroadcastLine(d)) == Ok(Notice(ReceivedButton(d)))
  {
    BroadcastDecodes(d, Hex2(d.repeat));
  }

  /** The broadcast quoted beside the decoder: sixteen hex digits are an eight-byte code. */
  lemma BroadcastExample(line: string)
    requires line == "0000000000f40bf0 00 KEY_UP ANIMAX"
    ensures DecodeBroadcast(line)
            == Ok(Notice(ReceivedButton(DecodedButton(
                 ButtonInfo([0x00, 0x00, 0x00, 0x00, 0x00, 0xf4, 0x0b, 0xf0], "KEY_UP", "ANIMAX"), 0))))
  {
    var code: seq<byte> := [0x00, 0x00, 0x00, 0x00, 0x00, 0xf4, 0x0b, 0xf0];
    var fields := ["0000000000f40bf0", "00", "KEY_UP", "ANIMAX"];
    ExampleFields(line, fields);
    ExampleCodeDecodes(code, fields[0]);
    ExampleRepeat(fields[1]);
    DecodeFields(line, fields, code, 0);
  }

  /** DecodeBroadcast, given the fields of the line and their conversions. */
  lemma DecodeFields(line: string, fields: seq<string>, code: seq<byte>, repeat: Int32)
    requires Split(line) == fields && |fields| >= 4
    requires HexInt32(fields[1]) == Ok(repeat) && FromHexString(fields[0]) == Some(code)
    ensures DecodeBroadcast(line) == Ok(Notice(ReceivedButton(DecodedButton(ButtonInfo(code, fields[2], fields[3]), repeat))))
  {
  }

  lemma ExampleRepeat(s: string)
    requires s == "00"
    ensures HexInt32(s) == Ok(0)
  {
    assert s[0] == '0' && s[1] == '0';
    assert HexPrefixLength(s[1..]) == 1;
    assert HexPrefixLength(s) == 2;
    assert s[..2] == s && s[..1] == "0";
    assert HexValue(s[..1]) == 0;
  }

  lemma ExampleFields(line: string, fields: seq<string>)
    requires line == "0000000000f40bf0 00 KEY_UP ANIMAX"
    requires fields == ["0000000000f40bf0", "00", "KEY_UP", "ANIMAX"]
    ensures Split(line) == fields
  {
    JoinFour(fields);
    assert fields[0] + " " + (fields[1] + " " + (fields[2] + " " + fields[3])) == line;
    assert SpaceFree(fields[0]) && SpaceFree(fields[1]) && SpaceFree(fields[2]) && SpaceFree(fields[3]);
    SplitJoin(fields);
  }

  lemma ExampleCode(code: seq<byte>, s: string)
    requires code == [0x00, 0x00, 0x00, 0x00, 0x00, 0xf4, 0x0b, 0xf0]
    requires s == "0000000000f40bf0"
    ensures ToHexString(code) == s
  {
    assert ToHexString(code[7..]) == "f0";
    assert ToHexString(code[6..]) == "0bf0";
    assert ToHexString(code[5..]) == "f40bf0";
    assert ToHexString(code[4..]) == "00f40bf0";
    assert ToHexString(code[3..]) == "0000f40bf0";
    assert ToHexString(code[2..]) == "000000f40bf0";
    assert ToHexString(code[1..]) == "00000000f40bf0";
  }

  lemma ExampleCodeDecodes(code: seq<byte>, s: string)
    requires code == [0x00, 0x00, 0x00, 0x00, 0x00, 0xf4, 0x0b, 0xf0]
    requires s == "0000000000f40bf0"
    ensures FromHexString(s) == Some(code)
  {
    ExampleCode(code, s);
    HexRoundTrip(code);
  }

  // ---------------------------------------------------------------------
  // Properties of the grammar.

  /** A well-formed reply with a data block: the declared lines, in order, and n+4 lines consumed. */
  lemma PacketWithData(w: seq<string>, p: nat, command: string, n: nat)
    requires p + 3 + n < |w|
    requires w[p] == SUCCESS || w[p] == ERROR
    requires w[p + 1] == DATA && TryParseInt32(w[p + 2]) == Some(n) && w[p + 3 + n] == END
    ensures PacketAt(w, p, command)
         == Read(Ok(Response(command, w[p] == SUCCESS, w[p + 3..p + 3 + n])), p + n + 4)
    ensures |w[p + 3..p + 3 + n]| == n
  {
  }

  /** A well-formed reply without data: empty data and 2 lines consumed. */
  lemma PacketWithoutData(w: seq<string>, p: nat, command: string)
    requires p + 1 < |w|
    requires w[p] == SUCCESS || w[p] == ERROR
    requires w[p + 1] == END
    ensures PacketAt(w, p, command) == Read(Ok(Response(command, w[p] == SUCCESS, [])), p + 2)
  {
  }

  /** The four framing faults are each "Invalid response format", with no response. */
  lemma PacketFormatFaults(w: seq<string>, p: nat, command: string, n: nat)
    ensures p < |w| && w[p] != SUCCESS && w[p] != ERROR
            ==> PacketAt(w, p, command).result == Err(InvalidResponseFormat)
    ensures p + 1 < |w| && (w[p] == SUCCESS || w[p] == ERROR) && w[p + 1] != DATA && w[p + 1] != END
            ==> PacketAt(w, p, command).result == Err(InvalidResponseFormat)
    ensures p + 2 < |w| && (w[p] == SUCCESS || w[p] == ERROR) && w[p + 1] == DATA
            && TryParseInt32(w[p + 2]).None?
            ==> PacketAt(w, p, command).result == Err(InvalidResponseFormat)
    ensures p + 3 + n < |w| && (w[p] == SUCCESS || w[p] == ERROR) && w[p + 1] == DATA
            && TryParseInt32(w[p + 2]) == Some(n) && w[p + 3 + n] != END
            ==> PacketAt(w, p, command).result == Err(InvalidResponseFormat)
  {
  }

  /**
   * What a successfully read reply consumed is exactly its frame: the status,
   * then END with no data, or DATA, a count that reads as the number of data
   * lines, the data lines and END.
   */
  lemma PacketFramed(w: seq<string>, p: nat, command: string)
    requires PacketAt(w, p, command).result.Ok?
    ensures var r := PacketAt(w, p, command);
            var resp := r.result.value;
            p + 1 < |w| && (w[p] == SUCCESS || w[p] == ERROR)
            && (w[p + 1] == END ==> resp.data == [] && w[p..r.next] == [w[p], END])
            && (w[p + 1] != END ==>
                  p + 2 < |w| && w[p + 1] == DATA && TryParseInt32(w[p + 2]) == Some(|resp.data|)
                  && w[p..r.next] == [w[p], DATA, w[p + 2]] + resp.data + [END])
  {
    var r := PacketAt(w, p, command);
    if w[p + 1] != END {
      assert w[p + 1] == DATA && p + 2 < |w|;
      var n := TryParseInt32(w[p + 2]).value;
      assert 0 <= n && p + 3 + n < |w| && w[p + 3 + n] == END;
      assert r.next == p + 4 + n && r.result.value.data == w[p + 3..p + 3 + n];
      FrameSlice(w, p, n);
    } else {
      assert r.next == p + 2;
      assert w[p..r.next] == [w[p], END];
    }
  }

  lemma FrameSlice(w: seq<string>, p: nat, n: nat)
    requires p + 3 + n < |w| && w[p + 1] == DATA && w[p + 3 + n] == END
    ensures w[p..p + 4 + n] == [w[p], DATA, w[p + 2]] + w[p + 3..p + 3 + n] + [END]
  {
  }

  /** BEGIN SIGHUP END is one reload notice; any other third line is "Invalid sighup message". */
  lemma SighupItem(w: seq<string>, p: nat)
    requires p + 2 < |w| && w[p] == BEGIN && w[p + 1] == SIGHUP
    ensures w[p + 2] == END ==> ItemAt(w, p) == Read(Ok(Notice(Sighup)), p + 3)
    ensures w[p + 2] != END ==> ItemAt(w, p).result == Err(InvalidSighupMessage)
  {
  }

  /** BEGIN and any other line: that line is the echoed command of a reply. */
  lemma ReplyItem(w: seq<string>, p: nat)
    requires p + 1 < |w| && w[p] == BEGIN && w[p + 1] != SIGHUP
    ensures var r := PacketAt(w, p + 2, w[p + 1]);
            ItemAt(w, p) == Read(if r.result.Ok? then Ok(Packet(r.result.value)) else Err(r.result.error), r.next)
  {
  }

  /**
   * A line other than BEGIN is a broadcast: with four or more fields it is a
   * button press built from the first four (the rest ignored); with fewer it
   * is dropped.
   */
  lemma BroadcastItem(w: seq<string>, p: nat)
    requires p < |w| && w[p] != BEGIN
    ensures var f := Split(w[p]);
            && (|f| < 4 ==> ItemAt(w, p) == Read(Ok(Dropped), p + 1))
            && (|f| >= 4 && HexInt32(f[1]).Ok? && FromHexString(f[0]).Some? ==>
                  ItemAt(w, p) == Read(Ok(Notice(ReceivedButton(DecodedButton(
                    ButtonInfo(FromHexString(f[0]).value, f[2], f[3]), HexInt32(f[1]).value)))), p + 1))
            && (|f| >= 4 && (HexInt32(f[1]).Err? || FromHexString(f[0]).None?) ==> ItemAt(w, p).result.Err?)
  {
  }

  // ---------------------------------------------------------------------
  // The background reader as a state machine.

  /**
   * The session state the reader and the command engine share: the cursor
   * into the daemon's output, the response queue, the log of fired events,
   * whether the reader loop still runs, the lines written, and whether the
   * stream is open.
   */
  datatype Engine = Engine(
    cursor: nat,
    queue: seq<Response>,
    fired: seq<Event>,
    running: bool,
    written: seq<string>,
    open: bool)

  /**
   * One iteration of the reader loop: a reply joins the tail of the queue,
   * a notice is fired, a short broadcast is dropped; a failure fires
   * Disconnected with that failure and ends the loop.
   */
  function Step(w: seq<string>, e: Engine): (t: Engine)
    requires e.running
    ensures t.written == e.written && t.open == e.open && e.cursor <= t.cursor
    ensures e.queue <= t.queue && |t.queue| <= |e.queue| + 1
    ensures e.fired <= t.fired && |t.fired| <= |e.fired| + 1
    ensures t.running ==> NoDisconnect(t.fired[|e.fired|..])
    ensures !t.running ==> |t.fired| == |e.fired| + 1 && t.fired[|e.fired|].Disconnected?
  {
    Apply(e, ItemAt(w, e.cursor))
  }

  /** The effect on the session state of one unit the reader loop has read. */
  function Apply(e: Engine, r: Read<Item>): Engine
  {
    match r.result
    case Ok(Packet(resp)) => e.(cursor := r.next, queue := e.queue + [resp])
    case Ok(Notice(ev)) => e.(cursor := r.next, fired := e.fired + [ev])
    case Ok(Dropped) => e.(cursor := r.next)
    case Err(err) => e.(cursor := r.next, fired := e.fired + [Disconnected(err)], running := false)
  }

  /** The reader loop given `budget` iterations; it stops early once it has ended. */
  function Run(w: seq<string>, e: Engine, budget: nat): Engine
    decreases budget
  {
    if budget == 0 || !e.running then e else Run(w, Step(w, e), budget - 1)
  }

  /**
   * The reader loop never writes or closes the stream, never moves the
   * cursor back, and only appends to the queue and the event log.
   */
  lemma {:induction false} RunGrows(w: seq<string>, e: Engine, budget: nat)
    ensures var t := Run(w, e, budget);
            && t.written == e.written && t.open == e.open && e.cursor <= t.cursor
            && e.queue <= t.queue && e.fired <= t.fired
    decreases budget
  {
    if budget > 0 && e.running {
      RunGrows(w, Step(w, e), budget - 1);
    }
  }

  /** Running one iteration more is one more Step, as long as the loop has not ended. */
  lemma {:induction false} RunSnoc(w: seq<string>, e: Engine, k: nat)
    requires Run(w, e, k).running
    ensures Run(w, e, k + 1) == Step(w, Run(w, e, k))
    decreases k
  {
    if k > 0 {
      RunSnoc(w, Step(w, e), k - 1);
    }
  }

  /** Once the loop has ended, further iterations change nothing. */
  lemma {:induction false} RunStopped(w: seq<string>, e: Engine, k: nat, m: nat)
    requires k <= m && !Run(w, e, k).running
    ensures Run(w, e, m) == Run(w, e, k)
    decreases k
  {
    if k > 0 && e.running {
      RunStopped(w, Step(w, e), k - 1, m - 1);
    }
  }

  predicate NoDisconnect(evs: seq<Event>)
  {
    forall i :: 0 <= i < |evs| ==> !evs[i].Disconnected?
  }

  /** End of input is "connection lost", reported once as Disconnected, and the loop ends. */
  lemma EndOfInputDisconnects(w: seq<string>, e: Engine)
    requires e.running && e.cursor >= |w|
    ensures Step(w, e) == e.(fired := e.fired + [Disconnected(ConnectionLost)], running := false)
  {
  }

  /** A reload notice fires exactly one Sighup event and leaves the queue alone. */
  lemma SighupStep(w: seq<string>, e: Engine)
    requires e.running && e.cursor + 2 < |w|
    requires w[e.cursor..e.cursor + 3] == [BEGIN, SIGHUP, END]
    ensures Step(w, e) == e.(cursor := e.cursor + 3, fired := e.fired + [Sighup])
  {
    assert w[e.cursor] == BEGIN && w[e.cursor + 1] == SIGHUP && w[e.cursor + 2] == END;
  }

  /** A reply goes to the tail of the queue and fires no event. */
  lemma ReplyStep(w: seq<string>, e: Engine)
    requires e.running && e.cursor + 1 < |w| && w[e.cursor] == BEGIN && w[e.cursor + 1] != SIGHUP
    requires PacketAt(w, e.cursor + 2, w[e.cursor + 1]).result.Ok?
    ensures var r := PacketAt(w, e.cursor + 2, w[e.cursor + 1]);
            Step(w, e) == e.(cursor := r.next, queue := e.queue + [r.result.value])
  {
  }

  /**
   * Between two states of the reader: the queue and the event log only grew,
   * and Disconnected was fired at most once, only as the last event, and
   * exactly when the loop has ended.
   */
  predicate DisconnectsOnce(e: Engine, t: Engine)
  {
    && e.queue <= t.queue && e.fired <= t.fired && e.cursor <= t.cursor
    && (t.running ==> NoDisconnect(t.fired[|e.fired|..]))
    && (!t.running ==> |t.fired| > |e.fired| && t.fired[|t.fired| - 1].Disconnected?
                       && NoDisconnect(t.fired[|e.fired|..|t.fired| - 1]))
  }

  lemma DisconnectsOnceCompose(e: Engine, s: Engine, t: Engine)
    requires DisconnectsOnce(e, s) && s.running && DisconnectsOnce(s, t)
    ensures DisconnectsOnce(e, t)
  {
    assert t.fired[|e.fired|..] == s.fired[|e.fired|..] + t.fired[|s.fired|..];
    if !t.running {
      assert t.fired[|e.fired|..|t.fired| - 1]
          == s.fired[|e.fired|..] + t.fired[|s.fired|..|t.fired| - 1];
    }
  }

  /**
   * Whatever the reader sees, the loop fires Disconnected at most once: only
   * as its last event, and exactly when it has ended.
   */
  lemma {:induction false} RunDisconnectsOnce(w: seq<string>, e: Engine, budget: nat)
    requires e.running
    ensures DisconnectsOnce(e, Run(w, e, budget))
    decreases budget
  {
    if budget == 0 {
      assert e.fired[|e.fired|..] == [];
    } else {
      var s := Step(w, e);
      assert DisconnectsOnce(e, s) by {
        if !s.running {
          assert s.fired[|e.fired|..|s.fired| - 1] == [];
        }
      }
      if s.running {
        RunDisconnectsOnce(w, s, budget - 1);
        DisconnectsOnceCompose(e, s, Run(w, s, budget - 1));
      }
    }
  }
}
