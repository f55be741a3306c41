/**
 * The command engine: the request lines the six operations write, the
 * checks a reply must pass, the mapping of its data to each operation's
 * result, and the exchange itself (drain the queue, write, wait for the
 * next reply) as a function of the session state.
 */
module LircCommands {
  import opened LircTypes
  import opened LircText
  import opened LircProtocol

  const VERSION: string := "VERSION"
  const LIST: string := "LIST"
  const SEND_ONCE: string := "SEND_ONCE"
  const SEND_START: string := "SEND_START"
  const SEND_STOP: string := "SEND_STOP"

  /** The six requests of the public surface. */
  datatype Request =
    | Version
    | List
    | ListKeys(remote: string)
    | Once(remote: string, button: string, repeats: Int32)
    | Start(remote: string, button: string)
    | Stop(remote: string, button: string)

  /** The command line written for a request; SEND_ONCE carries the repeat count only when it is positive. */
  function RequestText(q: Request): string
  {
    match q
    case Version => VERSION
    case List => LIST
    case ListKeys(r) => LIST + " " + r
    case Once(r, b, n) => SEND_ONCE + " " + r + " " + b + (if n > 0 then " " + DecimalOf(n) else "")
    case Start(r, b) => SEND_START + " " + r + " " + b
    case Stop(r, b) => SEND_STOP + " " + r + " " + b
  }

  /** The tokens the daemon reads a request as. */
  function Tokens(q: Request): seq<string>
  {
    match q
    case Version => [VERSION]
    case List => [LIST]
    case ListKeys(r) => [LIST, r]
    case Once(r, b, n) => [SEND_ONCE, r, b] + (if n > 0 then [DecimalOf(n)] else [])
    case Start(r, b) => [SEND_START, r, b]
    case Stop(r, b) => [SEND_STOP, r, b]
  }

  /** Remote and button names are single tokens. */
  predicate WellFormed(q: Request)
  {
    match q
    case Version => true
    case List => true
    case ListKeys(r) => SpaceFree(r)
    case Once(r, b, _) => SpaceFree(r) && SpaceFree(b)
    case Start(r, b) => SpaceFree(r) && SpaceFree(b)
    case Stop(r, b) => SpaceFree(r) && SpaceFree(b)
  }

  /** A request with its non-positive repeat counts, which are not sent, set to zero. */
  function Normal(q: Request): Request
  {
    if q.Once? && q.repeats <= 0 then q.(repeats := 0) else q
  }

  /** The request line is the request's tokens separated by single spaces. */
  lemma RequestTokens(q: Request)
    requires WellFormed(q)
    ensures Split(RequestText(q)) == Tokens(q)
  {
    TokensSpaceFree(q);
    RequestJoin(q);
    SplitJoin(Tokens(q));
  }

  lemma TokensSpaceFree(q: Request)
    requires WellFormed(q)
    ensures |Tokens(q)| >= 1
    ensures forall i :: 0 <= i < |Tokens(q)| ==> SpaceFree(Tokens(q)[i])
  {
    if q.Once? && q.repeats > 0 {
      var d := DecimalOf(q.repeats);
      assert SpaceFree(d) by { assert forall k :: 0 <= k < |d| ==> IsDecimalDigit(d[k]); }
    }
  }

  lemma RequestJoin(q: Request)
    ensures |Tokens(q)| >= 1 && RequestText(q) == Join(Tokens(q))
  {
    match q
    case Version =>
    case List =>
    case ListKeys(r) =>
      JoinWords(LIST, r, "", "");
    case Once(r, b, n) =>
      if n > 0 {
        JoinWords(SEND_ONCE, r, b, DecimalOf(n));
        assert RequestText(q) == SEND_ONCE + " " + r + " " + b + " " + DecimalOf(n);
        assert Tokens(q) == [SEND_ONCE, r, b, DecimalOf(n)];
      } else {
        JoinWords(SEND_ONCE, r, b, "");
        var x := SEND_ONCE + " " + r + " " + b;
        assert x + "" == x;
        assert Tokens(q) == [SEND_ONCE, r, b] + [] == [SEND_ONCE, r, b];
      }
    case Start(r, b) =>
      JoinWords(SEND_START, r, b, "");
    case Stop(r, b) =>
      JoinWords(SEND_STOP, r, b, "");
  }

  /**
   * Different requests are written as different lines, so a reply that
   * echoes the line that was sent answers that request and no other.
   */
  lemma RequestTextInjective(q1: Request, q2: Request)
    requires WellFormed(q1) && WellFormed(q2)
    requires RequestText(q1) == RequestText(q2)
    ensures Normal(q1) == Normal(q2)
  {
    RequestTokens(q1);
    RequestTokens(q2);
    TokensInjective(q1, q2);
  }

  lemma TokensInjective(q1: Request, q2: Request)
    requires Tokens(q1) == Tokens(q2)
    ensures Normal(q1) == Normal(q2)
  {
    var t1, t2 := Tokens(q1), Tokens(q2);
    assert t1[0] == t2[0] && |t1| == |t2|;
    assert SEND_ONCE != SEND_STOP by { assert SEND_ONCE[5] != SEND_STOP[5]; }
    assert SEND_ONCE != SEND_START by { assert SEND_ONCE[5] != SEND_START[5]; }
    assert SEND_START != SEND_STOP by { assert |SEND_START| != |SEND_STOP|; }
    assert VERSION != LIST by { assert |VERSION| != |LIST|; }
    match q1
    case Version =>
    case List =>
    case ListKeys(r) =>
      assert t1[1] == t2[1];
    case Once(r, b, n) =>
      assert t1[1] == t2[1] && t1[2] == t2[2];
      if n > 0 {
        assert t1[3] == t2[3];
        DecimalRoundTrip(n);
        DecimalRoundTrip(q2.repeats);
      }
    case Start(r, b) =>
      assert t1[1] == t2[1] && t1[2] == t2[2];
    case Stop(r, b) =>
      assert t1[1] == t2[1] && t1[2] == t2[2];
  }

  // ---------------------------------------------------------------------
  // The checks of a reply and the results built from it.

  /**
   * A reply answers the command only if it echoes the command text exactly;
   * an ERROR status is a failure carrying the first data line, if any.
   */
  function Check(command: string, r: Response): (res: Result<Response>)
    ensures res.Ok? <==> r.command == command && r.success
    ensures res.Ok? ==> res.value == r
    ensures r.command != command ==> res == Err(ResponseMismatch)
    ensures r.command == command && !r.success && r.data != [] ==> res == Err(CommandFailed(r.data[0]))
    ensures r.command == command && !r.success && r.data == [] ==> res == Err(CommandFailedWithoutDetails)
  {
    if r.command != command then Err(ResponseMismatch)
    else if !r.success then
      if |r.data| > 0 then Err(CommandFailed(r.data[0])) else Err(CommandFailedWithoutDetails)
    else Ok(r)
  }

  /** VERSION: the first data line; a reply without data fails as the empty-list index does. */
  function VersionOf(r: Response): (v: Result<string>)
    ensures v.Ok? <==> |r.data| > 0
    ensures v.Ok? ==> v.value == r.data[0]
    ensures v.Err? ==> v.error == ArgumentError
  {
    if |r.data| > 0 then Ok(r.data[0]) else Err(ArgumentError)
  }

  /** The fields of the data lines that have at least two fields, in order. */
  function KeyRows(data: seq<string>): (rows: seq<seq<string>>)
    ensures |rows| <= |data|
    ensures forall i :: 0 <= i < |rows| ==> |rows[i]| >= 2
  {
    if data == [] then []
    else
      var fields := Split(data[|data| - 1]);
      KeyRows(data[..|data| - 1]) + (if |fields| >= 2 then [fields] else [])
  }

  /** Every data line with at least two fields starts with a hex code. */
  predicate CodesHex(data: seq<string>)
  {
    forall i :: 0 <= i < |data| && |Split(data[i])| >= 2 ==> FromHexString(Split(data[i])[0]).Some?
  }

  /**
   * LIST <remote>: every data line with at least two fields, in order,
   * becomes a button of that remote with the first field as its hex code
   * and the second as its name; shorter lines are skipped, and a code that
   * is not hex fails the whole list.
   */
  function KeysFrom(remote: string, data: seq<string>): (r: Result<seq<ButtonInfo>>)
    ensures r.Err? ==> r.error == FormatError
    ensures r.Ok? ==> |r.value| == |KeyRows(data)|
    ensures r.Ok? ==> forall i :: 0 <= i < |r.value| ==> r.value[i].remoteControl == remote
  {
    if data == [] then Ok([])
    else
      match KeysFrom(remote, data[..|data| - 1])
      case Err(e) => Err(e)
      case Ok(keys) =>
        var fields := Split(data[|data| - 1]);
        if |fields| < 2 then Ok(keys)
        else
          match FromHexString(fields[0])
          case None => Err(FormatError)
          case Some(code) => Ok(keys + [ButtonInfo(code, fields[1], remote)])
  }

  /**
   * Each button comes from the data line with at least two fields at the
   * same position: its code is that line's first field converted and its
   * name the second field.
   */
  lemma {:induction false} KeysFromRows(remote: string, data: seq<string>)
    requires KeysFrom(remote, data).Ok?
    ensures var keys := KeysFrom(remote, data).value;
            var rows := KeyRows(data);
            forall i :: 0 <= i < |keys| ==>
              keys[i].button == rows[i][1] && FromHexString(rows[i][0]) == Some(keys[i].code)
  {
    if data != [] {
      var init := data[..|data| - 1];
      KeysFromRows(remote, init);
    }
  }

  /** The list fails exactly when some data line with at least two fields has a code that is not hex. */
  lemma {:induction false} KeysFromOk(remote: string, data: seq<string>)
    ensures KeysFrom(remote, data).Ok? <==> CodesHex(data)
  {
    if data != [] {
      var init, last := data[..|data| - 1], data[|data| - 1];
      KeysFromOk(remote, init);
      assert CodesHex(data) <==> CodesHex(init) && (|Split(last)| >= 2 ==> FromHexString(Split(last)[0]).Some?) by {
        assert forall i :: 0 <= i < |init| ==> init[i] == data[i];
      }
    }
  }

  lemma {:induction false} KeysFromPrefixErr(remote: string, data: seq<string>, i: nat)
    requires i <= |data| && KeysFrom(remote, data[..i]).Err?
    ensures KeysFrom(remote, data).Err?
    decreases |data| - i
  {
    if i < |data| {
      var init := data[..|data| - 1];
      assert init[..i] == data[..i];
      KeysFromPrefixErr(remote, init, i);
    } else {
      assert data[..i] == data;
    }
  }

  /** The `foreach` of ListRemoteControlKeys over the reply's data lines. */
  method ParseKeyList(remote: string, data: seq<string>) returns (r: Result<seq<ButtonInfo>>)
    ensures r == KeysFrom(remote, data)
  {
    var result: seq<ButtonInfo> := [];
    for i := 0 to |data|
      invariant KeysFrom(remote, data[..i]) == Ok(result)
    {
      assert data[..i + 1][..i] == data[..i];
      var split := Split(data[i]);
      if |split| >= 2 {
        var code := FromHexString(split[0]);
        if code.None? {
          KeysFromPrefixErr(remote, data, i + 1);
          return Err(FormatError);
        }
        result := result + [ButtonInfo(code.value, split[1], remote)];
      }
    }
    assert data[..|data|] == data;
    r := Ok(result);
  }

  /** The line the daemon sends for one button of a remote. */
  function KeyLine(b: ButtonInfo): string
  {
    ToHexString(b.code) + " " + b.button
  }

  function KeyLines(keys: seq<ButtonInfo>): (lines: seq<string>)
    ensures |lines| == |keys|
  {
    if keys == [] then [] else KeyLines(keys[..|keys| - 1]) + [KeyLine(keys[|keys| - 1])]
  }

  /** The buttons of a remote survive the daemon's listing of them unchanged. */
  lemma {:induction false} KeysRoundTrip(remote: string, keys: seq<ButtonInfo>)
    requires forall i :: 0 <= i < |keys| ==> keys[i].remoteControl == remote && SpaceFree(keys[i].button)
    ensures KeysFrom(remote, KeyLines(keys)) == Ok(keys)
  {
    if keys != [] {
      var init, last := keys[..|keys| - 1], keys[|keys| - 1];
      assert KeyLines(keys) == KeyLines(init) + [KeyLine(last)];
      KeysRoundTrip(remote, init);
      KeysFromSnoc(remote, KeyLines(init), last);
      assert last == ButtonInfo(last.code, last.button, remote);
      assert keys == init + [last];
    }
  }

  /** One more listed button extends the list by that button. */
  lemma KeysFromSnoc(remote: string, data: seq<string>, b: ButtonInfo)
    requires SpaceFree(b.button) && KeysFrom(remote, data).Ok?
    ensures KeysFrom(remote, data + [KeyLine(b)]) == Ok(KeysFrom(remote, data).value + [ButtonInfo(b.code, b.button, remote)])
  {
    var more := data + [KeyLine(b)];
    assert more[..|more| - 1] == data && more[|more| - 1] == KeyLine(b);
    KeyLineFields(b);
  }

  /** The line of one button splits into its code, read back as the same bytes, and its name. */
  lemma KeyLineFields(b: ButtonInfo)
    requires SpaceFree(b.button)
    ensures var f := Split(KeyLine(b)); |f| == 2 && FromHexString(f[0]) == Some(b.code) && f[1] == b.button
  {
    var hex := ToHexString(b.code);
    assert SpaceFree(hex) by { assert forall k :: 0 <= k < |hex| ==> IsHexDigit(hex[k]); }
    JoinWords(hex, b.button, "", "");
    SplitJoin([hex, b.button]);
    HexRoundTrip(b.code);
  }

  // ---------------------------------------------------------------------
  // The exchange.

  /** A result together with the session state it leaves. */
  datatype Outcome<T> = Outcome(result: Result<T>, engine: Engine)

  /**
   * Waiting for a reply: the reader runs until a reply is queued, it has
   * ended, or the `budget` of iterations that fit in the response timeout
   * is spent.
   */
  function Await(w: seq<string>, e: Engine, budget: nat): (t: Engine)
    ensures t.written == e.written && t.open == e.open
    decreases budget
  {
    if budget == 0 || !e.running || e.queue != [] then e else Await(w, Step(w, e), budget - 1)
  }

  /** Waiting one iteration longer is one more Step, as long as the wait has not ended. */
  lemma {:induction false} AwaitSnoc(w: seq<string>, e: Engine, k: nat)
    requires Await(w, e, k).running && Await(w, e, k).queue == []
    ensures Await(w, e, k + 1) == Step(w, Await(w, e, k))
    decreases k
  {
    if k > 0 {
      AwaitSnoc(w, Step(w, e), k - 1);
    }
  }

  /** Once the reader has ended or a reply is queued, waiting longer changes nothing. */
  lemma {:induction false} AwaitStopped(w: seq<string>, e: Engine, k: nat, m: nat)
    requires k <= m && (!Await(w, e, k).running || Await(w, e, k).queue != [])
    ensures Await(w, e, m) == Await(w, e, k)
    decreases k
  {
    if k > 0 && e.running && e.queue == [] {
      AwaitStopped(w, Step(w, e), k - 1, m - 1);
    }
  }

  /** Take the head of the queue once the wait is over, or time out when it is empty. */
  function Receive(w: seq<string>, e: Engine, budget: nat): Outcome<Response>
  {
    var t := Await(w, e, budget);
    if t.queue == [] then Outcome(Err(Timeout), t)
    else Outcome(Ok(t.queue[0]), t.(queue := t.queue[1..]))
  }

  /**
   * SendReceive: drain stale replies, write the command line, wait for the
   * next reply and check it against the command.
   */
  function SendReceive(w: seq<string>, e: Engine, command: string, budget: nat): (o: Outcome<Response>)
    ensures o.result.Ok? ==> o.result.value.command == command && o.result.value.success
    ensures o.engine.written == if e.open then e.written + [command] else e.written
  {
    var flushed := e.(queue := []);
    if !e.open then Outcome(Err(ObjectDisposed), flushed)
    else
      var o := Receive(w, flushed.(written := e.written + [command]), budget);
      if o.result.Err? then o else Outcome(Check(command, o.result.value), o.engine)
  }

  function Then<T, U>(o: Outcome<T>, f: T -> Result<U>): Outcome<U>
  {
    Outcome(if o.result.Ok? then f(o.result.value) else Err(o.result.error), o.engine)
  }

  function GetVersionOp(w: seq<string>, e: Engine, budget: nat): (o: Outcome<string>)
    ensures var x := SendReceive(w, e, VERSION, budget);
            && o.engine == x.engine
            && (o.result.Ok? <==> x.result.Ok? && |x.result.value.data| > 0)
            && (o.result.Ok? ==> o.result.value == x.result.value.data[0])
  {
    Then(SendReceive(w, e, RequestText(Version), budget), VersionOf)
  }

  function ListRemoteControlsOp(w: seq<string>, e: Engine, budget: nat): (o: Outcome<seq<string>>)
    ensures var x := SendReceive(w, e, LIST, budget);
            && o.engine == x.engine
            && (o.result.Ok? <==> x.result.Ok?)
            && (o.result.Ok? ==> o.result.value == x.result.value.data)
  {
    Then(SendReceive(w, e, RequestText(List), budget), (r: Response) => Ok(r.data))
  }

  function ListRemoteControlKeysOp(w: seq<string>, e: Engine, remote: string, budget: nat): (o: Outcome<seq<ButtonInfo>>)
    ensures var x := SendReceive(w, e, LIST + " " + remote, budget);
            && o.engine == x.engine
            && (o.result.Ok? <==> x.result.Ok? && KeysFrom(remote, x.result.value.data).Ok?)
            && (o.result.Ok? ==> o.result.value == KeysFrom(remote, x.result.value.data).value)
            && (o.result.Ok? ==> forall i :: 0 <= i < |o.result.value| ==> o.result.value[i].remoteControl == remote)
  {
    Then(SendReceive(w, e, RequestText(ListKeys(remote)), budget), (r: Response) => KeysFrom(remote, r.data))
  }

  /** SEND_ONCE, SEND_START and SEND_STOP: success is the only result. */
  function SendOp(w: seq<string>, e: Engine, q: Request, budget: nat): (o: Outcome<()>)
    ensures var x := SendReceive(w, e, RequestText(q), budget);
            o.engine == x.engine && (o.result.Ok? <==> x.result.Ok?)
  {
    Then(SendReceive(w, e, RequestText(q), budget), (r: Response) => Ok(()))
  }

  // ---------------------------------------------------------------------
  // Properties of the exchange.

  /** Replies queued before the command was written never reach its result. */
  lemma StaleRepliesIgnored(w: seq<string>, e: Engine, stale: seq<Response>, command: string, budget: nat)
    ensures SendReceive(w, e.(queue := stale), command, budget) == SendReceive(w, e.(queue := []), command, budget)
  {
    assert e.(queue := stale).(queue := []) == e.(queue := []).(queue := []);
  }

  /** A reply that echoes another command is rejected, never returned. */
  lemma MismatchRejected(w: seq<string>, e: Engine, command: string, budget: nat)
    requires e.open
    requires var o := Receive(w, e.(queue := [], written := e.written + [command]), budget);
             o.result.Ok? && o.result.value.command != command
    ensures SendReceive(w, e, command, budget).result == Err(ResponseMismatch)
  {
  }

  /** No reply within the budget is a timeout. */
  lemma SilenceTimesOut(w: seq<string>, e: Engine, command: string, budget: nat)
    requires e.open && Await(w, e.(queue := [], written := e.written + [command]), budget).queue == []
    ensures SendReceive(w, e, command, budget).result == Err(Timeout)
  {
  }

  /** Starting from a drained queue, the wait ends with at most one reply queued. */
  lemma {:induction false} AwaitAtMostOne(w: seq<string>, e: Engine, budget: nat)
    requires e.queue == []
    ensures |Await(w, e, budget).queue| <= 1
    decreases budget
  {
    if budget > 0 && e.running {
      var s := Step(w, e);
      if s.queue == [] {
        AwaitAtMostOne(w, s, budget - 1);
      } else {
        assert Await(w, s, budget - 1) == s;
      }
    }
  }

  /** An exchange leaves nothing in the queue: the next command starts clean. */
  lemma ExchangeDrains(w: seq<string>, e: Engine, command: string, budget: nat)
    ensures SendReceive(w, e, command, budget).engine.queue == []
  {
    if e.open {
      AwaitAtMostOne(w, e.(queue := [], written := e.written + [command]), budget);
    }
  }

  /**
   * While a command waits, the reader keeps delivering notices: the event
   * log only grows, with Disconnected at most once and last.
   */
  lemma {:induction false} AwaitDisconnectsOnce(w: seq<string>, e: Engine, budget: nat)
    requires e.running
    ensures DisconnectsOnce(e, Await(w, e, budget))
    decreases budget
  {
    if budget == 0 || e.queue != [] {
      assert e.fired[|e.fired|..] == [];
    } else {
      var s := Step(w, e);
      assert DisconnectsOnce(e, s) by {
        if !s.running {
          assert s.fired[|e.fired|..|s.fired| - 1] == [];
        }
      }
      if s.running {
        AwaitDisconnectsOnce(w, s, budget - 1);
        DisconnectsOnceCompose(e, s, Await(w, s, budget - 1));
      }
    }
  }

  // ---------------------------------------------------------------------
  // End-to-end exchanges.

  /** A session just connected to the daemon whose output is `w`. */
  function Connected(): Engine
  {
    Engine(0, [], [], true, [], true)
  }

  lemma VersionExchange()
    ensures var w := ["BEGIN", "VERSION", "SUCCESS", "DATA", "1", "0.10.1", "END"];
            GetVersionOp(w, Connected(), 1)
            == Outcome(Ok("0.10.1"), Engine(7, [], [], true, ["VERSION"], true))
  {
    var w := ["BEGIN", "VERSION", "SUCCESS", "DATA", "1", "0.10.1", "END"];
    var r := Response("VERSION", true, ["0.10.1"]);
    assert DecimalOf(1) == "1";
    assert ReplyLines(r) + [] == w;
    ReplyRoundTrip(r, []);
  }

  lemma ListExchange()
    ensures var w := ["BEGIN", "LIST", "SUCCESS", "DATA", "2", "Samsung", "Amino", "END"];
            ListRemoteControlsOp(w, Connected(), 1).result == Ok(["Samsung", "Amino"])
  {
    var w := ["BEGIN", "LIST", "SUCCESS", "DATA", "2", "Samsung", "Amino", "END"];
    var r := Response("LIST", true, ["Samsung", "Amino"]);
    assert DecimalOf(2) == "2";
    assert ReplyLines(r) + [] == w;
    ReplyRoundTrip(r, []);
  }
}
