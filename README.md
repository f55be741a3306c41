# lircd socket client — a Dafny model

This project models the protocol engine of a .NET client for lircd, the
Linux infrared remote-control daemon. The client connects to the daemon's
socket and writes one-line commands: VERSION, LIST, LIST <remote>,
SEND_ONCE, SEND_START and SEND_STOP. A background reader loop splits what
the daemon sends into three kinds of input:

- reply packets (`BEGIN`, the echoed command, `SUCCESS`/`ERROR`, an optional `DATA n` block, `END`), which it queues for the waiting command;
- reload notices (`BEGIN SIGHUP END`);
- button broadcasts (`<hex code> <hex repeat> <button> <remote>`), which it reports to the user's callbacks.

When the reader fails, it reports Disconnected once and stops.

The repository holds two copies of the client:

- `Baksteen.Net.Lirc/LircClient.cs` has one asynchronous callback, a settable timeout and two Connect overloads.
- `Baksteen.Net.LIRC/LIRCClient.cs` takes its callbacks (synchronous and asynchronous) and its timeout from a settings record. It guards Connect and the six command operations with `ReentrancyPrevention`; disposal is not guarded.

The modules:

- `LircTypes` (`lirc_types.dfy`): the records (`ButtonInfo`, `DecodedButton`, the event, the reply) and every exception the core raises, with its message text.
- `LircText` (`lirc_text.dfy`): the .NET conversions the client relies on, each written out with the same corner cases, and each with its inverse:
  - `String.Split(' ')` keeps empty fields;
  - `Convert.FromHexString` rejects odd lengths and non-digits;
  - `Convert.ToInt32(s, 16)` accepts `+` and `0x`, reports an overflow before trailing junk, and reads the bits as two's complement;
  - `int.TryParse` trims white space and range-checks;
  - the decimal rendering of an `int`.
- `LircProtocol` (`lirc_protocol.dfy`):
  - the reply grammar (`PacketAt`), one iteration of the reader loop (`ItemAt`), and the reader as a state machine over the session state (`Engine`, `Step`, `Run`);
  - the daemon's side of the protocol (`ReplyLines`, `BroadcastLine`), which is the partner of the reader.
- `LircCommands` (`lirc_commands.dfy`):
  - the request lines, the checks a reply must pass, and the mapping of reply data to each operation's result;
  - the exchange itself as a function: drain the queue, write, wait for the next reply, check it.
- `Reentrancy` (`reentrancy.dfy`): the `ReentrancyPrevention` counter class and its `DisposeToken`, with the mutual-exclusion property over any history of entries and disposals.
- `LircSession` (`lirc_session.dfy`): the client object as a `class` whose fields the operations update in place (`LircClient.cs`). The reader and command methods are proved equal to the functions above; the others state their new fields directly. With two callback flags it is also the session of `LIRCClient.cs`.
- `GuardedSession` (`guarded_session.dfy`): `LIRCClient.cs`, meaning the session with both callbacks, with Connect and the six command operations run under the reentrancy guard.

The daemon's side of the socket is the parameter `wire`: the lines the daemon sends, in order. The end of `wire` is the end of the stream. The reader runs concurrently with the operations. The model gives it explicit turns instead:

- `RunWorker(budget)` lets it process `budget` units while nothing waits.
- An operation's wait lets it run until a reply is queued, the loop has ended, or `budget` iterations have passed. In the last two cases the operation fails with Timeout.

The broadcast quoted at `LIRCClient.cs:322` carries a sixteen-digit code, which `Convert.FromHexString` turns into eight bytes; `LircProtocol.BroadcastExample` proves it.

## Model

| member | source | states |
|---|---|---|
| LircText.Split | solution/Baksteen.Net.LIRC/LIRCClient.cs:171 | one more field than there are spaces, and no field contains a space (empty fields are kept) |
| LircText.SplitJoin | solution/Baksteen.Net.LIRC/LIRCClient.cs:324 | splitting the space-joined list of space-free fields gives back the fields |
| LircText.JoinSplit | solution/Baksteen.Net.LIRC/LIRCClient.cs:171 | joining the fields of a split line with spaces gives back the line: splitting loses no character |
| LircText.FromHexString | solution/Baksteen.Net.LIRC/LIRCClient.cs:177 | a code converts exactly when it has an even number of characters, all hex digits; then it gives half as many bytes |
| LircText.ToHexString | solution/Baksteen.Net.LIRC/LIRCClient.cs:333 | the daemon's rendering of a code has two hex digits per byte |
| LircText.HexRoundTrip | solution/Baksteen.Net.LIRC/LIRCClient.cs:333 | every byte sequence survives rendering and converting back |
| LircText.HexPrefixLength | solution/Baksteen.Net.LIRC/LIRCClient.cs:330 | the digits the repeat conversion reads are the longest run of hex digits, stopped only by a non-digit |
| LircText.HexInt32RoundTrip | solution/Baksteen.Net.LIRC/LIRCClient.cs:330 | every 32-bit pattern, in the shortest and in the zero-padded hex rendering, reads back as its two's-complement int |
| LircText.HexInt32 | solution/Baksteen.Net.LIRC/LIRCClient.cs:330 | a repeat field converts only when it is non-empty and carries no minus sign; HexInt32Value and HexInt32Prefixes state what converts and to what, HexInt32Accepted that nothing else does |
| LircText.HexInt32Value | solution/Baksteen.Net.LIRC/LIRCClient.cs:330 | any run of hex digits, leading zeros included, converts to its value read as a two's-complement int when it fits 32 bits, and overflows otherwise |
| LircText.HexInt32Prefixes | solution/Baksteen.Net.LIRC/LIRCClient.cs:330 | a leading `+`, `0x`, `0X` or `+0x` does not change the conversion; a leading `-` is an argument error |
| LircText.HexInt32Accepted | solution/Baksteen.Net.LIRC/LIRCClient.cs:330 | conversely, only an optional `+`, an optional `0x`/`0X`, then hex digits worth less than 2^32 convert, and to their wrapped value; any other repeat field fails |
| LircText.HexValueLeadingZero | solution/Baksteen.Net.LIRC/LIRCClient.cs:330 | a leading zero digit does not change the value of a run of hex digits |
| LircText.Hex2 | solution/Baksteen.Net.LIRC/LIRCClient.cs:322 | the daemon's zero-padded repeat field has at least two hex digits and the repeat as its value |
| LircText.HexValueOfHex | solution/Baksteen.Net.LIRC/LIRCClient.cs:330 | the hex rendering of a number has that number as its value |
| LircText.DecimalOf | solution/Baksteen.Net.LIRC/LIRCClient.cs:192 | the repeat count written into SEND_ONCE is a non-empty run of decimal digits |
| LircText.DecimalValueOf | solution/Baksteen.Net.LIRC/LIRCClient.cs:192 | the decimal rendering of a number has that number as its value |
| LircText.DecimalRoundTrip | solution/Baksteen.Net.LIRC/LIRCClient.cs:237 | a rendered data-line count reads back through int.TryParse as itself |
| LircText.TrimStart | solution/Baksteen.Net.LIRC/LIRCClient.cs:237 | after trimming, the count does not start with white space |
| LircText.TrimEnd | solution/Baksteen.Net.LIRC/LIRCClient.cs:237 | after trimming, the count does not end with white space |
| LircText.TrimStartRemovesWhite | solution/Baksteen.Net.LIRC/LIRCClient.cs:237 | trimming at the start removes a run of leading white space and nothing else: the result is a suffix of the count |
| LircText.TrimEndRemovesWhite | solution/Baksteen.Net.LIRC/LIRCClient.cs:237 | trimming at the end removes a run of trailing white space and nothing else: the result is a prefix of the count |
| LircText.TryParseBlank | solution/Baksteen.Net.LIRC/LIRCClient.cs:237 | a count that is empty or only white space does not parse |
| LircText.TryParseInt32 | solution/Baksteen.Net.LIRC/LIRCClient.cs:237 | `int.TryParse`: the white-space skip, an optional sign, digits, and the Int32 range check; its behaviour is stated by TryParseBlank, TryParseInt32Around, TryParseUntrimmed, SignedForms, DecimalRoundTrip and, for what it refuses, TryParseInt32Accepted |
| LircText.TryParseInt32Accepted | solution/Baksteen.Net.LIRC/LIRCClient.cs:237 | conversely, only white space around an optional sign and a run of decimal digits parses, and to their signed value; any other count fails |
| LircText.TrimAround | solution/Baksteen.Net.LIRC/LIRCClient.cs:237 | white space on either side of a number is all that trimming removes |
| LircText.TryParseInt32Around | solution/Baksteen.Net.LIRC/LIRCClient.cs:237 | white space around a number does not change what it parses to |
| LircText.TryParseUntrimmed | solution/Baksteen.Net.LIRC/LIRCClient.cs:237 | a number without white space at its ends is parsed as it stands |
| LircText.ParseSignedDigits | solution/Baksteen.Net.LIRC/LIRCClient.cs:237 | after trimming: digits with no sign or `+` give their value, with `-` the negated value, each only when it fits an int |
| LircText.SignedForms | solution/Baksteen.Net.LIRC/LIRCClient.cs:237 | a run of decimal digits (leading zeros allowed) parses to its value unsigned or with `+`, to its negation with `-`, and fails when that does not fit an int |
| LircProtocol.PacketAt | solution/Baksteen.Net.LIRC/LIRCClient.cs:222-283 | reading a reply never moves backwards or past the end; a reply it returns echoes the given command, and succeeded exactly when the status line is SUCCESS |
| LircProtocol.LineAt | solution/Baksteen.Net.LIRC/LIRCClient.cs:210-220 | the next line is returned and consumed while there is one; at the end of the stream the read fails with "connection lost" and consumes nothing |
| LircProtocol.DataBlockAt | solution/Baksteen.Net.LIRC/LIRCClient.cs:235-268 | a data block that reads stays within the input, carries the given command and status, and its count line parses to the number of data lines |
| LircProtocol.ItemAt | solution/Baksteen.Net.LIRC/LIRCClient.cs:291-351 | one iteration stays within the input and never produces Disconnected itself |
| LircProtocol.DecodeBroadcastFields | solution/Baksteen.Net.LIRC/LIRCClient.cs:324-345 | fewer than four fields is dropped; otherwise the press takes its code, repeat, button and remote from the first four fields; the line fails exactly when the repeat or the code does not convert, and as the repeat does when both are bad |
| LircProtocol.DecodeBroadcast | solution/Baksteen.Net.LIRC/LIRCClient.cs:318-345 | the broadcast decoding: split on spaces, drop a line of fewer than four fields, convert the repeat and the code; its behaviour is stated by DecodeBroadcastFields, BroadcastDecodes and BroadcastItem |
| LircProtocol.ReplyRoundTrip | solution/Baksteen.Net.LIRC/LIRCClient.cs:295-316 | every reply the daemon can send (with or without data) is read back as itself, consuming exactly its lines |
| LircProtocol.BroadcastRoundTrip | solution/Baksteen.Net.LIRC/LIRCClient.cs:318-345 | every button press the daemon broadcasts, with its repeat zero-padded to two hex digits, is decoded back to the same code, repeat, button and remote |
| LircProtocol.BroadcastDecodes | solution/Baksteen.Net.LIRC/LIRCClient.cs:318-345 | a broadcast whose repeat field is any run of hex digits of a 32-bit value decodes to the press with that value read as a two's-complement int |
| LircProtocol.BroadcastExample | solution/Baksteen.Net.LIRC/LIRCClient.cs:320-337 | the quoted broadcast decodes to an eight-byte code, repeat 0, KEY_UP of ANIMAX |
| LircProtocol.ExampleFields | solution/Baksteen.Net.LIRC/LIRCClient.cs:324 | the quoted broadcast splits into its four fields |
| LircProtocol.ExampleCode | solution/Baksteen.Net.LIRC/LIRCClient.cs:333 | the eight bytes render as the quoted sixteen digits |
| LircProtocol.ExampleRepeat | solution/Baksteen.Net.LIRC/LIRCClient.cs:330 | the quoted repeat field reads as 0 |
| LircProtocol.PacketWithData | solution/Baksteen.Net.LIRC/LIRCClient.cs:233-259 | a reply with a DATA block yields exactly the declared lines, in order, and consumes n+4 lines |
| LircProtocol.PacketWithoutData | solution/Baksteen.Net.LIRC/LIRCClient.cs:270-278 | a status line followed by END is a reply without data |
| LircProtocol.PacketFormatFaults | solution/Baksteen.Net.LIRC/LIRCClient.cs:226-282 | a bad status line, a line that is neither DATA nor END, an unparsable count and a missing END are each "Invalid response format" |
| LircProtocol.PacketFramed | solution/Baksteen.Net.LIRC/LIRCClient.cs:222-283 | whatever a successful read consumed is exactly a reply frame whose count equals its number of data lines |
| LircProtocol.SighupItem | solution/Baksteen.Net.LIRC/LIRCClient.cs:300-311 | BEGIN SIGHUP END is one reload notice; any other third line is "Invalid sighup message" |
| LircProtocol.ReplyItem | solution/Baksteen.Net.LIRC/LIRCClient.cs:312-316 | after BEGIN, any line other than SIGHUP is taken as the echoed command of a reply |
| LircProtocol.BroadcastItem | solution/Baksteen.Net.LIRC/LIRCClient.cs:318-351 | a non-BEGIN line with four or more fields is a button press built from the first four; with fewer it is dropped; a bad code or repeat is a failure |
| LircProtocol.Step | solution/Baksteen.Net.LIRC/LIRCClient.cs:291-361 | one iteration queues at most one reply at the tail and fires at most one event; it fires Disconnected exactly when the loop ends |
| LircProtocol.Apply | solution/Baksteen.Net.LIRC/LIRCClient.cs:295-360 | the effect of one iteration: a reply is written to the response channel, a notice fired, a dropped line ignored, and a failure caught and fired as Disconnected, ending the loop; Step states its properties, SighupStep, ReplyStep and EndOfInputDisconnects the cases |
| LircProtocol.EndOfInputDisconnects | solution/Baksteen.Net.LIRC/LIRCClient.cs:210-220 | the end of the stream fires Disconnected with "connection lost" and ends the loop |
| LircProtocol.SighupStep | solution/Baksteen.Net.LIRC/LIRCClient.cs:307-310 | a reload notice fires one Sighup event and leaves the queue alone |
| LircProtocol.ReplyStep | solution/Baksteen.Net.LIRC/LIRCClient.cs:314-315 | a reply joins the tail of the queue and fires nothing |
| LircProtocol.DisconnectsOnceCompose | solution/Baksteen.Net.LIRC/LIRCClient.cs:289-361 | "Disconnected at most once, last" composes over successive runs of the loop |
| LircProtocol.RunDisconnectsOnce | solution/Baksteen.Net.LIRC/LIRCClient.cs:289-361 | over any input and any number of iterations, the loop fires Disconnected at most once, only as its last event, and exactly when it has ended; the queue and the event log only grow |
| LircProtocol.RunGrows | solution/Baksteen.Net.LIRC/LIRCClient.cs:285-362 | the reader loop never writes or closes the stream, never moves the cursor back, and only appends to the queue and the event log |
| LircProtocol.Run | solution/Baksteen.Net.LIRC/LIRCClient.cs:289-361 | the `while` loop of the reader, given a budget of iterations; its behaviour is stated by RunGrows, RunDisconnectsOnce, RunSnoc and RunStopped |
| LircProtocol.RunSnoc | solution/Baksteen.Net.LIRC/LIRCClient.cs:289-361 | while the loop still runs, one more iteration of budget is one more Step |
| LircProtocol.RunStopped | solution/Baksteen.Net.LIRC/LIRCClient.cs:289-361 | once the loop has ended, more budget changes nothing |
| LircCommands.RequestTokens | solution/Baksteen.Net.LIRC/LIRCClient.cs:149-207 | each request line is the command keyword and its arguments as space-separated tokens, with the repeat count only when positive |
| LircCommands.RequestTextInjective | solution/Baksteen.Net.LIRC/LIRCClient.cs:187-194 | two requests are written as the same line only if they are the same request, with non-positive repeat counts all treated as 0 |
| LircCommands.TokensInjective | solution/Baksteen.Net.LIRC/LIRCClient.cs:27-31 | the command keywords are distinct, so the tokens determine the request |
| LircCommands.RequestJoin | solution/Baksteen.Net.LIRC/LIRCClient.cs:149-207 | every request line is its keyword and arguments joined by single spaces, with the repeat count only when positive |
| LircCommands.RequestText | solution/Baksteen.Net.LIRC/LIRCClient.cs:145-208 | the command line of each operation; its content is stated by RequestTokens, RequestJoin and RequestTextInjective |
| LircCommands.TokensSpaceFree | solution/Baksteen.Net.LIRC/LIRCClient.cs:187-207 | a request of single-token names has at least one token and no token holds a space |
| LircCommands.Check | solution/Baksteen.Net.LIRC/LIRCClient.cs:125-142 | a reply is accepted exactly when it echoes the command and succeeded, and is then returned unchanged; otherwise a mismatch, or a failure carrying the first data line when there is one |
| LircCommands.KeysFrom | solution/Baksteen.Net.LIRC/LIRCClient.cs:167-184 | on success there is one button per data line with at least two fields, each tagged with the requested remote; any failure is a format error |
| LircCommands.KeyRows | solution/Baksteen.Net.LIRC/LIRCClient.cs:169-174 | the lines that yield a button are the data lines with at least two fields |
| LircCommands.KeysFromOk | solution/Baksteen.Net.LIRC/LIRCClient.cs:169-182 | the list fails exactly when some data line with at least two fields has a first field that is not hex |
| LircCommands.KeysFromRows | solution/Baksteen.Net.LIRC/LIRCClient.cs:169-180 | each button comes from the data line with at least two fields at the same position: its code is that line's first field converted, its name the second field |
| LircCommands.KeysFromSnoc | solution/Baksteen.Net.LIRC/LIRCClient.cs:167-184 | one more listed button line extends the list by that button |
| LircCommands.KeysFromPrefixErr | solution/Baksteen.Net.LIRC/LIRCClient.cs:169-182 | a bad code in any line fails the whole list |
| LircCommands.ParseKeyList | solution/Baksteen.Net.LIRC/LIRCClient.cs:167-184 | the loop over the data lines computes exactly KeysFrom |
| LircCommands.KeysRoundTrip | solution/Baksteen.Net.LIRC/LIRCClient.cs:161-185 | the buttons of a remote, listed by the daemon one per line, are read back unchanged and in order |
| LircCommands.Await | solution/Baksteen.Net.LIRC/LIRCClient.cs:121-123 | waiting lets only the reader run: it writes nothing and leaves the stream as it was |
| LircCommands.SendReceive | solution/Baksteen.Net.LIRC/LIRCClient.cs:115-143 | a successful exchange returns a reply that echoes the command and succeeded; the command line is written exactly when the stream is open |
| LircCommands.Receive | solution/Baksteen.Net.LIRC/LIRCClient.cs:121-123 | the wait for the next reply, which takes the head of the queue or times out; stated by SilenceTimesOut and AwaitAtMostOne |
| LircCommands.StaleRepliesIgnored | solution/Baksteen.Net.LIRC/LIRCClient.cs:117 | replies queued before the command is written never affect its outcome |
| LircCommands.MismatchRejected | solution/Baksteen.Net.LIRC/LIRCClient.cs:125-128 | a next reply that echoes another command is a mismatch, never a result |
| LircCommands.SilenceTimesOut | solution/Baksteen.Net.LIRC/LIRCClient.cs:121-123 | no reply within the wait is a timeout |
| LircCommands.AwaitAtMostOne | solution/Baksteen.Net.LIRC/LIRCClient.cs:121-123 | in the model, where the wait stops the reader at the first queued reply, the wait ends with at most one reply queued; the source's reader may queue more before the command returns |
| LircCommands.ExchangeDrains | solution/Baksteen.Net.LIRC/LIRCClient.cs:110-123 | in the model, every exchange leaves the queue empty; this holds because the model's wait stops the reader at the first queued reply, which the source does not promise |
| LircCommands.AwaitDisconnectsOnce | solution/Baksteen.Net.LIRC/LIRCClient.cs:285-362 | while a command waits, Disconnected is still fired at most once and last |
| LircCommands.AwaitSnoc | solution/Baksteen.Net.LIRC/LIRCClient.cs:121-123 | while nothing is queued and the loop runs, one more unit of waiting is one more Step |
| LircCommands.AwaitStopped | solution/Baksteen.Net.LIRC/LIRCClient.cs:121-123 | once a reply is queued or the loop has ended, waiting longer changes nothing |
| LircCommands.VersionExchange | solution/Baksteen.Net.LIRC/LIRCClient.cs:145-151 | the daemon's VERSION reply with one data line yields that line, and the whole reply is consumed |
| LircCommands.ListExchange | solution/Baksteen.Net.LIRC/LIRCClient.cs:153-159 | the daemon's LIST reply yields its data lines as the remote names |
| LircCommands.VersionOf | solution/Baksteen.Net.LIRC/LIRCClient.cs:150 | the version is the first data line; a reply without data fails as indexing an empty list does |
| LircCommands.GetVersionOp | solution/Baksteen.Net.LIRC/LIRCClient.cs:145-151 | the session state is the exchange's for VERSION; the result is its reply's first data line, and fails when the exchange fails or brings no data |
| LircCommands.ListRemoteControlsOp | solution/Baksteen.Net.LIRC/LIRCClient.cs:153-159 | the session state is the exchange's for LIST; the result is its reply's data lines, and fails exactly when the exchange fails |
| LircCommands.ListRemoteControlKeysOp | solution/Baksteen.Net.LIRC/LIRCClient.cs:161-185 | the session state is the exchange's for `LIST <remote>`; the result fails exactly when the exchange or the key list fails, and every button is tagged with the remote |
| LircCommands.SendOp | solution/Baksteen.Net.LIRC/LIRCClient.cs:187-208 | the session state is the exchange's for the request line; the operation succeeds exactly when the exchange does |
| Reentrancy.GuardExcludes | solution/Baksteen.Net.LIRC/ReentrancyPrevention.cs:8-38 | over any history of entries and token disposals, the counter equals the number of outstanding tokens, and at most one token is outstanding |
| Reentrancy.EnterLeave | solution/Baksteen.Net.LIRC/ReentrancyPrevention.cs:19-30 | entry is refused exactly when the counter is already at least 1; disposing the token undoes an accepted entry |
| Reentrancy.Enter | solution/Baksteen.Net.LIRC/ReentrancyPrevention.cs:19-26 | entry is refused exactly when the counter is at least 1; an accepted entry leaves the counter one higher and at most 1 |
| Reentrancy.Leave | solution/Baksteen.Net.LIRC/ReentrancyPrevention.cs:28-31 | disposing lowers the counter; disposing the one outstanding token lets the next entry in |
| Reentrancy.ReentrancyPrevention.constructor | solution/Baksteen.Net.LIRC/ReentrancyPrevention.cs:10 | a new guard has counter 0 |
| Reentrancy.ReentrancyPrevention.AssertNotReentrant | solution/Baksteen.Net.LIRC/ReentrancyPrevention.cs:16-37 | hands out a fresh token bound to the guard exactly when entry is allowed; otherwise NotReentrant with the counter restored |
| Reentrancy.DisposeToken.constructor | solution/Baksteen.Net.LIRC/ReentrancyPrevention.cs:16-18 | the token remembers its guard |
| Reentrancy.DisposeToken.Dispose | solution/Baksteen.Net.LIRC/ReentrancyPrevention.cs:28-31 | disposing decrements the guard's counter |
| LircSession.DeliveriesAppend | solution/Baksteen.Net.LIRC/LIRCClient.cs:364-375 | the callback calls for two runs of events are those of the first run followed by those of the second |
| LircSession.DeliveriesInOrder | solution/Baksteen.Net.LIRC/LIRCClient.cs:364-375 | each event reaches the callbacks that are set (synchronous first) after all earlier events and before all later ones |
| LircSession.Calls | solution/Baksteen.Net.LIRC/LIRCClient.cs:364-375 | one event is delivered once to each callback that is set, the synchronous one first |
| LircSession.Deliveries | solution/Baksteen.Net.LIRC/LIRCClient.cs:364-375 | with no callback set nothing is delivered; with one set each event is delivered exactly once |
| LircSession.Client.constructor | solution/Baksteen.Net.Lirc/LircClient.cs:42-48 | a new client is not connected, has one asynchronous callback and a ten-second timeout |
| LircSession.Client.WithSettings | solution/Baksteen.Net.LIRC/LIRCClient.cs:45-49 | a new client takes its callbacks and timeout from its settings |
| LircSession.Client.Connect | solution/Baksteen.Net.Lirc/LircClient.cs:50-73 | a second connect fails with "already connected" and a refused connect fails; both leave the client as it was; otherwise the client is connected with the reader running on an empty session |
| LircSession.Client.CompleteConnection | solution/Baksteen.Net.Lirc/LircClient.cs:75-82 | opens the stream, starts the reader and marks the client connected |
| LircSession.Client.AssertConnected | solution/Baksteen.Net.Lirc/LircClient.cs:84-87 | fails with "not connected" exactly when the client is not connected |
| LircSession.Client.FlushResponses | solution/Baksteen.Net.Lirc/LircClient.cs:89-92 | empties the response queue |
| LircSession.Client.ReadResponseLine | solution/Baksteen.Net.Lirc/LircClient.cs:183-193 | returns the next line, or "connection lost" at the end of the stream |
| LircSession.Client.ReadDataLines | solution/Baksteen.Net.Lirc/LircClient.cs:214-220 | reads the next n lines in order, or fails with "connection lost" at the end of the stream |
| LircSession.Client.ReadDataBlock | solution/Baksteen.Net.Lirc/LircClient.cs:208-242 | reads exactly the data block DataBlockAt describes and stops where it stops |
| LircSession.Client.ReadPacket | solution/Baksteen.Net.Lirc/LircClient.cs:195-256 | reads exactly the reply PacketAt describes and stops where it stops |
| LircSession.Client.ReadItem | solution/Baksteen.Net.Lirc/LircClient.cs:266-324 | reads exactly the unit ItemAt describes |
| LircSession.Client.FireEvent | solution/Baksteen.Net.LIRC/LIRCClient.cs:364-375 | logs the event and calls the synchronous callback, then the asynchronous one, each if set |
| LircSession.Client.WorkerStep | solution/Baksteen.Net.Lirc/LircClient.cs:262-334 | one iteration of the reader changes the session as Step does, and keeps the callback log in step with the events |
| LircSession.Client.Dispatch | solution/Baksteen.Net.Lirc/LircClient.cs:286-334 | a reply joins the queue, a notice is fired, a failure is fired as Disconnected and ends the loop, exactly as Apply describes |
| LircSession.Client.RunWorker | solution/Baksteen.Net.Lirc/LircClient.cs:258-335 | the reader loop left to run changes the session as Run does |
| LircSession.Client.AwaitResponse | solution/Baksteen.Net.Lirc/LircClient.cs:100-102 | the wait for a reply changes the session as Await does |
| LircSession.Client.SendReceive | solution/Baksteen.Net.Lirc/LircClient.cs:94-122 | the exchange's result and new session are those of the SendReceive function |
| LircSession.Client.TakeReply | solution/Baksteen.Net.Lirc/LircClient.cs:100-121 | with nothing queued the exchange times out; otherwise it takes the head of the queue and returns the result of checking it against the command |
| LircSession.Client.GetVersion | solution/Baksteen.Net.Lirc/LircClient.cs:124-129 | not connected fails and changes nothing; otherwise result and session are those of GetVersionOp |
| LircSession.Client.ListRemoteControls | solution/Baksteen.Net.Lirc/LircClient.cs:131-136 | not connected fails and changes nothing; otherwise result and session are those of ListRemoteControlsOp |
| LircSession.Client.ListRemoteControlKeys | solution/Baksteen.Net.Lirc/LircClient.cs:138-161 | not connected fails and changes nothing; otherwise result and session are those of ListRemoteControlKeysOp |
| LircSession.Client.SendOnce | solution/Baksteen.Net.Lirc/LircClient.cs:163-169 | not connected fails and changes nothing; otherwise result and session are those of SendOp on the SEND_ONCE request |
| LircSession.Client.SendStart | solution/Baksteen.Net.Lirc/LircClient.cs:171-175 | as SendOnce, for SEND_START |
| LircSession.Client.SendStop | solution/Baksteen.Net.Lirc/LircClient.cs:177-181 | as SendOnce, for SEND_STOP |
| LircSession.Client.Dispose | solution/Baksteen.Net.Lirc/LircClient.cs:337-358 | stops the reader without firing Disconnected and closes the stream; the logs and the connected flag are kept; a second call changes nothing |
| GuardedSession.GuardedClient.constructor | solution/Baksteen.Net.LIRC/LIRCClient.cs:45-49 | a new client with its settings and an idle guard |
| GuardedSession.GuardedClient.ConnectNew | solution/Baksteen.Net.LIRC/LIRCClient.cs:63-68 | creating and connecting succeeds exactly when the endpoint accepts, giving a connected client with an idle guard and the callbacks and response timeout of its settings |
| GuardedSession.GuardedClient.Connect | solution/Baksteen.Net.LIRC/LIRCClient.cs:70-103 | the guard is checked before the connected flag; otherwise as the unguarded Connect; the guard and the response timeout are left as they were |
| GuardedSession.GuardedClient.GetVersion | solution/Baksteen.Net.LIRC/LIRCClient.cs:145-151 | the connected flag is checked first, then the guard; with both passed, as GetVersionOp; the guard is left as it was; the session's connected, reader, cancellation and timeout fields are left as they were |
| GuardedSession.GuardedClient.ListRemoteControls | solution/Baksteen.Net.LIRC/LIRCClient.cs:153-159 | as GetVersion, for ListRemoteControlsOp; the session's connected, reader, cancellation and timeout fields are left as they were |
| GuardedSession.GuardedClient.ListRemoteControlKeys | solution/Baksteen.Net.LIRC/LIRCClient.cs:161-185 | as GetVersion, for ListRemoteControlKeysOp; the session's connected, reader, cancellation and timeout fields are left as they were |
| GuardedSession.GuardedClient.SendOnce | solution/Baksteen.Net.LIRC/LIRCClient.cs:187-194 | as GetVersion, for SendOp on SEND_ONCE; the session's connected, reader, cancellation and timeout fields are left as they were |
| GuardedSession.GuardedClient.SendStart | solution/Baksteen.Net.LIRC/LIRCClient.cs:196-201 | as GetVersion, for SendOp on SEND_START; the session's connected, reader, cancellation and timeout fields are left as they were |
| GuardedSession.GuardedClient.SendStop | solution/Baksteen.Net.LIRC/LIRCClient.cs:203-208 | as GetVersion, for SendOp on SEND_STOP; the session's connected, reader, cancellation and timeout fields are left as they were |
| GuardedSession.GuardedClient.Dispose | solution/Baksteen.Net.LIRC/LIRCClient.cs:377-398 | not guarded; as the session's Dispose: stops the reader without firing Disconnected and closes the stream, keeps the cursor, queue, written lines, event and callback logs and the connected flag, and a second call changes nothing |

## Left out

- Sockets:
  - The endpoint kinds (Unix-domain and TCP) and the socket options (NoDelay, send and receive timeouts) are not modelled.
  - Connecting is the boolean `peerAccepts`. Any connect failure becomes `ConnectFailed`.
  - The two Connect overloads of `LircClient.cs` differ only in these options, so they are one `Connect`.
- The encoding of the stream (ASCII) and line splitting by the stream reader are not modelled. The input is already a sequence of lines.
- Concurrency is modelled as explicit reader turns:
  - The wait of an operation stops the reader at the first queued reply. In the source the reader keeps running and can queue a later reply before the operation returns, so `ExchangeDrains` and `AwaitAtMostOne` hold of the model, not of every interleaving.
  - The reader loop and the waiting operation are interleaved by the `budget` arguments.
  - A cancellation that interrupts a blocked read at any other point is not modelled.
  - The atomicity of `Interlocked` is not modelled. A guard entry from a callback while an operation is in flight is represented by a guard counter above zero.
- LircSession.Client.SendReceive: the wait is bounded by the `budget` argument, not by `responseTimeoutMs`. The timeout is stored but has no effect in the model, since wall-clock time is not modelled.
- Callbacks are code the model cannot see. A callback call is recorded in the `delivered` log, and the model does not follow what a callback does. An exception thrown by a callback is not modelled.
- Writing to a socket whose peer has closed is not modelled. Only a write after disposal fails, with `ObjectDisposed`.
- LircText.TryParseInt32: the culture-specific signs, and the trailing NUL characters that `int.TryParse` also accepts are not modelled.
- Setting `OnEvent` of `LircClient.cs` to null is not modelled: the callback is always set.
- Exception objects are reduced to their kinds in `LircTypes.Error`. The `Reason` of a Disconnected event is the kind of the failure.
- The settings record of `LIRCClient.cs`, the `LIRCEvent`, `ButtonInfo` and `DecodedButton` records, the `ILIRCClient` interface and the exception class are not part of this model. Their content appears only as constructor parameters and datatypes.
- The test user interface and the demo program are not part of this model.
