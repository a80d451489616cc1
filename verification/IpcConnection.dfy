/**
 One client connection of the IPC server: framing, handshake, command limit, and the
 answer to every request, over every possible stream.
 */
module IpcConnection {
  import opened Basics
  import opened LineFraming
  import opened Text

  const MAX_COMMANDS_PER_CONNECTION: nat := 100
  const PROTOCOL_VERSION: U32 := 1

  /** Queries answered from the shared snapshot, without the supervisor. */
  datatype Query = Ping | KillSwitchStatus | AutoReconnectStatus | Status

  datatype IpcCommand = Hello(version: U32) | ReadOnly(query: Query) | Request(body: string)

  datatype ErrorKind =
    | RequestTooLarge
    | TooManyCommands
    | InvalidJson
    | ValidationFailed
    | ChannelClosed
    | ResponseDropped
    | SupervisorTimeout

  datatype Response =
    | Error(kind: ErrorKind)
    | VersionMismatch(serverVersion: U32, clientVersion: U32)
    | HelloOk(version: U32)
    | Snapshot(query: Query)
    | Reply(body: string)

  /** How the supervisor takes a forwarded command. */
  datatype Reaction = Gone | Answered(body: string) | Dropped | Late

  /**
   What lies outside the connection: the JSON decoder, command validation, and the
   supervisor's reaction to the n-th command it is handed.
   */
  datatype Peers = Peers(
    decode: string -> Option<IpcCommand>,
    valid: IpcCommand -> bool,
    react: (nat, IpcCommand) -> Reaction)

  predicate Blank(s: string) {
    Trim(s) == ""
  }

  /** The state of a connection: lines counted, handshake open, what was said and handed on. */
  datatype Conn = Conn(count: nat, first: bool, closed: bool, out: seq<Response>, forwarded: seq<IpcCommand>)

  const START := Conn(0, true, false, [], [])

  function Say(c: Conn, r: Response): Conn {
    c.(out := c.out + [r])
  }

  /** The answer to command `cmd` after `n` others were handed on. */
  function AnswerTo(p: Peers, n: nat, cmd: IpcCommand): Response {
    if cmd.ReadOnly? then Snapshot(cmd.query)
    else
      match p.react(n, cmd)
      case Gone => Error(ChannelClosed)
      case Answered(body) => Reply(body)
      case Dropped => Error(ResponseDropped)
      case Late => Error(SupervisorTimeout)
  }

  predicate IsHandedOn(p: Peers, n: nat, cmd: IpcCommand) {
    !cmd.ReadOnly? && !p.react(n, cmd).Gone?
  }

  /** Answer a validated command that is not the opening handshake. */
  function Dispatch(p: Peers, c: Conn, cmd: IpcCommand): Conn {
    var n := |c.forwarded|;
    Say(if IsHandedOn(p, n, cmd) then c.(forwarded := c.forwarded + [cmd]) else c, AnswerTo(p, n, cmd))
  }

  function Execute(p: Peers, c: Conn, cmd: IpcCommand): Conn {
    if c.first && cmd.Hello? then
      if cmd.version != PROTOCOL_VERSION then
        Say(c.(first := false, closed := true), VersionMismatch(PROTOCOL_VERSION, cmd.version))
      else Say(c.(first := false), HelloOk(PROTOCOL_VERSION))
    else Dispatch(p, c.(first := false), cmd)
  }

  /** The connection after one frame. */
  function Receive(p: Peers, c: Conn, f: Frame): Conn {
    if c.closed then c
    else
      match f
      case TooLong => Say(c, Error(RequestTooLarge))
      case Whole(line) =>
        var c1 := c.(count := c.count + 1);
        if c1.count > MAX_COMMANDS_PER_CONNECTION then Say(c1.(closed := true), Error(TooManyCommands))
        else if Blank(line) then c1
        else
          match p.decode(Trim(line))
          case None => Say(c1, Error(InvalidJson))
          case Some(cmd) => if !p.valid(cmd) then Say(c1, Error(ValidationFailed)) else Execute(p, c1, cmd)
  }

  function Serve(p: Peers, c: Conn, frames: seq<Frame>): Conn
    decreases |frames|
  {
    if frames == [] then c else Serve(p, Receive(p, c, frames[0]), frames[1..])
  }

  /** Answer a query from the snapshot; hand anything else to the supervisor and wait for it. */
  method Answer(p: Peers, command: IpcCommand, forwarded: seq<IpcCommand>)
    returns (response: Response, forwarded': seq<IpcCommand>)
    ensures response == AnswerTo(p, |forwarded|, command)
    ensures forwarded' == if IsHandedOn(p, |forwarded|, command) then forwarded + [command] else forwarded
  {
    if command.ReadOnly? {
      return Snapshot(command.query), forwarded;
    }
    var reaction := p.react(|forwarded|, command);
    if reaction.Gone? {
      return Error(ChannelClosed), forwarded;
    }
    forwarded' := forwarded + [command];
    match reaction {
      case Answered(body) => response := Reply(body);
      case Dropped => response := Error(ResponseDropped);
      case Late => response := Error(SupervisorTimeout);
    }
  }

  /** The server loop over a whole client stream. */
  method HandleConnection(input: string, p: Peers) returns (out: seq<Response>, forwarded: seq<IpcCommand>)
    ensures var end := Serve(p, START, Frames(SplitLines(input)));
            out == end.out && forwarded == end.forwarded
  {
    var reader := new LineReader(input);
    var count, first := 0, true;
    out, forwarded := [], [];
    ghost var conn, goal := START, Serve(p, START, Frames(SplitLines(input)));
    assert input[0..] == input;
    while reader.pos < |reader.input|
      invariant reader.Valid() && reader.input == input
      invariant conn == Conn(count, first, false, out, forwarded)
      invariant Serve(p, conn, Frames(SplitLines(input[reader.pos..]))) == goal
      decreases |input| - reader.pos
    {
      ghost var rest := input[reader.pos..];
      var frame := reader.NextFrame();
      ServeNext(p, conn, rest);
      conn := Receive(p, conn, frame);
      if conn.closed {
        ServeClosed(p, conn, Frames(SplitLines(AfterFirst(rest))));
      }
      if frame.TooLong? {
        out := out + [Error(RequestTooLarge)];
        continue;
      }
      count := count + 1;
      if count > MAX_COMMANDS_PER_CONNECTION {
        out := out + [Error(TooManyCommands)];
        return;
      }
      var trimmed := Trim(frame.line);
      if trimmed == "" {
        continue;
      }
      var decoded := p.decode(trimmed);
      if decoded.None? {
        out := out + [Error(InvalidJson)];
        continue;
      }
      var command := decoded.value;
      if !p.valid(command) {
        out := out + [Error(ValidationFailed)];
        continue;
      }
      if first {
        first := false;
        if command.Hello? {
          if command.version != PROTOCOL_VERSION {
            out := out + [VersionMismatch(PROTOCOL_VERSION, command.version)];
            return;
          }
          out := out + [HelloOk(PROTOCOL_VERSION)];
          continue;
        }
      }
      var response;
      response, forwarded := Answer(p, command, forwarded);
      out := out + [response];
    }
    assert input[reader.pos..] == "";
  }

  lemma ServeNext(p: Peers, c: Conn, s: string)
    requires s != ""
    ensures Serve(p, c, Frames(SplitLines(s))) ==
            Serve(p, Receive(p, c, FrameOf(FirstLine(s))), Frames(SplitLines(AfterFirst(s))))
  {
    SplitFirst(s);
    assert Frames(SplitLines(s))[1..] == Frames(SplitLines(AfterFirst(s)));
  }

  lemma {:induction false} ServeClosed(p: Peers, c: Conn, frames: seq<Frame>)
    requires c.closed
    ensures Serve(p, c, frames) == c
    decreases |frames|
  {
    if frames != [] {
      ServeClosed(p, c, frames[1..]);
    }
  }

  // ---------------------------------------------------------------------
  // What a client can rely on
  // ---------------------------------------------------------------------

  /** Over the lines a client sent, whatever they are, the loop sees each once and in order. */
  lemma SeesEveryLine(p: Peers, lines: seq<RawLine>)
    requires Sendable(lines)
    ensures Serve(p, START, Frames(SplitLines(PrintAll(lines)))) == Serve(p, START, Frames(lines))
  {
    SplitOfPrint(lines);
  }

  predicate NeedsAnswer(f: Frame) {
    f.TooLong? || !Blank(f.line)
  }

  function CountNeedy(frames: seq<Frame>): nat {
    if frames == [] then 0 else (if NeedsAnswer(frames[0]) then 1 else 0) + CountNeedy(frames[1..])
  }

  function CountWhole(frames: seq<Frame>): nat {
    if frames == [] then 0 else (if frames[0].Whole? then 1 else 0) + CountWhole(frames[1..])
  }

  /** The response that ends a connection. */
  predicate Closing(r: Response) {
    r == Error(TooManyCommands) || r.VersionMismatch?
  }

  /**
   Exactly one answer for every line that is not blank, as long as the connection is
   open; answers already given stay, so the k-th answer belongs to the k-th such line.
   */
  lemma {:induction false} OneAnswerPerLine(p: Peers, c: Conn, frames: seq<Frame>)
    ensures c.out <= Serve(p, c, frames).out
    ensures !Serve(p, c, frames).closed ==> |Serve(p, c, frames).out| == |c.out| + CountNeedy(frames)
    decreases |frames|
  {
    if frames != [] {
      var c1 := Receive(p, c, frames[0]);
      OneAnswerPerLine(p, c1, frames[1..]);
      assert c.out <= c1.out;
      if c1.closed {
        ServeClosed(p, c1, frames[1..]);
      }
    }
  }

  /** What every connection state satisfies. */
  predicate Sound(p: Peers, c: Conn) {
    && |c.forwarded| <= c.count <= MAX_COMMANDS_PER_CONNECTION + (if c.closed then 1 else 0)
    && |c.forwarded| <= MAX_COMMANDS_PER_CONNECTION
    && (forall cmd <- c.forwarded :: p.valid(cmd) && !cmd.ReadOnly?)
    && (c.first ==> c.forwarded == [])
    && (c.closed <==> c.out != [] && Closing(c.out[|c.out| - 1]))
    && (forall i :: 0 <= i < |c.out| - 1 ==> !Closing(c.out[i]))
    && (c.closed && c.out[|c.out| - 1].VersionMismatch? ==> c.forwarded == [])
  }

  lemma ReceiveKeepsSound(p: Peers, c: Conn, f: Frame)
    requires Sound(p, c)
    ensures Sound(p, Receive(p, c, f))
  {
  }

  lemma {:induction false} ServeKeepsSound(p: Peers, c: Conn, frames: seq<Frame>)
    requires Sound(p, c)
    ensures Sound(p, Serve(p, c, frames))
    decreases |frames|
  {
    if frames != [] {
      ReceiveKeepsSound(p, c, frames[0]);
      ServeKeepsSound(p, Receive(p, c, frames[0]), frames[1..]);
    }
  }

  /**
   On every connection: at most 100 commands reach the supervisor, all of them valid;
   a version mismatch is the last thing said and nothing was handed on; the connection
   ends on a mismatch or on the 101st line that fits, and on nothing else.
   */
  lemma ConnectionSafety(p: Peers, frames: seq<Frame>)
    ensures var end := Serve(p, START, frames);
            && |end.forwarded| <= 100
            && (forall cmd <- end.forwarded :: p.valid(cmd))
            && (forall i :: 0 <= i < |end.out| && end.out[i].VersionMismatch? ==> i == |end.out| - 1 && end.forwarded == [])
            && (end.closed <==>
                || CountWhole(frames) > 100
                || (end.out != [] && end.out[|end.out| - 1].VersionMismatch?))
  {
    ServeKeepsSound(p, START, frames);
    CountsWhole(p, START, frames);
  }

  lemma {:induction false} CountsWhole(p: Peers, c: Conn, frames: seq<Frame>)
    ensures !Serve(p, c, frames).closed ==> Serve(p, c, frames).count == c.count + CountWhole(frames)
    ensures Serve(p, c, frames).closed ==> Serve(p, c, frames).count <= c.count + CountWhole(frames)
    ensures Serve(p, c, frames).closed && !c.closed && c.count <= MAX_COMMANDS_PER_CONNECTION ==>
              var out := Serve(p, c, frames).out;
              out != [] && (out[|out| - 1].VersionMismatch? || Serve(p, c, frames).count == MAX_COMMANDS_PER_CONNECTION + 1)
    decreases |frames|
  {
    if frames != [] {
      var c1 := Receive(p, c, frames[0]);
      CountsWhole(p, c1, frames[1..]);
      if c1.closed {
        ServeClosed(p, c1, frames[1..]);
      }
    }
  }

  // ---------------------------------------------------------------------
  // Exactly which commands reach the supervisor
  // ---------------------------------------------------------------------

  /** The valid command a line holds, if it holds one. */
  function CommandsIn(p: Peers, f: Frame): seq<IpcCommand> {
    if f.TooLong? || Blank(f.line) then []
    else
      match p.decode(Trim(f.line))
      case None => []
      case Some(cmd) => if p.valid(cmd) then [cmd] else []
  }

  function Commands(p: Peers, frames: seq<Frame>): seq<IpcCommand> {
    if frames == [] then [] else CommandsIn(p, frames[0]) + Commands(p, frames[1..])
  }

  /** A greeting is answered by the connection itself only as the first valid command. */
  function AfterGreeting(cmds: seq<IpcCommand>): seq<IpcCommand> {
    if cmds != [] && cmds[0].Hello? then cmds[1..] else cmds
  }

  /**
   The commands the supervisor takes, when `n` were handed on before: all but read-only
   ones and those that find its channel closed.
   */
  function Taken(p: Peers, n: nat, cmds: seq<IpcCommand>): seq<IpcCommand>
    decreases |cmds|
  {
    if cmds == [] then []
    else if !IsHandedOn(p, n, cmds[0]) then Taken(p, n, cmds[1..])
    else [cmds[0]] + Taken(p, n + 1, cmds[1..])
  }

  /** What is handed on of these commands, when the greeting is still open or not. */
  function HandedOn(p: Peers, first: bool, n: nat, cmds: seq<IpcCommand>): seq<IpcCommand> {
    Taken(p, n, if first then AfterGreeting(cmds) else cmds)
  }

  lemma HandedOnCons(p: Peers, first: bool, n: nat, here: seq<IpcCommand>, rest: seq<IpcCommand>)
    requires |here| <= 1
    ensures var now := HandedOn(p, first, n, here);
            HandedOn(p, first, n, here + rest) == now + HandedOn(p, first && here == [], n + |now|, rest)
  {
    if here == [] {
      assert here + rest == rest;
    } else {
      assert here == [here[0]] && here[1..] == [] && (here + rest)[1..] == rest;
      assert Taken(p, n, []) == [] && Taken(p, n + 1, []) == [];
    }
  }

  lemma ReceiveForwards(p: Peers, c: Conn, f: Frame)
    requires !Receive(p, c, f).closed
    ensures var d, cmds := Receive(p, c, f), CommandsIn(p, f);
            && d.first == (c.first && cmds == [])
            && d.forwarded == c.forwarded + HandedOn(p, c.first, |c.forwarded|, cmds)
  {
    var cmds, n := CommandsIn(p, f), |c.forwarded|;
    if cmds != [] {
      assert cmds == [cmds[0]] && cmds[1..] == [];
      assert Taken(p, n, []) == [] && Taken(p, n + 1, []) == [];
    }
  }

  /** How many frames are received before the one that closes the connection. */
  function OpenFrames(p: Peers, c: Conn, frames: seq<Frame>): (k: nat)
    ensures k <= |frames|
    decreases |frames|
  {
    if frames == [] || Receive(p, c, frames[0]).closed then 0
    else 1 + OpenFrames(p, Receive(p, c, frames[0]), frames[1..])
  }

  /** The frame is a greeting in another version. */
  predicate BadGreeting(p: Peers, f: Frame) {
    var cmds := CommandsIn(p, f);
    cmds != [] && cmds[0].Hello? && cmds[0].version != PROTOCOL_VERSION
  }

  /** The frame that closes an open connection: one line too many, or a bad greeting as the first command. */
  lemma ClosesIff(p: Peers, c: Conn, f: Frame)
    requires !c.closed && c.count <= MAX_COMMANDS_PER_CONNECTION
    ensures var d := Receive(p, c, f);
            && (d.closed <==> (f.Whole? && c.count == MAX_COMMANDS_PER_CONNECTION) || (c.first && BadGreeting(p, f)))
            && (d.closed ==> d.forwarded == c.forwarded)
            && (!d.closed ==> d.count == c.count + (if f.Whole? then 1 else 0) && d.first == (c.first && CommandsIn(p, f) == []))
  {
  }

  lemma TakeOne(frames: seq<Frame>, k: nat)
    requires 0 < k <= |frames|
    ensures frames[..k][0] == frames[0] && frames[..k][1..] == frames[1..][..k - 1]
  {
  }

  lemma {:induction false} ServeForwards(p: Peers, c: Conn, frames: seq<Frame>)
    requires !c.closed && c.count <= MAX_COMMANDS_PER_CONNECTION
    ensures var open_ := frames[..OpenFrames(p, c, frames)];
            Serve(p, c, frames).forwarded == c.forwarded + HandedOn(p, c.first, |c.forwarded|, Commands(p, open_))
    decreases |frames|
  {
    if frames != [] {
      var d, k, n := Receive(p, c, frames[0]), OpenFrames(p, c, frames), |c.forwarded|;
      ClosesIff(p, c, frames[0]);
      if d.closed {
        ServeClosed(p, d, frames[1..]);
        assert c.forwarded + HandedOn(p, c.first, n, []) == c.forwarded;
      } else {
        TakeOne(frames, k);
        var here, rest := CommandsIn(p, frames[0]), Commands(p, frames[1..][..k - 1]);
        ReceiveForwards(p, c, frames[0]);
        ServeForwards(p, d, frames[1..]);
        HandedOnCons(p, c.first, n, here, rest);
        Regroup(c.forwarded, HandedOn(p, c.first, n, here), HandedOn(p, d.first, |d.forwarded|, rest));
      }
    }
  }

  lemma Regroup(a: seq<IpcCommand>, b: seq<IpcCommand>, c: seq<IpcCommand>)
    ensures a + b + c == a + (b + c)
  {
  }

  /** Frame `i` closes a connection that has counted `count` lines: one line too many, or a bad first greeting. */
  predicate IsClosing(p: Peers, count: nat, first: bool, frames: seq<Frame>, i: nat)
    requires i < |frames|
  {
    || (frames[i].Whole? && count + CountWhole(frames[..i]) == 100)
    || (first && Commands(p, frames[..i]) == [] && BadGreeting(p, frames[i]))
  }

  lemma ClosingShifts(p: Peers, c: Conn, frames: seq<Frame>, i: nat)
    requires !c.closed && c.count <= MAX_COMMANDS_PER_CONNECTION && 0 < i < |frames|
    requires !Receive(p, c, frames[0]).closed
    ensures var d := Receive(p, c, frames[0]);
            IsClosing(p, c.count, c.first, frames, i) <==> IsClosing(p, d.count, d.first, frames[1..], i - 1)
  {
    ClosesIff(p, c, frames[0]);
    TakeOne(frames, i);
    assert Commands(p, frames[..i]) == CommandsIn(p, frames[0]) + Commands(p, frames[1..][..i - 1]);
  }

  /** Which frame closes the connection, from the frames alone: the first that can. */
  lemma {:induction false} ClosingFrame(p: Peers, c: Conn, frames: seq<Frame>)
    requires !c.closed && c.count <= MAX_COMMANDS_PER_CONNECTION
    ensures var k := OpenFrames(p, c, frames);
            && (k < |frames| ==> IsClosing(p, c.count, c.first, frames, k))
            && forall i :: 0 <= i < k ==> !IsClosing(p, c.count, c.first, frames, i)
    decreases |frames|
  {
    if frames != [] {
      var d, k := Receive(p, c, frames[0]), OpenFrames(p, c, frames);
      ClosesIff(p, c, frames[0]);
      assert frames[..0] == [];
      if !d.closed {
        ClosingFrame(p, d, frames[1..]);
        forall i | 0 < i < |frames|
          ensures IsClosing(p, c.count, c.first, frames, i) <==> IsClosing(p, d.count, d.first, frames[1..], i - 1)
        {
          ClosingShifts(p, c, frames, i);
        }
      }
    }
  }

  /**
   The supervisor gets exactly the valid commands of the frames before the closing one that
   are neither read-only nor the opening greeting and find its channel open, each once and
   in order. The closing frame is the first that is the 101st line that fits, or a greeting
   in another version as the first command.
   */
  lemma ForwardedExactly(p: Peers, frames: seq<Frame>)
    ensures var k := OpenFrames(p, START, frames);
            && Serve(p, START, frames).forwarded == Taken(p, 0, AfterGreeting(Commands(p, frames[..k])))
            && (k < |frames| ==> IsClosing(p, 0, true, frames, k))
            && forall i :: 0 <= i < k ==> !IsClosing(p, 0, true, frames, i)
  {
    ServeForwards(p, START, frames);
    ClosingFrame(p, START, frames);
  }

  // ---------------------------------------------------------------------
  // What the answers say
  // ---------------------------------------------------------------------

  /** An answer that passes on what became of a command handed to the supervisor. */
  predicate IsRelay(r: Response) {
    r.Reply? || r == Error(ResponseDropped) || r == Error(SupervisorTimeout)
  }

  function Relays(out: seq<Response>): seq<Response> {
    if out == [] then []
    else Relays(out[..|out| - 1]) + if IsRelay(out[|out| - 1]) then [out[|out| - 1]] else []
  }

  /** The answer that the supervisor's reaction calls for. */
  predicate Relayed(reaction: Reaction, r: Response) {
    match reaction
    case Answered(body) => r == Reply(body)
    case Dropped => r == Error(ResponseDropped)
    case Late => r == Error(SupervisorTimeout)
    case Gone => false
  }

  /** The relayed answers are those to the commands handed on, one each and in order. */
  predicate RelaysFit(p: Peers, c: Conn) {
    && |Relays(c.out)| == |c.forwarded|
    && forall i :: 0 <= i < |c.forwarded| ==> Relayed(p.react(i, c.forwarded[i]), Relays(c.out)[i])
  }

  lemma RelaysSay(out: seq<Response>, r: Response)
    ensures Relays(out + [r]) == Relays(out) + if IsRelay(r) then [r] else []
  {
    assert (out + [r])[..|out|] == out;
  }

  lemma OtherAnswerFits(p: Peers, c: Conn, r: Response)
    requires RelaysFit(p, c) && !IsRelay(r)
    ensures RelaysFit(p, Say(c, r))
  {
    RelaysSay(c.out, r);
  }

  lemma DispatchFits(p: Peers, c: Conn, cmd: IpcCommand)
    requires RelaysFit(p, c)
    ensures RelaysFit(p, Dispatch(p, c, cmd))
  {
    var n := |c.forwarded|;
    var r := AnswerTo(p, n, cmd);
    RelaysSay(c.out, r);
    assert IsRelay(r) <==> IsHandedOn(p, n, cmd);
    assert IsRelay(r) ==> Relayed(p.react(n, cmd), r);
  }

  lemma ExecuteFits(p: Peers, c: Conn, cmd: IpcCommand)
    requires RelaysFit(p, c)
    ensures RelaysFit(p, Execute(p, c, cmd))
  {
    var begun := c.(first := false);
    if c.first && cmd.Hello? {
      OtherAnswerFits(p, begun, HelloOk(PROTOCOL_VERSION));
      OtherAnswerFits(p, begun.(closed := true), VersionMismatch(PROTOCOL_VERSION, cmd.version));
    } else {
      DispatchFits(p, begun, cmd);
    }
  }

  lemma ReceiveRelays(p: Peers, c: Conn, f: Frame)
    requires RelaysFit(p, c)
    ensures RelaysFit(p, Receive(p, c, f))
  {
    var counted := c.(count := c.count + 1);
    assert RelaysFit(p, counted);
    if !c.closed {
      match f
      case TooLong => OtherAnswerFits(p, c, Error(RequestTooLarge));
      case Whole(line) =>
        OtherAnswerFits(p, counted.(closed := true), Error(TooManyCommands));
        match p.decode(Trim(line))
        case None => OtherAnswerFits(p, counted, Error(InvalidJson));
        case Some(cmd) =>
          OtherAnswerFits(p, counted, Error(ValidationFailed));
          ExecuteFits(p, counted, cmd);
    }
  }

  lemma {:induction false} ServeRelays(p: Peers, c: Conn, frames: seq<Frame>)
    requires RelaysFit(p, c)
    ensures RelaysFit(p, Serve(p, c, frames))
    decreases |frames|
  {
    if frames != [] {
      ReceiveRelays(p, c, frames[0]);
      ServeRelays(p, Receive(p, c, frames[0]), frames[1..]);
    }
  }

  /**
   On every stream, the replies, dropped responses and timeouts that the client hears are,
   in order and one for one, what the supervisor made of the commands handed to it.
   */
  lemma RepliesExactly(p: Peers, frames: seq<Frame>)
    ensures var end := Serve(p, START, frames);
            && |Relays(end.out)| == |end.forwarded|
            && forall i :: 0 <= i < |end.forwarded| ==>
                             match p.react(i, end.forwarded[i])
                             case Answered(body) => Relays(end.out)[i] == Reply(body)
                             case Dropped => Relays(end.out)[i] == Error(ResponseDropped)
                             case Late => Relays(end.out)[i] == Error(SupervisorTimeout)
                             case Gone => false
  {
    ServeRelays(p, START, frames);
  }

  /** The frames that get an answer. */
  function Needy(frames: seq<Frame>): seq<Frame> {
    if frames == [] then [] else (if NeedsAnswer(frames[0]) then [frames[0]] else []) + Needy(frames[1..])
  }

  /** An answer that fits its frame. */
  predicate FitsFrame(p: Peers, f: Frame, r: Response) {
    if f.TooLong? then r == Error(RequestTooLarge)
    else
      match p.decode(Trim(f.line))
      case None => r == Error(InvalidJson)
      case Some(cmd) =>
        if !p.valid(cmd) then r == Error(ValidationFailed)
        else
          match cmd
          case ReadOnly(query) => r == Snapshot(query)
          case Hello(v) => (r == HelloOk(1) && v == 1) || IsRelay(r) || r == Error(ChannelClosed)
          case Request(_) => IsRelay(r) || r == Error(ChannelClosed)
  }

  /** The answer that closes the connection. */
  predicate FitsClosing(p: Peers, f: Frame, r: Response) {
    || (f.Whole? && r == Error(TooManyCommands))
    || (BadGreeting(p, f) && r == VersionMismatch(1, CommandsIn(p, f)[0].version))
  }

  lemma ReceiveFits(p: Peers, c: Conn, f: Frame)
    requires !c.closed
    ensures var d := Receive(p, c, f);
            if d.closed then d.out == c.out + [d.out[|c.out|]] && FitsClosing(p, f, d.out[|c.out|])
            else if NeedsAnswer(f) then d.out == c.out + [d.out[|c.out|]] && FitsFrame(p, f, d.out[|c.out|])
            else d.out == c.out
  {
  }

  /** What was said beyond `out` answers the open frames one by one, then the closing one. */
  predicate AnswersFit(p: Peers, frames: seq<Frame>, k: nat, said: seq<Response>)
    requires k <= |frames|
  {
    var needy := Needy(frames[..k]);
    && |said| == |needy| + (if k < |frames| then 1 else 0)
    && (forall j :: 0 <= j < |needy| ==> FitsFrame(p, needy[j], said[j]))
    && (k < |frames| ==> FitsClosing(p, frames[k], said[|needy|]))
  }

  lemma {:induction false} ServeFits(p: Peers, c: Conn, frames: seq<Frame>)
    requires !c.closed
    ensures var end := Serve(p, c, frames);
            c.out <= end.out && AnswersFit(p, frames, OpenFrames(p, c, frames), end.out[|c.out|..])
    decreases |frames|
  {
    if frames != [] {
      var f, d, k := frames[0], Receive(p, c, frames[0]), OpenFrames(p, c, frames);
      var end := Serve(p, c, frames);
      ReceiveFits(p, c, f);
      if d.closed {
        ServeClosed(p, d, frames[1..]);
        assert frames[..0] == [];
      } else {
        ServeFits(p, d, frames[1..]);
        TakeOne(frames, k);
        AnswersCons(p, frames, k, c.out, d.out, end.out);
      }
    }
  }

  lemma AnswersCons(p: Peers, frames: seq<Frame>, k: nat, before: seq<Response>, after: seq<Response>, end: seq<Response>)
    requires 0 < k <= |frames| && after <= end
    requires if NeedsAnswer(frames[0]) then |after| == |before| + 1 && before <= after && FitsFrame(p, frames[0], after[|before|])
             else after == before
    requires AnswersFit(p, frames[1..], k - 1, end[|after|..])
    ensures before <= end && AnswersFit(p, frames, k, end[|before|..])
  {
    TakeOne(frames, k);
    var rest := Needy(frames[1..][..k - 1]);
    if NeedsAnswer(frames[0]) {
      assert Needy(frames[..k]) == [frames[0]] + rest;
      assert end[|before|..] == [after[|before|]] + end[|after|..];
    } else {
      assert Needy(frames[..k]) == rest;
    }
  }

  /**
   On every stream, the answers fit the lines that call for one, in order: too long, not
   decodable, not valid, a query answered from the snapshot, the greeting, or something
   relayed. After them comes at most one that closes the connection.
   */
  lemma AnswersExactly(p: Peers, frames: seq<Frame>)
    ensures AnswersFit(p, frames, OpenFrames(p, START, frames), Serve(p, START, frames).out)
  {
    ServeFits(p, START, frames);
    assert START.out == [] && Serve(p, START, frames).out[0..] == Serve(p, START, frames).out;
  }

  // ---------------------------------------------------------------------
  // Over-long lines change nothing else
  // ---------------------------------------------------------------------

  function DropTooLong(frames: seq<Frame>): seq<Frame> {
    if frames == [] then [] else (if frames[0].TooLong? then [] else [frames[0]]) + DropTooLong(frames[1..])
  }

  function DropTooLarge(out: seq<Response>): seq<Response> {
    if out == [] then []
    else DropTooLarge(out[..|out| - 1]) + (if out[|out| - 1] == Error(RequestTooLarge) then [] else [out[|out| - 1]])
  }

  /** Equal but for the answers to over-long lines. */
  predicate Alike(a: Conn, b: Conn) {
    a.(out := []) == b.(out := []) && DropTooLarge(a.out) == DropTooLarge(b.out)
  }

  lemma SayBoth(a: Conn, b: Conn, r: Response)
    requires Alike(a, b)
    ensures Alike(Say(a, r), Say(b, r))
  {
    assert (a.out + [r])[..|a.out|] == a.out && (b.out + [r])[..|b.out|] == b.out;
  }

  /** What is said next does not depend on what was said before. */
  lemma ReceiveAppends(p: Peers, c: Conn, f: Frame)
    ensures var d := Receive(p, c.(out := []), f);
            |d.out| <= 1 && Receive(p, c, f) == d.(out := c.out + d.out)
  {
    var d := Receive(p, c.(out := []), f);
    assert c.out + [] == c.out && (d.out == [] || d.out == [] + [d.out[0]]);
  }

  lemma ReceiveAlike(p: Peers, a: Conn, b: Conn, f: Frame)
    requires Alike(a, b)
    ensures Alike(Receive(p, a, f), Receive(p, b, f))
  {
    ReceiveAppends(p, a, f);
    ReceiveAppends(p, b, f);
    var said := Receive(p, a.(out := []), f).out;
    if said == [] {
      assert a.out + said == a.out && b.out + said == b.out;
    } else {
      assert said == [said[0]];
      SayBoth(a, b, said[0]);
    }
  }

  /**
   Sending over-long lines, anywhere and any number of them, changes nothing but the
   errors that answer them: the reader stays aligned and no budget is spent.
   */
  lemma {:induction false} OverlongTransparent(p: Peers, a: Conn, b: Conn, frames: seq<Frame>)
    requires Alike(a, b)
    ensures Alike(Serve(p, a, frames), Serve(p, b, DropTooLong(frames)))
    decreases |frames|
  {
    if frames != [] {
      var rest := DropTooLong(frames[1..]);
      if frames[0].TooLong? {
        assert DropTooLong(frames) == rest;
        var a' := Receive(p, a, frames[0]);
        assert (a.out + [Error(RequestTooLarge)])[..|a.out|] == a.out;
        OverlongTransparent(p, a', b, frames[1..]);
      } else {
        assert DropTooLong(frames)[0] == frames[0] && DropTooLong(frames)[1..] == rest;
        ReceiveAlike(p, a, b, frames[0]);
        OverlongTransparent(p, Receive(p, a, frames[0]), Receive(p, b, frames[0]), frames[1..]);
      }
    }
  }
}
