/**
 * The Redis connection: dialling with its handshake, one command and one reply at a time, and the rule
 * that decides after which errors the stream may be used again.
 */
module RedisLink {
  import opened Basics
  import opened Decimal
  import opened Resp
  import opened RespWire
  import opened RespIO

  // ---------- the environment ----------

  /**
   * One command against the network: whether the deadline could be set, how many bytes the connection
   * carries before a write fails, what the server answers once it has the whole command, and how many
   * bytes of that answer arrive before the transport fails.
   */
  datatype Exchange = Exchange(deadlineSet: bool, carries: nat, reply: Reply, arrives: nat)

  /** Everything outside the client's control during one call of Do. */
  datatype World = World(alive: bool, dials: bool, auth: Exchange, select: Exchange, ping: Exchange, command: Exchange)

  datatype Config = Config(username: Bytes, password: Bytes, db: int64)

  datatype Stage = Auth | Select | Ping

  /** The errors of Do; `Handshake` wraps the error that ended the connection set-up. */
  datatype DoError =
    | EmptyCommand
    | ContextDone
    | DialFailed
    | Handshake(stage: Stage, cause: LinkError)
    | Own(cause: LinkError)

  datatype LinkError = Transport | Protocol(error: ReplyError)

  datatype DoResult = Success(value: Value) | Failure(error: DoError)

  /** `Up` holds the bytes of the stream that the client has not read. */
  datatype Link = Down | Up(unread: Bytes)

  // ---------- what errors.Is and errors.As see ----------

  /** errors.Is(err, ErrRedisNil), which looks through the wrapping of handshake errors. */
  predicate IsNilError(e: DoError) {
    (e.Handshake? || e.Own?) && e.cause == Protocol(NilReply)
  }

  /** isRedisCommandError(err), which looks through the wrapping too. */
  predicate IsCommandError(e: DoError) {
    (e.Handshake? || e.Own?) && e.cause.Protocol? && e.cause.error.Command?
  }

  predicate Keeps(e: LinkError) {
    e.Protocol? && (e.error == NilReply || e.error.Command?)
  }

  // ---------- the specification ----------

  const AUTH: Bytes := [65, 85, 84, 72]
  const SELECT: Bytes := [83, 69, 76, 69, 67, 84]
  const PING: Bytes := [80, 73, 78, 71]

  function AuthArgs(cfg: Config): seq<Arg> {
    if cfg.username != [] then [StringArg(AUTH), StringArg(cfg.username), StringArg(cfg.password)]
    else [StringArg(AUTH), StringArg(cfg.password)]
  }

  function SelectArgs(cfg: Config): seq<Arg> {
    [StringArg(SELECT), IntArg(cfg.db)]
  }

  const PING_ARGS: seq<Arg> := [StringArg(PING)]

  predicate Usable(cfg: Config) {
    Printable(AuthArgs(cfg)) && Printable(SelectArgs(cfg)) && Printable(PING_ARGS)
  }

  datatype Answered = Answered(value: Value, unread: Bytes) | Broken(cause: LinkError, unread: Bytes)

  /** doLocked on a stream with `unread` bytes on it. */
  function Talk(unread: Bytes, args: seq<Arg>, x: Exchange): Answered
    requires Printable(args) && WellFormed(x.reply)
  {
    if !x.deadlineSet || x.carries < |EncodeCommand(args)| then Broken(Transport, unread)
    else
      var r := ReadReply(unread + Prefix(Encode(x.reply), x.arrives), true);
      match r.outcome
      case Ok(v) => Answered(v, r.rest)
      case Failed(e) => Broken(Protocol(e), r.rest)
  }

  /** What the client sends in an exchange: nothing without a deadline, otherwise as much as the connection carries. */
  function Output(args: seq<Arg>, x: Exchange): Bytes
    requires Printable(args)
  {
    if x.deadlineSet then Prefix(EncodeCommand(args), x.carries) else []
  }

  /** The handshake commands in their order, each with the exchange it meets. */
  function Steps(cfg: Config, w: World): seq<(Stage, seq<Arg>, Exchange)> {
    (if cfg.password != [] then [(Auth, AuthArgs(cfg), w.auth)] else [])
    + (if cfg.db != 0 then [(Select, SelectArgs(cfg), w.select)] else [])
    + [(Ping, PING_ARGS, w.ping)]
  }

  function CommandsOf(steps: seq<(Stage, seq<Arg>, Exchange)>): seq<seq<Arg>> {
    seq(|steps|, i requires 0 <= i < |steps| => steps[i].1)
  }

  predicate AllPrintable(steps: seq<(Stage, seq<Arg>, Exchange)>) {
    forall i :: 0 <= i < |steps| ==> Printable(steps[i].1)
  }

  function BytesOf(steps: seq<(Stage, seq<Arg>, Exchange)>): Bytes
    requires AllPrintable(steps)
  {
    EncodeCommands(CommandsOf(steps))
  }

  /** All that goes out in a handshake that succeeds. */
  function HandshakeBytes(cfg: Config, w: World): Bytes
    requires Usable(cfg)
  {
    BytesOf(Steps(cfg, w))
  }

  datatype Connected = Connected(unread: Bytes) | NotConnected(error: DoError)

  ghost predicate Proper(steps: seq<(Stage, seq<Arg>, Exchange)>) {
    forall i :: 0 <= i < |steps| ==> Printable(steps[i].1) && WellFormed(steps[i].2.reply)
  }

  ghost function Shake(unread: Bytes, steps: seq<(Stage, seq<Arg>, Exchange)>): Connected
    requires Proper(steps)
    decreases |steps|
  {
    if steps == [] then Connected(unread)
    else match Talk(unread, steps[0].1, steps[0].2)
         case Answered(_, rest) => Shake(rest, steps[1..])
         case Broken(cause, _) => NotConnected(Handshake(steps[0].0, cause))
  }

  ghost predicate Behaves(w: World) {
    WellFormed(w.auth.reply) && WellFormed(w.select.reply) && WellFormed(w.ping.reply) && WellFormed(w.command.reply)
  }

  ghost predicate AllAligned(w: World) {
    Aligned(w.auth.reply) && Aligned(w.select.reply) && Aligned(w.ping.reply) && Aligned(w.command.reply)
  }

  ghost function Connect(cfg: Config, w: World): Connected
    requires Usable(cfg) && Behaves(w)
  {
    if !w.dials then NotConnected(DialFailed) else Shake([], Steps(cfg, w))
  }

  /** Do: the new state of the connection and what the caller gets. */
  ghost function DoStep(cfg: Config, link: Link, args: seq<Arg>, w: World): (Link, DoResult)
    requires Usable(cfg) && Printable(args) && Behaves(w)
  {
    if args == [] then (link, Failure(EmptyCommand))
    else if !w.alive then (link, Failure(ContextDone))
    else if link.Down? then
      match Connect(cfg, w)
      case NotConnected(e) => (Down, Failure(e))
      case Connected(unread) => Command(unread, args, w.command)
    else Command(link.unread, args, w.command)
  }

  function Command(unread: Bytes, args: seq<Arg>, x: Exchange): (Link, DoResult)
    requires Printable(args) && WellFormed(x.reply)
  {
    match Talk(unread, args, x)
    case Answered(v, rest) => (Up(rest), Success(v))
    case Broken(cause, rest) => (if Keeps(cause) then Up(rest) else Down, Failure(Own(cause)))
  }

  // ---------- the client ----------

  class RedisConn {
    const cfg: Config
    var conn: Wire?
    var reader: ByteReader?

    constructor (cfg: Config)
      ensures this.cfg == cfg && Valid() && State() == Down
    {
      this.cfg := cfg;
      conn, reader := null, null;
    }

    ghost predicate Valid()
      reads this
    {
      (conn == null) == (reader == null)
    }

    ghost function State(): Link
      reads this, reader
    {
      if reader == null then Down else Up(reader.unread)
    }

    method DoLocked(args: seq<Arg>, x: Exchange) returns (answer: Answered)
      requires Valid() && conn != null
      requires Printable(args) && WellFormed(x.reply)
      modifies conn, reader
      ensures answer == Talk(old(reader.unread), args, x) && reader.unread == answer.unread
      ensures conn.sent == old(conn.sent) + Output(args, x)
    {
      hide EncodeCommand, ReadReply, Encode;
      if !x.deadlineSet {
        return Broken(Transport, reader.unread);
      }
      conn.budget := x.carries;
      var written := WriteCommand(conn, args);
      if !written {
        return Broken(Transport, reader.unread);
      }
      reader.unread := reader.unread + Prefix(Encode(x.reply), x.arrives);
      var outcome := ReadReplyFrom(reader, true);
      answer := match outcome
        case Ok(v) => Answered(v, reader.unread)
        case Failed(e) => Broken(Protocol(e), reader.unread);
    }

    method CloseLocked()
      modifies this
      ensures Valid() && State() == Down && conn == null
    {
      conn, reader := null, null;
    }

    method ConnectLocked(w: World) returns (error: Option<DoError>)
      requires Valid() && conn == null && Usable(cfg) && Behaves(w)
      modifies this
      ensures Valid()
      ensures match Connect(cfg, w)
              case NotConnected(e) => error == Some(e) && State() == Down
              case Connected(unread) => error == None && State() == Up(unread)
      ensures conn != null ==> fresh(conn) && fresh(reader) && conn.sent == HandshakeBytes(cfg, w)
    {
      hide Talk, Output, BytesOf;
      if !w.dials {
        return Some(DialFailed);
      }
      conn := new Wire();
      reader := new ByteReader();
      var steps := Steps(cfg, w);
      var i := 0;
      assert steps[0..] == steps;
      while i < |steps|
        invariant 0 <= i <= |steps| && Valid() && conn != null && fresh(conn) && fresh(reader)
        invariant Shake([], steps) == Shake(reader.unread, steps[i..])
        invariant HandshakeBytes(cfg, w) == conn.sent + BytesOf(steps[i..])
      {
        ghost var unread, sent := reader.unread, conn.sent;
        var answer := DoLocked(steps[i].1, steps[i].2);
        if answer.Broken? {
          CloseLocked();
          return Some(Handshake(steps[i].0, answer.cause));
        }
        SentInStep(unread, sent, steps, i);
        i := i + 1;
      }
      NoneSent(steps);
      error := None;
    }

    method Do(args: seq<Arg>, w: World) returns (result: DoResult)
      requires Valid() && Usable(cfg) && Printable(args) && Behaves(w)
      modifies this, conn, reader
      ensures Valid() && (State(), result) == DoStep(cfg, old(State()), args, w)
      ensures conn != null ==>
                conn.sent == if args == [] || !w.alive then old(conn.sent)
                             else (if old(conn) == null then HandshakeBytes(cfg, w) else old(conn.sent)) + Output(args, w.command)
    {
      hide Talk, Output, HandshakeBytes;
      if args == [] {
        return Failure(EmptyCommand);
      }
      if !w.alive {
        return Failure(ContextDone);
      }
      if conn == null {
        var error := ConnectLocked(w);
        if error.Some? {
          return Failure(error.value);
        }
      }
      var answer := DoLocked(args, w.command);
      match answer
      case Answered(v, _) =>
        result := Success(v);
      case Broken(cause, _) =>
        if !Keeps(cause) {
          CloseLocked();
        }
        result := Failure(Own(cause));
    }
  }

  /** An exchange that is answered has sent its command whole. */
  lemma SentInStep(unread: Bytes, sent: Bytes, steps: seq<(Stage, seq<Arg>, Exchange)>, i: nat)
    requires Proper(steps) && i < |steps|
    requires Talk(unread, steps[i].1, steps[i].2).Answered?
    ensures sent + Output(steps[i].1, steps[i].2) + BytesOf(steps[i + 1..]) == sent + BytesOf(steps[i..])
  {
    hide EncodeCommand, ReadReply;
    assert CommandsOf(steps[i..])[1..] == CommandsOf(steps[i + 1..]);
  }

  lemma NoneSent(steps: seq<(Stage, seq<Arg>, Exchange)>)
    ensures BytesOf(steps[|steps|..]) == []
  {
  }

  // ---------- the handshake as the server reads it ----------

  /** A command of these words. */
  predicate Reads(outcome: Outcome, words: seq<Bytes>) {
    && outcome.Ok? && outcome.value.List? && |outcome.value.items| == |words|
    && forall i :: 0 <= i < |words| ==> outcome.value.items[i] == Blob(words[i])
  }

  /** SELECT with the number of the database. */
  predicate ReadsSelect(outcome: Outcome, db: int64) {
    && outcome.Ok? && outcome.value.List? && |outcome.value.items| == 2
    && outcome.value.items[0] == Blob([83, 69, 76, 69, 67, 84])
    && outcome.value.items[1].Blob? && ParseInt(outcome.value.items[1].data) == Parsed(db)
  }

  /**
   * What the server reads in a handshake: AUTH with the password, behind the user name if there is one, exactly if
   * the password is not empty, then SELECT exactly if the database is not the first, and last PING.
   */
  lemma HandshakeReceived(cfg: Config, w: World)
    requires Usable(cfg)
    ensures var read := ReadStream(HandshakeBytes(cfg, w));
            var selects := if cfg.password == [] then 0 else 1;
            var pings := if cfg.db == 0 then selects else selects + 1;
            && |read| == pings + 1
            && (cfg.password != [] ==>
                  Reads(read[0], [[65, 85, 84, 72]] + (if cfg.username == [] then [] else [cfg.username]) + [cfg.password]))
            && (cfg.db != 0 ==> ReadsSelect(read[selects], cfg.db))
            && Reads(read[pings], [[80, 73, 78, 71]])
  {
    hide Printable, ReadStream, ParseInt, EncodeCommands;
    var commands := CommandsOf(Steps(cfg, w));
    CommandsRoundTrip(commands);
    var read := ReadStream(EncodeCommands(commands));
    var selects := if cfg.password == [] then 0 else 1;
    var pings := if cfg.db == 0 then selects else selects + 1;
    assert commands[pings] == PING_ARGS && ReceivesAll(read[pings], PING_ARGS);
    if cfg.password != [] {
      assert commands[0] == AuthArgs(cfg) && ReceivesAll(read[0], AuthArgs(cfg));
    }
    if cfg.db != 0 {
      assert commands[selects] == SelectArgs(cfg) && ReceivesAll(read[selects], SelectArgs(cfg));
    }
  }

  // ---------- one exchange ----------

  ghost predicate Delivered(args: seq<Arg>, x: Exchange)
    requires Printable(args) && WellFormed(x.reply)
  {
    x.deadlineSet && |EncodeCommand(args)| <= x.carries && |Encode(x.reply)| <= x.arrives
  }

  /** On a clean stream an exchange reports the reply to this command, or the transport is found broken. */
  lemma TalkClean(args: seq<Arg>, x: Exchange)
    requires Printable(args) && WellFormed(x.reply)
    ensures Delivered(args, x) ==>
              Talk([], args, x) == match Meaning(x.reply, true)
                                   case Ok(v) => Answered(v, Leftover(x.reply))
                                   case Failed(e) => Broken(Protocol(e), Leftover(x.reply))
    ensures !Delivered(args, x) && Aligned(x.reply) ==>
              Talk([], args, x).Broken? && !Keeps(Talk([], args, x).cause)
  {
    var arrived := Prefix(Encode(x.reply), x.arrives);
    assert [] + arrived == arrived;
    ReadBack(x.reply, true, []);
    assert Encode(x.reply) + [] == Encode(x.reply);
    assert Leftover(x.reply) + [] == Leftover(x.reply);
    if x.arrives < |Encode(x.reply)| && Aligned(x.reply) {
      TruncationNoticed(x.reply, true, x.arrives);
    }
  }

  ghost predicate Clean(link: Link) {
    link == Down || link == Up([])
  }

  /** The server got the command and answered it with a value. */
  ghost predicate Accepts(args: seq<Arg>, x: Exchange)
    requires Printable(args) && WellFormed(x.reply)
  {
    Delivered(args, x) && Meaning(x.reply, true).Ok?
  }

  ghost predicate Accepted(steps: seq<(Stage, seq<Arg>, Exchange)>)
    requires Proper(steps)
  {
    forall i :: 0 <= i < |steps| ==> Accepts(steps[i].1, steps[i].2)
  }

  /** On a clean stream a command that the server accepts is answered, and leaves a clean stream; no other is. */
  lemma TalkAccepted(args: seq<Arg>, x: Exchange)
    requires Printable(args) && WellFormed(x.reply) && Aligned(x.reply)
    ensures Talk([], args, x).Answered? <==> Accepts(args, x)
    ensures Talk([], args, x).Answered? ==> Talk([], args, x).unread == []
  {
    TalkClean(args, x);
    AlignedIff(x.reply);
  }

  lemma AcceptedRest(steps: seq<(Stage, seq<Arg>, Exchange)>)
    requires steps != [] && Proper(steps)
    ensures Proper(steps[1..]) && (Accepted(steps) <==> Accepts(steps[0].1, steps[0].2) && Accepted(steps[1..]))
  {
    var rest := steps[1..];
    assert forall i :: 0 < i < |steps| ==> steps[i] == rest[i - 1];
  }

  /** A handshake succeeds, and leaves a clean stream, exactly if all its commands are accepted. */
  lemma {:induction false} ShakeClean(steps: seq<(Stage, seq<Arg>, Exchange)>)
    requires Proper(steps) && forall i :: 0 <= i < |steps| ==> Aligned(steps[i].2.reply)
    ensures Shake([], steps).Connected? <==> Accepted(steps)
    ensures match Shake([], steps)
            case Connected(unread) => unread == []
            case NotConnected(e) => e.Handshake?
  {
    if steps != [] {
      TalkAccepted(steps[0].1, steps[0].2);
      AcceptedRest(steps);
      if Accepts(steps[0].1, steps[0].2) {
        ShakeClean(steps[1..]);
      }
    }
  }

  /** The first command that the server does not accept ends a handshake. */
  ghost predicate FirstRefused(steps: seq<(Stage, seq<Arg>, Exchange)>, i: nat)
    requires Proper(steps)
  {
    i < |steps| && !Accepts(steps[i].1, steps[i].2) && forall j :: 0 <= j < i ==> Accepts(steps[j].1, steps[j].2)
  }

  lemma {:induction false} ShakeStops(steps: seq<(Stage, seq<Arg>, Exchange)>, i: nat)
    requires Proper(steps) && forall i :: 0 <= i < |steps| ==> Aligned(steps[i].2.reply)
    requires FirstRefused(steps, i)
    ensures Shake([], steps).NotConnected? && Shake([], steps).error.Handshake? && Shake([], steps).error.stage == steps[i].0
  {
    hide Talk, Accepts;
    TalkAccepted(steps[0].1, steps[0].2);
    if i > 0 {
      assert forall j :: 0 < j < |steps| ==> steps[j] == steps[1..][j - 1];
      ShakeStops(steps[1..], i - 1);
    }
  }

  lemma ConnectsIff(cfg: Config, w: World)
    requires Usable(cfg) && Behaves(w) && AllAligned(w)
    ensures Connect(cfg, w).Connected? <==> w.dials && Accepted(Steps(cfg, w))
    ensures match Connect(cfg, w)
            case Connected(unread) => unread == []
            case NotConnected(e) => if w.dials then e.Handshake? else e.DialFailed?
  {
    ShakeClean(Steps(cfg, w));
  }

  /** The handshake commands that a server must accept, spelled out. */
  lemma AcceptedIff(cfg: Config, w: World)
    requires Usable(cfg) && Behaves(w)
    ensures Proper(Steps(cfg, w))
    ensures Accepted(Steps(cfg, w)) <==>
              && (cfg.password != [] ==> Accepts(AuthArgs(cfg), w.auth))
              && (cfg.db != 0 ==> Accepts(SelectArgs(cfg), w.select))
              && Accepts(PING_ARGS, w.ping)
  {
    hide Accepts, Printable, AuthArgs, SelectArgs;
    var steps := Steps(cfg, w);
    if cfg.password != [] {
      assert steps[0] == (Auth, AuthArgs(cfg), w.auth);
    }
    if cfg.db != 0 {
      assert steps[if cfg.password != [] then 1 else 0] == (Select, SelectArgs(cfg), w.select);
    }
    assert steps[|steps| - 1] == (Ping, PING_ARGS, w.ping);
  }

  ghost function RefusedStage(cfg: Config, w: World): Stage
    requires Usable(cfg) && Behaves(w)
  {
    if cfg.password != [] && !Accepts(AuthArgs(cfg), w.auth) then Auth
    else if cfg.db != 0 && !Accepts(SelectArgs(cfg), w.select) then Select
    else Ping
  }

  lemma ShakeStage(cfg: Config, w: World)
    requires Usable(cfg) && Behaves(w) && AllAligned(w) && Proper(Steps(cfg, w)) && !Accepted(Steps(cfg, w))
    ensures Shake([], Steps(cfg, w)).NotConnected? && Shake([], Steps(cfg, w)).error.Handshake?
    ensures Shake([], Steps(cfg, w)).error.stage == RefusedStage(cfg, w)
  {
    hide Accepts, Shake, Printable, AuthArgs, SelectArgs;
    AcceptedIff(cfg, w);
    var steps := Steps(cfg, w);
    var selects := if cfg.password != [] then 1 else 0;
    var i: nat := match RefusedStage(cfg, w)
      case Auth => 0
      case Select => selects
      case Ping => |steps| - 1;
    ShakeStops(steps, i);
  }

  /** Where a call ends: a value exactly if nothing stands in its way, otherwise the first obstacle. */
  ghost predicate Ends(cfg: Config, link: Link, args: seq<Arg>, w: World, result: DoResult)
    requires Usable(cfg) && Printable(args) && Behaves(w) && Proper(Steps(cfg, w))
  {
    var connected := link.Up? || (w.dials && Accepted(Steps(cfg, w)));
    && (result.Success? <==> args != [] && w.alive && connected && Accepts(args, w.command))
    && (result == Failure(EmptyCommand) <==> args == [])
    && (result == Failure(ContextDone) <==> args != [] && !w.alive)
    && (result == Failure(DialFailed) <==> args != [] && w.alive && link.Down? && !w.dials)
    && (result.Failure? && result.error.Handshake? <==> args != [] && w.alive && w.dials && !connected)
    && (result.Failure? && result.error.Handshake? ==> result.error.stage == RefusedStage(cfg, w))
    && (result.Failure? && result.error.Own? <==> args != [] && w.alive && connected && !Accepts(args, w.command))
  }

  /** Every call on a clean connection ends at its first obstacle, and without one with a value. */
  lemma DoEnds(cfg: Config, link: Link, args: seq<Arg>, w: World)
    requires Usable(cfg) && Printable(args) && Behaves(w) && AllAligned(w) && Clean(link)
    ensures Proper(Steps(cfg, w)) && Ends(cfg, link, args, w, DoStep(cfg, link, args, w).1)
  {
    hide Accepts, Accepted, Talk, Steps, Shake;
    AcceptedIff(cfg, w);
    ConnectsIff(cfg, w);
    TalkAccepted(args, w.command);
    if !Accepted(Steps(cfg, w)) {
      ShakeStage(cfg, w);
    }
  }

  /** What one call of Do on a clean connection amounts to, when the server's replies are aligned. */
  ghost predicate Faithful(link: Link, args: seq<Arg>, w: World, link': Link, result: DoResult)
    requires Printable(args) && Behaves(w)
  {
    match result
    case Success(v) =>
      Delivered(args, w.command) && Meaning(w.command.reply, true) == Ok(v) && link' == Up([])
    case Failure(Own(cause)) =>
      if Keeps(cause) then
        Delivered(args, w.command) && Meaning(w.command.reply, true) == Failed(cause.error) && link' == Up([])
      else
        !Delivered(args, w.command) && link' == Down
    case Failure(EmptyCommand) => link' == link
    case Failure(ContextDone) => link' == link
    case Failure(_) => link == Down && link' == Down
  }

  lemma DoFaithful(cfg: Config, link: Link, args: seq<Arg>, w: World)
    requires Usable(cfg) && Printable(args) && Behaves(w) && AllAligned(w) && Clean(link)
    ensures var (link', result) := DoStep(cfg, link, args, w); Faithful(link, args, w, link', result)
  {
    CommandFaithful(link, args, w);
    ShakeClean(Steps(cfg, w));
  }

  lemma CommandFaithful(link: Link, args: seq<Arg>, w: World)
    requires Printable(args) && Behaves(w) && Aligned(w.command.reply)
    ensures var (link', result) := Command([], args, w.command); Faithful(link, args, w, link', result)
  {
    TalkClean(args, w.command);
    AlignedIff(w.command.reply);
    MeaningKeeps(w.command.reply);
  }

  /** A reply that is not a value is an error the connection survives. */
  lemma MeaningKeeps(r: Reply)
    ensures Meaning(r, true).Failed? ==> Keeps(Protocol(Meaning(r, true).error))
  {
  }

  // ---------- whole runs ----------

  datatype Call = Call(args: seq<Arg>, world: World)

  ghost predicate Admissible(cfg: Config, calls: seq<Call>) {
    Usable(cfg) && forall i :: 0 <= i < |calls| ==> Printable(calls[i].args) && Behaves(calls[i].world)
  }

  /** The connection after the first `n` calls of a run that starts without one. */
  ghost function After(cfg: Config, calls: seq<Call>, n: nat): Link
    requires Admissible(cfg, calls) && n <= |calls|
  {
    if n == 0 then Down else DoStep(cfg, After(cfg, calls, n - 1), calls[n - 1].args, calls[n - 1].world).0
  }

  ghost function ResultOf(cfg: Config, calls: seq<Call>, n: nat): DoResult
    requires Admissible(cfg, calls) && n < |calls|
  {
    DoStep(cfg, After(cfg, calls, n), calls[n].args, calls[n].world).1
  }

  /**
   * Over every run of calls, with transport failures anywhere and one aligned reply per command: after each
   * call the connection is closed or its stream is at a reply boundary, and every value, nil and command
   * error that is not a wrapped handshake error is the reply to that very call.
   */
  lemma {:induction false} RepliesNeverMixed(cfg: Config, calls: seq<Call>, n: nat)
    requires Admissible(cfg, calls) && n <= |calls|
    requires forall i :: 0 <= i < |calls| ==> AllAligned(calls[i].world)
    ensures Clean(After(cfg, calls, n))
    ensures n < |calls| ==>
              Faithful(After(cfg, calls, n), calls[n].args, calls[n].world, After(cfg, calls, n + 1), ResultOf(cfg, calls, n))
  {
    if n > 0 {
      RepliesNeverMixed(cfg, calls, n - 1);
    }
    if n < |calls| {
      DoFaithful(cfg, After(cfg, calls, n), calls[n].args, calls[n].world);
    }
  }

  /** So over every such run each call succeeds exactly if it can, and reports the first obstacle otherwise. */
  lemma CallsEnd(cfg: Config, calls: seq<Call>, n: nat)
    requires Admissible(cfg, calls) && n < |calls|
    requires forall i :: 0 <= i < |calls| ==> AllAligned(calls[i].world)
    ensures Proper(Steps(cfg, calls[n].world))
    ensures Ends(cfg, After(cfg, calls, n), calls[n].args, calls[n].world, ResultOf(cfg, calls, n))
  {
    hide DoStep, Ends, Faithful;
    RepliesNeverMixed(cfg, calls, n);
    DoEnds(cfg, After(cfg, calls, n), calls[n].args, calls[n].world);
  }

  /** The errors that a failing transport and a server's own replies account for. */
  predicate Expected(cause: LinkError) {
    cause.Transport? || cause.error == EndOfStream || Keeps(cause)
  }

  lemma TalkExpected(args: seq<Arg>, x: Exchange)
    requires Printable(args) && WellFormed(x.reply)
    ensures Talk([], args, x).Broken? ==> Expected(Talk([], args, x).cause)
  {
    hide Encode, EncodeCommand, ReadReply;
    var cut := if x.arrives < |Encode(x.reply)| then x.arrives else |Encode(x.reply)|;
    CutReads(x.reply, true, cut);
    MeaningKeeps(x.reply);
    assert Prefix(Encode(x.reply), x.arrives) == Encode(x.reply)[..cut];
    assert [] + Prefix(Encode(x.reply), x.arrives) == Encode(x.reply)[..cut];
  }

  lemma {:induction false} ShakeExpected(steps: seq<(Stage, seq<Arg>, Exchange)>)
    requires Proper(steps) && forall i :: 0 <= i < |steps| ==> Aligned(steps[i].2.reply)
    ensures Shake([], steps).NotConnected? ==>
              Shake([], steps).error.Handshake? && Expected(Shake([], steps).error.cause)
  {
    if steps != [] {
      TalkExpected(steps[0].1, steps[0].2);
      TalkAccepted(steps[0].1, steps[0].2);
      AcceptedRest(steps);
      ShakeExpected(steps[1..]);
    }
  }

  predicate ExpectedResult(result: DoResult) {
    match result
    case Failure(Own(cause)) => Expected(cause)
    case Failure(Handshake(_, cause)) => Expected(cause)
    case _ => true
  }

  lemma DoExpected(cfg: Config, link: Link, args: seq<Arg>, w: World)
    requires Usable(cfg) && Printable(args) && Behaves(w) && AllAligned(w) && Clean(link)
    ensures ExpectedResult(DoStep(cfg, link, args, w).1)
  {
    hide Talk, Shake, Steps, Expected;
    TalkExpected(args, w.command);
    ConnectExpected(cfg, w);
  }

  lemma ConnectExpected(cfg: Config, w: World)
    requires Usable(cfg) && Behaves(w) && AllAligned(w)
    ensures match Connect(cfg, w)
            case Connected(unread) => unread == []
            case NotConnected(e) => e.DialFailed? || (e.Handshake? && Expected(e.cause))
  {
    ConnectsIff(cfg, w);
    ShakeExpected(Steps(cfg, w));
  }

  /**
   * Over every such run, no call meets a reply that the parser cannot read, in particular no length on which the
   * client would panic: whatever the cause of an error, it is the transport, or a nil or error reply.
   */
  lemma NothingUnreadable(cfg: Config, calls: seq<Call>, n: nat)
    requires Admissible(cfg, calls) && n < |calls|
    requires forall i :: 0 <= i < |calls| ==> AllAligned(calls[i].world)
    ensures ExpectedResult(ResultOf(cfg, calls, n))
  {
    hide DoStep, ExpectedResult, Faithful;
    RepliesNeverMixed(cfg, calls, n);
    DoExpected(cfg, After(cfg, calls, n), calls[n].args, calls[n].world);
  }

  // ---------- where the promise ends ----------

  /** The stream stays at a reply boundary exactly when the delivered reply is aligned. */
  lemma BoundaryIffAligned(args: seq<Arg>, x: Exchange)
    requires Printable(args) && WellFormed(x.reply) && Delivered(args, x)
    ensures Command([], args, x).0 == Up([]) <==> Aligned(x.reply)
  {
    TalkClean(args, x);
    AlignedIff(x.reply);
    MeaningKeeps(x.reply);
  }

  /**
   * And once a whole reply is left on the stream, the next call that reaches the server reports that reply as its own,
   * and leaves its own reply on the stream.
   */
  lemma LeftoverIsReadNext(cfg: Config, stale: Reply, args: seq<Arg>, w: World)
    requires Usable(cfg) && Printable(args) && Behaves(w) && WellFormed(stale)
    requires args != [] && w.alive && Delivered(args, w.command)
    ensures DoStep(cfg, Up(Encode(stale)), args, w)
         == (Up(Leftover(stale) + Encode(w.command.reply)),
             match Meaning(stale, true) case Ok(v) => Success(v) case Failed(e) => Failure(Own(Protocol(e))))
  {
    hide EncodeCommand, ReadReply;
    ReadBack(stale, true, Encode(w.command.reply));
    MeaningKeeps(stale);
  }

  /** Redis.Get, seen from its result: a nil error is reported as a miss. */
  predicate GetMisses(result: DoResult) {
    result.Failure? && IsNilError(result.error)
  }

  /**
   * A miss, or a command error, stands for the caller's own reply exactly if the connection was up or the server
   * accepted every command of the handshake.
   */
  lemma ReportedErrorIsOwn(cfg: Config, link: Link, args: seq<Arg>, w: World)
    requires Usable(cfg) && Printable(args) && Behaves(w) && AllAligned(w) && Clean(link)
    requires DoStep(cfg, link, args, w).1.Failure?
    requires var e := DoStep(cfg, link, args, w).1.error; IsNilError(e) || IsCommandError(e)
    ensures var e := DoStep(cfg, link, args, w).1.error;
            && (e.Own? <==> link.Up? || Accepted(Steps(cfg, w)))
            && (e.Own? ==> Meaning(w.command.reply, true) == Failed(e.cause.error))
  {
    DoFaithful(cfg, link, args, w);
    ConnectsIff(cfg, w);
  }

  /** A server that answers PING with a null makes Get report a miss for a key that was never asked for. */
  lemma HandshakeNilReadsAsMiss(args: seq<Arg>, command: Exchange)
    requires Printable(args) && args != [] && WellFormed(command.reply)
    ensures var cfg := Config([], [], 0);
            var fine := Exchange(true, 100, Null, 100);
            var w := World(true, true, fine, fine, fine, command);
            Usable(cfg) && Behaves(w) && GetMisses(DoStep(cfg, Down, args, w).1)
  {
    var cfg := Config([], [], 0);
    var fine := Exchange(true, 100, Null, 100);
    var w := World(true, true, fine, fine, fine, command);
    assert Steps(cfg, w) == [(Ping, PING_ARGS, fine)];
    assert EncodeCommand(PING_ARGS) == EncodeUpTo(PING_ARGS, 0) + EncodeArg(PING_ARGS[0]);
    TalkClean(PING_ARGS, fine);
    assert Shake([], Steps(cfg, w)) == NotConnected(Handshake(Ping, Protocol(NilReply)));
  }
}
