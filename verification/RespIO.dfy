/**
 * The parser and the printer as the client runs them: the reply reader consumes a buffered reader byte
 * by byte, the command writer sends one fragment after another over a connection that may fail.
 */
module RespIO {
  import opened Basics
  import opened Decimal
  import opened Resp
  import opened RespWire

  // ---------- reading ----------

  /** A buffered reader: `unread` are all the bytes that will arrive before the transport fails. */
  class ByteReader {
    var unread: Bytes

    constructor ()
      ensures unread == []
    {
      unread := [];
    }

    method ReadByte() returns (b: Option<byte>)
      modifies this
      ensures old(unread) == [] ==> b == None && unread == []
      ensures old(unread) != [] ==> b == Some(old(unread)[0]) && unread == old(unread)[1..]
    {
      if unread == [] {
        return None;
      }
      b := Some(unread[0]);
      unread := unread[1..];
    }

    /** ReadString('\n') followed by the trimming of one "\n" and one "\r". */
    method ReadLineText() returns (text: Option<Bytes>)
      modifies this
      ensures match ReadLine(old(unread))
              case Unfinished => text == None && unread == []
              case Line(t, rest) => text == Some(t) && unread == rest
    {
      var e := 0;
      var start := unread;
      while e < |unread| && unread[e] != LF
        invariant e <= |unread| && unread == start
        invariant LF !in unread[..e]
      {
        e := e + 1;
      }
      LineEndIs(unread, e);
      if e == |unread| {
        text := None;
        unread := [];
      } else {
        text := Some(TrimCR(unread[..e]));
        unread := unread[e + 1..];
      }
    }

    /** io.ReadFull. */
    method ReadFull(n: nat) returns (data: Option<Bytes>)
      modifies this
      ensures n <= |old(unread)| ==> data == Some(old(unread)[..n]) && unread == old(unread)[n..]
      ensures n > |old(unread)| ==> data == None && unread == []
    {
      if n > |unread| {
        data := None;
        unread := [];
      } else {
        data := Some(unread[..n]);
        unread := unread[n..];
      }
    }
  }

  /** LineEnd is the only index with no line feed before it that stops at a line feed or at the end. */
  lemma {:induction false} LineEndIs(input: Bytes, e: nat)
    requires e <= |input| && LF !in input[..e]
    requires e < |input| ==> input[e] == LF
    ensures LineEnd(input) == e
  {
    if e != 0 {
      assert input[0] == input[..e][0];
      assert forall b :: b in input[1..][..e - 1] ==> b in input[..e];
      LineEndIs(input[1..], e - 1);
    }
  }

  /** readRedisReply: one reply, or as much of one as could be read. */
  method ReadReplyFrom(reader: ByteReader, nilAsError: bool) returns (outcome: Outcome)
    modifies reader
    ensures Read(outcome, reader.unread) == ReadReply(old(reader.unread), nilAsError)
    decreases |reader.unread|, 0
  {
    var prefix := reader.ReadByte();
    if prefix == None {
      return Failed(EndOfStream);
    }
    if prefix.value !in {SIMPLE, ERROR, INTEGER, BULK, ARRAY, NULL, BOOLEAN} {
      return Failed(BadPrefix);
    }
    var line := reader.ReadLineText();
    if line == None {
      return Failed(EndOfStream);
    }
    if prefix.value == SIMPLE {
      return Ok(Text(line.value));
    } else if prefix.value == ERROR {
      return Failed(Command(line.value));
    } else if prefix.value == NULL {
      return NullOutcome(nilAsError);
    } else if prefix.value == BOOLEAN {
      return Ok(Bool(line.value == [LETTER_T]));
    }
    var parsed := ParseInt(line.value);
    if parsed.Rejected? {
      return Failed(BadNumber);
    }
    if prefix.value == INTEGER {
      return Ok(Integer(parsed.value));
    }
    var length: int := parsed.value;
    if length < 0 {
      return NullOutcome(nilAsError);
    }
    if prefix.value == BULK {
      outcome := ReadBlobFrom(reader, length);
    } else {
      outcome := ReadItemsFrom(reader, length);
    }
  }

  /** The payload of a bulk string, with the two bytes behind it. */
  method ReadBlobFrom(reader: ByteReader, length: nat) returns (outcome: Outcome)
    modifies reader
    ensures Read(outcome, reader.unread) == ReadBlob(old(reader.unread), length)
  {
    if length + 2 > MAX_INT64 {
      return Failed(Oversized);
    }
    var buf := reader.ReadFull(length + 2);
    if buf == None {
      return Failed(EndOfStream);
    }
    assert buf.value[..length] == old(reader.unread)[..length];
    outcome := Ok(Blob(buf.value[..length]));
  }

  /** The elements of an array, each read by a recursive call. */
  method ReadItemsFrom(reader: ByteReader, length: nat) returns (outcome: Outcome)
    modifies reader
    ensures Read(outcome, reader.unread) == ReadItems(old(reader.unread), length, [])
    decreases |reader.unread|, 1
  {
    var values: seq<Value> := [];
    while |values| < length
      invariant |values| <= length && |reader.unread| <= |old(reader.unread)|
      invariant ReadItems(reader.unread, length - |values|, values) == ReadItems(old(reader.unread), length, [])
    {
      var item := ReadReplyFrom(reader, false);
      if item.Failed? {
        return item;
      }
      values := values + [item.value];
    }
    outcome := Ok(List(values));
  }

  // ---------- command arguments ----------

  /** The argument types the client prints itself; `Rendered` is the output of fmt.Sprint for any other type. */
  datatype Arg =
    | NilArg
    | BytesArg(data: Bytes)
    | StringArg(text: Bytes)
    | IntArg(n: int64)
    | UintArg(u: nat)
    | Rendered(output: Bytes)

  function ArgBytes(arg: Arg): Bytes {
    match arg
    case NilArg => []
    case BytesArg(data) => data
    case StringArg(text) => text
    case IntArg(n) => FormatInt(n)
    case UintArg(u) => FormatNat(u)
    case Rendered(output) => output
  }

  predicate Printable(args: seq<Arg>) {
    |args| <= MAX_INT64 && forall i :: 0 <= i < |args| ==> |ArgBytes(args[i])| + 2 <= MAX_INT64
  }

  /** A command is an array of bulk strings. */
  function AsReply(args: seq<Arg>): (r: Reply)
    requires Printable(args)
    ensures WellFormed(r) && ErrorFree(r)
  {
    Array(seq(|args|, i requires 0 <= i < |args| => BulkString(ArgBytes(args[i]))))
  }

  function EncodeCommand(args: seq<Arg>): Bytes
    requires Printable(args)
  {
    EncodeUpTo(args, |args|)
  }

  /** The header of a command and its first `i` arguments. */
  function EncodeUpTo(args: seq<Arg>, i: nat): Bytes
    requires Printable(args) && i <= |args|
  {
    if i == 0 then Header(ARRAY, |args|) else EncodeUpTo(args, i - 1) + EncodeArg(args[i - 1])
  }

  function EncodeArg(arg: Arg): Bytes
    requires |ArgBytes(arg)| + 2 <= MAX_INT64
  {
    Header(BULK, |ArgBytes(arg)|) + ArgBytes(arg) + CRLF
  }

  // ---------- writing ----------

  /** An outgoing connection that carries `budget` more bytes before a write fails. */
  class Wire {
    var sent: Bytes
    var budget: nat

    constructor ()
      ensures sent == []
    {
      sent := [];
      budget := 0;
    }

    method Write(data: Bytes) returns (ok: bool)
      modifies this
      ensures ok <==> |data| <= old(budget)
      ensures sent == old(sent) + Prefix(data, old(budget))
      ensures ok ==> budget == old(budget) - |data|
    {
      ok := |data| <= budget;
      sent := sent + Prefix(data, budget);
      budget := if ok then budget - |data| else 0;
    }
  }

  function Prefix(s: Bytes, n: nat): Bytes {
    if n < |s| then s[..n] else s
  }

  /** writeRedisCommand: the encoding goes out whole, or its first `budget` bytes do and the call fails. */
  method WriteCommand(wire: Wire, args: seq<Arg>) returns (ok: bool)
    requires Printable(args)
    modifies wire
    ensures ok <==> |EncodeCommand(args)| <= old(wire.budget)
    ensures wire.sent == old(wire.sent) + Prefix(EncodeCommand(args), old(wire.budget))
  {
    hide EncodeUpTo, EncodeArg, Prefix, Header;
    ghost var start, budget := wire.sent, wire.budget;
    HeaderSent(args, budget);
    ok := wire.Write(Header(ARRAY, |args|));
    if !ok {
      return;
    }
    for i := 0 to |args|
      invariant budget == wire.budget + |EncodeUpTo(args, i)|
      invariant wire.sent == start + EncodeUpTo(args, i)
    {
      ArgSent(args, i, start, budget);
      ok := WriteArg(wire, args[i]);
      if !ok {
        return;
      }
    }
    AllSent(EncodeCommand(args), budget);
  }

  lemma AllSent(whole: Bytes, budget: nat)
    ensures budget >= |whole| ==> Prefix(whole, budget) == whole
  {
  }

  /** The body of the argument loop: header, data and line break in three writes. */
  method WriteArg(wire: Wire, arg: Arg) returns (ok: bool)
    requires |ArgBytes(arg)| + 2 <= MAX_INT64
    modifies wire
    ensures ok <==> |EncodeArg(arg)| <= old(wire.budget)
    ensures wire.sent == old(wire.sent) + Prefix(EncodeArg(arg), old(wire.budget))
    ensures ok ==> wire.budget == old(wire.budget) - |EncodeArg(arg)|
  {
    hide Header, FormatInt, ArgBytes;
    ghost var start := wire.sent;
    var data := ArgBytes(arg);
    var head := Header(BULK, |data|);
    assert EncodeArg(arg) == head + data + CRLF;
    ok := wire.Write(head);
    if !ok {
      return;
    }
    ok := wire.Write(data);
    assert start + head + data == start + (head + data);
    if !ok {
      return;
    }
    ok := wire.Write(CRLF);
  }

  lemma {:induction false} UpToIsPrefix(args: seq<Arg>, i: nat)
    requires Printable(args) && i <= |args|
    ensures EncodeUpTo(args, i) <= EncodeCommand(args)
    decreases |args| - i
  {
    if i < |args| {
      UpToIsPrefix(args, i + 1);
      ShorterPrefix(EncodeUpTo(args, i), EncodeArg(args[i]), EncodeCommand(args));
    }
  }

  lemma ShorterPrefix(a: Bytes, b: Bytes, whole: Bytes)
    requires a + b <= whole
    ensures a <= whole
  {
  }

  /** What the first write sends of the header, it sends of the command. */
  lemma HeaderSent(args: seq<Arg>, budget: nat)
    requires Printable(args)
    ensures var header, whole := Header(ARRAY, |args|), EncodeCommand(args);
            header == EncodeUpTo(args, 0) &&
            if budget < |header| then budget < |whole| && Prefix(header, budget) == Prefix(whole, budget)
            else Prefix(header, budget) == header
  {
    UpToIsPrefix(args, 0);
  }

  /** With everything before argument `i` sent, the budget runs out inside that argument, or all of it goes out. */
  lemma ArgSent(args: seq<Arg>, i: nat, start: Bytes, budget: nat)
    requires Printable(args) && i < |args| && |EncodeUpTo(args, i)| <= budget
    ensures var done, whole := EncodeUpTo(args, i), EncodeCommand(args);
            var sent := start + done + Prefix(EncodeArg(args[i]), budget - |done|);
            if budget < |EncodeUpTo(args, i + 1)| then budget < |whole| && sent == start + Prefix(whole, budget)
            else sent == start + EncodeUpTo(args, i + 1)
    ensures |EncodeUpTo(args, i + 1)| == |EncodeUpTo(args, i)| + |EncodeArg(args[i])|
  {
    hide Header, EncodeArg;
    var done, next, both := EncodeUpTo(args, i), EncodeArg(args[i]), EncodeUpTo(args, i + 1);
    UpToIsPrefix(args, i + 1);
    assert both == done + next;
    SentSoFar(start, EncodeCommand(args), done, next, both, budget);
  }

  lemma SentSoFar(start: Bytes, whole: Bytes, done: Bytes, next: Bytes, both: Bytes, budget: nat)
    requires both == done + next && both <= whole && |done| <= budget
    ensures var sent := start + done + Prefix(next, budget - |done|);
            if budget < |both| then budget < |whole| && sent == start + Prefix(whole, budget) else sent == start + both
  {
  }

  // ---------- the command round trip ----------

  lemma {:induction false} EncodeAllAppend(rs: seq<Reply>, last: Reply)
    requires forall i :: 0 <= i < |rs| ==> WellFormed(rs[i])
    requires WellFormed(last)
    ensures EncodeAll(rs + [last]) == EncodeAll(rs) + Encode(last)
  {
    hide Encode;
    if rs == [] {
      assert [last][1..] == [];
      assert rs + [last] == [last];
    } else {
      EncodeAllAppend(rs[1..], last);
      assert (rs + [last])[1..] == rs[1..] + [last];
    }
  }

  /** A command is printed as the array of bulk strings that it is. */
  lemma {:induction false} CommandIsReply(args: seq<Arg>, i: nat)
    requires Printable(args) && i <= |args|
    ensures EncodeUpTo(args, i) == Header(ARRAY, |args|) + EncodeAll(AsReply(args).items[..i])
  {
    var items := AsReply(args).items;
    var head := Header(ARRAY, |args|);
    if i == 0 {
      assert head + [] == head;
    } else {
      CommandIsReply(args, i - 1);
      EncodeAllAppend(items[..i - 1], items[i - 1]);
      assert items[..i] == items[..i - 1] + [items[i - 1]];
      assert Encode(items[i - 1]) == EncodeArg(args[i - 1]);
      Associative(head, EncodeAll(items[..i - 1]), EncodeArg(args[i - 1]));
    }
  }

  /** Successive replies until the stream is empty or a read fails. */
  function ReadStream(input: Bytes): seq<Outcome>
    decreases |input|
  {
    if input == [] then []
    else
      var r := ReadReply(input, false);
      if r.outcome.Failed? then [r.outcome] else [r.outcome] + ReadStream(r.rest)
  }

  function EncodeCommands(commands: seq<seq<Arg>>): Bytes
    requires forall i :: 0 <= i < |commands| ==> Printable(commands[i])
  {
    if commands == [] then [] else EncodeCommand(commands[0]) + EncodeCommands(commands[1..])
  }

  /** What a server is to receive for an argument. */
  predicate Receives(v: Value, arg: Arg) {
    && v.Blob?
    && match arg
       case NilArg => v.data == []
       case BytesArg(data) => v.data == data
       case StringArg(text) => v.data == text
       case IntArg(n) => ParseInt(v.data) == Parsed(n)
       case UintArg(u) => AllDigits(v.data) && ValueOf(v.data) == u
       case Rendered(output) => v.data == output
  }

  /** A list with one element for every argument. */
  predicate ReceivesAll(outcome: Outcome, args: seq<Arg>) {
    && outcome.Ok? && outcome.value.List? && |outcome.value.items| == |args|
    && forall i :: 0 <= i < |args| ==> Receives(outcome.value.items[i], args[i])
  }

  lemma ArgReceived(arg: Arg)
    ensures Receives(Blob(ArgBytes(arg)), arg)
  {
    match arg
    case IntArg(n) => ParseFormat(n);
    case UintArg(u) => FormatNatValue(u);
    case _ =>
  }

  /** The value a server reads for a command: a list of its arguments' bytes. */
  function CommandValue(args: seq<Arg>): Value {
    List(seq(|args|, i requires 0 <= i < |args| => Blob(ArgBytes(args[i]))))
  }

  lemma CommandReceived(args: seq<Arg>)
    ensures ReceivesAll(Ok(CommandValue(args)), args)
  {
    forall i | 0 <= i < |args|
      ensures Receives(CommandValue(args).items[i], args[i])
    {
      ArgReceived(args[i]);
    }
  }

  /** A command is read back as the list of its arguments, as the caller passed them, and what follows is left. */
  lemma CommandBack(args: seq<Arg>, rest: Bytes)
    requires Printable(args)
    ensures ReadReply(EncodeCommand(args) + rest, false) == Read(Ok(CommandValue(args)), rest)
    ensures ReceivesAll(ReadReply(EncodeCommand(args) + rest, false).outcome, args)
  {
    var items := AsReply(args).items;
    CommandIsReply(args, |args|);
    assert items[..|args|] == items;
    RoundTrip(AsReply(args), rest);
    assert Denote(AsReply(args)).items == CommandValue(args).items;
    CommandReceived(args);
  }

  lemma StreamStep(input: Bytes, v: Value, rest: Bytes)
    requires ReadReply(input, false) == Read(Ok(v), rest)
    ensures ReadStream(input) == [Ok(v)] + ReadStream(rest)
  {
  }

  /** Any number of commands written back to back are read back as the same argument lists, and nothing else. */
  lemma {:induction false} CommandsRoundTrip(commands: seq<seq<Arg>>)
    requires forall i :: 0 <= i < |commands| ==> Printable(commands[i])
    ensures var read := ReadStream(EncodeCommands(commands));
            |read| == |commands| && forall i :: 0 <= i < |commands| ==> ReceivesAll(read[i], commands[i])
  {
    hide EncodeCommand, ReceivesAll;
    if commands != [] {
      var rest := EncodeCommands(commands[1..]);
      CommandBack(commands[0], rest);
      CommandsRoundTrip(commands[1..]);
      StreamStep(EncodeCommand(commands[0]) + rest, CommandValue(commands[0]), rest);
    }
  }

  /** redisInt64, which drops the error of ParseInt and keeps its value. */
  function RedisInt64(v: Value): int64 {
    match v
    case Integer(n) => n
    case Text(s) => (match ParseInt(s) case Parsed(n) => n case Rejected(_, c) => c)
    case Blob(s) => (match ParseInt(s) case Parsed(n) => n case Rejected(_, c) => c)
    case _ => 0
  }

  /** An integer argument survives being printed, echoed as a bulk or simple string, and converted back. */
  lemma RedisInt64Inverts(n: int64)
    ensures RedisInt64(Blob(ArgBytes(IntArg(n)))) == n
    ensures RedisInt64(Text(ArgBytes(IntArg(n)))) == n
    ensures RedisInt64(Integer(n)) == n
  {
    ParseFormat(n);
  }
}
