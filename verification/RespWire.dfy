/**
 * Replies as a server writes them, and what the parser makes of every one of them: trees of any depth,
 * the three spellings of null, and error replies nested inside arrays.
 */
module RespWire {
  import opened Basics
  import opened Decimal
  import opened Resp

  datatype Reply =
    | SimpleString(text: Bytes)
    | SimpleError(message: Bytes)
    | Number(n: int64)
    | BulkString(data: Bytes)
    | NullBulk
    | NullArray
    | Null
    | Boolean(b: bool)
    | Array(items: seq<Reply>)

  /** Lines hold no line feed, and lengths are those of Go slices. */
  ghost predicate WellFormed(r: Reply) {
    match r
    case SimpleString(s) => LF !in s
    case SimpleError(s) => LF !in s
    case BulkString(b) => |b| + 2 <= MAX_INT64
    case Array(items) => |items| <= MAX_INT64 && forall i :: 0 <= i < |items| ==> WellFormed(items[i])
    case _ => true
  }

  // ---------- printing ----------

  function Header(prefix: byte, n: int64): Bytes {
    [prefix] + FormatInt(n) + CRLF
  }

  function Encode(r: Reply): Bytes
    requires WellFormed(r)
    decreases r, 0
  {
    match r
    case SimpleString(s) => [SIMPLE] + s + CRLF
    case SimpleError(s) => [ERROR] + s + CRLF
    case Number(n) => Header(INTEGER, n)
    case BulkString(b) => Header(BULK, |b|) + b + CRLF
    case NullBulk => Header(BULK, -1)
    case NullArray => Header(ARRAY, -1)
    case Null => [NULL] + CRLF
    case Boolean(b) => [BOOLEAN] + [if b then LETTER_T else LETTER_F] + CRLF
    case Array(items) => Header(ARRAY, |items|) + EncodeAll(items)
  }

  function EncodeAll(rs: seq<Reply>): Bytes
    requires forall i :: 0 <= i < |rs| ==> WellFormed(rs[i])
    decreases rs
  {
    if rs == [] then [] else Encode(rs[0]) + EncodeAll(rs[1..])
  }

  // ---------- meaning ----------

  predicate IsNull(r: Reply) {
    r.NullBulk? || r.NullArray? || r.Null?
  }

  predicate ErrorFree(r: Reply) {
    match r
    case SimpleError(_) => false
    case Array(items) => forall i :: 0 <= i < |items| ==> ErrorFree(items[i])
    case _ => true
  }

  /** The value tree of a reply without errors. */
  function Denote(r: Reply): Value
    requires ErrorFree(r)
    decreases r, 0
  {
    match r
    case SimpleString(s) => Text(s)
    case Number(n) => Integer(n)
    case BulkString(b) => Blob(b)
    case NullBulk | NullArray | Null => Nil
    case Boolean(b) => Bool(b)
    case Array(items) => List(DenoteAll(items))
  }

  function DenoteAll(rs: seq<Reply>): (values: seq<Value>)
    requires forall i :: 0 <= i < |rs| ==> ErrorFree(rs[i])
    ensures |values| == |rs| && forall i :: 0 <= i < |rs| ==> values[i] == Denote(rs[i])
    decreases rs
  {
    if rs == [] then [] else [Denote(rs[0])] + DenoteAll(rs[1..])
  }

  /** The first error reply met in reading order, if there is any. */
  function FirstError(r: Reply): Option<Bytes>
    ensures FirstError(r).None? <==> ErrorFree(r)
    decreases r, 0
  {
    match r
    case SimpleError(m) => Some(m)
    case Array(items) => FirstErrorAmong(items)
    case _ => None
  }

  function FirstErrorAmong(rs: seq<Reply>): Option<Bytes>
    ensures FirstErrorAmong(rs).None? <==> forall i :: 0 <= i < |rs| ==> ErrorFree(rs[i])
    decreases rs
  {
    if rs == [] then None
    else if FirstError(rs[0]).Some? then FirstError(rs[0])
    else FirstErrorAmong(rs[1..])
  }

  /** What the client reports for a reply. */
  function Meaning(r: Reply, nilAsError: bool): Outcome {
    if FirstError(r).Some? then Failed(Command(FirstError(r).value))
    else if IsNull(r) then NullOutcome(nilAsError)
    else Ok(Denote(r))
  }

  /** The part of a reply behind its first error: siblings of the error, and siblings of the arrays around it. */
  function Leftover(r: Reply): Bytes
    requires WellFormed(r)
    decreases r, 0
  {
    if r.Array? then LeftoverAmong(r.items) else []
  }

  function LeftoverAmong(rs: seq<Reply>): Bytes
    requires forall i :: 0 <= i < |rs| ==> WellFormed(rs[i])
    decreases rs
  {
    if rs == [] then []
    else if FirstError(rs[0]).Some? then Leftover(rs[0]) + EncodeAll(rs[1..])
    else LeftoverAmong(rs[1..])
  }

  /** No array has anything behind an element that holds an error. */
  predicate Aligned(r: Reply) {
    r.Array? ==> forall i :: 0 <= i < |r.items| ==> Aligned(r.items[i]) && (i < |r.items| - 1 ==> ErrorFree(r.items[i]))
  }

  // ---------- lines and headers ----------

  lemma {:induction false} LineEndAt(line: Bytes, rest: Bytes)
    requires LF !in line
    ensures LineEnd(line + [LF] + rest) == |line|
  {
    var input := line + [LF] + rest;
    if line != [] {
      LineEndAt(line[1..], rest);
      assert input[1..] == line[1..] + [LF] + rest;
    }
  }

  lemma ReadLineBack(prefix: byte, line: Bytes, rest: Bytes)
    requires LF !in line
    ensures ReadLine(([prefix] + line + CRLF + rest)[1..]) == Line(line, rest)
  {
    var input := ([prefix] + line + CRLF + rest)[1..];
    var withCR := line + [CR];
    assert input == withCR + [LF] + rest;
    LineEndAt(withCR, rest);
    assert input[..|withCR|] == withCR;
    assert withCR[..|line|] == line;
    assert input[|withCR| + 1..] == rest;
  }

  lemma ReadHeaderBack(prefix: byte, n: int64, rest: Bytes)
    ensures ReadLine((Header(prefix, n) + rest)[1..]) == Line(FormatInt(n), rest)
    ensures ParseInt(FormatInt(n)) == Parsed(n)
  {
    FormatIntBytes(n);
    ReadLineBack(prefix, FormatInt(n), rest);
    ParseFormat(n);
  }

  // ---------- the round trip ----------

  /** The prefixes that carry a bare line. */
  lemma ReadTextual(prefix: byte, line: Bytes, rest: Bytes, nilAsError: bool)
    requires LF !in line
    requires prefix in {SIMPLE, ERROR, NULL, BOOLEAN}
    ensures ReadReply([prefix] + line + CRLF + rest, nilAsError)
            == Read(if prefix == SIMPLE then Ok(Text(line))
                    else if prefix == ERROR then Failed(Command(line))
                    else if prefix == NULL then NullOutcome(nilAsError)
                    else Ok(Bool(line == [LETTER_T])), rest)
  {
    ReadLineBack(prefix, line, rest);
  }

  /** The prefixes that carry a number. */
  lemma ReadNumeric(prefix: byte, n: int64, rest: Bytes, nilAsError: bool)
    requires prefix in {INTEGER, BULK, ARRAY}
    ensures ReadReply(Header(prefix, n) + rest, nilAsError)
            == if prefix == INTEGER then Read(Ok(Integer(n)), rest)
               else if n < 0 then Read(NullOutcome(nilAsError), rest)
               else if prefix == BULK then ReadBlob(rest, n)
               else ReadItems(rest, n, [])
  {
    ReadHeaderBack(prefix, n, rest);
  }

  lemma ReadBulkBack(data: Bytes, nilAsError: bool, rest: Bytes)
    requires |data| + 2 <= MAX_INT64
    ensures ReadReply(Header(BULK, |data|) + data + CRLF + rest, nilAsError) == Read(Ok(Blob(data)), rest)
  {
    var body := data + CRLF + rest;
    ReadNumeric(BULK, |data|, body, nilAsError);
    assert Header(BULK, |data|) + data + CRLF + rest == Header(BULK, |data|) + body;
    assert body[..|data|] == data;
    assert body[|data| + 2..] == rest;
  }

  /**
   * The parser on any well-formed reply followed by any bytes: it reports the reply's meaning and leaves
   * the leftover of the reply in front of the bytes that followed.
   */
  lemma {:induction false} ReadBack(r: Reply, nilAsError: bool, rest: Bytes)
    requires WellFormed(r)
    ensures ReadReply(Encode(r) + rest, nilAsError) == Read(Meaning(r, nilAsError), Leftover(r) + rest)
    decreases r, 1
  {
    hide ReadReply, FormatInt;
    assert [] + rest == rest;
    match r
    case SimpleString(s) => ReadTextual(SIMPLE, s, rest, nilAsError);
    case SimpleError(s) => ReadTextual(ERROR, s, rest, nilAsError);
    case Number(n) => ReadNumeric(INTEGER, n, rest, nilAsError);
    case NullBulk => ReadNumeric(BULK, -1, rest, nilAsError);
    case NullArray => ReadNumeric(ARRAY, -1, rest, nilAsError);
    case Null =>
      ReadTextual(NULL, [], rest, nilAsError);
      assert [NULL] + [] == [NULL];
    case Boolean(b) => ReadTextual(BOOLEAN, [if b then LETTER_T else LETTER_F], rest, nilAsError);
    case BulkString(b) => ReadBulkBack(b, nilAsError, rest);
    case Array(items) => ReadArrayBack(r, nilAsError, rest);
  }

  lemma {:induction false} ReadArrayBack(r: Reply, nilAsError: bool, rest: Bytes)
    requires WellFormed(r) && r.Array?
    ensures ReadReply(Encode(r) + rest, nilAsError) == Read(Meaning(r, nilAsError), Leftover(r) + rest)
    decreases r, 0
  {
    hide ReadReply, FormatInt;
    var items := r.items;
    var tail := EncodeAll(items) + rest;
    assert Encode(r) + rest == Header(ARRAY, |items|) + tail;
    ReadNumeric(ARRAY, |items|, tail, nilAsError);
    ReadItemsBack(items, [], rest);
    if FirstErrorAmong(items).None? {
      assert [] + DenoteAll(items) == Denote(r).items;
    }
  }

  /** The array loop with the elements `rs` still to come. */
  lemma {:induction false} ReadItemsBack(rs: seq<Reply>, values: seq<Value>, rest: Bytes)
    requires forall i :: 0 <= i < |rs| ==> WellFormed(rs[i])
    ensures ReadItems(EncodeAll(rs) + rest, |rs|, values)
            == Read(match FirstErrorAmong(rs)
                    case Some(m) => Failed(Command(m))
                    case None => Ok(List(values + DenoteAll(rs))), LeftoverAmong(rs) + rest)
    decreases rs
  {
    if rs == [] {
      assert values + [] == values;
      assert [] + rest == rest;
    } else {
      var tail := EncodeAll(rs[1..]) + rest;
      Associative(Encode(rs[0]), EncodeAll(rs[1..]), rest);
      ReadBack(rs[0], false, tail);
      ItemsStep(Encode(rs[0]) + tail, |rs|, values, ReadReply(Encode(rs[0]) + tail, false));
      if ErrorFree(rs[0]) {
        NoLeftover(rs[0]);
        assert [] + tail == tail;
        var v := Denote(rs[0]);
        ReadItemsBack(rs[1..], values + [v], rest);
        if FirstErrorAmong(rs).None? {
          assert values + [v] + DenoteAll(rs[1..]) == values + ([v] + DenoteAll(rs[1..]));
        }
      } else {
        Associative(Leftover(rs[0]), EncodeAll(rs[1..]), rest);
      }
    }
  }

  /** One round of the array loop. */
  lemma ItemsStep(input: Bytes, count: nat, values: seq<Value>, item: Read)
    requires count > 0 && ReadReply(input, false) == item
    ensures ReadItems(input, count, values)
            == match item.outcome
               case Failed(_) => item
               case Ok(v) => ReadItems(item.rest, count - 1, values + [v])
  {
  }

  lemma Associative(a: Bytes, b: Bytes, c: Bytes)
    ensures (a + b) + c == a + (b + c)
  {
  }

  /** What the wire looks like, byte by byte: the first byte tells the kind, a line ends with 13 and 10. */
  lemma LiteralLines(line: Bytes, rest: Bytes, nilAsError: bool)
    requires 10 !in line
    ensures ReadReply([43] + line + [13, 10] + rest, nilAsError) == Read(Ok(Text(line)), rest)
    ensures ReadReply([45] + line + [13, 10] + rest, nilAsError) == Read(Failed(Command(line)), rest)
    ensures ReadReply([95] + line + [13, 10] + rest, nilAsError) == Read(if nilAsError then Failed(NilReply) else Ok(Nil), rest)
    ensures ReadReply([35] + line + [13, 10] + rest, nilAsError) == Read(Ok(Bool(line == [116])), rest)
    ensures ReadReply([58] + line + [13, 10] + rest, nilAsError)
         == match ParseInt(line)
            case Parsed(n) => Read(Ok(Integer(n)), rest)
            case Rejected(_, _) => Read(Failed(BadNumber), rest)
  {
    hide ParseInt, ReadReply;
    ReadTextual(43, line, rest, nilAsError);
    ReadTextual(45, line, rest, nilAsError);
    ReadTextual(95, line, rest, nilAsError);
    ReadTextual(35, line, rest, nilAsError);
    LiteralNumber(line, rest, nilAsError);
  }

  lemma LiteralNumber(line: Bytes, rest: Bytes, nilAsError: bool)
    requires 10 !in line
    ensures ReadReply([58] + line + [13, 10] + rest, nilAsError)
         == match ParseInt(line)
            case Parsed(n) => Read(Ok(Integer(n)), rest)
            case Rejected(_, _) => Read(Failed(BadNumber), rest)
  {
    hide ParseInt;
    ReadLineBack(58, line, rest);
  }

  /** A bulk string is its length, its bytes, and any two more; an array its length and its elements. */
  lemma LiteralLengths(line: Bytes, rest: Bytes, nilAsError: bool)
    requires 10 !in line
    ensures ReadReply([36] + line + [13, 10] + rest, nilAsError)
         == match ParseInt(line)
            case Parsed(n) =>
              if n < 0 then Read(if nilAsError then Failed(NilReply) else Ok(Nil), rest)
              else if n > 0x7fff_ffff_ffff_fffd then Read(Failed(Oversized), rest)
              else if n > |rest| - 2 then Read(Failed(EndOfStream), [])
              else Read(Ok(Blob(rest[..n])), rest[n + 2..])
            case Rejected(_, _) => Read(Failed(BadNumber), rest)
    ensures ReadReply([42] + line + [13, 10] + rest, nilAsError)
         == match ParseInt(line)
            case Parsed(n) =>
              if n < 0 then Read(if nilAsError then Failed(NilReply) else Ok(Nil), rest) else ReadItems(rest, n, [])
            case Rejected(_, _) => Read(Failed(BadNumber), rest)
  {
    hide ParseInt, ReadItems;
    ReadLineBack(36, line, rest);
    ReadLineBack(42, line, rest);
  }

  /** Any other first byte is refused, and only that byte is consumed. */
  lemma LiteralRefused(first: byte, rest: Bytes, nilAsError: bool)
    requires first !in {43, 45, 58, 36, 42, 95, 35}
    ensures ReadReply([first] + rest, nilAsError) == Read(Failed(BadPrefix), rest)
  {
    assert ([first] + rest)[1..] == rest;
  }

  // ---------- alignment ----------

  lemma {:induction false} NoLeftover(r: Reply)
    requires WellFormed(r) && ErrorFree(r)
    ensures Leftover(r) == []
  {
    if r.Array? {
      NoLeftoverAmong(r.items);
    }
  }

  lemma {:induction false} NoLeftoverAmong(rs: seq<Reply>)
    requires forall i :: 0 <= i < |rs| ==> WellFormed(rs[i]) && ErrorFree(rs[i])
    ensures LeftoverAmong(rs) == []
  {
    if rs != [] {
      NoLeftoverAmong(rs[1..]);
    }
  }

  lemma EncodeNonEmpty(r: Reply)
    requires WellFormed(r)
    ensures Encode(r) != []
  {
  }

  /** The stream is left at a reply boundary exactly when nothing follows an error inside an array. */
  lemma {:induction false} AlignedIff(r: Reply)
    requires WellFormed(r)
    ensures Leftover(r) == [] <==> Aligned(r)
    decreases r, 1
  {
    if r.Array? {
      AlignedAmongIff(r.items, 0);
      assert r.items[0..] == r.items;
    }
  }

  lemma {:induction false} AlignedAmongIff(items: seq<Reply>, from: nat)
    requires from <= |items|
    requires forall i :: 0 <= i < |items| ==> WellFormed(items[i])
    ensures LeftoverAmong(items[from..]) == []
       <==> forall i :: from <= i < |items| ==> Aligned(items[i]) && (i < |items| - 1 ==> ErrorFree(items[i]))
    decreases items, |items| - from
  {
    if from < |items| {
      assert items[from..][1..] == items[from + 1..];
      AlignedIff(items[from]);
      AlignedAmongIff(items, from + 1);
      if ErrorFree(items[from]) {
        NoLeftover(items[from]);
      } else if from + 1 < |items| {
        EncodeNonEmpty(items[from + 1]);
        assert EncodeAll(items[from + 1..]) != [];
      }
    }
  }

  // ---------- main results ----------

  /** Every error-free tree comes back whole, nested nulls included, and exactly the following bytes are left. */
  lemma RoundTrip(r: Reply, rest: Bytes)
    requires WellFormed(r) && ErrorFree(r)
    ensures ReadReply(Encode(r) + rest, false) == Read(Ok(Denote(r)), rest)
    ensures ReadReply(Encode(r) + rest, true) == Read(if IsNull(r) then Failed(NilReply) else Ok(Denote(r)), rest)
  {
    ReadBack(r, false, rest);
    ReadBack(r, true, rest);
    NoLeftover(r);
    assert [] + rest == rest;
  }

  /** A reply that is cut off before its last byte is always noticed. */
  lemma TruncationNoticed(r: Reply, nilAsError: bool, cut: nat)
    requires WellFormed(r) && Aligned(r) && cut <= |Encode(r)|
    ensures ReadReply(Encode(r)[..cut], nilAsError).outcome == Failed(EndOfStream) <==> cut < |Encode(r)|
  {
    ReadBack(r, nilAsError, []);
    AlignedIff(r);
    assert Encode(r) + [] == Encode(r);
    assert Leftover(r) + [] == [];
    CutShort(Encode(r), nilAsError, cut);
  }

  lemma CutShort(whole: Bytes, nilAsError: bool, cut: nat)
    requires cut <= |whole|
    requires ReadReply(whole, nilAsError).rest == [] && ReadReply(whole, nilAsError).outcome != Failed(EndOfStream)
    ensures ReadReply(whole[..cut], nilAsError).outcome == Failed(EndOfStream) <==> cut < |whole|
  {
    var start, more := whole[..cut], whole[cut..];
    assert start + more == whole;
    assert cut == |whole| ==> start == whole;
    if ReadReply(start, nilAsError).outcome != Failed(EndOfStream) {
      ReadReplyExtended(start, nilAsError, more);
    }
  }

  /**
   * However much of a well-formed reply arrives, the parser reports its meaning or the end of the stream: never a bad
   * number or prefix, and never a length that make() refuses.
   */
  lemma CutReads(r: Reply, nilAsError: bool, cut: nat)
    requires WellFormed(r) && cut <= |Encode(r)|
    ensures ReadReply(Encode(r)[..cut], nilAsError).outcome in {Failed(EndOfStream), Meaning(r, nilAsError)}
  {
    var start, more := Encode(r)[..cut], Encode(r)[cut..];
    ReadBack(r, nilAsError, []);
    assert Encode(r) + [] == Encode(r) && start + more == Encode(r);
    if ReadReply(start, nilAsError).outcome != Failed(EndOfStream) {
      ReadReplyExtended(start, nilAsError, more);
    }
  }

  /** An array that holds an error before another element leaves that element on the stream as if it were a reply. */
  lemma NestedErrorMisaligns()
    ensures var r := Array([SimpleError([]), Number(7)]);
            WellFormed(r) && !Aligned(r)
            && ReadReply(Encode(r), true) == Read(Failed(Command([])), Encode(Number(7)))
  {
    var r := Array([SimpleError([]), Number(7)]);
    assert !ErrorFree(r.items[0]);
    ReadBack(r, true, []);
    assert Encode(r) + [] == Encode(r);
    assert r.items[1..] == [Number(7)];
    assert EncodeAll([Number(7)]) == Encode(Number(7)) + EncodeAll([Number(7)][1..]);
    assert EncodeAll([Number(7)]) == Encode(Number(7));
    assert Leftover(r) == Leftover(r.items[0]) + EncodeAll(r.items[1..]);
    assert Leftover(r) + [] == Encode(Number(7));
  }
}
