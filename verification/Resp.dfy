/**
 * The Redis serialization protocol as the client reads it: replies on the wire, the values the client
 * makes of them, and the recursive reply parser as a function from unread bytes to an outcome and the
 * bytes still unread.
 */
module Resp {
  import opened Basics
  import opened Decimal

  const CR: byte := 13
  const LF: byte := 10
  const CRLF: Bytes := [CR, LF]

  const SIMPLE: byte := 43   // +
  const ERROR: byte := 45    // -
  const INTEGER: byte := 58  // :
  const BULK: byte := 36     // $
  const ARRAY: byte := 42    // *
  const NULL: byte := 95     // _
  const BOOLEAN: byte := 35  // #
  const LETTER_T: byte := 116
  const LETTER_F: byte := 102

  /** What a Go caller receives as `any`. */
  datatype Value =
    | Nil
    | Text(text: Bytes)
    | Integer(n: int64)
    | Blob(data: Bytes)
    | List(items: seq<Value>)
    | Bool(b: bool)

  /** `EndOfStream` is any error of the underlying reader; `Oversized` is make() given a length that wrapped. */
  datatype ReplyError =
    | EndOfStream
    | BadNumber
    | BadPrefix
    | Oversized
    | NilReply
    | Command(message: Bytes)

  datatype Outcome = Ok(value: Value) | Failed(error: ReplyError)

  /** An outcome together with the bytes of the stream that were not consumed. */
  datatype Read = Read(outcome: Outcome, rest: Bytes)

  // ---------- lines ----------

  /** The index of the first line feed, or the length of the input if there is none. */
  function LineEnd(input: Bytes): (e: nat)
    ensures e <= |input|
    ensures LF !in input[..e]
    ensures e < |input| ==> input[e] == LF
  {
    if input == [] || input[0] == LF then 0
    else
      var e := LineEnd(input[1..]);
      assert input[..e + 1] == [input[0]] + input[1..][..e];
      e + 1
  }

  function TrimCR(line: Bytes): Bytes {
    if line != [] && line[|line| - 1] == CR then line[..|line| - 1] else line
  }

  datatype Line = Line(text: Bytes, rest: Bytes) | Unfinished

  function ReadLine(input: Bytes): (r: Line)
    ensures r.Line? ==> |r.rest| < |input|
  {
    var e := LineEnd(input);
    if e == |input| then Unfinished else Line(TrimCR(input[..e]), input[e + 1..])
  }

  // ---------- the parser ----------

  function NullOutcome(nilAsError: bool): Outcome {
    if nilAsError then Failed(NilReply) else Ok(Nil)
  }

  function ReadReply(input: Bytes, nilAsError: bool): (r: Read)
    ensures |r.rest| <= |input|
    ensures r.outcome.Ok? ==> |r.rest| + 2 <= |input|
    decreases |input|, 0
  {
    if input == [] then Read(Failed(EndOfStream), [])
    else
      var prefix := input[0];
      if prefix !in {SIMPLE, ERROR, INTEGER, BULK, ARRAY, NULL, BOOLEAN} then Read(Failed(BadPrefix), input[1..])
      else match ReadLine(input[1..])
           case Unfinished => Read(Failed(EndOfStream), [])
           case Line(line, rest) => AfterLine(prefix, line, rest, nilAsError)
  }

  /** The reply that starts with this prefix and line. */
  function AfterLine(prefix: byte, line: Bytes, rest: Bytes, nilAsError: bool): (r: Read)
    ensures |r.rest| <= |rest|
    decreases |rest|, MAX_INT64 + 2
  {
    if prefix == SIMPLE then Read(Ok(Text(line)), rest)
    else if prefix == ERROR then Read(Failed(Command(line)), rest)
    else if prefix == NULL then Read(NullOutcome(nilAsError), rest)
    else if prefix == BOOLEAN then Read(Ok(Bool(line == [LETTER_T])), rest)
    else match ParseInt(line)
         case Rejected(_, _) => Read(Failed(BadNumber), rest)
         case Parsed(n) =>
           if prefix == INTEGER then Read(Ok(Integer(n)), rest)
           else if n < 0 then Read(NullOutcome(nilAsError), rest)
           else if prefix == BULK then ReadBlob(rest, n)
           else ReadItems(rest, n, [])
  }

  /** The payload of a bulk string: length bytes and two more, whatever these two are. */
  function ReadBlob(input: Bytes, length: nat): (r: Read)
    ensures |r.rest| <= |input|
  {
    if length + 2 > MAX_INT64 then Read(Failed(Oversized), input)
    else if |input| < length + 2 then Read(Failed(EndOfStream), [])
    else Read(Ok(Blob(input[..length])), input[length + 2..])
  }

  /** The array loop with `count` elements still to read; nested nulls are values, nested errors end the loop. */
  function ReadItems(input: Bytes, count: nat, items: seq<Value>): (r: Read)
    ensures |r.rest| <= |input|
    decreases |input|, count + 1
  {
    if count == 0 then Read(Ok(List(items)), input)
    else
      var item := ReadReply(input, false);
      match item.outcome
      case Failed(_) => item
      case Ok(v) => ReadItems(item.rest, count - 1, items + [v])
  }

  // ---------- progress and prefix determinism ----------

  predicate IsSuffix(tail: Bytes, input: Bytes) {
    |tail| <= |input| && input[|input| - |tail|..] == tail
  }

  lemma SuffixOfSuffix(a: Bytes, b: Bytes, c: Bytes)
    requires IsSuffix(a, b) && IsSuffix(b, c)
    ensures IsSuffix(a, c)
  {
    assert c[|c| - |a|..] == c[|c| - |b|..][|b| - |a|..];
  }

  lemma LineRest(input: Bytes)
    requires input != [] && ReadLine(input[1..]).Line?
    ensures IsSuffix(ReadLine(input[1..]).rest, input)
  {
  }

  /** Consumption is from the front: what is left over is a suffix of the input. */
  lemma {:induction false} RestIsSuffix(input: Bytes, nilAsError: bool)
    ensures IsSuffix(ReadReply(input, nilAsError).rest, input)
    decreases |input|, 0
  {
    if input != [] && ReadLine(input[1..]).Line? {
      var Line(line, rest) := ReadLine(input[1..]);
      LineRest(input);
      RestAfterLine(input[0], line, rest, nilAsError);
      SuffixOfSuffix(AfterLine(input[0], line, rest, nilAsError).rest, rest, input);
    }
  }

  lemma {:induction false} RestAfterLine(prefix: byte, line: Bytes, rest: Bytes, nilAsError: bool)
    ensures IsSuffix(AfterLine(prefix, line, rest, nilAsError).rest, rest)
    decreases |rest|, MAX_INT64 + 2
  {
    if prefix !in {SIMPLE, ERROR, INTEGER, BULK, NULL, BOOLEAN} && ParseInt(line).Parsed? && ParseInt(line).value >= 0 {
      RestOfItems(rest, ParseInt(line).value, []);
    }
  }

  lemma {:induction false} RestOfItems(input: Bytes, count: nat, items: seq<Value>)
    ensures IsSuffix(ReadItems(input, count, items).rest, input)
    decreases |input|, count + 1
  {
    if count > 0 {
      RestIsSuffix(input, false);
      var item := ReadReply(input, false);
      if item.outcome.Ok? {
        RestOfItems(item.rest, count - 1, items + [item.outcome.value]);
        SuffixOfSuffix(ReadItems(input, count, items).rest, item.rest, input);
      }
    }
  }

  lemma {:induction false} LineEndExtended(input: Bytes, more: Bytes)
    requires LineEnd(input) < |input|
    ensures LineEnd(input + more) == LineEnd(input)
  {
    if input[0] != LF {
      LineEndExtended(input[1..], more);
      assert (input + more)[1..] == input[1..] + more;
    }
  }

  lemma ReadLineExtended(input: Bytes, more: Bytes)
    requires ReadLine(input).Line?
    ensures ReadLine(input + more) == Line(ReadLine(input).text, ReadLine(input).rest + more)
  {
    LineEndExtended(input, more);
    var e := LineEnd(input);
    assert (input + more)[..e] == input[..e];
    assert (input + more)[e + 1..] == input[e + 1..] + more;
  }

  /**
   * Prefix determinism: unless the parser ran out of bytes, its outcome and its consumption do not depend
   * on the bytes that follow, whether the outcome is a value or an error.
   */
  lemma {:induction false} ReadReplyExtended(input: Bytes, nilAsError: bool, more: Bytes)
    requires ReadReply(input, nilAsError).outcome != Failed(EndOfStream)
    ensures ReadReply(input + more, nilAsError)
            == Read(ReadReply(input, nilAsError).outcome, ReadReply(input, nilAsError).rest + more)
    decreases |input|, 0
  {
    assert (input + more)[1..] == input[1..] + more;
    if input[0] in {SIMPLE, ERROR, INTEGER, BULK, ARRAY, NULL, BOOLEAN} {
      ReadLineExtended(input[1..], more);
      var Line(line, rest) := ReadLine(input[1..]);
      AfterLineExtended(input[0], line, rest, nilAsError, more);
    }
  }

  lemma {:induction false} AfterLineExtended(prefix: byte, line: Bytes, rest: Bytes, nilAsError: bool, more: Bytes)
    requires AfterLine(prefix, line, rest, nilAsError).outcome != Failed(EndOfStream)
    ensures AfterLine(prefix, line, rest + more, nilAsError)
            == Read(AfterLine(prefix, line, rest, nilAsError).outcome, AfterLine(prefix, line, rest, nilAsError).rest + more)
    decreases |rest|, MAX_INT64 + 2
  {
    if prefix !in {SIMPLE, ERROR, INTEGER, NULL, BOOLEAN} && ParseInt(line).Parsed? && ParseInt(line).value >= 0 {
      if prefix == BULK {
        ReadBlobExtended(rest, ParseInt(line).value, more);
      } else {
        ReadItemsExtended(rest, ParseInt(line).value, [], more);
      }
    }
  }

  lemma ReadBlobExtended(input: Bytes, length: nat, more: Bytes)
    requires ReadBlob(input, length).outcome != Failed(EndOfStream)
    ensures ReadBlob(input + more, length)
            == Read(ReadBlob(input, length).outcome, ReadBlob(input, length).rest + more)
  {
    if length + 2 <= MAX_INT64 {
      assert (input + more)[..length] == input[..length];
      assert (input + more)[length + 2..] == input[length + 2..] + more;
    }
  }

  lemma {:induction false} ReadItemsExtended(input: Bytes, count: nat, items: seq<Value>, more: Bytes)
    requires ReadItems(input, count, items).outcome != Failed(EndOfStream)
    ensures ReadItems(input + more, count, items)
            == Read(ReadItems(input, count, items).outcome, ReadItems(input, count, items).rest + more)
    decreases |input|, count + 1
  {
    if count > 0 {
      ReadReplyExtended(input, false, more);
      var item := ReadReply(input, false);
      if item.outcome.Ok? {
        ReadItemsExtended(item.rest, count - 1, items + [item.outcome.value], more);
      }
    }
  }
}
