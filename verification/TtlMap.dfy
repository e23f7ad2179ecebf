/**
 * The promise of the Cache interface: a map from keys to bytes with optional expiry under a clock. Expired
 * entries vanish at once here, so this is what the stores, which delete lazily, are measured against.
 */
module TtlMap {
  import opened Basics
  import opened Decimal

  /** Times are nanoseconds. */
  datatype Entry = Entry(value: Bytes, expiry: Option<int>)
  type Entries = map<Bytes, Entry>

  predicate Alive(e: Entry, now: int) {
    e.expiry.None? || e.expiry.value > now
  }

  function Live(m: Entries, now: int): Entries {
    map k | k in m && Alive(m[k], now) :: m[k]
  }

  datatype CacheError = Miss | BadCounter(error: NumberError) | Unavailable | Joined(first: CacheError, second: CacheError)

  datatype Answer =
    | Value(value: Bytes)
    | Done
    | Found(found: bool)
    | Count(count: int64)
    | Remaining(ttl: int)
    | Fail(error: CacheError)

  datatype Op =
    | Get(key: Bytes)
    | Set(key: Bytes, value: Bytes, ttl: int64)
    | Take(key: Bytes)
    | Exists(key: Bytes)
    | Increment(key: Bytes, delta: int64, ttl: int64)
    | Ttl(key: Bytes)
    | Delete(key: Bytes)

  predicate IsRead(op: Op) {
    op.Get? || op.Exists? || op.Ttl?
  }

  /** The moment an entry written now expires; ttl <= 0 means never. */
  function Deadline(now: int, ttl: int64): Option<int> {
    if ttl > 0 then Some(now + ttl) else None
  }

  /** What an operation does to the live entry under its key, and its answer. */
  function Effect(e: Option<Entry>, op: Op, now: int): (Option<Entry>, Answer) {
    match op
    case Get(_) => (e, if e.Some? then Value(e.value.value) else Fail(Miss))
    case Exists(_) => (e, Found(e.Some?))
    case Set(_, value, ttl) => (Some(Entry(value, Deadline(now, ttl))), Done)
    case Take(_) => (None, if e.Some? then Value(e.value.value) else Fail(Miss))
    case Delete(_) => (None, Done)
    case Ttl(_) =>
      (e, if e.None? then Fail(Miss)
          else if e.value.expiry.None? then Remaining(0)
          else Remaining(e.value.expiry.value - now))
    case Increment(_, delta, ttl) =>
      match Counter(e)
      case Rejected(error, _) => (e, Fail(BadCounter(error)))
      case Parsed(n) =>
        var next := Wrap64(n + delta);
        (Some(Entry(FormatInt(next), if ttl > 0 then Deadline(now, ttl) else ExpiryOf(e))), Count(next))
  }

  /** A missing counter counts from zero. */
  function Counter(e: Option<Entry>): ParsedInt {
    if e.Some? then ParseInt(e.value.value) else Parsed(0)
  }

  function ExpiryOf(e: Option<Entry>): Option<int> {
    if e.Some? then e.value.expiry else None
  }

  /** One operation on the whole map: what has expired is gone first. */
  function Perform(m: Entries, op: Op, now: int): (Entries, Answer) {
    var v := Live(m, now);
    var (e, answer) := Effect(Lookup(v, op.key), op, now);
    (Assign(v, op.key, e), answer)
  }

  // ---------- runs ----------

  datatype Event = Event(op: Op, now: int)

  /** The clock never goes back, and starts no earlier than `from`. */
  predicate Ordered(events: seq<Event>, from: int) {
    events == [] || (from <= events[0].now && Ordered(events[1..], events[0].now))
  }

  function Run(m: Entries, events: seq<Event>): seq<Answer>
    decreases |events|
  {
    if events == [] then []
    else
      var (m', answer) := Perform(m, events[0].op, events[0].now);
      [answer] + Run(m', events[1..])
  }

  // ---------- the live view ----------

  function IfAlive(e: Option<Entry>, now: int): Option<Entry> {
    if e.Some? && Alive(e.value, now) then e else None
  }

  lemma LiveLookup(m: Entries, now: int, k: Bytes)
    ensures Lookup(Live(m, now), k) == IfAlive(Lookup(m, k), now)
  {
  }

  lemma LiveAssign(m: Entries, k: Bytes, e: Option<Entry>, now: int)
    ensures Live(Assign(m, k, e), now) == Assign(Live(m, now), k, IfAlive(e, now))
  {
    forall x
      ensures Lookup(Live(Assign(m, k, e), now), x) == Lookup(Assign(Live(m, now), k, IfAlive(e, now)), x)
    {
      LiveLookup(Assign(m, k, e), now, x);
      LiveLookup(m, now, x);
      assert x == k || Lookup(Assign(m, k, e), x) == Lookup(m, x);
    }
    SameLookups(Live(Assign(m, k, e), now), Assign(Live(m, now), k, IfAlive(e, now)));
  }

  /** Two contents that no operation at `now` or later can tell apart. */
  predicate Agree(a: Entries, b: Entries, now: int) {
    Live(a, now) == Live(b, now)
  }

  lemma LiveLater(m: Entries, now: int, later: int)
    requires now <= later
    ensures Live(Live(m, now), later) == Live(m, later)
  {
  }

  lemma AgreeLater(a: Entries, b: Entries, now: int, later: int)
    requires Agree(a, b, now) && now <= later
    ensures Agree(a, b, later)
  {
    LiveLater(a, now, later);
    LiveLater(b, now, later);
  }

  /** An operation on a live entry leaves a live entry. */
  lemma EffectAlive(e: Option<Entry>, op: Op, now: int)
    requires IfAlive(e, now) == e
    ensures IfAlive(Effect(e, op, now).0, now) == Effect(e, op, now).0
  {
  }

  /** The map's contents right after an operation, in terms of the live view. */
  lemma PerformLive(m: Entries, op: Op, now: int)
    ensures Live(Perform(m, op, now).0, now) == Perform(m, op, now).0
  {
    var v := Live(m, now);
    LiveLater(m, now, now);
    LiveLookup(v, now, op.key);
    EffectAlive(Lookup(v, op.key), op, now);
    LiveAssign(v, op.key, Effect(Lookup(v, op.key), op, now).0, now);
  }

  lemma {:induction false} RunAgrees(a: Entries, b: Entries, events: seq<Event>, from: int)
    requires Agree(a, b, from) && Ordered(events, from)
    ensures Run(a, events) == Run(b, events)
  {
    if events != [] {
      AgreeLater(a, b, from, events[0].now);
    }
  }

  // ---------- reads leave no trace ----------

  function Writes(events: seq<Event>): seq<Event> {
    if events == [] then []
    else if IsRead(events[0].op) then Writes(events[1..])
    else [events[0]] + Writes(events[1..])
  }

  /** The answers of the writing operations, in order. */
  function WriteAnswers(events: seq<Event>, answers: seq<Answer>): seq<Answer>
    requires |answers| == |events|
  {
    if events == [] then []
    else if IsRead(events[0].op) then WriteAnswers(events[1..], answers[1..])
    else [answers[0]] + WriteAnswers(events[1..], answers[1..])
  }

  lemma {:induction false} RunLength(m: Entries, events: seq<Event>)
    ensures |Run(m, events)| == |events|
    decreases |events|
  {
    if events != [] {
      RunLength(Perform(m, events[0].op, events[0].now).0, events[1..]);
    }
  }

  lemma {:induction false} WritesOrdered(events: seq<Event>, from: int)
    requires Ordered(events, from)
    ensures Ordered(Writes(events), from)
  {
    if events != [] {
      WritesOrdered(events[1..], events[0].now);
      var rest := Writes(events[1..]);
      if IsRead(events[0].op) {
        if rest != [] {
          assert Ordered(rest, from);
        }
      } else {
        assert ([events[0]] + rest)[1..] == rest;
      }
    }
  }

  /** Leaving the reads out of a run changes no answer of the other operations. */
  lemma {:induction false} ReadsInvisible(m: Entries, events: seq<Event>, from: int)
    requires Ordered(events, from)
    ensures |Run(m, events)| == |events|
    ensures WriteAnswers(events, Run(m, events)) == Run(m, Writes(events))
    decreases |events|
  {
    RunLength(m, events);
    if events != [] {
      var (m', answer) := Perform(m, events[0].op, events[0].now);
      var rest := events[1..];
      ReadsInvisible(m', rest, events[0].now);
      assert Run(m, events)[1..] == Run(m', rest);
      if IsRead(events[0].op) {
        WritesOrdered(rest, events[0].now);
        LiveLater(m, events[0].now, events[0].now);
        RunAgrees(m', m, Writes(rest), events[0].now);
      } else {
        assert ([events[0]] + Writes(rest))[1..] == Writes(rest);
      }
    }
  }
}
