/** The in-memory store: a map under a lock that drops expired items only when it meets them. */
module MemoryStore {
  import opened Basics
  import opened Decimal
  import opened TtlMap

  // ---------- what one operation does ----------

  predicate Expired(expiry: Option<int>, now: int) {
    expiry.Some? && expiry.value <= now
  }

  /** What an operation does to the item it finds, expired or not, and its answer. */
  function ItemStep(item: Option<Entry>, op: Op, now: int): (Option<Entry>, Answer) {
    var present := item.Some?;
    var expired := item.Some? && Expired(item.value.expiry, now);
    match op
    case Get(_) =>
      if !present then (item, Fail(Miss))
      else if expired then (None, Fail(Miss))
      else (item, Value(item.value.value))
    case Exists(_) =>
      if !present then (item, Found(false))
      else if expired then (None, Found(false))
      else (item, Found(true))
    case Set(_, value, ttl) => (Some(Entry(value, if ttl > 0 then Some(now + ttl) else None)), Done)
    case Take(_) =>
      if !present then (item, Fail(Miss))
      else if expired then (None, Fail(Miss))
      else (None, Value(item.value.value))
    case Delete(_) => (None, Done)
    case Ttl(_) =>
      if !present then (item, Fail(Miss))
      else if item.value.expiry.None? then (item, Remaining(0))
      else
        var ttl := Clamp64(item.value.expiry.value - now);
        if ttl <= 0 then (None, Fail(Miss)) else (item, Remaining(ttl))
    case Increment(_, delta, ttl) =>
      var kept := if expired then None else item;
      match Counter(kept)
      case Rejected(error, _) => (kept, Fail(BadCounter(error)))
      case Parsed(n) =>
        var next := Wrap64(n + delta);
        (Some(Entry(FormatInt(next), if ttl > 0 then Some(now + ttl) else ExpiryOf(kept))), Count(next))
  }

  function Step(items: Entries, op: Op, now: int): (Entries, Answer) {
    var (item, answer) := ItemStep(Lookup(items, op.key), op, now);
    (Assign(items, op.key, item), answer)
  }

  // ---------- the store ----------

  datatype Item = Item(value: array<byte>, expiry: Option<int>)

  class Memory {
    var items: map<Bytes, Item>

    constructor ()
      ensures Contents() == map[] && fresh(Slices())
    {
      items := map[];
    }

    /** The byte slices that the store owns. */
    ghost function Slices(): set<array<byte>>
      reads this
    {
      set k | k in items :: items[k].value
    }

    ghost function Contents(): Entries
      reads this, Slices()
    {
      map k | k in items :: Entry(items[k].value[..], items[k].expiry)
    }

    method Get(key: Bytes, now: int) returns (value: array?<byte>, answer: Answer)
      modifies this
      ensures (Contents(), answer) == Step(old(Contents()), TtlMap.Get(key), now)
      ensures answer.Value? <==> value != null
      ensures value != null ==> fresh(value) && answer == Value(value[..])
      ensures Slices() <= old(Slices())
    {
      AssignLookup(Contents(), key);
      value := null;
      if key !in items {
        return null, Fail(Miss);
      }
      var item := items[key];
      if Expired(item.expiry, now) {
        items := items - {key};
        assert Contents() == Assign(old(Contents()), key, None);
        return null, Fail(Miss);
      }
      value := Copy(item.value);
      assert Contents() == old(Contents());
      answer := Value(value[..]);
    }

    method Set(key: Bytes, value: array<byte>, ttl: int64, now: int) returns (answer: Answer)
      modifies this
      ensures (Contents(), answer) == Step(old(Contents()), TtlMap.Set(key, old(value[..]), ttl), now)
      ensures fresh(Slices() - old(Slices())) && (value in Slices() ==> value in old(Slices()))
    {
      var copied := Copy(value);
      var item := Item(copied, if ttl > 0 then Some(now + ttl) else None);
      items := items[key := item];
      assert Contents() == Assign(old(Contents()), key, Some(Entry(copied[..], item.expiry)));
      answer := Done;
    }

    method Take(key: Bytes, now: int) returns (value: array?<byte>, answer: Answer)
      modifies this
      ensures (Contents(), answer) == Step(old(Contents()), TtlMap.Take(key), now)
      ensures answer.Value? <==> value != null
      ensures value != null ==> fresh(value) && answer == Value(value[..])
      ensures Slices() <= old(Slices())
    {
      value := null;
      if key !in items {
        AssignLookup(Contents(), key);
        return null, Fail(Miss);
      }
      var item := items[key];
      if Expired(item.expiry, now) {
        items := items - {key};
        assert Contents() == Assign(old(Contents()), key, None);
        return null, Fail(Miss);
      }
      items := items - {key};
      value := Copy(item.value);
      assert Contents() == Assign(old(Contents()), key, None);
      answer := Value(value[..]);
    }

    method Exists(key: Bytes, now: int) returns (answer: Answer)
      modifies this
      ensures (Contents(), answer) == Step(old(Contents()), TtlMap.Exists(key), now)
      ensures Slices() <= old(Slices())
    {
      var value, got := Get(key, now);
      answer := Found(got.Value?);
    }

    method Increment(key: Bytes, delta: int64, ttl: int64, now: int) returns (answer: Answer)
      modifies this
      ensures (Contents(), answer) == Step(old(Contents()), TtlMap.Increment(key, delta, ttl), now)
      ensures fresh(Slices() - old(Slices()))
    {
      AssignLookup(Contents(), key);
      if key in items && Expired(items[key].expiry, now) {
        items := items - {key};
        assert Contents() == Assign(old(Contents()), key, None);
      }
      var current: int64, expiry := 0, None;
      if key in items {
        match ParseInt(items[key].value[..])
        case Rejected(error, _) => return Fail(BadCounter(error));
        case Parsed(n) => current := n;
        expiry := items[key].expiry;
      }
      var next := Wrap64(current + delta);
      if ttl > 0 {
        expiry := Some(now + ttl);
      }
      CountedItem(Lookup(old(Contents()), key), key, delta, ttl, now, current, expiry);
      var value := ToSlice(FormatInt(next));
      items := items[key := Item(value, expiry)];
      assert Contents() == Assign(old(Contents()), key, Some(Entry(FormatInt(next), expiry)));
      answer := Count(next);
    }

    method TTL(key: Bytes, now: int) returns (answer: Answer)
      modifies this
      ensures (Contents(), answer) == Step(old(Contents()), TtlMap.Ttl(key), now)
      ensures Slices() <= old(Slices())
    {
      AssignLookup(Contents(), key);
      if key !in items {
        return Fail(Miss);
      }
      var item := items[key];
      if item.expiry.None? {
        return Remaining(0);
      }
      var ttl := Clamp64(item.expiry.value - now);
      if ttl <= 0 {
        items := items - {key};
        assert Contents() == Assign(old(Contents()), key, None);
        return Fail(Miss);
      }
      answer := Remaining(ttl);
    }

    method Delete(key: Bytes) returns (answer: Answer)
      modifies this
      ensures forall now :: (Contents(), answer) == Step(old(Contents()), TtlMap.Delete(key), now)
      ensures Slices() <= old(Slices())
    {
      items := items - {key};
      assert Contents() == Assign(old(Contents()), key, None);
      answer := Done;
    }
  }

  /** What an increment does to the item, from the count and the deadline that it goes on with. */
  lemma CountedItem(item: Option<Entry>, key: Bytes, delta: int64, ttl: int64, now: int, current: int64, expiry: Option<int>)
    requires var kept := if item.Some? && Expired(item.value.expiry, now) then None else item;
             Counter(kept) == Parsed(current) && expiry == if ttl > 0 then Some(now + ttl) else ExpiryOf(kept)
    ensures var next := Wrap64(current + delta);
            ItemStep(item, TtlMap.Increment(key, delta, ttl), now) == (Some(Entry(FormatInt(next), expiry)), Count(next))
  {
  }

  method ToSlice(s: Bytes) returns (a: array<byte>)
    ensures fresh(a) && a[..] == s
  {
    a := new byte[|s|](i requires 0 <= i < |s| => s[i]);
  }

  method Copy(a: array<byte>) returns (b: array<byte>)
    ensures fresh(b) && b[..] == a[..]
  {
    b := new byte[a.Length];
    for i := 0 to a.Length
      invariant b[..i] == a[..i]
    {
      b[i] := a[i];
    }
  }

  /** Neither the slice given to Set nor the slice returned by Get shares memory with the store. */
  method SlicesAreCopied(store: Memory, key: Bytes, value: array<byte>, now: int) returns (got: array?<byte>)
    requires value.Length > 0 && value !in store.Slices()
    modifies store, value
    ensures got != null && got[..] == old(value[..])
  {
    ghost var original := value[..];
    var done := store.Set(key, value, 0, now);
    ghost var held := store.Contents();
    assert Lookup(held, key) == Some(Entry(original, None)) && value !in store.Slices();
    GetOfLasting(held, key, now);
    value[0] := 0;
    assert store.Contents() == held;
    var first, answer := store.Get(key, now);
    first[0] := 0;
    assert store.Contents() == held;
    got, answer := store.Get(key, now);
  }

  lemma GetOfLasting(m: Entries, key: Bytes, now: int)
    requires key in m && m[key].expiry == None
    ensures Step(m, TtlMap.Get(key), now) == (m, Value(m[key].value))
  {
    AssignLookup(m, key);
  }

  // ---------- refinement ----------

  /** No deadline lies more than a Duration ahead; clocks that do not go back keep this. */
  predicate Bounded(items: Entries, now: int) {
    forall k :: k in items && items[k].expiry.Some? ==> items[k].expiry.value - now <= MAX_INT64
  }

  /** On the item itself: the same answer, and the same live entry afterwards. */
  lemma ItemRefines(item: Option<Entry>, op: Op, now: int)
    requires item.Some? && item.value.expiry.Some? ==> item.value.expiry.value - now <= MAX_INT64
    ensures var (item', answer) := ItemStep(item, op, now);
            var (e', spec) := Effect(IfAlive(item, now), op, now);
            answer == spec && IfAlive(item', now) == IfAlive(e', now)
  {
  }

  /** One lazy step answers like the map and leaves the same live view. */
  lemma StepRefines(items: Entries, m: Entries, op: Op, now: int)
    requires Agree(items, m, now) && Bounded(items, now)
    ensures Step(items, op, now).1 == Perform(m, op, now).1
    ensures Agree(Step(items, op, now).0, Perform(m, op, now).0, now)
    ensures Bounded(Step(items, op, now).0, now)
  {
    var k, v := op.key, Live(m, now);
    var item := Lookup(items, k);
    LiveLookup(items, now, k);
    ItemRefines(item, op, now);
    LiveAssign(items, k, ItemStep(item, op, now).0, now);
    LiveLater(m, now, now);
    LiveAssign(v, k, Effect(Lookup(v, k), op, now).0, now);
    StepBounded(items, op, now);
  }

  lemma StepBounded(items: Entries, op: Op, now: int)
    requires Bounded(items, now)
    ensures Bounded(Step(items, op, now).0, now)
  {
    var after := Step(items, op, now).0;
    forall k | k in after && after[k].expiry.Some?
      ensures after[k].expiry.value - now <= MAX_INT64
    {
      if k != op.key {
        assert Lookup(after, k) == Lookup(items, k);
      }
    }
  }

  function Run(items: Entries, events: seq<Event>): seq<Answer>
    decreases |events|
  {
    if events == [] then []
    else
      var (items', answer) := Step(items, events[0].op, events[0].now);
      [answer] + Run(items', events[1..])
  }

  /** Over every run under a clock that does not go back, the store answers exactly like the map. */
  lemma {:induction false} RunRefines(items: Entries, m: Entries, events: seq<Event>, from: int)
    requires Agree(items, m, from) && Bounded(items, from) && Ordered(events, from)
    ensures Run(items, events) == TtlMap.Run(m, events)
    decreases |events|
  {
    if events != [] {
      var now := events[0].now;
      AgreeLater(items, m, from, now);
      StepRefines(items, m, events[0].op, now);
      RunRefines(Step(items, events[0].op, now).0, Perform(m, events[0].op, now).0, events[1..], now);
    }
  }

  /** Lazy deletion is never visible: without its reads a run answers its writes alike. */
  lemma LazyDeletionInvisible(items: Entries, events: seq<Event>, from: int)
    requires Bounded(items, from) && Ordered(events, from)
    ensures |Run(items, events)| == |events|
    ensures WriteAnswers(events, Run(items, events)) == Run(items, Writes(events))
  {
    RunRefines(items, items, events, from);
    ReadsInvisible(items, events, from);
    WritesOrdered(events, from);
    RunRefines(items, items, Writes(events), from);
  }
}
