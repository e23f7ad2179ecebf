/** Key prefixes: how prefixed keys are built, how prefixes stack, and when two prefixed views are independent. */
module Prefixes {
  import opened Basics
  import opened TtlMap
  import opened CacheStore

  const COLON: byte := 58

  /** strings.TrimRight(s, ":"). */
  function TrimColons(s: Bytes): Bytes {
    if s != [] && s[|s| - 1] == COLON then TrimColons(s[..|s| - 1]) else s
  }

  function Key(prefix: Bytes, key: Bytes): Bytes {
    var trimmed := TrimColons(prefix);
    if trimmed == [] then key else trimmed + [COLON] + key
  }

  /** An empty prefix adds nothing, another one is set off by one colon, and colons at its end make no difference. */
  lemma KeyIs(prefix: Bytes, key: Bytes)
    ensures Key([], key) == key
    ensures prefix != [] && prefix[|prefix| - 1] != 58 ==> Key(prefix, key) == prefix + [58] + key
    ensures Key(prefix + [58], key) == Key(prefix, key)
  {
    assert (prefix + [58])[..|prefix|] == prefix;
  }

  /** What a prefix puts in front of every key. */
  function Lead(prefix: Bytes): Bytes {
    Key(prefix, [])
  }

  lemma KeyIsLead(prefix: Bytes, key: Bytes)
    ensures Key(prefix, key) == Lead(prefix) + key
  {
    var trimmed := TrimColons(prefix);
    assert trimmed + [COLON] + [] == trimmed + [COLON];
  }

  lemma {:induction false} TrimAppend(a: Bytes, b: Bytes)
    ensures TrimColons(a + b) == if TrimColons(b) == [] then TrimColons(a) else a + TrimColons(b)
  {
    if b == [] {
      assert a + b == a;
    } else {
      assert (a + b)[..|a + b| - 1] == a + b[..|b| - 1];
      if b[|b| - 1] == COLON {
        TrimAppend(a, b[..|b| - 1]);
      }
    }
  }

  lemma {:induction false} TrimTwice(s: Bytes)
    ensures TrimColons(TrimColons(s)) == TrimColons(s)
  {
    if s != [] && s[|s| - 1] == COLON {
      TrimTwice(s[..|s| - 1]);
    }
  }

  /** Prefixing a prefixed key is prefixing with the prefixed prefix, for all strings. */
  lemma KeysCompose(p: Bytes, q: Bytes, k: Bytes)
    ensures Key(p, Key(q, k)) == Key(Key(p, q), k)
  {
    var p', q' := TrimColons(p), TrimColons(q);
    if p' != [] {
      TrimAppend(p' + [COLON], q);
      TrimAppend(p', [COLON]);
      TrimTwice(p);
      assert TrimColons([COLON]) == [] by { assert [COLON][..0] == []; }
      if q' != [] {
        assert p' + [COLON] + q' + [COLON] + k == p' + [COLON] + (q' + [COLON] + k);
      }
    }
  }

  /** Two prefixes can meet in a key exactly when the lead of one begins with the lead of the other. */
  lemma KeysMeetIff(p: Bytes, q: Bytes)
    ensures (exists j: Bytes, k: Bytes :: Key(p, j) == Key(q, k)) <==> Lead(p) <= Lead(q) || Lead(q) <= Lead(p)
  {
    if j: Bytes, k: Bytes :| Key(p, j) == Key(q, k) {
      KeyIsLead(p, j);
      KeyIsLead(q, k);
      var all := Key(p, j);
      assert all[..|Lead(p)|] == Lead(p) && all[..|Lead(q)|] == Lead(q);
      if |Lead(p)| <= |Lead(q)| {
        assert Lead(q)[..|Lead(p)|] == Lead(p);
      } else {
        assert Lead(p)[..|Lead(q)|] == Lead(q);
      }
    }
    if Lead(p) <= Lead(q) {
      var j := Lead(q)[|Lead(p)|..];
      KeyIsLead(p, j);
      assert Lead(p) + j == Lead(q);
      assert Key(p, j) == Key(q, []);
    }
    if Lead(q) <= Lead(p) {
      var k := Lead(p)[|Lead(q)|..];
      KeyIsLead(q, k);
      assert Lead(q) + k == Lead(p);
      assert Key(p, []) == Key(q, k);
    }
  }

  // ---------- views ----------

  function Rekey(op: Op, prefix: Bytes): Op {
    op.(key := Key(prefix, op.key))
  }

  /** The part of a store under a prefix, with the prefix taken off its keys. */
  function View(m: Entries, prefix: Bytes): Entries {
    var lead := Lead(prefix);
    map k | k in (set x | x in m && lead <= x :: x[|lead|..]) && Key(prefix, k) in m :: m[Key(prefix, k)]
  }

  lemma ViewLookup(m: Entries, prefix: Bytes, k: Bytes)
    ensures Lookup(View(m, prefix), k) == Lookup(m, Key(prefix, k))
  {
    KeyIsLead(prefix, k);
    if Key(prefix, k) in m {
      assert Lead(prefix) <= Key(prefix, k) && Key(prefix, k)[|Lead(prefix)|..] == k;
    }
  }

  lemma ViewLive(m: Entries, prefix: Bytes, now: int)
    ensures Live(View(m, prefix), now) == View(Live(m, now), prefix)
  {
    forall k
      ensures Lookup(Live(View(m, prefix), now), k) == Lookup(View(Live(m, now), prefix), k)
    {
      LiveLookup(View(m, prefix), now, k);
      ViewLookup(m, prefix, k);
      ViewLookup(Live(m, now), prefix, k);
      LiveLookup(m, now, Key(prefix, k));
    }
    SameLookups(Live(View(m, prefix), now), View(Live(m, now), prefix));
  }

  lemma EffectIgnoresKey(e: Option<Entry>, op: Op, prefix: Bytes, now: int)
    ensures Effect(e, Rekey(op, prefix), now) == Effect(e, op, now)
  {
  }

  lemma KeysInjective(prefix: Bytes, j: Bytes, k: Bytes)
    requires Key(prefix, j) == Key(prefix, k)
    ensures j == k
  {
    KeyIsLead(prefix, j);
    KeyIsLead(prefix, k);
    assert (Lead(prefix) + j)[|Lead(prefix)|..] == j;
    assert (Lead(prefix) + k)[|Lead(prefix)|..] == k;
  }

  lemma ViewAssign(m: Entries, prefix: Bytes, k: Bytes, e: Option<Entry>)
    ensures View(Assign(m, Key(prefix, k), e), prefix) == Assign(View(m, prefix), k, e)
  {
    forall x
      ensures Lookup(View(Assign(m, Key(prefix, k), e), prefix), x) == Lookup(Assign(View(m, prefix), k, e), x)
    {
      ViewLookup(Assign(m, Key(prefix, k), e), prefix, x);
      ViewLookup(m, prefix, x);
      if x != k && Key(prefix, x) == Key(prefix, k) {
        KeysInjective(prefix, x, k);
      }
    }
    SameLookups(View(Assign(m, Key(prefix, k), e), prefix), Assign(View(m, prefix), k, e));
  }

  /** Under a prefix, an operation sees the entry that it would see in the view. */
  lemma ViewEffect(m: Entries, prefix: Bytes, op: Op, now: int)
    ensures Effect(Lookup(Live(m, now), Key(prefix, op.key)), Rekey(op, prefix), now)
         == Effect(Lookup(Live(View(m, prefix), now), op.key), op, now)
  {
    ViewLive(m, prefix, now);
    ViewLookup(Live(m, now), prefix, op.key);
    EffectIgnoresKey(Lookup(Live(m, now), Key(prefix, op.key)), op, prefix, now);
  }

  /** Through its prefix a store is a TTL map of its own: same answer, same contents. */
  lemma ViewIsMap(m: Entries, prefix: Bytes, op: Op, now: int)
    ensures Perform(m, Rekey(op, prefix), now).1 == Perform(View(m, prefix), op, now).1
    ensures View(Perform(m, Rekey(op, prefix), now).0, prefix) == Perform(View(m, prefix), op, now).0
  {
    ViewEffect(m, prefix, op, now);
    var (e, answer) := Effect(Lookup(Live(View(m, prefix), now), op.key), op, now);
    PerformedInView(m, prefix, op, Rekey(op, prefix), now, e, answer);
  }

  lemma PerformedInView(m: Entries, prefix: Bytes, op: Op, rekeyed: Op, now: int, e: Option<Entry>, answer: Answer)
    requires rekeyed.key == Key(prefix, op.key)
    requires Effect(Lookup(Live(m, now), rekeyed.key), rekeyed, now) == (e, answer)
    requires Effect(Lookup(Live(View(m, prefix), now), op.key), op, now) == (e, answer)
    ensures Perform(m, rekeyed, now).1 == Perform(View(m, prefix), op, now).1
    ensures View(Perform(m, rekeyed, now).0, prefix) == Perform(View(m, prefix), op, now).0
  {
    ViewLive(m, prefix, now);
    ViewAssign(Live(m, now), prefix, op.key, e);
  }

  predicate Apart(p: Bytes, q: Bytes) {
    !(Lead(p) <= Lead(q)) && !(Lead(q) <= Lead(p))
  }

  /** An operation under one prefix is not noticed under another that is apart from it. */
  lemma OtherViewUntouched(m: Entries, p: Bytes, q: Bytes, op: Op, now: int)
    requires Apart(p, q)
    ensures View(Perform(m, Rekey(op, p), now).0, q) == Live(View(m, q), now)
  {
    OtherKeyUntouched(m, p, q, op.key, Rekey(op, p), now);
  }

  lemma OtherKeyUntouched(m: Entries, p: Bytes, q: Bytes, k: Bytes, rekeyed: Op, now: int)
    requires Apart(p, q) && rekeyed.key == Key(p, k)
    ensures View(Perform(m, rekeyed, now).0, q) == Live(View(m, q), now)
  {
    var v := Live(m, now);
    ViewLive(m, q, now);
    OtherAssign(v, p, q, k, Effect(Lookup(v, rekeyed.key), rekeyed, now).0);
  }

  lemma OtherAssign(m: Entries, p: Bytes, q: Bytes, k: Bytes, e: Option<Entry>)
    requires Apart(p, q)
    ensures View(Assign(m, Key(p, k), e), q) == View(m, q)
  {
    KeysMeetIff(p, q);
    forall x
      ensures Lookup(View(Assign(m, Key(p, k), e), q), x) == Lookup(View(m, q), x)
    {
      ViewLookup(Assign(m, Key(p, k), e), q, x);
      ViewLookup(m, q, x);
      assert Key(p, k) != Key(q, x);
    }
    SameLookups(View(Assign(m, Key(p, k), e), q), View(m, q));
  }

  // ---------- the prefixed store ----------

  /** The same for a store that may be down. */
  lemma ViewStep(b: Backend, prefix: Bytes, op: Op, now: int)
    ensures var (b', answer) := BackendStep(b, Rekey(op, prefix), now);
            (Backend(View(b'.entries, prefix), b'.up), answer) == BackendStep(Backend(View(b.entries, prefix), b.up), op, now)
  {
    hide View, Perform, Rekey;
    ViewIsMap(b.entries, prefix, op, now);
  }

  /** Each operation is the TTL map's on the view, and the wrapped store's under the longer key. */
  class Prefixed {
    const store: Store
    const prefix: Bytes

    constructor (store: Store, prefix: Bytes)
      ensures this.store == store && this.prefix == prefix
    {
      this.store, this.prefix := store, prefix;
    }

    /** The store as it looks from here: the part under the prefix. */
    ghost function Viewed(): Backend
      reads store
    {
      Backend(View(store.entries, prefix), store.up)
    }

    method Get(key: Bytes, now: int) returns (answer: Answer)
      modifies store
      ensures (Viewed(), answer) == BackendStep(old(Viewed()), TtlMap.Get(key), now)
      ensures store.State() == BackendStep(old(store.State()), Rekey(TtlMap.Get(key), prefix), now).0
    {
      hide View, Perform, Key, BackendStep;
      ViewStep(store.State(), prefix, TtlMap.Get(key), now);
      answer := store.Call(TtlMap.Get(Key(prefix, key)), now);
    }

    method Set(key: Bytes, value: Bytes, ttl: int64, now: int) returns (answer: Answer)
      modifies store
      ensures (Viewed(), answer) == BackendStep(old(Viewed()), TtlMap.Set(key, value, ttl), now)
      ensures store.State() == BackendStep(old(store.State()), Rekey(TtlMap.Set(key, value, ttl), prefix), now).0
    {
      hide View, Perform, Key, BackendStep;
      ViewStep(store.State(), prefix, TtlMap.Set(key, value, ttl), now);
      answer := store.Call(TtlMap.Set(Key(prefix, key), value, ttl), now);
    }

    method Take(key: Bytes, now: int) returns (answer: Answer)
      modifies store
      ensures (Viewed(), answer) == BackendStep(old(Viewed()), TtlMap.Take(key), now)
      ensures store.State() == BackendStep(old(store.State()), Rekey(TtlMap.Take(key), prefix), now).0
    {
      hide View, Perform, Key, BackendStep;
      ViewStep(store.State(), prefix, TtlMap.Take(key), now);
      answer := store.Call(TtlMap.Take(Key(prefix, key)), now);
    }

    method Exists(key: Bytes, now: int) returns (answer: Answer)
      modifies store
      ensures (Viewed(), answer) == BackendStep(old(Viewed()), TtlMap.Exists(key), now)
      ensures store.State() == BackendStep(old(store.State()), Rekey(TtlMap.Exists(key), prefix), now).0
    {
      hide View, Perform, Key, BackendStep;
      ViewStep(store.State(), prefix, TtlMap.Exists(key), now);
      answer := store.Call(TtlMap.Exists(Key(prefix, key)), now);
    }

    method Increment(key: Bytes, delta: int64, ttl: int64, now: int) returns (answer: Answer)
      modifies store
      ensures (Viewed(), answer) == BackendStep(old(Viewed()), TtlMap.Increment(key, delta, ttl), now)
      ensures store.State() == BackendStep(old(store.State()), Rekey(TtlMap.Increment(key, delta, ttl), prefix), now).0
    {
      hide View, Perform, Key, BackendStep;
      ViewStep(store.State(), prefix, TtlMap.Increment(key, delta, ttl), now);
      answer := store.Call(TtlMap.Increment(Key(prefix, key), delta, ttl), now);
    }

    method TTL(key: Bytes, now: int) returns (answer: Answer)
      modifies store
      ensures (Viewed(), answer) == BackendStep(old(Viewed()), TtlMap.Ttl(key), now)
      ensures store.State() == BackendStep(old(store.State()), Rekey(TtlMap.Ttl(key), prefix), now).0
    {
      hide View, Perform, Key, BackendStep;
      ViewStep(store.State(), prefix, TtlMap.Ttl(key), now);
      answer := store.Call(TtlMap.Ttl(Key(prefix, key)), now);
    }

    method Delete(key: Bytes, now: int) returns (answer: Answer)
      modifies store
      ensures (Viewed(), answer) == BackendStep(old(Viewed()), TtlMap.Delete(key), now)
      ensures store.State() == BackendStep(old(store.State()), Rekey(TtlMap.Delete(key), prefix), now).0
    {
      hide View, Perform, Key, BackendStep;
      ViewStep(store.State(), prefix, TtlMap.Delete(key), now);
      answer := store.Call(TtlMap.Delete(Key(prefix, key)), now);
    }
  }

  // ---------- interleavings ----------

  datatype Sided = Sided(left: bool, event: Event)

  function Events(run: seq<Sided>): (events: seq<Event>)
    ensures |events| == |run|
  {
    if run == [] then [] else [run[0].event] + Events(run[1..])
  }

  /** One store driven through two prefixes. */
  function Run(m: Entries, p: Bytes, q: Bytes, run: seq<Sided>): (answers: seq<Answer>)
    ensures |answers| == |run|
    decreases |run|
  {
    if run == [] then []
    else
      var Sided(left, Event(op, now)) := run[0];
      var (m', answer) := Perform(m, Rekey(op, if left then p else q), now);
      [answer] + Run(m', p, q, run[1..])
  }

  function EventsOf(run: seq<Sided>, left: bool): seq<Event> {
    if run == [] then []
    else if run[0].left == left then [run[0].event] + EventsOf(run[1..], left)
    else EventsOf(run[1..], left)
  }

  function AnswersOf(run: seq<Sided>, answers: seq<Answer>, left: bool): seq<Answer>
    requires |answers| == |run|
  {
    if run == [] then []
    else if run[0].left == left then [answers[0]] + AnswersOf(run[1..], answers[1..], left)
    else AnswersOf(run[1..], answers[1..], left)
  }

  lemma {:induction false} EventsOfOrdered(run: seq<Sided>, left: bool, from: int)
    requires Ordered(Events(run), from)
    ensures Ordered(EventsOf(run, left), from)
  {
    if run != [] {
      assert Events(run)[1..] == Events(run[1..]);
      EventsOfOrdered(run[1..], left, run[0].event.now);
      var rest := EventsOf(run[1..], left);
      if run[0].left == left {
        assert ([run[0].event] + rest)[1..] == rest;
      }
    }
  }

  /** Under every interleaving, two views apart from each other answer as two TTL maps that know nothing of each other. */
  lemma {:induction false} ViewsAreIndependent(m: Entries, p: Bytes, q: Bytes, run: seq<Sided>, from: int, left: bool)
    requires Apart(p, q) && Ordered(Events(run), from)
    ensures AnswersOf(run, Run(m, p, q, run), left) == TtlMap.Run(View(m, if left then p else q), EventsOf(run, left))
    decreases |run|
  {
    if run != [] {
      var Sided(side, Event(op, now)) := run[0];
      var own := if left then p else q;
      var m' := Perform(m, Rekey(op, if side then p else q), now).0;
      assert Events(run)[1..] == Events(run[1..]);
      ViewsAreIndependent(m', p, q, run[1..], now, left);
      assert Run(m, p, q, run)[1..] == Run(m', p, q, run[1..]);
      var rest := EventsOf(run[1..], left);
      if side == left {
        ViewIsMap(m, own, op, now);
        assert ([run[0].event] + rest)[1..] == rest;
      } else {
        OtherViewUntouched(m, if side then p else q, own, op, now);
        EventsOfOrdered(run[1..], left, now);
        LiveLater(View(m, own), now, now);
        RunAgrees(Live(View(m, own), now), View(m, own), rest, now);
      }
    }
  }
}
