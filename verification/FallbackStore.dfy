/** Two stores as one: writes go to both, reads to the fallback when the primary misses or fails. */
module FallbackStore {
  import opened Basics
  import opened Decimal
  import opened TtlMap
  import opened CacheStore

  /** errors.Join of two results of writes. */
  function Join(a: Answer, b: Answer): Answer {
    if a.Fail? && b.Fail? then Fail(Joined(a.error, b.error))
    else if a.Fail? then a
    else if b.Fail? then b
    else Done
  }

  predicate IsError(a: Answer) {
    a.Fail? && a.error != Miss
  }

  datatype Pair = Pair(primary: Option<Backend>, fallback: Option<Backend>)

  function CallIfAny(b: Option<Backend>, op: Op, now: int): (Option<Backend>, Answer) {
    match b
    case None => (None, Done)
    case Some(backend) => var (b', answer) := BackendStep(backend, op, now); (Some(b'), answer)
  }

  /** What the fallback contributes when the primary has not settled the matter; `none` stands in for it. */
  function FallThrough(s: Pair, p: Option<Backend>, op: Op, now: int, none: Answer): (Pair, Answer) {
    if s.fallback.None? then (Pair(p, None), none)
    else
      var (f, answer) := BackendStep(s.fallback.value, op, now);
      (Pair(p, Some(f)), answer)
  }

  /** The primary has settled the matter; its write is mirrored and a failure of that is ignored. */
  function Mirror(s: Pair, p: Option<Backend>, mirror: Op, now: int, answer: Answer): (Pair, Answer) {
    (Pair(p, CallIfAny(s.fallback, mirror, now).0), answer)
  }

  function Step(s: Pair, op: Op, now: int): (Pair, Answer) {
    var (p, first) := CallIfAny(s.primary, op, now);
    match op
    case Set(_, _, _) => var (f, second) := CallIfAny(s.fallback, op, now); (Pair(p, f), Join(first, second))
    case Delete(_) => var (f, second) := CallIfAny(s.fallback, op, now); (Pair(p, f), Join(first, second))
    case Take(k) =>
      if s.primary.Some? && !first.Fail? then Mirror(s, p, Delete(k), now, first)
      else if s.primary.Some? && IsError(first) then FallThrough(s, p, op, now, first)
      else FallThrough(s, p, op, now, Fail(Miss))
    case Exists(_) =>
      if s.primary.Some? && first == Found(true) then (Pair(p, s.fallback), first)
      else if s.primary.Some? then FallThrough(s, p, op, now, first)
      else FallThrough(s, p, op, now, Found(false))
    case Increment(k, _, ttl) =>
      if s.primary.Some? && first.Count? then Mirror(s, p, Set(k, FormatInt(first.count), ttl), now, first)
      else if s.primary.Some? then FallThrough(s, p, op, now, first)
      else FallThrough(s, p, op, now, Fail(Miss))
    case _ =>
      if s.primary.Some? && !first.Fail? then (Pair(p, s.fallback), first)
      else if s.primary.Some? && IsError(first) then FallThrough(s, p, op, now, first)
      else FallThrough(s, p, op, now, Fail(Miss))
  }

  // ---------- the store ----------

  class Fallback {
    const primary: Store?
    const fallback: Store?

    constructor (primary: Store?, fallback: Store?)
      ensures this.primary == primary && this.fallback == fallback
    {
      this.primary, this.fallback := primary, fallback;
    }

    ghost predicate Separate() {
      primary != null ==> primary != fallback
    }

    ghost function State(): Pair
      reads primary, fallback
    {
      Pair(if primary == null then None else Some(primary.State()), if fallback == null then None else Some(fallback.State()))
    }

    method Get(key: Bytes, now: int) returns (answer: Answer)
      requires Separate()
      modifies primary, fallback
      ensures (State(), answer) == Step(old(State()), TtlMap.Get(key), now)
    {
      if primary != null {
        answer := primary.Call(TtlMap.Get(key), now);
        if !answer.Fail? || (answer.error != Miss && fallback == null) {
          return;
        }
      }
      if fallback == null {
        return Fail(Miss);
      }
      answer := fallback.Call(TtlMap.Get(key), now);
    }

    method Set(key: Bytes, value: Bytes, ttl: int64, now: int) returns (answer: Answer)
      requires Separate()
      modifies primary, fallback
      ensures (State(), answer) == Step(old(State()), TtlMap.Set(key, value, ttl), now)
    {
      answer := Done;
      if primary != null {
        answer := primary.Call(TtlMap.Set(key, value, ttl), now);
      }
      if fallback != null {
        var second := fallback.Call(TtlMap.Set(key, value, ttl), now);
        answer := Join(answer, second);
      }
    }

    method Take(key: Bytes, now: int) returns (answer: Answer)
      requires Separate()
      modifies primary, fallback
      ensures (State(), answer) == Step(old(State()), TtlMap.Take(key), now)
    {
      if primary != null {
        answer := primary.Call(TtlMap.Take(key), now);
        if !answer.Fail? {
          if fallback != null {
            var _ := fallback.Call(TtlMap.Delete(key), now);
          }
          return;
        }
        if answer.error != Miss && fallback == null {
          return;
        }
      }
      if fallback == null {
        return Fail(Miss);
      }
      answer := fallback.Call(TtlMap.Take(key), now);
    }

    method Exists(key: Bytes, now: int) returns (answer: Answer)
      requires Separate()
      modifies primary, fallback
      ensures (State(), answer) == Step(old(State()), TtlMap.Exists(key), now)
    {
      if primary != null {
        answer := primary.Call(TtlMap.Exists(key), now);
        if answer == Found(true) || fallback == null {
          return;
        }
      }
      if fallback == null {
        return Found(false);
      }
      answer := fallback.Call(TtlMap.Exists(key), now);
    }

    method Increment(key: Bytes, delta: int64, ttl: int64, now: int) returns (answer: Answer)
      requires Separate()
      modifies primary, fallback
      ensures (State(), answer) == Step(old(State()), TtlMap.Increment(key, delta, ttl), now)
    {
      if primary != null {
        answer := primary.Call(TtlMap.Increment(key, delta, ttl), now);
        if answer.Count? {
          if fallback != null {
            var _ := fallback.Call(TtlMap.Set(key, FormatInt(answer.count), ttl), now);
          }
          return;
        }
        if fallback == null {
          return;
        }
      }
      if fallback == null {
        return Fail(Miss);
      }
      answer := fallback.Call(TtlMap.Increment(key, delta, ttl), now);
    }

    method TTL(key: Bytes, now: int) returns (answer: Answer)
      requires Separate()
      modifies primary, fallback
      ensures (State(), answer) == Step(old(State()), TtlMap.Ttl(key), now)
    {
      if primary != null {
        answer := primary.Call(TtlMap.Ttl(key), now);
        if !answer.Fail? || (answer.error != Miss && fallback == null) {
          return;
        }
      }
      if fallback == null {
        return Fail(Miss);
      }
      answer := fallback.Call(TtlMap.Ttl(key), now);
    }

    method Delete(key: Bytes, now: int) returns (answer: Answer)
      requires Separate()
      modifies primary, fallback
      ensures (State(), answer) == Step(old(State()), TtlMap.Delete(key), now)
    {
      answer := Done;
      if primary != null {
        answer := primary.Call(TtlMap.Delete(key), now);
      }
      if fallback != null {
        var second := fallback.Call(TtlMap.Delete(key), now);
        answer := Join(answer, second);
      }
    }
  }

  // ---------- what each call makes of the two stores ----------

  /** What a store shows under a key: there is no store, it cannot be reached, it has nothing live, or this entry. */
  datatype Seen = NoStore | Unreachable | Nothing | Holds(entry: Entry)

  function SeenIn(b: Option<Backend>, k: Bytes, now: int): Seen {
    if b.None? then NoStore
    else if !b.value.up then Unreachable
    else if k in b.value.entries && Alive(b.value.entries[k], now) then Holds(b.value.entries[k])
    else Nothing
  }

  /** A read is answered by the primary if it holds the key or there is no other store, and by the fallback otherwise. */
  function Shown(p: Seen, f: Seen): Seen {
    if p.Holds? || f.NoStore? then p else f
  }

  function ValueShown(x: Seen): Answer {
    match x
    case Holds(e) => Value(e.value)
    case Unreachable => Fail(Unavailable)
    case _ => Fail(Miss)
  }

  function PresenceShown(x: Seen): Answer {
    match x
    case Holds(_) => Found(true)
    case Unreachable => Fail(Unavailable)
    case _ => Found(false)
  }

  function LifetimeShown(x: Seen, now: int): Answer {
    match x
    case Holds(e) => Remaining(if e.expiry.Some? then e.expiry.value - now else 0)
    case Unreachable => Fail(Unavailable)
    case _ => Fail(Miss)
  }

  /** From `s` to `s'` neither store shows a change under the key. */
  predicate Unchanged(s: Pair, s': Pair, k: Bytes, now: int) {
    SeenIn(s'.primary, k, now) == SeenIn(s.primary, k, now) && SeenIn(s'.fallback, k, now) == SeenIn(s.fallback, k, now)
  }

  /** What one store shows after an operation of its own, and what it answers. */
  predicate OwnStepFits(b: Backend, op: Op, k: Bytes, now: int) {
    var (b', answer) := BackendStep(b, op, now);
    var before, after := SeenIn(Some(b), op.key, now), SeenIn(Some(b'), op.key, now);
    && (k != op.key || IsRead(op) || before.Unreachable? ==> SeenIn(Some(b'), k, now) == SeenIn(Some(b), k, now))
    && (op.Get? || op.Take? ==> answer == ValueShown(before))
    && (op.Exists? ==> answer == PresenceShown(before))
    && (op.Ttl? ==> answer == LifetimeShown(before, now))
    && (!before.Unreachable? && (op.Take? || op.Delete?) ==> after == Nothing)
    && (!before.Unreachable? && op.Set? ==> after == Holds(Entry(op.value, if op.ttl > 0 then Some(now + op.ttl) else None)))
    && (op.Set? || op.Delete? ==> answer == if before.Unreachable? then Fail(Unavailable) else Done)
  }

  lemma OwnStep(b: Backend, op: Op, k: Bytes, now: int)
    ensures OwnStepFits(b, op, k, now)
  {
    LiveLookup(b.entries, now, k);
    LiveLookup(b.entries, now, op.key);
    EffectAlive(Lookup(Live(b.entries, now), op.key), op, now);
  }

  /** Reads of any pair, with either store missing or down, are answered by what the stores show, and change nothing. */
  lemma ReadsAnswer(s: Pair, k: Bytes, now: int, other: Bytes)
    ensures var shown := Shown(SeenIn(s.primary, k, now), SeenIn(s.fallback, k, now));
            && Step(s, Get(k), now).1 == ValueShown(shown)
            && Step(s, Exists(k), now).1 == PresenceShown(shown)
            && Step(s, Ttl(k), now).1 == LifetimeShown(shown, now)
    ensures Unchanged(s, Step(s, Get(k), now).0, other, now)
    ensures Unchanged(s, Step(s, Exists(k), now).0, other, now)
    ensures Unchanged(s, Step(s, Ttl(k), now).0, other, now)
  {
    ReadAnswers(s, Get(k), now, other);
    ReadAnswers(s, Exists(k), now, other);
    ReadAnswers(s, Ttl(k), now, other);
  }

  lemma ReadAnswers(s: Pair, op: Op, now: int, other: Bytes)
    requires IsRead(op)
    ensures var shown := Shown(SeenIn(s.primary, op.key, now), SeenIn(s.fallback, op.key, now));
            Step(s, op, now).1 == if op.Get? then ValueShown(shown) else if op.Exists? then PresenceShown(shown) else LifetimeShown(shown, now)
    ensures Unchanged(s, Step(s, op, now).0, other, now)
  {
    hide BackendStep, SeenIn;
    SeenTells(s, op.key, now);
    OwnSteps(s, op, op.key, now);
    OwnSteps(s, op, other, now);
  }

  lemma OwnSteps(s: Pair, op: Op, k: Bytes, now: int)
    ensures s.primary.Some? ==> OwnStepFits(s.primary.value, op, k, now)
    ensures s.fallback.Some? ==> OwnStepFits(s.fallback.value, op, k, now)
  {
    if s.primary.Some? {
      OwnStep(s.primary.value, op, k, now);
    }
    if s.fallback.Some? {
      OwnStep(s.fallback.value, op, k, now);
    }
  }

  /** After Take no store that can be reached holds the key, and the caller has what Get would have returned. */
  lemma TakeAnswers(s: Pair, k: Bytes, now: int, other: Bytes)
    ensures var (s', answer) := Step(s, Take(k), now);
            var p, f := SeenIn(s'.primary, k, now), SeenIn(s'.fallback, k, now);
            && answer == ValueShown(Shown(SeenIn(s.primary, k, now), SeenIn(s.fallback, k, now)))
            && !p.Holds? && !f.Holds? && (other != k ==> Unchanged(s, s', other, now))
  {
    hide BackendStep, SeenIn;
    SeenTells(s, k, now);
    OwnSteps(s, Take(k), k, now);
    OwnSteps(s, Take(k), other, now);
    OwnSteps(s, Delete(k), k, now);
    OwnSteps(s, Delete(k), other, now);
  }

  /** What a write leaves in a store that can be reached. */
  function Left(before: Seen, after: Seen): Seen {
    if before.NoStore? || before.Unreachable? then before else after
  }

  /** The error of a write: none unless a store cannot be reached, and both errors if neither can. */
  function WriteAnswer(p: Seen, f: Seen): Answer {
    if p.Unreachable? && f.Unreachable? then Fail(Joined(Unavailable, Unavailable))
    else if p.Unreachable? || f.Unreachable? then Fail(Unavailable)
    else Done
  }

  /** Set and Delete reach every store that can be reached, and report every one that cannot. */
  lemma WritesAnswer(s: Pair, op: Op, now: int, other: Bytes)
    requires op.Set? || op.Delete?
    ensures var (s', answer) := Step(s, op, now);
            var p, f := SeenIn(s.primary, op.key, now), SeenIn(s.fallback, op.key, now);
            var after := if op.Set? then Holds(Entry(op.value, if op.ttl > 0 then Some(now + op.ttl) else None)) else Nothing;
            && answer == WriteAnswer(p, f)
            && SeenIn(s'.primary, op.key, now) == Left(p, after) && SeenIn(s'.fallback, op.key, now) == Left(f, after)
            && (other != op.key ==> Unchanged(s, s', other, now))
  {
    hide BackendStep, SeenIn;
    SeenTells(s, op.key, now);
    OwnSteps(s, op, op.key, now);
    OwnSteps(s, op, other, now);
  }

  /** What a store answers to an increment, and shows afterwards. */
  function CountIn(x: Seen, delta: int64): Answer {
    match x
    case NoStore => Fail(Miss)
    case Unreachable => Fail(Unavailable)
    case Nothing => Count(Wrap64(0 + delta))
    case Holds(e) =>
      (match ParseInt(e.value)
       case Parsed(n) => Count(Wrap64(n + delta))
       case Rejected(error, _) => Fail(BadCounter(error)))
  }

  function CountLeft(x: Seen, delta: int64, ttl: int64, now: int): Seen {
    if !CountIn(x, delta).Count? then x
    else
      Holds(Entry(FormatInt(CountIn(x, delta).count),
                  if ttl > 0 then Some(now + ttl) else if x.Holds? then x.entry.expiry else None))
  }

  lemma OwnIncrement(b: Backend, op: Op, now: int)
    requires op.Increment?
    ensures var (b', answer) := BackendStep(b, op, now);
            var before, after := SeenIn(Some(b), op.key, now), SeenIn(Some(b'), op.key, now);
            answer == CountIn(before, op.delta) && after == CountLeft(before, op.delta, op.ttl, now)
  {
    LiveLookup(b.entries, now, op.key);
    EffectAlive(Lookup(Live(b.entries, now), op.key), op, now);
  }

  /**
   * Increment counts in the primary if it can, and then the fallback, if it can be reached, holds the new count with the
   * lifetime of the call; otherwise the fallback counts by itself.
   */
  lemma IncrementAnswers(s: Pair, k: Bytes, delta: int64, ttl: int64, now: int, other: Bytes)
    ensures var (s', answer) := Step(s, Increment(k, delta, ttl), now);
            var p, f := SeenIn(s.primary, k, now), SeenIn(s.fallback, k, now);
            var counted := CountIn(p, delta);
            && answer == (if counted.Count? || f.NoStore? then counted else CountIn(f, delta))
            && SeenIn(s'.primary, k, now) == CountLeft(p, delta, ttl, now)
            && SeenIn(s'.fallback, k, now)
               == (if counted.Count? then Left(f, Holds(Entry(FormatInt(counted.count), if ttl > 0 then Some(now + ttl) else None)))
                   else CountLeft(f, delta, ttl, now))
            && (other != k ==> Unchanged(s, s', other, now))
  {
    hide BackendStep, SeenIn, CountIn, CountLeft;
    var op := Increment(k, delta, ttl);
    SeenTells(s, k, now);
    if s.primary.Some? {
      OwnIncrement(s.primary.value, op, now);
    }
    if s.fallback.Some? {
      OwnIncrement(s.fallback.value, op, now);
    }
    NoneCounts(delta, ttl, now);
    OwnSteps(s, op, other, now);
    var first := CountIn(SeenIn(s.primary, k, now), delta);
    if first.Count? {
      var mirror := Set(k, FormatInt(first.count), ttl);
      OwnSteps(s, mirror, k, now);
      OwnSteps(s, mirror, other, now);
    }
  }

  lemma NoneCounts(delta: int64, ttl: int64, now: int)
    ensures CountIn(NoStore, delta) == Fail(Miss) && CountLeft(NoStore, delta, ttl, now) == NoStore
  {
  }

  lemma SeenTells(s: Pair, k: Bytes, now: int)
    ensures SeenIn(s.primary, k, now).NoStore? <==> s.primary.None?
    ensures SeenIn(s.fallback, k, now).NoStore? <==> s.fallback.None?
  {
  }

  // ---------- one map, while the primary is up ----------

  function Both(p: Entries, f: Entries, primaryUp: bool): Pair {
    Pair(Some(Backend(p, primaryUp)), Some(Backend(f, true)))
  }

  /** An increment without a lifetime meets a counter that has one: the mirroring Set drops the expiry. */
  predicate DropsExpiry(m: Entries, op: Op, now: int) {
    && op.Increment? && op.ttl <= 0
    && var e := Lookup(Live(m, now), op.key);
       e.Some? && e.value.expiry.Some? && ParseInt(e.value.value).Parsed?
  }

  /** What a mirrored write leaves in the fallback. */
  lemma MirrorEffect(e: Option<Entry>, op: Op, now: int)
    requires op.Increment? && Effect(e, op, now).1.Count?
    ensures var mirrored := Effect(e, Set(op.key, FormatInt(Effect(e, op, now).1.count), op.ttl), now).0;
            mirrored == Effect(e, op, now).0 <==> !(op.ttl <= 0 && ExpiryOf(e).Some?)
  {
  }

  /**
   * While the primary is up and both stores hold the map's live view, a call answers like the map, leaves the
   * map's contents in the primary, and leaves them in the fallback exactly unless it drops an expiry.
   */
  lemma StepInSync(p: Entries, f: Entries, m: Entries, op: Op, now: int)
    requires Agree(p, m, now) && Agree(f, m, now)
    ensures var (s', answer) := Step(Both(p, f, true), op, now);
            var (m', spec) := Perform(m, op, now);
            && answer == spec
            && s' == Both(s'.primary.value.entries, s'.fallback.value.entries, true)
            && Agree(s'.primary.value.entries, m', now)
            && (Agree(s'.fallback.value.entries, m', now) <==> !DropsExpiry(m, op, now))
  {
    var v, k := Live(m, now), op.key;
    var e := Lookup(v, k);
    LiveLater(m, now, now);
    LiveLater(f, now, now);
    LiveLookup(m, now, k);
    PerformLive(m, op, now);
    AssignLookup(v, k);
    if op.Increment? && Effect(e, op, now).1.Count? {
      MirrorEffect(e, op, now);
      var mirror := Set(k, FormatInt(Effect(e, op, now).1.count), op.ttl);
      PerformLive(m, mirror, now);
      assert Lookup(Perform(m, op, now).0, k) == Effect(e, op, now).0;
      assert Lookup(Perform(m, mirror, now).0, k) == Effect(e, mirror, now).0;
    } else if op.Take? {
      PerformLive(m, Delete(k), now);
    }
  }

  /** Once the primary is down the fallback alone is the map; Set and Delete report the primary's error. */
  lemma StepAfterFailure(p: Entries, f: Entries, m: Entries, op: Op, now: int)
    requires Agree(f, m, now)
    ensures var (s', answer) := Step(Both(p, f, false), op, now);
            var (m', spec) := Perform(m, op, now);
            && answer == (if op.Set? || op.Delete? then Fail(Unavailable) else spec)
            && s' == Both(p, s'.fallback.value.entries, false)
            && Agree(s'.fallback.value.entries, m', now)
  {
  }

  // ---------- whole runs ----------

  /** The pair over a run whose events from number `failsAt` on find the primary down. */
  function Run(s: Pair, events: seq<Event>, failsAt: nat): (Pair, seq<Answer>)
    requires s.primary.Some?
    decreases |events|
  {
    if events == [] then (s, [])
    else
      var now := if failsAt == 0 then s.(primary := Some(s.primary.value.(up := false))) else s;
      var (s', answer) := Step(now, events[0].op, events[0].now);
      assert s'.primary.Some?;
      var (end, answers) := Run(s', events[1..], if failsAt == 0 then 0 else failsAt - 1);
      (end, [answer] + answers)
  }

  /** No increment before the failure drops an expiry. */
  predicate KeepsExpiries(m: Entries, events: seq<Event>, failsAt: nat)
    decreases |events|
  {
    events == [] || failsAt == 0 ||
    (!DropsExpiry(m, events[0].op, events[0].now)
     && KeepsExpiries(Perform(m, events[0].op, events[0].now).0, events[1..], failsAt - 1))
  }

  /** The map's answers, with the primary's error reported by the writes after the failure. */
  function Expected(m: Entries, events: seq<Event>, failsAt: nat): seq<Answer>
    decreases |events|
  {
    if events == [] then []
    else
      var (m', answer) := Perform(m, events[0].op, events[0].now);
      [if failsAt == 0 && (events[0].op.Set? || events[0].op.Delete?) then Fail(Unavailable) else answer]
      + Expected(m', events[1..], if failsAt == 0 then 0 else failsAt - 1)
  }

  function Final(m: Entries, events: seq<Event>): Entries
    decreases |events|
  {
    if events == [] then m else Final(Perform(m, events[0].op, events[0].now).0, events[1..])
  }

  function LastTime(events: seq<Event>, from: int): int {
    if events == [] then from else events[|events| - 1].now
  }

  /**
   * Fail-stop: wherever in a run the primary goes down, the pair answers throughout like one map that never
   * noticed, and what the fallback holds at the end is what that map holds. Until the primary goes down, it holds
   * that, too.
   */
  lemma {:induction false} FailureGoesUnnoticed(p: Entries, f: Entries, m: Entries, events: seq<Event>, from: int, failsAt: nat)
    requires Agree(p, m, from) && Agree(f, m, from) && Ordered(events, from) && KeepsExpiries(m, events, failsAt)
    ensures var (end, answers) := Run(Both(p, f, true), events, failsAt);
            && answers == Expected(m, events, failsAt)
            && end.fallback.Some? && Agree(end.fallback.value.entries, Final(m, events), LastTime(events, from))
            && (failsAt >= |events| ==>
                  end.primary.Some? && end.primary.value.up
                  && Agree(end.primary.value.entries, Final(m, events), LastTime(events, from)))
    decreases |events|
  {
    if events != [] {
      var Event(op, now) := events[0];
      if failsAt == 0 {
        FailsNow(p, f, m, events, from);
      } else {
        AgreeLater(p, m, from, now);
        AgreeLater(f, m, from, now);
        StepInSync(p, f, m, op, now);
        var s', m' := Step(Both(p, f, true), op, now).0, Perform(m, op, now).0;
        FailureGoesUnnoticed(s'.primary.value.entries, s'.fallback.value.entries, m', events[1..], now, failsAt - 1);
      }
    }
  }

  /** The first event finds the primary down. */
  lemma FailsNow(p: Entries, f: Entries, m: Entries, events: seq<Event>, from: int)
    requires Agree(f, m, from) && Ordered(events, from) && events != []
    ensures var (end, answers) := Run(Both(p, f, true), events, 0);
            && answers == Expected(m, events, 0)
            && end.fallback.Some? && Agree(end.fallback.value.entries, Final(m, events), LastTime(events, from))
  {
    assert Run(Both(p, f, true), events, 0) == Run(Both(p, f, false), events, 0);
    AfterFailure(p, f, m, events, from);
  }

  lemma {:induction false} AfterFailure(p: Entries, f: Entries, m: Entries, events: seq<Event>, from: int)
    requires Agree(f, m, from) && Ordered(events, from)
    ensures var (end, answers) := Run(Both(p, f, false), events, 0);
            && answers == Expected(m, events, 0)
            && end.fallback.Some? && Agree(end.fallback.value.entries, Final(m, events), LastTime(events, from))
    decreases |events|
  {
    if events != [] {
      var Event(op, now) := events[0];
      AgreeLater(f, m, from, now);
      StepAfterFailure(p, f, m, op, now);
      var s' := Step(Both(p, f, false), op, now).0;
      AfterFailure(p, s'.fallback.value.entries, Perform(m, op, now).0, events[1..], now);
    }
  }

  /**
   * A counter that expires at 11, incremented at 2 without a lifetime: when the primary then fails, a Get at
   * 20 finds in the fallback what the map has long dropped.
   */
  lemma DroppedExpiryShows()
    ensures var k: Bytes := [];
            var m := map[k := Entry(FormatInt(1), Some(11))];
            var add := Increment(k, 1, 0);
            var s' := Step(Both(m, m, true), add, 2).0;
            && s'.fallback.Some? && s'.primary.Some?
            && Step(Both(s'.primary.value.entries, s'.fallback.value.entries, false), Get(k), 20).1 == Value(FormatInt(2))
            && Perform(Perform(m, add, 2).0, Get(k), 20).1 == Fail(Miss)
  {
    hide FormatInt, ParseInt, Wrap64;
    var k: Bytes := [];
    var m := map[k := Entry(FormatInt(1), Some(11))];
    ParseFormat(1);
    assert Live(m, 2) == m;
    assert Lookup(m, k) == Some(m[k]);
    assert Effect(Some(m[k]), Increment(k, 1, 0), 2).1 == Count(2);
  }
}
