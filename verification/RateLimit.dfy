/** The rate limiter: counting hits in a store whose counters expire, over unbounded histories. */
module RateLimit {
  import opened Basics
  import opened Decimal
  import opened TtlMap
  import MemoryStore
  import Prefixes

  datatype Result = Limited(key: Bytes, count: int64, limit: int64, ttl: int) | Refused(error: CacheError) {
    predicate Exceeded()
      requires Limited?
    {
      limit > 0 && count >= limit
    }
  }

  // ---------- keys ----------

  /** The key of the store that counts for a caller's key. */
  function FullKeyOf(prefix: Bytes, key: Bytes): Bytes {
    Prefixes.Key(prefix, TrimSpace(key))
  }

  /** Callers share a counter exactly if their keys differ in surrounding white space at most. */
  lemma SameCounterIff(prefix: Bytes, a: Bytes, b: Bytes)
    ensures FullKeyOf(prefix, a) == FullKeyOf(prefix, b) <==> TrimSpace(a) == TrimSpace(b)
  {
    if FullKeyOf(prefix, a) == FullKeyOf(prefix, b) {
      Prefixes.KeysInjective(prefix, TrimSpace(a), TrimSpace(b));
    }
  }

  // ---------- the limiter on the contents of its store ----------

  function LifetimeOf(answer: Answer): int {
    if answer.Remaining? then answer.ttl else 0
  }

  /** Hit increments at one clock reading and asks for the lifetime at a later one. */
  function HitStep(items: Entries, key: Bytes, limit: int64, window: int64, at: int, later: int): (Entries, Result) {
    var (items', answer) := MemoryStore.Step(items, Increment(key, 1, window), at);
    if answer.Fail? then (items', Refused(answer.error))
    else
      var (items'', ttl) := MemoryStore.Step(items', Ttl(key), later);
      (items'', Limited(key, answer.count, limit, LifetimeOf(ttl)))
  }

  function PeekStep(items: Entries, key: Bytes, limit: int64, at: int, later: int): (Entries, Result) {
    var (items', answer) := MemoryStore.Step(items, Get(key), at);
    if answer.Fail? then (items', Limited(key, 0, limit, 0))
    else match ParseInt(answer.value)
         case Rejected(error, _) => (items', Refused(BadCounter(error)))
         case Parsed(count) =>
           var (items'', ttl) := MemoryStore.Step(items', Ttl(key), later);
           (items'', Limited(key, count, limit, LifetimeOf(ttl)))
  }

  class RateLimiter {
    const store: MemoryStore.Memory
    const prefix: Bytes

    constructor (store: MemoryStore.Memory, prefix: Bytes)
      ensures this.store == store && this.prefix == prefix
    {
      this.store, this.prefix := store, prefix;
    }

    function FullKey(key: Bytes): Bytes {
      FullKeyOf(prefix, key)
    }

    method Hit(key: Bytes, limit: int64, window: int64, at: int, later: int) returns (result: Result)
      modifies store
      ensures (store.Contents(), result) == HitStep(old(store.Contents()), FullKey(key), limit, window, at, later)
    {
      var fullKey := FullKey(key);
      var answer := store.Increment(fullKey, 1, window, at);
      if answer.Fail? {
        return Refused(answer.error);
      }
      var ttl := store.TTL(fullKey, later);
      result := Limited(fullKey, answer.count, limit, if ttl.Fail? then 0 else ttl.ttl);
    }

    method Peek(key: Bytes, limit: int64, at: int, later: int) returns (result: Result)
      modifies store
      ensures (store.Contents(), result) == PeekStep(old(store.Contents()), FullKey(key), limit, at, later)
    {
      var fullKey := FullKey(key);
      var value, answer := store.Get(fullKey, at);
      if answer.Fail? {
        return Limited(fullKey, 0, limit, 0);
      }
      match ParseInt(value[..])
      case Rejected(error, _) => return Refused(BadCounter(error));
      case Parsed(count) =>
        var ttl := store.TTL(fullKey, later);
        result := Limited(fullKey, count, limit, if ttl.Fail? then 0 else ttl.ttl);
    }

    method Reset(key: Bytes) returns (answer: Answer)
      modifies store
      ensures answer == Done && store.Contents() == Assign(old(store.Contents()), FullKey(key), None)
    {
      answer := store.Delete(FullKey(key));
      assert (store.Contents(), answer) == MemoryStore.Step(old(store.Contents()), TtlMap.Delete(FullKey(key)), 0);
    }
  }

  // ---------- histories ----------

  /** A hit in the past: when it came and how long its window was. */
  datatype Past = Past(at: int, window: int64)

  /** From `from` on, every hit came within the window of the one before it. */
  predicate Chained(hits: seq<Past>, from: nat) {
    forall i :: from < i < |hits| ==> hits[i].at - hits[i - 1].at < hits[i - 1].window
  }

  /** The length of the longest chained suffix. */
  function Streak(hits: seq<Past>): (n: nat)
    ensures n <= |hits| && (hits != [] ==> n > 0)
  {
    if |hits| <= 1 then |hits|
    else
      var i := |hits| - 1;
      if hits[i].at - hits[i - 1].at < hits[i - 1].window then Streak(hits[..i]) + 1 else 1
  }

  /** It is the longest: the suffix of that length is chained and no longer one is. */
  lemma {:induction false} StreakIsLongest(hits: seq<Past>, from: nat)
    requires from < |hits|
    ensures Chained(hits, from) <==> |hits| - Streak(hits) <= from
  {
    var i := |hits| - 1;
    if from < i {
      var front := hits[..i];
      StreakIsLongest(front, from);
      assert forall j :: 0 <= j < i ==> front[j] == hits[j];
    }
  }

  /** One use of the limiter with a caller's key; others may use the store in between, under their keys. */
  datatype Use =
    | Hit(key: Bytes, limit: int64, window: int64, at: int, later: int)
    | Peek(key: Bytes, limit: int64, at: int, later: int)
    | Reset(key: Bytes, at: int)
    | Other(op: Op, at: int)

  /** The use is about this key, up to surrounding white space. */
  predicate About(u: Use, key: Bytes) {
    !u.Other? && TrimSpace(u.key) == TrimSpace(key)
  }

  predicate OwnHit(u: Use, key: Bytes) {
    u.Hit? && About(u, key)
  }

  predicate Timed(uses: seq<Use>, from: int) {
    uses == [] ||
    (from <= uses[0].at && var end := EndOf(uses[0]); uses[0].at <= end && Timed(uses[1..], end))
  }

  function EndOf(u: Use): int {
    if u.Hit? || u.Peek? then u.later else u.at
  }

  /** Nobody else writes to the counter, and its hits have windows. */
  predicate Allowed(u: Use, prefix: Bytes, key: Bytes) {
    (OwnHit(u, key) ==> u.window > 0) && (u.Other? ==> u.op.key != FullKeyOf(prefix, key))
  }

  function UseStep(items: Entries, prefix: Bytes, u: Use): (Entries, Option<Result>) {
    match u
    case Hit(key, limit, window, at, later) =>
      var (m, r) := HitStep(items, FullKeyOf(prefix, key), limit, window, at, later); (m, Some(r))
    case Peek(key, limit, at, later) =>
      var (m, r) := PeekStep(items, FullKeyOf(prefix, key), limit, at, later); (m, Some(r))
    case Reset(key, at) => (Assign(items, FullKeyOf(prefix, key), None), None)
    case Other(op, at) => (MemoryStore.Step(items, op, at).0, None)
  }

  /** The hits that count for a key: a reset forgets them. */
  function Grown(hits: seq<Past>, u: Use, key: Bytes): seq<Past> {
    if !About(u, key) then hits
    else if u.Hit? then hits + [Past(u.at, u.window)]
    else if u.Reset? then []
    else hits
  }

  /** A use under another key leaves the counter alone. */
  lemma OthersLeave(items: Entries, prefix: Bytes, key: Bytes, u: Use)
    requires if u.Other? then u.op.key != FullKeyOf(prefix, key) else !About(u, key)
    ensures Lookup(UseStep(items, prefix, u).0, FullKeyOf(prefix, key)) == Lookup(items, FullKeyOf(prefix, key))
  {
    if !u.Other? {
      SameCounterIff(prefix, u.key, key);
    }
  }

  /** So whatever is done under one key, a peek under another one reports the same count and lifetime as without it. */
  lemma KeysAreIndependent(items: Entries, prefix: Bytes, key: Bytes, u: Use, limit: int64, at: int, later: int)
    requires !u.Other? && TrimSpace(u.key) != TrimSpace(key)
    ensures PeekStep(UseStep(items, prefix, u).0, FullKeyOf(prefix, key), limit, at, later).1
         == PeekStep(items, FullKeyOf(prefix, key), limit, at, later).1
  {
    hide FullKeyOf, UseStep;
    OthersLeave(items, prefix, key, u);
  }

  /** The counter as the closed form says it should be at `now`. */
  function Ideal(hits: seq<Past>, now: int): Option<Entry>
    requires |hits| <= MAX_INT64
  {
    if hits == [] then None
    else
      var last := hits[|hits| - 1];
      if last.at + last.window > now then Some(Entry(FormatInt(Streak(hits)), Some(last.at + last.window))) else None
  }

  predicate Tracks(items: Entries, key: Bytes, hits: seq<Past>, now: int)
    requires |hits| <= MAX_INT64
  {
    IfAlive(Lookup(items, key), now) == Ideal(hits, now) && (hits != [] ==> hits[|hits| - 1].at <= now)
  }

  /** What Peek must report at `at`, and Hit as its count. */
  function PeekCount(hits: seq<Past>, at: int): nat {
    if hits != [] && hits[|hits| - 1].at + hits[|hits| - 1].window > at then Streak(hits) else 0
  }

  /** The lifetime that is left at `now`. */
  function Left(hits: seq<Past>, now: int): int {
    if hits != [] && hits[|hits| - 1].at + hits[|hits| - 1].window > now
    then hits[|hits| - 1].at + hits[|hits| - 1].window - now
    else 0
  }

  predicate Says(result: Result, key: Bytes, count: int, limit: int64, ttl: int) {
    result.Limited? && result.key == key && result.count == count && result.limit == limit && result.ttl == ttl
  }

  lemma TracksLater(items: Entries, key: Bytes, hits: seq<Past>, now: int, later: int)
    requires |hits| <= MAX_INT64 && Tracks(items, key, hits, now) && now <= later
    ensures Tracks(items, key, hits, later)
  {
  }

  lemma HitTracks(items: Entries, key: Bytes, hits: seq<Past>, limit: int64, window: int64, at: int, later: int)
    requires |hits| < MAX_INT64 && Tracks(items, key, hits, at) && window > 0 && at <= later
    ensures var (items', result) := HitStep(items, key, limit, window, at, later);
            var hits' := hits + [Past(at, window)];
            && Tracks(items', key, hits', later)
            && Says(result, key, Streak(hits'), limit, Left(hits', later))
  {
    var hits' := hits + [Past(at, window)];
    assert hits'[..|hits|] == hits;
    if hits != [] {
      ParseFormat(Streak(hits));
    }
    var items1 := MemoryStore.Step(items, Increment(key, 1, window), at).0;
    assert Lookup(items1, key) == Some(Entry(FormatInt(Streak(hits')), Some(at + window)));
  }

  lemma PeekTracks(items: Entries, key: Bytes, hits: seq<Past>, limit: int64, at: int, later: int)
    requires |hits| <= MAX_INT64 && Tracks(items, key, hits, at) && at <= later
    ensures var (items', result) := PeekStep(items, key, limit, at, later);
            && Tracks(items', key, hits, later)
            && Says(result, key, PeekCount(hits, at), limit, Left(hits, later))
  {
    if hits != [] {
      ParseFormat(Streak(hits));
    }
    assert PeekCount(hits, at) > 0 <==> Ideal(hits, at).Some?;
  }

  /** What a use about the key must report, given the hits that count before it. */
  predicate Reports(hits: seq<Past>, prefix: Bytes, key: Bytes, u: Use, result: Option<Result>) {
    match u
    case Hit(_, limit, window, at, later) =>
      var hits' := hits + [Past(at, window)];
      result.Some? && Says(result.value, FullKeyOf(prefix, key), Streak(hits'), limit, Left(hits', later))
    case Peek(_, limit, at, later) =>
      result.Some? && Says(result.value, FullKeyOf(prefix, key), PeekCount(hits, at), limit, Left(hits, later))
    case _ => result == None
  }

  function Run(items: Entries, prefix: Bytes, uses: seq<Use>): (results: seq<Option<Result>>)
    ensures |results| == |uses|
    decreases |uses|
  {
    if uses == [] then []
    else
      var (items', result) := UseStep(items, prefix, uses[0]);
      [result] + Run(items', prefix, uses[1..])
  }

  /** The hits among the uses that count for a key. */
  function HitsOf(uses: seq<Use>, key: Bytes): (hits: seq<Past>)
    ensures |hits| <= |uses|
  {
    if uses == [] then [] else Grown(HitsOf(uses[..|uses| - 1], key), uses[|uses| - 1], key)
  }

  /** A use of the limiter leaves the counter as the closed form says, and reports what it says. */
  lemma UseTracks(items: Entries, prefix: Bytes, key: Bytes, hits: seq<Past>, u: Use)
    requires |hits| < MAX_INT64 && Tracks(items, FullKeyOf(prefix, key), hits, u.at)
    requires Allowed(u, prefix, key) && u.at <= EndOf(u)
    ensures var (items', result) := UseStep(items, prefix, u);
            && Tracks(items', FullKeyOf(prefix, key), Grown(hits, u, key), EndOf(u))
            && (About(u, key) ==> Reports(hits, prefix, key, u, result))
  {
    hide FullKeyOf, HitStep, PeekStep, Ideal, Streak, Left, TrimSpace;
    var k := FullKeyOf(prefix, key);
    if About(u, key) {
      SameCounterIff(prefix, u.key, key);
      match u {
        case Hit(_, limit, window, at, later) => HitTracks(items, k, hits, limit, window, at, later);
        case Peek(_, limit, at, later) => PeekTracks(items, k, hits, limit, at, later);
        case Reset(_, at) => NothingTracked(Assign(items, k, None), k, at);
      }
    } else {
      OthersLeave(items, prefix, key, u);
      SameTracks(items, UseStep(items, prefix, u).0, k, hits, u.at, EndOf(u));
    }
  }

  lemma SameTracks(items: Entries, items': Entries, key: Bytes, hits: seq<Past>, now: int, later: int)
    requires |hits| <= MAX_INT64 && Tracks(items, key, hits, now) && now <= later
    requires Lookup(items', key) == Lookup(items, key)
    ensures Tracks(items', key, hits, later)
  {
    TracksLater(items, key, hits, now, later);
  }

  lemma NothingTracked(items: Entries, key: Bytes, now: int)
    requires Lookup(items, key) == None
    ensures Tracks(items, key, [], now)
  {
  }

  /**
   * The closed form, for every key over every history with positive windows under that key, resets of it, and anything
   * at all under other keys: a hit reports the length of the longest suffix of hits since the last reset in which each
   * came within the window of the one before, and a peek reports that of the hits so far, or zero once the last window
   * is over. Both report the full key and what is left of the last window.
   */
  lemma {:induction false} ClosedForm(
      items: Entries, prefix: Bytes, key: Bytes, before: seq<Use>, uses: seq<Use>, from: int, i: nat)
    requires |before| + |uses| <= MAX_INT64 && i < |uses| && About(uses[i], key)
    requires Tracks(items, FullKeyOf(prefix, key), HitsOf(before, key), from) && Timed(uses, from)
    requires forall j :: 0 <= j < |uses| ==> Allowed(uses[j], prefix, key)
    ensures Reports(HitsOf(before + uses[..i], key), prefix, key, uses[i], Run(items, prefix, uses)[i])
    decreases |uses|
  {
    hide Tracks, Reports, UseStep, FullKeyOf;
    var u, hits := uses[0], HitsOf(before, key);
    var (items', result) := UseStep(items, prefix, u);
    assert (before + [u])[..|before + [u]| - 1] == before;
    TracksLater(items, FullKeyOf(prefix, key), hits, from, u.at);
    UseTracks(items, prefix, key, hits, u);
    if i == 0 {
      assert before + uses[..0] == before;
    } else {
      assert before + [u] + uses[1..][..i - 1] == before + uses[..i];
      ClosedForm(items', prefix, key, before + [u], uses[1..], EndOf(u), i - 1);
    }
  }

  // ---------- the bound ----------

  /** The hits under a key that fall into the half-open interval of one window length and are reported as not exceeded. */
  function Admitted(items: Entries, prefix: Bytes, key: Bytes, uses: seq<Use>, start: int, window: int64): set<nat> {
    set i | 0 <= i < |uses| && OwnHit(uses[i], key) && start <= uses[i].at < start + window
            && var r := Run(items, prefix, uses)[i]; r.Some? && r.value.Limited? && !r.value.Exceeded()
  }

  /** How many of the latest hits came at `start` or later. */
  function Recent(hits: seq<Past>, start: int): nat {
    if hits == [] || hits[|hits| - 1].at < start then 0 else Recent(hits[..|hits| - 1], start) + 1
  }

  /** Hits within one window of each other are one streak. */
  lemma {:induction false} RecentAreChained(hits: seq<Past>, window: int64, start: int, until: int)
    requires hits != [] && hits[|hits| - 1].at < start + window
    requires Uniform(hits, window, until)
    ensures Recent(hits, start) <= Streak(hits)
  {
    var front := hits[..|hits| - 1];
    if front != [] && front[|front| - 1].at >= start {
      RecentAreChained(front, window, start, until);
    }
  }

  lemma {:induction false} UsesInOrder(uses: seq<Use>, from: int, i: nat)
    requires Timed(uses, from) && i < |uses|
    ensures from <= uses[i].at <= EndOf(uses[i])
    ensures Timed(uses[i + 1..], EndOf(uses[i]))
  {
    if i > 0 {
      UsesInOrder(uses[1..], EndOf(uses[0]), i - 1);
      assert uses[1..][i..] == uses[i + 1..];
    }
  }

  lemma InOrder(uses: seq<Use>, from: int, i: nat, j: nat)
    requires Timed(uses, from) && i < j < |uses|
    ensures uses[i].at <= uses[j].at
  {
    UsesInOrder(uses, from, i);
    UsesInOrder(uses[i + 1..], EndOf(uses[i]), j - i - 1);
    assert uses[i + 1..][j - i - 1] == uses[j];
  }

  /** Hits in order, all with the same window, none later than `until`. */
  predicate Uniform(hits: seq<Past>, window: int64, until: int) {
    && (forall i :: 0 <= i < |hits| ==> hits[i].window == window && hits[i].at <= until)
    && (forall i, j :: 0 <= i < j < |hits| ==> hits[i].at <= hits[j].at)
  }

  lemma GrownUniform(hits: seq<Past>, u: Use, key: Bytes, window: int64, until: int)
    requires Uniform(hits, window, u.at) && u.at <= until && (OwnHit(u, key) ==> u.window == window)
    ensures Uniform(Grown(hits, u, key), window, until)
  {
  }

  lemma {:induction false} HitsInOrder(uses: seq<Use>, key: Bytes, from: int, window: int64, n: nat)
    requires Timed(uses, from) && n < |uses|
    requires forall i :: 0 <= i < |uses| && OwnHit(uses[i], key) ==> uses[i].window == window
    ensures Uniform(HitsOf(uses[..n], key), window, uses[n].at)
  {
    if n > 0 {
      HitsInOrder(uses, key, from, window, n - 1);
      InOrder(uses, from, n - 1, n);
      assert uses[..n][..n - 1] == uses[..n - 1];
      GrownUniform(HitsOf(uses[..n - 1], key), uses[n - 1], key, window, uses[n].at);
    }
  }

  predicate Sorted(uses: seq<Use>) {
    forall i, j :: 0 <= i < j < |uses| ==> uses[i].at <= uses[j].at
  }

  lemma TimedIsSorted(uses: seq<Use>, from: int)
    requires Timed(uses, from)
    ensures Sorted(uses)
  {
    forall i, j | 0 <= i < j < |uses|
      ensures uses[i].at <= uses[j].at
    {
      InOrder(uses, from, i, j);
    }
  }

  predicate RecentHit(u: Use, key: Bytes, start: int) {
    OwnHit(u, key) && start <= u.at
  }

  /** The key is not reset in the interval. */
  predicate KeptIn(u: Use, key: Bytes, start: int, end: int) {
    u.Reset? && About(u, key) ==> !(start <= u.at < end)
  }

  /** There are no more hits since `start` than the recent ones. */
  lemma {:induction false} CountRecent(uses: seq<Use>, key: Bytes, start: int, end: int, s: set<nat>)
    requires Sorted(uses) && forall i :: 0 <= i < |uses| ==> uses[i].at < end && KeptIn(uses[i], key, start, end)
    requires forall i :: i in s ==> i < |uses| && RecentHit(uses[i], key, start)
    ensures |s| <= Recent(HitsOf(uses, key), start)
    decreases |uses|
  {
    hide HitsOf, Recent, Grown, TrimSpace;
    if uses == [] {
      assert s == {};
    } else {
      var n := |uses| - 1;
      var front := uses[..n];
      assert forall i :: 0 <= i < n ==> front[i] == uses[i];
      HitsGrow(uses, key);
      RecentGrows(HitsOf(front, key), uses[n], key, start);
      if uses[n].at < start {
        assert s == {};
      } else {
        assert KeptIn(uses[n], key, start, end);
        CountRecent(front, key, start, end, s - {n});
      }
    }
  }

  lemma HitsGrow(uses: seq<Use>, key: Bytes)
    requires uses != []
    ensures HitsOf(uses, key) == Grown(HitsOf(uses[..|uses| - 1], key), uses[|uses| - 1], key)
  {
  }

  lemma RecentGrows(hits: seq<Past>, u: Use, key: Bytes, start: int)
    ensures Recent(Grown(hits, u, key), start)
         == if !About(u, key) || u.Peek? then Recent(hits, start)
            else if u.Reset? || u.at < start then 0
            else Recent(hits, start) + 1
  {
    assert OwnHit(u, key) ==> Grown(hits, u, key)[..|hits|] == hits;
  }

  /**
   * The bound: on a key without a live counter, with a fixed positive limit and window, over all histories,
   * every half-open interval of the window's length in which the key is not reset holds at most limit - 1 hits reported
   * as not exceeded.
   */
  lemma AtMostLimitMinusOne(
      items: Entries, prefix: Bytes, key: Bytes, limit: int64, window: int64, uses: seq<Use>, from: int, start: int)
    requires limit > 0 && window > 0 && |uses| <= MAX_INT64
    requires IfAlive(Lookup(items, FullKeyOf(prefix, key)), from) == None && Timed(uses, from)
    requires forall i :: 0 <= i < |uses| ==> Allowed(uses[i], prefix, key) && KeptIn(uses[i], key, start, start + window)
    requires forall i :: 0 <= i < |uses| && OwnHit(uses[i], key) ==> uses[i].window == window && uses[i].limit == limit
    ensures |Admitted(items, prefix, key, uses, start, window)| <= limit - 1
  {
    hide Run, Timed, HitsOf, Recent, TrimSpace;
    var admitted := Admitted(items, prefix, key, uses, start, window);
    if admitted != {} {
      var last := LastIn(admitted);
      var upTo := uses[..last + 1];
      TimedIsSorted(uses, from);
      assert forall i :: 0 <= i <= last ==> upTo[i] == uses[i];
      RecentBound(items, prefix, key, limit, window, uses, from, start, last);
      CountRecent(upTo, key, start, start + window, admitted);
    }
  }

  /** At a hit that is not exceeded, the hits since the start of the interval are fewer than the limit. */
  lemma RecentBound(
      items: Entries, prefix: Bytes, key: Bytes, limit: int64, window: int64, uses: seq<Use>, from: int, start: int, last: nat)
    requires limit > 0 && window > 0 && |uses| <= MAX_INT64
    requires IfAlive(Lookup(items, FullKeyOf(prefix, key)), from) == None && Timed(uses, from)
    requires forall i :: 0 <= i < |uses| ==> Allowed(uses[i], prefix, key)
    requires forall i :: 0 <= i < |uses| && OwnHit(uses[i], key) ==> uses[i].window == window && uses[i].limit == limit
    requires last in Admitted(items, prefix, key, uses, start, window)
    ensures Recent(HitsOf(uses[..last + 1], key), start) <= limit - 1
  {
    hide Run, Timed, Recent, TrimSpace;
    ReportedStreak(items, prefix, key, uses, from, last);
    HitsInOrder(uses, key, from, window, last);
    GrownUniform(HitsOf(uses[..last], key), uses[last], key, window, uses[last].at);
    assert uses[..last + 1][..last] == uses[..last];
    RecentAreChained(HitsOf(uses[..last + 1], key), window, start, uses[last].at);
  }

  /** A hit is reported as exceeded exactly when its limit is positive and its streak has reached it. */
  lemma ReportedStreak(items: Entries, prefix: Bytes, key: Bytes, uses: seq<Use>, from: int, i: nat)
    requires |uses| <= MAX_INT64 && i < |uses| && OwnHit(uses[i], key)
    requires IfAlive(Lookup(items, FullKeyOf(prefix, key)), from) == None && Timed(uses, from)
    requires forall j :: 0 <= j < |uses| ==> Allowed(uses[j], prefix, key)
    ensures var hits, r := HitsOf(uses[..i + 1], key), Run(items, prefix, uses)[i];
            && hits != [] && hits[|hits| - 1] == Past(uses[i].at, uses[i].window)
            && r.Some? && r.value.Limited?
            && (r.value.Exceeded() <==> uses[i].limit > 0 && Streak(hits) >= uses[i].limit)
  {
    hide Run, Timed, TrimSpace;
    assert Tracks(items, FullKeyOf(prefix, key), HitsOf([], key), from);
    ClosedForm(items, prefix, key, [], uses, from, i);
    assert [] + uses[..i] == uses[..i] == uses[..i + 1][..i];
  }

  /** The greatest of a non-empty set of numbers. */
  lemma {:induction false} LastIn(s: set<nat>) returns (last: nat)
    requires s != {}
    ensures last in s && forall i :: i in s ==> i <= last
    decreases |s|
  {
    var x :| x in s;
    last := x;
    if s != {x} {
      assert s == (s - {x}) + {x};
      var rest := LastIn(s - {x});
      last := if rest > x then rest else x;
      forall i | i in s
        ensures i <= last
      {
        assert i == x || i in s - {x};
      }
    }
  }
}
