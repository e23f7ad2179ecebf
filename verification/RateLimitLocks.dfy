/**
 * The rate limiter over the memory store under any number of goroutines, one critical section at a time. The
 * late delete of a Peek, or of the TTL behind a Hit, may drop a live counter, and each time that happens within
 * a window the limit starts anew.
 */
module RateLimitLocks {
  import opened Basics
  import opened Decimal
  import opened TtlMap
  import opened Journal
  import opened MemoryLocks
  import RateLimit

  // ---------- hits in a journal ----------

  predicate IsHit(a: Act, window: int64) {
    a.Added? && a.delta == 1 && a.bump == Some(Some(a.now + window))
  }

  /** From a position on, `k` is touched by hits with one window and by deferred deletes only. */
  predicate OnlyHits(log: seq<Act>, k: Bytes, window: int64, from: nat) {
    forall i :: from <= i < |log| && Touches(log[i], k) ==> log[i].Forgot? || IsHit(log[i], window)
  }

  predicate HarmlessFrom(log: seq<Act>, k: Bytes, from: nat) {
    forall i :: from <= i < |log| && log[i].key == k ==> Harmless(log[i])
  }

  function HitsIn(log: seq<Act>, from: nat, k: Bytes, window: int64): (hits: seq<RateLimit.Past>)
    ensures |hits| <= |log|
  {
    if |log| <= from then []
    else
      var last, front := log[|log| - 1], HitsIn(log[..|log| - 1], from, k, window);
      if last.Added? && last.key == k then front + [RateLimit.Past(last.now, window)] else front
  }

  lemma TimesFitFront(log: seq<Act>, n: nat, now: int)
    requires TimesFit(log, now) && n <= |log|
    ensures TimesFit(log[..n], now)
    ensures n < |log| && HasTime(log[n]) ==> TimesFit(log[..n], log[n].now)
  {
    assert forall i :: 0 <= i < n ==> log[..n][i] == log[i];
  }

  /** A journal in which the key starts out empty and is only hit, and nothing alive is dropped. */
  ghost predicate Segment(log: seq<Act>, from: nat, k: Bytes, window: int64) {
    && WellMade(log) && from <= |log| <= MAX_INT64 && window > 0
    && OnlyHits(log, k, window, from) && HarmlessFrom(log, k, from)
    && Lookup(Replay(log[..from]), k) == None
  }

  lemma SegmentFront(log: seq<Act>, from: nat, k: Bytes, window: int64, n: nat)
    requires Segment(log, from, k, window) && from <= n <= |log|
    ensures Segment(log[..n], from, k, window)
  {
    var front := log[..n];
    if n < |log| {
      ActAt(log, n);
    } else {
      assert front == log;
    }
    assert front[..from] == log[..from];
    assert forall i :: 0 <= i < n ==> front[i] == log[i];
  }

  /** The counter is what the closed form says, at every time that no act lies beyond. */
  lemma {:induction false} SegmentTracks(log: seq<Act>, from: nat, k: Bytes, window: int64, now: int)
    requires Segment(log, from, k, window) && TimesFit(log, now)
    ensures AliveEntry(Lookup(Replay(log), k), now) == RateLimit.Ideal(HitsIn(log, from, k, window), now)
    decreases |log|, 1
  {
    if from == |log| {
      SegmentStarts(log, k, window, now);
    } else {
      var front, last := log[..|log| - 1], log[|log| - 1];
      TimesFitFront(log, |log| - 1, now);
      SegmentEnds(log, from, k, window, now);
      if Touches(last, k) && last.Added? {
        HitCounts(log, from, k, window);
        HitTracks(log, from, k, window, now);
      } else {
        SegmentFront(log, from, k, window, |log| - 1);
        SegmentTracks(front, from, k, window, now);
        OtherTracks(log, k, now);
      }
    }
  }

  lemma SegmentStarts(log: seq<Act>, k: Bytes, window: int64, now: int)
    requires Segment(log, |log|, k, window)
    ensures AliveEntry(Lookup(Replay(log), k), now) == RateLimit.Ideal(HitsIn(log, |log|, k, window), now)
  {
    assert log[..|log|] == log;
  }

  lemma SegmentEnds(log: seq<Act>, from: nat, k: Bytes, window: int64, now: int)
    requires Segment(log, from, k, window) && TimesFit(log, now) && from < |log|
    ensures var last := log[|log| - 1];
            && (Touches(last, k) ==> last.now <= now && ((last.Forgot? && Harmless(last)) || IsHit(last, window)))
            && (last.Added? ==> last.now <= now && TimesFit(log, last.now))
  {
  }

  /** Neither a look, nor another key, nor a harmless deferred delete changes what is alive. */
  lemma OtherTracks(log: seq<Act>, k: Bytes, now: int)
    requires WellMade(log) && log != []
    requires var last := log[|log| - 1]; Touches(last, k) ==> last.Forgot? && Harmless(last) && last.now <= now
    ensures AliveEntry(Lookup(Replay(log), k), now) == AliveEntry(Lookup(Replay(log[..|log| - 1]), k), now)
  {
    ApplyLookup(Replay(log[..|log| - 1]), log[|log| - 1], k);
  }

  lemma HitTracks(log: seq<Act>, from: nat, k: Bytes, window: int64, now: int)
    requires from < |log| <= MAX_INT64
    requires var last, hits := log[|log| - 1], HitsIn(log, from, k, window);
             && last.Added? && last.key == k && last.now <= now
             && last.stored.entry == Entry(FormatInt(RateLimit.Streak(hits)), Some(last.now + window))
    ensures AliveEntry(Lookup(Replay(log), k), now) == RateLimit.Ideal(HitsIn(log, from, k, window), now)
  {
    var front, last := log[..|log| - 1], log[|log| - 1];
    ApplyLookup(Replay(front), last, k);
    IdealIs(HitsIn(front, from, k, window), last, window, now);
  }

  lemma IdealIs(hits: seq<RateLimit.Past>, a: Act, window: int64, now: int)
    requires |hits| < MAX_INT64 && a.Added? && a.now <= now
    requires var more := hits + [RateLimit.Past(a.now, window)];
             a.stored.entry == Entry(FormatInt(RateLimit.Streak(more)), Some(a.now + window))
    ensures AliveEntry(Some(a.stored), now) == RateLimit.Ideal(hits + [RateLimit.Past(a.now, window)], now)
  {
  }

  /** A hit reports the streak that it ends. */
  lemma {:induction false} HitCounts(log: seq<Act>, from: nat, k: Bytes, window: int64)
    requires Segment(log, from, k, window) && from < |log|
    requires var last := log[|log| - 1]; last.Added? && last.key == k && TimesFit(log, last.now)
    ensures var last, streak := log[|log| - 1], RateLimit.Streak(HitsIn(log, from, k, window));
            last.count == streak && last.stored.entry == Entry(FormatInt(streak), Some(last.now + window))
    decreases |log|, 0
  {
    hide WellMade, OnlyHits, HarmlessFrom, Adds, AliveEntry, FormatInt, RateLimit.Ideal, RateLimit.Streak;
    var front, last := log[..|log| - 1], log[|log| - 1];
    SegmentFront(log, from, k, window, |log| - 1);
    TimesFitFront(log, |log| - 1, last.now);
    SegmentEnds(log, from, k, window, last.now);
    SegmentTracks(front, from, k, window, last.now);
    LastAdds(log);
    var hits := HitsIn(front, from, k, window);
    assert HitsIn(log, from, k, window) == hits + [RateLimit.Past(last.now, window)];
    CountsOn(hits, window, AliveEntry(Lookup(Replay(front), k), last.now), last);
  }

  /** One more hit on a counter that is what the closed form says. */
  lemma CountsOn(hits: seq<RateLimit.Past>, window: int64, e: Option<Entry>, a: Act)
    requires |hits| < MAX_INT64 && IsHit(a, window) && e == RateLimit.Ideal(hits, a.now)
    requires Adds(e, a.delta, a.bump, a.stored.entry, a.count)
    ensures var streak := RateLimit.Streak(hits + [RateLimit.Past(a.now, window)]);
            a.count == streak && a.stored.entry == Entry(FormatInt(streak), Some(a.now + window))
  {
    IdealCounter(hits, a.now);
    StreakGrows(hits, RateLimit.Past(a.now, window));
  }

  lemma IdealCounter(hits: seq<RateLimit.Past>, now: int)
    requires |hits| <= MAX_INT64
    ensures Counter(RateLimit.Ideal(hits, now)) == Parsed(RateLimit.PeekCount(hits, now))
  {
    if hits != [] {
      ParseFormat(RateLimit.Streak(hits));
    }
  }

  lemma StreakGrows(hits: seq<RateLimit.Past>, hit: RateLimit.Past)
    ensures RateLimit.Streak(hits + [hit]) == RateLimit.PeekCount(hits, hit.at) + 1
  {
    assert (hits + [hit])[..|hits|] == hits;
  }

  // ---------- counting within a window ----------

  lemma {:induction false} HitsUniform(log: seq<Act>, from: nat, k: Bytes, window: int64, now: int)
    requires TimesFit(log, now)
    ensures RateLimit.Uniform(HitsIn(log, from, k, window), window, now)
  {
    if |log| > from {
      var last := log[|log| - 1];
      TimesFitFront(log, |log| - 1, now);
      HitsUniform(log[..|log| - 1], from, k, window, if HasTime(last) then last.now else now);
    }
  }

  predicate RecentHit(a: Act, k: Bytes, start: int) {
    a.Added? && a.key == k && start <= a.now
  }

  /** There are no more hits since `start` than the recent ones. */
  lemma {:induction false} CountRecent(log: seq<Act>, from: nat, k: Bytes, window: int64, start: int, now: int, s: set<nat>)
    requires TimesFit(log, now) && from <= |log|
    requires forall i :: i in s ==> from <= i < |log| && RecentHit(log[i], k, start)
    ensures |s| <= RateLimit.Recent(HitsIn(log, from, k, window), start)
    decreases |log|
  {
    if |log| == from {
      assert s == {};
    } else {
      var n := |log| - 1;
      var front := log[..n];
      TimesFitFront(log, n, now);
      assert forall i :: 0 <= i < n ==> front[i] == log[i];
      if n in s {
        CountRecent(front, from, k, window, start, now, s - {n});
        var hits := HitsIn(log, from, k, window);
        assert hits[..|hits| - 1] == HitsIn(front, from, k, window);
      } else if log[n].Added? && log[n].key == k && log[n].now < start {
        assert s == {};
      } else {
        CountRecent(front, from, k, window, start, now, s);
        if log[n].Added? && log[n].key == k {
          var hits := HitsIn(log, from, k, window);
          assert hits[..|hits| - 1] == HitsIn(front, from, k, window);
        }
      }
    }
  }

  /** A hit in the half-open interval of one window length that is reported as not exceeded. */
  predicate Admits(a: Act, k: Bytes, limit: int64, window: int64, start: int) {
    RecentHit(a, k, start) && a.now < start + window && !RateLimit.Limited(k, a.count, limit, 0).Exceeded()
  }

  /** Without drops, a window holds at most limit - 1 of them. */
  lemma SegmentBound(log: seq<Act>, from: nat, k: Bytes, limit: int64, window: int64, start: int, now: int, s: set<nat>)
    requires Segment(log, from, k, window) && TimesFit(log, now) && limit > 0
    requires forall i :: i in s ==> from <= i < |log| && Admits(log[i], k, limit, window, start)
    ensures |s| <= limit - 1
  {
    if s != {} {
      var last := RateLimit.LastIn(s);
      var upTo := log[..last + 1];
      SegmentFront(log, from, k, window, last + 1);
      TimesUpTo(log, last, now);
      assert upTo[last] == log[last];
      RecentBound(upTo, from, k, limit, window, start);
      CountRecent(upTo, from, k, window, start, log[last].now, s);
    }
  }

  lemma RecentBound(log: seq<Act>, from: nat, k: Bytes, limit: int64, window: int64, start: int)
    requires Segment(log, from, k, window) && from < |log| && limit > 0
    requires var last := log[|log| - 1]; Admits(last, k, limit, window, start) && TimesFit(log, last.now)
    ensures RateLimit.Recent(HitsIn(log, from, k, window), start) <= limit - 1
  {
    var last := log[|log| - 1];
    HitCounts(log, from, k, window);
    HitsUniform(log, from, k, window, last.now);
    RateLimit.RecentAreChained(HitsIn(log, from, k, window), window, start, last.now);
  }

  lemma TimesUpTo(log: seq<Act>, last: nat, now: int)
    requires TimesFit(log, now) && last < |log| && HasTime(log[last])
    ensures TimesFit(log[..last + 1], log[last].now)
  {
    assert forall i :: 0 <= i <= last ==> log[..last + 1][i] == log[i];
  }

  // ---------- the bound, with drops ----------

  function Admitted(log: seq<Act>, k: Bytes, limit: int64, window: int64, start: int): set<nat> {
    set i | 0 <= i < |log| && Admits(log[i], k, limit, window, start)
  }

  /** The act drops a counter that is still alive. */
  predicate Drop(a: Act, k: Bytes) {
    a.Forgot? && a.key == k && !Harmless(a)
  }

  /** The drops within the interval. */
  function Drops(log: seq<Act>, k: Bytes, window: int64, start: int): set<nat> {
    set i | 0 <= i < |log| && Drop(log[i], k) && start <= log[i].now < start + window
  }

  /** The last drop before position n, or n if there is none. */
  function LastDrop(log: seq<Act>, k: Bytes, n: nat): (p: nat)
    requires n <= |log|
    ensures p <= n && (p < n ==> Drop(log[p], k))
    ensures forall i :: 0 <= i < n && Drop(log[i], k) ==> i <= p < n
  {
    if n == 0 then 0
    else if Drop(log[n - 1], k) then n - 1
    else var p := LastDrop(log, k, n - 1); if p == n - 1 then n else p
  }

  /** limit - 1 hits, and as many again for every drop. */
  function Allowance(limit: int64, drops: nat): int {
    if drops == 0 then limit - 1 else Allowance(limit, drops - 1) + (limit - 1)
  }

  lemma {:induction false} AllowanceIs(limit: int64, drops: nat)
    ensures Allowance(limit, drops) == (limit - 1) * (drops + 1)
  {
    if drops > 0 {
      AllowanceIs(limit, drops - 1);
      assert (limit - 1) * drops + (limit - 1) == (limit - 1) * (drops + 1);
    }
  }

  lemma {:induction false} AllowanceGrows(limit: int64, a: nat, b: nat)
    requires a <= b && limit > 0
    ensures Allowance(limit, a) <= Allowance(limit, b)
    decreases b
  {
    if a < b {
      AllowanceGrows(limit, a, b - 1);
    }
  }

  lemma {:induction false} BoundWithDrops(log: seq<Act>, k: Bytes, limit: int64, window: int64, start: int, now: int)
    requires WellMade(log) && |log| <= MAX_INT64 && TimesFit(log, now) && OnlyHits(log, k, window, 0)
    requires limit > 0 && window > 0
    ensures |Admitted(log, k, limit, window, start)| <= Allowance(limit, |Drops(log, k, window, start)|)
    decreases |log|
  {
    var p := LastDrop(log, k, |log|);
    if p == |log| {
      assert Segment(log, 0, k, window) by { assert log[..0] == []; }
      SegmentBound(log, 0, k, limit, window, start, now, Admitted(log, k, limit, window, start));
      AllowanceGrows(limit, 0, |Drops(log, k, window, start)|);
    } else {
      FrontOnlyHits(log, k, window, p);
      TimesFitFront(log, p, now);
      BoundWithDrops(log[..p], k, limit, window, start, now);
      BoundAtDrop(log, k, limit, window, start, now, p);
    }
  }

  /** From the bound before the last drop to the bound for all. */
  lemma BoundAtDrop(log: seq<Act>, k: Bytes, limit: int64, window: int64, start: int, now: int, p: nat)
    requires WellMade(log) && |log| <= MAX_INT64 && TimesFit(log, now) && OnlyHits(log, k, window, 0)
    requires limit > 0 && window > 0
    requires p < |log| && Drop(log[p], k) && forall i :: p < i < |log| ==> !Drop(log[i], k)
    requires |Admitted(log[..p], k, limit, window, start)| <= Allowance(limit, |Drops(log[..p], k, window, start)|)
    ensures |Admitted(log, k, limit, window, start)| <= Allowance(limit, |Drops(log, k, window, start)|)
  {
    var all := Admitted(log, k, limit, window, start);
    var earlier, late := Admitted(log[..p], k, limit, window, start), set i | i in all && i > p;
    SplitAt(log, k, limit, window, start, p);
    AfterDrop(log, k, window, p);
    SegmentBound(log, p + 1, k, limit, window, start, now, late);
    if log[p].now < start {
      NothingBefore(log, k, limit, window, start, now, p);
    } else if start + window <= log[p].now {
      NothingBehind(log, k, limit, window, start, now, p);
    }
    BoundsAdd(earlier, late, Drops(log[..p], k, window, start), Drops(log, k, window, start), p, limit);
  }

  lemma NothingBefore(log: seq<Act>, k: Bytes, limit: int64, window: int64, start: int, now: int, p: nat)
    requires TimesFit(log, now) && p < |log| && Drop(log[p], k) && log[p].now < start
    ensures Admitted(log[..p], k, limit, window, start) == {}
  {
    forall i | 0 <= i < p && Admits(log[..p][i], k, limit, window, start)
      ensures false
    {
      assert HasTime(log[i]) && HasTime(log[p]);
    }
  }

  lemma NothingBehind(log: seq<Act>, k: Bytes, limit: int64, window: int64, start: int, now: int, p: nat)
    requires TimesFit(log, now) && p < |log| && Drop(log[p], k) && start + window <= log[p].now
    ensures (set i | i in Admitted(log, k, limit, window, start) && i > p) == {}
  {
    forall i | p < i < |log| && Admits(log[i], k, limit, window, start)
      ensures false
    {
      assert HasTime(log[i]) && HasTime(log[p]);
    }
  }

  lemma FrontOnlyHits(log: seq<Act>, k: Bytes, window: int64, p: nat)
    requires WellMade(log) && OnlyHits(log, k, window, 0) && p < |log|
    ensures WellMade(log[..p]) && OnlyHits(log[..p], k, window, 0)
  {
    ActAt(log, p);
    assert forall i :: 0 <= i < p ==> log[..p][i] == log[i];
  }

  /** What is admitted came before the drop or comes after it. */
  lemma SplitAt(log: seq<Act>, k: Bytes, limit: int64, window: int64, start: int, p: nat)
    requires p < |log| && Drop(log[p], k)
    ensures var all := Admitted(log, k, limit, window, start);
            all == Admitted(log[..p], k, limit, window, start) + (set i | i in all && i > p)
    ensures Drops(log[..p], k, window, start) <= Drops(log, k, window, start)
    ensures p !in Drops(log[..p], k, window, start)
    ensures start <= log[p].now < start + window ==> p in Drops(log, k, window, start)
  {
    assert forall i :: 0 <= i < p ==> log[..p][i] == log[i];
  }

  /** Behind the last drop the key starts out empty. */
  lemma AfterDrop(log: seq<Act>, k: Bytes, window: int64, p: nat)
    requires WellMade(log) && |log| <= MAX_INT64 && window > 0 && OnlyHits(log, k, window, 0)
    requires p < |log| && Drop(log[p], k) && forall i :: p < i < |log| ==> !Drop(log[i], k)
    ensures Segment(log, p + 1, k, window)
  {
    EmptyAfterDrop(log, k, p);
    assert OnlyHits(log, k, window, p + 1);
    assert HarmlessFrom(log, k, p + 1);
  }

  lemma EmptyAfterDrop(log: seq<Act>, k: Bytes, p: nat)
    requires p < |log| && Drop(log[p], k)
    ensures Lookup(Replay(log[..p + 1]), k) == None
  {
    var upTo := log[..p + 1];
    assert upTo[..p] == log[..p] && upTo[p] == log[p];
    ApplyLookup(Replay(log[..p]), log[p], k);
  }

  /** Each part has its own allowance, and a part outside the interval needs none. */
  lemma BoundsAdd(earlier: set<nat>, late: set<nat>, before: set<nat>, drops: set<nat>, p: nat, limit: int64)
    requires before <= drops && p !in before && limit > 0
    requires |earlier| <= Allowance(limit, |before|) && |late| <= limit - 1
    requires p in drops || earlier == {} || late == {}
    ensures |earlier + late| <= Allowance(limit, |drops|)
  {
    UnionSize(earlier, late);
    Subset(before, drops);
    if p in drops {
      Larger(before, drops, p);
    }
    AllowancesAdd(limit, |earlier|, |late|, |before|, |drops|);
  }

  lemma AllowancesAdd(limit: int64, earlier: nat, late: nat, before: nat, drops: nat)
    requires limit > 0 && before <= drops && earlier <= Allowance(limit, before) && late <= limit - 1
    requires before < drops || earlier == 0 || late == 0
    ensures earlier + late <= Allowance(limit, drops)
  {
    if before < drops {
      AllowanceGrows(limit, before + 1, drops);
    } else {
      AllowanceGrows(limit, 0, drops);
    }
  }

  lemma Larger(a: set<nat>, b: set<nat>, p: nat)
    requires a <= b && p in b && p !in a
    ensures |a| < |b|
  {
    Subset(a, b - {p});
  }

  lemma UnionSize(a: set<nat>, b: set<nat>)
    ensures |a + b| <= |a| + |b|
  {
    assert a + b == a + (b - a);
    Subset(b - a, b);
  }

  lemma Subset(a: set<nat>, b: set<nat>)
    requires a <= b
    ensures |a| <= |b|
  {
    assert b == a + (b - a);
  }

  // ---------- all interleavings ----------

  /** Hits with one window, and reads, on `k`; anything on other keys. */
  predicate HitsOnly(l: Label, k: Bytes, window: int64) {
    match l
    case Stamp(_, key, _, _) => key != k
    case TakeNow(_, key) => key != k
    case DeleteNow(_, key) => key != k
    case IncrementNow(_, key, delta, ttl) => key == k ==> delta == 1 && ttl == window
    case _ => true
  }

  predicate OnlyHit(s: State, k: Bytes, window: int64) {
    OnlyHits(s.log, k, window, 0) && forall t :: t in s.tasks && s.tasks[t].Storing? ==> s.tasks[t].key != k
  }

  lemma StepHits(s: State, l: Label, k: Bytes, window: int64)
    requires OnlyHit(s, k, window) && HitsOnly(l, k, window) && window > 0
    ensures OnlyHit(Step(s, l), k, window) && |Step(s, l).log| <= |s.log| + 1
  {
  }

  lemma {:induction false} RunHits(run: seq<State>, labels: seq<Label>, k: Bytes, window: int64, n: nat)
    requires IsRunFromEmpty(run, labels) && n <= |labels| && window > 0
    requires forall i :: 0 <= i < |labels| ==> HitsOnly(labels[i], k, window)
    ensures OnlyHit(run[n], k, window) && |run[n].log| <= n
  {
    if n > 0 {
      RunHits(run, labels, k, window, n - 1);
      assert StepAt(run, labels, n - 1);
      StepHits(run[n - 1], labels[n - 1], k, window);
    }
  }

  /** The position behind the last drop before j, or the start. */
  function Since(log: seq<Act>, k: Bytes, j: nat): (from: nat)
    requires j <= |log|
    ensures from <= j
  {
    var p := LastDrop(log, k, j);
    if p == j then 0 else p + 1
  }

  lemma SegmentSince(log: seq<Act>, k: Bytes, window: int64, j: nat)
    requires WellMade(log) && |log| <= MAX_INT64 && window > 0 && OnlyHits(log, k, window, 0) && j <= |log|
    ensures Segment(log[..j], Since(log, k, j), k, window)
  {
    var upTo, p := log[..j], LastDrop(log, k, j);
    if j < |log| {
      FrontOnlyHits(log, k, window, j);
    } else {
      assert upTo == log;
    }
    assert forall i :: 0 <= i < j ==> upTo[i] == log[i];
    if p < j {
      AfterDrop(upTo, k, window, p);
    } else {
      assert upTo[..0] == [];
      assert HarmlessFrom(upTo, k, 0);
    }
  }

  /** Every hit is answered with its streak, counted from the last drop. */
  lemma HitsReportStreaks(run: seq<State>, labels: seq<Label>, n: nat, k: Bytes, window: int64, i: nat)
    requires IsRunFromEmpty(run, labels) && n <= |labels| <= MAX_INT64 && window > 0
    requires forall j :: 0 <= j < |labels| ==> HitsOnly(labels[j], k, window)
    requires i < |run[n].answers| && run[n].answers[i].key == k && run[n].answers[i].answer.Count?
    ensures var log, r := run[n].log, run[n].answers[i];
            && r.at < |log|
            && r.answer.count == RateLimit.Streak(HitsIn(log[..r.at + 1], Since(log, k, r.at + 1), k, window))
  {
    EveryInterleaving(run, labels, n);
    RunHits(run, labels, k, window, n);
    var log, r := run[n].log, run[n].answers[i];
    assert Justified(log, r);
    StreakAt(log, k, window, r.at, run[n].clock);
  }

  lemma StreakAt(log: seq<Act>, k: Bytes, window: int64, j: nat, now: int)
    requires WellMade(log) && |log| <= MAX_INT64 && window > 0 && OnlyHits(log, k, window, 0) && TimesFit(log, now)
    requires j < |log| && log[j].Added? && log[j].key == k
    ensures log[j].count == RateLimit.Streak(HitsIn(log[..j + 1], Since(log, k, j + 1), k, window))
  {
    hide WellMade, Segment, HitsIn, RateLimit.Streak, Harmless;
    SegmentSince(log, k, window, j + 1);
    TimesUpTo(log, j, now);
    assert log[..j + 1][j] == log[j];
    assert LastDrop(log, k, j + 1) != j;
    HitCounts(log[..j + 1], Since(log, k, j + 1), k, window);
  }

  /** The look that an answer goes back to, before a late delete if there was one. */
  function LookOf(log: seq<Act>, at: nat): nat
    requires at < |log|
  {
    if log[at].Forgot? then log[at].lookedAt else at
  }

  /**
   * Every Peek that finds a counter reports the streak of the hits from the last drop to its look, within the window of
   * the last of them; it misses exactly if there is no such hit, or that window is over.
   */
  lemma PeeksReportStreaks(run: seq<State>, labels: seq<Label>, n: nat, k: Bytes, window: int64, i: nat)
    requires IsRunFromEmpty(run, labels) && n <= |labels| <= MAX_INT64 && window > 0
    requires forall j :: 0 <= j < |labels| ==> HitsOnly(labels[j], k, window)
    requires i < |run[n].answers| && run[n].answers[i].key == k
    requires run[n].answers[i].answer.Value? || run[n].answers[i].answer == Fail(Miss)
    ensures var log, r := run[n].log, run[n].answers[i];
            && r.at < |log| <= MAX_INT64 && LookOf(log, r.at) <= |log|
            && var j := LookOf(log, r.at);
               var count := RateLimit.PeekCount(HitsIn(log[..j], Since(log, k, j), k, window), r.now);
               if r.answer.Value? then count > 0 && ParseInt(r.answer.value) == Parsed(count) else count == 0
  {
    EveryInterleaving(run, labels, n);
    RunHits(run, labels, k, window, n);
    var s := run[n];
    var r := s.answers[i];
    assert Justified(s.log, r);
    ActAt(s.log, r.at);
    var j := LookOf(s.log, r.at);
    assert s.log[..r.at][..j] == s.log[..j] && (j < r.at ==> s.log[..r.at][j] == s.log[j]);
    LookTimed(s, i, j);
    SeenAt(s.log, k, window, j, r.now);
  }

  lemma LookTimed(s: State, i: nat, j: nat)
    requires AnswersTimed(s) && TimesFit(s.log, s.clock) && i < |s.answers| && j <= s.answers[i].at < |s.log|
    ensures TimesFit(s.log[..j], s.answers[i].now)
    ensures HasTime(s.log[s.answers[i].at]) ==> s.log[s.answers[i].at].now <= s.answers[i].now
  {
    assert forall m :: 0 <= m < j ==> s.log[..j][m] == s.log[m];
  }

  /** What is alive under the key before act j. */
  lemma SeenAt(log: seq<Act>, k: Bytes, window: int64, j: nat, now: int)
    requires WellMade(log) && |log| <= MAX_INT64 && window > 0 && OnlyHits(log, k, window, 0) && j < |log|
    requires log[j].Looked? && log[j].key == k && TimesFit(log[..j], now)
    ensures var count := RateLimit.PeekCount(HitsIn(log[..j], Since(log, k, j), k, window), now);
            && (Seen(log[j], now).Some? <==> count > 0)
            && (count > 0 ==> ParseInt(Seen(log[j], now).value.value) == Parsed(count))
  {
    SegmentSince(log, k, window, j);
    SegmentTracks(log[..j], Since(log, k, j), k, window, now);
    ActAt(log, j);
    IdealCounter(HitsIn(log[..j], Since(log, k, j), k, window), now);
  }

  /** The answer says not exceeded to a hit that counted within the interval. */
  predicate AdmittedAnswer(s: State, i: nat, k: Bytes, limit: int64, window: int64, start: int)
    requires i < |s.answers|
  {
    var r := s.answers[i];
    && r.key == k && r.answer.Count? && !RateLimit.Limited(k, r.answer.count, limit, 0).Exceeded()
    && r.at < |s.log| && s.log[r.at].Added? && start <= s.log[r.at].now < start + window
  }

  function AdmittedAnswers(s: State, k: Bytes, limit: int64, window: int64, start: int): set<nat> {
    set i | 0 <= i < |s.answers| && AdmittedAnswer(s, i, k, limit, window, start)
  }

  /** Distinct answers go back to distinct acts. */
  lemma {:induction false} AsManyActs(answers: seq<Return>, given: set<nat>, acts: set<nat>)
    requires AnsweredOnce(answers)
    requires forall i :: i in given ==> i < |answers| && answers[i].answer != UNAVAILABLE && answers[i].at in acts
    ensures |given| <= |acts|
    decreases |given|
  {
    if given != {} {
      var i :| i in given;
      AsManyActs(answers, given - {i}, acts - {answers[i].at});
    }
  }

  /**
   * The bound at lock granularity, over every interleaving of Hit, Peek and TTL on one key with a fixed positive
   * limit and window, and anything on other keys: a half-open interval of the window's length holds at most
   * limit - 1 hits that are told they are not exceeded, and as many again for every live counter that a late
   * delete drops within the interval.
   */
  lemma AtMostLimitMinusOnePerDrop(
      run: seq<State>, labels: seq<Label>, n: nat, k: Bytes, limit: int64, window: int64, start: int)
    requires IsRunFromEmpty(run, labels) && n <= |labels| <= MAX_INT64 && limit > 0 && window > 0
    requires forall i :: 0 <= i < |labels| ==> HitsOnly(labels[i], k, window)
    ensures var drops := Drops(run[n].log, k, window, start);
            && |AdmittedAnswers(run[n], k, limit, window, start)| <= (limit - 1) * (|drops| + 1)
            && forall i :: i in drops ==> DropsNewerWrite(run[n].log, i)
  {
    EveryInterleaving(run, labels, n);
    RunHits(run, labels, k, window, n);
    BoundWithDrops(run[n].log, k, limit, window, start, run[n].clock);
    AllowanceIs(limit, |Drops(run[n].log, k, window, start)|);
    AnsweredActs(run[n], k, limit, window, start);
    forall i | i in Drops(run[n].log, k, window, start)
      ensures DropsNewerWrite(run[n].log, i)
    {
      LostWasWrittenAfterLook(run[n].log, i);
    }
  }

  /** There are no more such answers than such acts. */
  lemma AnsweredActs(s: State, k: Bytes, limit: int64, window: int64, start: int)
    requires Inv(s) && Once(s)
    ensures |AdmittedAnswers(s, k, limit, window, start)| <= |Admitted(s.log, k, limit, window, start)|
  {
    var given, acts := AdmittedAnswers(s, k, limit, window, start), Admitted(s.log, k, limit, window, start);
    forall i | i in given
      ensures s.answers[i].answer != UNAVAILABLE && s.answers[i].at in acts
    {
      assert Justified(s.log, s.answers[i]);
    }
    AsManyActs(s.answers, given, acts);
  }

  // ---------- an interleaving that admits more ----------

  /** A Peek judges a counter expired, a Hit starts it anew, the Peek deletes that, and another Hit starts again. */
  const LOSING_HITS: seq<Label> :=
    [IncrementNow(0, [], 1, 5), Tick(9), Look(1, GetKind, []), Judge(1), IncrementNow(0, [], 1, 5), LateDelete(1),
     IncrementNow(0, [], 1, 5)]

  const OLD_COUNTER := Stored(Entry(FormatInt(1), Some(6)), 0)
  const NEW_COUNTER := Stored(Entry(FormatInt(1), Some(15)), 2)

  /** A hit that finds no live counter starts one. */
  lemma StartsAnew(s: State, ttl: int64)
    requires ttl > 0 && 0 !in s.tasks && AliveEntry(Lookup(s.items, []), s.clock) == None
    ensures var counter := Stored(Entry(FormatInt(1), Some(s.clock + ttl)), |s.log|);
            Step(s, IncrementNow(0, [], 1, ttl))
            == s.(items := s.items[[] := counter],
                  log := s.log + [Added(0, [], 1, Some(Some(s.clock + ttl)), s.clock, counter, 1)],
                  answers := s.answers + [Return(0, [], Count(1), |s.log|, s.clock)])
  {
    hide FormatInt;
  }

  lemma FirstHit(run: seq<State>)
    requires IsRun(run, LOSING_HITS) && run[0] == Empty(1)
    ensures run[2].items == map[[] := OLD_COUNTER] && run[2].tasks == map[] && run[2].clock == 10
    ensures run[2].answers == [Return(0, [], Count(1), 0, 1)]
    ensures run[2].log == [Added(0, [], 1, Some(Some(6)), 1, OLD_COUNTER, 1)]
  {
    hide IncrementStep, FormatInt;
    StartsAnew(run[0], 5);
    assert StepAt(run, LOSING_HITS, 0);
    assert StepAt(run, LOSING_HITS, 1);
  }

  lemma LosingHitsBegin(run: seq<State>)
    requires IsRun(run, LOSING_HITS) && run[0] == Empty(1)
    ensures run[4].items == map[[] := OLD_COUNTER] && run[4].tasks == map[1 := Deleting([], GetKind, OLD_COUNTER, 1)]
    ensures run[4].clock == 10 && run[4].answers == [Return(0, [], Count(1), 0, 1)]
    ensures run[4].log == [Added(0, [], 1, Some(Some(6)), 1, OLD_COUNTER, 1), Looked(1, [], Some(OLD_COUNTER))]
  {
    hide IncrementStep, FormatInt;
    FirstHit(run);
    assert StepAt(run, LOSING_HITS, 2);
    assert StepAt(run, LOSING_HITS, 3);
  }

  lemma LosingHitsGoOn(run: seq<State>)
    requires IsRun(run, LOSING_HITS) && run[0] == Empty(1)
    ensures run[6].items == map[] && run[6].tasks == map[] && run[6].clock == 10
    ensures |run[6].answers| == 3 && run[6].answers[1] == Return(0, [], Count(1), 2, 10)
    ensures |run[6].log| == 4 && run[6].log[2] == Added(0, [], 1, Some(Some(15)), 10, NEW_COUNTER, 1)
    ensures run[6].log[3] == Forgot(1, [], Some(NEW_COUNTER), 1, 10)
  {
    hide IncrementStep, FormatInt;
    LosingHitsBegin(run);
    StartsAnew(run[4], 5);
    assert StepAt(run, LOSING_HITS, 4);
    assert StepAt(run, LOSING_HITS, 5);
  }

  lemma LosingHitsEnd(run: seq<State>)
    requires IsRun(run, LOSING_HITS) && run[0] == Empty(1)
    ensures |run[7].log| == 5 && |run[7].answers| == 4
    ensures run[7].answers[1] == Return(0, [], Count(1), 2, 10) && run[7].answers[3] == Return(0, [], Count(1), 4, 10)
    ensures run[7].log[2] == Added(0, [], 1, Some(Some(15)), 10, NEW_COUNTER, 1)
    ensures run[7].log[3] == Forgot(1, [], Some(NEW_COUNTER), 1, 10)
    ensures run[7].log[4].Added? && run[7].log[4].now == 10
  {
    hide IncrementStep, FormatInt;
    LosingHitsGoOn(run);
    StartsAnew(run[6], 5);
    assert StepAt(run, LOSING_HITS, 6);
  }

  /** With a limit of two, both hits are told they are not exceeded, at one and the same moment. */
  lemma MoreThanTheLimitAllows()
    ensures exists run: seq<State> ::
              IsRunFromEmpty(run, LOSING_HITS) && |AdmittedAnswers(run[7], [], 2, 5, 10)| > 2 - 1
  {
    var run := States(Empty(1), LOSING_HITS);
    LosingHitsEnd(run);
    var both: set<nat> := {1, 3};
    assert both <= AdmittedAnswers(run[7], [], 2, 5, 10);
    Subset(both, AdmittedAnswers(run[7], [], 2, 5, 10));
    assert |both| == 2;
    assert IsRunFromEmpty(run, LOSING_HITS);
  }
}
