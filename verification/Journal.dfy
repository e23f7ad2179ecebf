/**
 * Journals: the atomic acts of a concurrent run in the order they took effect. The memory store and the
 * database produce such journals under every interleaving; what follows from a legal journal alone is
 * proved here, once for both.
 *
 * The acts are those of a map that may forget: besides reads, writes and removals there is Forget, the
 * deferred delete of a reader that once saw an entry and later found it expired.
 */
module Journal {
  import opened Basics
  import opened Decimal
  import opened TtlMap

  /** An entry and the position in the journal of the act that wrote it. */
  datatype Stored = Stored(entry: Entry, id: nat)

  type Held = map<Bytes, Stored>

  datatype Act =
    | Looked(actor: nat, key: Bytes, found: Option<Stored>)
    | Put(actor: nat, key: Bytes, stored: Stored)
    | Added(actor: nat, key: Bytes, delta: int64, bump: Option<Option<int>>, now: int, stored: Stored, count: int64)
    | Took(actor: nat, key: Bytes, found: Option<Stored>)
    | Dropped(actor: nat, key: Bytes)
    | Forgot(actor: nat, key: Bytes, lost: Option<Stored>, lookedAt: nat, now: int)

  function Written(a: Act): Option<Stored> {
    if a.Put? || a.Added? then Some(a.stored) else None
  }

  predicate Touches(a: Act, k: Bytes) {
    a.key == k && !a.Looked?
  }

  function Apply(m: Held, a: Act): Held {
    if a.Looked? then m else Assign(m, a.key, Written(a))
  }

  function Replay(log: seq<Act>): Held {
    if log == [] then map[] else Apply(Replay(log[..|log| - 1]), log[|log| - 1])
  }

  function AliveEntry(s: Option<Stored>, now: int): Option<Entry> {
    if s.Some? then IfAlive(Some(s.value.entry), now) else None
  }

  /** An increment by `delta` that finds `e`, given its outcome; `bump` replaces the expiry. */
  predicate Adds(e: Option<Entry>, delta: int64, bump: Option<Option<int>>, entry: Entry, count: int64) {
    Counter(e).Parsed?
    && count == Wrap64(Counter(e).value + delta)
    && entry == Entry(FormatInt(count), if bump.Some? then bump.value else ExpiryOf(e))
  }

  /** What an act reports is what the map holds at that moment. */
  predicate Legal(m: Held, a: Act) {
    match a
    case Looked(_, k, found) => found == Lookup(m, k)
    case Took(_, k, found) => found == Lookup(m, k)
    case Forgot(_, k, lost, _, _) => lost == Lookup(m, k)
    case Added(_, k, delta, bump, now, stored, count) =>
      Adds(AliveEntry(Lookup(m, k), now), delta, bump, stored.entry, count)
    case _ => true
  }

  /** A forgetting act comes after a look that saw an entry by now expired. */
  predicate ForgetsWhatExpired(log: seq<Act>, a: Act) {
    a.Forgot? ==>
      && a.lookedAt < |log| && log[a.lookedAt].Looked? && log[a.lookedAt].key == a.key
      && log[a.lookedAt].found.Some? && !Alive(log[a.lookedAt].found.value.entry, a.now)
  }

  predicate WellMade(log: seq<Act>) {
    log == [] ||
    var before, last := log[..|log| - 1], log[|log| - 1];
    && WellMade(before)
    && Legal(Replay(before), last)
    && ForgetsWhatExpired(before, last)
    && (Written(last).Some? ==> Written(last).value.id == |before|)
  }

  /** A journal is extended by acts that are legal where it ends. */
  lemma Extend(log: seq<Act>, a: Act)
    requires WellMade(log) && Legal(Replay(log), a) && ForgetsWhatExpired(log, a)
    requires Written(a).Some? ==> Written(a).value.id == |log|
    ensures WellMade(log + [a]) && Replay(log + [a]) == Apply(Replay(log), a)
  {
    var longer := log + [a];
    assert longer[..|longer| - 1] == log && longer[|longer| - 1] == a;
  }

  lemma {:induction false} ActAt(log: seq<Act>, i: nat)
    requires WellMade(log) && i < |log|
    ensures WellMade(log[..i]) && Legal(Replay(log[..i]), log[i]) && ForgetsWhatExpired(log[..i], log[i])
    ensures Written(log[i]).Some? ==> Written(log[i]).value.id == i
  {
    if i < |log| - 1 {
      ActAt(log[..|log| - 1], i);
      assert log[..|log| - 1][..i] == log[..i];
    }
  }

  // ---------- the latest write ----------

  /** The position of the last act on `k`, or the length of the journal if there is none. */
  function LastTouch(log: seq<Act>, k: Bytes): (j: nat)
    ensures j <= |log|
    ensures j < |log| ==> Touches(log[j], k)
    ensures forall i :: 0 <= i < |log| && Touches(log[i], k) ==> i <= j < |log|
  {
    if log == [] then 0
    else if Touches(log[|log| - 1], k) then |log| - 1
    else
      var front := log[..|log| - 1];
      assert forall i :: 0 <= i < |front| ==> front[i] == log[i];
      if LastTouch(front, k) == |front| then |log| else LastTouch(front, k)
  }

  /** The map holds under a key what the last act on that key wrote, and nothing if that was a removal. */
  lemma {:induction false} HoldsLastWrite(log: seq<Act>, k: Bytes)
    ensures Lookup(Replay(log), k)
            == if LastTouch(log, k) < |log| then Written(log[LastTouch(log, k)]) else None
  {
    if log != [] {
      var front := log[..|log| - 1];
      HoldsLastWrite(front, k);
      var last := log[|log| - 1];
      if last.key != k && !last.Looked? {
        assert Lookup(Assign(Replay(front), last.key, Written(last)), k) == Lookup(Replay(front), k);
      }
    }
  }

  /** A hit is the latest write: some earlier act wrote this very entry, and no act on the key lies between. */
  lemma HitIsLatestWrite(log: seq<Act>, i: nat)
    requires WellMade(log) && i < |log|
    requires (log[i].Looked? || log[i].Took?) && log[i].found.Some?
    ensures var w := log[i].found.value.id;
            && w < i && log[w].key == log[i].key && Written(log[w]) == log[i].found
            && forall j :: w < j < i ==> !Touches(log[j], log[i].key)
  {
    ActAt(log, i);
    HoldsLastWrite(log[..i], log[i].key);
    var w := LastTouch(log[..i], log[i].key);
    ActAt(log, w);
    forall j | w < j < i
      ensures !Touches(log[j], log[i].key)
    {
      assert log[..i][j] == log[j];
    }
  }

  /** What is held was written by some act, and nothing has touched the key since. */
  lemma HeldIsWritten(log: seq<Act>, k: Bytes)
    requires WellMade(log) && Lookup(Replay(log), k).Some?
    ensures var w := Lookup(Replay(log), k).value.id;
            && w < |log| && log[w].key == k && Written(log[w]) == Lookup(Replay(log), k)
            && forall j :: w < j < |log| ==> !Touches(log[j], k)
  {
    HoldsLastWrite(log, k);
    ActAt(log, LastTouch(log, k));
  }

  /** What has been removed or overwritten never comes back, under any key. */
  lemma NothingReappears(log: seq<Act>, k: Bytes, i: nat, j: nat, k': Bytes)
    requires WellMade(log) && i < j <= |log| && Touches(log[i], k)
    requires Lookup(Replay(log[..i]), k).Some?
    ensures Lookup(Replay(log[..j]), k').Some? ==>
              Lookup(Replay(log[..j]), k').value.id != Lookup(Replay(log[..i]), k).value.id
  {
    HoldsLastWrite(log[..i], k);
    HoldsLastWrite(log[..j], k');
    var w, w' := LastTouch(log[..i], k), LastTouch(log[..j], k');
    ActAt(log, w);
    assert log[..i][w] == log[w];
    if w' < j {
      ActAt(log, w');
      assert log[..j][w'] == log[w'] && log[..j][i] == log[i];
    }
  }

  /** No write is handed out by two takes. */
  lemma TakenOnce(log: seq<Act>, i: nat, j: nat)
    requires WellMade(log) && i < j < |log|
    requires log[i].Took? && log[j].Took? && log[i].found.Some? && log[j].found.Some?
    ensures log[i].found.value.id != log[j].found.value.id
  {
    ActAt(log, i);
    ActAt(log, j);
    NothingReappears(log, log[i].key, i, j, log[j].key);
  }

  // ---------- answers ----------

  /** The operations that look first and judge what they saw later. */
  datatype Kind = GetKind | ExistsKind | TtlKind

  function MissOf(kind: Kind): Answer {
    if kind.ExistsKind? then Found(false) else Fail(Miss)
  }

  function HitOf(kind: Kind, e: Entry, now: int): Answer {
    match kind
    case GetKind => Value(e.value)
    case ExistsKind => Found(true)
    case TtlKind => Remaining(if e.expiry.Some? then e.expiry.value - now else 0)
  }

  /** An answer given to the client `actor` at clock reading `now`, and the act it goes back to. */
  datatype Return = Return(actor: nat, key: Bytes, answer: Answer, at: nat, now: int)

  /** What the act found, if that was still alive at `now`. */
  function Seen(a: Act, now: int): Option<Entry> {
    if a.Looked? || a.Took? then AliveEntry(a.found, now) else None
  }

  /** An answer given at clock reading `now` is what the act says. */
  predicate Accounts(a: Act, answer: Answer, now: int) {
    match answer
    case Value(v) => Seen(a, now).Some? && Seen(a, now).value.value == v
    case Found(found) => if found then a.Looked? && Seen(a, now).Some? else (a.Looked? && Seen(a, now).None?) || a.Forgot?
    case Remaining(_) => a.Looked? && Seen(a, now).Some? && answer == HitOf(TtlKind, Seen(a, now).value, now)
    case Count(n) => a.Added? && a.count == n
    case Done => a.Put? || a.Dropped?
    case Fail(Miss) => ((a.Looked? || a.Took?) && Seen(a, now).None?) || a.Forgot?
    case Fail(BadCounter(error)) =>
      a.Looked? && Counter(Seen(a, now)).Rejected? && Counter(Seen(a, now)).error == error
    case Fail(_) => false
  }

  predicate Justified(log: seq<Act>, r: Return) {
    r.at < |log| && log[r.at].actor == r.actor && log[r.at].key == r.key && Accounts(log[r.at], r.answer, r.now)
  }

  const UNAVAILABLE: Answer := Fail(CacheError.Unavailable)

  /** No act answers two callers; errors of a database go back to no act. */
  predicate AnsweredOnce(answers: seq<Return>) {
    forall i, j :: 0 <= i < j < |answers| && answers[i].answer != UNAVAILABLE && answers[j].answer != UNAVAILABLE ==>
      answers[i].at != answers[j].at
  }

  /** No answer goes back to the act. */
  predicate Unanswered(answers: seq<Return>, at: nat) {
    forall i :: 0 <= i < |answers| && answers[i].answer != UNAVAILABLE ==> answers[i].at != at
  }

  /** An answer that goes back to the act. */
  predicate AnswerTo(answers: seq<Return>, i: nat, at: nat) {
    i < |answers| && answers[i].answer != UNAVAILABLE && answers[i].at == at
  }

  /** The act changes what is held, on behalf of a caller. */
  predicate Changes(a: Act) {
    Written(a).Some? || a.Took? || a.Dropped?
  }

  /** No write is handed out to two callers of Take. */
  lemma HandedOutOnce(log: seq<Act>, answers: seq<Return>, i: nat, j: nat)
    requires WellMade(log) && AnsweredOnce(answers) && i < j < |answers|
    requires Justified(log, answers[i]) && log[answers[i].at].Took? && answers[i].answer.Value?
    requires Justified(log, answers[j]) && log[answers[j].at].Took? && answers[j].answer.Value?
    ensures log[answers[i].at].found.value.id != log[answers[j].at].found.value.id
  {
    if answers[i].at < answers[j].at {
      TakenOnce(log, answers[i].at, answers[j].at);
    } else {
      TakenOnce(log, answers[j].at, answers[i].at);
    }
  }

  /** The answer is a write still alive at its clock reading, and nothing touched the key between that write and the look. */
  ghost predicate ReturnsLatestWrite(log: seq<Act>, r: Return) {
    exists w :: 0 <= w < r.at < |log| && Written(log[w]).Some? && log[w].key == r.key
                && r.answer == Value(log[w].stored.entry.value) && Alive(log[w].stored.entry, r.now)
                && forall j :: w < j < r.at ==> !Touches(log[j], r.key)
  }

  lemma HitReturnsLatestWrite(log: seq<Act>, r: Return)
    requires WellMade(log) && Justified(log, r) && r.answer.Value?
    ensures ReturnsLatestWrite(log, r)
  {
    HitIsLatestWrite(log, r.at);
    assert Written(log[log[r.at].found.value.id]).Some?;
  }

  // ---------- forgetting ----------

  /** The act removes an entry that nobody could have seen any more. */
  predicate Harmless(a: Act) {
    a.Forgot? && a.lost.Some? ==> !Alive(a.lost.value.entry, a.now)
  }

  /** The act is a deferred delete, and what it drops was written between the look it goes back to and itself. */
  predicate DropsNewerWrite(log: seq<Act>, i: nat)
    requires i < |log|
  {
    var a := log[i];
    && a.Forgot? && a.lost.Some? && a.lookedAt < a.lost.value.id < i
    && log[a.lookedAt].Looked? && log[a.lookedAt].key == a.key
    && log[a.lost.value.id].key == a.key && Written(log[a.lost.value.id]) == a.lost
  }

  /** A live entry is forgotten only if it was written after the look that the deferred delete goes back to. */
  lemma LostWasWrittenAfterLook(log: seq<Act>, i: nat)
    requires WellMade(log) && i < |log| && !Harmless(log[i])
    ensures DropsNewerWrite(log, i)
  {
    ActAt(log, i);
    var k, looked := log[i].key, log[i].lookedAt;
    HoldsLastWrite(log[..i], k);
    var w := LastTouch(log[..i], k);
    ActAt(log, w);
    assert log[..i][looked] == log[looked];
    if w <= looked {
      HitIsLatestWrite(log, looked);
    }
  }

  /** The journal as an atomic map would have written it: without the forgetting. */
  function Unforgetting(log: seq<Act>): seq<Act> {
    if log == [] then []
    else
      var front := Unforgetting(log[..|log| - 1]);
      if log[|log| - 1].Forgot? then front else front + [log[|log| - 1]]
  }

  /** The act forgets what nothing has written, taken or dropped since. */
  predicate LostFor(log: seq<Act>, k: Bytes, i: nat) {
    i < |log| && log[i].Forgot? && log[i].key == k && log[i].lost.Some?
    && forall j :: i < j < |log| && Touches(log[j], k) ==> log[j].Forgot?
  }

  /** No act forgets later than `now`. */
  predicate ForgetsBy(log: seq<Act>, now: int) {
    forall i :: 0 <= i < |log| && log[i].Forgot? ==> log[i].now <= now
  }

  lemma UnforgettingStep(log: seq<Act>, k: Bytes)
    requires log != []
    ensures var front, last := log[..|log| - 1], log[|log| - 1];
            && Lookup(Replay(log), k) == (if Touches(last, k) then Written(last) else Lookup(Replay(front), k))
            && Lookup(Replay(Unforgetting(log)), k)
               == if Touches(last, k) && !last.Forgot? then Written(last) else Lookup(Replay(Unforgetting(front)), k)
  {
    var front, last := log[..|log| - 1], log[|log| - 1];
    ApplyLookup(Replay(front), last, k);
    if !last.Forgot? {
      var kept := Unforgetting(front);
      assert (kept + [last])[..|kept|] == kept;
      assert Replay(Unforgetting(log)) == Apply(Replay(kept), last);
      ApplyLookup(Replay(kept), last, k);
    }
  }

  lemma LostForPrefix(log: seq<Act>, k: Bytes, i: nat)
    requires i < |log| - 1
    ensures var front, last := log[..|log| - 1], log[|log| - 1];
            LostFor(log, k, i) <==> LostFor(front, k, i) && (Touches(last, k) ==> last.Forgot?)
  {
    var front := log[..|log| - 1];
    assert forall j :: 0 <= j < |front| ==> front[j] == log[j];
  }

  /** Where the map differs from the one that does not forget, something has been lost. */
  lemma {:induction false} DifferenceIsLost(log: seq<Act>, k: Bytes) returns (i: nat)
    requires WellMade(log) && Lookup(Replay(log), k) != Lookup(Replay(Unforgetting(log)), k)
    ensures LostFor(log, k, i)
  {
    var front, last := log[..|log| - 1], log[|log| - 1];
    UnforgettingStep(log, k);
    if Touches(last, k) && last.lost.Some? {
      i := |log| - 1;
    } else {
      i := DifferenceIsLost(front, k);
      LostForPrefix(log, k, i);
    }
  }

  /** What has been lost is absent, and the map that does not forget holds that very entry. */
  lemma {:induction false} LostIsDifference(log: seq<Act>, k: Bytes, i: nat)
    requires WellMade(log) && LostFor(log, k, i)
    ensures Lookup(Replay(log), k) == None && Lookup(Replay(Unforgetting(log)), k) == log[i].lost
  {
    var front := log[..|log| - 1];
    UnforgettingStep(log, k);
    if i < |log| - 1 {
      LostForPrefix(log, k, i);
      LostIsDifference(front, k, i);
    } else {
      PresentIsSame(front, k);
    }
  }

  /** What is present is the very same entry in the map that does not forget. */
  lemma {:induction false} PresentIsSame(log: seq<Act>, k: Bytes)
    requires WellMade(log) && Lookup(Replay(log), k).Some?
    ensures Lookup(Replay(Unforgetting(log)), k) == Lookup(Replay(log), k)
  {
    if Lookup(Replay(log), k) != Lookup(Replay(Unforgetting(log)), k) {
      var i := DifferenceIsLost(log, k);
      LostIsDifference(log, k, i);
    }
  }

  /** The act lost an entry that would still be alive now, and nothing has touched the key since but more forgetting. */
  ghost predicate LostAlive(log: seq<Act>, k: Bytes, i: nat, now: int) {
    LostFor(log, k, i) && Alive(log[i].lost.value.entry, now)
  }

  /**
   * A key looks different than in the map that does not forget exactly if an entry alive under it was forgotten and
   * not written since; then it looks absent, the other map holds that entry, and a deferred delete has dropped a
   * write newer than its look.
   */
  lemma DiffersIffForgotten(log: seq<Act>, k: Bytes, now: int)
    requires WellMade(log) && ForgetsBy(log, now)
    ensures AliveEntry(Lookup(Replay(log), k), now) != AliveEntry(Lookup(Replay(Unforgetting(log)), k), now)
       <==> exists i: nat :: LostAlive(log, k, i, now)
    ensures forall i: nat :: LostAlive(log, k, i, now) ==>
              DropsNewerWrite(log, i) && Lookup(Replay(log), k) == None && Lookup(Replay(Unforgetting(log)), k) == log[i].lost
  {
    forall i: nat | LostAlive(log, k, i, now)
      ensures DropsNewerWrite(log, i) && Lookup(Replay(log), k) == None
      ensures Lookup(Replay(Unforgetting(log)), k) == log[i].lost
    {
      LostIsDifference(log, k, i);
      LostWasWrittenAfterLook(log, i);
    }
    if AliveEntry(Lookup(Replay(log), k), now) != AliveEntry(Lookup(Replay(Unforgetting(log)), k), now) {
      var i := DifferenceIsLost(log, k);
      LostIsDifference(log, k, i);
      assert LostAlive(log, k, i, now);
    }
  }

  lemma ApplyLookup(m: Held, a: Act, k: Bytes)
    ensures Lookup(Apply(m, a), k) == if Touches(a, k) then Written(a) else Lookup(m, k)
  {
  }

  // ---------- conservation ----------

  /** From a position on, the only acts on `k` are looks and increments that leave the expiry alone. */
  predicate OnlyCounts(log: seq<Act>, from: nat, k: Bytes) {
    forall i :: from <= i < |log| && Touches(log[i], k) ==> log[i].Added? && log[i].bump.None?
  }

  /** The sum of the increments of `k` from a position on. */
  function Sum(log: seq<Act>, from: nat, k: Bytes): int {
    if |log| <= from then 0
    else
      var last := log[|log| - 1];
      Sum(log[..|log| - 1], from, k) + if last.Added? && last.key == k then last.delta else 0
  }

  /** A counter that never expires: absent, or a number without a deadline. */
  predicate PlainCounter(s: Option<Stored>, n: int64) {
    match s
    case None => n == 0
    case Some(st) => st.entry.expiry.None? && ParseInt(st.entry.value) == Parsed(n)
  }

  /** The same sum as the increments take it, wrapping at every step. */
  function Running(log: seq<Act>, from: nat, k: Bytes, n: int64): int64 {
    if |log| <= from then n
    else
      var last, sum := log[|log| - 1], Running(log[..|log| - 1], from, k, n);
      if last.Added? && last.key == k then Wrap64(sum + last.delta) else sum
  }

  /** Wrapping at every step is wrapping once. */
  lemma {:induction false} RunningIsSum(log: seq<Act>, from: nat, k: Bytes, n: int64)
    ensures Running(log, from, k, n) == Wrap64(n + Sum(log, from, k))
    decreases |log|
  {
    if |log| > from {
      var last, front := log[|log| - 1], log[..|log| - 1];
      RunningIsSum(front, from, k, n);
      if last.Added? && last.key == k {
        WrapAdd(n + Sum(front, from, k), last.delta, n + Sum(log, from, k));
      }
    }
  }

  lemma {:induction false} CountsRun(before: seq<Act>, log: seq<Act>, k: Bytes, n: int64)
    requires WellMade(log) && before <= log && OnlyCounts(log, |before|, k)
    requires PlainCounter(Lookup(Replay(before), k), n)
    ensures PlainCounter(Lookup(Replay(log), k), Running(log, |before|, k, n))
  {
    hide PlainCounter, Adds, Wrap64;
    if |before| == |log| {
      assert before == log;
    } else {
      var front, last := log[..|log| - 1], log[|log| - 1];
      CountsRun(before, front, k, n);
      ApplyLookup(Replay(front), last, k);
      if Touches(last, k) {
        LastAdds(log);
        CountStep(Lookup(Replay(front), k), last, Running(front, |before|, k, n));
      }
    }
  }

  /** From a plain counter at n, any acts that only count leave it at n plus the sum of their deltas. */
  lemma CountsAdd(before: seq<Act>, log: seq<Act>, k: Bytes, n: int64)
    requires WellMade(log) && before <= log && OnlyCounts(log, |before|, k)
    requires PlainCounter(Lookup(Replay(before), k), n)
    ensures PlainCounter(Lookup(Replay(log), k), Wrap64(n + Sum(log, |before|, k)))
  {
    hide *;
    CountsRun(before, log, k, n);
    RunningIsSum(log, |before|, k, n);
  }

  /** And each of the increments reports the running sum at its place. */
  lemma CountReported(before: seq<Act>, log: seq<Act>, k: Bytes, n: int64, i: nat)
    requires WellMade(log) && before <= log && |before| <= i < |log| && OnlyCounts(log, |before|, k)
    requires PlainCounter(Lookup(Replay(before), k), n)
    requires log[i].Added? && log[i].key == k
    ensures log[i].count == Wrap64(n + Sum(log[..i + 1], |before|, k))
  {
    hide *;
    RunReported(before, log, k, n, i);
    RunningIsSum(log[..i + 1], |before|, k, n);
  }

  lemma RunReported(before: seq<Act>, log: seq<Act>, k: Bytes, n: int64, i: nat)
    requires WellMade(log) && before <= log && |before| <= i < |log| && OnlyCounts(log, |before|, k)
    requires PlainCounter(Lookup(Replay(before), k), n)
    requires log[i].Added? && log[i].key == k
    ensures log[i].count == Running(log[..i + 1], |before|, k, n)
  {
    hide WellMade, Replay, PlainCounter, Adds, Wrap64;
    var upTo := log[..i + 1];
    PrefixCounts(before, log, k, i);
    CountsRun(before, log[..i], k, n);
    ActAt(log, i);
    CountStep(Lookup(Replay(log[..i]), k), log[i], Running(log[..i], |before|, k, n));
    assert upTo[..|upTo| - 1] == log[..i] && upTo[|upTo| - 1] == log[i];
  }

  lemma PrefixCounts(before: seq<Act>, log: seq<Act>, k: Bytes, i: nat)
    requires WellMade(log) && before <= log && |before| <= i <= |log| && OnlyCounts(log, |before|, k)
    ensures WellMade(log[..i]) && before <= log[..i] && OnlyCounts(log[..i], |before|, k)
  {
    hide WellMade, Legal, Replay;
    if i < |log| {
      ActAt(log, i);
    } else {
      assert log[..i] == log;
    }
    assert forall j :: 0 <= j < i ==> log[..i][j] == log[j];
  }

  lemma LastAdds(log: seq<Act>)
    requires WellMade(log) && log != [] && log[|log| - 1].Added?
    ensures var a := log[|log| - 1];
            Adds(AliveEntry(Lookup(Replay(log[..|log| - 1]), a.key), a.now), a.delta, a.bump, a.stored.entry, a.count)
  {
  }

  lemma CountStep(s: Option<Stored>, a: Act, n: int64)
    requires PlainCounter(s, n) && a.Added? && a.bump.None?
    requires Adds(AliveEntry(s, a.now), a.delta, a.bump, a.stored.entry, a.count)
    ensures a.count == Wrap64(n + a.delta) && PlainCounter(Some(a.stored), a.count)
  {
    ParseFormat(a.count);
  }
}
