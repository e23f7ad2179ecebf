/**
 * The memory store under any number of goroutines, one critical section at a time. Get, Exists and TTL look
 * an item up under the read lock, judge it after releasing the lock, and come back with the write lock to
 * delete what they judged expired; Set stamps its item before it takes the lock; Take, Increment and Delete
 * are one critical section each. The clock may move between any two steps.
 */
module MemoryLocks {
  import opened Basics
  import opened Decimal
  import opened TtlMap
  import opened Journal
  import MemoryStore

  /** What a goroutine carries between two critical sections. */
  datatype Task =
    | Judging(key: Bytes, kind: Kind, seen: Stored, at: nat)
    | Deleting(key: Bytes, kind: Kind, seen: Stored, at: nat)
    | Storing(key: Bytes, entry: Entry)

  datatype State = State(
    items: Held,
    tasks: map<nat, Task>,
    clock: int,
    log: seq<Act>,
    answers: seq<Return>)

  datatype Label =
    | Tick(elapsed: nat)
    | Look(task: nat, kind: Kind, key: Bytes)
    | Judge(task: nat)
    | LateDelete(task: nat)
    | Stamp(task: nat, key: Bytes, value: Bytes, ttl: int64)
    | Store(task: nat)
    | TakeNow(task: nat, key: Bytes)
    | IncrementNow(task: nat, key: Bytes, delta: int64, ttl: int64)
    | DeleteNow(task: nat, key: Bytes)

  function Empty(clock: int): State {
    State(map[], map[], clock, [], [])
  }

  // ---------- steps ----------

  /** The act takes effect on the items and goes into the journal. */
  function Effect(s: State, a: Act): State {
    s.(items := Apply(s.items, a), log := s.log + [a])
  }

  /** The same, and the caller gets an answer that goes back to this act. */
  function Answering(s: State, a: Act, answer: Answer): State {
    Effect(s, a).(answers := s.answers + [Return(a.actor, a.key, answer, |s.log|, s.clock)])
  }

  function Without(s: State, t: nat): State {
    s.(tasks := s.tasks - {t})
  }

  function LookStep(s: State, t: nat, kind: Kind, k: Bytes): State {
    var a := Looked(t, k, Lookup(s.items, k));
    if a.found.None? then Answering(s, a, MissOf(kind))
    else Effect(s, a).(tasks := s.tasks[t := Judging(k, kind, a.found.value, |s.log|)])
  }

  function JudgeStep(s: State, t: nat, task: Task): State
    requires task.Judging?
  {
    var Judging(k, kind, seen, at) := task;
    if Alive(seen.entry, s.clock) then
      Without(s, t).(answers := s.answers + [Return(t, k, HitOf(kind, seen.entry, s.clock), at, s.clock)])
    else s.(tasks := s.tasks[t := Deleting(k, kind, seen, at)])
  }

  function TakeStep(s: State, t: nat, k: Bytes): State {
    var a := Took(t, k, Lookup(s.items, k));
    var e := AliveEntry(a.found, s.clock);
    Answering(s, a, if e.Some? then Value(e.value.value) else Fail(Miss))
  }

  function IncrementStep(s: State, t: nat, k: Bytes, delta: int64, ttl: int64): State {
    var found := Lookup(s.items, k);
    var e := AliveEntry(found, s.clock);
    match Counter(e)
    case Rejected(error, _) => Answering(s, Looked(t, k, found), Fail(BadCounter(error)))
    case Parsed(n) =>
      var next := Wrap64(n + delta);
      var bump := if ttl > 0 then Some(Deadline(s.clock, ttl)) else None;
      var entry := Entry(FormatInt(next), if bump.Some? then bump.value else ExpiryOf(e));
      Answering(s, Added(t, k, delta, bump, s.clock, Stored(entry, |s.log|), next), Count(next))
  }

  /** One step of one goroutine, or of the clock; a label that does not fit the goroutine's state does nothing. */
  function Step(s: State, l: Label): State {
    match l
    case Tick(elapsed) => s.(clock := s.clock + elapsed)
    case Look(t, kind, k) => if t in s.tasks then s else LookStep(s, t, kind, k)
    case Judge(t) => if t in s.tasks && s.tasks[t].Judging? then JudgeStep(s, t, s.tasks[t]) else s
    case LateDelete(t) =>
      if t in s.tasks && s.tasks[t].Deleting? then
        var Deleting(k, kind, _, at) := s.tasks[t];
        Answering(Without(s, t), Forgot(t, k, Lookup(s.items, k), at, s.clock), MissOf(kind))
      else s
    case Stamp(t, k, value, ttl) =>
      if t in s.tasks then s else s.(tasks := s.tasks[t := Storing(k, Entry(value, Deadline(s.clock, ttl)))])
    case Store(t) =>
      if t in s.tasks && s.tasks[t].Storing? then
        Answering(Without(s, t), Put(t, s.tasks[t].key, Stored(s.tasks[t].entry, |s.log|)), Done)
      else s
    case TakeNow(t, k) => if t in s.tasks then s else TakeStep(s, t, k)
    case IncrementNow(t, k, delta, ttl) => if t in s.tasks then s else IncrementStep(s, t, k, delta, ttl)
    case DeleteNow(t, k) => if t in s.tasks then s else Answering(s, Dropped(t, k), Done)
  }

  predicate StepAt(run: seq<State>, labels: seq<Label>, i: nat)
    requires i < |labels| && |run| == |labels| + 1
  {
    run[i + 1] == Step(run[i], labels[i])
  }

  /** The states of one interleaving; the labels say who moves. */
  predicate IsRun(run: seq<State>, labels: seq<Label>) {
    |run| == |labels| + 1 && forall i :: 0 <= i < |labels| ==> StepAt(run, labels, i)
  }

  // ---------- one operation by itself ----------

  /** All critical sections of one operation, with nobody and no clock in between. */
  function Alone(s: State, t: nat, op: Op): State {
    match op
    case Get(k) => LookAlone(s, t, GetKind, k)
    case Exists(k) => LookAlone(s, t, ExistsKind, k)
    case Ttl(k) => LookAlone(s, t, TtlKind, k)
    case Set(k, value, ttl) => Step(Step(s, Stamp(t, k, value, ttl)), Store(t))
    case Take(k) => Step(s, TakeNow(t, k))
    case Increment(k, delta, ttl) => Step(s, IncrementNow(t, k, delta, ttl))
    case Delete(k) => Step(s, DeleteNow(t, k))
  }

  function LookAlone(s: State, t: nat, kind: Kind, k: Bytes): State {
    Step(Step(Step(s, Look(t, kind, k)), Judge(t)), LateDelete(t))
  }

  function Plain(items: Held): Entries {
    map k | k in items :: items[k].entry
  }

  lemma PlainAssign(items: Held, k: Bytes, v: Option<Stored>)
    ensures Plain(Assign(items, k, v)) == Assign(Plain(items), k, if v.Some? then Some(v.value.entry) else None)
  {
    var e := if v.Some? then Some(v.value.entry) else None;
    forall x
      ensures Lookup(Plain(Assign(items, k, v)), x) == Lookup(Assign(Plain(items), k, e), x)
    {
      assert x == k || Lookup(Assign(items, k, v), x) == Lookup(items, x);
    }
    SameLookups(Plain(Assign(items, k, v)), Assign(Plain(items), k, e));
  }

  /** From `s` to `s'` one caller got one answer. */
  predicate Answered(s: State, s': State, k: Bytes, answer: Answer) {
    |s'.answers| == |s.answers| + 1 && s.answers <= s'.answers
    && s'.answers[|s.answers|].key == k && s'.answers[|s.answers|].answer == answer
  }

  /** The store behaved as the sequential one does, and nothing is left behind. */
  predicate Sequential(s: State, s': State, op: Op) {
    var (items, answer) := MemoryStore.Step(Plain(s.items), op, s.clock);
    Plain(s'.items) == items && Answered(s, s', op.key, answer) && s'.tasks == s.tasks && s'.clock == s.clock
  }

  /** In every reachable state an operation that nobody interrupts is the sequential store's: same answer, same items. */
  lemma UninterruptedIsSequential(s: State, t: nat, op: Op)
    requires Inv(s) && t !in s.tasks
    ensures Sequential(s, Alone(s, t, op), op)
  {
    match op
    case Get(k) => LookIsSequential(s, t, GetKind, k);
    case Exists(k) => LookIsSequential(s, t, ExistsKind, k);
    case Ttl(k) => LookIsSequential(s, t, TtlKind, k);
    case Set(k, value, ttl) => SetIsSequential(s, t, k, value, ttl);
    case Increment(k, delta, ttl) => IncrementIsSequential(s, t, k, delta, ttl);
    case _ => RemovalIsSequential(s, t, op);
  }

  lemma RemovalIsSequential(s: State, t: nat, op: Op)
    requires t !in s.tasks && (op.Take? || op.Delete?)
    ensures Sequential(s, Alone(s, t, op), op)
  {
    AssignLookup(Plain(s.items), op.key);
    PlainAssign(s.items, op.key, None);
  }

  lemma SetIsSequential(s: State, t: nat, k: Bytes, value: Bytes, ttl: int64)
    requires t !in s.tasks
    ensures Sequential(s, Alone(s, t, Set(k, value, ttl)), Set(k, value, ttl))
  {
    PlainAssign(s.items, k, Some(Stored(Entry(value, Deadline(s.clock, ttl)), |s.log|)));
  }

  /** The sequential increment in terms of what is alive. */
  lemma IncrementSpec(s: State, k: Bytes, delta: int64, ttl: int64)
    ensures var before := Plain(s.items);
            var e := AliveEntry(Lookup(s.items, k), s.clock);
            var (items, answer) := MemoryStore.Step(before, Increment(k, delta, ttl), s.clock);
            match Counter(e)
            case Rejected(error, _) => items == before && answer == Fail(BadCounter(error))
            case Parsed(n) =>
              var next := Wrap64(n + delta);
              var expiry := if ttl > 0 then Deadline(s.clock, ttl) else ExpiryOf(e);
              items == Assign(before, k, Some(Entry(FormatInt(next), expiry))) && answer == Count(next)
  {
    AssignLookup(Plain(s.items), k);
    PlainAssign(s.items, k, None);
  }

  lemma IncrementIsSequential(s: State, t: nat, k: Bytes, delta: int64, ttl: int64)
    ensures Sequential(s, IncrementStep(s, t, k, delta, ttl), Increment(k, delta, ttl))
  {
    IncrementSpec(s, k, delta, ttl);
    var a := IncrementStep(s, t, k, delta, ttl).log[|s.log|];
    PlainAssign(s.items, k, Written(a));
  }

  function OpOf(kind: Kind, k: Bytes): Op {
    match kind
    case GetKind => Get(k)
    case ExistsKind => Exists(k)
    case TtlKind => Ttl(k)
  }

  /** The sequential reads in terms of the item. */
  lemma LookSpec(s: State, kind: Kind, k: Bytes)
    requires ItemsNear(s)
    ensures var before := Plain(s.items);
            var (items, answer) := MemoryStore.Step(before, OpOf(kind, k), s.clock);
            if k !in s.items then items == before && answer == MissOf(kind)
            else if Alive(s.items[k].entry, s.clock) then items == before && answer == HitOf(kind, s.items[k].entry, s.clock)
            else items == Assign(before, k, None) && answer == MissOf(kind)
  {
    AssignLookup(Plain(s.items), k);
  }

  lemma LookIsSequential(s: State, t: nat, kind: Kind, k: Bytes)
    requires t !in s.tasks && ItemsNear(s)
    ensures Sequential(s, LookAlone(s, t, kind, k), OpOf(kind, k))
  {
    hide MemoryStore.Step, HitOf, MissOf, Near, Alive;
    LookSpec(s, kind, k);
    PlainAssign(s.items, k, None);
    if k in s.items {
      LookedAlone(s, t, kind, k);
    }
  }

  /** The steps behind a look that has found an item. */
  lemma LookedAlone(s: State, t: nat, kind: Kind, k: Bytes)
    requires t !in s.tasks && k in s.items
    ensures var s', seen := LookAlone(s, t, kind, k), s.items[k].entry;
            var alive := Alive(seen, s.clock);
            && s'.items == (if alive then s.items else Assign(s.items, k, None)) && s'.tasks == s.tasks && s'.clock == s.clock
            && Answered(s, s', k, if alive then HitOf(kind, seen, s.clock) else MissOf(kind))
  {
    hide HitOf, MissOf;
    var seen := s.items[k];
    assert s.tasks[t := Judging(k, kind, seen, |s.log|)] - {t} == s.tasks;
    assert s.tasks[t := Deleting(k, kind, seen, |s.log|)] - {t} == s.tasks;
  }

  // ---------- what every step keeps ----------

  /** The deadline is at most a Duration ahead. */
  predicate Near(e: Entry, clock: int) {
    e.expiry.Some? ==> e.expiry.value - clock <= MAX_INT64
  }

  predicate ItemsNear(s: State) {
    forall k :: k in s.items ==> Near(s.items[k].entry, s.clock)
  }

  predicate TaskFits(log: seq<Act>, clock: int, t: nat, task: Task) {
    if task.Storing? then Near(task.entry, clock) else
    (&& task.at < |log| && log[task.at] == Looked(t, task.key, Some(task.seen))
     && (task.Deleting? ==> !Alive(task.seen.entry, clock)))
  }

  ghost predicate Inv(s: State) {
    && WellMade(s.log) && s.items == Replay(s.log)
    && (forall t :: t in s.tasks ==> TaskFits(s.log, s.clock, t, s.tasks[t]))
    && (forall i :: 0 <= i < |s.answers| ==> Justified(s.log, s.answers[i]))
    && ItemsNear(s) && TimesFit(s.log, s.clock) && AnswersTimed(s)
  }

  /** An answer is given no earlier than the act that it goes back to, and the acts before that. */
  predicate AnswersTimed(s: State) {
    forall i, j :: 0 <= i < |s.answers| && 0 <= j <= s.answers[i].at && j < |s.log| && HasTime(s.log[j]) ==>
      s.log[j].now <= s.answers[i].now
  }

  /** Forgetting and counting happen in the order of their clock readings. */
  predicate TimesFit(log: seq<Act>, clock: int) {
    && (forall i :: 0 <= i < |log| && HasTime(log[i]) ==> log[i].now <= clock)
    && (forall i, j :: 0 <= i < j < |log| && HasTime(log[i]) && HasTime(log[j]) ==> log[i].now <= log[j].now)
  }

  predicate HasTime(a: Act) {
    a.Forgot? || a.Added?
  }

  /** An act the current contents allow. */
  predicate Fits(s: State, a: Act) {
    && Legal(s.items, a) && ForgetsWhatExpired(s.log, a)
    && (Written(a).Some? ==> Written(a).value.id == |s.log| && Near(Written(a).value.entry, s.clock))
    && (HasTime(a) ==> a.now == s.clock)
  }

  lemma NearKept(items: Held, a: Act, clock: int)
    requires forall k :: k in items ==> Near(items[k].entry, clock)
    requires Written(a).Some? ==> Near(Written(a).value.entry, clock)
    ensures forall k :: k in Apply(items, a) ==> Near(Apply(items, a)[k].entry, clock)
  {
    forall k | k in Apply(items, a)
      ensures Near(Apply(items, a)[k].entry, clock)
    {
      ApplyLookup(items, a, k);
    }
  }

  lemma TimesKept(log: seq<Act>, a: Act, clock: int)
    requires TimesFit(log, clock) && (HasTime(a) ==> a.now == clock)
    ensures TimesFit(log + [a], clock)
  {
  }

  lemma AnswersKept(log: seq<Act>, a: Act, answers: seq<Return>)
    requires forall i :: 0 <= i < |answers| ==> Justified(log, answers[i])
    ensures forall i :: 0 <= i < |answers| ==> Justified(log + [a], answers[i])
  {
  }

  lemma EffectKeeps(s: State, a: Act)
    requires Inv(s) && Fits(s, a)
    ensures Inv(Effect(s, a))
  {
    Extend(s.log, a);
    NearKept(s.items, a, s.clock);
    TimesKept(s.log, a, s.clock);
    AnswersKept(s.log, a, s.answers);
    forall t | t in s.tasks
      ensures TaskFits(s.log + [a], s.clock, t, s.tasks[t])
    {
      assert TaskFits(s.log, s.clock, t, s.tasks[t]);
    }
  }

  lemma AnsweringKeeps(s: State, a: Act, answer: Answer)
    requires Inv(s) && Fits(s, a) && Accounts(a, answer, s.clock)
    ensures Inv(Answering(s, a, answer))
  {
    EffectKeeps(s, a);
    assert Answering(s, a, answer).log[|s.log|] == a;
  }

  lemma TaskKeeps(s: State, t: nat, task: Task)
    requires Inv(s) && TaskFits(s.log, s.clock, t, task)
    ensures Inv(s.(tasks := s.tasks[t := task]))
  {
  }

  lemma WithoutKeeps(s: State, t: nat)
    requires Inv(s)
    ensures Inv(Without(s, t))
  {
  }

  lemma LookKeeps(s: State, t: nat, kind: Kind, k: Bytes)
    requires Inv(s)
    ensures Inv(LookStep(s, t, kind, k))
  {
    var a := Looked(t, k, Lookup(s.items, k));
    if a.found.None? {
      AnsweringKeeps(s, a, MissOf(kind));
    } else {
      EffectKeeps(s, a);
      TaskKeeps(Effect(s, a), t, Judging(k, kind, a.found.value, |s.log|));
    }
  }

  lemma JudgeKeeps(s: State, t: nat)
    requires Inv(s) && t in s.tasks && s.tasks[t].Judging?
    ensures Inv(JudgeStep(s, t, s.tasks[t]))
  {
    var Judging(k, kind, seen, at) := s.tasks[t];
    if Alive(seen.entry, s.clock) {
      WithoutKeeps(s, t);
    } else {
      TaskKeeps(s, t, Deleting(k, kind, seen, at));
    }
  }

  lemma IncrementKeeps(s: State, t: nat, k: Bytes, delta: int64, ttl: int64)
    requires Inv(s)
    ensures Inv(IncrementStep(s, t, k, delta, ttl))
  {
    hide Inv, Counter, Fits;
    var found := Lookup(s.items, k);
    var e := AliveEntry(found, s.clock);
    match Counter(e)
    case Rejected(error, _) =>
      LookFits(s, t, k);
      AnsweringKeeps(s, Looked(t, k, found), Fail(BadCounter(error)));
    case Parsed(n) =>
      var next := Wrap64(n + delta);
      var bump := if ttl > 0 then Some(Deadline(s.clock, ttl)) else None;
      var entry := Entry(FormatInt(next), if bump.Some? then bump.value else ExpiryOf(e));
      var a := Added(t, k, delta, bump, s.clock, Stored(entry, |s.log|), next);
      AddFits(s, a, ttl);
      AnsweringKeeps(s, a, Count(next));
  }

  lemma LookFits(s: State, t: nat, k: Bytes)
    ensures Fits(s, Looked(t, k, Lookup(s.items, k)))
  {
  }

  lemma AddFits(s: State, a: Act, ttl: int64)
    requires Inv(s) && a.Added? && a.now == s.clock && a.stored.id == |s.log|
    requires a.bump == if ttl > 0 then Some(Deadline(s.clock, ttl)) else None
    requires Adds(AliveEntry(Lookup(s.items, a.key), s.clock), a.delta, a.bump, a.stored.entry, a.count)
    ensures Fits(s, a)
  {
    hide WellMade, Justified, Counter, FormatInt, Wrap64;
    assert ItemsNear(s);
  }

  lemma LateDeleteKeeps(s: State, t: nat)
    requires Inv(s) && t in s.tasks && s.tasks[t].Deleting?
    ensures Inv(Step(s, LateDelete(t)))
  {
    hide WellMade, Justified, MissOf;
    var Deleting(k, kind, seen, at) := s.tasks[t];
    WithoutKeeps(s, t);
    LateDeleteAccounts(kind, t, k, Lookup(s.items, k), at, s.clock);
    AnsweringKeeps(Without(s, t), Forgot(t, k, Lookup(s.items, k), at, s.clock), MissOf(kind));
  }

  lemma LateDeleteAccounts(kind: Kind, t: nat, k: Bytes, lost: Option<Stored>, at: nat, now: int)
    ensures Accounts(Forgot(t, k, lost, at, now), MissOf(kind), now)
  {
  }

  lemma StoreKeeps(s: State, t: nat)
    requires Inv(s) && t in s.tasks && s.tasks[t].Storing?
    ensures Inv(Step(s, Store(t)))
  {
    hide WellMade, Justified;
    WithoutKeeps(s, t);
    AnsweringKeeps(Without(s, t), Put(t, s.tasks[t].key, Stored(s.tasks[t].entry, |s.log|)), Done);
  }

  lemma StepKeeps(s: State, l: Label)
    requires Inv(s)
    ensures Inv(Step(s, l))
  {
    hide WellMade, Justified, LookStep, JudgeStep, IncrementStep;
    match l
    case Tick(_) =>
    case Look(t, kind, k) => LookKeeps(s, t, kind, k);
    case Judge(t) => if t in s.tasks && s.tasks[t].Judging? { JudgeKeeps(s, t); }
    case LateDelete(t) => if t in s.tasks && s.tasks[t].Deleting? { LateDeleteKeeps(s, t); }
    case Stamp(t, k, value, ttl) => TaskKeeps(s, t, Storing(k, Entry(value, Deadline(s.clock, ttl))));
    case Store(t) => if t in s.tasks && s.tasks[t].Storing? { StoreKeeps(s, t); }
    case TakeNow(t, k) =>
      var e := AliveEntry(Lookup(s.items, k), s.clock);
      AnsweringKeeps(s, Took(t, k, Lookup(s.items, k)), if e.Some? then Value(e.value.value) else Fail(Miss));
    case IncrementNow(t, k, delta, ttl) => IncrementKeeps(s, t, k, delta, ttl);
    case DeleteNow(t, k) => AnsweringKeeps(s, Dropped(t, k), Done);
  }

  // ---------- answers ----------

  /** What a goroutine has looked at is not answered yet, and nobody else will answer it. */
  predicate PendingFits(s: State) {
    && (forall t :: t in s.tasks && !s.tasks[t].Storing? ==> Unanswered(s.answers, s.tasks[t].at))
    && (forall t, u :: t in s.tasks && u in s.tasks && t != u && !s.tasks[t].Storing? && !s.tasks[u].Storing? ==>
          s.tasks[t].at != s.tasks[u].at)
  }

  ghost predicate ChangesAnswered(s: State) {
    forall j :: 0 <= j < |s.log| && Changes(s.log[j]) ==> exists i: nat :: AnswerTo(s.answers, i, j)
  }

  /** Every act is answered at most once, and every change exactly once. */
  ghost predicate Once(s: State) {
    AnsweredOnce(s.answers) && PendingFits(s) && ChangesAnswered(s)
  }

  lemma AnswersGrow(s: State, s': State, r: Return)
    requires s'.answers == s.answers + [r] && s.log <= s'.log && ChangesAnswered(s)
    ensures forall j :: 0 <= j < |s.log| && Changes(s.log[j]) ==> exists i: nat :: AnswerTo(s'.answers, i, j)
  {
    forall j | 0 <= j < |s.log| && Changes(s.log[j])
      ensures exists i: nat :: AnswerTo(s'.answers, i, j)
    {
      var i: nat :| AnswerTo(s.answers, i, j);
      assert AnswerTo(s'.answers, i, j);
    }
  }

  lemma AnsweringOnce(s: State, a: Act, answer: Answer)
    requires Inv(s) && Once(s) && answer != UNAVAILABLE
    ensures Once(Answering(s, a, answer))
  {
    var s' := Answering(s, a, answer);
    AnswersGrow(s, s', Return(a.actor, a.key, answer, |s.log|, s.clock));
    assert AnswerTo(s'.answers, |s.answers|, |s.log|);
  }

  lemma LookOnce(s: State, t: nat, kind: Kind, k: Bytes)
    requires Inv(s) && Once(s) && t !in s.tasks
    ensures Once(LookStep(s, t, kind, k))
  {
    var a := Looked(t, k, Lookup(s.items, k));
    if a.found.None? {
      AnsweringOnce(s, a, MissOf(kind));
    }
  }

  lemma JudgeOnce(s: State, t: nat)
    requires Inv(s) && Once(s) && t in s.tasks && s.tasks[t].Judging?
    ensures Once(JudgeStep(s, t, s.tasks[t]))
  {
    var Judging(k, kind, seen, at) := s.tasks[t];
    if Alive(seen.entry, s.clock) {
      AnswersGrow(s, JudgeStep(s, t, s.tasks[t]), Return(t, k, HitOf(kind, seen.entry, s.clock), at, s.clock));
    }
  }

  lemma WithoutOnce(s: State, t: nat)
    requires Inv(s) && Once(s)
    ensures Inv(Without(s, t)) && Once(Without(s, t))
  {
    WithoutKeeps(s, t);
  }

  lemma StepOnce(s: State, l: Label)
    requires Inv(s) && Once(s)
    ensures Once(Step(s, l))
  {
    hide LookStep, JudgeStep, IncrementStep, Inv, HitOf;
    match l
    case Tick(_) =>
    case Look(t, kind, k) => if t !in s.tasks { LookOnce(s, t, kind, k); }
    case Judge(t) => if t in s.tasks && s.tasks[t].Judging? { JudgeOnce(s, t); }
    case LateDelete(t) =>
      if t in s.tasks && s.tasks[t].Deleting? {
        var Deleting(k, kind, seen, at) := s.tasks[t];
        WithoutOnce(s, t);
        AnsweringOnce(Without(s, t), Forgot(t, k, Lookup(s.items, k), at, s.clock), MissOf(kind));
      }
    case Stamp(t, k, value, ttl) =>
    case Store(t) =>
      if t in s.tasks && s.tasks[t].Storing? {
        WithoutOnce(s, t);
        AnsweringOnce(Without(s, t), Put(t, s.tasks[t].key, Stored(s.tasks[t].entry, |s.log|)), Done);
      }
    case TakeNow(t, k) =>
      var e := AliveEntry(Lookup(s.items, k), s.clock);
      AnsweringOnce(s, Took(t, k, Lookup(s.items, k)), if e.Some? then Value(e.value.value) else Fail(Miss));
    case IncrementNow(t, k, delta, ttl) => IncrementOnce(s, t, k, delta, ttl);
    case DeleteNow(t, k) => AnsweringOnce(s, Dropped(t, k), Done);
  }

  lemma IncrementOnce(s: State, t: nat, k: Bytes, delta: int64, ttl: int64)
    requires Inv(s) && Once(s)
    ensures Once(IncrementStep(s, t, k, delta, ttl))
  {
    var s' := IncrementStep(s, t, k, delta, ttl);
    AnsweringOnce(s, s'.log[|s.log|], s'.answers[|s.answers|].answer);
  }

  // ---------- all interleavings ----------

  /** An interleaving that starts with an empty store. */
  predicate IsRunFromEmpty(run: seq<State>, labels: seq<Label>) {
    IsRun(run, labels) && run[0] == Empty(run[0].clock)
  }

  lemma {:induction false} AlwaysInv(run: seq<State>, labels: seq<Label>, n: nat)
    requires IsRunFromEmpty(run, labels) && n <= |labels|
    ensures Inv(run[n])
  {
    if n > 0 {
      AlwaysInv(run, labels, n - 1);
      assert StepAt(run, labels, n - 1);
      StepKeeps(run[n - 1], labels[n - 1]);
    }
  }

  lemma {:induction false} AlwaysOnce(run: seq<State>, labels: seq<Label>, n: nat)
    requires IsRunFromEmpty(run, labels) && n <= |labels|
    ensures Once(run[n])
  {
    if n > 0 {
      AlwaysOnce(run, labels, n - 1);
      AlwaysInv(run, labels, n - 1);
      assert StepAt(run, labels, n - 1);
      StepOnce(run[n - 1], labels[n - 1]);
    }
  }

  /**
   * Under every interleaving the store is a map that may forget: its journal is a legal one, its items are
   * what the journal says, every answer is what one act on its key says, no act answers twice, and no change
   * goes unanswered.
   */
  lemma EveryInterleaving(run: seq<State>, labels: seq<Label>, n: nat)
    requires IsRunFromEmpty(run, labels) && n <= |labels|
    ensures Inv(run[n]) && Once(run[n])
  {
    AlwaysInv(run, labels, n);
    AlwaysOnce(run, labels, n);
  }

  /** Every change is reported to the goroutine that made it, and to nobody else. */
  lemma ChangesAreReportedOnce(run: seq<State>, labels: seq<Label>, n: nat, j: nat)
    requires IsRunFromEmpty(run, labels) && n <= |labels|
    requires j < |run[n].log| && Changes(run[n].log[j])
    ensures exists i: nat :: AnswerTo(run[n].answers, i, j) && run[n].answers[i].actor == run[n].log[j].actor
                        && Accounts(run[n].log[j], run[n].answers[i].answer, run[n].answers[i].now)
                        && forall i': nat :: AnswerTo(run[n].answers, i', j) ==> i' == i
  {
    EveryInterleaving(run, labels, n);
    var s := run[n];
    var i: nat :| AnswerTo(s.answers, i, j);
    assert Justified(s.log, s.answers[i]);
  }

  /** A Get or Take that hits returns the latest write to its key as of its read step, still alive at its clock reading. */
  lemma HitsAreLatestWrites(run: seq<State>, labels: seq<Label>, n: nat, i: nat)
    requires IsRunFromEmpty(run, labels) && n <= |labels|
    requires i < |run[n].answers| && run[n].answers[i].answer.Value?
    ensures ReturnsLatestWrite(run[n].log, run[n].answers[i])
  {
    EveryInterleaving(run, labels, n);
    assert Justified(run[n].log, run[n].answers[i]);
    HitReturnsLatestWrite(run[n].log, run[n].answers[i]);
  }

  /** No written item is handed out to two callers of Take. */
  lemma TakesAreExclusive(run: seq<State>, labels: seq<Label>, n: nat, i: nat, j: nat)
    requires IsRunFromEmpty(run, labels) && n <= |labels|
    requires var s := run[n];
             && i < j < |s.answers| && s.answers[i].answer.Value? && s.answers[j].answer.Value?
             && s.answers[i].at < |s.log| && s.log[s.answers[i].at].Took?
             && s.answers[j].at < |s.log| && s.log[s.answers[j].at].Took?
    ensures var s := run[n];
            && s.log[s.answers[i].at].found.Some? && s.log[s.answers[j].at].found.Some?
            && s.log[s.answers[i].at].found.value.id != s.log[s.answers[j].at].found.value.id
  {
    EveryInterleaving(run, labels, n);
    var s := run[n];
    assert Justified(s.log, s.answers[i]) && Justified(s.log, s.answers[j]);
    HandedOutOnce(s.log, s.answers, i, j);
  }

  /** Once removed or overwritten, an item is never in the store again. */
  lemma RemovedStaysRemoved(run: seq<State>, labels: seq<Label>, n: nat, k: Bytes, i: nat, k': Bytes)
    requires IsRunFromEmpty(run, labels) && n <= |labels|
    requires var log := run[n].log; i < |log| && Touches(log[i], k) && Lookup(Replay(log[..i]), k).Some?
    ensures k' in run[n].items ==> run[n].items[k'].id != Lookup(Replay(run[n].log[..i]), k).value.id
  {
    EveryInterleaving(run, labels, n);
    var s := run[n];
    NothingReappears(s.log, k, i, |s.log|, k');
    assert s.log[..|s.log|] == s.log;
  }

  /**
   * A live item is lost only to the deferred delete of a Get, Exists or TTL, and only if it was written after
   * that call had looked.
   */
  lemma OnlyDeferredDeletesForget(run: seq<State>, labels: seq<Label>, n: nat, i: nat)
    requires IsRunFromEmpty(run, labels) && n <= |labels|
    requires i < |run[n].log| && !Harmless(run[n].log[i])
    ensures DropsNewerWrite(run[n].log, i)
  {
    EveryInterleaving(run, labels, n);
    LostWasWrittenAfterLook(run[n].log, i);
  }

  /**
   * Otherwise the store is atomic: a key looks different than in the map that took the same acts without forgetting
   * exactly if a deferred delete has dropped an entry of this key that would still be alive, and nothing but more
   * such deletes has touched the key since; then the key is absent, and the map holds that entry.
   */
  lemma OtherwiseAtomic(run: seq<State>, labels: seq<Label>, n: nat, k: Bytes)
    requires IsRunFromEmpty(run, labels) && n <= |labels|
    ensures var s, atomic := run[n], Replay(Unforgetting(run[n].log));
            && (AliveEntry(Lookup(s.items, k), s.clock) != AliveEntry(Lookup(atomic, k), s.clock)
                <==> exists i: nat :: LostAlive(s.log, k, i, s.clock))
            && (forall i: nat :: LostAlive(s.log, k, i, s.clock) ==>
                  DropsNewerWrite(s.log, i) && k !in s.items && Lookup(atomic, k) == s.log[i].lost)
            && (k in s.items ==> Lookup(atomic, k) == Some(s.items[k]))
  {
    EveryInterleaving(run, labels, n);
    DiffersIffForgotten(run[n].log, k, run[n].clock);
    if k in run[n].items {
      PresentIsSame(run[n].log, k);
    }
  }

  // ---------- an interleaving that forgets ----------

  const OLD_ITEM := Stored(Entry([7], Some(6)), 0)
  const NEW_ITEM := Stored(Entry([8], None), 2)

  /** A Get judges an item expired, a Set replaces it, and the Get deletes the replacement. */
  const LOSING_LABELS: seq<Label> :=
    [Stamp(0, [], [7], 5), Store(0), Tick(9), Look(1, GetKind, []), Judge(1), Stamp(0, [], [8], 0), Store(0), LateDelete(1)]

  function States(s: State, labels: seq<Label>): (run: seq<State>)
    ensures IsRun(run, labels) && run[0] == s
    decreases |labels|
  {
    if labels == [] then [s]
    else
      var run := [s] + States(Step(s, labels[0]), labels[1..]);
      assert forall i :: 0 <= i < |labels| ==> StepAt(run, labels, i) by {
        forall i | 0 <= i < |labels|
          ensures StepAt(run, labels, i)
        {
          if i > 0 {
            assert StepAt(States(Step(s, labels[0]), labels[1..]), labels[1..], i - 1);
          }
        }
      }
      run
  }

  lemma LosingRunBegins(run: seq<State>)
    requires IsRun(run, LOSING_LABELS) && run[0] == Empty(1)
    ensures run[3] == State(map[[] := OLD_ITEM], map[], 10, [Put(0, [], OLD_ITEM)], [Return(0, [], Done, 0, 1)])
  {
    assert StepAt(run, LOSING_LABELS, 0);
    assert StepAt(run, LOSING_LABELS, 1);
    assert StepAt(run, LOSING_LABELS, 2);
  }

  lemma LosingRunGoesOn(run: seq<State>)
    requires IsRun(run, LOSING_LABELS) && run[0] == Empty(1)
    ensures run[5].items == map[[] := OLD_ITEM] && run[5].tasks == map[1 := Deleting([], GetKind, OLD_ITEM, 1)]
    ensures run[5].clock == 10 && run[5].log == [Put(0, [], OLD_ITEM), Looked(1, [], Some(OLD_ITEM))]
  {
    LosingRunBegins(run);
    assert StepAt(run, LOSING_LABELS, 3);
    assert StepAt(run, LOSING_LABELS, 4);
  }

  lemma LosingRun(run: seq<State>)
    requires IsRun(run, LOSING_LABELS) && run[0] == Empty(1)
    ensures run[8].items == map[]
    ensures run[8].log == LOSING_JOURNAL
  {
    LosingRunGoesOn(run);
    assert StepAt(run, LOSING_LABELS, 5);
    assert StepAt(run, LOSING_LABELS, 6);
    assert StepAt(run, LOSING_LABELS, 7);
  }

  const LOSING_JOURNAL: seq<Act> :=
    [Put(0, [], OLD_ITEM), Looked(1, [], Some(OLD_ITEM)), Put(0, [], NEW_ITEM), Forgot(1, [], Some(NEW_ITEM), 1, 10)]

  /** Without its forgetting the journal ends with the new item in place. */
  lemma LosingJournalKept()
    ensures Lookup(Replay(Unforgetting(LOSING_JOURNAL)), []) == Some(NEW_ITEM)
  {
    var one, two, three := LOSING_JOURNAL[..1], LOSING_JOURNAL[..2], LOSING_JOURNAL[..3];
    assert one[..0] == [] && two[..1] == one && three[..2] == two;
    assert Unforgetting(one) == one;
    assert Unforgetting(two) == two;
    assert Unforgetting(LOSING_JOURNAL) == Unforgetting(three) == three;
  }

  /** A live item without a deadline is gone, though the atomic map would hold it. */
  lemma ANewWriteCanBeForgotten()
    ensures exists run: seq<State> ::
              IsRunFromEmpty(run, LOSING_LABELS) && [] !in run[8].items
              && Lookup(Replay(Unforgetting(run[8].log)), []) == Some(NEW_ITEM)
  {
    var run := States(Empty(1), LOSING_LABELS);
    LosingRun(run);
    LosingJournalKept();
    assert run[8].log == LOSING_JOURNAL && IsRunFromEmpty(run, LOSING_LABELS);
  }

  // ---------- counters ----------

  /** No goroutine is about to store or delete under `k`, and whoever looked at it saw an item that never expires. */
  predicate Calm(s: State, k: Bytes) {
    && (k in s.items ==> s.items[k].entry.expiry.None?)
    && forall t :: t in s.tasks && s.tasks[t].key == k ==> s.tasks[t].Judging? && s.tasks[t].seen.entry.expiry.None?
  }

  /** Nothing but increments without a lifetime, and reads, under `k`. */
  predicate CountsOnly(l: Label, k: Bytes) {
    match l
    case Stamp(_, key, _, _) => key != k
    case TakeNow(_, key) => key != k
    case DeleteNow(_, key) => key != k
    case IncrementNow(_, key, _, ttl) => key == k ==> ttl <= 0
    case _ => true
  }

  lemma StepCalm(s: State, l: Label, k: Bytes)
    requires Inv(s) && Calm(s, k) && CountsOnly(l, k)
    ensures Calm(Step(s, l), k) && s.log <= Step(s, l).log
    ensures OnlyCounts(Step(s, l).log, |s.log|, k)
  {
    match l
    case IncrementNow(t, key, delta, ttl) => if t !in s.tasks { IncrementCalm(s, t, key, delta, ttl, k); }
    case Look(t, kind, key) => if t !in s.tasks { LookCalm(s, t, kind, key, k); }
    case LateDelete(t) => EndCalm(s, l, k);
    case Store(t) => EndCalm(s, l, k);
    case _ =>
  }

  lemma EndCalm(s: State, l: Label, k: Bytes)
    requires Calm(s, k) && (l.LateDelete? || l.Store?)
    ensures Calm(Step(s, l), k) && s.log <= Step(s, l).log && OnlyCounts(Step(s, l).log, |s.log|, k)
  {
    assert l.task in s.tasks && s.tasks[l.task].key == k ==> s.tasks[l.task].Judging?;
  }

  lemma LookCalm(s: State, t: nat, kind: Kind, key: Bytes, k: Bytes)
    requires Calm(s, k) && t !in s.tasks
    ensures var s' := LookStep(s, t, kind, key); Calm(s', k) && s.log <= s'.log && OnlyCounts(s'.log, |s.log|, k)
  {
  }

  lemma IncrementCalm(s: State, t: nat, key: Bytes, delta: int64, ttl: int64, k: Bytes)
    requires Calm(s, k) && (key == k ==> ttl <= 0)
    ensures var s' := IncrementStep(s, t, key, delta, ttl); Calm(s', k) && s.log <= s'.log && OnlyCounts(s'.log, |s.log|, k)
  {
  }

  /** `s'` comes after `s`, and in between `k` was only counted. */
  ghost predicate OnlyCountedSince(s: State, s': State, k: Bytes) {
    Inv(s) && Inv(s') && Calm(s', k) && s.log <= s'.log && OnlyCounts(s'.log, |s.log|, k)
  }

  lemma CalmGoesOn(first: State, s: State, s': State, k: Bytes)
    requires OnlyCountedSince(first, s, k) && Inv(s') && Calm(s', k)
    requires s.log <= s'.log && OnlyCounts(s'.log, |s.log|, k)
    ensures OnlyCountedSince(first, s', k)
  {
    assert forall i :: 0 <= i < |s.log| ==> s'.log[i] == s.log[i];
  }

  lemma {:induction false} RunCalm(run: seq<State>, labels: seq<Label>, k: Bytes, n: nat)
    requires IsRun(run, labels) && n <= |labels| && Inv(run[0]) && Calm(run[0], k)
    requires forall i :: 0 <= i < |labels| ==> CountsOnly(labels[i], k)
    ensures OnlyCountedSince(run[0], run[n], k)
  {
    if n > 0 {
      RunCalm(run, labels, k, n - 1);
      assert StepAt(run, labels, n - 1);
      StepKeeps(run[n - 1], labels[n - 1]);
      StepCalm(run[n - 1], labels[n - 1], k);
      CalmGoesOn(run[0], run[n - 1], run[n], k);
    }
  }

  /**
   * Conservation: on a counter that never expires, any interleaving of increments with Get, TTL and Exists
   * (and anything at all on other keys) leaves the value at the initial one plus the sum of the deltas,
   * modulo 2^64.
   */
  lemma CountersConserved(run: seq<State>, labels: seq<Label>, k: Bytes, n: int64, m: nat)
    requires IsRun(run, labels) && m <= |labels| && Inv(run[0]) && Calm(run[0], k)
    requires PlainCounter(Lookup(run[0].items, k), n)
    requires forall i :: 0 <= i < |labels| ==> CountsOnly(labels[i], k)
    ensures PlainCounter(Lookup(run[m].items, k), Wrap64(n + Sum(run[m].log, |run[0].log|, k)))
  {
    hide StepAt, Justified, ItemsNear, TimesFit, AnswersTimed, TaskFits, Sum, PlainCounter;
    RunCalm(run, labels, k, m);
    CountsAdd(run[0].log, run[m].log, k, n);
  }

  /** And every increment on the way, the act at `j`, is answered with the running sum at its step. */
  lemma IncrementsReportRunningSum(run: seq<State>, labels: seq<Label>, k: Bytes, n: int64, m: nat, j: nat)
    requires IsRun(run, labels) && m <= |labels| && Inv(run[0]) && Calm(run[0], k)
    requires PlainCounter(Lookup(run[0].items, k), n)
    requires forall i :: 0 <= i < |labels| ==> CountsOnly(labels[i], k)
    requires |run[0].log| <= j < |run[m].log| && run[m].log[j].Added? && run[m].log[j].key == k
    ensures run[m].log[j].count == Wrap64(n + Sum(run[m].log[..j + 1], |run[0].log|, k))
    ensures forall i :: 0 <= i < |run[m].answers| && run[m].answers[i].at == j ==>
              run[m].answers[i].answer == Count(run[m].log[j].count)
  {
    RunCalm(run, labels, k, m);
    var s := run[m];
    CountReported(run[0].log, s.log, k, n, j);
    forall i | 0 <= i < |s.answers| && s.answers[i].at == j
      ensures s.answers[i].answer == Count(s.log[j].count)
    {
      assert Justified(s.log, s.answers[i]);
    }
  }
}
