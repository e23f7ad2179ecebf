/**
 * The database store under any number of clients, one SQL statement at a time. Any statement may fail. On
 * MySQL a SELECT ... FOR UPDATE that finds its row, and every DELETE, INSERT or UPDATE that changes a row,
 * holds the key until commit or rollback, and a statement on a key held by another transaction waits; a
 * SELECT that finds nothing holds nothing, so two clients may both go on to insert and the primary key
 * refuses the second. On SQLite there is one connection: while a transaction is open nobody else proceeds.
 * Get, Exists and TTL read one committed row, judge it, and delete it later in a statement of its own.
 */
module DatabaseTx {
  import opened Basics
  import opened Decimal
  import opened TtlMap
  import opened Journal
  import opened DatabaseStore

  /** A committed row and the position in the journal of the act that wrote it. */
  datatype Tagged = Tagged(row: Row, id: nat)
  type Table = map<Bytes, Tagged>

  /** Where a client is between two of its statements; `now` is its clock reading. */
  datatype Session =
    | SetStamped(key: Bytes, value: Bytes, lifetime: int64, now: int)
    | SetOpen(key: Bytes, value: Bytes, lifetime: int64, now: int)
    | SetCleared(key: Bytes, value: Bytes, lifetime: int64, now: int, gone: bool)
    | SetWritten(key: Bytes, value: Bytes, lifetime: int64, now: int)
    | TakeOpen(key: Bytes)
    | TakeRead(key: Bytes, taken: Tagged)
    | TakeCleared(key: Bytes, taken: Tagged)
    | TakeDone(key: Bytes, taken: Tagged, at: nat)
    | IncOpen(key: Bytes, delta: int64, ttl: int64)
    | IncRead(key: Bytes, delta: int64, ttl: int64, found: Option<Tagged>)
    | IncTimed(key: Bytes, delta: int64, ttl: int64, found: Option<Tagged>, now: int)
    | IncSwept(key: Bytes, delta: int64, ttl: int64, found: Option<Tagged>, now: int)
    | IncWritten(key: Bytes, delta: int64, ttl: int64, found: Option<Tagged>, now: int, row: Row, next: int64)
    | Judging(key: Bytes, kind: Kind, seen: Tagged, at: nat)
    | Sweeping(key: Bytes, kind: Kind, seen: Tagged, at: nat)

  predicate InTx(x: Session) {
    !x.SetStamped? && !x.TakeDone? && !x.Judging? && !x.Sweeping?
  }

  datatype State = State(
    sqlite: bool,
    table: Table,
    sessions: map<nat, Session>,
    locks: map<Bytes, nat>,
    clock: int,
    log: seq<Act>,
    answers: seq<Return>)

  datatype Label =
    | Tick(elapsed: nat)
    | StartSet(client: nat, key: Bytes, value: Bytes, ttl: int64)
    | StartTake(client: nat, key: Bytes, fault: bool)
    | StartIncrement(client: nat, key: Bytes, delta: int64, ttl: int64, fault: bool)
    | StartRead(client: nat, kind: Kind, key: Bytes, fault: bool)
    | DeleteNow(client: nat, key: Bytes, fault: bool)
    | Advance(client: nat, fault: bool)

  function Empty(sqlite: bool, clock: int): State {
    State(sqlite, map[], map[], map[], clock, [], [])
  }

  // ---------- in terms of entries ----------

  function AbsTagged(t: Tagged): Stored {
    Stored(AbsRow(t.row), t.id)
  }

  function AbsFound(t: Option<Tagged>): Option<Stored> {
    if t.Some? then Some(AbsTagged(t.value)) else None
  }

  function AbsTable(table: Table): Held {
    map k | k in table :: AbsTagged(table[k])
  }

  lemma AbsTableLookup(table: Table, k: Bytes)
    ensures Lookup(AbsTable(table), k) == AbsFound(Lookup(table, k))
  {
  }

  lemma AbsTableAssign(table: Table, k: Bytes, t: Option<Tagged>)
    ensures AbsTable(Assign(table, k, t)) == Assign(AbsTable(table), k, AbsFound(t))
  {
    forall x
      ensures Lookup(AbsTable(Assign(table, k, t)), x) == Lookup(Assign(AbsTable(table), k, AbsFound(t)), x)
    {
      AbsTableLookup(Assign(table, k, t), x);
      AbsTableLookup(table, x);
    }
    SameLookups(AbsTable(Assign(table, k, t)), Assign(AbsTable(table), k, AbsFound(t)));
  }

  // ---------- building blocks of a step ----------

  /** Whether the client may send a statement: always on MySQL, on SQLite only with no other transaction open. */
  predicate Ready(s: State, t: nat) {
    s.sqlite ==> forall u :: u in s.sessions && u != t ==> !InTx(s.sessions[u])
  }

  /** Nobody else holds the key. */
  predicate Free(s: State, t: nat, k: Bytes) {
    k !in s.locks || s.locks[k] == t
  }

  function Move(s: State, t: nat, x: Session): State {
    s.(sessions := s.sessions[t := x])
  }

  /** The same, now holding the key. */
  function Lock(s: State, t: nat, x: Session): State {
    s.(sessions := s.sessions[t := x], locks := s.locks[x.key := t])
  }

  /** The client is done: what it held is free. */
  function Release(s: State, t: nat): State {
    s.(sessions := s.sessions - {t}, locks := map k | k in s.locks && s.locks[k] != t :: s.locks[k])
  }

  function Say(s: State, t: nat, k: Bytes, answer: Answer, at: nat, now: int): State {
    s.(answers := s.answers + [Return(t, k, answer, at, now)])
  }

  /** Rollback with an error of the database, or no transaction at all. */
  function Refuse(s: State, t: nat, k: Bytes): State {
    Say(Release(s, t), t, k, Fail(Unavailable), 0, s.clock)
  }

  function Note(s: State, a: Act): State {
    s.(log := s.log + [a])
  }

  /** A committed change of one row. */
  function Change(s: State, a: Act, row: Option<Tagged>): State {
    s.(table := Assign(s.table, a.key, row), log := s.log + [a])
  }

  // ---------- Set ----------

  /** The row that a Set writes; its clock is read before the transaction begins. */
  function RowOf(x: Session): Row
    requires Setting(x)
  {
    Row(x.value, Column(x.now, x.lifetime))
  }

  function SetStep(s: State, t: nat, x: Session, fault: bool): State
    requires Setting(x)
  {
    var k := x.key;
    if fault then Refuse(s, t, k)
    else match x
         case SetStamped(_, value, ttl, now) => Move(s, t, SetOpen(k, value, ttl, now))
         case SetOpen(_, value, ttl, now) =>
           if k in s.table then Lock(s, t, SetCleared(k, value, ttl, now, true))
           else Move(s, t, SetCleared(k, value, ttl, now, false))
         case SetCleared(_, value, ttl, now, gone) =>
           if !gone && k in s.table then Refuse(s, t, k) else Lock(s, t, SetWritten(k, value, ttl, now))
         case SetWritten(_, _, _, _) =>
           var a := Put(t, k, Stored(AbsRow(RowOf(x)), |s.log|));
           Say(Change(Release(s, t), a, Some(Tagged(RowOf(x), |s.log|))), t, k, Done, |s.log|, s.clock)
  }

  // ---------- Take ----------

  function TakeStep(s: State, t: nat, x: Session, fault: bool): State
    requires Taking(x)
  {
    var k := x.key;
    if fault then Refuse(s, t, k)
    else match x
         case TakeOpen(_) =>
           if k !in s.table then Say(Note(Release(s, t), Looked(t, k, None)), t, k, Fail(Miss), |s.log|, s.clock)
           else if s.sqlite then Move(s, t, TakeRead(k, s.table[k]))
           else Lock(s, t, TakeRead(k, s.table[k]))
         case TakeRead(_, taken) => Lock(s, t, TakeCleared(k, taken))
         case TakeCleared(_, taken) =>
           Move(Change(Release(s, t), Took(t, k, Some(AbsTagged(taken))), None), t, TakeDone(k, taken, |s.log|))
  }

  /** After its commit, Take reads the clock. */
  function TakeJudge(s: State, t: nat, x: Session): State
    requires x.TakeDone?
  {
    Say(s.(sessions := s.sessions - {t}), t, x.key,
        if RowExpired(x.taken.row, s.clock) then Fail(Miss) else Value(x.taken.row.value), x.at, s.clock)
  }

  // ---------- Increment ----------

  function Kept(found: Option<Tagged>, now: int): Option<Row> {
    if found.Some? && !RowExpired(found.value.row, now) then Some(found.value.row) else None
  }

  /** The row that an increment writes over the one it keeps. */
  function NextRow(kept: Option<Row>, next: int64, ttl: int64, now: int): Row {
    Row(FormatInt(next), if ttl > 0 then Column(now, ttl) else if kept.Some? then kept.value.expiresAt else 0)
  }

  function Counted(x: Session, n: int64): Session
    requires x.IncTimed? || x.IncSwept?
  {
    var next := Wrap64(n + x.delta);
    IncWritten(x.key, x.delta, x.ttl, x.found, x.now, NextRow(Kept(x.found, x.now), next, x.ttl, x.now), next)
  }

  /** The client's next move is a statement, not just a reading of its clock or of a malformed counter. */
  predicate Sends(x: Session) {
    !x.IncRead? && (x.IncTimed? ==> RowCounter(Kept(x.found, x.now)).Parsed?)
  }

  function IncStep(s: State, t: nat, x: Session, fault: bool): State
    requires x.IncOpen? || x.IncRead? || x.IncTimed? || x.IncSwept?
  {
    var k := x.key;
    if fault && Sends(x) then Refuse(s, t, k)
    else match x
         case IncOpen(_, delta, ttl) =>
           var read := IncRead(k, delta, ttl, Lookup(s.table, k));
           if k in s.table && !s.sqlite then Lock(s, t, read) else Move(s, t, read)
         case IncRead(_, delta, ttl, found) => Move(s, t, IncTimed(k, delta, ttl, found, s.clock))
         case IncTimed(_, delta, ttl, found, now) =>
           if found.Some? && RowExpired(found.value.row, now) then Lock(s, t, IncSwept(k, delta, ttl, found, now))
           else (match RowCounter(Kept(found, now))
                 case Rejected(error, _) =>
                   Say(Note(Release(s, t), Looked(t, k, AbsFound(found))), t, k, Fail(BadCounter(error)), |s.log|, now)
                 case Parsed(n) =>
                   if found.None? && k in s.table then Refuse(s, t, k) else Lock(s, t, Counted(x, n)))
         case IncSwept(_, _, _, _, _) => Lock(s, t, Counted(x, 0))
  }

  function IncCommit(s: State, t: nat, x: Session, fault: bool): State
    requires x.IncWritten?
  {
    if fault then Refuse(s, t, x.key)
    else Say(Change(Release(s, t), CommitAct(s, t, x), Some(Tagged(x.row, |s.log|))), t, x.key, Count(x.next), |s.log|, s.clock)
  }

  function CommitAct(s: State, t: nat, x: Session): Act
    requires x.IncWritten?
  {
    Added(t, x.key, x.delta, if x.ttl > 0 then Some(Deadline(x.now, x.ttl)) else None, x.now, Stored(AbsRow(x.row), |s.log|), x.next)
  }

  // ---------- reads and their deferred delete ----------

  predicate JudgedDead(kind: Kind, r: Row, now: int) {
    if kind.TtlKind? then r.expiresAt != 0 && Wrap64(r.expiresAt - now) <= 0 else RowExpired(r, now)
  }

  function RowHit(kind: Kind, r: Row, now: int): Answer {
    match kind
    case GetKind => Value(r.value)
    case ExistsKind => Found(true)
    case TtlKind => Remaining(if r.expiresAt == 0 then 0 else Wrap64(r.expiresAt - now))
  }

  function ReadStep(s: State, t: nat, kind: Kind, k: Bytes, fault: bool): State {
    if fault then Refuse(s, t, k)
    else
      var a := Looked(t, k, AbsFound(Lookup(s.table, k)));
      if k !in s.table then Say(Note(s, a), t, k, MissOf(kind), |s.log|, s.clock)
      else Move(Note(s, a), t, Judging(k, kind, s.table[k], |s.log|))
  }

  function JudgeStep(s: State, t: nat, x: Session): State
    requires x.Judging?
  {
    if JudgedDead(x.kind, x.seen.row, s.clock) then Move(s, t, Sweeping(x.key, x.kind, x.seen, x.at))
    else Say(s.(sessions := s.sessions - {t}), t, x.key, RowHit(x.kind, x.seen.row, s.clock), x.at, s.clock)
  }

  /** The error of the deferred DELETE is ignored. */
  function SweepStep(s: State, t: nat, x: Session, fault: bool): State
    requires x.Sweeping?
  {
    var s' := s.(sessions := s.sessions - {t});
    if fault then Say(s', t, x.key, MissOf(x.kind), x.at, s.clock)
    else
      var a := Forgot(t, x.key, AbsFound(Lookup(s.table, x.key)), x.at, s.clock);
      Say(Change(s', a, None), t, x.key, MissOf(x.kind), |s.log|, s.clock)
  }

  // ---------- all steps ----------

  predicate Setting(x: Session) {
    x.SetStamped? || x.SetOpen? || x.SetCleared? || x.SetWritten?
  }

  predicate Taking(x: Session) {
    x.TakeOpen? || x.TakeRead? || x.TakeCleared?
  }

  /**
   * Which statement of the client comes next is clear from its session. One that must wait does nothing, unless it
   * fails while it waits.
   */
  function AdvanceStep(s: State, t: nat, x: Session, fault: bool): State {
    if x.TakeDone? then TakeJudge(s, t, x)
    else if x.Judging? then JudgeStep(s, t, x)
    else if (!Ready(s, t) || !Free(s, t, x.key)) && !(fault && Sends(x)) then s
    else if Setting(x) then SetStep(s, t, x, fault)
    else if Taking(x) then TakeStep(s, t, x, fault)
    else if x.Sweeping? then SweepStep(s, t, x, fault)
    else if x.IncWritten? then IncCommit(s, t, x, fault)
    else IncStep(s, t, x, fault)
  }

  function Step(s: State, l: Label): State {
    match l
    case Tick(elapsed) => if s.clock + elapsed <= MAX_INT64 then s.(clock := s.clock + elapsed) else s
    case Advance(t, fault) => if t in s.sessions then AdvanceStep(s, t, s.sessions[t], fault) else s
    case StartSet(t, k, value, ttl) =>
      if t in s.sessions then s else Move(s, t, SetStamped(k, value, ttl, s.clock))
    case StartTake(t, k, fault) =>
      if t in s.sessions || (!Ready(s, t) && !fault) then s
      else if fault then Refuse(s, t, k) else Move(s, t, TakeOpen(k))
    case StartIncrement(t, k, delta, ttl, fault) =>
      if t in s.sessions || (!Ready(s, t) && !fault) then s
      else if fault then Refuse(s, t, k) else Move(s, t, IncOpen(k, delta, ttl))
    case StartRead(t, kind, k, fault) =>
      if t in s.sessions || (!Ready(s, t) && !fault) then s else ReadStep(s, t, kind, k, fault)
    case DeleteNow(t, k, fault) =>
      if t in s.sessions || ((!Ready(s, t) || !Free(s, t, k)) && !fault) then s
      else if fault then Refuse(s, t, k) else Say(Change(s, Dropped(t, k), None), t, k, Done, |s.log|, s.clock)
  }

  predicate StepAt(run: seq<State>, labels: seq<Label>, i: nat)
    requires i < |labels| && |run| == |labels| + 1
  {
    run[i + 1] == Step(run[i], labels[i])
  }

  predicate IsRun(run: seq<State>, labels: seq<Label>) {
    |run| == |labels| + 1 && forall i :: 0 <= i < |labels| ==> StepAt(run, labels, i)
  }

  /** An interleaving that starts with an empty table and a clock in range. */
  predicate IsRunFromEmpty(run: seq<State>, labels: seq<Label>) {
    IsRun(run, labels) && Representable(run[0].clock) && run[0] == Empty(run[0].sqlite, run[0].clock)
  }

  // ---------- the invariant ----------

  /** The session is protected from other writers of its key. */
  predicate Secure(s: State, t: nat, k: Bytes) {
    s.sqlite || (k in s.locks && s.locks[k] == t)
  }

  /** No deadline lies more than a Duration ahead. */
  predicate Near(r: Row, clock: int) {
    AbsRow(r).expiry.Some? ==> AbsRow(r).expiry.value - clock <= MAX_INT64
  }

  /** What a client knows still holds. */
  predicate Fits(s: State, t: nat, x: Session) {
    match x
    case SetStamped(_, _, _, now) => Representable(now) && now <= s.clock
    case SetOpen(_, _, _, now) => Representable(now) && now <= s.clock
    case SetCleared(k, _, _, now, gone) => Representable(now) && now <= s.clock && (gone ==> Secure(s, t, k))
    case SetWritten(k, _, _, now) => Representable(now) && now <= s.clock && Secure(s, t, k)
    case TakeRead(k, taken) => Secure(s, t, k) && Lookup(s.table, k) == Some(taken)
    case TakeCleared(k, taken) => Secure(s, t, k) && Lookup(s.table, k) == Some(taken)
    case TakeDone(k, taken, at) => at < |s.log| && s.log[at] == Took(t, k, Some(AbsTagged(taken)))
    case IncRead(k, _, _, found) => found.Some? ==> Secure(s, t, k) && Lookup(s.table, k) == found
    case IncTimed(k, _, _, found, now) =>
      Representable(now) && now <= s.clock && (found.Some? ==> Secure(s, t, k) && Lookup(s.table, k) == found)
    case IncSwept(k, _, _, found, now) =>
      && Representable(now) && now <= s.clock && Kept(found, now).None?
      && Secure(s, t, k) && Lookup(s.table, k) == found
    case IncWritten(k, delta, ttl, found, now, row, next) =>
      && Representable(now) && now <= s.clock
      && Secure(s, t, k) && Lookup(s.table, k) == found
      && RowCounter(Kept(found, now)).Parsed? && next == Wrap64(RowCounter(Kept(found, now)).value + delta)
      && row == NextRow(Kept(found, now), next, ttl, now)
    case Judging(k, _, seen, at) => at < |s.log| && s.log[at] == Looked(t, k, Some(AbsTagged(seen))) && Near(seen.row, s.clock)
    case Sweeping(k, _, seen, at) =>
      at < |s.log| && s.log[at] == Looked(t, k, Some(AbsTagged(seen))) && !Alive(AbsRow(seen.row), s.clock)
    case _ => true
  }

  predicate LocksFit(s: State) {
    forall k :: k in s.locks ==> s.locks[k] in s.sessions && InTx(s.sessions[s.locks[k]]) && s.sessions[s.locks[k]].key == k
  }

  predicate OneConnection(s: State) {
    s.sqlite ==> forall t, u :: t in s.sessions && u in s.sessions && InTx(s.sessions[t]) && InTx(s.sessions[u]) ==> t == u
  }

  predicate RowsNear(s: State) {
    forall k :: k in s.table ==> Near(s.table[k].row, s.clock)
  }

  predicate AnswersFit(s: State) {
    forall i :: 0 <= i < |s.answers| ==> s.answers[i].answer == Fail(Unavailable) || Justified(s.log, s.answers[i])
  }

  ghost predicate JournalFits(s: State) {
    && WellMade(s.log) && AbsTable(s.table) == Replay(s.log) && Representable(s.clock)
    && forall i :: 0 <= i < |s.log| && s.log[i].Forgot? ==> s.log[i].now <= s.clock
  }

  ghost predicate Inv(s: State) {
    && JournalFits(s) && AnswersFit(s) && RowsNear(s) && LocksFit(s) && OneConnection(s)
    && forall t :: t in s.sessions ==> Fits(s, t, s.sessions[t])
  }

  // ---------- the building blocks keep it ----------

  /** What a client knows survives any step that leaves alone what it holds. */
  lemma FitsFrame(s: State, s': State, u: nat, x: Session)
    requires Fits(s, u, x) && s'.sqlite == s.sqlite && s.clock <= s'.clock && s.log <= s'.log
    requires InTx(x) && Secure(s, u, x.key) ==> Secure(s', u, x.key) && Lookup(s'.table, x.key) == Lookup(s.table, x.key)
    ensures Fits(s', u, x)
  {
  }

  lemma MoveKeeps(s: State, t: nat, x: Session)
    requires Inv(s) && Fits(s, t, x)
    requires InTx(x) ==> Ready(s, t)
    requires t in s.sessions && InTx(s.sessions[t]) ==> InTx(x) && x.key == s.sessions[t].key
    ensures Inv(Move(s, t, x))
  {
    var s' := Move(s, t, x);
    forall u | u in s'.sessions
      ensures Fits(s', u, s'.sessions[u])
    {
      FitsFrame(s, s', u, s'.sessions[u]);
    }
  }

  lemma LockKeeps(s: State, t: nat, x: Session)
    requires Inv(s) && Free(s, t, x.key) && Ready(s, t) && InTx(x)
    requires t in s.sessions && InTx(s.sessions[t]) && x.key == s.sessions[t].key
    requires Fits(Lock(s, t, x), t, x)
    ensures Inv(Lock(s, t, x))
  {
    var s' := Lock(s, t, x);
    forall u | u in s'.sessions && u != t
      ensures Fits(s', u, s'.sessions[u])
    {
      FitsFrame(s, s', u, s.sessions[u]);
    }
  }

  lemma ReleaseKeeps(s: State, t: nat)
    requires Inv(s)
    ensures Inv(Release(s, t))
  {
    var s' := Release(s, t);
    forall u | u in s'.sessions
      ensures Fits(s', u, s'.sessions[u])
    {
      FitsFrame(s, s', u, s.sessions[u]);
    }
  }

  lemma DoneKeeps(s: State, t: nat)
    requires Inv(s) && t in s.sessions && !InTx(s.sessions[t])
    ensures Inv(s.(sessions := s.sessions - {t}))
  {
    var s' := s.(sessions := s.sessions - {t});
    forall u | u in s'.sessions
      ensures Fits(s', u, s'.sessions[u])
    {
      FitsFrame(s, s', u, s.sessions[u]);
    }
  }

  lemma SayKeeps(s: State, t: nat, k: Bytes, answer: Answer, at: nat, now: int)
    requires Inv(s)
    requires answer == Fail(Unavailable) || Justified(s.log, Return(t, k, answer, at, now))
    ensures Inv(Say(s, t, k, answer, at, now))
  {
    var s' := Say(s, t, k, answer, at, now);
    forall u | u in s'.sessions
      ensures Fits(s', u, s'.sessions[u])
    {
      FitsFrame(s, s', u, s.sessions[u]);
    }
  }

  lemma RefuseKeeps(s: State, t: nat, k: Bytes)
    requires Inv(s)
    ensures Inv(Refuse(s, t, k))
  {
    ReleaseKeeps(s, t);
    SayKeeps(Release(s, t), t, k, Fail(Unavailable), 0, s.clock);
  }

  lemma NoteKeeps(s: State, a: Act)
    requires Inv(s) && a.Looked? && a.found == AbsFound(Lookup(s.table, a.key))
    ensures Inv(Note(s, a))
  {
    AbsTableLookup(s.table, a.key);
    Extend(s.log, a);
    forall t | t in s.sessions
      ensures Fits(Note(s, a), t, s.sessions[t])
    {
      FitsFrame(s, Note(s, a), t, s.sessions[t]);
    }
  }

  /** A change of a key that no other transaction relies on. */
  lemma ChangeKeeps(s: State, a: Act, row: Option<Tagged>)
    requires Inv(s) && !a.Looked? && Legal(AbsTable(s.table), a) && ForgetsWhatExpired(s.log, a)
    requires Written(a) == AbsFound(row)
    requires row.Some? ==> row.value.id == |s.log| && Near(row.value.row, s.clock)
    requires a.Forgot? ==> a.now <= s.clock
    requires a.key !in s.locks
    requires s.sqlite ==> forall u :: u in s.sessions ==> !InTx(s.sessions[u])
    ensures Inv(Change(s, a, row))
  {
    var s' := Change(s, a, row);
    Extend(s.log, a);
    AbsTableAssign(s.table, a.key, row);
    forall t | t in s.sessions
      ensures Fits(s', t, s.sessions[t])
    {
      assert Fits(s, t, s.sessions[t]);
      FitsFrame(s, s', t, s.sessions[t]);
    }
    forall k | k in s'.table
      ensures Near(s'.table[k].row, s.clock)
    {
      assert k == a.key || Lookup(s'.table, k) == Lookup(s.table, k);
    }
  }

  // ---------- every step keeps it ----------

  lemma CommitReady(s: State, t: nat)
    requires Inv(s) && t in s.sessions && InTx(s.sessions[t]) && Ready(s, t)
    requires Free(s, t, s.sessions[t].key)
    ensures Inv(Release(s, t)) && s.sessions[t].key !in Release(s, t).locks
    ensures s.sqlite ==> forall u :: u in Release(s, t).sessions ==> !InTx(Release(s, t).sessions[u])
  {
    ReleaseKeeps(s, t);
  }

  lemma SetKeeps(s: State, t: nat, fault: bool)
    requires Inv(s) && t in s.sessions && Ready(s, t) && Free(s, t, s.sessions[t].key)
    requires Setting(s.sessions[t])
    ensures Inv(SetStep(s, t, s.sessions[t], fault))
  {
    var x := s.sessions[t];
    var k := x.key;
    assert Fits(s, t, x);
    RefuseKeeps(s, t, k);
    if !fault {
      match x
      case SetStamped(_, value, ttl, now) => MoveKeeps(s, t, SetOpen(k, value, ttl, now));
      case SetOpen(_, value, ttl, now) =>
        if k in s.table {
          LockKeeps(s, t, SetCleared(k, value, ttl, now, true));
        } else {
          MoveKeeps(s, t, SetCleared(k, value, ttl, now, false));
        }
      case SetCleared(_, value, ttl, now, gone) =>
        if gone || k !in s.table { LockKeeps(s, t, SetWritten(k, value, ttl, now)); }
      case SetWritten(_, _, _, _) => SetCommitKeeps(s, t);
    }
  }

  lemma SetCommitKeeps(s: State, t: nat)
    requires Inv(s) && t in s.sessions && Ready(s, t) && Free(s, t, s.sessions[t].key)
    requires s.sessions[t].SetWritten?
    ensures Inv(SetStep(s, t, s.sessions[t], false))
  {
    var x := s.sessions[t];
    assert Fits(s, t, x);
    CommitReady(s, t);
    ColumnDeadline(x.value, x.now, x.lifetime);
    var a, row := Put(t, x.key, Stored(AbsRow(RowOf(x)), |s.log|)), Some(Tagged(RowOf(x), |s.log|));
    ChangeKeeps(Release(s, t), a, row);
    assert Change(Release(s, t), a, row).log[|s.log|] == a;
    SayKeeps(Change(Release(s, t), a, row), t, x.key, Done, |s.log|, s.clock);
  }

  lemma TakeKeeps(s: State, t: nat, fault: bool)
    requires Inv(s) && t in s.sessions && Ready(s, t) && Free(s, t, s.sessions[t].key)
    requires Taking(s.sessions[t])
    ensures Inv(TakeStep(s, t, s.sessions[t], fault))
  {
    var x := s.sessions[t];
    var k := x.key;
    assert Fits(s, t, x);
    RefuseKeeps(s, t, k);
    if !fault {
      match x
      case TakeOpen(_) =>
        if k !in s.table {
          MissKeeps(Release(s, t), t, k, Fail(Miss)) by { ReleaseKeeps(s, t); }
        } else if s.sqlite {
          MoveKeeps(s, t, TakeRead(k, s.table[k]));
        } else {
          LockKeeps(s, t, TakeRead(k, s.table[k]));
        }
      case TakeRead(_, taken) => LockKeeps(s, t, TakeCleared(k, taken));
      case TakeCleared(_, taken) => TakeCommitKeeps(s, t);
    }
  }

  lemma TakeCommitKeeps(s: State, t: nat)
    requires Inv(s) && t in s.sessions && Ready(s, t) && Free(s, t, s.sessions[t].key)
    requires s.sessions[t].TakeCleared?
    ensures Inv(TakeStep(s, t, s.sessions[t], false))
  {
    var TakeCleared(k, taken) := s.sessions[t];
    assert Fits(s, t, s.sessions[t]);
    CommitReady(s, t);
    AbsTableLookup(s.table, k);
    var a := Took(t, k, Some(AbsTagged(taken)));
    var s' := Change(Release(s, t), a, None);
    ChangeKeeps(Release(s, t), a, None);
    assert s'.log[|s.log|] == a;
    MoveKeeps(s', t, TakeDone(k, taken, |s.log|));
  }

  lemma MissKeeps(s: State, t: nat, k: Bytes, answer: Answer)
    requires Inv(s) && k !in s.table && (answer == Fail(Miss) || answer == Found(false))
    ensures Inv(Say(Note(s, Looked(t, k, None)), t, k, answer, |s.log|, s.clock))
  {
    var a := Looked(t, k, None);
    NoteKeeps(s, a);
    assert Note(s, a).log[|s.log|] == a;
    SayKeeps(Note(s, a), t, k, answer, |s.log|, s.clock);
  }

  lemma TakeJudgeKeeps(s: State, t: nat)
    requires Inv(s) && t in s.sessions && s.sessions[t].TakeDone?
    ensures Inv(TakeJudge(s, t, s.sessions[t]))
  {
    var x := s.sessions[t];
    assert Fits(s, t, x);
    DoneKeeps(s, t);
    ExpiredRow(Some(x.taken.row), s.clock);
    SayKeeps(s.(sessions := s.sessions - {t}), t, x.key,
             if RowExpired(x.taken.row, s.clock) then Fail(Miss) else Value(x.taken.row.value), x.at, s.clock);
  }

  /** Keeping in SQL terms is keeping what is alive. */
  lemma KeptIsAlive(found: Option<Tagged>, now: int)
    requires Representable(now)
    ensures AliveEntry(AbsFound(found), now) == AbsOption(Kept(found, now))
    ensures Counter(AliveEntry(AbsFound(found), now)) == RowCounter(Kept(found, now))
  {
    if found.Some? {
      ExpiredRow(Some(found.value.row), now);
    }
  }

  lemma IncKeeps(s: State, t: nat, fault: bool)
    requires Inv(s) && t in s.sessions && Ready(s, t) && Free(s, t, s.sessions[t].key)
    requires var x := s.sessions[t]; x.IncOpen? || x.IncRead? || x.IncTimed? || x.IncSwept?
    ensures Inv(IncStep(s, t, s.sessions[t], fault))
  {
    var x := s.sessions[t];
    var k := x.key;
    assert Fits(s, t, x);
    RefuseKeeps(s, t, k);
    match x
    case IncOpen(_, delta, ttl) =>
      if !fault {
        var read := IncRead(k, delta, ttl, Lookup(s.table, k));
        if k in s.table && !s.sqlite { LockKeeps(s, t, read); } else { MoveKeeps(s, t, read); }
      }
    case IncRead(_, delta, ttl, found) => MoveKeeps(s, t, IncTimed(k, delta, ttl, found, s.clock));
    case IncTimed(_, delta, ttl, found, now) => if !fault || !Sends(x) { IncTimedKeeps(s, t); }
    case IncSwept(_, delta, ttl, found, now) =>
      if !fault { LockKeeps(s, t, Counted(x, 0)); }
  }

  lemma IncTimedKeeps(s: State, t: nat)
    requires Inv(s) && t in s.sessions && Ready(s, t) && Free(s, t, s.sessions[t].key)
    requires s.sessions[t].IncTimed?
    ensures Inv(IncStep(s, t, s.sessions[t], false))
  {
    var IncTimed(k, delta, ttl, found, now) := s.sessions[t];
    assert Fits(s, t, s.sessions[t]);
    if found.Some? && RowExpired(found.value.row, now) {
      LockKeeps(s, t, IncSwept(k, delta, ttl, found, now));
    } else if RowCounter(Kept(found, now)).Rejected? {
      ReleaseKeeps(s, t);
      BadCounterKeeps(Release(s, t), t, k, found, now);
    } else if found.None? && k in s.table {
      RefuseKeeps(s, t, k);
    } else {
      CountedKeeps(s, t, RowCounter(Kept(found, now)).value);
    }
  }

  lemma CountedKeeps(s: State, t: nat, n: int64)
    requires Inv(s) && t in s.sessions && Ready(s, t) && Free(s, t, s.sessions[t].key)
    requires s.sessions[t].IncTimed? && Lookup(s.table, s.sessions[t].key) == s.sessions[t].found
    requires RowCounter(Kept(s.sessions[t].found, s.sessions[t].now)) == Parsed(n)
    ensures Inv(Lock(s, t, Counted(s.sessions[t], n)))
  {
    CountedFits(s, t, n);
    LockKeeps(s, t, Counted(s.sessions[t], n));
  }

  lemma CountedFits(s: State, t: nat, n: int64)
    requires Inv(s) && t in s.sessions && s.sessions[t].IncTimed?
    requires Lookup(s.table, s.sessions[t].key) == s.sessions[t].found
    requires RowCounter(Kept(s.sessions[t].found, s.sessions[t].now)) == Parsed(n)
    ensures var y := Counted(s.sessions[t], n); Fits(Lock(s, t, y), t, y)
  {
    assert Fits(s, t, s.sessions[t]);
  }

  lemma BadCounterKeeps(s: State, t: nat, k: Bytes, found: Option<Tagged>, now: int)
    requires Inv(s) && found.Some? && Lookup(s.table, k) == found
    requires Representable(now) && now <= s.clock && RowCounter(Kept(found, now)).Rejected?
    ensures Inv(Say(Note(s, Looked(t, k, AbsFound(found))), t, k, Fail(BadCounter(RowCounter(Kept(found, now)).error)), |s.log|, now))
  {
    var a := Looked(t, k, AbsFound(found));
    NoteKeeps(s, a);
    assert Note(s, a).log[|s.log|] == a;
    KeptIsAlive(found, now);
    SayKeeps(Note(s, a), t, k, Fail(BadCounter(RowCounter(Kept(found, now)).error)), |s.log|, now);
  }

  /** The row an increment commits is the entry the map would hold, and no deadline is far off. */
  lemma NextRowAdds(s: State, t: nat)
    requires Inv(s) && t in s.sessions && s.sessions[t].IncWritten?
    ensures var x := s.sessions[t];
            && Adds(AliveEntry(AbsFound(x.found), x.now), x.delta, CommitAct(s, t, x).bump, AbsRow(x.row), x.next)
            && Near(x.row, s.clock)
  {
    var x := s.sessions[t];
    assert Fits(s, t, x);
    KeptIsAlive(x.found, x.now);
    ColumnDeadline(FormatInt(x.next), x.now, x.ttl);
  }

  lemma CommitActLegal(s: State, t: nat)
    requires Inv(s) && t in s.sessions && s.sessions[t].IncWritten?
    ensures Legal(AbsTable(s.table), CommitAct(s, t, s.sessions[t])) && Near(s.sessions[t].row, s.clock)
  {
    assert Fits(s, t, s.sessions[t]);
    NextRowAdds(s, t);
    AbsTableLookup(s.table, s.sessions[t].key);
  }

  lemma IncCommitKeeps(s: State, t: nat, fault: bool)
    requires Inv(s) && t in s.sessions && Ready(s, t) && Free(s, t, s.sessions[t].key)
    requires s.sessions[t].IncWritten?
    ensures Inv(IncCommit(s, t, s.sessions[t], fault))
  {
    var x := s.sessions[t];
    if fault {
      RefuseKeeps(s, t, x.key);
    } else {
      CommitReady(s, t);
      CommitActLegal(s, t);
      CountKeeps(Release(s, t), CommitAct(s, t, x), Tagged(x.row, |s.log|), x.next);
    }
  }

  lemma CountKeeps(s: State, a: Act, row: Tagged, next: int64)
    requires Inv(s) && a.Added? && Legal(AbsTable(s.table), a) && a.stored == AbsTagged(row) && a.count == next
    requires row.id == |s.log| && Near(row.row, s.clock) && a.key !in s.locks
    requires s.sqlite ==> forall u :: u in s.sessions ==> !InTx(s.sessions[u])
    ensures Inv(Say(Change(s, a, Some(row)), a.actor, a.key, Count(next), |s.log|, s.clock))
  {
    ChangeKeeps(s, a, Some(row));
    assert Change(s, a, Some(row)).log[|s.log|] == a;
    SayKeeps(Change(s, a, Some(row)), a.actor, a.key, Count(next), |s.log|, s.clock);
  }

  lemma ReadKeeps(s: State, t: nat, kind: Kind, k: Bytes, fault: bool)
    requires Inv(s) && t !in s.sessions
    ensures Inv(ReadStep(s, t, kind, k, fault))
  {
    RefuseKeeps(s, t, k);
    if !fault {
      if k !in s.table {
        MissKeeps(s, t, k, MissOf(kind));
      } else {
        var a := Looked(t, k, AbsFound(Lookup(s.table, k)));
        NoteKeeps(s, a);
        assert Note(s, a).log[|s.log|] == a;
        MoveKeeps(Note(s, a), t, Judging(k, kind, s.table[k], |s.log|));
      }
    }
  }

  /** The judgement in SQL terms is the one on deadlines. */
  lemma JudgedRight(kind: Kind, r: Row, now: int)
    requires Representable(now) && Near(r, now)
    ensures JudgedDead(kind, r, now) <==> !Alive(AbsRow(r), now)
    ensures Alive(AbsRow(r), now) ==> RowHit(kind, r, now) == HitOf(kind, AbsRow(r), now)
  {
    ExpiredRow(Some(r), now);
    if r.expiresAt != 0 {
      TtlColumn(r, now);
    }
  }

  lemma JudgeKeeps(s: State, t: nat)
    requires Inv(s) && t in s.sessions && s.sessions[t].Judging?
    ensures Inv(JudgeStep(s, t, s.sessions[t]))
  {
    var x := s.sessions[t];
    assert Fits(s, t, x);
    JudgedRight(x.kind, x.seen.row, s.clock);
    if JudgedDead(x.kind, x.seen.row, s.clock) {
      MoveKeeps(s, t, Sweeping(x.key, x.kind, x.seen, x.at));
    } else {
      DoneKeeps(s, t);
      SayKeeps(s.(sessions := s.sessions - {t}), t, x.key, RowHit(x.kind, x.seen.row, s.clock), x.at, s.clock);
    }
  }

  lemma SweepKeeps(s: State, t: nat, fault: bool)
    requires Inv(s) && t in s.sessions && Ready(s, t) && Free(s, t, s.sessions[t].key)
    requires s.sessions[t].Sweeping?
    ensures Inv(SweepStep(s, t, s.sessions[t], fault))
  {
    var x := s.sessions[t];
    var s' := s.(sessions := s.sessions - {t});
    assert Fits(s, t, x);
    DoneKeeps(s, t);
    if fault {
      SayKeeps(s', t, x.key, MissOf(x.kind), x.at, s.clock);
    } else {
      var a := Forgot(t, x.key, AbsFound(Lookup(s.table, x.key)), x.at, s.clock);
      AbsTableLookup(s.table, x.key);
      ChangeKeeps(s', a, None);
      assert Change(s', a, None).log[|s.log|] == a;
      SayKeeps(Change(s', a, None), t, x.key, MissOf(x.kind), |s.log|, s.clock);
    }
  }

  /** A statement that fails, whether or not it had to wait. */
  lemma FaultKeeps(s: State, t: nat)
    requires Inv(s) && t in s.sessions && Sends(s.sessions[t]) && !s.sessions[t].TakeDone? && !s.sessions[t].Judging?
    ensures Inv(AdvanceStep(s, t, s.sessions[t], true))
  {
    var x := s.sessions[t];
    assert Fits(s, t, x);
    if x.Sweeping? {
      DoneKeeps(s, t);
      SayKeeps(s.(sessions := s.sessions - {t}), t, x.key, MissOf(x.kind), x.at, s.clock);
    } else {
      RefuseKeeps(s, t, x.key);
    }
  }

  lemma AdvanceKeeps(s: State, t: nat, fault: bool)
    requires Inv(s) && t in s.sessions
    ensures Inv(AdvanceStep(s, t, s.sessions[t], fault))
  {
    var x := s.sessions[t];
    if x.TakeDone? {
      TakeJudgeKeeps(s, t);
    } else if x.Judging? {
      JudgeKeeps(s, t);
    } else if fault && Sends(x) {
      FaultKeeps(s, t);
    } else if Ready(s, t) && Free(s, t, x.key) {
      if Setting(x) {
        SetKeeps(s, t, fault);
      } else if Taking(x) {
        TakeKeeps(s, t, fault);
      } else if x.Sweeping? {
        SweepKeeps(s, t, fault);
      } else if x.IncWritten? {
        IncCommitKeeps(s, t, fault);
      } else {
        IncKeeps(s, t, fault);
      }
    }
  }

  lemma DeleteKeeps(s: State, t: nat, k: Bytes)
    requires Inv(s) && t !in s.sessions && Ready(s, t) && Free(s, t, k)
    ensures Inv(Say(Change(s, Dropped(t, k), None), t, k, Done, |s.log|, s.clock))
  {
    ChangeKeeps(s, Dropped(t, k), None);
    assert Change(s, Dropped(t, k), None).log[|s.log|] == Dropped(t, k);
    SayKeeps(Change(s, Dropped(t, k), None), t, k, Done, |s.log|, s.clock);
  }

  lemma TickKeeps(s: State, elapsed: nat)
    requires Inv(s) && s.clock + elapsed <= MAX_INT64
    ensures Inv(s.(clock := s.clock + elapsed))
  {
    var s' := s.(clock := s.clock + elapsed);
    forall t | t in s.sessions
      ensures Fits(s', t, s.sessions[t])
    {
      FitsFrame(s, s', t, s.sessions[t]);
    }
  }

  lemma StepKeeps(s: State, l: Label)
    requires Inv(s)
    ensures Inv(Step(s, l))
  {
    match l
    case Tick(elapsed) => if s.clock + elapsed <= MAX_INT64 { TickKeeps(s, elapsed); }
    case Advance(t, fault) => if t in s.sessions { AdvanceKeeps(s, t, fault); }
    case _ => StartKeeps(s, l);
  }

  lemma StartKeeps(s: State, l: Label)
    requires Inv(s) && !l.Tick? && !l.Advance?
    ensures Inv(Step(s, l))
  {
    match l
    case StartSet(t, k, value, ttl) => StartSetKeeps(s, t, k, value, ttl);
    case StartTake(t, k, fault) => BeginKeeps(s, t, TakeOpen(k));
    case StartIncrement(t, k, delta, ttl, fault) => BeginKeeps(s, t, IncOpen(k, delta, ttl));
    case StartRead(t, kind, k, fault) => if t !in s.sessions { ReadKeeps(s, t, kind, k, fault); }
    case DeleteNow(t, k, fault) =>
      RefuseKeeps(s, t, k);
      if t !in s.sessions && Ready(s, t) && Free(s, t, k) { DeleteKeeps(s, t, k); }
  }

  lemma BeginKeeps(s: State, t: nat, x: Session)
    requires Inv(s) && (x.TakeOpen? || x.IncOpen?)
    ensures Inv(Refuse(s, t, x.key))
    ensures t !in s.sessions && Ready(s, t) ==> Inv(Move(s, t, x))
  {
    RefuseKeeps(s, t, x.key);
    if t !in s.sessions && Ready(s, t) {
      MoveKeeps(s, t, x);
    }
  }

  lemma StartSetKeeps(s: State, t: nat, k: Bytes, value: Bytes, ttl: int64)
    requires Inv(s)
    ensures Inv(Step(s, StartSet(t, k, value, ttl)))
  {
    if t !in s.sessions {
      MoveKeeps(s, t, SetStamped(k, value, ttl, s.clock));
    }
  }

  // ---------- answers ----------

  /** The client will yet answer for an act in the journal. */
  predicate Owes(x: Session) {
    x.TakeDone? || x.Judging? || x.Sweeping?
  }

  /** What a client owes an answer for is in the journal and not answered yet, and no other client owes one. */
  predicate PendingFits(s: State) {
    && (forall t :: t in s.sessions && Owes(s.sessions[t]) ==>
          s.sessions[t].at < |s.log| && Unanswered(s.answers, s.sessions[t].at))
    && (forall t, u :: t in s.sessions && u in s.sessions && t != u && Owes(s.sessions[t]) && Owes(s.sessions[u]) ==>
          s.sessions[t].at != s.sessions[u].at)
  }

  /** A Take has committed this act and will report it. */
  predicate Pending(s: State, t: nat, at: nat) {
    t in s.sessions && s.sessions[t].TakeDone? && s.sessions[t].at == at
  }

  /** The act has been reported to its caller, or is about to be. */
  ghost predicate Reported(s: State, at: nat) {
    (exists i: nat :: AnswerTo(s.answers, i, at)) || exists t: nat :: Pending(s, t, at)
  }

  /** No act is answered twice, and every change is answered. */
  ghost predicate Once(s: State) {
    && AnsweredOnce(s.answers) && PendingFits(s)
    && (forall i :: 0 <= i < |s.answers| && s.answers[i].answer != UNAVAILABLE ==> s.answers[i].at < |s.log|)
    && (forall j :: 0 <= j < |s.log| && Changes(s.log[j]) ==> Reported(s, j))
  }

  /** Reports stay, as long as no finished Take leaves without one. */
  lemma ReportsStay(s: State, s': State)
    requires Once(s) && s.answers <= s'.answers && s.log <= s'.log
    requires forall t :: t in s.sessions && s.sessions[t].TakeDone? ==>
               (t in s'.sessions && s'.sessions[t] == s.sessions[t]) || Reported(s', s.sessions[t].at)
    ensures forall j :: 0 <= j < |s.log| && Changes(s.log[j]) ==> Reported(s', j)
  {
    forall j | 0 <= j < |s.log| && Changes(s.log[j])
      ensures Reported(s', j)
    {
      if i: nat :| AnswerTo(s.answers, i, j) {
        assert AnswerTo(s'.answers, i, j);
      } else {
        var t: nat :| Pending(s, t, j);
        assert Pending(s', t, j) || Reported(s', j);
      }
    }
  }

  /** A client that owes nothing moves on, or one goes on owing what it owed. */
  lemma MoveOnce(s: State, s': State, t: nat, x: Session)
    requires Once(s) && s'.sessions == s.sessions[t := x] && s'.answers == s.answers && s'.log == s.log
    requires t in s.sessions ==> !s.sessions[t].TakeDone?
    requires Owes(x) ==> !x.TakeDone? && t in s.sessions && Owes(s.sessions[t]) && x.at == s.sessions[t].at
    ensures Once(s')
  {
    ReportsStay(s, s');
  }

  lemma LeaveOnce(s: State, s': State, t: nat)
    requires Once(s) && s'.sessions == s.sessions - {t} && s'.answers == s.answers && s'.log == s.log
    requires t in s.sessions ==> !s.sessions[t].TakeDone?
    ensures Once(s')
  {
    ReportsStay(s, s');
  }

  lemma RefuseOnce(s: State, t: nat, k: Bytes)
    requires Once(s) && (t in s.sessions ==> !s.sessions[t].TakeDone?)
    ensures Once(Refuse(s, t, k))
  {
    ReportsStay(s, Refuse(s, t, k));
  }

  /** The act at the end of the journal gets its answer at once. */
  lemma ActOnce(s: State, s': State, a: Act, answer: Answer, now: int)
    requires Once(s) && answer != UNAVAILABLE && s'.sessions == s.sessions && s'.log == s.log + [a]
    requires s'.answers == s.answers + [Return(a.actor, a.key, answer, |s.log|, now)]
    ensures Once(s')
  {
    assert AnswerTo(s'.answers, |s.answers|, |s.log|);
    ReportsStay(s, s');
  }

  /** An act goes into the journal, and its client will answer for it. */
  lemma OweOnce(s: State, s': State, t: nat, a: Act, x: Session)
    requires Once(s) && t !in s.sessions && s'.sessions == s.sessions[t := x] && s'.log == s.log + [a]
    requires s'.answers == s.answers && Owes(x) && x.at == |s.log| && (Changes(a) ==> x.TakeDone?)
    ensures Once(s')
  {
    ReportsStay(s, s');
    assert Changes(a) ==> Pending(s', t, |s.log|);
  }

  /** A client that owes an answer gives it and leaves. */
  lemma SettleOnce(s: State, s': State, t: nat, answer: Answer, now: int)
    requires Once(s) && t in s.sessions && Owes(s.sessions[t]) && answer != UNAVAILABLE
    requires s'.sessions == s.sessions - {t} && s'.log == s.log
    requires s'.answers == s.answers + [Return(t, s.sessions[t].key, answer, s.sessions[t].at, now)]
    ensures Once(s')
  {
    assert AnswerTo(s'.answers, |s.answers|, s.sessions[t].at);
    ReportsStay(s, s');
  }

  lemma SetOnce(s: State, t: nat, x: Session, fault: bool)
    requires Once(s) && t in s.sessions && s.sessions[t] == x && Setting(x)
    ensures Once(SetStep(s, t, x, fault))
  {
    var s' := SetStep(s, t, x, fault);
    RefuseOnce(s, t, x.key);
    if !fault {
      if x.SetWritten? {
        LeaveOnce(s, Release(s, t), t);
        ActOnce(Release(s, t), s', s'.log[|s.log|], Done, s.clock);
      } else if t in s'.sessions {
        MoveOnce(s, s', t, s'.sessions[t]);
      }
    }
  }

  lemma TakeOnce(s: State, t: nat, x: Session, fault: bool)
    requires Once(s) && t in s.sessions && s.sessions[t] == x && Taking(x)
    ensures Once(TakeStep(s, t, x, fault))
  {
    var s' := TakeStep(s, t, x, fault);
    RefuseOnce(s, t, x.key);
    if !fault {
      if x.TakeCleared? {
        LeaveOnce(s, Release(s, t), t);
        OweOnce(Release(s, t), s', t, s'.log[|s.log|], s'.sessions[t]);
      } else if x.TakeOpen? && x.key !in s.table {
        LeaveOnce(s, Release(s, t), t);
        ActOnce(Release(s, t), s', Looked(t, x.key, None), Fail(Miss), s.clock);
      } else {
        MoveOnce(s, s', t, s'.sessions[t]);
      }
    }
  }

  lemma IncOnce(s: State, t: nat, x: Session, fault: bool)
    requires Once(s) && t in s.sessions && s.sessions[t] == x && (x.IncOpen? || x.IncRead? || x.IncTimed? || x.IncSwept?)
    ensures Once(IncStep(s, t, x, fault))
  {
    var s' := IncStep(s, t, x, fault);
    RefuseOnce(s, t, x.key);
    if t in s'.sessions {
      MoveOnce(s, s', t, s'.sessions[t]);
    } else if x.IncTimed? && !Sends(x) {
      LeaveOnce(s, Release(s, t), t);
      ActOnce(Release(s, t), s', Looked(t, x.key, AbsFound(x.found)), s'.answers[|s.answers|].answer, x.now);
    }
  }

  lemma AdvanceOnce(s: State, t: nat, fault: bool)
    requires Once(s) && t in s.sessions
    ensures Once(AdvanceStep(s, t, s.sessions[t], fault))
  {
    var x := s.sessions[t];
    var s' := AdvanceStep(s, t, x, fault);
    if x.TakeDone? {
      SettleOnce(s, s', t, s'.answers[|s.answers|].answer, s.clock);
    } else if x.Judging? {
      JudgeOnce(s, t);
    } else if (Ready(s, t) && Free(s, t, x.key)) || (fault && Sends(x)) {
      if Setting(x) {
        SetOnce(s, t, x, fault);
      } else if Taking(x) {
        TakeOnce(s, t, x, fault);
      } else if x.Sweeping? {
        SweepOnce(s, t, fault);
      } else if x.IncWritten? {
        CommitOnce(s, t, fault);
      } else {
        IncOnce(s, t, x, fault);
      }
    }
  }

  lemma JudgeOnce(s: State, t: nat)
    requires Once(s) && t in s.sessions && s.sessions[t].Judging?
    ensures Once(JudgeStep(s, t, s.sessions[t]))
  {
    var s' := JudgeStep(s, t, s.sessions[t]);
    if t in s'.sessions {
      MoveOnce(s, s', t, s'.sessions[t]);
    } else {
      SettleOnce(s, s', t, s'.answers[|s.answers|].answer, s.clock);
    }
  }

  lemma SweepOnce(s: State, t: nat, fault: bool)
    requires Once(s) && t in s.sessions && s.sessions[t].Sweeping?
    ensures Once(SweepStep(s, t, s.sessions[t], fault))
  {
    var x := s.sessions[t];
    var s' := SweepStep(s, t, x, fault);
    if fault {
      SettleOnce(s, s', t, MissOf(x.kind), s.clock);
    } else {
      var left := s.(sessions := s.sessions - {t});
      LeaveOnce(s, left, t);
      ActOnce(left, s', s'.log[|s.log|], MissOf(x.kind), s.clock);
    }
  }

  lemma CommitOnce(s: State, t: nat, fault: bool)
    requires Once(s) && t in s.sessions && s.sessions[t].IncWritten?
    ensures Once(IncCommit(s, t, s.sessions[t], fault))
  {
    var x := s.sessions[t];
    RefuseOnce(s, t, x.key);
    if !fault {
      LeaveOnce(s, Release(s, t), t);
      ActOnce(Release(s, t), IncCommit(s, t, x, fault), CommitAct(s, t, x), Count(x.next), s.clock);
    }
  }

  lemma ReadOnce(s: State, t: nat, kind: Kind, k: Bytes, fault: bool)
    requires Once(s) && t !in s.sessions
    ensures Once(ReadStep(s, t, kind, k, fault))
  {
    var s', a := ReadStep(s, t, kind, k, fault), Looked(t, k, AbsFound(Lookup(s.table, k)));
    RefuseOnce(s, t, k);
    if !fault {
      if k !in s.table {
        ActOnce(s, s', a, MissOf(kind), s.clock);
      } else {
        OweOnce(s, s', t, a, s'.sessions[t]);
      }
    }
  }

  lemma StartOnce(s: State, l: Label)
    requires Once(s) && !l.Tick? && !l.Advance? && l.client !in s.sessions
    ensures Once(Step(s, l))
  {
    var s' := Step(s, l);
    RefuseOnce(s, l.client, l.key);
    if l.StartRead? {
      ReadOnce(s, l.client, l.kind, l.key, l.fault);
    } else if l.DeleteNow? {
      if |s'.log| > |s.log| {
        ActOnce(s, s', Dropped(l.client, l.key), Done, s.clock);
      }
    } else if l.client in s'.sessions {
      MoveOnce(s, s', l.client, s'.sessions[l.client]);
    }
  }

  lemma StepOnce(s: State, l: Label)
    requires Once(s)
    ensures Once(Step(s, l))
  {
    if l.Advance? {
      if l.client in s.sessions {
        AdvanceOnce(s, l.client, l.fault);
      }
    } else if l.Tick? {
      ReportsStay(s, Step(s, l));
    } else if l.client !in s.sessions {
      StartOnce(s, l);
    }
  }

  // ---------- all interleavings ----------

  lemma {:induction false} AlwaysInv(run: seq<State>, labels: seq<Label>, n: nat)
    requires IsRunFromEmpty(run, labels) && n <= |labels|
    ensures Inv(run[n])
  {
    if n > 0 {
      AlwaysInv(run, labels, n - 1);
      assert StepAt(run, labels, n - 1);
      StepKeeps(run[n - 1], labels[n - 1]);
    }
  }

  lemma {:induction false} AlwaysOnce(run: seq<State>, labels: seq<Label>, n: nat)
    requires IsRunFromEmpty(run, labels) && n <= |labels|
    ensures Once(run[n])
  {
    if n > 0 {
      AlwaysOnce(run, labels, n - 1);
      assert StepAt(run, labels, n - 1);
      StepOnce(run[n - 1], labels[n - 1]);
    }
  }

  /**
   * Under every interleaving, with any statement failing anywhere: the committed table is what the journal of
   * commits says, so every committed call took effect atomically in commit order; every answer other than an
   * error of the database is what one committed act, or one committed read, says; no act answers twice, and no
   * committed change goes unanswered.
   */
  lemma EveryInterleaving(run: seq<State>, labels: seq<Label>, n: nat)
    requires IsRunFromEmpty(run, labels) && n <= |labels|
    ensures Inv(run[n]) && Once(run[n])
  {
    AlwaysInv(run, labels, n);
    AlwaysOnce(run, labels, n);
  }

  /** Every committed change is reported to the client that made it, or its Take is about to, and to nobody else. */
  lemma ChangesAreReportedOnce(run: seq<State>, labels: seq<Label>, n: nat, j: nat)
    requires IsRunFromEmpty(run, labels) && n <= |labels|
    requires j < |run[n].log| && Changes(run[n].log[j])
    ensures forall i: nat, i': nat :: AnswerTo(run[n].answers, i, j) && AnswerTo(run[n].answers, i', j) ==> i == i'
    ensures forall i: nat :: AnswerTo(run[n].answers, i, j) ==>
              run[n].answers[i].actor == run[n].log[j].actor
              && Accounts(run[n].log[j], run[n].answers[i].answer, run[n].answers[i].now)
    ensures !(exists i: nat :: AnswerTo(run[n].answers, i, j)) ==> Pending(run[n], run[n].log[j].actor, j)
  {
    EveryInterleaving(run, labels, n);
    var s := run[n];
    forall i: nat | AnswerTo(s.answers, i, j)
      ensures s.answers[i].actor == s.log[j].actor && Accounts(s.log[j], s.answers[i].answer, s.answers[i].now)
    {
      assert Justified(s.log, s.answers[i]);
    }
    assert Reported(s, j);
    if t: nat :| Pending(s, t, j) {
      assert Fits(s, t, s.sessions[t]);
    }
  }

  /** The statements that make a change of the table visible. */
  predicate Publishes(s: State, l: Label) {
    match l
    case DeleteNow(_, _, fault) => !fault
    case Advance(t, fault) =>
      && !fault && t in s.sessions
      && var x := s.sessions[t]; x.SetWritten? || x.TakeCleared? || x.IncWritten? || x.Sweeping?
    case _ => false
  }

  /** Nothing but a commit, or a DELETE outside a transaction, changes the table that others see. */
  lemma OnlyCommitsPublish(s: State, l: Label)
    requires !Publishes(s, l)
    ensures Step(s, l).table == s.table
  {
    if l.Advance? && l.client in s.sessions {
      AdvancePublishes(s, l.client, l.fault);
    }
  }

  lemma AdvancePublishes(s: State, t: nat, fault: bool)
    requires t in s.sessions && !Publishes(s, Advance(t, fault))
    ensures AdvanceStep(s, t, s.sessions[t], fault).table == s.table
  {
    var x := s.sessions[t];
    if Setting(x) {
      SetPublishes(s, t, x, fault);
    } else if Taking(x) {
      TakePublishes(s, t, x, fault);
    } else if x.IncOpen? || x.IncRead? || x.IncTimed? || x.IncSwept? {
      IncPublishes(s, t, x, fault);
    }
  }

  lemma SetPublishes(s: State, t: nat, x: Session, fault: bool)
    requires Setting(x) && (x.SetWritten? ==> fault)
    ensures SetStep(s, t, x, fault).table == s.table
  {
  }

  lemma TakePublishes(s: State, t: nat, x: Session, fault: bool)
    requires Taking(x) && (x.TakeCleared? ==> fault)
    ensures TakeStep(s, t, x, fault).table == s.table
  {
  }

  lemma IncPublishes(s: State, t: nat, x: Session, fault: bool)
    requires x.IncOpen? || x.IncRead? || x.IncTimed? || x.IncSwept?
    ensures IncStep(s, t, x, fault).table == s.table
  {
  }

  /**
   * Set does at its commit, to the table as it is then, what the TTL map's operation does with the value, the
   * lifetime and the clock reading that the client started with, answer included.
   */
  lemma SetCommitsAtomically(s: State, t: nat)
    requires Inv(s) && t in s.sessions && s.sessions[t].SetWritten?
    ensures var x, s' := s.sessions[t], SetStep(s, t, s.sessions[t], false);
            var before, after := Lookup(AbsTable(s.table), x.key), Lookup(AbsTable(s'.table), x.key);
            var (entry, answer) := Effect(AliveEntry(before, x.now), Set(x.key, x.value, x.lifetime), x.now);
            && after.Some? && Some(after.value.entry) == entry
            && AbsTable(s'.table) == Assign(AbsTable(s.table), x.key, after)
            && s'.answers == s.answers + [Return(t, x.key, answer, |s.log|, s.clock)]
  {
    var x := s.sessions[t];
    assert Fits(s, t, x);
    ColumnDeadline(x.value, x.now, x.lifetime);
    AbsTableAssign(s.table, x.key, Some(Tagged(RowOf(x), |s.log|)));
  }

  /** Take removes, at its commit, the very row it read, and will hand out no other. */
  lemma TakeCommitsAtomically(s: State, t: nat)
    requires Inv(s) && t in s.sessions && s.sessions[t].TakeCleared?
    ensures var x, s' := s.sessions[t], TakeStep(s, t, s.sessions[t], false);
            && Lookup(s.table, x.key) == Some(x.taken) && s'.table == Assign(s.table, x.key, None)
            && s'.sessions[t] == TakeDone(x.key, x.taken, |s.log|)
  {
    assert Fits(s, t, s.sessions[t]);
  }

  /** Increment does at its commit, to the row as it is then, what the TTL map's operation does, answer included. */
  lemma IncrementCommitsAtomically(s: State, t: nat)
    requires Inv(s) && t in s.sessions && s.sessions[t].IncWritten?
    ensures var x, s' := s.sessions[t], IncCommit(s, t, s.sessions[t], false);
            var before, after := Lookup(AbsTable(s.table), x.key), Lookup(AbsTable(s'.table), x.key);
            var (entry, answer) := Effect(AliveEntry(before, x.now), Increment(x.key, x.delta, x.ttl), x.now);
            && after.Some? && Some(after.value.entry) == entry
            && AbsTable(s'.table) == Assign(AbsTable(s.table), x.key, after)
            && s'.answers == s.answers + [Return(t, x.key, answer, |s.log|, s.clock)]
  {
    var x := s.sessions[t];
    IncrementEffect(s, t);
    AbsTableAssign(s.table, x.key, Some(Tagged(x.row, |s.log|)));
  }

  /** The row and the count that an increment is about to commit are those of the TTL map. */
  lemma IncrementEffect(s: State, t: nat)
    requires Inv(s) && t in s.sessions && s.sessions[t].IncWritten?
    ensures var x := s.sessions[t];
            Effect(AliveEntry(Lookup(AbsTable(s.table), x.key), x.now), Increment(x.key, x.delta, x.ttl), x.now)
            == (Some(AbsRow(x.row)), Count(x.next))
  {
    var x := s.sessions[t];
    assert Fits(s, t, x);
    NextRowAdds(s, t);
    AbsTableLookup(s.table, x.key);
    AddsIsEffect(AliveEntry(AbsFound(x.found), x.now), x.key, x.delta, x.ttl, x.now, AbsRow(x.row), x.next);
  }

  lemma AddsIsEffect(e: Option<Entry>, k: Bytes, delta: int64, ttl: int64, now: int, entry: Entry, count: int64)
    requires Adds(e, delta, if ttl > 0 then Some(Deadline(now, ttl)) else None, entry, count)
    ensures Effect(e, Increment(k, delta, ttl), now) == (Some(entry), Count(count))
  {
  }

  predicate Refused(s: State, s': State) {
    |s'.answers| > |s.answers| && s'.answers[|s.answers|].answer == Fail(Unavailable)
  }

  /** A call that fails with an error of the database leaves the table and the journal as they were. */
  lemma RefusalChangesNothing(s: State, l: Label)
    requires Refused(s, Step(s, l))
    ensures Step(s, l).table == s.table && Step(s, l).log == s.log
  {
    if l.Advance? {
      AdvanceRefused(s, l.client, l.fault);
    }
  }

  lemma AdvanceRefused(s: State, t: nat, fault: bool)
    requires t in s.sessions && Refused(s, AdvanceStep(s, t, s.sessions[t], fault))
    ensures AdvanceStep(s, t, s.sessions[t], fault).table == s.table
    ensures AdvanceStep(s, t, s.sessions[t], fault).log == s.log
  {
    var x := s.sessions[t];
    if Setting(x) {
      SetRefused(s, t, x, fault);
    } else if Taking(x) {
      TakeRefused(s, t, x, fault);
    } else if x.IncOpen? || x.IncRead? || x.IncTimed? || x.IncSwept? {
      IncRefused(s, t, x, fault);
    }
  }

  lemma IncRefused(s: State, t: nat, x: Session, fault: bool)
    requires x.IncOpen? || x.IncRead? || x.IncTimed? || x.IncSwept?
    ensures var s' := IncStep(s, t, x, fault); Refused(s, s') ==> s'.table == s.table && s'.log == s.log
  {
  }

  lemma SetRefused(s: State, t: nat, x: Session, fault: bool)
    requires Setting(x)
    ensures var s' := SetStep(s, t, x, fault); Refused(s, s') ==> s'.table == s.table && s'.log == s.log
  {
  }

  lemma TakeRefused(s: State, t: nat, x: Session, fault: bool)
    requires Taking(x)
    ensures var s' := TakeStep(s, t, x, fault); Refused(s, s') ==> s'.table == s.table && s'.log == s.log
  {
  }

  /** A Get or Take that hits returns the latest committed write to its key as of its read. */
  lemma HitsAreLatestWrites(run: seq<State>, labels: seq<Label>, n: nat, i: nat)
    requires IsRunFromEmpty(run, labels) && n <= |labels|
    requires i < |run[n].answers| && run[n].answers[i].answer.Value?
    ensures ReturnsLatestWrite(run[n].log, run[n].answers[i])
  {
    EveryInterleaving(run, labels, n);
    assert Justified(run[n].log, run[n].answers[i]);
    HitReturnsLatestWrite(run[n].log, run[n].answers[i]);
  }

  /** No written row is handed out to two callers of Take. */
  lemma TakesAreExclusive(run: seq<State>, labels: seq<Label>, n: nat, i: nat, j: nat)
    requires IsRunFromEmpty(run, labels) && n <= |labels|
    requires var s := run[n];
             && i < j < |s.answers| && s.answers[i].answer.Value? && s.answers[j].answer.Value?
             && s.answers[i].at < |s.log| && s.log[s.answers[i].at].Took?
             && s.answers[j].at < |s.log| && s.log[s.answers[j].at].Took?
    ensures var s := run[n];
            && s.log[s.answers[i].at].found.Some? && s.log[s.answers[j].at].found.Some?
            && s.log[s.answers[i].at].found.value.id != s.log[s.answers[j].at].found.value.id
  {
    EveryInterleaving(run, labels, n);
    var s := run[n];
    assert Justified(s.log, s.answers[i]) && Justified(s.log, s.answers[j]);
    HandedOutOnce(s.log, s.answers, i, j);
  }

  /** A live row is lost only to the deferred DELETE of a read that had looked before the row was committed. */
  lemma OnlyDeferredDeletesForget(run: seq<State>, labels: seq<Label>, n: nat, i: nat)
    requires IsRunFromEmpty(run, labels) && n <= |labels|
    requires i < |run[n].log| && !Harmless(run[n].log[i])
    ensures DropsNewerWrite(run[n].log, i)
  {
    EveryInterleaving(run, labels, n);
    LostWasWrittenAfterLook(run[n].log, i);
  }

  /**
   * Otherwise the table is atomic: a key looks different than in the map that took the same commits without the
   * deferred DELETEs exactly if one of these has dropped a row of this key that would still be alive, and nothing
   * but more of them has touched the key since; then the key is absent, and the map holds that row's entry.
   */
  lemma OtherwiseAtomic(run: seq<State>, labels: seq<Label>, n: nat, k: Bytes)
    requires IsRunFromEmpty(run, labels) && n <= |labels|
    ensures var s, held, atomic := run[n], AbsTable(run[n].table), Replay(Unforgetting(run[n].log));
            && (AliveEntry(Lookup(held, k), s.clock) != AliveEntry(Lookup(atomic, k), s.clock)
                <==> exists i: nat :: LostAlive(s.log, k, i, s.clock))
            && (forall i: nat :: LostAlive(s.log, k, i, s.clock) ==>
                  DropsNewerWrite(s.log, i) && k !in held && Lookup(atomic, k) == s.log[i].lost)
            && (k in held ==> Lookup(atomic, k) == Some(held[k]))
  {
    EveryInterleaving(run, labels, n);
    DiffersIffForgotten(run[n].log, k, run[n].clock);
    if k in AbsTable(run[n].table) {
      PresentIsSame(run[n].log, k);
    }
  }

  // ---------- counters ----------

  /** Sessions on `k` do nothing but count without a lifetime, and read rows that never expire. */
  predicate CalmSession(x: Session) {
    match x
    case IncOpen(_, _, ttl) => ttl <= 0
    case IncRead(_, _, ttl, _) => ttl <= 0
    case IncTimed(_, _, ttl, _, _) => ttl <= 0
    case IncWritten(_, _, ttl, _, _, _, _) => ttl <= 0
    case Judging(_, _, seen, _) => seen.row.expiresAt == 0
    case _ => false
  }

  predicate Calm(s: State, k: Bytes) {
    && (k in s.table ==> s.table[k].row.expiresAt == 0)
    && forall t :: t in s.sessions && s.sessions[t].key == k ==> CalmSession(s.sessions[t])
  }

  predicate CountsOnly(l: Label, k: Bytes) {
    match l
    case StartSet(_, key, _, _) => key != k
    case StartTake(_, key, _) => key != k
    case DeleteNow(_, key, _) => key != k
    case StartIncrement(_, key, _, ttl, _) => key == k ==> ttl <= 0
    case _ => true
  }

  /** From `s` to `s'` only the client `t` has moved, and only under its key. */
  ghost predicate Local(s: State, s': State, t: nat, key: Bytes) {
    && s.log <= s'.log && (forall i :: |s.log| <= i < |s'.log| ==> s'.log[i].key == key)
    && (forall k :: k != key ==> Lookup(s'.table, k) == Lookup(s.table, k))
    && (forall u :: u in s'.sessions && u != t ==> u in s.sessions && s'.sessions[u] == s.sessions[u])
    && (t in s'.sessions ==> s'.sessions[t].key == key)
  }

  lemma AdvanceLocal(s: State, t: nat, fault: bool)
    requires t in s.sessions
    ensures Local(s, AdvanceStep(s, t, s.sessions[t], fault), t, s.sessions[t].key)
  {
    var x := s.sessions[t];
    if Setting(x) {
      SetLocal(s, t, x, fault);
    } else if Taking(x) {
      TakeLocal(s, t, x, fault);
    } else if x.IncOpen? || x.IncRead? || x.IncTimed? || x.IncSwept? {
      IncLocal(s, t, x, fault);
    } else {
      LastLocal(s, t, x, fault);
    }
  }

  lemma LastLocal(s: State, t: nat, x: Session, fault: bool)
    requires t in s.sessions && s.sessions[t] == x && (x.TakeDone? || x.Judging? || x.Sweeping? || x.IncWritten?)
    ensures Local(s, AdvanceStep(s, t, x, fault), t, x.key)
  {
  }

  lemma SetLocal(s: State, t: nat, x: Session, fault: bool)
    requires t in s.sessions && Setting(x)
    ensures Local(s, SetStep(s, t, x, fault), t, x.key)
  {
  }

  lemma TakeLocal(s: State, t: nat, x: Session, fault: bool)
    requires t in s.sessions && Taking(x)
    ensures Local(s, TakeStep(s, t, x, fault), t, x.key)
  {
  }

  lemma IncLocal(s: State, t: nat, x: Session, fault: bool)
    requires t in s.sessions && (x.IncOpen? || x.IncRead? || x.IncTimed? || x.IncSwept?)
    ensures Local(s, IncStep(s, t, x, fault), t, x.key)
  {
  }

  lemma LocalCalm(s: State, s': State, t: nat, key: Bytes, k: Bytes)
    requires Calm(s, k) && Local(s, s', t, key) && key != k
    ensures Calm(s', k) && OnlyCounts(s'.log, |s.log|, k)
  {
    assert Lookup(s'.table, k) == Lookup(s.table, k);
  }

  lemma IncCalm(s: State, t: nat, fault: bool, k: Bytes)
    requires Calm(s, k) && t in s.sessions && s.sessions[t].key == k
    requires var x := s.sessions[t]; x.IncOpen? || x.IncRead? || (x.IncTimed? && Fits(s, t, x))
    ensures var s' := IncStep(s, t, s.sessions[t], fault); Calm(s', k) && OnlyCounts(s'.log, |s.log|, k)
  {
    assert CalmSession(s.sessions[t]);
    if s.sessions[t].IncTimed? {
      IncTimedCalm(s, t, fault, k);
    }
  }

  lemma IncTimedCalm(s: State, t: nat, fault: bool, k: Bytes)
    requires Calm(s, k) && t in s.sessions && s.sessions[t].key == k
    requires s.sessions[t].IncTimed? && Fits(s, t, s.sessions[t])
    ensures var s' := IncStep(s, t, s.sessions[t], fault); Calm(s', k) && OnlyCounts(s'.log, |s.log|, k)
  {
    var x := s.sessions[t];
    assert CalmSession(x);
    assert x.found.Some? ==> x.found.value.row.expiresAt == 0;
  }

  lemma CommitCalm(s: State, t: nat, fault: bool, k: Bytes)
    requires Calm(s, k) && t in s.sessions && s.sessions[t].key == k && s.sessions[t].IncWritten?
    requires Fits(s, t, s.sessions[t])
    ensures var s' := IncCommit(s, t, s.sessions[t], fault); Calm(s', k) && OnlyCounts(s'.log, |s.log|, k)
  {
    assert CalmSession(s.sessions[t]);
  }

  lemma AdvanceCalm(s: State, t: nat, fault: bool, k: Bytes)
    requires Inv(s) && Calm(s, k) && t in s.sessions
    ensures var s' := AdvanceStep(s, t, s.sessions[t], fault);
            Calm(s', k) && s.log <= s'.log && OnlyCounts(s'.log, |s.log|, k)
  {
    var x := s.sessions[t];
    assert Fits(s, t, x);
    AdvanceLocal(s, t, fault);
    if x.key != k {
      LocalCalm(s, AdvanceStep(s, t, x, fault), t, x.key, k);
    } else {
      assert CalmSession(x);
      if x.IncWritten? {
        CommitCalm(s, t, fault, k);
      } else if !x.Judging? {
        IncCalm(s, t, fault, k);
      }
    }
  }

  lemma StepCalm(s: State, l: Label, k: Bytes)
    requires Inv(s) && Calm(s, k) && CountsOnly(l, k)
    ensures Calm(Step(s, l), k) && s.log <= Step(s, l).log
    ensures OnlyCounts(Step(s, l).log, |s.log|, k)
  {
    if l.Advance? {
      if l.client in s.sessions {
        AdvanceCalm(s, l.client, l.fault, k);
      }
    } else if l.StartRead? {
      ReadCalm(s, l.client, l.kind, l.key, l.fault, k);
    } else if l.DeleteNow? {
      DeleteCalm(s, l, k);
    } else if !l.Tick? {
      StartCalm(s, l, k);
    }
  }

  lemma StartCalm(s: State, l: Label, k: Bytes)
    requires Calm(s, k) && CountsOnly(l, k) && (l.StartSet? || l.StartTake? || l.StartIncrement?)
    ensures Calm(Step(s, l), k) && Step(s, l).log == s.log
  {
  }

  lemma DeleteCalm(s: State, l: Label, k: Bytes)
    requires Calm(s, k) && l.DeleteNow? && l.key != k
    ensures Calm(Step(s, l), k) && s.log <= Step(s, l).log && OnlyCounts(Step(s, l).log, |s.log|, k)
  {
  }

  lemma ReadCalm(s: State, t: nat, kind: Kind, key: Bytes, fault: bool, k: Bytes)
    requires Calm(s, k)
    ensures var s' := ReadStep(s, t, kind, key, fault); Calm(s', k) && s.log <= s'.log && OnlyCounts(s'.log, |s.log|, k)
  {
  }

  /** `s'` comes after `s`, and in between `k` was only counted. */
  ghost predicate OnlyCountedSince(s: State, s': State, k: Bytes) {
    Inv(s) && Inv(s') && Calm(s', k) && s.log <= s'.log && OnlyCounts(s'.log, |s.log|, k)
  }

  lemma CalmGoesOn(first: State, s: State, s': State, k: Bytes)
    requires OnlyCountedSince(first, s, k) && Inv(s') && Calm(s', k)
    requires s.log <= s'.log && OnlyCounts(s'.log, |s.log|, k)
    ensures OnlyCountedSince(first, s', k)
  {
    assert forall i :: 0 <= i < |s.log| ==> s'.log[i] == s.log[i];
  }

  lemma {:induction false} RunCalm(run: seq<State>, labels: seq<Label>, k: Bytes, n: nat)
    requires IsRun(run, labels) && n <= |labels| && Inv(run[0]) && Calm(run[0], k)
    requires forall i :: 0 <= i < |labels| ==> CountsOnly(labels[i], k)
    ensures OnlyCountedSince(run[0], run[n], k)
  {
    if n > 0 {
      RunCalm(run, labels, k, n - 1);
      assert StepAt(run, labels, n - 1);
      StepKeeps(run[n - 1], labels[n - 1]);
      StepCalm(run[n - 1], labels[n - 1], k);
      CalmGoesOn(run[0], run[n - 1], run[n], k);
    }
  }

  /**
   * Conservation: on a key that never expires and is touched by increments only, the committed value is the
   * initial one plus the deltas of all committed increments, modulo 2^64, whatever fails and whoever waits.
   */
  lemma CountersConserved(run: seq<State>, labels: seq<Label>, k: Bytes, n: int64, m: nat)
    requires IsRun(run, labels) && m <= |labels| && Inv(run[0]) && Calm(run[0], k)
    requires PlainCounter(AbsFound(Lookup(run[0].table, k)), n)
    requires forall i :: 0 <= i < |labels| ==> CountsOnly(labels[i], k)
    ensures PlainCounter(AbsFound(Lookup(run[m].table, k)), Wrap64(n + Sum(run[m].log, |run[0].log|, k)))
  {
    RunCalm(run, labels, k, m);
    AbsTableLookup(run[0].table, k);
    AbsTableLookup(run[m].table, k);
    CountsAdd(run[0].log, run[m].log, k, n);
  }

  /** And every committed increment on the way, the act at `j`, is answered with the running sum at its commit. */
  lemma IncrementsReportRunningSum(run: seq<State>, labels: seq<Label>, k: Bytes, n: int64, m: nat, j: nat)
    requires IsRun(run, labels) && m <= |labels| && Inv(run[0]) && Calm(run[0], k)
    requires PlainCounter(AbsFound(Lookup(run[0].table, k)), n)
    requires forall i :: 0 <= i < |labels| ==> CountsOnly(labels[i], k)
    requires |run[0].log| <= j < |run[m].log| && run[m].log[j].Added? && run[m].log[j].key == k
    ensures run[m].log[j].count == Wrap64(n + Sum(run[m].log[..j + 1], |run[0].log|, k))
    ensures forall i: nat :: AnswerTo(run[m].answers, i, j) ==> run[m].answers[i].answer == Count(run[m].log[j].count)
  {
    RunCalm(run, labels, k, m);
    var s := run[m];
    AbsTableLookup(run[0].table, k);
    CountReported(run[0].log, s.log, k, n, j);
    forall i: nat | AnswerTo(s.answers, i, j)
      ensures s.answers[i].answer == Count(s.log[j].count)
    {
      assert Justified(s.log, s.answers[i]);
    }
  }
}
