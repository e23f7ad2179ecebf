/**
 * One operation of the database store by itself: its statements one after another, with nobody in between,
 * are the sequential operation, whichever of them fail.
 */
module DatabaseAlone {
  import opened Basics
  import opened Decimal
  import opened TtlMap
  import opened Journal
  import opened DatabaseTx
  import DatabaseStore

  function Go(s: State, t: nat, fault: bool): State {
    Step(s, Advance(t, fault))
  }

  /** All statements of one operation; once it has ended, the remaining steps do nothing. */
  function Alone(s: State, t: nat, op: Op, f: DatabaseStore.Faults): State {
    match op
    case Get(k) => ReadAlone(s, t, GetKind, k, f)
    case Exists(k) => ReadAlone(s, t, ExistsKind, k, f)
    case Ttl(k) => ReadAlone(s, t, TtlKind, k, f)
    case Set(k, value, ttl) =>
      Go(Go(Go(Go(Step(s, StartSet(t, k, value, ttl)), t, f.begin), t, f.clear), t, f.write), t, f.commit)
    case Take(k) => Go(Go(Go(Go(Step(s, StartTake(t, k, f.begin)), t, f.query), t, f.clear), t, f.commit), t, false)
    case Increment(k, delta, ttl) =>
      var timed := Go(Go(Step(s, StartIncrement(t, k, delta, ttl, f.begin)), t, f.query), t, false);
      Go(Go(if Sweeps(timed, t) then Go(timed, t, f.clear) else timed, t, f.write), t, f.commit)
    case Delete(k) => Step(s, DeleteNow(t, k, f.clear))
  }

  function ReadAlone(s: State, t: nat, kind: Kind, k: Bytes, f: DatabaseStore.Faults): State {
    Go(Go(Step(s, StartRead(t, kind, k, f.query)), t, false), t, f.clear)
  }

  /** The increment has found an expired row and deletes it first. */
  predicate Sweeps(s: State, t: nat) {
    t in s.sessions && s.sessions[t].IncTimed? && s.sessions[t].found.Some?
    && DatabaseStore.RowExpired(s.sessions[t].found.value.row, s.sessions[t].now)
  }

  // ---------- the states on the way ----------

  function Plain(table: Table): DatabaseStore.Rows {
    map k | k in table :: table[k].row
  }

  function PlainFound(found: Option<Tagged>): Option<DatabaseStore.Row> {
    if found.Some? then Some(found.value.row) else None
  }

  lemma PlainAssign(table: Table, k: Bytes, v: Option<Tagged>)
    ensures Plain(Assign(table, k, v)) == Assign(Plain(table), k, PlainFound(v))
    ensures Lookup(Plain(table), k) == PlainFound(Lookup(table, k))
  {
    forall x
      ensures Lookup(Plain(Assign(table, k, v)), x) == Lookup(Assign(Plain(table), k, PlainFound(v)), x)
    {
      assert x == k || Lookup(Assign(table, k, v), x) == Lookup(table, x);
    }
    SameLookups(Plain(Assign(table, k, v)), Assign(Plain(table), k, PlainFound(v)));
  }

  /** The client has nothing under way, and nobody keeps it from working on the key. */
  predicate CanStart(s: State, t: nat, k: Bytes) {
    t !in s.sessions && Ready(s, t) && k !in s.locks && forall j :: j in s.locks ==> s.locks[j] != t
  }

  /** The client, started in `s`, has come to `x`, and nothing of it is visible. */
  predicate Amid(s: State, m: State, t: nat, x: Session) {
    && m.sqlite == s.sqlite && m.table == s.table && m.clock == s.clock && m.log == s.log && m.answers == s.answers
    && m.sessions == s.sessions[t := x] && (m.locks == s.locks || m.locks == s.locks[x.key := t])
  }

  /** The client, started in `s`, has got its answer. */
  predicate Ended(s: State, e: State, k: Bytes, rows: DatabaseStore.Rows, answer: Answer) {
    && e.sessions == s.sessions && e.locks == s.locks && e.clock == s.clock && Plain(e.table) == rows
    && |e.answers| == |s.answers| + 1 && s.answers <= e.answers
    && e.answers[|s.answers|].key == k && e.answers[|s.answers|].answer == answer
  }

  lemma AmidGo(s: State, m: State, t: nat, x: Session, fault: bool)
    requires CanStart(s, t, x.key) && Amid(s, m, t, x)
    ensures Ready(m, t) && Free(m, t, x.key) && Go(m, t, fault) == AdvanceStep(m, t, x, fault)
  {
  }

  lemma AmidRefuse(s: State, m: State, t: nat, x: Session)
    requires CanStart(s, t, x.key) && Amid(s, m, t, x)
    ensures Release(m, t).sessions == s.sessions && Release(m, t).locks == s.locks
    ensures Ended(s, Refuse(m, t, x.key), x.key, Plain(s.table), Fail(Unavailable))
  {
    assert s.sessions[t := x] - {t} == s.sessions;
  }

  lemma RefusedAtOnce(s: State, t: nat, k: Bytes)
    requires CanStart(s, t, k)
    ensures Ended(s, Refuse(s, t, k), k, Plain(s.table), Fail(Unavailable))
  {
    assert Release(s, t).sessions == s.sessions && Release(s, t).locks == s.locks;
  }

  lemma AmidMove(s: State, m: State, t: nat, x: Session, y: Session)
    requires CanStart(s, t, x.key) && Amid(s, m, t, x) && x.key == y.key
    ensures Amid(s, Move(m, t, y), t, y) && Amid(s, Lock(m, t, y), t, y)
  {
    assert s.sessions[t := x][t := y] == s.sessions[t := y];
  }

  /** What the sequential operation makes of the rows, and its answer. */
  predicate Sequential(s: State, e: State, op: Op, f: DatabaseStore.Faults) {
    var (rows, answer) := DatabaseStore.Step(Plain(s.table), op, s.clock, f);
    Ended(s, e, op.key, rows, answer)
  }

  // ---------- Set ----------

  /** The Set has left its row, or has been refused. */
  predicate SetEnds(s: State, e: State, x: Session, refused: bool)
    requires Setting(x)
  {
    Ended(s, e, x.key, if refused then Plain(s.table) else Assign(Plain(s.table), x.key, Some(RowOf(x))),
          if refused then Fail(Unavailable) else Done)
  }

  lemma SetFromWritten(s: State, m: State, t: nat, x: Session, commit: bool)
    requires x.SetWritten? && CanStart(s, t, x.key) && Amid(s, m, t, x)
    ensures SetEnds(s, Go(m, t, commit), x, commit)
  {
    AmidGo(s, m, t, x, commit);
    AmidRefuse(s, m, t, x);
    PlainAssign(s.table, x.key, Some(Tagged(RowOf(x), |s.log|)));
  }

  lemma SetFromCleared(s: State, m: State, t: nat, x: Session, write: bool, commit: bool)
    requires x.SetCleared? && CanStart(s, t, x.key) && Amid(s, m, t, x) && x.gone == (x.key in s.table)
    ensures SetEnds(s, Go(Go(m, t, write), t, commit), x, write || commit)
  {
    AmidGo(s, m, t, x, write);
    AmidRefuse(s, m, t, x);
    if !write {
      var y := SetWritten(x.key, x.value, x.lifetime, x.now);
      AmidMove(s, m, t, x, y);
      SetFromWritten(s, Go(m, t, write), t, y, commit);
    }
  }

  lemma SetFromOpen(s: State, m: State, t: nat, x: Session, clear: bool, write: bool, commit: bool)
    requires x.SetOpen? && CanStart(s, t, x.key) && Amid(s, m, t, x)
    ensures SetEnds(s, Go(Go(Go(m, t, clear), t, write), t, commit), x, clear || write || commit)
  {
    AmidGo(s, m, t, x, clear);
    AmidRefuse(s, m, t, x);
    if !clear {
      var y := SetCleared(x.key, x.value, x.lifetime, x.now, x.key in s.table);
      AmidMove(s, m, t, x, y);
      SetFromCleared(s, Go(m, t, clear), t, y, write, commit);
    }
  }

  lemma SetIsSequential(s: State, t: nat, k: Bytes, value: Bytes, ttl: int64, f: DatabaseStore.Faults)
    requires CanStart(s, t, k)
    ensures Sequential(s, Alone(s, t, Set(k, value, ttl), f), Set(k, value, ttl), f)
  {
    var x, m := SetStamped(k, value, ttl, s.clock), Step(s, StartSet(t, k, value, ttl));
    AmidGo(s, m, t, x, f.begin);
    AmidRefuse(s, m, t, x);
    if !f.begin {
      var y := SetOpen(k, value, ttl, s.clock);
      AmidMove(s, m, t, x, y);
      SetFromOpen(s, Go(m, t, f.begin), t, y, f.clear, f.write, f.commit);
    }
  }

  // ---------- Take ----------

  lemma TakeFromCleared(s: State, m: State, t: nat, k: Bytes, taken: Tagged, commit: bool)
    requires CanStart(s, t, k) && Amid(s, m, t, TakeCleared(k, taken)) && Lookup(s.table, k) == Some(taken)
    ensures Ended(s, Go(Go(m, t, commit), t, false), k, if commit then Plain(s.table) else Assign(Plain(s.table), k, None),
                  if commit then Fail(Unavailable)
                  else if DatabaseStore.RowExpired(taken.row, s.clock) then Fail(Miss) else Value(taken.row.value))
  {
    var x := TakeCleared(k, taken);
    AmidGo(s, m, t, x, commit);
    AmidRefuse(s, m, t, x);
    PlainAssign(s.table, k, None);
    if !commit {
      assert s.sessions[t := TakeDone(k, taken, |s.log|)] - {t} == s.sessions;
    }
  }

  lemma TakeFromRead(s: State, m: State, t: nat, k: Bytes, taken: Tagged, clear: bool, commit: bool)
    requires CanStart(s, t, k) && Amid(s, m, t, TakeRead(k, taken)) && Lookup(s.table, k) == Some(taken)
    ensures var refused := clear || commit;
            Ended(s, Go(Go(Go(m, t, clear), t, commit), t, false), k,
                  if refused then Plain(s.table) else Assign(Plain(s.table), k, None),
                  if refused then Fail(Unavailable)
                  else if DatabaseStore.RowExpired(taken.row, s.clock) then Fail(Miss) else Value(taken.row.value))
  {
    var x := TakeRead(k, taken);
    AmidGo(s, m, t, x, clear);
    AmidRefuse(s, m, t, x);
    if !clear {
      AmidMove(s, m, t, x, TakeCleared(k, taken));
      TakeFromCleared(s, Go(m, t, clear), t, k, taken, commit);
    }
  }

  /** The sequential Take in terms of the row. */
  lemma TakeSpec(s: State, k: Bytes, f: DatabaseStore.Faults)
    ensures var before := Plain(s.table);
            var (rows, answer) := DatabaseStore.Step(before, Take(k), s.clock, f);
            if f.begin || f.query || (k in s.table && (f.clear || f.commit)) then rows == before && answer == Fail(Unavailable)
            else if k !in s.table then rows == before && answer == Fail(Miss)
            else
              && rows == Assign(before, k, None)
              && answer == if DatabaseStore.RowExpired(s.table[k].row, s.clock) then Fail(Miss) else Value(s.table[k].row.value)
  {
    PlainAssign(s.table, k, None);
    AssignLookup(Plain(s.table), k);
  }

  lemma TakeFromOpen(s: State, m: State, t: nat, k: Bytes, f: DatabaseStore.Faults)
    requires CanStart(s, t, k) && Amid(s, m, t, TakeOpen(k)) && !f.begin
    ensures Sequential(s, Go(Go(Go(Go(m, t, f.query), t, f.clear), t, f.commit), t, false), Take(k), f)
  {
    var x := TakeOpen(k);
    TakeSpec(s, k, f);
    AmidGo(s, m, t, x, f.query);
    AmidRefuse(s, m, t, x);
    if !f.query && k in s.table {
      AmidMove(s, m, t, x, TakeRead(k, s.table[k]));
      TakeFromRead(s, Go(m, t, f.query), t, k, s.table[k], f.clear, f.commit);
    }
  }

  lemma TakeIsSequential(s: State, t: nat, k: Bytes, f: DatabaseStore.Faults)
    requires CanStart(s, t, k)
    ensures Sequential(s, Alone(s, t, Take(k), f), Take(k), f)
  {
    if f.begin {
      TakeSpec(s, k, f);
      RefusedAtOnce(s, t, k);
    } else {
      TakeFromOpen(s, Step(s, StartTake(t, k, f.begin)), t, k, f);
    }
  }

  // ---------- Increment ----------

  lemma IncFromWritten(s: State, m: State, t: nat, x: Session, commit: bool)
    requires x.IncWritten? && CanStart(s, t, x.key) && Amid(s, m, t, x)
    ensures Ended(s, Go(m, t, commit), x.key,
                  if commit then Plain(s.table) else Assign(Plain(s.table), x.key, Some(x.row)),
                  if commit then Fail(Unavailable) else Count(x.next))
  {
    AmidGo(s, m, t, x, commit);
    AmidRefuse(s, m, t, x);
    PlainAssign(s.table, x.key, Some(Tagged(x.row, |s.log|)));
  }

  /** The INSERT or UPDATE that comes next leads to the row that counts to the commit. */
  lemma AmidWrite(s: State, m: State, t: nat, x: Session, n: int64)
    requires (x.IncTimed? && !Sweeps(m, t) && DatabaseStore.RowCounter(Kept(x.found, x.now)) == Parsed(n)) || (x.IncSwept? && n == 0)
    requires CanStart(s, t, x.key) && Amid(s, m, t, x) && x.found == Lookup(s.table, x.key)
    ensures Go(m, t, true) == Refuse(m, t, x.key) && Go(m, t, false) == Lock(m, t, Counted(x, n))
  {
    AmidGo(s, m, t, x, true);
    AmidGo(s, m, t, x, false);
  }

  /** It and the commit, after the sweep or without one. */
  lemma IncFromWrite(s: State, m: State, t: nat, x: Session, n: int64, write: bool, commit: bool)
    requires (x.IncTimed? && !Sweeps(m, t) && DatabaseStore.RowCounter(Kept(x.found, x.now)) == Parsed(n)) || (x.IncSwept? && n == 0)
    requires CanStart(s, t, x.key) && Amid(s, m, t, x) && x.found == Lookup(s.table, x.key)
    ensures var refused := write || commit;
            Ended(s, Go(Go(m, t, write), t, commit), x.key,
                  if refused then Plain(s.table) else Assign(Plain(s.table), x.key, Some(Counted(x, n).row)),
                  if refused then Fail(Unavailable) else Count(Counted(x, n).next))
  {
    AmidWrite(s, m, t, x, n);
    if write {
      AmidRefuse(s, m, t, x);
    } else {
      AmidMove(s, m, t, x, Counted(x, n));
      IncFromWritten(s, Lock(m, t, Counted(x, n)), t, Counted(x, n), commit);
    }
  }

  /** The sequential increment in terms of what the client has read. */
  lemma IncrementSpec(s: State, x: Session, f: DatabaseStore.Faults)
    requires x.IncTimed? && x.found == Lookup(s.table, x.key) && x.now == s.clock && !f.begin && !f.query
    ensures var before := Plain(s.table);
            var (rows, answer) := DatabaseStore.Step(before, Increment(x.key, x.delta, x.ttl), s.clock, f);
            match DatabaseStore.RowCounter(Kept(x.found, x.now))
            case Rejected(error, _) => rows == before && answer == Fail(BadCounter(error))
            case Parsed(n) =>
              if (x.found.Some? && DatabaseStore.RowExpired(x.found.value.row, x.now) && f.clear) || f.write || f.commit
              then rows == before && answer == Fail(Unavailable)
              else rows == Assign(before, x.key, Some(Counted(x, n).row)) && answer == Count(Counted(x, n).next)
  {
    PlainAssign(s.table, x.key, None);
    AssignLookup(Plain(s.table), x.key);
  }

  lemma AmidSweep(s: State, m: State, t: nat, x: Session)
    requires x.IncTimed? && CanStart(s, t, x.key) && Amid(s, m, t, x) && Sweeps(m, t)
    ensures Go(m, t, true) == Refuse(m, t, x.key)
    ensures Go(m, t, false) == Lock(m, t, IncSwept(x.key, x.delta, x.ttl, x.found, x.now))
    ensures DatabaseStore.RowCounter(Kept(x.found, x.now)) == Parsed(0)
  {
    AmidGo(s, m, t, x, true);
    AmidGo(s, m, t, x, false);
  }

  lemma IncFromSweep(s: State, m: State, t: nat, x: Session, f: DatabaseStore.Faults)
    requires x.IncTimed? && CanStart(s, t, x.key) && Amid(s, m, t, x) && Sweeps(m, t)
    requires x.found == Lookup(s.table, x.key) && x.now == s.clock && !f.begin && !f.query
    ensures Sequential(s, Go(Go(Go(m, t, f.clear), t, f.write), t, f.commit), Increment(x.key, x.delta, x.ttl), f)
  {
    IncrementSpec(s, x, f);
    AmidSweep(s, m, t, x);
    if f.clear {
      AmidRefuse(s, m, t, x);
    } else {
      var y := IncSwept(x.key, x.delta, x.ttl, x.found, x.now);
      AmidMove(s, m, t, x, y);
      IncFromWrite(s, Lock(m, t, y), t, y, 0, f.write, f.commit);
    }
  }

  lemma IncFromMalformed(s: State, m: State, t: nat, x: Session, f: DatabaseStore.Faults)
    requires x.IncTimed? && CanStart(s, t, x.key) && Amid(s, m, t, x) && !Sweeps(m, t) && !Sends(x)
    requires x.found == Lookup(s.table, x.key) && x.now == s.clock && !f.begin && !f.query
    ensures Sequential(s, Go(Go(m, t, f.write), t, f.commit), Increment(x.key, x.delta, x.ttl), f)
  {
    IncrementSpec(s, x, f);
    AmidGo(s, m, t, x, f.write);
    AmidRefuse(s, m, t, x);
  }

  /** Behind the reading of the clock: sweep an expired row, refuse a malformed one, or count. */
  lemma IncFromTimed(s: State, m: State, t: nat, x: Session, f: DatabaseStore.Faults)
    requires x.IncTimed? && CanStart(s, t, x.key) && Amid(s, m, t, x)
    requires x.found == Lookup(s.table, x.key) && x.now == s.clock && !f.begin && !f.query
    ensures var swept := if Sweeps(m, t) then Go(m, t, f.clear) else m;
            Sequential(s, Go(Go(swept, t, f.write), t, f.commit), Increment(x.key, x.delta, x.ttl), f)
  {
    if Sweeps(m, t) {
      IncFromSweep(s, m, t, x, f);
    } else if !Sends(x) {
      IncFromMalformed(s, m, t, x, f);
    } else {
      IncrementSpec(s, x, f);
      IncFromWrite(s, m, t, x, DatabaseStore.RowCounter(Kept(x.found, x.now)).value, f.write, f.commit);
    }
  }

  lemma IncFromRead(s: State, m: State, t: nat, x: Session, f: DatabaseStore.Faults)
    requires x.IncRead? && CanStart(s, t, x.key) && Amid(s, m, t, x)
    requires x.found == Lookup(s.table, x.key) && !f.begin && !f.query
    ensures var timed := Go(m, t, false);
            var swept := if Sweeps(timed, t) then Go(timed, t, f.clear) else timed;
            Sequential(s, Go(Go(swept, t, f.write), t, f.commit), Increment(x.key, x.delta, x.ttl), f)
  {
    var y := IncTimed(x.key, x.delta, x.ttl, x.found, s.clock);
    AmidGo(s, m, t, x, false);
    AmidMove(s, m, t, x, y);
    IncFromTimed(s, Go(m, t, false), t, y, f);
  }

  lemma IncFromOpen(s: State, m: State, t: nat, x: Session, f: DatabaseStore.Faults)
    requires x.IncOpen? && CanStart(s, t, x.key) && Amid(s, m, t, x) && !f.begin && !f.query
    ensures var timed := Go(Go(m, t, false), t, false);
            var swept := if Sweeps(timed, t) then Go(timed, t, f.clear) else timed;
            Sequential(s, Go(Go(swept, t, f.write), t, f.commit), Increment(x.key, x.delta, x.ttl), f)
  {
    var y := IncRead(x.key, x.delta, x.ttl, Lookup(s.table, x.key));
    AmidGo(s, m, t, x, false);
    AmidMove(s, m, t, x, y);
    IncFromRead(s, Go(m, t, false), t, y, f);
  }

  lemma IncrementIsSequential(s: State, t: nat, k: Bytes, delta: int64, ttl: int64, f: DatabaseStore.Faults)
    requires CanStart(s, t, k)
    ensures Sequential(s, Alone(s, t, Increment(k, delta, ttl), f), Increment(k, delta, ttl), f)
  {
    var x, m := IncOpen(k, delta, ttl), Step(s, StartIncrement(t, k, delta, ttl, f.begin));
    if f.begin {
      RefusedAtOnce(s, t, k);
    } else if f.query {
      AmidGo(s, m, t, x, f.query);
      AmidRefuse(s, m, t, x);
    } else {
      IncFromOpen(s, m, t, x, f);
    }
  }

  // ---------- reads and Delete ----------

  function OpOf(kind: Kind, k: Bytes): Op {
    match kind
    case GetKind => Get(k)
    case ExistsKind => Exists(k)
    case TtlKind => Ttl(k)
  }

  /** The sequential reads in terms of the row. */
  lemma ReadSpec(s: State, kind: Kind, k: Bytes, f: DatabaseStore.Faults)
    ensures var before := Plain(s.table);
            var (rows, answer) := DatabaseStore.Step(before, OpOf(kind, k), s.clock, f);
            if f.query then rows == before && answer == Fail(Unavailable)
            else if k !in s.table then rows == before && answer == MissOf(kind)
            else if !JudgedDead(kind, s.table[k].row, s.clock) then rows == before && answer == RowHit(kind, s.table[k].row, s.clock)
            else answer == MissOf(kind) && rows == if f.clear then before else Assign(before, k, None)
  {
    PlainAssign(s.table, k, None);
    AssignLookup(Plain(s.table), k);
  }

  lemma ReadIsSequential(s: State, t: nat, kind: Kind, k: Bytes, f: DatabaseStore.Faults)
    requires CanStart(s, t, k)
    ensures Sequential(s, ReadAlone(s, t, kind, k, f), OpOf(kind, k), f)
  {
    hide DatabaseStore.Step, MissOf, RowHit, JudgedDead;
    ReadSpec(s, kind, k, f);
    if f.query || k !in s.table {
      ReadEndsAtOnce(s, t, kind, k, f.query);
    } else {
      var x := Judging(k, kind, s.table[k], |s.log|);
      assert Step(s, StartRead(t, kind, k, f.query)).sessions == s.sessions[t := x];
      JudgedAlone(s, Step(s, StartRead(t, kind, k, f.query)), t, x, f.clear);
    }
  }

  /** A read that is refused, or finds nothing. */
  lemma ReadEndsAtOnce(s: State, t: nat, kind: Kind, k: Bytes, query: bool)
    requires CanStart(s, t, k) && (query || k !in s.table)
    ensures var e := Step(s, StartRead(t, kind, k, query));
            Ended(s, e, k, Plain(s.table), if query then Fail(Unavailable) else MissOf(kind))
            && forall fault :: Go(e, t, fault) == e
  {
    hide MissOf;
    RefusedAtOnce(s, t, k);
  }

  lemma JudgedAlone(s: State, read: State, t: nat, x: Session, fault: bool)
    requires x.Judging? && CanStart(s, t, x.key) && read == Move(Note(s, Looked(t, x.key, Some(AbsTagged(x.seen)))), t, x)
    ensures var dead := JudgedDead(x.kind, x.seen.row, s.clock);
            Ended(s, Go(Go(read, t, false), t, fault), x.key,
                  if dead && !fault then Assign(Plain(s.table), x.key, None) else Plain(s.table),
                  if dead then MissOf(x.kind) else RowHit(x.kind, x.seen.row, s.clock))
  {
    var judged := Go(read, t, false);
    assert s.sessions[t := x] - {t} == s.sessions;
    if JudgedDead(x.kind, x.seen.row, s.clock) {
      var y := Sweeping(x.key, x.kind, x.seen, x.at);
      assert s.sessions[t := x][t := y] == s.sessions[t := y];
      SweptAlone(s, judged, t, y, fault);
    }
  }

  lemma SweptAlone(s: State, judged: State, t: nat, y: Session, fault: bool)
    requires y.Sweeping? && CanStart(s, t, y.key)
    requires judged.sqlite == s.sqlite && judged.table == s.table && judged.locks == s.locks && judged.clock == s.clock
    requires judged.answers == s.answers && judged.sessions == s.sessions[t := y]
    ensures Ended(s, Go(judged, t, fault), y.key, if fault then Plain(s.table) else Assign(Plain(s.table), y.key, None),
                  MissOf(y.kind))
  {
    PlainAssign(s.table, y.key, None);
    assert s.sessions[t := y] - {t} == s.sessions;
  }

  lemma DeleteIsSequential(s: State, t: nat, k: Bytes, f: DatabaseStore.Faults)
    requires CanStart(s, t, k)
    ensures Sequential(s, Alone(s, t, Delete(k), f), Delete(k), f)
  {
    PlainAssign(s.table, k, None);
    RefusedAtOnce(s, t, k);
  }

  /**
   * From any reachable state, an operation that starts when nothing bars it and that nobody interrupts is the
   * sequential store's, whichever of its statements fail: same rows, same answer, no session and no lock left.
   */
  lemma UninterruptedIsSequential(s: State, t: nat, op: Op, f: DatabaseStore.Faults)
    requires Inv(s) && t !in s.sessions && Ready(s, t) && Free(s, t, op.key)
    ensures Sequential(s, Alone(s, t, op, f), op, f)
  {
    assert CanStart(s, t, op.key);
    match op
    case Get(k) => ReadIsSequential(s, t, GetKind, k, f);
    case Exists(k) => ReadIsSequential(s, t, ExistsKind, k, f);
    case Ttl(k) => ReadIsSequential(s, t, TtlKind, k, f);
    case Set(k, value, ttl) => SetIsSequential(s, t, k, value, ttl, f);
    case Take(k) => TakeIsSequential(s, t, k, f);
    case Increment(k, delta, ttl) => IncrementIsSequential(s, t, k, delta, ttl, f);
    case Delete(k) => DeleteIsSequential(s, t, k, f);
  }
}
