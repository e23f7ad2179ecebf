/**
 * The store on a SQL table: every write is a transaction, any statement may fail, and a zero in the expiry
 * column stands for "never".
 */
module DatabaseStore {
  import opened Basics
  import opened Decimal
  import opened TtlMap
  import MemoryStore

  datatype Row = Row(value: Bytes, expiresAt: int64)
  type Rows = map<Bytes, Row>

  /** Which statements of one call the database refuses; `clear` is the DELETE, `write` the INSERT or UPDATE. */
  datatype Faults = Faults(begin: bool, query: bool, clear: bool, write: bool, commit: bool)

  const NO_FAULTS := Faults(false, false, false, false, false)

  /** The expiry column written at `now`; the nanosecond count wraps in the year 2262. */
  function Column(now: int, ttl: int64): int64 {
    if ttl > 0 then Wrap64(now + ttl) else 0
  }

  predicate RowExpired(r: Row, now: int) {
    0 < r.expiresAt <= now
  }

  // ---------- what one operation does ----------

  /** Whether a refused statement makes the call fail: only statements that the call really issues matter. */
  predicate Refused(row: Option<Row>, op: Op, now: int, f: Faults) {
    match op
    case Get(_) => f.query
    case Exists(_) => f.query
    case Ttl(_) => f.query
    case Set(_, _, _) => f.begin || f.clear || f.write || f.commit
    case Take(_) => f.begin || f.query || (row.Some? && (f.clear || f.commit))
    case Delete(_) => f.clear
    case Increment(_, _, _) =>
      var expired := row.Some? && RowExpired(row.value, now);
      f.begin || f.query || (expired && f.clear)
      || (RowCounter(if expired then None else row).Parsed? && (f.write || f.commit))
  }

  function RowCounter(row: Option<Row>): ParsedInt {
    if row.Some? then ParseInt(row.value.value) else Parsed(0)
  }

  /** The row after a call that is not refused; a failing lazy DELETE of a read is ignored. */
  function RowStep(row: Option<Row>, op: Op, now: int, f: Faults): (Option<Row>, Answer) {
    var expired := row.Some? && RowExpired(row.value, now);
    var swept := if f.clear then row else None;
    match op
    case Get(_) =>
      if row.None? then (row, Fail(Miss))
      else if expired then (swept, Fail(Miss))
      else (row, Value(row.value.value))
    case Exists(_) =>
      if row.None? then (row, Found(false))
      else if expired then (swept, Found(false))
      else (row, Found(true))
    case Ttl(_) =>
      if row.None? then (row, Fail(Miss))
      else if row.value.expiresAt == 0 then (row, Remaining(0))
      else
        var ttl := Wrap64(row.value.expiresAt - now);
        if ttl <= 0 then (swept, Fail(Miss)) else (row, Remaining(ttl))
    case Set(_, value, ttl) => (Some(Row(value, Column(now, ttl))), Done)
    case Take(_) => (None, if row.Some? && !expired then Value(row.value.value) else Fail(Miss))
    case Delete(_) => (None, Done)
    case Increment(_, delta, ttl) =>
      var kept := if expired then None else row;
      match RowCounter(kept)
      case Rejected(error, _) => (row, Fail(BadCounter(error)))
      case Parsed(n) =>
        var next := Wrap64(n + delta);
        var column := if ttl > 0 then Column(now, ttl) else if kept.Some? then kept.value.expiresAt else 0;
        (Some(Row(FormatInt(next), column)), Count(next))
  }

  function Step(rows: Rows, op: Op, now: int, f: Faults): (Rows, Answer) {
    var row := Lookup(rows, op.key);
    if Refused(row, op, now, f) then (rows, Fail(Unavailable))
    else
      var (row', answer) := RowStep(row, op, now, f);
      (Assign(rows, op.key, row'), answer)
  }

  // ---------- the database handle ----------

  /** One connection: committed rows, and the rows as the open transaction sees them. */
  class Sql {
    var table: Rows
    var working: Option<Rows>
    ghost var begun: nat
    ghost var ended: nat

    constructor ()
      ensures table == map[] && working == None && begun == ended == 0
    {
      table, working, begun, ended := map[], None, 0, 0;
    }

    method Begin(fails: bool) returns (ok: bool)
      requires working.None?
      modifies this
      ensures ok == !fails && table == old(table) && ended == old(ended)
      ensures working == (if ok then Some(table) else None) && begun == old(begun) + if ok then 1 else 0
    {
      ok := !fails;
      if ok {
        working, begun := Some(table), begun + 1;
      }
    }

    /** SELECT ... WHERE cache_key = ?, inside the transaction if one is open. */
    method Select(key: Bytes, fails: bool) returns (row: Option<Row>, ok: bool)
      ensures ok == !fails
      ensures row == if ok then Lookup(if working.Some? then working.value else table, key) else None
    {
      ok := !fails;
      row := if ok then Lookup(if working.Some? then working.value else table, key) else None;
    }

    /** DELETE, INSERT and UPDATE of one row in the open transaction; `insert` meets the primary key. */
    method Exec(key: Bytes, row: Option<Row>, insert: bool, fails: bool) returns (ok: bool)
      requires working.Some?
      modifies this`working
      ensures ok <==> !fails && !(insert && key in old(working.value))
      ensures working == if ok then Some(Assign(old(working.value), key, row)) else old(working)
    {
      ok := !fails && !(insert && key in working.value);
      if ok {
        working := Some(Assign(working.value, key, row));
      }
    }

    /** A single DELETE outside a transaction. */
    method ExecDelete(key: Bytes, fails: bool) returns (ok: bool)
      requires working.None?
      modifies this`table
      ensures ok == !fails && table == if ok then Assign(old(table), key, None) else old(table)
    {
      ok := !fails;
      if ok {
        table := Assign(table, key, None);
      }
    }

    method Commit(fails: bool) returns (ok: bool)
      requires working.Some?
      modifies this
      ensures ok == !fails && working == None && begun == old(begun) && ended == old(ended) + 1
      ensures table == if ok then old(working.value) else old(table)
    {
      ok := !fails;
      table := if ok then working.value else table;
      working, ended := None, ended + 1;
    }

    method Rollback()
      requires working.Some?
      modifies this
      ensures working == None && table == old(table) && begun == old(begun) && ended == old(ended) + 1
    {
      working, ended := None, ended + 1;
    }
  }

  // ---------- the store ----------

  class Database {
    const sql: Sql

    constructor (sql: Sql)
      ensures this.sql == sql
    {
      this.sql := sql;
    }

    /** No transaction is open, and every transaction ever begun has ended exactly once. */
    ghost predicate Idle()
      reads sql
    {
      sql.working.None? && sql.begun == sql.ended
    }

    method Get(key: Bytes, now: int, f: Faults) returns (answer: Answer)
      requires Idle()
      modifies sql
      ensures Idle() && (sql.table, answer) == Step(old(sql.table), TtlMap.Get(key), now, f)
    {
      AssignLookup(sql.table, key);
      var row, ok := sql.Select(key, f.query);
      if !ok {
        return Fail(Unavailable);
      }
      if row.None? {
        return Fail(Miss);
      }
      if row.value.expiresAt > 0 && row.value.expiresAt <= now {
        var _ := sql.ExecDelete(key, f.clear);
        return Fail(Miss);
      }
      answer := Value(row.value.value);
    }

    method Set(key: Bytes, value: Bytes, ttl: int64, now: int, f: Faults) returns (answer: Answer)
      requires Idle()
      modifies sql
      ensures Idle() && (sql.table, answer) == Step(old(sql.table), TtlMap.Set(key, value, ttl), now, f)
    {
      var expiresAt: int64 := if ttl > 0 then Wrap64(now + ttl) else 0;
      var ok := sql.Begin(f.begin);
      if !ok {
        return Fail(Unavailable);
      }
      ok := sql.Exec(key, None, false, f.clear);
      if !ok {
        sql.Rollback();
        return Fail(Unavailable);
      }
      AssignTwice(old(sql.table), key, None, Some(Row(value, expiresAt)));
      ok := sql.Exec(key, Some(Row(value, expiresAt)), true, f.write);
      if !ok {
        sql.Rollback();
        return Fail(Unavailable);
      }
      ok := sql.Commit(f.commit);
      answer := if ok then Done else Fail(Unavailable);
    }

    method Take(key: Bytes, now: int, f: Faults) returns (answer: Answer)
      requires Idle()
      modifies sql
      ensures Idle() && (sql.table, answer) == Step(old(sql.table), TtlMap.Take(key), now, f)
    {
      AssignLookup(sql.table, key);
      var ok := sql.Begin(f.begin);
      if !ok {
        return Fail(Unavailable);
      }
      var row: Option<Row>;
      row, ok := sql.Select(key, f.query);
      if row.None? {
        sql.Rollback();
        return if ok then Fail(Miss) else Fail(Unavailable);
      }
      ok := sql.Exec(key, None, false, f.clear);
      if !ok {
        sql.Rollback();
        return Fail(Unavailable);
      }
      ok := sql.Commit(f.commit);
      if !ok {
        return Fail(Unavailable);
      }
      if row.value.expiresAt > 0 && row.value.expiresAt <= now {
        return Fail(Miss);
      }
      answer := Value(row.value.value);
    }

    method Exists(key: Bytes, now: int, f: Faults) returns (answer: Answer)
      requires Idle()
      modifies sql
      ensures Idle() && (sql.table, answer) == Step(old(sql.table), TtlMap.Exists(key), now, f)
    {
      var got := Get(key, now, f);
      answer := match got
        case Value(_) => Found(true)
        case Fail(error) => if error == Miss then Found(false) else got
        case _ => got;
    }

    method Increment(key: Bytes, delta: int64, ttl: int64, now: int, f: Faults) returns (answer: Answer)
      requires Idle()
      modifies sql
      ensures Idle() && (sql.table, answer) == Step(old(sql.table), TtlMap.Increment(key, delta, ttl), now, f)
    {
      var ok := sql.Begin(f.begin);
      if !ok {
        return Fail(Unavailable);
      }
      var row: Option<Row>;
      row, ok := sql.Select(key, f.query);
      if !ok {
        sql.Rollback();
        return Fail(Unavailable);
      }
      var exists_, expiresAt: int64 := row.Some?, if row.Some? then row.value.expiresAt else 0;
      if exists_ && expiresAt > 0 && expiresAt <= now {
        ok := sql.Exec(key, None, false, f.clear);
        if !ok {
          sql.Rollback();
          return Fail(Unavailable);
        }
        exists_, expiresAt := false, 0;
      }
      var current: int64 := 0;
      if exists_ {
        match ParseInt(row.value.value)
        case Rejected(error, _) =>
          AssignLookup(old(sql.table), key);
          sql.Rollback();
          return Fail(BadCounter(error));
        case Parsed(n) => current := n;
      }
      var next := Wrap64(current + delta);
      if ttl > 0 {
        expiresAt := Wrap64(now + ttl);
      }
      AssignTwice(old(sql.table), key, None, Some(Row(FormatInt(next), expiresAt)));
      ok := sql.Exec(key, Some(Row(FormatInt(next), expiresAt)), !exists_, f.write);
      if !ok {
        sql.Rollback();
        return Fail(Unavailable);
      }
      ok := sql.Commit(f.commit);
      answer := if ok then Count(next) else Fail(Unavailable);
    }

    method TTL(key: Bytes, now: int, f: Faults) returns (answer: Answer)
      requires Idle()
      modifies sql
      ensures Idle() && (sql.table, answer) == Step(old(sql.table), TtlMap.Ttl(key), now, f)
    {
      AssignLookup(sql.table, key);
      var row, ok := sql.Select(key, f.query);
      if !ok {
        return Fail(Unavailable);
      }
      if row.None? {
        return Fail(Miss);
      }
      if row.value.expiresAt == 0 {
        return Remaining(0);
      }
      var ttl := Wrap64(row.value.expiresAt - now);
      if ttl <= 0 {
        var _ := sql.ExecDelete(key, f.clear);
        return Fail(Miss);
      }
      answer := Remaining(ttl);
    }

    method Delete(key: Bytes, f: Faults) returns (answer: Answer)
      requires Idle()
      modifies sql
      ensures Idle()
      ensures forall now :: (sql.table, answer) == Step(old(sql.table), TtlMap.Delete(key), now, f)
    {
      var ok := sql.ExecDelete(key, f.clear);
      answer := if ok then Done else Fail(Unavailable);
    }
  }

  // ---------- refinement ----------

  /** A clock reading between 1970 and 2262, the range of a nanosecond count. */
  predicate Representable(now: int) {
    0 < now <= MAX_INT64
  }

  /** The deadline behind a column value; a negative one is a deadline past the range, wrapped. */
  function AbsRow(r: Row): Entry {
    Entry(r.value, if r.expiresAt == 0 then None
                   else if r.expiresAt > 0 then Some(r.expiresAt)
                   else Some(r.expiresAt + 0x1_0000_0000_0000_0000))
  }

  function AbsOption(row: Option<Row>): Option<Entry> {
    if row.Some? then Some(AbsRow(row.value)) else None
  }

  function Abs(rows: Rows): Entries {
    map k | k in rows :: AbsRow(rows[k])
  }

  lemma AbsAssign(rows: Rows, k: Bytes, row: Option<Row>)
    ensures Abs(Assign(rows, k, row)) == Assign(Abs(rows), k, AbsOption(row))
  {
    forall x
      ensures Lookup(Abs(Assign(rows, k, row)), x) == Lookup(Assign(Abs(rows), k, AbsOption(row)), x)
    {
      assert Lookup(Abs(Assign(rows, k, row)), x) == AbsOption(Lookup(Assign(rows, k, row), x));
      assert Lookup(Abs(rows), x) == AbsOption(Lookup(rows, x));
    }
    SameLookups(Abs(Assign(rows, k, row)), Assign(Abs(rows), k, AbsOption(row)));
  }

  /** A column always denotes the very deadline that the map would keep, even where the count wraps. */
  lemma ColumnDeadline(value: Bytes, now: int, ttl: int64)
    requires Representable(now)
    ensures AbsRow(Row(value, Column(now, ttl))) == Entry(value, Deadline(now, ttl))
  {
    var d := now + ttl;
    if ttl > 0 && d > MAX_INT64 {
      assert (d + 0x8000_0000_0000_0000) % 0x1_0000_0000_0000_0000 == d - 0x8000_0000_0000_0000;
    }
  }

  /** On the row itself: the same answer as the map's, and the same live entry afterwards. */
  lemma RowRefines(row: Option<Row>, op: Op, now: int, f: Faults)
    requires Representable(now)
    requires row.Some? && AbsRow(row.value).expiry.Some? ==> AbsRow(row.value).expiry.value - now <= MAX_INT64
    ensures var (row', answer) := RowStep(row, op, now, f);
            var (e', spec) := Effect(IfAlive(AbsOption(row), now), op, now);
            answer == spec && IfAlive(AbsOption(row'), now) == IfAlive(e', now)
  {
    hide Alive, AbsRow, ParseInt, FormatInt;
    match op
    case Set(_, value, ttl) => SetRefines(row, value, ttl, now, f);
    case Ttl(_) => TtlRefines(row, now, f);
    case Increment(_, delta, ttl) => IncrementRefines(row, delta, ttl, now, f);
    case _ => OthersRefine(row, op, now, f);
  }

  lemma OthersRefine(row: Option<Row>, op: Op, now: int, f: Faults)
    requires Representable(now) && (op.Get? || op.Exists? || op.Take? || op.Delete?)
    ensures var (row', answer) := RowStep(row, op, now, f);
            var (e', spec) := Effect(IfAlive(AbsOption(row), now), op, now);
            answer == spec && IfAlive(AbsOption(row'), now) == IfAlive(e', now)
  {
    ExpiredRow(row, now);
  }

  /** The test in SQL terms is the test on deadlines. */
  lemma ExpiredRow(row: Option<Row>, now: int)
    requires Representable(now)
    ensures row.Some? ==> (RowExpired(row.value, now) <==> !Alive(AbsRow(row.value), now))
  {
  }

  lemma TtlRefines(row: Option<Row>, now: int, f: Faults)
    requires Representable(now)
    requires row.Some? && AbsRow(row.value).expiry.Some? ==> AbsRow(row.value).expiry.value - now <= MAX_INT64
    ensures var (row', answer) := RowStep(row, Ttl([]), now, f);
            var (e', spec) := Effect(IfAlive(AbsOption(row), now), Ttl([]), now);
            answer == spec && IfAlive(AbsOption(row'), now) == IfAlive(e', now)
  {
    ExpiredRow(row, now);
    if row.Some? && row.value.expiresAt != 0 {
      TtlColumn(row.value, now);
    }
  }

  lemma SetRefines(row: Option<Row>, value: Bytes, ttl: int64, now: int, f: Faults)
    requires Representable(now)
    ensures var (row', answer) := RowStep(row, Set([], value, ttl), now, f);
            var (e', spec) := Effect(IfAlive(AbsOption(row), now), Set([], value, ttl), now);
            answer == spec && IfAlive(AbsOption(row'), now) == IfAlive(e', now)
  {
    ColumnDeadline(value, now, ttl);
  }

  /** The column that an increment writes over the row it keeps denotes the deadline of the map's entry. */
  lemma CountedColumn(kept: Option<Row>, value: Bytes, now: int, ttl: int64)
    requires Representable(now)
    ensures AbsRow(Row(value, if ttl > 0 then Column(now, ttl) else if kept.Some? then kept.value.expiresAt else 0))
         == Entry(value, if ttl > 0 then Deadline(now, ttl) else ExpiryOf(AbsOption(kept)))
  {
    ColumnDeadline(value, now, ttl);
  }

  lemma IncrementRefines(row: Option<Row>, delta: int64, ttl: int64, now: int, f: Faults)
    requires Representable(now)
    ensures var op := Increment([], delta, ttl);
            var (row', answer) := RowStep(row, op, now, f);
            var (e', spec) := Effect(IfAlive(AbsOption(row), now), op, now);
            answer == spec && IfAlive(AbsOption(row'), now) == IfAlive(e', now)
  {
    ExpiredRow(row, now);
    var kept := if row.Some? && RowExpired(row.value, now) then None else row;
    assert AbsOption(kept) == IfAlive(AbsOption(row), now);
    match RowCounter(kept)
    case Rejected(_, _) =>
    case Parsed(n) => CountRefines(row, kept, n, delta, ttl, now, f);
  }

  lemma CountRefines(row: Option<Row>, kept: Option<Row>, n: int64, delta: int64, ttl: int64, now: int, f: Faults)
    requires Representable(now) && kept == (if row.Some? && RowExpired(row.value, now) then None else row)
    requires RowCounter(kept) == Parsed(n)
    ensures var (row', answer) := RowStep(row, Increment([], delta, ttl), now, f);
            (AbsOption(row'), answer) == Effect(AbsOption(kept), Increment([], delta, ttl), now)
  {
    CountedColumn(kept, FormatInt(Wrap64(n + delta)), now, ttl);
  }

  lemma TtlColumn(r: Row, now: int)
    requires Representable(now) && AbsRow(r).expiry.Some?
    requires AbsRow(r).expiry.value - now <= MAX_INT64
    ensures Wrap64(r.expiresAt - now) == AbsRow(r).expiry.value - now
  {
    var left := AbsRow(r).expiry.value - now;
    if r.expiresAt < 0 {
      assert (r.expiresAt - now + 0x8000_0000_0000_0000) % 0x1_0000_0000_0000_0000 == left + 0x8000_0000_0000_0000;
    }
  }

  predicate Bounded(rows: Rows, now: int) {
    MemoryStore.Bounded(Abs(rows), now)
  }

  /** A call is refused and changes nothing, or it answers like the map and leaves the same live view. */
  lemma StepRefines(rows: Rows, m: Entries, op: Op, now: int, f: Faults)
    requires Agree(Abs(rows), m, now) && Bounded(rows, now) && Representable(now)
    ensures var (rows', answer) := Step(rows, op, now, f);
            if Refused(Lookup(rows, op.key), op, now, f) then rows' == rows && answer == Fail(Unavailable)
            else answer == Perform(m, op, now).1 && Agree(Abs(rows'), Perform(m, op, now).0, now)
    ensures Bounded(Step(rows, op, now, f).0, now)
  {
    var k, v := op.key, Live(m, now);
    var row := Lookup(rows, k);
    if !Refused(row, op, now, f) {
      var row' := RowStep(row, op, now, f).0;
      assert Lookup(Abs(rows), k) == AbsOption(row);
      LiveLookup(Abs(rows), now, k);
      RowRefines(row, op, now, f);
      AbsAssign(rows, k, row');
      LiveAssign(Abs(rows), k, AbsOption(row'), now);
      LiveLater(m, now, now);
      LiveAssign(v, k, Effect(Lookup(v, k), op, now).0, now);
      RowBounded(row, op, now, f);
      AssignBounded(Abs(rows), k, AbsOption(row'), now);
    }
  }

  lemma RowBounded(row: Option<Row>, op: Op, now: int, f: Faults)
    requires Representable(now)
    requires row.Some? && AbsRow(row.value).expiry.Some? ==> AbsRow(row.value).expiry.value - now <= MAX_INT64
    ensures var row' := RowStep(row, op, now, f).0;
            row'.Some? && AbsRow(row'.value).expiry.Some? ==> AbsRow(row'.value).expiry.value - now <= MAX_INT64
  {
    match op
    case Set(_, value, ttl) => ColumnDeadline(value, now, ttl);
    case Increment(_, delta, ttl) => ColumnDeadline([], now, ttl);
    case _ =>
  }

  lemma AssignBounded(items: Entries, k: Bytes, e: Option<Entry>, now: int)
    requires MemoryStore.Bounded(items, now)
    requires e.Some? && e.value.expiry.Some? ==> e.value.expiry.value - now <= MAX_INT64
    ensures MemoryStore.Bounded(Assign(items, k, e), now)
  {
    var after := Assign(items, k, e);
    forall x | x in after && after[x].expiry.Some?
      ensures after[x].expiry.value - now <= MAX_INT64
    {
      if x != k {
        assert Lookup(after, x) == Lookup(items, x);
      }
    }
  }

  /** Every error answer, a refused statement, a miss or a bad counter, leaves the live view as it was. */
  lemma ErrorsChangeNothing(rows: Rows, op: Op, now: int, f: Faults)
    requires Bounded(rows, now) && Representable(now)
    requires Step(rows, op, now, f).1.Fail?
    ensures Agree(Abs(Step(rows, op, now, f).0), Abs(rows), now)
    ensures Step(rows, op, now, f).1 == Fail(Unavailable) ==> Step(rows, op, now, f).0 == rows
  {
    StepRefines(rows, Abs(rows), op, now, f);
    if !Refused(Lookup(rows, op.key), op, now, f) {
      var v := Live(Abs(rows), now);
      LiveLater(Abs(rows), now, now);
      AssignLookup(v, op.key);
    }
  }

  // ---------- runs ----------

  datatype FaultyEvent = FaultyEvent(event: Event, faults: Faults)

  function Events(run: seq<FaultyEvent>): (events: seq<Event>)
    ensures |events| == |run|
  {
    if run == [] then [] else [run[0].event] + Events(run[1..])
  }

  predicate InRange(events: seq<Event>) {
    forall i :: 0 <= i < |events| ==> Representable(events[i].now)
  }

  function Run(rows: Rows, run: seq<FaultyEvent>): seq<Answer>
    decreases |run|
  {
    if run == [] then []
    else
      var (rows', answer) := Step(rows, run[0].event.op, run[0].event.now, run[0].faults);
      [answer] + Run(rows', run[1..])
  }

  /** Which calls of a run are refused. */
  function Refusals(rows: Rows, run: seq<FaultyEvent>): (refused: seq<bool>)
    ensures |refused| == |run|
    decreases |run|
  {
    if run == [] then []
    else
      var FaultyEvent(Event(op, now), f) := run[0];
      [Refused(Lookup(rows, op.key), op, now, f)] + Refusals(Step(rows, op, now, f).0, run[1..])
  }

  /** The map over a run of which some calls never reach it. */
  function RunSkipping(m: Entries, events: seq<Event>, skipped: seq<bool>): seq<Answer>
    requires |skipped| == |events|
    decreases |events|
  {
    if events == [] then []
    else if skipped[0] then [Fail(Unavailable)] + RunSkipping(m, events[1..], skipped[1..])
    else
      var (m', answer) := Perform(m, events[0].op, events[0].now);
      [answer] + RunSkipping(m', events[1..], skipped[1..])
  }

  /** Over every run with faults anywhere, the database is the map on which the refused calls never happened. */
  lemma {:induction false} RunRefines(rows: Rows, m: Entries, run: seq<FaultyEvent>, from: int)
    requires Agree(Abs(rows), m, from) && Bounded(rows, from)
    requires Ordered(Events(run), from) && InRange(Events(run))
    ensures Run(rows, run) == RunSkipping(m, Events(run), Refusals(rows, run))
    decreases |run|
  {
    if run != [] {
      var FaultyEvent(Event(op, now), f) := run[0];
      assert Events(run)[0] == run[0].event && Events(run)[1..] == Events(run[1..]);
      forall i | 0 <= i < |Events(run[1..])|
        ensures Representable(Events(run[1..])[i].now)
      {
        assert Events(run)[i + 1] == Events(run[1..])[i];
      }
      AgreeLater(Abs(rows), m, from, now);
      StepRefines(rows, m, op, now, f);
      var refused := Refused(Lookup(rows, op.key), op, now, f);
      RunRefines(Step(rows, op, now, f).0, if refused then m else Perform(m, op, now).0, run[1..], now);
      assert Refusals(rows, run)[0] == refused;
      assert Refusals(rows, run)[1..] == Refusals(Step(rows, op, now, f).0, run[1..]);
    }
  }

  /** The same run without any fault. */
  function Faultless(events: seq<Event>): (run: seq<FaultyEvent>)
    ensures Events(run) == events
  {
    if events == [] then []
    else
      var rest := Faultless(events[1..]);
      assert ([FaultyEvent(events[0], NO_FAULTS)] + rest)[1..] == rest;
      [FaultyEvent(events[0], NO_FAULTS)] + rest
  }

  /** Without faults the database, the memory store and the TTL map answer every run identically. */
  lemma {:induction false} StoresAgree(rows: Rows, items: Entries, m: Entries, events: seq<Event>, from: int)
    requires Agree(Abs(rows), m, from) && Bounded(rows, from)
    requires Agree(items, m, from) && MemoryStore.Bounded(items, from)
    requires Ordered(events, from) && InRange(events)
    ensures Run(rows, Faultless(events)) == MemoryStore.Run(items, events) == TtlMap.Run(m, events)
  {
    MemoryStore.RunRefines(items, m, events, from);
    RunRefines(rows, m, Faultless(events), from);
    NothingSkipped(rows, m, events);
  }

  lemma {:induction false} NothingSkipped(rows: Rows, m: Entries, events: seq<Event>)
    ensures RunSkipping(m, events, Refusals(rows, Faultless(events))) == TtlMap.Run(m, events)
    decreases |events|
  {
    if events != [] {
      var run := Faultless(events);
      var Event(op, now) := events[0];
      assert run[0] == FaultyEvent(events[0], NO_FAULTS) && run[1..] == Faultless(events[1..]);
      assert !Refused(Lookup(rows, op.key), op, now, NO_FAULTS);
      var refusals := Refusals(rows, run);
      assert refusals[1..] == Refusals(Step(rows, op, now, NO_FAULTS).0, run[1..]);
      NothingSkipped(Step(rows, op, now, NO_FAULTS).0, Perform(m, op, now).0, events[1..]);
    }
  }
}
