/**
 * What the database store owes its callers, over every interleaving and with any statement failing: each commit does
 * what one caller asked for, at the clock reading of that caller, and no call commits twice; each call that ends is
 * answered once, by its own act; an error of the database comes from a statement that failed or from a key that was
 * inserted meanwhile; and no circle of clients can wait for each other.
 */
module DatabaseCalls {
  import opened Basics
  import opened Decimal
  import opened TtlMap
  import opened Journal
  import DatabaseStore
  import opened DatabaseTx

  // ---------- calls ----------

  /** What a caller asked for, with the clock and the length of the journal at that moment. */
  datatype Call = Call(request: Label, clock: int, logged: nat)

  predicate Counting(x: Session) {
    x.IncOpen? || x.IncRead? || x.IncTimed? || x.IncSwept? || x.IncWritten?
  }

  /** What the client carries between two statements is what its caller asked for. */
  predicate Carries(c: Call, x: Session, t: nat, clock: int) {
    match c.request
    case StartSet(client, k, value, ttl) =>
      client == t && Setting(x) && x.key == k && x.value == value && x.lifetime == ttl && x.now == c.clock
    case StartTake(client, k, _) => client == t && (Taking(x) || x.TakeDone?) && x.key == k && (x.TakeDone? ==> x.at >= c.logged)
    case StartIncrement(client, k, delta, ttl, _) =>
      && client == t && Counting(x) && x.key == k && x.delta == delta && x.ttl == ttl
      && (!x.IncOpen? && !x.IncRead? ==> c.clock <= x.now <= clock)
    case StartRead(client, kind, k, _) =>
      client == t && (x.Judging? || x.Sweeping?) && x.key == k && x.kind == kind && x.at >= c.logged
    case _ => false
  }

  /** The act does for the caller what it asked for; `clock` is the time of the commit. */
  predicate Made(c: Call, a: Act, clock: int) {
    && !c.request.Tick? && !c.request.Advance? && a.actor == c.request.client && a.key == c.request.key
    && match a
       case Put(_, _, stored) =>
         && c.request.StartSet?
         && stored.entry == Entry(c.request.value, if c.request.ttl > 0 then Some(c.clock + c.request.ttl) else None)
       case Added(_, _, delta, bump, now, _, _) =>
         && c.request.StartIncrement? && delta == c.request.delta && c.clock <= now <= clock
         && bump == if c.request.ttl > 0 then Some(Some(now + c.request.ttl)) else None
       case Took(_, _, _) => c.request.StartTake?
       case Dropped(_, _) => c.request.DeleteNow? && !c.request.fault
       case Looked(_, _, found) =>
         c.request.StartRead? || (c.request.StartTake? && found.None?) || (c.request.StartIncrement? && found.Some?)
       case Forgot(_, _, _, lookedAt, now) => c.request.StartRead? && c.logged <= lookedAt && now == clock
  }

  /** The answer is one that such a call may get, given between its start and now. */
  predicate Replies(c: Call, r: Return, clock: int) {
    && !c.request.Tick? && !c.request.Advance? && r.actor == c.request.client && r.key == c.request.key
    && c.clock <= r.now <= clock
    && (r.answer == UNAVAILABLE || (r.at >= c.logged && FitsRequest(c.request, r.answer)))
  }

  predicate FitsRequest(request: Label, answer: Answer) {
    match request
    case StartSet(_, _, _, _) => answer == Done
    case StartTake(_, _, _) => answer.Value? || answer == Fail(Miss)
    case StartIncrement(_, _, _, _, _) => answer.Count? || (answer.Fail? && answer.error.BadCounter?)
    case StartRead(_, kind, _, _) =>
      (match kind
       case GetKind => answer.Value? || answer == Fail(Miss)
       case ExistsKind => answer.Found?
       case TtlKind => answer.Remaining? || answer == Fail(Miss))
    case DeleteNow(_, _, _) => answer == Done
    case _ => false
  }

  // ---------- one step ----------

  /** What a step of the client does for its call: at most one act, and an answer exactly if it is the last step. */
  ghost predicate Goes(c: Call, s: State, s': State, t: nat) {
    && s.log <= s'.log && |s'.log| <= |s.log| + 1 && s.answers <= s'.answers
    && |s'.answers| == |s.answers| + (if t in s'.sessions then 0 else 1)
    && (|s'.log| > |s.log| ==>
          && Made(c, s'.log[|s.log|], s.clock)
          && (Changes(s'.log[|s.log|]) && t in s'.sessions ==> s'.sessions[t].TakeDone?))
    && (if t in s'.sessions then Carries(c, s'.sessions[t], t, s.clock) else Replies(c, s'.answers[|s.answers|], s.clock))
    && s'.clock == s.clock && forall u :: u != t ==> Lookup(s'.sessions, u) == Lookup(s.sessions, u)
  }

  lemma SetGoes(c: Call, s: State, t: nat, x: Session, fault: bool)
    requires Setting(x) && Carries(c, x, t, s.clock) && t in s.sessions && s.sessions[t] == x
    requires DatabaseStore.Representable(c.clock) && c.clock <= s.clock && c.logged <= |s.log|
    ensures Goes(c, s, SetStep(s, t, x, fault), t)
  {
    hide DatabaseStore.Column, DatabaseStore.AbsRow, DatabaseStore.Representable;
    if x.SetWritten? {
      DatabaseStore.ColumnDeadline(x.value, x.now, x.lifetime);
    }
  }

  lemma TakeGoes(c: Call, s: State, t: nat, x: Session, fault: bool)
    requires Taking(x) && Carries(c, x, t, s.clock) && t in s.sessions && s.sessions[t] == x
    requires c.clock <= s.clock && c.logged <= |s.log|
    ensures Goes(c, s, TakeStep(s, t, x, fault), t)
  {
    hide AbsTagged;
  }

  lemma IncGoes(c: Call, s: State, t: nat, x: Session, fault: bool)
    requires x.IncOpen? || x.IncRead? || x.IncTimed? || x.IncSwept?
    requires Carries(c, x, t, s.clock) && t in s.sessions && s.sessions[t] == x
    requires c.clock <= s.clock && c.logged <= |s.log|
    ensures Goes(c, s, IncStep(s, t, x, fault), t)
  {
    hide AbsTagged, NextRow, DatabaseStore.RowExpired;
    if x.IncTimed? {
      TimedGoes(c, s, t, x, fault);
    }
  }

  lemma TimedGoes(c: Call, s: State, t: nat, x: Session, fault: bool)
    requires x.IncTimed? && Carries(c, x, t, s.clock) && t in s.sessions && s.sessions[t] == x
    requires c.clock <= s.clock && c.logged <= |s.log|
    ensures Goes(c, s, IncStep(s, t, x, fault), t)
  {
    hide NextRow, DatabaseStore.RowExpired, DatabaseStore.RowCounter, Kept;
    RefusalGoes(c, s, t, x);
    CountsFromZero(x.now);
  }

  lemma CountsFromZero(now: int)
    ensures DatabaseStore.RowCounter(Kept(None, now)) == Parsed(0)
  {
  }

  /** An error of the database is an answer, too. */
  lemma RefusalGoes(c: Call, s: State, t: nat, x: Session)
    requires Carries(c, x, t, s.clock) && t in s.sessions && c.clock <= s.clock
    ensures Goes(c, s, Refuse(s, t, x.key), t)
  {
  }

  lemma CommitGoes(c: Call, s: State, t: nat, x: Session, fault: bool)
    requires x.IncWritten? && Carries(c, x, t, s.clock) && t in s.sessions && s.sessions[t] == x
    requires c.clock <= s.clock && c.logged <= |s.log|
    ensures Goes(c, s, IncCommit(s, t, x, fault), t)
  {
    hide DatabaseStore.AbsRow;
  }

  lemma LastGoes(c: Call, s: State, t: nat, x: Session, fault: bool)
    requires x.TakeDone? || x.Judging? || x.Sweeping?
    requires Carries(c, x, t, s.clock) && t in s.sessions && s.sessions[t] == x
    requires c.clock <= s.clock && c.logged <= |s.log|
    ensures Goes(c, s, AdvanceStep(s, t, x, fault), t)
  {
    hide AbsTagged, JudgedDead, DatabaseStore.RowExpired, Ready, Free, SetStep, TakeStep, IncStep, IncCommit;
  }

  lemma AdvanceGoes(c: Call, s: State, t: nat, fault: bool)
    requires t in s.sessions && Carries(c, s.sessions[t], t, s.clock)
    requires DatabaseStore.Representable(c.clock) && c.clock <= s.clock && c.logged <= |s.log|
    ensures Goes(c, s, AdvanceStep(s, t, s.sessions[t], fault), t)
  {
    hide SetStep, TakeStep, IncStep, IncCommit, DatabaseStore.Representable, Made, Replies;
    var x := s.sessions[t];
    if Setting(x) {
      SetGoes(c, s, t, x, fault);
    } else if Taking(x) {
      TakeGoes(c, s, t, x, fault);
    } else if x.IncWritten? {
      CommitGoes(c, s, t, x, fault);
    } else if Counting(x) {
      IncGoes(c, s, t, x, fault);
    } else {
      LastGoes(c, s, t, x, fault);
    }
  }

  /** A call begins, and goes on, or ends at once; or it has to wait and has not begun. */
  lemma StartGoes(s: State, l: Label)
    requires !l.Tick? && !l.Advance? && l.client !in s.sessions
    ensures var s' := Step(s, l);
            s' == s || (Goes(Call(l, s.clock, |s.log|), s, s', l.client)
                        && (|s'.log| > |s.log| && Changes(s'.log[|s.log|]) ==> l.client !in s'.sessions))
  {
    hide AbsTagged;
    if l.StartRead? {
      ReadGoes(s, l);
    }
  }

  lemma ReadGoes(s: State, l: Label)
    requires l.StartRead? && l.client !in s.sessions
    ensures var s' := ReadStep(s, l.client, l.kind, l.key, l.fault);
            Goes(Call(l, s.clock, |s.log|), s, s', l.client) && (|s'.log| > |s.log| ==> !Changes(s'.log[|s.log|]))
  {
    hide AbsFound;
  }

  // ---------- runs ----------

  /** The label that started what the client is at before step n: the last one that found it with no session. */
  function StartOf(run: seq<State>, t: nat, n: nat): (i: nat)
    requires n < |run|
    ensures i <= n
  {
    if n == 0 then 0 else if t in run[n - 1].sessions then StartOf(run, t, n - 1) else n - 1
  }

  /** The call that step m belongs to, by the number of the label that started it. */
  function CallAt(run: seq<State>, labels: seq<Label>, m: nat): (i: nat)
    requires m < |labels| && |run| == |labels| + 1
    ensures i <= m
  {
    if labels[m].Advance? && labels[m].client in run[m].sessions then StartOf(run, labels[m].client, m) else m
  }

  function CallOf(run: seq<State>, labels: seq<Label>, i: nat): Call
    requires i < |labels| && |run| == |labels| + 1
  {
    Call(labels[i], run[i].clock, |run[i].log|)
  }

  /** The step that appended an act, or gave an answer. */
  function AppendedAt(run: seq<State>, j: nat, n: nat): (m: nat)
    requires n < |run| && |run[0].log| <= j < |run[n].log|
    ensures m < n && |run[m].log| <= j < |run[m + 1].log|
  {
    if |run[n - 1].log| <= j then n - 1 else AppendedAt(run, j, n - 1)
  }

  function AnsweredAt(run: seq<State>, q: nat, n: nat): (m: nat)
    requires n < |run| && |run[0].answers| <= q < |run[n].answers|
    ensures m < n && |run[m].answers| <= q < |run[m + 1].answers|
  {
    if |run[n - 1].answers| <= q then n - 1 else AnsweredAt(run, q, n - 1)
  }

  /** Before step n the client is at what the label i asked for. */
  predicate IsAt(run: seq<State>, labels: seq<Label>, t: nat, i: nat, n: nat)
    requires i < n <= |labels| && |run| == |labels| + 1
  {
    && t in run[n].sessions && t !in run[i].sessions && DatabaseStore.Representable(run[i].clock)
    && run[i].clock <= run[n].clock && |run[i].log| <= |run[n].log|
    && Carries(CallOf(run, labels, i), run[n].sessions[t], t, run[n].clock)
  }

  ghost predicate CallsFit(run: seq<State>, labels: seq<Label>, n: nat)
    requires n <= |labels| && |run| == |labels| + 1
  {
    forall t :: t in run[n].sessions ==> CallFits(run, labels, t, n)
  }

  predicate CallFits(run: seq<State>, labels: seq<Label>, t: nat, n: nat)
    requires n <= |labels| && |run| == |labels| + 1
  {
    StartOf(run, t, n) < n && IsAt(run, labels, t, StartOf(run, t, n), n)
  }

  /** What any step does, to its call. */
  ghost predicate StepFits(run: seq<State>, labels: seq<Label>, m: nat)
    requires m < |labels| && |run| == |labels| + 1
  {
    var s, s', l := run[m], run[m + 1], labels[m];
    || s' == s
    || (l.Tick? && s' == s.(clock := s'.clock) && s.clock <= s'.clock)
    || (!l.Tick? && Goes(CallOf(run, labels, CallAt(run, labels, m)), s, s', l.client)
        && (l.Advance? ==> l.client in s.sessions) && (!l.Advance? ==> l.client !in s.sessions)
        && (l.Advance? && s.sessions[l.client].TakeDone? ==> s'.log == s.log && l.client !in s'.sessions)
        && (!l.Advance? && |s'.log| > |s.log| && Changes(s'.log[|s.log|]) ==> l.client !in s'.sessions))
  }

  lemma TakeDoneRests(s: State, t: nat, fault: bool)
    requires t in s.sessions && s.sessions[t].TakeDone?
    ensures var s' := AdvanceStep(s, t, s.sessions[t], fault); s'.log == s.log && t !in s'.sessions
  {
  }

  lemma StepFitsNow(run: seq<State>, labels: seq<Label>, m: nat)
    requires IsRun(run, labels) && m < |labels| && CallsFit(run, labels, m) && Inv(run[m])
    ensures StepFits(run, labels, m)
  {
    hide AdvanceStep, ReadStep, Inv, Goes, Carries, StartOf;
    assert StepAt(run, labels, m);
    var s, l := run[m], labels[m];
    if l.Advance? {
      if l.client in s.sessions {
        var i := StartOf(run, l.client, m);
        assert CallFits(run, labels, l.client, m);
        AdvanceGoes(CallOf(run, labels, i), s, l.client, l.fault);
        if s.sessions[l.client].TakeDone? {
          TakeDoneRests(s, l.client, l.fault);
        }
      }
    } else if !l.Tick? {
      StartFitsNow(run, labels, m);
    }
  }

  lemma StartFitsNow(run: seq<State>, labels: seq<Label>, m: nat)
    requires m < |labels| && |run| == |labels| + 1 && run[m + 1] == Step(run[m], labels[m])
    requires !labels[m].Tick? && !labels[m].Advance?
    ensures StepFits(run, labels, m)
  {
    hide ReadStep, Goes, Ready, Free;
    var s, l := run[m], labels[m];
    if l.client in s.sessions {
      assert Step(s, l) == s;
    } else {
      hide Step;
      StartGoes(s, l);
    }
  }

  lemma CallsStillFit(run: seq<State>, labels: seq<Label>, n: nat)
    requires n < |labels| && |run| == |labels| + 1 && CallsFit(run, labels, n) && StepFits(run, labels, n)
    requires DatabaseStore.Representable(run[n].clock)
    ensures CallsFit(run, labels, n + 1)
  {
    var later: nat := n + 1;
    forall t | t in run[later].sessions
      ensures CallFits(run, labels, t, later)
    {
      CallStillFits(run, labels, n, t);
    }
  }

  lemma CallStillFits(run: seq<State>, labels: seq<Label>, n: nat, t: nat)
    requires n < |labels| && |run| == |labels| + 1 && CallsFit(run, labels, n) && StepFits(run, labels, n)
    requires DatabaseStore.Representable(run[n].clock) && t in run[n + 1].sessions
    ensures CallFits(run, labels, t, n + 1)
  {
    hide Made, Replies, DatabaseStore.Representable;
    if labels[n].Tick? || labels[n].client != t {
      assert Lookup(run[n + 1].sessions, t) == Lookup(run[n].sessions, t);
    }
    if t in run[n].sessions {
      assert CallFits(run, labels, t, n);
    }
  }

  lemma {:induction false} AlwaysFits(run: seq<State>, labels: seq<Label>, n: nat)
    requires IsRunFromEmpty(run, labels) && n <= |labels|
    ensures CallsFit(run, labels, n) && (n < |labels| ==> StepFits(run, labels, n))
  {
    hide StepFits, CallsFit, Inv, StepAt;
    if n == 0 {
      BeginFits(run, labels);
    } else {
      AlwaysFits(run, labels, n - 1);
      InvRepresentable(run, labels, n - 1);
      CallsStillFit(run, labels, n - 1);
    }
    if n < |labels| {
      AlwaysInv(run, labels, n);
      StepFitsNow(run, labels, n);
    }
  }

  lemma BeginFits(run: seq<State>, labels: seq<Label>)
    requires IsRunFromEmpty(run, labels)
    ensures CallsFit(run, labels, 0)
  {
  }

  lemma InvRepresentable(run: seq<State>, labels: seq<Label>, n: nat)
    requires IsRunFromEmpty(run, labels) && n <= |labels|
    ensures DatabaseStore.Representable(run[n].clock)
  {
    AlwaysInv(run, labels, n);
  }

  /** Journal, answers and clock only grow. */
  lemma {:induction false} RunGrows(run: seq<State>, labels: seq<Label>, m: nat, n: nat)
    requires IsRunFromEmpty(run, labels) && m <= n <= |labels|
    ensures run[m].log <= run[n].log && run[m].answers <= run[n].answers && run[m].clock <= run[n].clock
    decreases n - m
  {
    hide StepAt, Made, Replies, Carries;
    if m < n {
      AlwaysFits(run, labels, n - 1);
      RunGrows(run, labels, m, n - 1);
    }
  }

  /** As long as the client is at one call, it has a session. */
  lemma {:induction false} AtOneCall(run: seq<State>, t: nat, n: nat, k: nat)
    requires n < |run| && t in run[n].sessions && StartOf(run, t, n) < k <= n
    ensures t in run[k].sessions && StartOf(run, t, k) == StartOf(run, t, n)
  {
    if k < n {
      AtOneCall(run, t, n - 1, k);
    }
  }

  // ---------- acts ----------

  /** Only a finished Take stays after a change, and it does no more. */
  ghost predicate Finishes(run: seq<State>, labels: seq<Label>, m: nat, a: Act)
    requires m < |labels| && |run| == |labels| + 1
  {
    && !labels[m].Tick?
    && var t := labels[m].client;
       && (Changes(a) && t in run[m + 1].sessions ==> labels[m].Advance? && run[m + 1].sessions[t].TakeDone?)
       && (labels[m].Advance? <==> t in run[m].sessions) && (t in run[m].sessions ==> !run[m].sessions[t].TakeDone?)
  }

  /** The act j was appended by step m, and is what the call of that step asked for. */
  ghost predicate ActFits(run: seq<State>, labels: seq<Label>, n: nat, j: nat, m: nat)
    requires m < n <= |labels| && |run| == |labels| + 1 && j < |run[n].log|
  {
    && |run[m].log| == j && |run[m + 1].log| == j + 1 && run[m + 1].log <= run[n].log
    && Finishes(run, labels, m, run[n].log[j])
    && Made(CallOf(run, labels, CallAt(run, labels, m)), run[n].log[j], run[m].clock)
  }

  lemma ActAtStep(run: seq<State>, labels: seq<Label>, n: nat, j: nat)
    requires IsRunFromEmpty(run, labels) && n <= |labels| && j < |run[n].log|
    ensures ActFits(run, labels, n, j, AppendedAt(run, j, n))
  {
    assert |run| == |labels| + 1 && run[0].log == [];
    hide *;
    ActOfStep(run, labels, n, j, AppendedAt(run, j, n));
  }

  lemma ActOfStep(run: seq<State>, labels: seq<Label>, n: nat, j: nat, m: nat)
    requires IsRunFromEmpty(run, labels) && m < n <= |labels| && |run[m].log| <= j < |run[m + 1].log|
    ensures |run| == |labels| + 1 && j < |run[n].log| && ActFits(run, labels, n, j, m)
  {
    hide StepAt, StepFits, CallsFit, Finishes, Made, CallAt;
    AlwaysFits(run, labels, m);
    StepActs(run, labels, m);
    RunGrows(run, labels, m + 1, n);
    assert run[n].log[j] == run[m + 1].log[j];
  }

  lemma StepActs(run: seq<State>, labels: seq<Label>, m: nat)
    requires m < |labels| && |run| == |labels| + 1 && StepFits(run, labels, m) && |run[m].log| < |run[m + 1].log|
    ensures |run[m + 1].log| == |run[m].log| + 1 && Finishes(run, labels, m, run[m + 1].log[|run[m].log|])
    ensures Made(CallOf(run, labels, CallAt(run, labels, m)), run[m + 1].log[|run[m].log|], run[m].clock)
  {
    hide Made, Replies, Carries, CallAt;
  }

  /** Every act was asked for: it does what the call of its step asked for. */
  lemma EveryActWasAskedFor(run: seq<State>, labels: seq<Label>, n: nat, j: nat)
    requires IsRunFromEmpty(run, labels) && n <= |labels| && j < |run[n].log|
    ensures var m := AppendedAt(run, j, n);
            var i := CallAt(run, labels, m);
            Made(CallOf(run, labels, i), run[n].log[j], run[m].clock)
  {
    ActAtStep(run, labels, n, j);
  }

  /** A Take that has committed waits for nothing but its answer. */
  lemma {:induction false} TakenStays(run: seq<State>, labels: seq<Label>, t: nat, m: nat, k: nat)
    requires IsRunFromEmpty(run, labels) && m <= k <= |labels|
    requires t in run[m].sessions && run[m].sessions[t].TakeDone?
    requires t in run[k].sessions && StartOf(run, t, k) < m
    ensures run[k].sessions[t].TakeDone?
    decreases k - m
  {
    hide StepAt, Made, Replies, Carries;
    if m < k {
      AtOneCall(run, t, k, k - 1);
      TakenStays(run, labels, t, m, k - 1);
      AlwaysFits(run, labels, k - 1);
      TakenStaysNow(run, labels, t, k - 1);
    }
  }

  lemma TakenStaysNow(run: seq<State>, labels: seq<Label>, t: nat, m: nat)
    requires m < |labels| && |run| == |labels| + 1 && StepFits(run, labels, m)
    requires t in run[m].sessions && run[m].sessions[t].TakeDone? && t in run[m + 1].sessions
    ensures run[m + 1].sessions[t].TakeDone?
  {
    hide Made, Replies;
    if !labels[m].Tick? && labels[m].client != t {
      assert Lookup(run[m + 1].sessions, t) == Lookup(run[m].sessions, t);
    }
  }

  /** Step m is the last that its call takes. */
  predicate EndsAt(run: seq<State>, labels: seq<Label>, m: nat)
    requires m < |labels| && |run| == |labels| + 1
  {
    !labels[m].Tick? && labels[m].client !in run[m + 1].sessions
  }

  /** The step m' is a later one of the call that step m belongs to. */
  lemma LaterStepOfCall(run: seq<State>, labels: seq<Label>, m: nat, m': nat)
    requires IsRunFromEmpty(run, labels) && m < m' < |labels| && !labels[m].Tick? && !labels[m'].Tick?
    requires CallAt(run, labels, m) == CallAt(run, labels, m')
    ensures labels[m].client == labels[m'].client && labels[m'].Advance?
    ensures var t := labels[m].client;
            && t in run[m'].sessions && StartOf(run, t, m') <= m
            && t in run[m + 1].sessions && (m == StartOf(run, t, m') || labels[m].Advance?)
  {
    hide StepAt;
    var t, i := labels[m'].client, CallAt(run, labels, m);
    StarterIs(run, labels, t, m');
    AtOneCall(run, t, m', m + 1);
    if i < m {
      StarterIs(run, labels, labels[m].client, m);
    }
  }

  /** The label that started a client's call is the client's. */
  lemma StarterIs(run: seq<State>, labels: seq<Label>, t: nat, n: nat)
    requires IsRunFromEmpty(run, labels) && n <= |labels| && t in run[n].sessions
    ensures StartOf(run, t, n) < n && CallFits(run, labels, t, n)
    ensures var l := labels[StartOf(run, t, n)]; !l.Tick? && !l.Advance? && l.client == t
  {
    hide StepAt, StepFits;
    AlwaysFits(run, labels, n);
    assert CallFits(run, labels, t, n);
  }

  /** No call makes two changes. */
  lemma NoCallChangesTwice(run: seq<State>, labels: seq<Label>, n: nat, j: nat, j': nat)
    requires IsRunFromEmpty(run, labels) && n <= |labels| && j < j' < |run[n].log|
    requires Changes(run[n].log[j])
    ensures CallAt(run, labels, AppendedAt(run, j, n)) != CallAt(run, labels, AppendedAt(run, j', n))
  {
    hide StepAt, Made, CallAt;
    var m, m' := AppendedAt(run, j, n), AppendedAt(run, j', n);
    ActAtStep(run, labels, n, j);
    ActAtStep(run, labels, n, j');
    if m' < m {
      RunGrows(run, labels, m' + 1, m);
    }
    if CallAt(run, labels, m) == CallAt(run, labels, m') {
      LaterStepOfCall(run, labels, m, m');
      TakenStays(run, labels, labels[m].client, m + 1, m');
    }
  }

  // ---------- answers ----------

  /** Every answer is one that its call may get, and unless it is an error of the database, an act of that call gave it. */
  lemma EveryAnswerIsTheCalls(run: seq<State>, labels: seq<Label>, n: nat, q: nat)
    requires IsRunFromEmpty(run, labels) && n <= |labels| && q < |run[n].answers|
    ensures var m, r := AnsweredAt(run, q, n), run[n].answers[q];
            var i := CallAt(run, labels, m);
            && Replies(CallOf(run, labels, i), r, run[m].clock)
            && (r.answer != UNAVAILABLE ==>
                  && r.at < |run[n].log| && Accounts(run[n].log[r.at], r.answer, r.now)
                  && CallAt(run, labels, AppendedAt(run, r.at, n)) == i)
  {
    hide StepAt, Replies, Inv, Once, CallAt, Accounts;
    var m, r := AnsweredAt(run, q, n), run[n].answers[q];
    AnswerAtStep(run, labels, n, q);
    if r.answer != UNAVAILABLE {
      AnswerJustified(run, labels, m + 1, q);
      RunGrows(run, labels, m + 1, n);
      ReplyIsOwn(run, labels, n, m, q);
    }
  }

  /** The answer q was given by step m, the last of its call, and is one that this call may get. */
  ghost predicate AnswerFits(run: seq<State>, labels: seq<Label>, n: nat, q: nat, m: nat)
    requires m < n <= |labels| && |run| == |labels| + 1 && q < |run[n].answers|
  {
    && |run[m].answers| == q && |run[m + 1].answers| == q + 1 && run[m + 1].answers <= run[n].answers
    && EndsAt(run, labels, m)
    && Replies(CallOf(run, labels, CallAt(run, labels, m)), run[n].answers[q], run[m].clock)
  }

  lemma AnswerAtStep(run: seq<State>, labels: seq<Label>, n: nat, q: nat)
    requires IsRunFromEmpty(run, labels) && n <= |labels| && q < |run[n].answers|
    ensures AnswerFits(run, labels, n, q, AnsweredAt(run, q, n))
  {
    assert |run| == |labels| + 1 && run[0].answers == [];
    hide *;
    AnswerOfStep(run, labels, n, q, AnsweredAt(run, q, n));
  }

  lemma AnswerOfStep(run: seq<State>, labels: seq<Label>, n: nat, q: nat, m: nat)
    requires IsRunFromEmpty(run, labels) && m < n <= |labels| && |run[m].answers| <= q < |run[m + 1].answers|
    ensures |run| == |labels| + 1 && q < |run[n].answers| && AnswerFits(run, labels, n, q, m)
  {
    hide StepAt, StepFits, CallsFit, EndsAt, Replies, CallAt;
    AlwaysFits(run, labels, m);
    StepAnswers(run, labels, m);
    RunGrows(run, labels, m + 1, n);
    assert run[n].answers[q] == run[m + 1].answers[q];
  }

  lemma StepAnswers(run: seq<State>, labels: seq<Label>, m: nat)
    requires m < |labels| && |run| == |labels| + 1 && StepFits(run, labels, m) && |run[m].answers| < |run[m + 1].answers|
    ensures |run[m + 1].answers| == |run[m].answers| + 1 && EndsAt(run, labels, m)
    ensures Replies(CallOf(run, labels, CallAt(run, labels, m)), run[m + 1].answers[|run[m].answers|], run[m].clock)
  {
    hide Made, Replies, Carries, CallAt;
  }

  lemma AnswerJustified(run: seq<State>, labels: seq<Label>, n: nat, q: nat)
    requires IsRunFromEmpty(run, labels) && n <= |labels|
    requires q < |run[n].answers| && run[n].answers[q].answer != UNAVAILABLE
    ensures Justified(run[n].log, run[n].answers[q])
  {
    AlwaysInv(run, labels, n);
  }

  lemma ReplyIsOwn(run: seq<State>, labels: seq<Label>, n: nat, m: nat, q: nat)
    requires IsRunFromEmpty(run, labels) && m < n <= |labels| && q < |run[m + 1].answers| && run[m + 1].log <= run[n].log
    requires var r := run[m + 1].answers[q];
             && r.answer != UNAVAILABLE && !labels[m].Tick? && r.at < |run[m + 1].log| && run[m + 1].log[r.at].actor == r.actor
             && Replies(CallOf(run, labels, CallAt(run, labels, m)), r, run[m].clock)
    ensures CallAt(run, labels, AppendedAt(run, run[m + 1].answers[q].at, n)) == CallAt(run, labels, m)
  {
    hide StepAt, Made;
    var r, i := run[m + 1].answers[q], CallAt(run, labels, m);
    var k := AppendedAt(run, r.at, n);
    ActAtStep(run, labels, n, r.at);
    if k > m {
      RunGrows(run, labels, m + 1, k);
    } else if k < i {
      RunGrows(run, labels, k + 1, i);
    } else if i < m {
      hide Replies;
      var t := labels[m].client;
      StarterIs(run, labels, t, m);
      ActOfCall(run, labels, t, m, r.at, n);
    }
  }

  /** An act of a client, made while the client is at one call, is an act of that call. */
  lemma ActOfCall(run: seq<State>, labels: seq<Label>, t: nat, m: nat, j: nat, n: nat)
    requires IsRunFromEmpty(run, labels) && m < n <= |labels| && t in run[m].sessions
    requires j < |run[n].log| && StartOf(run, t, m) <= AppendedAt(run, j, n) <= m && run[n].log[j].actor == t
    ensures CallAt(run, labels, AppendedAt(run, j, n)) == StartOf(run, t, m)
  {
    hide StepAt, Carries;
    var k := AppendedAt(run, j, n);
    ActAtStep(run, labels, n, j);
    if labels[k].Advance? && labels[k].client in run[k].sessions {
      StarterIs(run, labels, labels[k].client, k);
    }
    if StartOf(run, t, m) < k {
      AtOneCall(run, t, m, k);
    }
  }

  /** The call has been answered by the answer q. */
  predicate AnswersCall(run: seq<State>, labels: seq<Label>, n: nat, q: nat, i: nat)
    requires n <= |labels| && |run| == |labels| + 1 && run[0].answers == []
  {
    q < |run[n].answers| && CallAt(run, labels, AnsweredAt(run, q, n)) == i
  }

  /** The label starts a call. */
  predicate Begins(run: seq<State>, labels: seq<Label>, i: nat)
    requires i < |labels| && |run| == |labels| + 1
  {
    !labels[i].Tick? && !labels[i].Advance? && run[i + 1] != run[i]
  }

  predicate GoingOn(run: seq<State>, labels: seq<Label>, n: nat, i: nat)
    requires i < n <= |labels| && |run| == |labels| + 1
  {
    !labels[i].Tick? && labels[i].client in run[n].sessions && StartOf(run, labels[i].client, n) == i
  }

  /** Every call that has begun is going on, or it has been answered. */
  lemma {:induction false} EveryCallIsAnswered(run: seq<State>, labels: seq<Label>, n: nat, i: nat)
    requires IsRunFromEmpty(run, labels) && i < n <= |labels| && Begins(run, labels, i)
    ensures GoingOn(run, labels, n, i) || exists q: nat :: AnswersCall(run, labels, n, q, i)
  {
    hide StepAt, Made, Replies, Carries;
    AlwaysFits(run, labels, n - 1);
    if i == n - 1 {
      assert GoingOn(run, labels, n, i) || AnswersCall(run, labels, n, |run[n - 1].answers|, i);
    } else {
      EveryCallIsAnswered(run, labels, n - 1, i);
      if GoingOn(run, labels, n - 1, i) {
        GoesOn(run, labels, n - 1, i);
      } else {
        var q: nat :| AnswersCall(run, labels, n - 1, q, i);
        assert AnswersCall(run, labels, n, q, i);
      }
    }
  }

  lemma GoesOn(run: seq<State>, labels: seq<Label>, n: nat, i: nat)
    requires IsRunFromEmpty(run, labels) && i < n < |labels| && GoingOn(run, labels, n, i) && StepFits(run, labels, n)
    ensures GoingOn(run, labels, n + 1, i) || AnswersCall(run, labels, n + 1, |run[n].answers|, i)
  {
    hide StepAt, Made, Replies, Carries;
    if labels[n].Tick? || labels[n].client != labels[i].client {
      assert Lookup(run[n + 1].sessions, labels[i].client) == Lookup(run[n].sessions, labels[i].client);
    }
  }

  /** No call is answered twice. */
  lemma NoCallIsAnsweredTwice(run: seq<State>, labels: seq<Label>, n: nat, q: nat, q': nat)
    requires IsRunFromEmpty(run, labels) && n <= |labels| && q < q' < |run[n].answers|
    ensures CallAt(run, labels, AnsweredAt(run, q, n)) != CallAt(run, labels, AnsweredAt(run, q', n))
  {
    hide StepAt, Replies, CallAt;
    var m, m' := AnsweredAt(run, q, n), AnsweredAt(run, q', n);
    AnswerAtStep(run, labels, n, q);
    AnswerAtStep(run, labels, n, q');
    if m' < m {
      RunGrows(run, labels, m' + 1, m);
    }
    if CallAt(run, labels, m) == CallAt(run, labels, m') {
      LaterStepOfCall(run, labels, m, m');
    }
  }

  // ---------- errors of the database ----------

  predicate Faulty(l: Label) {
    !l.Tick? && !l.StartSet? && l.fault
  }

  /** The client has found the key absent and goes on to insert it. */
  predicate Blind(x: Session) {
    (x.SetCleared? && !x.gone) || ((x.IncRead? || x.IncTimed?) && x.found.None?)
  }

  lemma AdvanceRefusedBy(s: State, t: nat, fault: bool)
    requires t in s.sessions && Refused(s, AdvanceStep(s, t, s.sessions[t], fault))
    ensures fault || (Blind(s.sessions[t]) && s.sessions[t].key in s.table)
  {
    var x := s.sessions[t];
    if !fault {
      if Setting(x) {
        SetRefusedBy(s, t, x);
      } else if Taking(x) {
        TakeRefusedBy(s, t, x);
      } else if Counting(x) && !x.IncWritten? {
        IncRefusedBy(s, t, x);
      }
    }
  }

  lemma SetRefusedBy(s: State, t: nat, x: Session)
    requires Setting(x) && Refused(s, SetStep(s, t, x, false))
    ensures Blind(x) && x.key in s.table
  {
  }

  lemma TakeRefusedBy(s: State, t: nat, x: Session)
    requires Taking(x)
    ensures !Refused(s, TakeStep(s, t, x, false))
  {
  }

  lemma IncRefusedBy(s: State, t: nat, x: Session)
    requires (x.IncOpen? || x.IncRead? || x.IncTimed? || x.IncSwept?) && Refused(s, IncStep(s, t, x, false))
    ensures Blind(x) && x.key in s.table
  {
  }

  lemma StepRefusedBy(s: State, l: Label)
    requires Refused(s, Step(s, l))
    ensures Faulty(l) || (l.Advance? && l.client in s.sessions && Blind(s.sessions[l.client]) && s.sessions[l.client].key in s.table)
  {
    hide AdvanceStep;
    if l.Advance? {
      AdvanceRefusedBy(s, l.client, l.fault);
    }
  }

  /** A client that goes on blindly has just found the key absent, or went on blindly before. */
  lemma BlindStep(s: State, t: nat, fault: bool)
    requires t in s.sessions
    requires var s' := AdvanceStep(s, t, s.sessions[t], fault); t in s'.sessions && Blind(s'.sessions[t])
    ensures AdvanceStep(s, t, s.sessions[t], fault).sessions[t].key == s.sessions[t].key
    ensures Blind(s.sessions[t]) || s.sessions[t].key !in s.table
  {
    AdvanceLocal(s, t, fault);
    var x := s.sessions[t];
    if Setting(x) {
      SetBlind(s, t, x, fault);
    } else if Counting(x) && !x.IncWritten? {
      IncBlind(s, t, x, fault);
    }
  }

  lemma SetBlind(s: State, t: nat, x: Session, fault: bool)
    requires t in s.sessions && s.sessions[t] == x && Setting(x)
    ensures var s' := SetStep(s, t, x, fault); t in s'.sessions && Blind(s'.sessions[t]) ==> Blind(x) || x.key !in s.table
  {
  }

  lemma IncBlind(s: State, t: nat, x: Session, fault: bool)
    requires t in s.sessions && s.sessions[t] == x && (x.IncOpen? || x.IncRead? || x.IncTimed? || x.IncSwept?)
    ensures var s' := IncStep(s, t, x, fault); t in s'.sessions && Blind(s'.sessions[t]) ==> Blind(x) || x.key !in s.table
  {
  }

  /** At step k, after the call i began, the key was absent. */
  predicate AbsentAt(run: seq<State>, k: Bytes, i: nat, at: nat, n: nat) {
    i < at < n < |run| && k !in run[at].table
  }

  lemma {:induction false} BlindSawNothing(run: seq<State>, labels: seq<Label>, t: nat, n: nat)
    requires IsRunFromEmpty(run, labels) && n <= |labels| && t in run[n].sessions && Blind(run[n].sessions[t])
    ensures exists at: nat :: AbsentAt(run, run[n].sessions[t].key, StartOf(run, t, n), at, n)
  {
    hide AdvanceStep, ReadStep;
    assert StepAt(run, labels, n - 1);
    var s, l := run[n - 1], labels[n - 1];
    if t in s.sessions && (l.Tick? || l.client != t || run[n] == s) {
      OthersStay(run, labels, t, n - 1);
      BlindSawNothing(run, labels, t, n - 1);
      var at: nat :| AbsentAt(run, s.sessions[t].key, StartOf(run, t, n - 1), at, n - 1);
      assert AbsentAt(run, s.sessions[t].key, StartOf(run, t, n), at, n);
    } else if t in s.sessions {
      BlindStep(s, t, l.fault);
      if Blind(s.sessions[t]) {
        BlindSawNothing(run, labels, t, n - 1);
        var at: nat :| AbsentAt(run, s.sessions[t].key, StartOf(run, t, n - 1), at, n - 1);
        assert AbsentAt(run, s.sessions[t].key, StartOf(run, t, n), at, n);
      } else {
        StarterIs(run, labels, t, n - 1);
        assert AbsentAt(run, s.sessions[t].key, StartOf(run, t, n), n - 1, n);
      }
    } else {
      StarterIs(run, labels, t, n);
      NotBlindAtFirst(run, labels, t, n - 1);
    }
  }

  lemma OthersStay(run: seq<State>, labels: seq<Label>, t: nat, m: nat)
    requires IsRunFromEmpty(run, labels) && m < |labels| && t in run[m].sessions
    requires labels[m].Tick? || labels[m].client != t || run[m + 1] == run[m]
    ensures t in run[m + 1].sessions && run[m + 1].sessions[t] == run[m].sessions[t]
  {
    hide StepAt, Made, Replies, Carries;
    AlwaysFits(run, labels, m);
    assert Lookup(run[m + 1].sessions, t) == Lookup(run[m].sessions, t);
  }

  lemma NotBlindAtFirst(run: seq<State>, labels: seq<Label>, t: nat, m: nat)
    requires IsRunFromEmpty(run, labels) && m < |labels| && t !in run[m].sessions && t in run[m + 1].sessions
    ensures !Blind(run[m + 1].sessions[t])
  {
    hide AdvanceStep;
    assert StepAt(run, labels, m);
    StartShape(run[m], labels[m], t);
  }

  lemma StartShape(s: State, l: Label, t: nat)
    requires t !in s.sessions && t in Step(s, l).sessions
    ensures !Blind(Step(s, l).sessions[t])
  {
    if l.Advance? && l.client in s.sessions {
      AdvanceLocal(s, l.client, l.fault);
    }
  }

  /** The call found the key absent, and now that it inserts the key somebody else has. */
  ghost predicate Clashes(run: seq<State>, labels: seq<Label>, m: nat)
    requires m < |labels| && |run| == |labels| + 1
  {
    && labels[m].Advance? && labels[m].client in run[m].sessions
    && var k := run[m].sessions[labels[m].client].key;
       k in run[m].table && exists at: nat :: AbsentAt(run, k, CallAt(run, labels, m), at, m)
  }

  /**
   * An error of the database has a cause: the statement of that step failed, or the call inserts a key that it had
   * found absent and that has been committed since.
   */
  lemma ErrorsHaveCauses(run: seq<State>, labels: seq<Label>, n: nat, q: nat)
    requires IsRunFromEmpty(run, labels) && n <= |labels| && q < |run[n].answers|
    requires run[n].answers[q].answer == UNAVAILABLE
    ensures var m := AnsweredAt(run, q, n); Faulty(labels[m]) || Clashes(run, labels, m)
  {
    hide Step, Replies;
    var m := AnsweredAt(run, q, n);
    AnswerAtStep(run, labels, n, q);
    assert StepAt(run, labels, m);
    StepRefusedBy(run[m], labels[m]);
    if !Faulty(labels[m]) {
      BlindSawNothing(run, labels, labels[m].client, m);
    }
  }

  // ---------- waiting ----------

  /** The next statement of the client has to wait. */
  predicate Waits(s: State, t: nat)
    requires t in s.sessions
  {
    var x := s.sessions[t];
    !x.TakeDone? && !x.Judging? && (!Ready(s, t) || !Free(s, t, x.key))
  }

  /** How many statements and readings the call still needs at most. */
  function StepsLeft(x: Session): nat {
    match x
    case SetStamped(_, _, _, _) => 4
    case SetOpen(_, _, _, _) => 3
    case SetCleared(_, _, _, _, _) => 2
    case SetWritten(_, _, _, _) => 1
    case TakeOpen(_) => 4
    case TakeRead(_, _) => 3
    case TakeCleared(_, _) => 2
    case TakeDone(_, _, _) => 1
    case IncOpen(_, _, _) => 5
    case IncRead(_, _, _, _) => 4
    case IncTimed(_, _, _, _, _) => 3
    case IncSwept(_, _, _, _, _) => 2
    case IncWritten(_, _, _, _, _, _, _) => 1
    case Judging(_, _, _, _) => 2
    case Sweeping(_, _, _, _) => 1
  }

  /** The client's step brings its call nearer to its end, or ends it. */
  predicate Advances(s: State, s': State, t: nat)
    requires t in s.sessions
  {
    t in s'.sessions ==> StepsLeft(s'.sessions[t]) < StepsLeft(s.sessions[t])
  }

  /** A client that need not wait gets on with its call. */
  lemma StepsAdvance(s: State, t: nat, fault: bool)
    requires t in s.sessions && !Waits(s, t)
    ensures Advances(s, AdvanceStep(s, t, s.sessions[t], fault), t)
  {
    hide Ready, Free, SetStep, TakeStep, IncStep;
    var x := s.sessions[t];
    if Setting(x) {
      SetAdvances(s, t, x, fault);
    } else if Taking(x) {
      TakeAdvances(s, t, x, fault);
    } else if Counting(x) && !x.IncWritten? {
      IncAdvances(s, t, x, fault);
    }
  }

  lemma SetAdvances(s: State, t: nat, x: Session, fault: bool)
    requires t in s.sessions && s.sessions[t] == x && Setting(x)
    ensures Advances(s, SetStep(s, t, x, fault), t)
  {
  }

  lemma TakeAdvances(s: State, t: nat, x: Session, fault: bool)
    requires t in s.sessions && s.sessions[t] == x && Taking(x)
    ensures Advances(s, TakeStep(s, t, x, fault), t)
  {
  }

  lemma IncAdvances(s: State, t: nat, x: Session, fault: bool)
    requires t in s.sessions && s.sessions[t] == x && (x.IncOpen? || x.IncRead? || x.IncTimed? || x.IncSwept?)
    ensures Advances(s, IncStep(s, t, x, fault), t)
  {
  }

  /** The client u is in a transaction that keeps others off the key, and need not wait itself. */
  predicate KeepsOff(s: State, u: nat, k: Bytes) {
    u in s.sessions && InTx(s.sessions[u]) && (s.sqlite || s.sessions[u].key == k) && !Waits(s, u)
  }

  /**
   * No deadlock: in every reachable state a client waits for the transaction of another client, on SQLite the only
   * one, on MySQL one on the same key, and that one does not wait.
   */
  lemma NoCircleOfWaiting(run: seq<State>, labels: seq<Label>, n: nat, t: nat)
    requires IsRunFromEmpty(run, labels) && n <= |labels| && t in run[n].sessions && Waits(run[n], t)
    ensures exists u: nat :: u != t && KeepsOff(run[n], u, run[n].sessions[t].key)
  {
    AlwaysInv(run, labels, n);
    WaitsForOne(run[n], t);
  }

  lemma WaitsForOne(s: State, t: nat)
    requires Inv(s) && t in s.sessions && Waits(s, t)
    ensures exists u: nat :: u != t && KeepsOff(s, u, s.sessions[t].key)
  {
    hide JournalFits, AnswersFit, RowsNear, Fits;
    Barred(s, t, s.sessions[t].key);
  }

  lemma Barred(s: State, t: nat, k: Bytes)
    requires LocksFit(s) && OneConnection(s) && (!Ready(s, t) || !Free(s, t, k))
    ensures exists u: nat :: u != t && KeepsOff(s, u, k)
  {
    var u: nat :| u in s.sessions && u != t && InTx(s.sessions[u]) && (s.sqlite || (k in s.locks && s.locks[k] == u));
    assert KeepsOff(s, u, k);
  }

  /** A call begins at once, unless such a client keeps it off. */
  lemma CallsBegin(run: seq<State>, labels: seq<Label>, n: nat)
    requires IsRunFromEmpty(run, labels) && n < |labels|
    requires !labels[n].Tick? && !labels[n].Advance? && labels[n].client !in run[n].sessions
    ensures Begins(run, labels, n) || exists u: nat :: u != labels[n].client && KeepsOff(run[n], u, labels[n].key)
  {
    AlwaysInv(run, labels, n);
    assert StepAt(run, labels, n);
    if run[n + 1] == run[n] {
      BeginsOrBarred(run[n], labels[n]);
    }
  }

  lemma BeginsOrBarred(s: State, l: Label)
    requires Inv(s) && !l.Tick? && !l.Advance? && l.client !in s.sessions && Step(s, l) == s
    ensures exists u: nat :: u != l.client && KeepsOff(s, u, l.key)
  {
    hide JournalFits, AnswersFit, RowsNear, Fits, KeepsOff, LocksFit, OneConnection, Step, Ready, Free;
    if Ready(s, l.client) && Free(s, l.client, l.key) {
      BeginsWhenFree(s, l);
    } else {
      Barred(s, l.client, l.key);
    }
  }

  lemma BeginsWhenFree(s: State, l: Label)
    requires !l.Tick? && !l.Advance? && l.client !in s.sessions && Ready(s, l.client) && Free(s, l.client, l.key)
    ensures Step(s, l) != s
  {
    hide Ready, Free, AbsFound;
    var s' := Step(s, l);
    assert l.client in s'.sessions || |s'.answers| > |s.answers|;
  }
}
