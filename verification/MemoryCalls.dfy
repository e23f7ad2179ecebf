/**
 * What the memory store owes its callers, over every interleaving: each change is what one caller asked for, with the
 * deadline that belongs to that caller's clock reading, and no call makes two; each call that ends is answered once, by its
 * own act.
 */
module MemoryCalls {
  import opened Basics
  import opened TtlMap
  import opened Journal
  import opened MemoryLocks

  // ---------- calls ----------

  /** What a caller asked for, with the clock and the length of the journal at that moment. */
  datatype Call = Call(request: Label, clock: int, logged: nat)

  /** The label begins a call; the other labels of a goroutine go on with one. */
  predicate Asks(l: Label) {
    l.Look? || l.Stamp? || l.TakeNow? || l.IncrementNow? || l.DeleteNow?
  }

  /** What the goroutine carries between two critical sections is what its caller asked for. */
  predicate Carries(c: Call, x: Task, t: nat) {
    match c.request
    case Stamp(task, k, value, ttl) =>
      && task == t && x.Storing? && x.key == k
      && x.entry == Entry(value, if ttl > 0 then Some(c.clock + ttl) else None)
    case Look(task, kind, k) => task == t && !x.Storing? && x.key == k && x.kind == kind && x.at >= c.logged
    case _ => false
  }

  /** The act does for the caller what it asked for; `clock` is the time of its critical section. */
  predicate Made(c: Call, a: Act, clock: int) {
    && Asks(c.request) && a.actor == c.request.task && a.key == c.request.key
    && match a
       case Put(_, _, stored) =>
         && c.request.Stamp?
         && stored.entry == Entry(c.request.value, if c.request.ttl > 0 then Some(c.clock + c.request.ttl) else None)
       case Added(_, _, delta, bump, now, _, _) =>
         && c.request.IncrementNow? && delta == c.request.delta && now == c.clock == clock
         && bump == if c.request.ttl > 0 then Some(Some(now + c.request.ttl)) else None
       case Took(_, _, _) => c.request.TakeNow?
       case Dropped(_, _) => c.request.DeleteNow?
       case Looked(_, _, found) => c.request.Look? || (c.request.IncrementNow? && found.Some?)
       case Forgot(_, _, _, lookedAt, now) => c.request.Look? && c.logged <= lookedAt && now == clock
  }

  /** The answer is one that such a call may get, given between its start and now. */
  predicate Replies(c: Call, r: Return, clock: int) {
    && Asks(c.request) && r.actor == c.request.task && r.key == c.request.key
    && c.clock <= r.now <= clock && r.at >= c.logged
    && match c.request
       case Stamp(_, _, _, _) => r.answer == Done
       case TakeNow(_, _) => r.answer.Value? || r.answer == Fail(Miss)
       case IncrementNow(_, _, _, _) => r.answer.Count? || (r.answer.Fail? && r.answer.error.BadCounter?)
       case Look(_, kind, _) =>
         (match kind
          case GetKind => r.answer.Value? || r.answer == Fail(Miss)
          case ExistsKind => r.answer.Found?
          case TtlKind => r.answer.Remaining? || r.answer == Fail(Miss))
       case DeleteNow(_, _) => r.answer == Done
       case _ => false
  }

  // ---------- one step ----------

  /** What a step of the goroutine does for its call: at most one act, and an answer exactly if it is the last step. */
  ghost predicate Goes(c: Call, s: State, s': State, t: nat) {
    && s.log <= s'.log && |s'.log| <= |s.log| + 1 && s.answers <= s'.answers
    && |s'.answers| == |s.answers| + (if t in s'.tasks then 0 else 1)
    && (|s'.log| > |s.log| ==>
          Made(c, s'.log[|s.log|], s.clock) && (Changes(s'.log[|s.log|]) ==> t !in s'.tasks))
    && (if t in s'.tasks then Carries(c, s'.tasks[t], t) else Replies(c, s'.answers[|s.answers|], s.clock))
    && s'.clock == s.clock && forall u :: u != t ==> Lookup(s'.tasks, u) == Lookup(s.tasks, u)
  }

  /** A goroutine goes on with its call, or the label does not fit what it is at. */
  lemma FollowGoes(c: Call, s: State, l: Label)
    requires !l.Tick? && !Asks(l) && l.task in s.tasks && Carries(c, s.tasks[l.task], l.task)
    requires c.clock <= s.clock && c.logged <= |s.log|
    ensures Goes(c, s, Step(s, l), l.task)
  {
    hide Alive;
  }

  lemma AskGoes(s: State, l: Label)
    requires Asks(l) && l.task !in s.tasks
    ensures Goes(Call(l, s.clock, |s.log|), s, Step(s, l), l.task)
  {
    hide Alive, IncrementStep;
    if l.IncrementNow? {
      IncrementGoes(s, l);
    }
  }

  lemma IncrementGoes(s: State, l: Label)
    requires l.IncrementNow? && l.task !in s.tasks
    ensures Goes(Call(l, s.clock, |s.log|), s, IncrementStep(s, l.task, l.key, l.delta, l.ttl), l.task)
  {
  }

  // ---------- runs ----------

  /** The label that started what the goroutine is at before step n: the last one that found it with no task. */
  function StartOf(run: seq<State>, t: nat, n: nat): (i: nat)
    requires n < |run|
    ensures i <= n
  {
    if n == 0 then 0 else if t in run[n - 1].tasks then StartOf(run, t, n - 1) else n - 1
  }

  /** The call that step m belongs to, by the number of the label that started it. */
  function CallAt(run: seq<State>, labels: seq<Label>, m: nat): (i: nat)
    requires m < |labels| && |run| == |labels| + 1
    ensures i <= m
  {
    if !labels[m].Tick? && labels[m].task in run[m].tasks then StartOf(run, labels[m].task, m) else m
  }

  function CallOf(run: seq<State>, labels: seq<Label>, i: nat): Call
    requires i < |labels| && |run| == |labels| + 1
  {
    Call(labels[i], run[i].clock, |run[i].log|)
  }

  /** The step that appended an act, or gave an answer. */
  function AppendedAt(run: seq<State>, j: nat, n: nat): (m: nat)
    requires n < |run| && |run[0].log| <= j < |run[n].log|
    ensures m < n && |run[m].log| <= j < |run[m + 1].log|
  {
    if |run[n - 1].log| <= j then n - 1 else AppendedAt(run, j, n - 1)
  }

  function AnsweredAt(run: seq<State>, q: nat, n: nat): (m: nat)
    requires n < |run| && |run[0].answers| <= q < |run[n].answers|
    ensures m < n && |run[m].answers| <= q < |run[m + 1].answers|
  {
    if |run[n - 1].answers| <= q then n - 1 else AnsweredAt(run, q, n - 1)
  }

  /** Before step n the goroutine is at what an earlier label of its own asked for. */
  predicate CallFits(run: seq<State>, labels: seq<Label>, t: nat, n: nat)
    requires n <= |labels| && |run| == |labels| + 1
  {
    && StartOf(run, t, n) < n && t in run[n].tasks
    && var i := StartOf(run, t, n);
       && Asks(labels[i]) && labels[i].task == t && t !in run[i].tasks
       && run[i].clock <= run[n].clock && |run[i].log| <= |run[n].log|
       && Carries(CallOf(run, labels, i), run[n].tasks[t], t)
  }

  ghost predicate CallsFit(run: seq<State>, labels: seq<Label>, n: nat)
    requires n <= |labels| && |run| == |labels| + 1
  {
    forall t :: t in run[n].tasks ==> CallFits(run, labels, t, n)
  }

  /** What any step does, to its call. */
  ghost predicate StepFits(run: seq<State>, labels: seq<Label>, m: nat)
    requires m < |labels| && |run| == |labels| + 1
  {
    var s, s', l := run[m], run[m + 1], labels[m];
    || s' == s
    || (l.Tick? && s' == s.(clock := s'.clock) && s.clock <= s'.clock)
    || (!l.Tick? && Goes(CallOf(run, labels, CallAt(run, labels, m)), s, s', l.task) && (Asks(l) <==> l.task !in s.tasks))
  }

  lemma StepFitsNow(run: seq<State>, labels: seq<Label>, m: nat)
    requires IsRun(run, labels) && m < |labels| && CallsFit(run, labels, m)
    ensures StepFits(run, labels, m)
  {
    hide LookStep, JudgeStep, TakeStep, IncrementStep, Goes, Carries;
    assert StepAt(run, labels, m);
    var s, l := run[m], labels[m];
    if !l.Tick? {
      if Asks(l) {
        if l.task !in s.tasks {
          AskGoes(s, l);
        }
      } else if l.task in s.tasks {
        assert CallFits(run, labels, l.task, m);
        FollowGoes(CallOf(run, labels, StartOf(run, l.task, m)), s, l);
      }
    }
  }

  lemma CallsStillFit(run: seq<State>, labels: seq<Label>, n: nat)
    requires n < |labels| && |run| == |labels| + 1 && CallsFit(run, labels, n) && StepFits(run, labels, n)
    ensures CallsFit(run, labels, n + 1)
  {
    hide Made, Replies, Carries;
    var later: nat := n + 1;
    forall t | t in run[later].tasks
      ensures CallFits(run, labels, t, later)
    {
      if labels[n].Tick? || labels[n].task != t {
        assert Lookup(run[n + 1].tasks, t) == Lookup(run[n].tasks, t);
      }
      if t in run[n].tasks {
        assert CallFits(run, labels, t, n);
      }
    }
  }

  lemma {:induction false} AlwaysFits(run: seq<State>, labels: seq<Label>, n: nat)
    requires IsRunFromEmpty(run, labels) && n <= |labels|
    ensures CallsFit(run, labels, n) && (n < |labels| ==> StepFits(run, labels, n))
  {
    hide StepFits, StepAt;
    if n > 0 {
      hide CallsFit;
      AlwaysFits(run, labels, n - 1);
      CallsStillFit(run, labels, n - 1);
    }
    if n < |labels| {
      StepFitsNow(run, labels, n);
    }
  }

  /** Journal, answers and clock only grow. */
  lemma {:induction false} RunGrows(run: seq<State>, labels: seq<Label>, m: nat, n: nat)
    requires IsRunFromEmpty(run, labels) && m <= n <= |labels|
    ensures run[m].log <= run[n].log && run[m].answers <= run[n].answers && run[m].clock <= run[n].clock
    decreases n - m
  {
    hide StepAt, Made, Replies, Carries;
    if m < n {
      AlwaysFits(run, labels, n - 1);
      RunGrows(run, labels, m, n - 1);
    }
  }

  /** As long as the goroutine is at one call, it has a task. */
  lemma {:induction false} AtOneCall(run: seq<State>, t: nat, n: nat, k: nat)
    requires n < |run| && t in run[n].tasks && StartOf(run, t, n) < k <= n
    ensures t in run[k].tasks && StartOf(run, t, k) == StartOf(run, t, n)
  {
    if k < n {
      AtOneCall(run, t, n - 1, k);
    }
  }

  /** The label that started a goroutine's call is the goroutine's. */
  lemma StarterIs(run: seq<State>, labels: seq<Label>, t: nat, n: nat)
    requires IsRunFromEmpty(run, labels) && n <= |labels| && t in run[n].tasks
    ensures StartOf(run, t, n) < n && CallFits(run, labels, t, n)
    ensures var l := labels[StartOf(run, t, n)]; Asks(l) && l.task == t
  {
    hide StepAt, StepFits;
    AlwaysFits(run, labels, n);
    assert CallFits(run, labels, t, n);
  }

  /** The step m' is a later one of the call that step m belongs to. */
  lemma LaterStepOfCall(run: seq<State>, labels: seq<Label>, m: nat, m': nat)
    requires IsRunFromEmpty(run, labels) && m < m' < |labels| && !labels[m].Tick? && !labels[m'].Tick?
    requires CallAt(run, labels, m) == CallAt(run, labels, m')
    ensures labels[m].task == labels[m'].task && labels[m].task in run[m + 1].tasks
  {
    hide StepAt;
    var t, i := labels[m'].task, CallAt(run, labels, m);
    StarterIs(run, labels, t, m');
    AtOneCall(run, t, m', m + 1);
    if i < m {
      StarterIs(run, labels, labels[m].task, m);
    }
  }

  // ---------- acts ----------

  /** A goroutine that makes a change is done; a label that begins a call finds none. */
  ghost predicate Finishes(run: seq<State>, labels: seq<Label>, m: nat, a: Act)
    requires m < |labels| && |run| == |labels| + 1
  {
    && !labels[m].Tick? && (Asks(labels[m]) <==> labels[m].task !in run[m].tasks)
    && (Changes(a) ==> labels[m].task !in run[m + 1].tasks)
  }

  /** The act j was appended by step m, and is what the call of that step asked for. */
  ghost predicate ActFits(run: seq<State>, labels: seq<Label>, n: nat, j: nat, m: nat)
    requires m < n <= |labels| && |run| == |labels| + 1 && j < |run[n].log|
  {
    && |run[m].log| == j && |run[m + 1].log| == j + 1 && run[m + 1].log <= run[n].log
    && Finishes(run, labels, m, run[n].log[j])
    && Made(CallOf(run, labels, CallAt(run, labels, m)), run[n].log[j], run[m].clock)
  }

  lemma ActAtStep(run: seq<State>, labels: seq<Label>, n: nat, j: nat)
    requires IsRunFromEmpty(run, labels) && n <= |labels| && j < |run[n].log|
    ensures ActFits(run, labels, n, j, AppendedAt(run, j, n))
  {
    assert |run| == |labels| + 1 && run[0].log == [];
    hide *;
    ActOfStep(run, labels, n, j, AppendedAt(run, j, n));
  }

  lemma ActOfStep(run: seq<State>, labels: seq<Label>, n: nat, j: nat, m: nat)
    requires IsRunFromEmpty(run, labels) && m < n <= |labels| && |run[m].log| <= j < |run[m + 1].log|
    ensures |run| == |labels| + 1 && j < |run[n].log| && ActFits(run, labels, n, j, m)
  {
    hide StepAt, StepFits, CallsFit, Finishes, Made, CallAt;
    AlwaysFits(run, labels, m);
    StepActs(run, labels, m);
    RunGrows(run, labels, m + 1, n);
    assert run[n].log[j] == run[m + 1].log[j];
  }

  lemma StepActs(run: seq<State>, labels: seq<Label>, m: nat)
    requires m < |labels| && |run| == |labels| + 1 && StepFits(run, labels, m) && |run[m].log| < |run[m + 1].log|
    ensures |run[m + 1].log| == |run[m].log| + 1 && Finishes(run, labels, m, run[m + 1].log[|run[m].log|])
    ensures Made(CallOf(run, labels, CallAt(run, labels, m)), run[m + 1].log[|run[m].log|], run[m].clock)
  {
    hide Made, Replies, Carries, CallAt;
  }

  /** Every act was asked for: it does what the call of its step asked for. */
  lemma EveryActWasAskedFor(run: seq<State>, labels: seq<Label>, n: nat, j: nat)
    requires IsRunFromEmpty(run, labels) && n <= |labels| && j < |run[n].log|
    ensures var m := AppendedAt(run, j, n);
            var i := CallAt(run, labels, m);
            Made(CallOf(run, labels, i), run[n].log[j], run[m].clock)
  {
    ActAtStep(run, labels, n, j);
  }

  /** No call makes two changes. */
  lemma NoCallChangesTwice(run: seq<State>, labels: seq<Label>, n: nat, j: nat, j': nat)
    requires IsRunFromEmpty(run, labels) && n <= |labels| && j < j' < |run[n].log|
    requires Changes(run[n].log[j])
    ensures CallAt(run, labels, AppendedAt(run, j, n)) != CallAt(run, labels, AppendedAt(run, j', n))
  {
    hide StepAt, Made, CallAt;
    var m, m' := AppendedAt(run, j, n), AppendedAt(run, j', n);
    ActAtStep(run, labels, n, j);
    ActAtStep(run, labels, n, j');
    if m' < m {
      RunGrows(run, labels, m' + 1, m);
    }
    if CallAt(run, labels, m) == CallAt(run, labels, m') {
      LaterStepOfCall(run, labels, m, m');
    }
  }

  // ---------- answers ----------

  /** Step m is the last that its call takes. */
  predicate EndsAt(run: seq<State>, labels: seq<Label>, m: nat)
    requires m < |labels| && |run| == |labels| + 1
  {
    !labels[m].Tick? && labels[m].task !in run[m + 1].tasks
  }

  /** The answer q was given by step m, the last of its call, and is one that this call may get. */
  ghost predicate AnswerFits(run: seq<State>, labels: seq<Label>, n: nat, q: nat, m: nat)
    requires m < n <= |labels| && |run| == |labels| + 1 && q < |run[n].answers|
  {
    && |run[m].answers| == q && |run[m + 1].answers| == q + 1 && run[m + 1].answers <= run[n].answers
    && EndsAt(run, labels, m)
    && Replies(CallOf(run, labels, CallAt(run, labels, m)), run[n].answers[q], run[m].clock)
  }

  lemma AnswerAtStep(run: seq<State>, labels: seq<Label>, n: nat, q: nat)
    requires IsRunFromEmpty(run, labels) && n <= |labels| && q < |run[n].answers|
    ensures AnswerFits(run, labels, n, q, AnsweredAt(run, q, n))
  {
    assert |run| == |labels| + 1 && run[0].answers == [];
    hide *;
    AnswerOfStep(run, labels, n, q, AnsweredAt(run, q, n));
  }

  lemma AnswerOfStep(run: seq<State>, labels: seq<Label>, n: nat, q: nat, m: nat)
    requires IsRunFromEmpty(run, labels) && m < n <= |labels| && |run[m].answers| <= q < |run[m + 1].answers|
    ensures |run| == |labels| + 1 && q < |run[n].answers| && AnswerFits(run, labels, n, q, m)
  {
    hide StepAt, StepFits, CallsFit, EndsAt, Replies, CallAt;
    AlwaysFits(run, labels, m);
    StepAnswers(run, labels, m);
    RunGrows(run, labels, m + 1, n);
    assert run[n].answers[q] == run[m + 1].answers[q];
  }

  lemma StepAnswers(run: seq<State>, labels: seq<Label>, m: nat)
    requires m < |labels| && |run| == |labels| + 1 && StepFits(run, labels, m) && |run[m].answers| < |run[m + 1].answers|
    ensures |run[m + 1].answers| == |run[m].answers| + 1 && EndsAt(run, labels, m)
    ensures Replies(CallOf(run, labels, CallAt(run, labels, m)), run[m + 1].answers[|run[m].answers|], run[m].clock)
  {
    hide Made, Replies, Carries, CallAt;
  }

  /** Every answer is one that its call may get, and an act of that very call gave it. */
  lemma EveryAnswerIsTheCalls(run: seq<State>, labels: seq<Label>, n: nat, q: nat)
    requires IsRunFromEmpty(run, labels) && n <= |labels| && q < |run[n].answers|
    ensures var m, r := AnsweredAt(run, q, n), run[n].answers[q];
            var i := CallAt(run, labels, m);
            && Replies(CallOf(run, labels, i), r, run[m].clock)
            && r.at < |run[n].log| && Accounts(run[n].log[r.at], r.answer, r.now)
            && CallAt(run, labels, AppendedAt(run, r.at, n)) == i
  {
    hide StepAt, Replies, Inv, Once, CallAt, Accounts;
    var m, r := AnsweredAt(run, q, n), run[n].answers[q];
    AnswerAtStep(run, labels, n, q);
    AnswerJustified(run, labels, m + 1, q);
    RunGrows(run, labels, m + 1, n);
    ReplyIsOwn(run, labels, n, m, q);
  }

  lemma AnswerJustified(run: seq<State>, labels: seq<Label>, n: nat, q: nat)
    requires IsRunFromEmpty(run, labels) && n <= |labels| && q < |run[n].answers|
    ensures Justified(run[n].log, run[n].answers[q])
  {
    AlwaysInv(run, labels, n);
  }

  lemma ReplyIsOwn(run: seq<State>, labels: seq<Label>, n: nat, m: nat, q: nat)
    requires IsRunFromEmpty(run, labels) && m < n <= |labels| && q < |run[m + 1].answers| && run[m + 1].log <= run[n].log
    requires var r := run[m + 1].answers[q];
             && !labels[m].Tick? && r.at < |run[m + 1].log| && run[m + 1].log[r.at].actor == r.actor
             && Replies(CallOf(run, labels, CallAt(run, labels, m)), r, run[m].clock)
    ensures CallAt(run, labels, AppendedAt(run, run[m + 1].answers[q].at, n)) == CallAt(run, labels, m)
  {
    hide StepAt, Made;
    var r, i := run[m + 1].answers[q], CallAt(run, labels, m);
    var k := AppendedAt(run, r.at, n);
    ActAtStep(run, labels, n, r.at);
    if k > m {
      RunGrows(run, labels, m + 1, k);
    } else if k < i {
      RunGrows(run, labels, k + 1, i);
    } else if i < m {
      hide Replies;
      var t := labels[m].task;
      StarterIs(run, labels, t, m);
      ActOfCall(run, labels, t, m, r.at, n);
    }
  }

  /** An act of a goroutine, made while it is at one call, is an act of that call. */
  lemma ActOfCall(run: seq<State>, labels: seq<Label>, t: nat, m: nat, j: nat, n: nat)
    requires IsRunFromEmpty(run, labels) && m < n <= |labels| && t in run[m].tasks
    requires j < |run[n].log| && StartOf(run, t, m) <= AppendedAt(run, j, n) <= m && run[n].log[j].actor == t
    ensures CallAt(run, labels, AppendedAt(run, j, n)) == StartOf(run, t, m)
  {
    hide StepAt, Carries;
    var k := AppendedAt(run, j, n);
    ActAtStep(run, labels, n, j);
    if labels[k].task in run[k].tasks {
      StarterIs(run, labels, labels[k].task, k);
    }
    if StartOf(run, t, m) < k {
      AtOneCall(run, t, m, k);
    }
  }

  /** The call has been answered by the answer q. */
  predicate AnswersCall(run: seq<State>, labels: seq<Label>, n: nat, q: nat, i: nat)
    requires n <= |labels| && |run| == |labels| + 1 && run[0].answers == []
  {
    q < |run[n].answers| && CallAt(run, labels, AnsweredAt(run, q, n)) == i
  }

  /** The label finds the goroutine free, and so starts a call. */
  predicate Begins(run: seq<State>, labels: seq<Label>, i: nat)
    requires i < |labels| && |run| == |labels| + 1
  {
    Asks(labels[i]) && labels[i].task !in run[i].tasks
  }

  predicate GoingOn(run: seq<State>, labels: seq<Label>, n: nat, i: nat)
    requires i < n <= |labels| && |run| == |labels| + 1
  {
    !labels[i].Tick? && labels[i].task in run[n].tasks && StartOf(run, labels[i].task, n) == i
  }

  /** Every call that has begun is going on, or it has been answered. */
  lemma {:induction false} EveryCallIsAnswered(run: seq<State>, labels: seq<Label>, n: nat, i: nat)
    requires IsRunFromEmpty(run, labels) && i < n <= |labels| && Begins(run, labels, i)
    ensures GoingOn(run, labels, n, i) || exists q: nat :: AnswersCall(run, labels, n, q, i)
  {
    hide StepAt, Made, Replies, Carries;
    if i == n - 1 {
      CallBegins(run, labels, i);
    } else {
      EveryCallIsAnswered(run, labels, n - 1, i);
      if GoingOn(run, labels, n - 1, i) {
        GoesOn(run, labels, n - 1, i);
      } else {
        AlwaysFits(run, labels, n - 1);
        var q: nat :| AnswersCall(run, labels, n - 1, q, i);
        assert AnswersCall(run, labels, n, q, i);
      }
    }
  }

  lemma CallBegins(run: seq<State>, labels: seq<Label>, i: nat)
    requires IsRunFromEmpty(run, labels) && i < |labels| && Begins(run, labels, i)
    ensures GoingOn(run, labels, i + 1, i) || AnswersCall(run, labels, i + 1, |run[i].answers|, i)
  {
    hide LookStep, TakeStep, IncrementStep, Made, Replies, Carries;
    assert StepAt(run, labels, i);
    AskGoes(run[i], labels[i]);
  }

  lemma GoesOn(run: seq<State>, labels: seq<Label>, n: nat, i: nat)
    requires IsRunFromEmpty(run, labels) && i < n < |labels| && GoingOn(run, labels, n, i)
    ensures GoingOn(run, labels, n + 1, i) || AnswersCall(run, labels, n + 1, |run[n].answers|, i)
  {
    hide StepAt, Made, Replies, Carries;
    AlwaysFits(run, labels, n);
    if labels[n].Tick? || labels[n].task != labels[i].task {
      assert Lookup(run[n + 1].tasks, labels[i].task) == Lookup(run[n].tasks, labels[i].task);
    }
  }

  /** No call is answered twice. */
  lemma NoCallIsAnsweredTwice(run: seq<State>, labels: seq<Label>, n: nat, q: nat, q': nat)
    requires IsRunFromEmpty(run, labels) && n <= |labels| && q < q' < |run[n].answers|
    ensures CallAt(run, labels, AnsweredAt(run, q, n)) != CallAt(run, labels, AnsweredAt(run, q', n))
  {
    hide StepAt, Replies, CallAt;
    var m, m' := AnsweredAt(run, q, n), AnsweredAt(run, q', n);
    AnswerAtStep(run, labels, n, q);
    AnswerAtStep(run, labels, n, q');
    if m' < m {
      RunGrows(run, labels, m' + 1, m);
    }
    if CallAt(run, labels, m) == CallAt(run, labels, m') {
      LaterStepOfCall(run, labels, m, m');
    }
  }

  // ---------- progress ----------

  /** The critical section, or the judgement, that the goroutine comes to next. */
  function NextOf(x: Task, t: nat): Label {
    match x
    case Judging(_, _, _, _) => Judge(t)
    case Deleting(_, _, _, _) => LateDelete(t)
    case Storing(_, _) => Store(t)
  }

  /** A goroutine in the middle of a call is done after its next step, or after the one behind that. */
  lemma EveryCallEnds(s: State, t: nat)
    requires t in s.tasks
    ensures var s' := Step(s, NextOf(s.tasks[t], t));
            t in s'.tasks ==> s.tasks[t].Judging? && s'.tasks[t].Deleting?
  {
    hide Alive;
  }
}
