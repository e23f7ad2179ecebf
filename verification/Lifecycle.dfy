/**
 * Starting and stopping an application: the container that collects components with a life cycle, and the
 * runner that starts them, serves, and takes everything down again whatever fails.
 */
module Lifecycle {
  import opened Basics

  /**
   * A registered component, or a nil one. An absent `start`, `stop` or `close` means that the component has
   * no such method; a present one says whether the call succeeds.
   */
  datatype Component = Nil | Component(start: Option<bool>, stop: Option<bool>, waits: bool, close: Option<bool>)

  /** The calls made, in order; numbers are positions in the lists of backgrounds and closers. */
  datatype Event =
    | Started(i: nat, ok: bool)
    | Served(ok: bool)
    | ShutDown(ok: bool)
    | Stopped(i: nat, ok: bool)
    | Waited(i: nat)
    | Closed(i: nat, ok: bool)

  predicate Failed(e: Event) {
    !e.Waited? && !e.ok
  }

  function Failures(trace: seq<Event>): seq<Event> {
    if trace == [] then []
    else Failures(trace[..|trace| - 1]) + if Failed(trace[|trace| - 1]) then [trace[|trace| - 1]] else []
  }

  /** How serving ends: by a signal, by itself, or with an error. */
  datatype Serving = Signalled | Ended(ok: bool)

  // ---------- the runner ----------

  /** A started component and its position among the backgrounds. */
  datatype Numbered = Numbered(i: nat, component: Component)

  /** stopBackgrounds, with the joined errors as a list. */
  method StopBackgrounds(services: seq<Numbered>) returns (trace: seq<Event>, errors: seq<Event>)
    ensures trace == StopsOf(services) && errors == Failures(trace)
  {
    trace, errors := [], [];
    var i := |services|;
    assert services[..i] == services;
    while i > 0
      invariant 0 <= i <= |services|
      invariant StopsOf(services) == trace + StopsOf(services[..i])
      invariant errors == Failures(trace)
    {
      i := i - 1;
      var stops, failed := StopService(services[i]);
      FailuresConcat(trace, stops);
      StopsStep(trace, services, i);
      trace, errors := trace + stops, errors + failed;
    }
  }

  lemma StopsStep(trace: seq<Event>, services: seq<Numbered>, i: nat)
    requires i < |services|
    ensures trace + StopsOf(services[..i + 1]) == (trace + StopOne(services[i])) + StopsOf(services[..i])
  {
    assert services[..i + 1][..i] == services[..i];
  }

  /** The body of its loop: a nil service is skipped, others are stopped and waited for if they can be. */
  method StopService(s: Numbered) returns (trace: seq<Event>, errors: seq<Event>)
    ensures trace == StopOne(s) && errors == Failures(trace)
  {
    trace, errors := [], [];
    var service := s.component;
    if service.Nil? {
      return;
    }
    if service.stop.Some? {
      trace := [Stopped(s.i, service.stop.value)];
      if !service.stop.value {
        errors := [Stopped(s.i, false)];
      }
      FailuresSnoc([], Stopped(s.i, service.stop.value));
      assert [] + [Stopped(s.i, service.stop.value)] == [Stopped(s.i, service.stop.value)];
    }
    if service.waits {
      FailuresSnoc(trace, Waited(s.i));
      trace := trace + [Waited(s.i)];
    }
  }

  lemma FailuresSnoc(trace: seq<Event>, e: Event)
    ensures Failures(trace + [e]) == Failures(trace) + if Failed(e) then [e] else []
  {
    assert (trace + [e])[..|trace|] == trace;
  }

  lemma {:induction false} FailuresConcat(a: seq<Event>, b: seq<Event>)
    ensures Failures(a + b) == Failures(a) + Failures(b)
  {
    if b == [] {
      assert a + b == a;
    } else {
      FailuresConcat(a, b[..|b| - 1]);
      assert (a + b)[..|a + b| - 1] == a + b[..|b| - 1];
    }
  }

  function StopOne(s: Numbered): seq<Event> {
    if s.component.Nil? then []
    else if s.component.stop.None? then (if s.component.waits then [Waited(s.i)] else [])
    else if s.component.waits then [Stopped(s.i, s.component.stop.value), Waited(s.i)]
    else [Stopped(s.i, s.component.stop.value)]
  }

  function StopsOf(services: seq<Numbered>): seq<Event> {
    if services == [] then [] else StopOne(services[|services| - 1]) + StopsOf(services[..|services| - 1])
  }

  /** The same over the first n backgrounds, nil ones included. */
  function StopsUpTo(backgrounds: seq<Component>, n: nat): seq<Event>
    requires n <= |backgrounds|
  {
    if n == 0 then [] else StopOne(Numbered(n - 1, backgrounds[n - 1])) + StopsUpTo(backgrounds, n - 1)
  }

  lemma StopsGrow(started: seq<Numbered>, backgrounds: seq<Component>, i: nat)
    requires i < |backgrounds| && StopsOf(started) == StopsUpTo(backgrounds, i)
    ensures StopsUpTo(backgrounds, i + 1)
            == StopsOf(if backgrounds[i].Nil? then started else started + [Numbered(i, backgrounds[i])])
  {
    assert (started + [Numbered(i, backgrounds[i])])[..|started|] == started;
  }

  /** closeResources; the list holds closers and nils. */
  method CloseResources(closers: seq<Component>) returns (trace: seq<Event>, errors: seq<Event>)
    requires AllClosers(closers)
    ensures trace == ClosesOf(closers) && errors == Failures(trace)
  {
    trace, errors := [], [];
    var i := |closers|;
    while i > 0
      invariant 0 <= i <= |closers|
      invariant ClosesOf(closers) == trace + ClosesUpTo(closers, i)
      invariant errors == Failures(trace)
    {
      i := i - 1;
      ClosesStep(trace, closers, i);
      if closers[i].Nil? {
        continue;
      }
      FailuresSnoc(trace, Closed(i, closers[i].close.value));
      trace := trace + [Closed(i, closers[i].close.value)];
      if !closers[i].close.value {
        errors := errors + [Closed(i, false)];
      }
    }
  }

  predicate AllClosers(closers: seq<Component>) {
    forall i :: 0 <= i < |closers| ==> closers[i].Nil? || closers[i].close.Some?
  }

  function CloseOne(i: nat, closer: Component): seq<Event>
    requires closer.Nil? || closer.close.Some?
  {
    if closer.Nil? then [] else [Closed(i, closer.close.value)]
  }

  /** The first n closers, the last of them first. */
  function ClosesUpTo(closers: seq<Component>, n: nat): seq<Event>
    requires AllClosers(closers) && n <= |closers|
  {
    if n == 0 then [] else CloseOne(n - 1, closers[n - 1]) + ClosesUpTo(closers, n - 1)
  }

  lemma ClosesStep(trace: seq<Event>, closers: seq<Component>, i: nat)
    requires AllClosers(closers) && i < |closers|
    ensures trace + ClosesUpTo(closers, i + 1)
            == (if closers[i].Nil? then trace else trace + [Closed(i, closers[i].close.value)]) + ClosesUpTo(closers, i)
  {
  }

  function ClosesOf(closers: seq<Component>): seq<Event>
    requires AllClosers(closers)
  {
    ClosesUpTo(closers, |closers|)
  }

  /** The startup loop: it ends with the first service that does not start. */
  method StartAll(backgrounds: seq<Component>) returns (trace: seq<Event>, started: seq<Numbered>, failed: Option<Event>)
    ensures StopsOf(started) == StopsUpTo(backgrounds, FirstFailure(backgrounds))
    ensures if StartupFails(backgrounds)
            then failed == Some(Started(FirstFailure(backgrounds), false)) && trace == StartsOf(backgrounds, FirstFailure(backgrounds) + 1)
            else failed == None && trace == StartsOf(backgrounds, |backgrounds|)
  {
    trace, started := [], [];
    for i := 0 to |backgrounds|
      invariant Starting(backgrounds, i, trace, started)
    {
      var service := backgrounds[i];
      StartingStep(backgrounds, i, trace, started);
      if service.Nil? {
        continue;
      }
      if service.start.Some? {
        trace := trace + [Started(i, service.start.value)];
        if !service.start.value {
          return trace, started, Some(Started(i, false));
        }
      }
      started := started + [Numbered(i, service)];
    }
    failed := None;
  }

  /** The first i backgrounds have been started, as far as they can be, without a failure. */
  ghost predicate Starting(backgrounds: seq<Component>, i: nat, trace: seq<Event>, started: seq<Numbered>) {
    && i <= |backgrounds| && i <= FirstFailure(backgrounds)
    && StopsOf(started) == StopsUpTo(backgrounds, i) && trace == StartsOf(backgrounds, i)
  }

  lemma StartingStep(backgrounds: seq<Component>, i: nat, trace: seq<Event>, started: seq<Numbered>)
    requires i < |backgrounds| && Starting(backgrounds, i, trace, started)
    ensures var c, more := backgrounds[i], started + [Numbered(i, backgrounds[i])];
            if c.Nil? then Starting(backgrounds, i + 1, trace, started)
            else if c.start.None? then Starting(backgrounds, i + 1, trace, more)
            else if c.start.value then Starting(backgrounds, i + 1, trace + [Started(i, true)], more)
            else FirstFailure(backgrounds) == i && trace + [Started(i, false)] == StartsOf(backgrounds, i + 1)
  {
    StopsGrow(started, backgrounds, i);
    StartsGrow(backgrounds, i);
  }

  /** Serving until a signal or the server's own end, and the shutdown. */
  method Serve(serving: Serving, shutdown: bool) returns (trace: seq<Event>, errors: seq<Event>)
    ensures trace == ServingOf(serving, shutdown) && errors == Failures(trace)
  {
    trace, errors := [], [];
    if serving.Ended? {
      FailuresSnoc(trace, Served(serving.ok));
      trace := trace + [Served(serving.ok)];
      if !serving.ok {
        errors := errors + [Served(false)];
      }
    }
    FailuresSnoc(trace, ShutDown(shutdown));
    trace := trace + [ShutDown(shutdown)];
    if !shutdown {
      errors := errors + [ShutDown(false)];
    }
  }

  function ServingOf(serving: Serving, shutdown: bool): seq<Event> {
    (if serving.Ended? then [Served(serving.ok)] else []) + [ShutDown(shutdown)]
  }

  /** Taking everything down: what was started, then the closers. */
  method TakeDown(started: seq<Numbered>, closers: seq<Component>) returns (trace: seq<Event>, errors: seq<Event>)
    requires AllClosers(closers)
    ensures trace == StopsOf(started) + ClosesOf(closers) && errors == Failures(trace)
  {
    var stops, stopErrors := StopBackgrounds(started);
    var closes, closeErrors := CloseResources(closers);
    FailuresConcat(stops, closes);
    trace, errors := stops + closes, stopErrors + closeErrors;
  }

  /** RunHTTP with a server: the calls it makes and the errors it returns joined. */
  method RunHTTP(backgrounds: seq<Component>, closers: seq<Component>, serving: Serving, shutdown: bool)
      returns (trace: seq<Event>, errors: seq<Event>)
    requires AllClosers(closers)
    ensures trace == TraceOf(backgrounds, closers, serving, shutdown)
    ensures errors == if StartupFails(backgrounds) then [Started(FirstFailure(backgrounds), false)] else Failures(trace)
  {
    hide Failures, StopsOf, StopsUpTo, StartsOf, ClosesUpTo, FirstFailure;
    var starts, started, failed := StartAll(backgrounds);
    if failed.Some? {
      var down, ignored := TakeDown(started, closers);
      return starts + down, [failed.value];
    }
    var served, serveErrors := Serve(serving, shutdown);
    var down, downErrors := TakeDown(started, closers);
    StartsSucceed(backgrounds, |backgrounds|);
    FailuresConcat(starts, served);
    FailuresConcat(starts + served, down);
    assert [] + serveErrors == serveErrors;
    trace, errors := starts + served + down, serveErrors + downErrors;
  }

  // ---------- its trace ----------

  predicate StartFails(c: Component) {
    c.Component? && c.start == Some(false)
  }

  /** The first background that does not start, or their number. */
  function FirstFailure(backgrounds: seq<Component>): (n: nat)
    ensures n <= |backgrounds| && (n < |backgrounds| ==> StartFails(backgrounds[n]))
    ensures forall i :: 0 <= i < n ==> !StartFails(backgrounds[i])
  {
    FailureFrom(backgrounds, 0)
  }

  function FailureFrom(backgrounds: seq<Component>, from: nat): (n: nat)
    requires from <= |backgrounds|
    ensures from <= n <= |backgrounds| && (n < |backgrounds| ==> StartFails(backgrounds[n]))
    ensures forall i :: from <= i < n ==> !StartFails(backgrounds[i])
    decreases |backgrounds| - from
  {
    if from == |backgrounds| || StartFails(backgrounds[from]) then from else FailureFrom(backgrounds, from + 1)
  }

  predicate StartupFails(backgrounds: seq<Component>) {
    FirstFailure(backgrounds) < |backgrounds|
  }

  function StartsOf(backgrounds: seq<Component>, n: nat): seq<Event>
    requires n <= |backgrounds|
  {
    if n == 0 then []
    else
      var c := backgrounds[n - 1];
      StartsOf(backgrounds, n - 1) + if c.Component? && c.start.Some? then [Started(n - 1, c.start.value)] else []
  }

  /** What the next background adds to the starts, and what it says about the first failure. */
  lemma StartsGrow(backgrounds: seq<Component>, i: nat)
    requires i < |backgrounds| && i <= FirstFailure(backgrounds)
    ensures var c := backgrounds[i];
            && (FirstFailure(backgrounds) == i <==> StartFails(c))
            && StartsOf(backgrounds, i + 1)
               == if c.Component? && c.start.Some? then StartsOf(backgrounds, i) + [Started(i, c.start.value)] else StartsOf(backgrounds, i)
  {
    assert FirstFailure(backgrounds) > i ==> !StartFails(backgrounds[i]);
  }

  lemma {:induction false} StartsSucceed(backgrounds: seq<Component>, n: nat)
    requires n <= FirstFailure(backgrounds)
    ensures Failures(StartsOf(backgrounds, n)) == []
  {
    if n > 0 {
      StartsSucceed(backgrounds, n - 1);
      var c := backgrounds[n - 1];
      assert !StartFails(c);
      assert StartsOf(backgrounds, n - 1) + [] == StartsOf(backgrounds, n - 1);
      if c.Component? && c.start.Some? {
        FailuresSnoc(StartsOf(backgrounds, n - 1), Started(n - 1, c.start.value));
      }
    }
  }

  /** Up to the shutdown of the server. */
  function HeadOf(backgrounds: seq<Component>, serving: Serving, shutdown: bool): seq<Event> {
    var f := FirstFailure(backgrounds);
    if f < |backgrounds| then StartsOf(backgrounds, f + 1)
    else StartsOf(backgrounds, f) + ServingOf(serving, shutdown)
  }

  function TraceOf(backgrounds: seq<Component>, closers: seq<Component>, serving: Serving, shutdown: bool): seq<Event>
    requires AllClosers(closers)
  {
    HeadOf(backgrounds, serving, shutdown) + TailOf(backgrounds, closers)
  }

  // ---------- what the trace is ----------

  /** The calls that must be made: every one that is possible, short of what startup never reached. */
  predicate Due(backgrounds: seq<Component>, closers: seq<Component>, serving: Serving, shutdown: bool, e: Event)
    requires AllClosers(closers)
  {
    var f := FirstFailure(backgrounds);
    match e
    case Started(i, ok) => i <= f && i < |backgrounds| && backgrounds[i].Component? && backgrounds[i].start == Some(ok)
    case Served(ok) => f == |backgrounds| && serving == Ended(ok)
    case ShutDown(ok) => f == |backgrounds| && shutdown == ok
    case Stopped(i, ok) => i < f && backgrounds[i].Component? && backgrounds[i].stop == Some(ok)
    case Waited(i) => i < f && backgrounds[i].Component? && backgrounds[i].waits
    case Closed(i, ok) => i < |closers| && closers[i].Component? && closers[i].close == Some(ok)
  }

  function Phase(e: Event): nat {
    match e
    case Started(_, _) => 0
    case Served(_) => 1
    case ShutDown(_) => 2
    case Stopped(_, _) => 3
    case Waited(_) => 3
    case Closed(_, _) => 4
  }

  /** Starts go up, stops and closes go down, and a component is stopped before it is waited for. */
  predicate Before(a: Event, b: Event) {
    Phase(a) < Phase(b) ||
    (Phase(a) == Phase(b) &&
     match a
     case Started(i, _) => b.Started? && i < b.i
     case Stopped(i, _) => (b.Stopped? && i > b.i) || (b.Waited? && i >= b.i)
     case Waited(i) => (b.Stopped? || b.Waited?) && i > b.i
     case Closed(i, _) => b.Closed? && i > b.i
     case _ => false)
  }

  predicate InOrder(trace: seq<Event>) {
    forall p, q :: 0 <= p < q < |trace| ==> Before(trace[p], trace[q])
  }

  lemma OrderedConcat(a: seq<Event>, b: seq<Event>)
    requires InOrder(a) && InOrder(b)
    requires forall p, q :: 0 <= p < |a| && 0 <= q < |b| ==> Before(a[p], b[q])
    ensures InOrder(a + b)
  {
  }

  /** Calls of an earlier phase come before calls of a later one. */
  lemma PhasesConcat(a: seq<Event>, b: seq<Event>, border: nat)
    requires InOrder(a) && InOrder(b)
    requires forall p :: 0 <= p < |a| ==> Phase(a[p]) < border
    requires forall q :: 0 <= q < |b| ==> border <= Phase(b[q])
    ensures InOrder(a + b)
  {
    OrderedConcat(a, b);
  }

  lemma {:induction false} StartsAre(backgrounds: seq<Component>, n: nat, e: Event)
    requires n <= |backgrounds|
    ensures e in StartsOf(backgrounds, n) <==>
              e.Started? && e.i < n && backgrounds[e.i].Component? && backgrounds[e.i].start == Some(e.ok)
  {
    if n > 0 {
      StartsAre(backgrounds, n - 1, e);
    }
  }

  lemma {:induction false} StartsInOrder(backgrounds: seq<Component>, n: nat)
    requires n <= |backgrounds|
    ensures InOrder(StartsOf(backgrounds, n))
  {
    if n > 0 {
      var front, c := StartsOf(backgrounds, n - 1), backgrounds[n - 1];
      StartsInOrder(backgrounds, n - 1);
      if c.Component? && c.start.Some? {
        var one := [Started(n - 1, c.start.value)];
        forall p, q | 0 <= p < |front| && 0 <= q < |one|
          ensures Before(front[p], one[q])
        {
          assert front[p] in front;
          StartsAre(backgrounds, n - 1, front[p]);
        }
        OrderedConcat(front, one);
      }
    }
  }

  predicate Stops(backgrounds: seq<Component>, n: nat, e: Event)
    requires n <= |backgrounds|
  {
    match e
    case Stopped(i, ok) => i < n && backgrounds[i].Component? && backgrounds[i].stop == Some(ok)
    case Waited(i) => i < n && backgrounds[i].Component? && backgrounds[i].waits
    case _ => false
  }

  lemma StopOneIs(s: Numbered, e: Event)
    ensures InOrder(StopOne(s))
    ensures e in StopOne(s) <==>
              && (e.Stopped? || e.Waited?) && e.i == s.i && s.component.Component?
              && (if e.Stopped? then s.component.stop == Some(e.ok) else s.component.waits)
  {
  }

  lemma InConcat(a: seq<Event>, b: seq<Event>, e: Event)
    ensures e in a + b <==> e in a || e in b
  {
  }

  lemma {:induction false} StopsAre(backgrounds: seq<Component>, n: nat, e: Event)
    requires n <= |backgrounds|
    ensures e in StopsUpTo(backgrounds, n) <==> Stops(backgrounds, n, e)
  {
    if n > 0 {
      var one := StopOne(Numbered(n - 1, backgrounds[n - 1]));
      StopsAre(backgrounds, n - 1, e);
      StopOneIs(Numbered(n - 1, backgrounds[n - 1]), e);
      InConcat(one, StopsUpTo(backgrounds, n - 1), e);
    }
  }

  lemma {:induction false} StopsInOrder(backgrounds: seq<Component>, n: nat)
    requires n <= |backgrounds|
    ensures InOrder(StopsUpTo(backgrounds, n))
  {
    if n > 0 {
      var s, rest := Numbered(n - 1, backgrounds[n - 1]), StopsUpTo(backgrounds, n - 1);
      StopsInOrder(backgrounds, n - 1);
      StopOneIs(s, Waited(0));
      forall p, q | 0 <= p < |StopOne(s)| && 0 <= q < |rest|
        ensures Before(StopOne(s)[p], rest[q])
      {
        assert StopOne(s)[p] in StopOne(s) && rest[q] in rest;
        StopOneIs(s, StopOne(s)[p]);
        StopsAre(backgrounds, n - 1, rest[q]);
      }
      OrderedConcat(StopOne(s), rest);
    }
  }

  lemma {:induction false} ClosesAre(closers: seq<Component>, n: nat, e: Event)
    requires AllClosers(closers) && n <= |closers|
    ensures e in ClosesUpTo(closers, n) <==>
              e.Closed? && e.i < n && closers[e.i].Component? && closers[e.i].close == Some(e.ok)
  {
    if n > 0 {
      ClosesAre(closers, n - 1, e);
      InConcat(CloseOne(n - 1, closers[n - 1]), ClosesUpTo(closers, n - 1), e);
    }
  }

  lemma {:induction false} ClosesInOrder(closers: seq<Component>, n: nat)
    requires AllClosers(closers) && n <= |closers|
    ensures InOrder(ClosesUpTo(closers, n))
  {
    if n > 0 {
      var one, rest := CloseOne(n - 1, closers[n - 1]), ClosesUpTo(closers, n - 1);
      ClosesInOrder(closers, n - 1);
      forall p, q | 0 <= p < |one| && 0 <= q < |rest|
        ensures Before(one[p], rest[q])
      {
        assert rest[q] in rest;
        ClosesAre(closers, n - 1, rest[q]);
      }
      OrderedConcat(one, rest);
    }
  }

  lemma HeadIs(backgrounds: seq<Component>, serving: Serving, shutdown: bool, e: Event)
    ensures e in HeadOf(backgrounds, serving, shutdown) <==> Phase(e) < 3 && Due(backgrounds, [], serving, shutdown, e)
  {
    var f := FirstFailure(backgrounds);
    StartsAre(backgrounds, if f < |backgrounds| then f + 1 else f, e);
  }

  lemma HeadInOrder(backgrounds: seq<Component>, serving: Serving, shutdown: bool)
    ensures InOrder(HeadOf(backgrounds, serving, shutdown))
  {
    var f := FirstFailure(backgrounds);
    StartsInOrder(backgrounds, if f < |backgrounds| then f + 1 else f);
    var starts := StartsOf(backgrounds, f);
    forall p | 0 <= p < |starts|
      ensures Phase(starts[p]) < 1
    {
      assert starts[p] in starts;
      StartsAre(backgrounds, f, starts[p]);
    }
    if f == |backgrounds| {
      PhasesConcat(starts, ServingOf(serving, shutdown), 1);
    }
  }

  function TailOf(backgrounds: seq<Component>, closers: seq<Component>): seq<Event>
    requires AllClosers(closers)
  {
    StopsUpTo(backgrounds, FirstFailure(backgrounds)) + ClosesOf(closers)
  }

  lemma TailIs(backgrounds: seq<Component>, closers: seq<Component>, serving: Serving, shutdown: bool, e: Event)
    requires AllClosers(closers)
    ensures e in TailOf(backgrounds, closers) <==> Phase(e) >= 3 && Due(backgrounds, closers, serving, shutdown, e)
  {
    StopsAre(backgrounds, FirstFailure(backgrounds), e);
    ClosesAre(closers, |closers|, e);
  }

  lemma TailInOrder(backgrounds: seq<Component>, closers: seq<Component>)
    requires AllClosers(closers)
    ensures InOrder(TailOf(backgrounds, closers))
  {
    var f := FirstFailure(backgrounds);
    var stops, closes := StopsUpTo(backgrounds, f), ClosesOf(closers);
    StopsInOrder(backgrounds, f);
    ClosesInOrder(closers, |closers|);
    forall p | 0 <= p < |stops|
      ensures Phase(stops[p]) < 4
    {
      assert stops[p] in stops;
      StopsAre(backgrounds, f, stops[p]);
    }
    forall q | 0 <= q < |closes|
      ensures 4 <= Phase(closes[q])
    {
      assert closes[q] in closes;
      ClosesAre(closers, |closers|, closes[q]);
    }
    PhasesConcat(stops, closes, 4);
  }

  /** Whatever fails, exactly the calls that are due are made. */
  lemma ExactlyDueCalls(backgrounds: seq<Component>, closers: seq<Component>, serving: Serving, shutdown: bool, e: Event)
    requires AllClosers(closers)
    ensures e in TraceOf(backgrounds, closers, serving, shutdown) <==> Due(backgrounds, closers, serving, shutdown, e)
  {
    HeadIs(backgrounds, serving, shutdown, e);
    TailIs(backgrounds, closers, serving, shutdown, e);
  }

  /**
   * Each of them is made once, in this order: starts going up, the end of serving, the shutdown, stops and
   * waits going down, closes going down.
   */
  lemma CallsInOrder(backgrounds: seq<Component>, closers: seq<Component>, serving: Serving, shutdown: bool)
    requires AllClosers(closers)
    ensures var trace := TraceOf(backgrounds, closers, serving, shutdown);
            InOrder(trace) && forall p, q :: 0 <= p < q < |trace| ==> trace[p] != trace[q]
  {
    var head, tail := HeadOf(backgrounds, serving, shutdown), TailOf(backgrounds, closers);
    HeadInOrder(backgrounds, serving, shutdown);
    TailInOrder(backgrounds, closers);
    forall p | 0 <= p < |head|
      ensures Phase(head[p]) < 3
    {
      assert head[p] in head;
      HeadIs(backgrounds, serving, shutdown, head[p]);
    }
    forall q | 0 <= q < |tail|
      ensures 3 <= Phase(tail[q])
    {
      assert tail[q] in tail;
      TailIs(backgrounds, closers, serving, shutdown, tail[q]);
    }
    PhasesConcat(head, tail, 3);
  }

  lemma {:induction false} FailuresAre(trace: seq<Event>, e: Event)
    ensures e in Failures(trace) <==> e in trace && Failed(e)
  {
    if trace != [] {
      FailuresAre(trace[..|trace| - 1], e);
    }
  }

  /** Past startup the result is an error exactly if some due call failed. */
  lemma ErrorIffSomethingFailed(backgrounds: seq<Component>, closers: seq<Component>, serving: Serving, shutdown: bool)
    requires AllClosers(closers) && !StartupFails(backgrounds)
    ensures Failures(TraceOf(backgrounds, closers, serving, shutdown)) != []
       <==> exists e :: Due(backgrounds, closers, serving, shutdown, e) && Failed(e)
  {
    var trace := TraceOf(backgrounds, closers, serving, shutdown);
    if Failures(trace) != [] {
      var e := Failures(trace)[0];
      FailuresAre(trace, e);
      ExactlyDueCalls(backgrounds, closers, serving, shutdown, e);
    }
    if e :| Due(backgrounds, closers, serving, shutdown, e) && Failed(e) {
      ExactlyDueCalls(backgrounds, closers, serving, shutdown, e);
      FailuresAre(trace, e);
    }
  }

  // ---------- the container ----------

  datatype RegisterError = Duplicate | EmptyName

  /** Types and names are two spaces of keys. */
  class Container {
    var values: map<Bytes, Component>
    var names: map<Bytes, Component>
    var backgrounds: seq<Component>
    var closers: seq<Component>

    constructor ()
      ensures values == map[] && names == map[] && backgrounds == [] && closers == []
    {
      values, names, backgrounds, closers := map[], map[], [], [];
    }

    method CollectLifecycle(value: Component)
      modifies this`backgrounds, this`closers
      ensures backgrounds == old(backgrounds) + BackgroundsOf(value) && closers == old(closers) + ClosersOf(value)
    {
      if value.Nil? {
        return;
      }
      if value.start.Some? {
        backgrounds := backgrounds + [value];
      } else if value.stop.Some? {
        backgrounds := backgrounds + [value];
      } else if value.waits {
        backgrounds := backgrounds + [value];
      }
      if value.close.Some? {
        closers := closers + [value];
      }
    }

    ghost function Contents(): State
      reads this
    {
      State(values, names, backgrounds, closers)
    }

    /** Register and RegisterNoLifecycle, which differ in `collect`. */
    method Register(typ: Bytes, value: Component, collect: bool) returns (error: Option<RegisterError>)
      modifies this
      ensures (Contents(), error) == RegistrationStep(old(Contents()), Registration.Register(typ, value, collect))
    {
      if typ in values {
        return Some(Duplicate);
      }
      values := values[typ := value];
      if collect {
        CollectLifecycle(value);
      }
      error := None;
    }

    method Replace(typ: Bytes, value: Component)
      modifies this
      ensures (Contents(), None) == RegistrationStep(old(Contents()), Registration.Replace(typ, value))
    {
      values := values[typ := value];
      CollectLifecycle(value);
    }

    method RegisterName(name: Bytes, value: Component) returns (error: Option<RegisterError>)
      modifies this
      ensures (Contents(), error) == RegistrationStep(old(Contents()), Registration.RegisterName(name, value))
    {
      if name == [] {
        return Some(EmptyName);
      }
      if name in names {
        return Some(Duplicate);
      }
      names := names[name := value];
      CollectLifecycle(value);
      error := None;
    }

    method ReplaceName(name: Bytes, value: Component)
      modifies this
      ensures (Contents(), None) == RegistrationStep(old(Contents()), Registration.ReplaceName(name, value))
    {
      if name == [] {
        return;
      }
      names := names[name := value];
      CollectLifecycle(value);
    }

    method AddBackground(service: Component)
      modifies this`backgrounds
      ensures (Contents(), None) == RegistrationStep(old(Contents()), Registration.AddBackground(service))
    {
      if service.Nil? {
        return;
      }
      backgrounds := backgrounds + [service];
    }

    method AddCloser(closer: Component)
      modifies this`closers
      ensures (Contents(), None) == RegistrationStep(old(Contents()), Registration.AddCloser(closer))
    {
      if closer.Nil? {
        return;
      }
      closers := closers + [closer];
    }
  }

  datatype State = State(
    values: map<Bytes, Component>, names: map<Bytes, Component>, backgrounds: seq<Component>, closers: seq<Component>)

  datatype Registration =
    | Register(typ: Bytes, value: Component, collect: bool)
    | Replace(typ: Bytes, value: Component)
    | RegisterName(name: Bytes, value: Component)
    | ReplaceName(name: Bytes, value: Component)
    | AddBackground(value: Component)
    | AddCloser(value: Component)

  function BackgroundsOf(c: Component): seq<Component> {
    if c.Component? && (c.start.Some? || c.stop.Some? || c.waits) then [c] else []
  }

  function ClosersOf(c: Component): seq<Component> {
    if c.Component? && c.close.Some? then [c] else []
  }

  function Collect(s: State, c: Component): State {
    s.(backgrounds := s.backgrounds + BackgroundsOf(c), closers := s.closers + ClosersOf(c))
  }

  function RegistrationStep(s: State, r: Registration): (State, Option<RegisterError>) {
    match r
    case Register(typ, value, collect) =>
      if typ in s.values then (s, Some(Duplicate))
      else
        var s' := s.(values := s.values[typ := value]);
        (if collect then Collect(s', value) else s', None)
    case Replace(typ, value) => (Collect(s.(values := s.values[typ := value]), value), None)
    case RegisterName(name, value) =>
      if name == [] then (s, Some(EmptyName))
      else if name in s.names then (s, Some(Duplicate))
      else (Collect(s.(names := s.names[name := value]), value), None)
    case ReplaceName(name, value) =>
      if name == [] then (s, None) else (Collect(s.(names := s.names[name := value]), value), None)
    case AddBackground(value) => (if value.Nil? then s else s.(backgrounds := s.backgrounds + [value]), None)
    case AddCloser(value) => (if value.Nil? then s else s.(closers := s.closers + [value]), None)
  }

  predicate ClosersClose(rs: seq<Registration>) {
    forall i :: 0 <= i < |rs| && rs[i].AddCloser? ==> rs[i].value.Nil? || rs[i].value.close.Some?
  }

  /** The container after a run of registrations, some of them refused. */
  function Registered(rs: seq<Registration>): State {
    if rs == [] then State(map[], map[], [], [])
    else RegistrationStep(Registered(rs[..|rs| - 1]), rs[|rs| - 1]).0
  }

  /** What has been collected stays where it is on the lists. */
  lemma {:induction false} ListsGrow(rs: seq<Registration>, n: nat)
    requires n <= |rs|
    ensures Registered(rs[..n]).backgrounds <= Registered(rs).backgrounds
    ensures Registered(rs[..n]).closers <= Registered(rs).closers
    decreases |rs|
  {
    hide RegistrationStep;
    if n < |rs| {
      ListsGrow(rs[..|rs| - 1], n);
      StepGrows(Registered(rs[..|rs| - 1]), rs[|rs| - 1]);
      assert rs[..|rs| - 1][..n] == rs[..n];
    } else {
      assert rs[..n] == rs;
    }
  }

  lemma StepGrows(s: State, r: Registration)
    ensures s.backgrounds <= RegistrationStep(s, r).0.backgrounds
    ensures s.closers <= RegistrationStep(s, r).0.closers
  {
  }

  lemma {:induction false} ClosersAreClosers(rs: seq<Registration>)
    requires ClosersClose(rs)
    ensures AllClosers(Registered(rs).closers)
  {
    hide RegistrationStep;
    if rs != [] {
      var front := rs[..|rs| - 1];
      assert forall i :: 0 <= i < |front| ==> front[i] == rs[i];
      ClosersAreClosers(front);
      StillClosers(Registered(front), rs[|rs| - 1]);
    }
  }

  lemma StillClosers(s: State, r: Registration)
    requires AllClosers(s.closers) && (r.AddCloser? ==> r.value.Nil? || r.value.close.Some?)
    ensures AllClosers(RegistrationStep(s, r).0.closers)
  {
  }

  /** The calls of a whole application: registrations, then the run. */
  function ApplicationTrace(rs: seq<Registration>, serving: Serving, shutdown: bool): seq<Event>
    requires ClosersClose(rs)
  {
    ClosersAreClosers(rs);
    TraceOf(Registered(rs).backgrounds, Registered(rs).closers, serving, shutdown)
  }

  // ---------- what becomes of a registration ----------

  /** The registration gives the type, or the name, a value. */
  predicate Gives(r: Registration, typed: bool, key: Bytes) {
    if typed then (r.Register? || r.Replace?) && r.typ == key
    else (r.RegisterName? || r.ReplaceName?) && r.name == key != []
  }

  ghost predicate GivenBy(rs: seq<Registration>, typed: bool, key: Bytes) {
    exists i :: 0 <= i < |rs| && Gives(rs[i], typed, key)
  }

  lemma GivenGrows(rs: seq<Registration>, typed: bool, key: Bytes)
    requires rs != []
    ensures GivenBy(rs, typed, key) <==> GivenBy(rs[..|rs| - 1], typed, key) || Gives(rs[|rs| - 1], typed, key)
  {
    var front := rs[..|rs| - 1];
    if i :| 0 <= i < |front| && Gives(front[i], typed, key) {
      assert Gives(rs[i], typed, key);
    }
    if i :| 0 <= i < |rs| && Gives(rs[i], typed, key) {
      assert i < |front| ==> Gives(front[i], typed, key);
    }
  }

  /** A type or a name is taken exactly if an earlier registration has given it a value. */
  lemma {:induction false} TakenIff(rs: seq<Registration>, key: Bytes)
    ensures key in Registered(rs).values <==> GivenBy(rs, true, key)
    ensures key in Registered(rs).names <==> GivenBy(rs, false, key)
  {
    if rs != [] {
      TakenIff(rs[..|rs| - 1], key);
      GivenGrows(rs, true, key);
      GivenGrows(rs, false, key);
      StepGives(Registered(rs[..|rs| - 1]), rs[|rs| - 1], key);
    }
  }

  lemma StepGives(s: State, r: Registration, key: Bytes)
    ensures key in RegistrationStep(s, r).0.values <==> key in s.values || Gives(r, true, key)
    ensures key in RegistrationStep(s, r).0.names <==> key in s.names || Gives(r, false, key)
  {
  }

  /** The registration, made after those in `earlier`, is refused, and with which error. */
  ghost function Refusal(earlier: seq<Registration>, r: Registration): Option<RegisterError> {
    if r.RegisterName? && r.name == [] then Some(EmptyName)
    else if r.Register? && GivenBy(earlier, true, r.typ) then Some(Duplicate)
    else if r.RegisterName? && GivenBy(earlier, false, r.name) then Some(Duplicate)
    else None
  }

  /** The registration hands its value over to the life cycle. */
  ghost predicate Collects(earlier: seq<Registration>, r: Registration) {
    match r
    case Register(_, _, collect) => collect && Refusal(earlier, r).None?
    case RegisterName(_, _) => Refusal(earlier, r).None?
    case ReplaceName(name, _) => name != []
    case Replace(_, _) => true
    case _ => false
  }

  ghost predicate AddsBackground(earlier: seq<Registration>, r: Registration) {
    && r.value.Component?
    && (r.AddBackground? || (Collects(earlier, r) && (r.value.start.Some? || r.value.stop.Some? || r.value.waits)))
  }

  ghost predicate AddsCloser(earlier: seq<Registration>, r: Registration) {
    r.value.Component? && (r.AddCloser? || (Collects(earlier, r) && r.value.close.Some?))
  }

  /** What one more registration does, in terms of those before it. */
  lemma OneMoreRegistered(earlier: seq<Registration>, r: Registration)
    ensures var s, (s', error) := Registered(earlier), RegistrationStep(Registered(earlier), r);
            && Registered(earlier + [r]) == s' && error == Refusal(earlier, r)
            && s'.backgrounds == s.backgrounds + (if AddsBackground(earlier, r) then [r.value] else [])
            && s'.closers == s.closers + (if AddsCloser(earlier, r) then [r.value] else [])
  {
    hide GivenBy;
    assert (earlier + [r])[..|earlier|] == earlier;
    match r
    case Register(typ, _, _) => TakenIff(earlier, typ);
    case RegisterName(name, _) => TakenIff(earlier, name);
    case _ =>
  }

  function ValuesOf(s: State, typed: bool): map<Bytes, Component> {
    if typed then s.values else s.names
  }

  /** The registration i gave the key its value, and all later ones that would have were refused. */
  ghost predicate LatestGiver(rs: seq<Registration>, typed: bool, key: Bytes, i: nat) {
    && i < |rs| && Gives(rs[i], typed, key) && Refusal(rs[..i], rs[i]).None?
    && forall j: nat :: i < j < |rs| && Gives(rs[j], typed, key) ==> Refusal(rs[..j], rs[j]).Some?
  }

  /** What is found under a type or a name is what the latest registration that was not refused gave it. */
  lemma {:induction false} HoldsLatest(rs: seq<Registration>, typed: bool, key: Bytes) returns (i: nat)
    requires GivenBy(rs, typed, key)
    ensures LatestGiver(rs, typed, key, i)
    ensures Lookup(ValuesOf(Registered(rs), typed), key) == Some(rs[i].value)
  {
    hide GivenBy, Refusal, RegistrationStep;
    NoneGiven(typed, key);
    var n, front := |rs| - 1, rs[..|rs| - 1];
    assert front + [rs[n]] == rs;
    OneMoreGiven(front, rs[n], typed, key);
    if Gives(rs[n], typed, key) && Refusal(front, rs[n]).None? {
      i := n;
    } else {
      i := HoldsLatest(front, typed, key);
      LatestStill(rs, typed, key, i);
    }
  }

  lemma NoneGiven(typed: bool, key: Bytes)
    ensures !GivenBy([], typed, key)
  {
  }

  lemma LatestStill(rs: seq<Registration>, typed: bool, key: Bytes, i: nat)
    requires rs != [] && LatestGiver(rs[..|rs| - 1], typed, key, i)
    requires Gives(rs[|rs| - 1], typed, key) ==> Refusal(rs[..|rs| - 1], rs[|rs| - 1]).Some?
    ensures LatestGiver(rs, typed, key, i)
  {
    hide Refusal, Gives;
    var front := rs[..|rs| - 1];
    assert front[..i] == rs[..i];
    forall j: nat | i < j < |rs| && Gives(rs[j], typed, key)
      ensures Refusal(rs[..j], rs[j]).Some?
    {
      assert j < |front| ==> front[..j] == rs[..j] && front[j] == rs[j];
    }
  }

  lemma OneMoreGiven(earlier: seq<Registration>, r: Registration, typed: bool, key: Bytes)
    ensures var before, after := ValuesOf(Registered(earlier), typed), ValuesOf(Registered(earlier + [r]), typed);
            if Gives(r, typed, key) && Refusal(earlier, r).None? then Lookup(after, key) == Some(r.value)
            else Lookup(after, key) == Lookup(before, key)
                 && (GivenBy(earlier + [r], typed, key) ==> GivenBy(earlier, typed, key))
  {
    hide Registered;
    OneMoreRegistered(earlier, r);
    GivenGrows(earlier + [r], typed, key);
    assert (earlier + [r])[..|earlier|] == earlier;
  }

  lemma RegisteredAt(rs: seq<Registration>, n: nat)
    requires n < |rs|
    ensures var s, s', r := Registered(rs[..n]), Registered(rs), rs[n];
            && (AddsBackground(rs[..n], r) ==> |s.backgrounds| < |s'.backgrounds| && s'.backgrounds[|s.backgrounds|] == r.value)
            && (AddsCloser(rs[..n], r) ==> |s.closers| < |s'.closers| && s'.closers[|s.closers|] == r.value)
  {
    hide RegistrationStep, AddsBackground, AddsCloser;
    OneMoreRegistered(rs[..n], rs[n]);
    assert rs[..n] + [rs[n]] == rs[..n + 1];
    ListsGrow(rs, n + 1);
  }

  /** A component that a registration hands over is closed when the application ends, however it ends. */
  lemma HandedOverIsClosed(rs: seq<Registration>, n: nat, serving: Serving, shutdown: bool, ok: bool)
    requires n < |rs| && ClosersClose(rs) && AddsCloser(rs[..n], rs[n]) && rs[n].value.close == Some(ok)
    ensures Closed(|Registered(rs[..n]).closers|, ok) in ApplicationTrace(rs, serving, shutdown)
  {
    hide Registered, TraceOf;
    RegisteredAt(rs, n);
    ClosersAreClosers(rs);
    var s := Registered(rs);
    ExactlyDueCalls(s.backgrounds, s.closers, serving, shutdown, Closed(|Registered(rs[..n]).closers|, ok));
  }

  /** And it is started, if startup gets there, and once started it is stopped and waited for. */
  lemma HandedOverIsStopped(rs: seq<Registration>, n: nat, serving: Serving, shutdown: bool, ok: bool)
    requires n < |rs| && ClosersClose(rs) && AddsBackground(rs[..n], rs[n])
    ensures var trace, i, s := ApplicationTrace(rs, serving, shutdown), |Registered(rs[..n]).backgrounds|, Registered(rs);
            && (Started(i, ok) in trace <==> i <= FirstFailure(s.backgrounds) && rs[n].value.start == Some(ok))
            && (Stopped(i, ok) in trace <==> i < FirstFailure(s.backgrounds) && rs[n].value.stop == Some(ok))
            && (Waited(i) in trace <==> i < FirstFailure(s.backgrounds) && rs[n].value.waits)
  {
    hide Registered, TraceOf;
    RegisteredAt(rs, n);
    ClosersAreClosers(rs);
    var i, s := |Registered(rs[..n]).backgrounds|, Registered(rs);
    ExactlyDueCalls(s.backgrounds, s.closers, serving, shutdown, Started(i, ok));
    ExactlyDueCalls(s.backgrounds, s.closers, serving, shutdown, Stopped(i, ok));
    ExactlyDueCalls(s.backgrounds, s.closers, serving, shutdown, Waited(i));
  }

  /** The call concerns a component that the first n registrations collected. */
  predicate CollectedBy(rs: seq<Registration>, n: nat, e: Event)
    requires n <= |rs|
  {
    if e.Closed? then e.i < |Registered(rs[..n]).closers|
    else (e.Stopped? || e.Waited?) && e.i < |Registered(rs[..n]).backgrounds|
  }

  /**
   * An application built from registrations, some of them refused: whatever one registration collected is
   * stopped, waited for and closed only after all that later ones collected, whatever fails on the way.
   */
  lemma LaterIsTakenDownFirst(rs: seq<Registration>, n: nat, serving: Serving, shutdown: bool, p: nat, q: nat)
    requires n <= |rs| && ClosersClose(rs)
    requires var trace := ApplicationTrace(rs, serving, shutdown);
             p < |trace| && q < |trace| && 3 <= Phase(trace[p]) == Phase(trace[q])
             && CollectedBy(rs, n, trace[p]) && !CollectedBy(rs, n, trace[q])
    ensures q < p
    ensures Registered(rs[..n]).backgrounds <= Registered(rs).backgrounds
    ensures Registered(rs[..n]).closers <= Registered(rs).closers
  {
    ListsGrow(rs, n);
    ClosersAreClosers(rs);
    CallsInOrder(Registered(rs).backgrounds, Registered(rs).closers, serving, shutdown);
    var trace := ApplicationTrace(rs, serving, shutdown);
    assert p < q ==> Before(trace[p], trace[q]);
  }
}
