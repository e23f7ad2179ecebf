/**
 * The token service over the memory store under any number of goroutines, one critical section at a time. Issue
 * reads the clock, lets the store stamp the claims and then store them; Find looks the token up, lets the store
 * judge what it saw, reads the clock again, and revokes a token whose claims are over; Revoke deletes.
 */
module TokenLocks {
  import opened Basics
  import opened TtlMap
  import opened Journal
  import opened MemoryLocks
  import Tokens

  datatype Config = Config(codec: Tokens.Codec, ttl: int64)

  /** Where a client is between two steps; `at` is the position of its look in the journal. */
  datatype Client =
    | Issuing(digest: Bytes, claims: Tokens.Claims, now: int)
    | Keeping(digest: Bytes)
    | Asking(digest: Bytes, at: nat)
    | Deciding(digest: Bytes, at: nat, value: Bytes)
    | Revoking(digest: Bytes, at: nat, now: int)

  /** A Find that has returned, with the clock reading of its verdict. */
  datatype Finding = Finding(digest: Bytes, at: nat, outcome: Tokens.Outcome, now: int)

  /** `issued` are the claims of every token drawn so far, `revokes` the acts of callers of Revoke. */
  datatype Service = Service(
    store: State,
    clients: map<nat, Client>,
    issued: map<Bytes, Tokens.Claims>,
    revokes: set<nat>,
    findings: seq<Finding>)

  datatype Move =
    | Pass(elapsed: nat)
    | StartIssue(client: nat, claims: Tokens.Claims, raw: Bytes)
    | StartFind(client: nat, raw: Bytes)
    | Revoke(client: nat, raw: Bytes)
    | Go(client: nat)

  function Fresh(clock: int): Service {
    Service(Empty(clock), map[], map[], {}, [])
  }

  // ---------- steps ----------

  /** Random tokens are never drawn twice, so a token with the digest of an earlier one is not issued. */
  function IssueStep(cfg: Config, s: Service, t: nat, claims: Tokens.Claims, d: Bytes): Service {
    var (completed, ttl) := Tokens.Completed(claims, cfg.ttl, s.store.clock);
    if d in s.issued || Tokens.Blank(claims.subject) || ttl <= 0 then s
    else s.(clients := s.clients[t := Issuing(d, claims, s.store.clock)], issued := s.issued[d := completed])
  }

  function StampStep(cfg: Config, s: Service, t: nat, x: Client): Service
    requires x.Issuing?
  {
    var (completed, ttl) := Tokens.Completed(x.claims, cfg.ttl, x.now);
    s.(store := MemoryLocks.Step(s.store, Stamp(t, x.digest, cfg.codec.encode(completed), ttl)),
       clients := s.clients[t := Keeping(x.digest)])
  }

  function Done(s: Service, t: nat, r: Finding): Service {
    s.(clients := s.clients - {t}, findings := s.findings + [r])
  }

  /** A step of the store on behalf of a Find: it answers, or goes on. */
  function StoreStep(s: Service, t: nat, d: Bytes, at: nat, l: Label): Service {
    var s' := s.(store := MemoryLocks.Step(s.store, l));
    if |s'.store.answers| == |s.store.answers| then s'.(clients := s'.clients[t := Asking(d, at)])
    else
      var answer := s'.store.answers[|s'.store.answers| - 1].answer;
      if answer.Value? then s'.(clients := s'.clients[t := Deciding(d, at, answer.value)])
      else Done(s', t, Finding(d, at, Tokens.StoreError(Miss), s'.store.clock))
  }

  function DecideStep(cfg: Config, s: Service, t: nat, x: Client): Service
    requires x.Deciding?
  {
    match cfg.codec.decode(x.value)
    case None => Done(s, t, Finding(x.digest, x.at, Tokens.Corrupt, s.store.clock))
    case Some(c) =>
      if Tokens.Over(c, s.store.clock) then s.(clients := s.clients[t := Revoking(x.digest, x.at, s.store.clock)])
      else Done(s, t, Finding(x.digest, x.at, Tokens.Ok(c), s.store.clock))
  }

  function GoStep(cfg: Config, s: Service, t: nat, x: Client): Service {
    match x
    case Issuing(_, _, _) => StampStep(cfg, s, t, x)
    case Keeping(_) => s.(store := MemoryLocks.Step(s.store, Store(t)), clients := s.clients - {t})
    case Asking(d, at) =>
      StoreStep(s, t, d, at, if t in s.store.tasks && s.store.tasks[t].Judging? then Judge(t) else LateDelete(t))
    case Deciding(_, _, _) => DecideStep(cfg, s, t, x)
    case Revoking(d, at, now) =>
      Done(s.(store := MemoryLocks.Step(s.store, DeleteNow(t, d))), t, Finding(d, at, Tokens.Expired, now))
  }

  /** Calls that fail before they reach the store change nothing. */
  function Step(cfg: Config, s: Service, m: Move): Service {
    match m
    case Pass(elapsed) => s.(store := MemoryLocks.Step(s.store, Tick(elapsed)))
    case Go(t) => if t in s.clients then GoStep(cfg, s, t, s.clients[t]) else s
    case StartIssue(t, claims, raw) =>
      if t in s.clients then s else IssueStep(cfg, s, t, claims, cfg.codec.digest(raw))
    case StartFind(t, raw) =>
      if t in s.clients || Tokens.Blank(raw) then s
      else StoreStep(s, t, cfg.codec.digest(raw), |s.store.log|, Look(t, GetKind, cfg.codec.digest(raw)))
    case Revoke(t, raw) =>
      if t in s.clients || Tokens.Blank(raw) then s
      else s.(store := MemoryLocks.Step(s.store, DeleteNow(t, cfg.codec.digest(raw))), revokes := s.revokes + {|s.store.log|})
  }

  predicate StepAt(cfg: Config, run: seq<Service>, moves: seq<Move>, i: nat)
    requires i < |moves| && |run| == |moves| + 1
  {
    run[i + 1] == Step(cfg, run[i], moves[i])
  }

  predicate IsRun(cfg: Config, run: seq<Service>, moves: seq<Move>) {
    |run| == |moves| + 1 && run[0] == Fresh(run[0].store.clock)
    && forall i :: 0 <= i < |moves| ==> StepAt(cfg, run, moves, i)
  }

  // ---------- what a token should be ----------

  predicate IsPut(log: seq<Act>, d: Bytes, w: nat) {
    w < |log| && log[w].Put? && log[w].key == d
  }

  /** The token was stored at w, and no caller has revoked it from there to j. */
  predicate ValidFrom(s: Service, d: Bytes, w: nat, j: nat) {
    w < j && IsPut(s.store.log, d, w)
    && forall p :: p in s.revokes && w < p < j && p < |s.store.log| ==> s.store.log[p].key != d
  }

  ghost predicate Valid(s: Service, d: Bytes, j: nat) {
    exists w: nat :: ValidFrom(s, d, w, j)
  }

  /** The stored entry carries the claims, and lives at least as long as they do. */
  predicate EntryFits(cfg: Config, c: Tokens.Claims, e: Entry) {
    e.value == cfg.codec.encode(c) && e.expiry.Some? && c.expires * Tokens.SECOND <= e.expiry.value
  }

  /** A Find says that the token is good exactly if it is: stored and not revoked before its look, and not over. */
  ghost predicate FindingFits(s: Service, r: Finding) {
    && (r.outcome.Ok? <==>
          r.digest in s.issued && Valid(s, r.digest, r.at) && Tokens.Unix(r.now) < s.issued[r.digest].expires)
    && (r.outcome.Ok? ==> r.outcome.claims == s.issued[r.digest])
  }

  // ---------- the invariant ----------

  /** The store's tasks are those of the clients. */
  predicate Linked(s: Service) {
    && (forall t :: t in s.store.tasks ==> t in s.clients)
    && (forall t :: t in s.clients ==> ClientLinked(s.store, t, s.clients[t]))
  }

  predicate ClientLinked(store: State, t: nat, x: Client) {
    match x
    case Keeping(d) => t in store.tasks && store.tasks[t].Storing? && store.tasks[t].key == d
    case Asking(d, at) =>
      && t in store.tasks && !store.tasks[t].Storing? && store.tasks[t].key == d
      && store.tasks[t].kind == GetKind && store.tasks[t].at == at
    case _ => t !in store.tasks
  }

  predicate TokenActs(s: Service) {
    && (forall i :: 0 <= i < |s.store.log| ==> !s.store.log[i].Added? && !s.store.log[i].Took?)
    && (forall p :: p in s.revokes ==> p < |s.store.log| && s.store.log[p].Dropped?)
  }

  predicate Issues(x: Client, d: Bytes) {
    (x.Issuing? || x.Keeping?) && x.digest == d
  }

  /** A token is issued by one client, and stored once, when that client is done. */
  ghost predicate IssuedOnce(s: Service, d: Bytes) {
    && (forall t, u :: t in s.clients && u in s.clients && Issues(s.clients[t], d) && Issues(s.clients[u], d) ==> t == u)
    && (forall w: nat, v: nat :: IsPut(s.store.log, d, w) && IsPut(s.store.log, d, v) ==> w == v)
    && (forall w: nat, t :: IsPut(s.store.log, d, w) && t in s.clients ==> !Issues(s.clients[t], d))
    && (forall w: nat :: IsPut(s.store.log, d, w) ==> d in s.issued)
    && (forall t :: t in s.clients && Issues(s.clients[t], d) ==> d in s.issued)
  }

  ghost predicate ClaimsFit(cfg: Config, s: Service, d: Bytes) {
    d in s.issued ==>
      && s.issued[d].expires > 0 && Tokens.Faithful(cfg.codec, s.issued[d])
      && (forall w: nat :: IsPut(s.store.log, d, w) ==> EntryFits(cfg, s.issued[d], s.store.log[w].stored.entry))
      && (forall t :: t in s.clients && s.clients[t] == Keeping(d) && t in s.store.tasks && s.store.tasks[t].Storing? ==>
            EntryFits(cfg, s.issued[d], s.store.tasks[t].entry))
      && (forall t :: t in s.clients && s.clients[t].Issuing? && s.clients[t].digest == d ==>
            IssuingFits(cfg, s.issued[d], s.clients[t], s.store.clock))
  }

  predicate IssuingFits(cfg: Config, c: Tokens.Claims, x: Client, clock: int)
    requires x.Issuing?
  {
    && 0 < x.now <= clock && x.now <= MAX_INT64 && Tokens.Plain(x.claims.expires)
    && Tokens.Completed(x.claims, cfg.ttl, x.now).0 == c && Tokens.Completed(x.claims, cfg.ttl, x.now).1 > 0
  }

  /** Once stored, the token is in the store, unless it has been revoked since or is over. */
  ghost predicate StillThere(s: Service, d: Bytes) {
    forall w: nat :: ValidFrom(s, d, w, |s.store.log|) && d in s.issued ==>
      (d in s.store.items && s.store.items[d].id == w) || Tokens.Over(s.issued[d], s.store.clock)
  }

  /** What a Find under way has learnt. */
  ghost predicate ClientFits(cfg: Config, s: Service, x: Client) {
    match x
    case Asking(d, at) => d in s.issued && Valid(s, d, at)
    case Deciding(d, at, value) => d in s.issued && Valid(s, d, at) && value == cfg.codec.encode(s.issued[d])
    case Revoking(d, at, now) =>
      d in s.issued && Valid(s, d, at) && Tokens.Over(s.issued[d], now) && now <= s.store.clock
    case _ => true
  }

  ghost predicate ClientsFit(cfg: Config, s: Service, d: Bytes) {
    forall t :: t in s.clients && s.clients[t].digest == d ==> ClientFits(cfg, s, s.clients[t]) && LookFits(s, s.clients[t])
  }

  predicate LookFits(s: Service, x: Client) {
    x.Asking? || x.Deciding? || x.Revoking? ==> x.at < |s.store.log|
  }

  ghost predicate FindingsFit(s: Service, d: Bytes) {
    forall i :: 0 <= i < |s.findings| && s.findings[i].digest == d ==>
      s.findings[i].at < |s.store.log| && FindingFits(s, s.findings[i])
  }

  ghost predicate Good(cfg: Config, s: Service, d: Bytes) {
    && Inv(s.store) && Linked(s) && TokenActs(s)
    && IssuedOnce(s, d) && ClaimsFit(cfg, s, d) && StillThere(s, d) && ClientsFit(cfg, s, d) && FindingsFit(s, d)
  }

  /** What is asked of the calls that issue the token: a sane clock, an expiry not too far off, and a lawful codec. */
  predicate Timely(cfg: Config, s: Service, m: Move, d: Bytes) {
    match m
    case StartIssue(_, claims, raw) =>
      cfg.codec.digest(raw) == d ==>
        && Tokens.SECOND <= s.store.clock <= MAX_INT64 && Tokens.Plain(claims.expires)
        && Tokens.Faithful(cfg.codec, Tokens.Completed(claims, cfg.ttl, s.store.clock).0)
    case Go(t) =>
      t in s.clients && s.clients[t].Issuing? && s.clients[t].digest == d ==>
        s.clients[t].claims.expires <= 0 || s.clients[t].claims.expires * Tokens.SECOND - s.store.clock <= MAX_INT64
    case _ => true
  }

  // ---------- frames ----------

  /** Validity as of a look does not change when acts are added behind it. */
  lemma ValidStays(s: Service, s': Service, d: Bytes, j: nat)
    requires s.store.log <= s'.store.log && s.revokes <= s'.revokes && j <= |s.store.log|
    requires forall p :: p in s'.revokes && p !in s.revokes ==> p >= |s.store.log|
    ensures Valid(s', d, j) <==> Valid(s, d, j)
  {
    if w: nat :| ValidFrom(s, d, w, j) {
      assert ValidFrom(s', d, w, j);
    }
    if w: nat :| ValidFrom(s', d, w, j) {
      assert ValidFrom(s, d, w, j);
    }
  }

  /** Nothing that concerns the token's Finds gets lost when the journal, the revokes and the claims only grow. */
  ghost predicate Grows(s: Service, s': Service) {
    && s.store.log <= s'.store.log && s.revokes <= s'.revokes && s.store.clock <= s'.store.clock
    && (forall p :: p in s'.revokes && p !in s.revokes ==> p >= |s.store.log|)
    && (forall d :: d in s.issued ==> d in s'.issued && s'.issued[d] == s.issued[d])
  }

  lemma ClientStays(cfg: Config, s: Service, s': Service, x: Client)
    requires Grows(s, s') && ClientFits(cfg, s, x) && LookFits(s, x)
    ensures ClientFits(cfg, s', x) && LookFits(s', x)
  {
    if x.Asking? || x.Deciding? || x.Revoking? {
      ValidStays(s, s', x.digest, x.at);
    }
  }

  lemma FindingStays(s: Service, s': Service, r: Finding)
    requires Grows(s, s') && FindingFits(s, r) && r.at < |s.store.log|
    requires r.digest in s'.issued && r.digest !in s.issued ==> !Valid(s, r.digest, r.at)
    ensures FindingFits(s', r)
  {
    ValidStays(s, s', r.digest, r.at);
  }

  /** Everything that Good says but for the Finds. */
  ghost predicate Sound(cfg: Config, s: Service, d: Bytes) {
    && Inv(s.store) && Linked(s) && TokenActs(s)
    && IssuedOnce(s, d) && ClaimsFit(cfg, s, d) && StillThere(s, d)
  }

  /** The step has left every client but `t` alone, and has added at most one finding, which fits. */
  ghost predicate Local(cfg: Config, s: Service, s': Service, t: nat, d: Bytes) {
    && (forall u :: u in s'.clients && u != t ==> u in s.clients && s'.clients[u] == s.clients[u])
    && (t in s'.clients && s'.clients[t].digest == d ==>
          (t in s.clients && s'.clients[t] == s.clients[t]) || (ClientFits(cfg, s', s'.clients[t]) && LookFits(s', s'.clients[t])))
    && |s.findings| <= |s'.findings| <= |s.findings| + 1 && s.findings <= s'.findings
    && (|s'.findings| > |s.findings| && s'.findings[|s.findings|].digest == d ==>
          s'.findings[|s.findings|].at < |s'.store.log| && FindingFits(s', s'.findings[|s.findings|]))
  }

  lemma StepGood(cfg: Config, s: Service, s': Service, t: nat, d: Bytes)
    requires Good(cfg, s, d) && Grows(s, s') && Sound(cfg, s', d) && Local(cfg, s, s', t, d)
    ensures Good(cfg, s', d)
  {
    hide Inv, Linked, ClaimsFit, StillThere, FindingFits, ClientFits, EntryFits;
    forall u | u in s'.clients && s'.clients[u].digest == d
      ensures ClientFits(cfg, s', s'.clients[u]) && LookFits(s', s'.clients[u])
    {
      if u in s.clients && s'.clients[u] == s.clients[u] {
        ClientStays(cfg, s, s', s.clients[u]);
      }
    }
    forall i | 0 <= i < |s'.findings| && s'.findings[i].digest == d
      ensures s'.findings[i].at < |s'.store.log| && FindingFits(s', s'.findings[i])
    {
      if i < |s.findings| {
        assert s'.findings[i] == s.findings[i];
        assert d !in s.issued ==> !Valid(s, d, s.findings[i].at);
        FindingStays(s, s', s.findings[i]);
      }
    }
  }

  /** The token's part in the journal and in the store after one more act. */
  lemma OneMore(s: Service, s': Service, a: Act, d: Bytes)
    requires s'.store.log == s.store.log + [a] && s'.store.items == Apply(s.store.items, a)
    ensures forall w: nat :: IsPut(s'.store.log, d, w) <==> IsPut(s.store.log, d, w) || (w == |s.store.log| && a.Put? && a.key == d)
    ensures forall w: nat :: IsPut(s.store.log, d, w) ==> s'.store.log[w] == s.store.log[w]
    ensures Lookup(s'.store.items, d) == if Touches(a, d) then Written(a) else Lookup(s.store.items, d)
  {
    ApplyLookup(s.store.items, a, d);
  }

  /** An act that does not touch the token leaves it where it is. */
  lemma StillUntouched(s: Service, s': Service, a: Act, d: Bytes)
    requires StillThere(s, d) && !Touches(a, d) && TokenActs(s)
    requires s'.store.log == s.store.log + [a] && s'.store.items == Apply(s.store.items, a)
    requires s.revokes <= s'.revokes && s'.store.clock == s.store.clock
    requires d in s'.issued ==> d in s.issued && s'.issued[d] == s.issued[d]
    ensures StillThere(s', d)
  {
    OneMore(s, s', a, d);
    forall w: nat | ValidFrom(s', d, w, |s'.store.log|) && d in s'.issued
      ensures (d in s'.store.items && s'.store.items[d].id == w) || Tokens.Over(s'.issued[d], s'.store.clock)
    {
      assert ValidFrom(s, d, w, |s.store.log|);
    }
  }

  /** Only the client `t` and its task have changed, and they fit together. */
  predicate OnlyClient(s: Service, s': Service, t: nat) {
    && (forall u :: u in s'.clients && u != t ==> u in s.clients && s'.clients[u] == s.clients[u])
    && (forall u :: u in s.clients && u != t ==> u in s'.clients)
    && (forall u :: u in s'.store.tasks && u != t ==> u in s.store.tasks && s'.store.tasks[u] == s.store.tasks[u])
    && (forall u :: u in s.store.tasks && u != t ==> u in s'.store.tasks)
    && (t in s'.store.tasks ==> t in s'.clients)
    && (t in s'.clients ==> ClientLinked(s'.store, t, s'.clients[t]))
  }

  lemma LinkedStays(s: Service, s': Service, t: nat)
    requires Linked(s) && OnlyClient(s, s', t)
    ensures Linked(s')
  {
    forall u | u in s'.clients
      ensures ClientLinked(s'.store, u, s'.clients[u])
    {
      if u != t {
        assert ClientLinked(s.store, u, s.clients[u]);
      }
    }
  }

  /** No new put of the token, and no new client that issues it. */
  lemma IssuersStay(cfg: Config, s: Service, s': Service, t: nat, d: Bytes)
    requires IssuedOnce(s, d) && ClaimsFit(cfg, s, d) && OnlyClient(s, s', t) && s.store.clock <= s'.store.clock
    requires d in s'.issued <==> d in s.issued
    requires d in s.issued ==> s'.issued[d] == s.issued[d]
    requires forall w: nat :: IsPut(s'.store.log, d, w) ==> IsPut(s.store.log, d, w) && s'.store.log[w] == s.store.log[w]
    requires t in s'.clients ==> !Issues(s'.clients[t], d)
    ensures IssuedOnce(s', d) && ClaimsFit(cfg, s', d)
  {
    hide EntryFits;
  }

  /** Nothing happens in the journal. */
  lemma StillQuiet(s: Service, s': Service, d: Bytes)
    requires StillThere(s, d) && s'.store.log == s.store.log && s'.store.items == s.store.items
    requires s'.revokes == s.revokes && s.store.clock <= s'.store.clock
    requires d in s'.issued ==> d in s.issued && s'.issued[d] == s.issued[d]
    ensures StillThere(s', d)
  {
    forall w: nat | ValidFrom(s', d, w, |s'.store.log|) && d in s'.issued
      ensures (d in s'.store.items && s'.store.items[d].id == w) || Tokens.Over(s'.issued[d], s'.store.clock)
    {
      assert ValidFrom(s, d, w, |s.store.log|);
    }
  }

  // ---------- Issue ----------

  lemma PassKeeps(cfg: Config, s: Service, elapsed: nat, d: Bytes)
    requires Good(cfg, s, d)
    ensures Good(cfg, Step(cfg, s, Pass(elapsed)), d)
  {
    var s' := Step(cfg, s, Pass(elapsed));
    MemoryLocks.StepKeeps(s.store, Tick(elapsed));
    StillQuiet(s, s', d);
    StepGood(cfg, s, s', 0, d);
  }

  /** Claims that are issued expire after 1970. */
  lemma CompletedExpires(claims: Tokens.Claims, defaultTtl: int64, now: int)
    requires Tokens.SECOND <= now <= MAX_INT64 && Tokens.Completed(claims, defaultTtl, now).1 > 0
    ensures Tokens.Completed(claims, defaultTtl, now).0.expires > 0
  {
    if claims.expires <= 0 {
      Tokens.UnixSmall(now + defaultTtl);
    }
  }

  lemma StillUnissued(s: Service, s': Service, d: Bytes)
    requires StillThere(s, d) && IssuedOnce(s, d) && s'.store == s.store && s'.revokes == s.revokes
    requires d in s.issued ==> d in s'.issued && s'.issued[d] == s.issued[d]
    ensures StillThere(s', d)
  {
    forall w: nat | ValidFrom(s', d, w, |s'.store.log|) && d in s'.issued
      ensures (d in s'.store.items && s'.store.items[d].id == w) || Tokens.Over(s'.issued[d], s'.store.clock)
    {
      assert ValidFrom(s, d, w, |s.store.log|);
    }
  }

  lemma IssueKeeps(cfg: Config, s: Service, t: nat, claims: Tokens.Claims, raw: Bytes, d: Bytes)
    requires Good(cfg, s, d) && Timely(cfg, s, StartIssue(t, claims, raw), d) && t !in s.clients
    ensures Good(cfg, IssueStep(cfg, s, t, claims, cfg.codec.digest(raw)), d)
  {
    hide Inv, StillThere, ClaimsFit, IssuedOnce, Tokens.Completed, Tokens.Blank;
    var s' := IssueStep(cfg, s, t, claims, cfg.codec.digest(raw));
    if s' != s {
      IssueClaims(cfg, s, t, claims, raw, d);
      StillUnissued(s, s', d);
      LinkedStays(s, s', t);
      StepGood(cfg, s, s', t, d);
    }
  }

  lemma IssueClaims(cfg: Config, s: Service, t: nat, claims: Tokens.Claims, raw: Bytes, d: Bytes)
    requires IssuedOnce(s, d) && ClaimsFit(cfg, s, d) && Linked(s)
    requires Timely(cfg, s, StartIssue(t, claims, raw), d) && t !in s.clients
    requires IssueStep(cfg, s, t, claims, cfg.codec.digest(raw)) != s
    ensures var s' := IssueStep(cfg, s, t, claims, cfg.codec.digest(raw)); IssuedOnce(s', d) && ClaimsFit(cfg, s', d)
  {
    hide EntryFits, Tokens.Completed, Tokens.Blank;
    if cfg.codec.digest(raw) == d {
      CompletedExpires(claims, cfg.ttl, s.store.clock);
    }
  }

  /** The deadline that the store stamps is not before the claims' expiry. */
  lemma StampFits(cfg: Config, c: Tokens.Claims, x: Client, clock: int)
    requires x.Issuing? && IssuingFits(cfg, c, x, clock)
    requires x.claims.expires <= 0 || x.claims.expires * Tokens.SECOND - clock <= MAX_INT64
    ensures EntryFits(cfg, c, Entry(cfg.codec.encode(c), Deadline(clock, Tokens.Completed(x.claims, cfg.ttl, x.now).1)))
  {
    Tokens.StoreOutlivesClaimsIff(x.claims, cfg.ttl, x.now, clock);
  }

  lemma StampKeeps(cfg: Config, s: Service, t: nat, d: Bytes)
    requires Good(cfg, s, d) && Timely(cfg, s, Go(t), d) && t in s.clients && s.clients[t].Issuing?
    ensures Good(cfg, StampStep(cfg, s, t, s.clients[t]), d)
  {
    hide Inv, StillThere, ClaimsFit, IssuedOnce, Tokens.Completed;
    var x := s.clients[t];
    var s' := StampStep(cfg, s, t, x);
    var (completed, ttl) := Tokens.Completed(x.claims, cfg.ttl, x.now);
    assert ClientLinked(s.store, t, x);
    MemoryLocks.StepKeeps(s.store, Stamp(t, x.digest, cfg.codec.encode(completed), ttl));
    StampClaims(cfg, s, t, d);
    StillQuiet(s, s', d);
    LinkedStays(s, s', t);
    StepGood(cfg, s, s', t, d);
  }

  lemma StampClaims(cfg: Config, s: Service, t: nat, d: Bytes)
    requires IssuedOnce(s, d) && ClaimsFit(cfg, s, d) && Linked(s)
    requires Timely(cfg, s, Go(t), d) && t in s.clients && s.clients[t].Issuing?
    ensures var s' := StampStep(cfg, s, t, s.clients[t]); IssuedOnce(s', d) && ClaimsFit(cfg, s', d)
  {
    hide EntryFits, Tokens.Completed;
    var x := s.clients[t];
    assert ClientLinked(s.store, t, x);
    if x.digest == d {
      StampFits(cfg, s.issued[d], x, s.store.clock);
    }
  }

  lemma KeepKeeps(cfg: Config, s: Service, t: nat, d: Bytes)
    requires Good(cfg, s, d) && t in s.clients && s.clients[t].Keeping?
    ensures Good(cfg, GoStep(cfg, s, t, s.clients[t]), d)
  {
    hide Inv, StillThere, ClaimsFit, IssuedOnce;
    var s' := GoStep(cfg, s, t, s.clients[t]);
    assert ClientLinked(s.store, t, s.clients[t]);
    MemoryLocks.StepKeeps(s.store, Store(t));
    KeepClaims(cfg, s, t, d);
    LinkedStays(s, s', t);
    StepGood(cfg, s, s', t, d);
  }

  lemma KeepClaims(cfg: Config, s: Service, t: nat, d: Bytes)
    requires IssuedOnce(s, d) && ClaimsFit(cfg, s, d) && StillThere(s, d) && Linked(s) && TokenActs(s)
    requires t in s.clients && s.clients[t].Keeping?
    ensures var s' := GoStep(cfg, s, t, s.clients[t]); IssuedOnce(s', d) && ClaimsFit(cfg, s', d) && StillThere(s', d)
  {
    hide EntryFits;
    var s' := GoStep(cfg, s, t, s.clients[t]);
    assert ClientLinked(s.store, t, s.clients[t]);
    var a := s'.store.log[|s.store.log|];
    OneMore(s, s', a, d);
    if a.key == d {
      assert Issues(s.clients[t], d);
      assert forall w: nat :: IsPut(s'.store.log, d, w) ==> w == |s.store.log|;
    } else {
      StillUntouched(s, s', a, d);
    }
  }

  // ---------- Revoke ----------

  lemma RevokeKeeps(cfg: Config, s: Service, t: nat, raw: Bytes, d: Bytes)
    requires Good(cfg, s, d)
    ensures Good(cfg, Step(cfg, s, Revoke(t, raw)), d)
  {
    hide Inv, ClaimsFit, IssuedOnce, EntryFits;
    var s' := Step(cfg, s, Revoke(t, raw));
    if s' != s {
      var e := cfg.codec.digest(raw);
      MemoryLocks.StepKeeps(s.store, DeleteNow(t, e));
      OneMore(s, s', Dropped(t, e), d);
      if e == d {
        assert forall w: nat :: w < |s.store.log| ==> !ValidFrom(s', d, w, |s'.store.log|);
      } else {
        StillUntouched(s, s', Dropped(t, e), d);
      }
      LinkedStays(s, s', t);
      IssuersStay(cfg, s, s', t, d);
      StepGood(cfg, s, s', t, d);
    }
  }

  /** A Find deletes what it has found to be over, and reports that. */
  lemma ExpireKeeps(cfg: Config, s: Service, t: nat, d: Bytes)
    requires Good(cfg, s, d) && t in s.clients && s.clients[t].Revoking?
    ensures Good(cfg, GoStep(cfg, s, t, s.clients[t]), d)
  {
    hide Inv, EntryFits, IssuedOnce, ClaimsFit;
    var Revoking(e, at, now) := s.clients[t];
    var s' := GoStep(cfg, s, t, s.clients[t]);
    assert ClientLinked(s.store, t, s.clients[t]);
    MemoryLocks.StepKeeps(s.store, DeleteNow(t, e));
    OneMore(s, s', Dropped(t, e), d);
    if e == d {
      assert ClientFits(cfg, s, s.clients[t]);
      ValidStays(s, s', d, at);
      OverLater(s.issued[d], now, s.store.clock);
    } else {
      StillUntouched(s, s', Dropped(t, e), d);
    }
    LinkedStays(s, s', t);
    IssuersStay(cfg, s, s', t, d);
    StepGood(cfg, s, s', t, d);
  }

  lemma OverLater(c: Tokens.Claims, now: int, later: int)
    requires Tokens.Over(c, now) && now <= later
    ensures Tokens.Over(c, later)
  {
  }

  // ---------- Find ----------

  /** What the store holds under the token was put there, and nobody has revoked it since. */
  lemma HeldIsValid(cfg: Config, s: Service, d: Bytes)
    requires Good(cfg, s, d) && d in s.store.items
    ensures ValidFrom(s, d, s.store.items[d].id, |s.store.log|) && d in s.issued
  {
    HeldIsWritten(s.store.log, d);
    var w: nat := s.store.items[d].id;
    assert IsPut(s.store.log, d, w);
  }

  /** A look that finds nothing: the token is not valid there, or it is over. */
  lemma MissIsRight(cfg: Config, s: Service, d: Bytes)
    requires Good(cfg, s, d) && d !in s.store.items && d in s.issued && Valid(s, d, |s.store.log|)
    ensures Tokens.Unix(s.store.clock) >= s.issued[d].expires
  {
    var w: nat :| ValidFrom(s, d, w, |s.store.log|);
  }

  /** The store's steps of a Find in the store. */
  lemma StoreActs(store: State, t: nat, d: Bytes, at: nat, l: Label)
    requires l == Look(t, GetKind, d) || l == Judge(t) || l == LateDelete(t)
    requires if l.Look? then t !in store.tasks && at == |store.log|
             else ClientLinked(store, t, Asking(d, at)) && store.tasks[t].Judging? == l.Judge?
    ensures var store' := MemoryLocks.Step(store, l);
            && store'.clock == store.clock && store.log <= store'.log
            && (forall i :: |store.log| <= i < |store'.log| ==> store'.log[i].Looked? || store'.log[i].Forgot?)
            && (forall u :: u != t ==> (u in store'.tasks <==> u in store.tasks))
            && (forall u :: u != t && u in store.tasks ==> store'.tasks[u] == store.tasks[u])
            && (if |store'.answers| == |store.answers| then ClientLinked(store', t, Asking(d, at)) else t !in store'.tasks)
  {
    hide HitOf, MissOf, Alive;
  }

  /** The step of the store that a Find takes now. */
  predicate FindsNow(s: Service, t: nat, d: Bytes, at: nat, l: Label) {
    if l == Look(t, GetKind, d) then t !in s.clients && at == |s.store.log|
    else if l == Judge(t) then t in s.clients && s.clients[t] == Asking(d, at) && t in s.store.tasks && s.store.tasks[t].Judging?
    else l == LateDelete(t) && t in s.clients && s.clients[t] == Asking(d, at) && t in s.store.tasks && s.store.tasks[t].Deleting?
  }

  lemma FindActs(s: Service, t: nat, d: Bytes, at: nat, l: Label)
    requires Linked(s) && FindsNow(s, t, d, at, l)
    ensures l == Look(t, GetKind, d) || l == Judge(t) || l == LateDelete(t)
    ensures if l.Look? then t !in s.store.tasks && at == |s.store.log|
            else ClientLinked(s.store, t, Asking(d, at)) && s.store.tasks[t].Judging? == l.Judge?
  {
    if !l.Look? {
      assert ClientLinked(s.store, t, s.clients[t]);
    }
  }

  /** The store's steps of a Find concern that client only. */
  lemma StoreShape(s: Service, t: nat, d: Bytes, at: nat, l: Label)
    requires Linked(s) && FindsNow(s, t, d, at, l)
    ensures var s' := StoreStep(s, t, d, at, l);
            && OnlyClient(s, s', t) && |s'.findings| <= |s.findings| + 1 && s.findings <= s'.findings
            && (t in s'.clients ==> s'.clients[t].digest == d && !Issues(s'.clients[t], d))
            && (|s'.findings| > |s.findings| ==> s'.findings[|s.findings|].digest == d && s'.findings[|s.findings|].at == at)
  {
    hide MemoryLocks.Step, Linked, FindsNow;
    FindActs(s, t, d, at, l);
    StoreActs(s.store, t, d, at, l);
  }

  lemma StoreGrows(s: Service, t: nat, d: Bytes, at: nat, l: Label)
    requires Linked(s) && TokenActs(s) && FindsNow(s, t, d, at, l)
    ensures var s' := StoreStep(s, t, d, at, l);
            && Grows(s, s') && TokenActs(s')
            && (forall e: Bytes, w: nat :: IsPut(s'.store.log, e, w) ==> IsPut(s.store.log, e, w) && s'.store.log[w] == s.store.log[w])
  {
    hide MemoryLocks.Step;
    FindActs(s, t, d, at, l);
    StoreActs(s.store, t, d, at, l);
  }

  /** With that, what remains to be shown of such a step. */
  lemma StoreStepGood(cfg: Config, s: Service, t: nat, e: Bytes, at: nat, l: Label, d: Bytes)
    requires Good(cfg, s, d) && FindsNow(s, t, e, at, l)
    requires var s' := StoreStep(s, t, e, at, l);
             && StillThere(s', d)
             && (e == d ==>
                   && (t in s'.clients ==> ClientFits(cfg, s', s'.clients[t]) && LookFits(s', s'.clients[t]))
                   && (|s'.findings| > |s.findings| ==> at < |s'.store.log| && FindingFits(s', s'.findings[|s.findings|])))
    ensures Good(cfg, StoreStep(s, t, e, at, l), d)
  {
    hide Inv, StillThere, ClaimsFit, IssuedOnce, FindingFits, ClientFits, TokenActs, OnlyClient, MemoryLocks.Step;
    var s' := StoreStep(s, t, e, at, l);
    StoreShape(s, t, e, at, l);
    StoreGrows(s, t, e, at, l);
    MemoryLocks.StepKeeps(s.store, l);
    LinkedStays(s, s', t);
    IssuersStay(cfg, s, s', t, d);
    StepGood(cfg, s, s', t, d);
  }

  lemma LookKeeps(cfg: Config, s: Service, t: nat, raw: Bytes, d: Bytes)
    requires Good(cfg, s, d)
    ensures Good(cfg, Step(cfg, s, StartFind(t, raw)), d)
  {
    hide Inv, ClaimsFit, IssuedOnce, StillThere, EntryFits, FindingFits, ClientFits, Tokens.Blank;
    var e := cfg.codec.digest(raw);
    var s' := Step(cfg, s, StartFind(t, raw));
    if s' != s {
      StillUntouched(s, s', Looked(t, e, Lookup(s.store.items, e)), d);
      if e == d {
        LookedFits(cfg, s, t, d);
      }
      StoreStepGood(cfg, s, t, e, |s.store.log|, Look(t, GetKind, e), d);
    }
  }

  /** A look finds a valid token, or the Find misses rightly. */
  lemma LookedFits(cfg: Config, s: Service, t: nat, d: Bytes)
    requires Good(cfg, s, d) && t !in s.clients
    ensures var s' := StoreStep(s, t, d, |s.store.log|, Look(t, GetKind, d));
            && (t in s'.clients ==> ClientFits(cfg, s', s'.clients[t]) && LookFits(s', s'.clients[t]))
            && (|s'.findings| > |s.findings| ==> FindingFits(s', s'.findings[|s.findings|]))
  {
    hide Inv, ClaimsFit, IssuedOnce, StillThere, EntryFits;
    var s' := StoreStep(s, t, d, |s.store.log|, Look(t, GetKind, d));
    ValidStays(s, s', d, |s.store.log|);
    if d in s.store.items {
      HeldIsValid(cfg, s, d);
    } else if d in s.issued && Valid(s, d, |s.store.log|) {
      MissIsRight(cfg, s, d);
    }
  }

  /** What a Find has seen is the entry that was stored for the token. */
  lemma SeenIsStored(cfg: Config, s: Service, t: nat, d: Bytes)
    requires Good(cfg, s, d) && t in s.clients && s.clients[t].Asking? && s.clients[t].digest == d
    ensures t in s.store.tasks && !s.store.tasks[t].Storing? && d in s.issued
    ensures EntryFits(cfg, s.issued[d], s.store.tasks[t].seen.entry)
    ensures s.store.tasks[t].Deleting? ==> !Alive(s.store.tasks[t].seen.entry, s.store.clock)
    ensures IsPut(s.store.log, d, s.store.tasks[t].seen.id) && s.store.log[s.store.tasks[t].seen.id].stored == s.store.tasks[t].seen
  {
    assert ClientLinked(s.store, t, s.clients[t]);
    var task := s.store.tasks[t];
    assert TaskFits(s.store.log, s.store.clock, t, task);
    HitIsLatestWrite(s.store.log, task.at);
  }

  lemma JudgeKeeps(cfg: Config, s: Service, t: nat, d: Bytes)
    requires Good(cfg, s, d) && t in s.clients && s.clients[t].Asking?
    requires t in s.store.tasks && s.store.tasks[t].Judging?
    ensures Good(cfg, GoStep(cfg, s, t, s.clients[t]), d)
  {
    hide Inv, ClaimsFit, IssuedOnce, StillThere, EntryFits, FindingFits, ClientFits;
    var s' := GoStep(cfg, s, t, s.clients[t]);
    StillQuiet(s, s', d);
    if s.clients[t].digest == d {
      JudgedFits(cfg, s, t, d);
    }
    StoreStepGood(cfg, s, t, s.clients[t].digest, s.clients[t].at, Judge(t), d);
  }

  /** A Find goes on with the claims that were issued, or to the late delete. */
  lemma JudgedFits(cfg: Config, s: Service, t: nat, d: Bytes)
    requires Good(cfg, s, d) && t in s.clients && s.clients[t].Asking? && s.clients[t].digest == d
    requires t in s.store.tasks && s.store.tasks[t].Judging?
    ensures var s' := GoStep(cfg, s, t, s.clients[t]);
            s'.findings == s.findings && t in s'.clients && ClientFits(cfg, s', s'.clients[t]) && LookFits(s', s'.clients[t])
  {
    hide Inv, ClaimsFit, IssuedOnce, StillThere, FindingFits;
    var s' := GoStep(cfg, s, t, s.clients[t]);
    assert ClientLinked(s.store, t, s.clients[t]);
    SeenIsStored(cfg, s, t, d);
    assert ClientFits(cfg, s, s.clients[t]);
    ValidStays(s, s', d, s.clients[t].at);
  }

  /** An entry that the store judged expired belongs to claims that are over. */
  lemma ExpiredIsOver(cfg: Config, c: Tokens.Claims, e: Entry, now: int)
    requires EntryFits(cfg, c, e) && !Alive(e, now) && c.expires > 0
    ensures Tokens.Over(c, now) && Tokens.Unix(now) >= c.expires
  {
    Tokens.Whole(c.expires, now);
  }

  lemma LateDeleteKeeps(cfg: Config, s: Service, t: nat, d: Bytes)
    requires Good(cfg, s, d) && t in s.clients && s.clients[t].Asking?
    requires t in s.store.tasks && s.store.tasks[t].Deleting?
    ensures Good(cfg, GoStep(cfg, s, t, s.clients[t]), d)
  {
    hide Inv, ClaimsFit, IssuedOnce, StillThere, EntryFits, FindingFits, ClientFits;
    var Asking(e, at) := s.clients[t];
    if e == d {
      LateDeleted(cfg, s, t, d);
    } else {
      StillUntouched(s, GoStep(cfg, s, t, s.clients[t]), Forgot(t, e, Lookup(s.store.items, e), at, s.store.clock), d);
    }
    StoreStepGood(cfg, s, t, e, at, LateDelete(t), d);
  }

  /** The late delete of a Find deletes a token that is over, if any, and the Find misses rightly. */
  lemma LateDeleted(cfg: Config, s: Service, t: nat, d: Bytes)
    requires Good(cfg, s, d) && t in s.clients && s.clients[t].Asking? && s.clients[t].digest == d
    requires t in s.store.tasks && s.store.tasks[t].Deleting?
    ensures var s' := GoStep(cfg, s, t, s.clients[t]);
            && t !in s'.clients && StillThere(s', d) && |s'.findings| == |s.findings| + 1
            && s.clients[t].at < |s'.store.log| && FindingFits(s', s'.findings[|s.findings|])
  {
    hide Inv;
    var Asking(_, at) := s.clients[t];
    var s' := GoStep(cfg, s, t, s.clients[t]);
    OneMore(s, s', Forgot(t, d, Lookup(s.store.items, d), at, s.store.clock), d);
    SeenIsStored(cfg, s, t, d);
    assert ClientFits(cfg, s, s.clients[t]) && LookFits(s, s.clients[t]);
    ValidStays(s, s', d, at);
    ExpiredIsOver(cfg, s.issued[d], s.store.tasks[t].seen.entry, s.store.clock);
  }

  lemma DecideKeeps(cfg: Config, s: Service, t: nat, d: Bytes)
    requires Good(cfg, s, d) && t in s.clients && s.clients[t].Deciding?
    ensures Good(cfg, GoStep(cfg, s, t, s.clients[t]), d)
  {
    hide Inv, IssuedOnce, ClaimsFit, StillThere, FindingFits, ClientFits, Tokens.Over;
    var s' := GoStep(cfg, s, t, s.clients[t]);
    assert ClientLinked(s.store, t, s.clients[t]);
    if s.clients[t].digest == d {
      DecidedFits(cfg, s, t, d);
    }
    StillQuiet(s, s', d);
    LinkedStays(s, s', t);
    IssuersStay(cfg, s, s', t, d);
    StepGood(cfg, s, s', t, d);
  }

  /** A Find decides on the claims that were issued, and rightly. */
  lemma DecidedFits(cfg: Config, s: Service, t: nat, d: Bytes)
    requires Good(cfg, s, d) && t in s.clients && s.clients[t].Deciding? && s.clients[t].digest == d
    ensures var s' := GoStep(cfg, s, t, s.clients[t]);
            && (t in s'.clients ==> ClientFits(cfg, s', s'.clients[t]) && LookFits(s', s'.clients[t]))
            && (|s'.findings| > |s.findings| ==>
                  s'.findings[|s.findings|].at < |s'.store.log| && FindingFits(s', s'.findings[|s.findings|]))
  {
    hide Inv, IssuedOnce, StillThere;
    assert ClientFits(cfg, s, s.clients[t]) && LookFits(s, s.clients[t]);
    ValidStays(s, GoStep(cfg, s, t, s.clients[t]), d, s.clients[t].at);
  }

  // ---------- all interleavings ----------

  lemma GoKeeps(cfg: Config, s: Service, t: nat, d: Bytes)
    requires Good(cfg, s, d) && Timely(cfg, s, Go(t), d) && t in s.clients
    ensures Good(cfg, GoStep(cfg, s, t, s.clients[t]), d)
  {
    match s.clients[t]
    case Issuing(_, _, _) => StampKeeps(cfg, s, t, d);
    case Keeping(_) => KeepKeeps(cfg, s, t, d);
    case Asking(_, _) =>
      assert ClientLinked(s.store, t, s.clients[t]);
      if s.store.tasks[t].Judging? { JudgeKeeps(cfg, s, t, d); } else { LateDeleteKeeps(cfg, s, t, d); }
    case Deciding(_, _, _) => DecideKeeps(cfg, s, t, d);
    case Revoking(_, _, _) => ExpireKeeps(cfg, s, t, d);
  }

  lemma StepKeeps(cfg: Config, s: Service, m: Move, d: Bytes)
    requires Good(cfg, s, d) && Timely(cfg, s, m, d)
    ensures Good(cfg, Step(cfg, s, m), d)
  {
    match m
    case Pass(elapsed) => PassKeeps(cfg, s, elapsed, d);
    case Go(t) => if t in s.clients { GoKeeps(cfg, s, t, d); }
    case StartIssue(t, claims, raw) => if t !in s.clients { IssueKeeps(cfg, s, t, claims, raw, d); }
    case StartFind(t, raw) => LookKeeps(cfg, s, t, raw, d);
    case Revoke(t, raw) => RevokeKeeps(cfg, s, t, raw, d);
  }

  lemma {:induction false} AlwaysGood(cfg: Config, run: seq<Service>, moves: seq<Move>, n: nat, d: Bytes)
    requires IsRun(cfg, run, moves) && n <= |moves|
    requires forall i :: 0 <= i < |moves| ==> Timely(cfg, run[i], moves[i], d)
    ensures Good(cfg, run[n], d)
  {
    if n > 0 {
      AlwaysGood(cfg, run, moves, n - 1, d);
      assert StepAt(cfg, run, moves, n - 1);
      StepKeeps(cfg, run[n - 1], moves[n - 1], d);
    }
  }

  /**
   * The lifetime of a token under every interleaving: a Find returns claims exactly if the token had been stored
   * before its look, no caller's Revoke lies between, and the whole seconds of the clock at its verdict are below
   * the expiry; and then it returns the claims that were issued. No late delete of another Find gets in the way.
   */
  lemma FindsAreRight(cfg: Config, run: seq<Service>, moves: seq<Move>, n: nat, i: nat)
    requires IsRun(cfg, run, moves) && n <= |moves| && i < |run[n].findings|
    requires forall j :: 0 <= j < |moves| ==> Timely(cfg, run[j], moves[j], run[n].findings[i].digest)
    ensures var s, r := run[n], run[n].findings[i];
            && (r.outcome.Ok? <==>
                  r.digest in s.issued && Valid(s, r.digest, r.at) && Tokens.Unix(r.now) < s.issued[r.digest].expires)
            && (r.outcome.Ok? ==> r.outcome.claims == s.issued[r.digest])
  {
    AlwaysGood(cfg, run, moves, n, run[n].findings[i].digest);
    assert FindingFits(run[n], run[n].findings[i]);
  }

  // ---------- calls take effect ----------

  /** A call of Issue goes on exactly if the token has a subject and time to live; then its claims are those asked for. */
  lemma IssuesIff(cfg: Config, s: Service, t: nat, claims: Tokens.Claims, raw: Bytes)
    requires t !in s.clients && cfg.codec.digest(raw) !in s.issued
    requires 0 < s.store.clock <= MAX_INT64 && Tokens.Plain(claims.expires)
    ensures var s', d := Step(cfg, s, StartIssue(t, claims, raw)), cfg.codec.digest(raw);
            if !AllSpace(claims.subject) && Tokens.StillToCome(claims, cfg.ttl, s.store.clock) then
              && s'.store == s.store && s'.clients == s.clients[t := Issuing(d, claims, s.store.clock)]
              && d in s'.issued && s'.issued == s.issued[d := s'.issued[d]]
              && Tokens.IssuedFor(claims, s'.issued[d], cfg.ttl, s.store.clock)
            else s' == s
  {
    hide Tokens.Completed, Tokens.IssuedFor, Tokens.StillToCome;
    Tokens.CompletedIs(claims, cfg.ttl, s.store.clock);
    TrimSpaceEmptyIff(claims.subject);
  }

  /** The move of the run that issued the token. */
  ghost predicate IssuedBy(cfg: Config, run: seq<Service>, moves: seq<Move>, k: nat, n: nat, d: Bytes)
    requires n <= |moves| && |run| == |moves| + 1
  {
    && k < n && moves[k].StartIssue? && cfg.codec.digest(moves[k].raw) == d
    && d in run[n].issued && !AllSpace(moves[k].claims.subject)
    && Tokens.StillToCome(moves[k].claims, cfg.ttl, run[k].store.clock)
    && Tokens.IssuedFor(moves[k].claims, run[n].issued[d], cfg.ttl, run[k].store.clock)
  }

  /** Whatever claims a Find may return, a caller of Issue has asked for them. */
  lemma {:induction false} EveryTokenWasAskedFor(cfg: Config, run: seq<Service>, moves: seq<Move>, n: nat, d: Bytes)
    requires IsRun(cfg, run, moves) && n <= |moves| && d in run[n].issued
    requires forall i :: 0 <= i < |moves| ==> Timely(cfg, run[i], moves[i], d)
    ensures exists k: nat :: IssuedBy(cfg, run, moves, k, n, d)
  {
    hide GoStep, StoreStep, IssueStep, Tokens.IssuedFor, Tokens.StillToCome, Tokens.Plain;
    assert StepAt(cfg, run, moves, n - 1);
    var s, m := run[n - 1], moves[n - 1];
    if d in s.issued {
      EveryTokenWasAskedFor(cfg, run, moves, n - 1, d);
      var k: nat :| IssuedBy(cfg, run, moves, k, n - 1, d);
      ClaimsStay(cfg, s, m, d);
      assert IssuedBy(cfg, run, moves, k, n, d);
    } else {
      NewlyIssued(cfg, s, m, d);
      assert IssuedBy(cfg, run, moves, n - 1, n, d);
    }
  }

  lemma ClaimsStay(cfg: Config, s: Service, m: Move, d: Bytes)
    requires d in s.issued
    ensures d in Step(cfg, s, m).issued && Step(cfg, s, m).issued[d] == s.issued[d]
  {
    hide MemoryLocks.Step, Tokens.Completed;
  }

  lemma NewlyIssued(cfg: Config, s: Service, m: Move, d: Bytes)
    requires d !in s.issued && d in Step(cfg, s, m).issued && Timely(cfg, s, m, d)
    ensures m.StartIssue? && cfg.codec.digest(m.raw) == d && !AllSpace(m.claims.subject)
    ensures Tokens.StillToCome(m.claims, cfg.ttl, s.store.clock)
    ensures Tokens.IssuedFor(m.claims, Step(cfg, s, m).issued[d], cfg.ttl, s.store.clock)
  {
    OnlyIssueIssues(cfg, s, m, d);
    IssuesIff(cfg, s, m.client, m.claims, m.raw);
  }

  lemma OnlyIssueIssues(cfg: Config, s: Service, m: Move, d: Bytes)
    requires d !in s.issued && d in Step(cfg, s, m).issued
    ensures m.StartIssue? && cfg.codec.digest(m.raw) == d && m.client !in s.clients
  {
    hide MemoryLocks.Step, Tokens.Completed;
  }

  /** A caller's Revoke deletes at once, and a blank token does nothing. */
  lemma RevokesIff(cfg: Config, s: Service, t: nat, raw: Bytes)
    requires Linked(s) && t !in s.clients
    ensures var s', d := Step(cfg, s, Revoke(t, raw)), cfg.codec.digest(raw);
            if AllSpace(raw) then s' == s
            else s'.store.log == s.store.log + [Dropped(t, d)] && s'.revokes == s.revokes + {|s.store.log|}
                 && s'.store.items == Assign(s.store.items, d, None) && s'.clients == s.clients && s'.findings == s.findings
  {
    TrimSpaceEmptyIff(raw);
  }

  /** From `s` to `s'` the Find with this look has returned. */
  predicate Found(s: Service, s': Service, d: Bytes, at: nat) {
    |s'.findings| == |s.findings| + 1 && s.findings <= s'.findings
    && s'.findings[|s.findings|].digest == d && s'.findings[|s.findings|].at == at
  }

  /** A Find looks at once, and a blank token is refused. */
  lemma FindsIff(cfg: Config, s: Service, t: nat, raw: Bytes)
    requires Linked(s) && t !in s.clients
    ensures var s', d, at := Step(cfg, s, StartFind(t, raw)), cfg.codec.digest(raw), |s.store.log|;
            if AllSpace(raw) then s' == s
            else s'.store.log == s.store.log + [Looked(t, d, Lookup(s.store.items, d))]
                 && if d in s.store.items then t in s'.clients && s'.clients[t] == Asking(d, at) && s'.findings == s.findings
                    else t !in s'.clients && Found(s, s', d, at)
  {
    TrimSpaceEmptyIff(raw);
  }

  /** How many steps the call still needs at most. */
  function StepsLeft(store: State, t: nat, x: Client): nat {
    match x
    case Issuing(_, _, _) => 2
    case Keeping(_) => 1
    case Asking(_, _) => if t in store.tasks && store.tasks[t].Judging? then 4 else 3
    case Deciding(_, _, _) => 2
    case Revoking(_, _, _) => 1
  }

  /**
   * A client's step brings its call nearer to its end, or ends it: an Issue with its token in the store, and a Find with
   * an outcome.
   */
  lemma CallsEnd(cfg: Config, s: Service, t: nat)
    requires Linked(s) && t in s.clients
    ensures var s', x := Step(cfg, s, Go(t)), s.clients[t];
            if t in s'.clients then
              StepsLeft(s'.store, t, s'.clients[t]) < StepsLeft(s.store, t, x) && s'.clients[t].digest == x.digest
            else if x.Keeping? then
              IsPut(s'.store.log, x.digest, |s.store.log|) && |s'.store.log| == |s.store.log| + 1
            else (x.Asking? || x.Deciding? || x.Revoking?) && Found(s, s', x.digest, x.at)
  {
    hide Alive, HitOf, MissOf, Tokens.Completed, Tokens.Over;
    assert ClientLinked(s.store, t, s.clients[t]);
  }
}
