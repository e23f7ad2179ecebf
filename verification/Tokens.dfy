/** The token service: claims kept in a store under the digest of a random token, with lifetimes in seconds. */
module Tokens {
  import opened Basics
  import opened TtlMap
  import MemoryStore

  const SECOND: int := 1_000_000_000

  /** `details` are the kind, the scopes and the meta data. */
  datatype Claims = Claims(subject: Bytes, issuedAt: int64, expires: int64, details: Bytes)

  /** JSON and the digest of a token, which the service takes from libraries. */
  datatype Codec = Codec(encode: Claims -> Bytes, decode: Bytes -> Option<Claims>, digest: Bytes -> Bytes)

  /** Decoding gives back these claims. */
  predicate Faithful(codec: Codec, c: Claims) {
    codec.decode(codec.encode(c)) == Some(c)
  }

  datatype Outcome = Ok(claims: Claims) | Invalid | Expired | Corrupt | StoreError(error: CacheError)

  // ---------- time ----------

  /** time.Time.Unix: whole seconds, rounded down. */
  function Unix(now: int): int {
    now / SECOND
  }

  /** time.Unix(expires, 0).Sub(now): the internal count of seconds wraps, the difference saturates. */
  function Until(expires: int64, now: int): int64 {
    var epoch := 62135596800;
    Clamp64((Wrap64(expires + epoch) - epoch) * SECOND - now)
  }

  predicate Over(c: Claims, now: int) {
    c.expires > 0 && Unix(now) >= c.expires
  }

  predicate Blank(s: Bytes) {
    TrimSpace(s) == []
  }

  // ---------- the service on the contents of its store ----------

  /** The claims as stored, and the lifetime given to the store. */
  function Completed(claims: Claims, defaultTtl: int64, now: int): (Claims, int64) {
    var stamped := if claims.issuedAt == 0 then claims.(issuedAt := Wrap64(Unix(now))) else claims;
    if claims.expires > 0 then (stamped, Until(claims.expires, now))
    else (stamped.(expires := Wrap64(Unix(now + defaultTtl))), defaultTtl)
  }

  /** Issue reads the service's clock, then the store reads its own; `raw` is the random token. */
  function IssueStep(items: Entries, codec: Codec, claims: Claims, raw: Bytes, defaultTtl: int64, now: int, stored: int): (Entries, Outcome) {
    var (completed, ttl) := Completed(claims, defaultTtl, now);
    if Blank(claims.subject) then (items, Invalid)
    else if ttl <= 0 then (items, Expired)
    else (MemoryStore.Step(items, Set(codec.digest(raw), codec.encode(completed), ttl), stored).0, Ok(completed))
  }

  /** Find asks the store, which reads its clock, and then reads the service's. */
  function FindStep(items: Entries, codec: Codec, raw: Bytes, looked: int, now: int): (Entries, Outcome) {
    if Blank(raw) then (items, Invalid)
    else
      var (items', answer) := MemoryStore.Step(items, Get(codec.digest(raw)), looked);
      if answer.Fail? then (items', StoreError(answer.error))
      else match codec.decode(answer.value)
           case None => (items', Corrupt)
           case Some(claims) =>
             if Over(claims, now) then (RevokeStep(items', codec, raw), Expired) else (items', Ok(claims))
  }

  function RevokeStep(items: Entries, codec: Codec, raw: Bytes): Entries {
    if Blank(raw) then items else Assign(items, codec.digest(raw), None)
  }

  class Service {
    const store: MemoryStore.Memory
    const codec: Codec
    const ttl: int64

    constructor (store: MemoryStore.Memory, codec: Codec, ttl: int64)
      ensures this.store == store && this.codec == codec && this.ttl == ttl
    {
      this.store, this.codec, this.ttl := store, codec, ttl;
    }

    method Issue(claims: Claims, raw: Bytes, now: int, stored: int) returns (outcome: Outcome)
      modifies store
      ensures (store.Contents(), outcome) == IssueStep(old(store.Contents()), codec, claims, raw, ttl, now, stored)
    {
      if Blank(claims.subject) {
        return Invalid;
      }
      var issued := claims;
      if issued.issuedAt == 0 {
        issued := issued.(issuedAt := Wrap64(Unix(now)));
      }
      var lifetime := ttl;
      if issued.expires > 0 {
        lifetime := Until(issued.expires, now);
      } else {
        issued := issued.(expires := Wrap64(Unix(now + lifetime)));
      }
      if lifetime <= 0 {
        return Expired;
      }
      var data := MemoryStore.ToSlice(codec.encode(issued));
      assert store.Contents() == old(store.Contents());
      var answer := store.Set(codec.digest(raw), data, lifetime, stored);
      outcome := Ok(issued);
    }

    method Find(raw: Bytes, looked: int, now: int) returns (outcome: Outcome)
      modifies store
      ensures (store.Contents(), outcome) == FindStep(old(store.Contents()), codec, raw, looked, now)
    {
      if Blank(raw) {
        return Invalid;
      }
      var data, answer := store.Get(codec.digest(raw), looked);
      if answer.Fail? {
        return StoreError(answer.error);
      }
      match codec.decode(data[..])
      case None => outcome := Corrupt;
      case Some(claims) =>
        if claims.expires > 0 && Unix(now) >= claims.expires {
          Revoke(raw);
          return Expired;
        }
        outcome := Ok(claims);
    }

    method Revoke(raw: Bytes)
      modifies store
      ensures store.Contents() == RevokeStep(old(store.Contents()), codec, raw)
    {
      if Blank(raw) {
        return;
      }
      var answer := store.Delete(codec.digest(raw));
      assert (store.Contents(), answer) == MemoryStore.Step(old(store.Contents()), TtlMap.Delete(codec.digest(raw)), 0);
    }
  }

  // ---------- lifetimes ----------

  /** The seconds of a clock reading between 1970 and 2262 plus a Duration fit easily. */
  lemma UnixSmall(t: int)
    requires 0 <= t <= 2 * MAX_INT64
    ensures Wrap64(Unix(t)) == Unix(t)
  {
  }

  /** A token without an expiry of its own lives for the default lifetime, cut to whole seconds. */
  lemma DefaultLifetime(claims: Claims, defaultTtl: int64, now: int)
    requires claims.expires <= 0 && 0 < now <= MAX_INT64 && defaultTtl > 0
    ensures var (c, ttl) := Completed(claims, defaultTtl, now);
            ttl == defaultTtl && defaultTtl - SECOND < c.expires * SECOND - now <= defaultTtl
  {
    UnixSmall(now + defaultTtl);
  }

  /** The expiry that a token is issued with has not come yet, to the second. */
  lemma Whole(expires: int, now: int)
    ensures Unix(now) < expires <==> now < expires * SECOND
  {
  }

  /** Seconds whose internal count does not wrap: up to the year 292 billion. */
  predicate Plain(expires: int64) {
    expires + 62135596800 <= MAX_INT64
  }

  /**
   * The store keeps an issued token at least until its claims expire exactly if the expiry is at most the
   * longest Duration, some 292 years, ahead of the store's clock.
   */
  lemma StoreOutlivesClaimsIff(claims: Claims, defaultTtl: int64, now: int, stored: int)
    requires 0 < now <= stored && now <= MAX_INT64 && Plain(claims.expires)
    requires Completed(claims, defaultTtl, now).1 > 0
    ensures var (c, ttl) := Completed(claims, defaultTtl, now);
            c.expires * SECOND <= stored + ttl
            <==> claims.expires <= 0 || claims.expires * SECOND - stored <= MAX_INT64
  {
    if claims.expires <= 0 {
      UnixSmall(now + defaultTtl);
    } else {
      assert Wrap64(claims.expires + 62135596800) == claims.expires + 62135596800;
    }
  }

  // ---------- outcomes ----------

  /** The expiry asked for is still to come, or the service has a lifetime to give. */
  predicate StillToCome(claims: Claims, defaultTtl: int64, now: int) {
    if claims.expires > 0 then claims.expires * 1_000_000_000 > now else defaultTtl > 0
  }

  /** The claims of an issued token: what the caller gave, and what it left open. */
  predicate IssuedFor(given: Claims, c: Claims, defaultTtl: int64, now: int) {
    && c.subject == given.subject && c.details == given.details
    && c.issuedAt == (if given.issuedAt != 0 then given.issuedAt else now / 1_000_000_000)
    && c.expires == (if given.expires > 0 then given.expires else (now + defaultTtl) / 1_000_000_000)
  }

  /** No more than the longest Duration. */
  function AtMostMax(left: int): int {
    if left > MAX_INT64 then MAX_INT64 else left
  }

  lemma CompletedIs(claims: Claims, defaultTtl: int64, now: int)
    requires 0 < now <= MAX_INT64 && Plain(claims.expires)
    ensures var (c, ttl) := Completed(claims, defaultTtl, now);
            && (ttl > 0 <==> StillToCome(claims, defaultTtl, now))
            && (ttl > 0 ==> IssuedFor(claims, c, defaultTtl, now))
            && (claims.expires <= 0 ==> ttl == defaultTtl)
            && (claims.expires > 0 && ttl > 0 ==> ttl == AtMostMax(claims.expires * 1_000_000_000 - now))
  {
    UnixSmall(now);
    if claims.expires > 0 {
      assert Wrap64(claims.expires + 62135596800) == claims.expires + 62135596800;
    } else if defaultTtl > 0 {
      UnixSmall(now + defaultTtl);
    }
  }

  /**
   * Issue succeeds exactly if the subject is not blank and the token has time to live. Then the token's claims are those
   * the caller gave, completed, and they are stored under its digest for its lifetime; otherwise nothing is stored.
   */
  lemma IssueOutcome(items: Entries, codec: Codec, claims: Claims, raw: Bytes, defaultTtl: int64, now: int, stored: int)
    requires 0 < now <= MAX_INT64 && Plain(claims.expires)
    ensures var (items', outcome) := IssueStep(items, codec, claims, raw, defaultTtl, now, stored);
            && (outcome == Invalid <==> AllSpace(claims.subject))
            && (outcome == Expired <==> !AllSpace(claims.subject) && !StillToCome(claims, defaultTtl, now))
            && (outcome.Ok? <==> !AllSpace(claims.subject) && StillToCome(claims, defaultTtl, now))
            && (!outcome.Ok? ==> items' == items)
            && (outcome.Ok? ==>
                  && IssuedFor(claims, outcome.claims, defaultTtl, now)
                  && var ttl := if claims.expires > 0 then AtMostMax(claims.expires * 1_000_000_000 - now) else defaultTtl;
                     items' == items[codec.digest(raw) := Entry(codec.encode(outcome.claims), Some(stored + ttl))])
  {
    hide Completed, IssuedFor, StillToCome;
    CompletedIs(claims, defaultTtl, now);
    TrimSpaceEmptyIff(claims.subject);
  }

  /** Find refuses exactly the blank tokens, and says of every other one what the store and the clock say. */
  lemma FindOutcome(items: Entries, codec: Codec, raw: Bytes, looked: int, now: int)
    ensures var (items', outcome) := FindStep(items, codec, raw, looked, now);
            var held := IfAlive(Lookup(items, codec.digest(raw)), looked);
            var decoded := if held.Some? then codec.decode(held.value.value) else None;
            var over := decoded.Some? && 0 < decoded.value.expires <= now / 1_000_000_000;
            && (outcome == Invalid <==> AllSpace(raw))
            && (outcome == StoreError(Miss) <==> !AllSpace(raw) && held.None?)
            && (outcome == Corrupt <==> !AllSpace(raw) && held.Some? && decoded.None?)
            && (outcome == Expired <==> !AllSpace(raw) && over)
            && (forall c :: outcome == Ok(c) <==> !AllSpace(raw) && decoded == Some(c) && !over)
            && (forall k :: k != codec.digest(raw) ==> Lookup(items', k) == Lookup(items, k))
            && IfAlive(Lookup(items', codec.digest(raw)), looked) == if outcome == Expired then None else held
  {
    TrimSpaceEmptyIff(raw);
  }

  // ---------- one token through a run ----------

  /** What the store should hold for a token: its claims until a deadline, or nothing. */
  datatype Status = Absent | Kept(claims: Claims, deadline: int)

  function Ideal(status: Status, codec: Codec, now: int): Option<Entry> {
    if status.Kept? && status.deadline > now then Some(Entry(codec.encode(status.claims), Some(status.deadline))) else None
  }

  predicate Tracks(items: Entries, codec: Codec, raw: Bytes, status: Status, now: int) {
    IfAlive(Lookup(items, codec.digest(raw)), now) == Ideal(status, codec, now)
  }

  /** Clock readings come in pairs: the first reading of a call, and the second. */
  datatype Use =
    | Issue(claims: Claims, raw: Bytes, at: int, later: int)
    | Find(raw: Bytes, at: int, later: int)
    | Revoke(raw: Bytes, at: int, later: int)

  function UseStep(items: Entries, codec: Codec, defaultTtl: int64, u: Use): (Entries, Option<Outcome>) {
    match u
    case Issue(claims, raw, at, later) =>
      var (m, o) := IssueStep(items, codec, claims, raw, defaultTtl, at, later); (m, Some(o))
    case Find(raw, at, later) =>
      var (m, o) := FindStep(items, codec, raw, at, later); (m, Some(o))
    case Revoke(raw, _, _) => (RevokeStep(items, codec, raw), None)
  }

  predicate Timed(uses: seq<Use>, from: int) {
    uses == [] || (from <= uses[0].at <= uses[0].later && Timed(uses[1..], uses[0].later))
  }

  function Run(items: Entries, codec: Codec, defaultTtl: int64, uses: seq<Use>): (outcomes: seq<Option<Outcome>>)
    ensures |outcomes| == |uses|
    decreases |uses|
  {
    if uses == [] then []
    else
      var (items', outcome) := UseStep(items, codec, defaultTtl, uses[0]);
      [outcome] + Run(items', codec, defaultTtl, uses[1..])
  }

  /** Other tokens have other digests, and a token is issued once. */
  predicate Distinct(codec: Codec, raw: Bytes, u: Use) {
    u.raw != raw && !Blank(u.raw) ==> codec.digest(u.raw) != codec.digest(raw)
  }

  function Next(status: Status, raw: Bytes, u: Use): Status {
    if u.raw != raw || status.Absent? then status
    else match u
         case Revoke(_, _, _) => Absent
         case Find(_, at, later) => if at < status.deadline && Over(status.claims, later) then Absent else status
         case Issue(_, _, _, _) => status
  }

  /** What Find must return for the token. */
  function Verdict(status: Status, at: int, later: int): Outcome {
    if status.Absent? || status.deadline <= at then StoreError(Miss)
    else if Over(status.claims, later) then Expired
    else Ok(status.claims)
  }

  lemma TracksLater(items: Entries, codec: Codec, raw: Bytes, status: Status, now: int, later: int)
    requires Tracks(items, codec, raw, status, now) && now <= later
    ensures Tracks(items, codec, raw, status, later)
  {
  }

  /** Each use of the service leaves the token where it should be, and Find says what it should. */
  lemma UseTracks(items: Entries, codec: Codec, defaultTtl: int64, raw: Bytes, status: Status, u: Use)
    requires (status.Kept? ==> Faithful(codec, status.claims)) && Distinct(codec, raw, u) && !Blank(raw) && u.at <= u.later
    requires Tracks(items, codec, raw, status, u.at) && !(u.Issue? && (u.raw == raw || Blank(u.raw)))
    ensures Tracks(UseStep(items, codec, defaultTtl, u).0, codec, raw, Next(status, raw, u), u.later)
    ensures u.Find? && u.raw == raw ==> UseStep(items, codec, defaultTtl, u).1 == Some(Verdict(status, u.at, u.later))
  {
    var items' := UseStep(items, codec, defaultTtl, u).0;
    if u.raw != raw {
      assert Lookup(items', codec.digest(raw)) == Lookup(items, codec.digest(raw));
      TracksLater(items, codec, raw, status, u.at, u.later);
    }
  }

  predicate RevokedBy(uses: seq<Use>, raw: Bytes) {
    exists i :: 0 <= i < |uses| && uses[i].Revoke? && uses[i].raw == raw
  }

  predicate Admissible(codec: Codec, raw: Bytes, uses: seq<Use>, from: int) {
    Timed(uses, from)
    && forall i :: 0 <= i < |uses| ==>
         Distinct(codec, raw, uses[i]) && !(uses[i].Issue? && (uses[i].raw == raw || Blank(uses[i].raw)))
  }

  /** A status that says the token is valid until its claims expire, unless it has been revoked. */
  predicate Honest(status: Status, c: Claims, revoked: bool, now: int) {
    match status
    case Kept(claims, deadline) => claims == c && !revoked && c.expires * SECOND <= deadline
    case Absent => revoked || Over(c, now)
  }

  /**
   * The lifetime of a token, over every run of the service after it was issued: Find returns its claims if
   * and only if it has not been revoked and the whole seconds of the clock are below its expiry. So it never
   * validates again once expired or revoked, and no use of other tokens makes a difference.
   */
  lemma {:induction false} Lifetime(
      items: Entries, codec: Codec, defaultTtl: int64, raw: Bytes, c: Claims, status: Status, revoked: bool,
      uses: seq<Use>, from: int, i: nat)
    requires Faithful(codec, c) && !Blank(raw) && c.expires > 0 && Honest(status, c, revoked, from)
    requires Tracks(items, codec, raw, status, from) && Admissible(codec, raw, uses, from)
    requires i < |uses| && uses[i].Find? && uses[i].raw == raw
    ensures var outcome := Run(items, codec, defaultTtl, uses)[i];
            && (outcome == Some(Ok(c)) <==> !revoked && !RevokedBy(uses[..i], raw) && Unix(uses[i].later) < c.expires)
            && (outcome.Some? && outcome.value.Ok? ==> outcome == Some(Ok(c)))
    decreases |uses|
  {
    var u := uses[0];
    var items' := UseStep(items, codec, defaultTtl, u).0;
    TracksLater(items, codec, raw, status, from, u.at);
    UseTracks(items, codec, defaultTtl, raw, status, u);
    Whole(c.expires, u.later);
    if i == 0 {
      assert uses[..0] == [];
    } else {
      var rest := uses[1..];
      var revoked' := revoked || (u.Revoke? && u.raw == raw);
      assert Honest(Next(status, raw, u), c, revoked', u.later);
      assert forall j :: 0 <= j < |rest| ==> rest[j] == uses[j + 1];
      Lifetime(items', codec, defaultTtl, raw, c, Next(status, raw, u), revoked', rest, u.later, i - 1);
      RevokedSplit(uses, raw, i);
    }
  }

  lemma RevokedSplit(uses: seq<Use>, raw: Bytes, i: nat)
    requires 0 < i <= |uses|
    ensures RevokedBy(uses[..i], raw) <==> (uses[0].Revoke? && uses[0].raw == raw) || RevokedBy(uses[1..][..i - 1], raw)
  {
    var tail := uses[1..][..i - 1];
    if j :| 0 <= j < i && uses[..i][j].Revoke? && uses[..i][j].raw == raw {
      assert j > 0 ==> tail[j - 1] == uses[..i][j];
    }
    if j :| 0 <= j < |tail| && tail[j].Revoke? && tail[j].raw == raw {
      assert uses[..i][j + 1] == tail[j];
    }
    assert uses[..i][0] == uses[0];
  }

  /** A freshly issued token, unless its expiry is too far ahead, starts such a life. */
  lemma IssuedIsHonest(items: Entries, codec: Codec, claims: Claims, raw: Bytes, defaultTtl: int64, now: int, stored: int)
    requires 0 < now <= stored && now <= MAX_INT64 && Plain(claims.expires)
    requires claims.expires <= 0 || claims.expires * SECOND - stored <= MAX_INT64
    requires IssueStep(items, codec, claims, raw, defaultTtl, now, stored).1.Ok?
    ensures var (items', outcome) := IssueStep(items, codec, claims, raw, defaultTtl, now, stored);
            var (c, ttl) := Completed(claims, defaultTtl, now);
            && outcome == Ok(c) && ttl > 0
            && Honest(Kept(c, stored + ttl), c, false, stored)
            && Tracks(items', codec, raw, Kept(c, stored + ttl), stored)
  {
    StoreOutlivesClaimsIff(claims, defaultTtl, now, stored);
  }

  /** Beyond that the store drops the token while its claims are still good. */
  lemma FarExpiryEndsEarly(items: Entries, codec: Codec, claims: Claims, raw: Bytes, defaultTtl: int64, now: int, stored: int)
    requires 0 < now <= stored && now <= MAX_INT64 && Plain(claims.expires) && !Blank(raw)
    requires claims.expires > 0 && claims.expires * SECOND - stored > MAX_INT64
    requires IssueStep(items, codec, claims, raw, defaultTtl, now, stored).1.Ok?
    ensures var (items', outcome) := IssueStep(items, codec, claims, raw, defaultTtl, now, stored);
            var end := stored + MAX_INT64;
            && Unix(end) < outcome.claims.expires
            && FindStep(items', codec, raw, end, end).1 == StoreError(Miss)
  {
    assert Wrap64(claims.expires + 62135596800) == claims.expires + 62135596800;
    Whole(claims.expires, stored + MAX_INT64);
  }
}
