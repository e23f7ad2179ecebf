/** Object paths: lexical cleaning, what is accepted, and containment in the root of a disk. */
module Paths {
  import opened Basics

  const SLASH: byte := 47
  const BACKSLASH: byte := 92
  const DOT: byte := 46
  const HERE: Bytes := [DOT]
  const UP: Bytes := [DOT, DOT]

  // ---------- path.Clean ----------

  /** The pieces between slashes; there is always at least one, possibly empty. */
  function Components(s: Bytes): (cs: seq<Bytes>)
    ensures cs != []
  {
    if s == [] then [[]]
    else if s[0] == SLASH then [[]] + Components(s[1..])
    else
      var rest := Components(s[1..]);
      [[s[0]] + rest[0]] + rest[1..]
  }

  predicate Rooted(s: Bytes) {
    s != [] && s[0] == SLASH
  }

  /** One more component on a cleaned path: empty ones and "." vanish, ".." takes one away if there is one. */
  function Push(stack: seq<Bytes>, rooted: bool, c: Bytes): seq<Bytes> {
    if c == [] || c == HERE then stack
    else if c != UP then stack + [c]
    else if stack != [] && stack[|stack| - 1] != UP then stack[..|stack| - 1]
    else if rooted then stack
    else stack + [UP]
  }

  function Walk(stack: seq<Bytes>, rooted: bool, cs: seq<Bytes>): seq<Bytes>
    decreases |cs|
  {
    if cs == [] then stack else Walk(Push(stack, rooted, cs[0]), rooted, cs[1..])
  }

  /** What a path means: whether it is rooted, and its components after cleaning. */
  datatype Meaning = Meaning(rooted: bool, parts: seq<Bytes>)

  function MeaningOf(s: Bytes): Meaning {
    Meaning(Rooted(s), Walk([], Rooted(s), Components(s)))
  }

  function JoinParts(parts: seq<Bytes>): Bytes {
    if parts == [] then []
    else if |parts| == 1 then parts[0]
    else parts[0] + [SLASH] + JoinParts(parts[1..])
  }

  function Print(m: Meaning): Bytes {
    if m.rooted then [SLASH] + JoinParts(m.parts)
    else if m.parts == [] then HERE
    else JoinParts(m.parts)
  }

  function Clean(s: Bytes): Bytes {
    Print(MeaningOf(s))
  }

  // ---------- the storage package ----------

  function Slashed(s: Bytes): (t: Bytes)
    ensures |t| == |s| && forall i :: 0 <= i < |s| ==> t[i] == if s[i] == BACKSLASH then SLASH else s[i]
  {
    if s == [] then [] else [if s[0] == BACKSLASH then SLASH else s[0]] + Slashed(s[1..])
  }

  function TrimSlash(s: Bytes): Bytes {
    if Rooted(s) then s[1..] else s
  }

  function CleanObjectPath(value: Bytes): Option<Bytes> {
    var cleaned := Clean(TrimSlash(Slashed(value)));
    if cleaned == HERE || UP + [SLASH] <= cleaned || cleaned == UP then None else Some(cleaned)
  }

  /** strings.Cut at the first slash, refused if either side is empty. */
  function SplitDiskPath(value: Bytes): Option<(Bytes, Bytes)> {
    var i := FirstSlash(value);
    if i == |value| || i == 0 || i == |value| - 1 then None else Some((value[..i], value[i + 1..]))
  }

  function FirstSlash(s: Bytes): (i: nat)
    ensures i <= |s| && SLASH !in s[..i] && (i < |s| ==> s[i] == SLASH)
  {
    if Rooted(s) || s == [] then 0
    else
      var i := FirstSlash(s[1..]);
      assert s[..i + 1] == [s[0]] + s[1..][..i];
      i + 1
  }

  /** filepath.Join of two elements, the second not empty. */
  function JoinPath(root: Bytes, sub: Bytes): Bytes {
    if root == [] then Clean(sub) else Clean(root + [SLASH] + sub)
  }

  datatype Opened = Path(path: Bytes) | InvalidPath | DiskNotFound

  function OpenPath(root: Bytes, objectPath: Bytes): Opened {
    match CleanObjectPath(objectPath)
    case None => InvalidPath
    case Some(cleaned) => Path(JoinPath(root, cleaned))
  }

  /** The disks by name, with the root directory of each, and the name of the default one. */
  datatype Manager = Manager(disks: map<Bytes, Bytes>, defaultDisk: Bytes)

  function OpenPublicPath(m: Manager, publicPath: Bytes): Opened {
    match CleanObjectPath(publicPath)
    case None => InvalidPath
    case Some(cleaned) =>
      var split := SplitDiskPath(cleaned);
      if split.Some? && split.value.0 in m.disks then OpenPath(m.disks[split.value.0], split.value.1)
      else if m.defaultDisk in m.disks then OpenPath(m.disks[m.defaultDisk], cleaned)
      else DiskNotFound
  }

  // ---------- components ----------

  lemma {:induction false} ComponentsConcat(a: Bytes, b: Bytes)
    ensures Components(a + [SLASH] + b) == Components(a) + Components(b)
  {
    if a == [] {
      assert (a + [SLASH] + b)[1..] == b;
    } else {
      assert (a + [SLASH] + b)[1..] == a[1..] + [SLASH] + b;
      ComponentsConcat(a[1..], b);
    }
  }

  lemma {:induction false} ComponentsPlain(c: Bytes)
    requires SLASH !in c
    ensures Components(c) == [c]
  {
    if c != [] {
      ComponentsPlain(c[1..]);
      assert [c[0]] + c[1..] == c;
    }
  }

  lemma {:induction false} ComponentsSlashFree(s: Bytes)
    ensures forall i :: 0 <= i < |Components(s)| ==> SLASH !in Components(s)[i]
  {
    if s != [] {
      ComponentsSlashFree(s[1..]);
    }
  }

  predicate SlashFree(cs: seq<Bytes>) {
    forall i :: 0 <= i < |cs| ==> SLASH !in cs[i]
  }

  lemma {:induction false} ComponentsJoined(parts: seq<Bytes>)
    requires parts != [] && SlashFree(parts)
    ensures Components(JoinParts(parts)) == parts
  {
    ComponentsPlain(parts[0]);
    if |parts| > 1 {
      ComponentsJoined(parts[1..]);
      ComponentsConcat(parts[0], JoinParts(parts[1..]));
    }
  }

  // ---------- walking ----------

  predicate Normal(c: Bytes) {
    c != [] && c != HERE && c != UP && SLASH !in c
  }

  predicate AllNormal(cs: seq<Bytes>) {
    forall i :: 0 <= i < |cs| ==> Normal(cs[i])
  }

  /** A cleaned path: normal components, after some ".." if it is not rooted. */
  predicate Cleaned(m: Meaning) {
    SlashFree(m.parts) &&
    forall i :: 0 <= i < |m.parts| ==>
      m.parts[i] != [] && m.parts[i] != HERE
      && (m.parts[i] == UP ==> !m.rooted && forall j :: 0 <= j < i ==> m.parts[j] == UP)
  }

  lemma {:induction false} WalkConcat(stack: seq<Bytes>, rooted: bool, a: seq<Bytes>, b: seq<Bytes>)
    ensures Walk(stack, rooted, a + b) == Walk(Walk(stack, rooted, a), rooted, b)
    decreases |a|
  {
    if a == [] {
      assert a + b == b;
    } else {
      assert (a + b)[1..] == a[1..] + b;
      WalkConcat(Push(stack, rooted, a[0]), rooted, a[1..], b);
    }
  }

  lemma {:induction false} WalkCleans(stack: seq<Bytes>, rooted: bool, cs: seq<Bytes>)
    requires Cleaned(Meaning(rooted, stack)) && SlashFree(cs)
    ensures Cleaned(Meaning(rooted, Walk(stack, rooted, cs)))
    decreases |cs|
  {
    if cs != [] {
      assert forall i :: 0 <= i < |cs[1..]| ==> cs[1..][i] == cs[i + 1];
      PushCleans(stack, rooted, cs[0]);
      WalkCleans(Push(stack, rooted, cs[0]), rooted, cs[1..]);
    }
  }

  lemma PushCleans(stack: seq<Bytes>, rooted: bool, c: Bytes)
    requires Cleaned(Meaning(rooted, stack)) && SLASH !in c
    ensures Cleaned(Meaning(rooted, Push(stack, rooted, c)))
  {
    if c == UP && stack != [] {
      assert stack[|stack| - 1] == UP ==> forall j :: 0 <= j < |stack| ==> stack[j] == UP;
    }
  }

  /** Normal components only pile up. */
  lemma {:induction false} WalkNormal(stack: seq<Bytes>, rooted: bool, cs: seq<Bytes>)
    requires AllNormal(cs)
    ensures Walk(stack, rooted, cs) == stack + cs
    decreases |cs|
  {
    if cs == [] {
      assert stack + [] == stack;
    } else {
      WalkNormal(stack + [cs[0]], rooted, cs[1..]);
      assert stack + [cs[0]] + cs[1..] == stack + cs;
    }
  }

  /** Walking over a cleaned unrooted path from the start gives it back, leading ".." included. */
  lemma {:induction false} WalkCleaned(m: Meaning, n: nat)
    requires Cleaned(m) && n <= |m.parts|
    ensures Walk(m.parts[..n], m.rooted, m.parts[n..]) == m.parts
    decreases |m.parts| - n
  {
    if n == |m.parts| {
      assert m.parts[..n] == m.parts;
    } else {
      assert m.parts[n..][0] == m.parts[n] && m.parts[n..][1..] == m.parts[n + 1..];
      assert m.parts[..n] + [m.parts[n]] == m.parts[..n + 1];
      assert Push(m.parts[..n], m.rooted, m.parts[n]) == m.parts[..n + 1];
      WalkCleaned(m, n + 1);
    }
  }

  // ---------- cleaning ----------

  lemma MeaningIsCleaned(s: Bytes)
    ensures Cleaned(MeaningOf(s))
  {
    ComponentsSlashFree(s);
    WalkCleans([], Rooted(s), Components(s));
  }

  /** Printing a cleaned path and reading it again changes nothing. */
  lemma MeaningOfPrinted(m: Meaning)
    requires Cleaned(m)
    ensures MeaningOf(Print(m)) == m
  {
    WalkCleaned(m, 0);
    assert m.parts[..0] == [] && m.parts[0..] == m.parts;
    if m.parts == [] {
      if m.rooted {
        assert [SLASH] + [] == [SLASH] && [SLASH][1..] == [];
        assert Components([SLASH]) == [[], []];
        WalkEmpties([], true, [[], []]);
      } else {
        ComponentsPlain(HERE);
        WalkEmpties([], false, [HERE]);
      }
    } else {
      ComponentsJoined(m.parts);
      JoinedStart(m.parts);
      if m.rooted {
        assert ([SLASH] + JoinParts(m.parts))[1..] == JoinParts(m.parts);
        WalkConcat([], true, [[]], m.parts);
        WalkEmpties([], true, [[]]);
      }
    }
  }

  lemma {:induction false} WalkEmpties(stack: seq<Bytes>, rooted: bool, cs: seq<Bytes>)
    requires forall i :: 0 <= i < |cs| ==> cs[i] == [] || cs[i] == HERE
    ensures Walk(stack, rooted, cs) == stack
    decreases |cs|
  {
    if cs != [] {
      WalkEmpties(stack, rooted, cs[1..]);
    }
  }

  lemma JoinedStart(parts: seq<Bytes>)
    requires parts != [] && parts[0] != [] && SLASH !in parts[0]
    ensures !Rooted(JoinParts(parts)) && JoinParts(parts) != []
  {
    assert parts[0][0] in parts[0];
  }

  /** Cleaning twice is cleaning once. */
  lemma CleanIdempotent(s: Bytes)
    ensures MeaningOf(Clean(s)) == MeaningOf(s) && Clean(Clean(s)) == Clean(s)
  {
    MeaningIsCleaned(s);
    MeaningOfPrinted(MeaningOf(s));
  }

  // ---------- the rules of cleaning ----------

  /** What lies between the same beginning and the same end may be exchanged if it walks alike. */
  lemma Exchange(s: Bytes, a: seq<Bytes>, b: seq<Bytes>, t: Bytes, longer: Bytes, shorter: Bytes)
    requires Components(longer) == Components(s) + a + Components(t) && Components(shorter) == Components(s) + b + Components(t)
    requires Rooted(longer) == Rooted(shorter)
    requires forall stack :: Walk(stack, Rooted(longer), a) == Walk(stack, Rooted(longer), b)
    ensures MeaningOf(longer) == MeaningOf(shorter)
  {
    var rooted, cs := Rooted(longer), Components(s);
    WalkConcat([], rooted, cs + a, Components(t));
    WalkConcat([], rooted, cs, a);
    WalkConcat([], rooted, cs + b, Components(t));
    WalkConcat([], rooted, cs, b);
  }

  /** Empty and "." components do not matter. */
  lemma HereVanishes(s: Bytes, t: Bytes)
    ensures Clean(s + [47, 46, 47] + t) == Clean(s + [47] + t)
    ensures Clean(s + [47, 47] + t) == Clean(s + [47] + t)
  {
    Vanishes(s, [46], t);
    Vanishes(s, [], t);
    assert s + [47] + [46] + [47] + t == s + [47, 46, 47] + t;
    assert s + [47] + [] + [47] + t == s + [47, 47] + t;
  }

  lemma Vanishes(s: Bytes, c: Bytes, t: Bytes)
    requires c == [] || c == HERE
    ensures Clean(s + [47] + c + [47] + t) == Clean(s + [47] + t)
  {
    ComponentsConcat(s, t);
    assert Components(s) + [] + Components(t) == Components(s) + Components(t);
    BetweenSlashes(s, c, t);
    forall stack, rooted
      ensures Walk(stack, rooted, [c]) == Walk(stack, rooted, [])
    {
      WalkEmpties(stack, rooted, [c]);
    }
    Exchange(s, [c], [], t, s + [47] + c + [47] + t, s + [47] + t);
  }

  lemma BetweenSlashes(s: Bytes, c: Bytes, t: Bytes)
    requires SLASH !in c
    ensures Components(s + [47] + c + [47] + t) == Components(s) + [c] + Components(t)
  {
    ComponentsPlain(c);
    ComponentsConcat(s, c);
    ComponentsConcat(s + [47] + c, t);
  }

  /** A ".." takes away the component before it, whatever comes before and behind. */
  lemma UpTakesAway(s: Bytes, c: Bytes, t: Bytes)
    requires 47 !in c && c != [] && c != [46] && c != [46, 46]
    ensures Clean(s + [47] + c + [47, 46, 46, 47] + t) == Clean(s + [47] + t)
  {
    var between := s + [47] + c;
    ComponentsConcat(s, t);
    assert Components(s) + [] + Components(t) == Components(s) + Components(t);
    ComponentsPlain(c);
    ComponentsConcat(s, c);
    BetweenSlashes(between, UP, t);
    assert between + [47] + UP + [47] + t == s + [47] + c + [47, 46, 46, 47] + t;
    assert Components(s) + [c] + [UP] == Components(s) + [c, UP];
    forall stack, rooted
      ensures Walk(stack, rooted, [c, UP]) == Walk(stack, rooted, [])
    {
      UpAfter(stack, rooted, c);
    }
    Exchange(s, [c, UP], [], t, s + [47] + c + [47, 46, 46, 47] + t, s + [47] + t);
  }

  /** A slash at the end does not matter, so a ".." at the end takes away what is before it, too. */
  lemma UpAtEnd(s: Bytes, c: Bytes)
    requires s != [] && 47 !in c && c != [] && c != [46] && c != [46, 46]
    ensures Clean(s + [47]) == Clean(s)
    ensures Clean(s + [47] + c + [47, 46, 46]) == Clean(s)
  {
    var whole := s + [47] + c + [47, 46, 46];
    SlashAtEnd(s);
    SlashAtEnd(whole);
    UpTakesAway(s, c, []);
    assert s + [47] + c + [47, 46, 46, 47] + [] == whole + [47];
    assert s + [47] + [] == s + [47];
  }

  lemma SlashAtEnd(s: Bytes)
    requires s != []
    ensures Clean(s + [47]) == Clean(s)
  {
    ComponentsConcat(s, []);
    assert s + [SLASH] + [] == s + [47];
    WalkConcat([], Rooted(s), Components(s), [[]]);
    WalkEmpties(MeaningOf(s).parts, Rooted(s), [[]]);
  }

  lemma UpAfter(stack: seq<Bytes>, rooted: bool, c: Bytes)
    requires c != [] && c != HERE && c != UP
    ensures Walk(stack, rooted, [c, UP]) == stack
  {
    assert [c, UP][1..] == [UP] && [UP][1..] == [];
    assert (stack + [c])[..|stack|] == stack;
    assert Push(stack + [c], rooted, UP) == stack;
    assert Walk(stack + [c], rooted, [UP]) == Push(stack + [c], rooted, UP);
  }

  /** A ".." at the root does nothing. */
  lemma UpAtRoot(t: Bytes)
    ensures Clean([47, 46, 46, 47] + t) == Clean([47] + t)
  {
    ComponentsConcat([], t);
    BetweenSlashes([], UP, t);
    assert [] + [47] + UP + [47] + t == [47, 46, 46, 47] + t && [] + [47] + t == [47] + t;
    var cs := Components(t);
    WalkConcat([], true, [[], UP], cs);
    WalkConcat([], true, [[]], cs);
    assert [[], UP][1..] == [UP] && [UP][1..] == [] && [[]] + [UP] == [[], UP];
    assert Walk([], true, [UP]) == Push([], true, UP) == [];
    assert Walk([], true, [[], UP]) == Walk([], true, [UP]);
  }

  /** Any other component is added at the end. */
  lemma PlainIsAdded(s: Bytes, c: Bytes)
    requires s != [] && 47 !in c && c != [] && c != [46] && c != [46, 46]
    ensures MeaningOf(s + [47] + c) == Meaning(MeaningOf(s).rooted, MeaningOf(s).parts + [c])
  {
    ComponentsPlain(c);
    ComponentsConcat(s, c);
    WalkConcat([], Rooted(s), Components(s), [c]);
    assert [c][1..] == [];
  }

  // ---------- what is accepted ----------

  /** How deep a path leads from a depth, or None if it climbs above the start on the way. */
  function Climb(cs: seq<Bytes>, depth: nat): Option<nat> {
    if cs == [] then Some(depth)
    else if cs[0] == [] || cs[0] == HERE then Climb(cs[1..], depth)
    else if cs[0] != UP then Climb(cs[1..], depth + 1)
    else if depth == 0 then None
    else Climb(cs[1..], depth - 1)
  }

  lemma {:induction false} ClimbIsWalk(stack: seq<Bytes>, cs: seq<Bytes>)
    requires AllNormal(stack) && SlashFree(cs)
    ensures match Climb(cs, |stack|)
            case None => Walk(stack, false, cs) != [] && Walk(stack, false, cs)[0] == UP
            case Some(depth) => AllNormal(Walk(stack, false, cs)) && |Walk(stack, false, cs)| == depth
    decreases |cs|
  {
    if cs != [] {
      var next := Push(stack, false, cs[0]);
      if cs[0] == UP && stack == [] {
        assert next == [UP];
        FirstStays(next, cs[1..]);
      } else {
        ClimbIsWalk(next, cs[1..]);
      }
    }
  }

  lemma {:induction false} FirstStays(stack: seq<Bytes>, cs: seq<Bytes>)
    requires stack != [] && stack[0] == UP
    ensures Walk(stack, false, cs) != [] && Walk(stack, false, cs)[0] == UP
    decreases |cs|
  {
    if cs != [] {
      FirstStays(Push(stack, false, cs[0]), cs[1..]);
    }
  }

  /** A cleaned path that starts with ".." prints as one that the check refuses, and no other does. */
  lemma StartsUp(m: Meaning)
    requires Cleaned(m)
    ensures (UP + [SLASH] <= Print(m) || Print(m) == UP) <==> m.parts != [] && m.parts[0] == UP
  {
    if m.rooted {
      assert Print(m)[0] == SLASH;
    } else if m.parts != [] {
      var first, printed := m.parts[0], Print(m);
      ComponentsJoined(m.parts);
      if UP + [SLASH] <= printed {
        assert printed == UP + [SLASH] + printed[3..];
        ComponentsConcat(UP, printed[3..]);
        ComponentsPlain(UP);
      }
      if printed == UP {
        ComponentsPlain(UP);
      }
      if first == UP && |m.parts| > 1 {
        assert printed == UP + [SLASH] + JoinParts(m.parts[1..]);
      }
    }
  }

  lemma PrintsHere(m: Meaning)
    requires Cleaned(m)
    ensures Print(m) == HERE <==> !m.rooted && m.parts == []
  {
    MeaningOfPrinted(m);
    MeaningOfPrinted(Meaning(false, []));
  }

  /**
   * A path is accepted exactly if, after backslashes became slashes and one leading slash went, it is still
   * rooted, or it never climbs above its start and ends below it.
   */
  lemma AcceptedIff(value: Bytes)
    ensures var v := TrimSlash(Slashed(value));
            CleanObjectPath(value).Some? <==>
              Rooted(v) || (Climb(Components(v), 0).Some? && Climb(Components(v), 0).value > 0)
  {
    var v := TrimSlash(Slashed(value));
    var m := MeaningOf(v);
    MeaningIsCleaned(v);
    StartsUp(m);
    PrintsHere(m);
    ComponentsSlashFree(v);
    ClimbIsWalk([], Components(v));
  }

  /** What is accepted is, behind at most one slash, a path of normal components only. */
  lemma AcceptedIsNormal(value: Bytes)
    requires CleanObjectPath(value).Some?
    ensures var m := MeaningOf(TrimSlash(Slashed(value)));
            && CleanObjectPath(value) == Some(Print(m)) && AllNormal(m.parts) && (m.rooted || m.parts != [])
            && MeaningOf(CleanObjectPath(value).value) == m
  {
    var m := MeaningOf(TrimSlash(Slashed(value)));
    MeaningIsCleaned(TrimSlash(Slashed(value)));
    StartsUp(m);
    PrintsHere(m);
    MeaningOfPrinted(m);
    forall i | 0 <= i < |m.parts|
      ensures Normal(m.parts[i])
    {
    }
  }

  // ---------- cleaning again ----------

  lemma {:induction false} NoBackslash(s: Bytes)
    requires BACKSLASH !in s
    ensures Slashed(s) == s
  {
  }

  /** A relative path of normal components is its own cleaning. */
  lemma CleanPlain(parts: seq<Bytes>)
    requires parts != [] && AllNormal(parts) && BACKSLASH !in JoinParts(parts)
    ensures CleanObjectPath(JoinParts(parts)) == Some(JoinParts(parts))
  {
    var m := Meaning(false, parts);
    NoBackslash(JoinParts(parts));
    JoinedStart(parts);
    MeaningOfPrinted(m);
    StartsUp(m);
    PrintsHere(m);
  }

  /** A second cleaning drops the slash that the first one kept, and then accepts what is left, if anything. */
  lemma CleanedAgain(value: Bytes)
    requires CleanObjectPath(value).Some? && BACKSLASH !in CleanObjectPath(value).value
    ensures var m := MeaningOf(TrimSlash(Slashed(value)));
            CleanObjectPath(CleanObjectPath(value).value)
            == if m.parts == [] then None else Some(JoinParts(m.parts))
  {
    AcceptedIsNormal(value);
    var m, r := MeaningOf(TrimSlash(Slashed(value))), CleanObjectPath(value).value;
    NoBackslash(r);
    if m.parts == [] {
      assert r == [SLASH] && TrimSlash(r) == [];
    } else {
      var bare := JoinParts(m.parts);
      JoinedStart(m.parts);
      assert m.rooted ==> r[1..] == bare;
      assert TrimSlash(r) == bare == TrimSlash(bare);
      NoBackslash(bare);
      CleanPlain(m.parts);
    }
  }

  lemma {:induction false} JoinNoBackslash(parts: seq<Bytes>)
    requires forall i :: 0 <= i < |parts| ==> BACKSLASH !in parts[i]
    ensures BACKSLASH !in JoinParts(parts)
  {
    if |parts| > 1 {
      JoinNoBackslash(parts[1..]);
    }
  }

  lemma {:induction false} ComponentsNoBackslash(s: Bytes)
    requires BACKSLASH !in s
    ensures forall i :: 0 <= i < |Components(s)| ==> BACKSLASH !in Components(s)[i]
  {
    if s != [] {
      ComponentsNoBackslash(s[1..]);
    }
  }

  lemma {:induction false} WalkNoBackslash(stack: seq<Bytes>, rooted: bool, cs: seq<Bytes>)
    requires forall i :: 0 <= i < |stack| ==> BACKSLASH !in stack[i]
    requires forall i :: 0 <= i < |cs| ==> BACKSLASH !in cs[i]
    ensures forall i :: 0 <= i < |Walk(stack, rooted, cs)| ==> BACKSLASH !in Walk(stack, rooted, cs)[i]
    decreases |cs|
  {
    if cs != [] {
      WalkNoBackslash(Push(stack, rooted, cs[0]), rooted, cs[1..]);
    }
  }

  lemma CleanedNoBackslash(value: Bytes)
    requires CleanObjectPath(value).Some?
    ensures BACKSLASH !in CleanObjectPath(value).value
  {
    var v := TrimSlash(Slashed(value));
    assert BACKSLASH !in Slashed(value);
    ComponentsNoBackslash(v);
    WalkNoBackslash([], Rooted(v), Components(v));
    JoinNoBackslash(MeaningOf(v).parts);
  }

  /** Cleaning an accepted path again gives it back exactly if it did not begin with two slashes of either kind. */
  lemma IdempotentIff(value: Bytes)
    requires CleanObjectPath(value).Some?
    ensures CleanObjectPath(CleanObjectPath(value).value) == CleanObjectPath(value)
       <==> !([SLASH, SLASH] <= Slashed(value))
  {
    CleanedNoBackslash(value);
    CleanedAgain(value);
    AcceptedIsNormal(value);
    var m := MeaningOf(TrimSlash(Slashed(value)));
    if m.parts != [] {
      JoinedStart(m.parts);
    }
    assert m.rooted <==> [SLASH, SLASH] <= Slashed(value);
  }

  // ---------- containment ----------

  /** Joined to the empty root a path stays what it is. */
  lemma JoinedToEmpty(m: Meaning)
    requires Cleaned(m)
    ensures MeaningOf(JoinPath([], Print(m))) == m
    ensures MeaningOf([]) == Meaning(false, [])
  {
    CleanIdempotent(Print(m));
    MeaningOfPrinted(m);
    WalkEmpties([], false, [[]]);
  }

  /** Joining to any other root a path whose components are normal adds these components to the root's. */
  lemma JoinedUnderRoot(root: Bytes, m: Meaning)
    requires root != [] && Cleaned(m) && AllNormal(m.parts) && (m.rooted || m.parts != [])
    ensures MeaningOf(JoinPath(root, Print(m))) == Meaning(Rooted(root), MeaningOf(root).parts + m.parts)
  {
    var whole := root + [SLASH] + Print(m);
    CleanIdempotent(whole);
    ComponentsConcat(root, Print(m));
    WalkConcat([], Rooted(root), Components(root), Components(Print(m)));
    var stack := MeaningOf(root).parts;
    PrintedComponents(m);
    if m.rooted {
      var tail := if m.parts == [] then [[]] else m.parts;
      WalkConcat(stack, Rooted(root), [[]], tail);
      WalkEmpties(stack, Rooted(root), [[]]);
    } else {
      assert Components(Print(m)) == m.parts;
    }
    if m.parts == [] {
      WalkEmpties(stack, Rooted(root), [[]]);
      assert stack + [] == stack;
    } else {
      WalkNormal(stack, Rooted(root), m.parts);
    }
  }

  /** A relative path is joined to every root alike. */
  lemma JoinedRelative(root: Bytes, parts: seq<Bytes>)
    requires parts != [] && AllNormal(parts)
    ensures MeaningOf(JoinPath(root, JoinParts(parts))) == Meaning(Rooted(root), MeaningOf(root).parts + parts)
  {
    var m := Meaning(false, parts);
    if root == [] {
      JoinedToEmpty(m);
      assert [] + parts == parts;
    } else {
      JoinedUnderRoot(root, m);
    }
  }

  lemma PrintedComponents(m: Meaning)
    requires Cleaned(m) && (m.rooted || m.parts != [])
    ensures Components(Print(m))
            == (if m.rooted then [[]] else []) + (if m.parts == [] then [[]] else m.parts)
  {
    if m.parts != [] {
      ComponentsJoined(m.parts);
    }
    if m.rooted {
      assert ([SLASH] + JoinParts(m.parts))[1..] == JoinParts(m.parts);
    }
  }

  /** The path stays under the root: it is the root's path followed by normal components. */
  predicate Under(root: Bytes, path: Bytes) {
    var r, p := MeaningOf(root), MeaningOf(path);
    p.rooted == r.rooted && r.parts <= p.parts && AllNormal(p.parts[|r.parts|..])
  }

  /**
   * Whatever the object path and the root: what a disk opens is under its root exactly if the root is not empty
   * or the path does not begin with two slashes of either kind.
   */
  lemma OpenPathContained(root: Bytes, objectPath: Bytes)
    requires OpenPath(root, objectPath).Path?
    ensures Under(root, OpenPath(root, objectPath).path) <==> root != [] || !([SLASH, SLASH] <= Slashed(objectPath))
  {
    AcceptedIsNormal(objectPath);
    var m := MeaningOf(TrimSlash(Slashed(objectPath)));
    MeaningIsCleaned(TrimSlash(Slashed(objectPath)));
    var r := MeaningOf(root).parts;
    if root == [] {
      JoinedToEmpty(m);
      assert m.rooted <==> [SLASH, SLASH] <= Slashed(objectPath);
    } else {
      JoinedUnderRoot(root, m);
      assert (r + m.parts)[|r|..] == m.parts;
    }
  }

  /** A disk without a root directory opens an absolute path for "//e". */
  lemma EmptyRootEscapes()
    ensures OpenPath([], [SLASH, SLASH, 101]) == Path([SLASH, 101])
    ensures !Under([], [SLASH, 101])
  {
    var input: Bytes, m := [SLASH, SLASH, 101], Meaning(true, [[101]]);
    assert [SLASH, 101][1..] == [101] && [SLASH] + [101] == [SLASH, 101];
    ComponentsPlain([101]);
    WalkConcat([], true, [[]], [[101]]);
    WalkEmpties([], true, [[]]);
    WalkNormal([], true, [[101]]);
    NoBackslash(input);
    assert TrimSlash(input) == [SLASH, 101];
    assert MeaningOf([SLASH, 101]) == m;
    StartsUp(m);
    PrintsHere(m);
    WalkEmpties([], false, [[]]);
  }

  /** Cutting a cleaned path at its first slash separates the first component from the rest. */
  lemma SplitIs(m: Meaning)
    requires Cleaned(m) && AllNormal(m.parts) && (m.rooted || m.parts != [])
    ensures SplitDiskPath(Print(m))
            == if m.rooted || |m.parts| == 1 then None else Some((m.parts[0], JoinParts(m.parts[1..])))
  {
    var printed := Print(m);
    if !m.rooted {
      FirstSlashAt(m.parts[0], if |m.parts| == 1 then [] else [SLASH] + JoinParts(m.parts[1..]));
      if |m.parts| > 1 {
        assert printed == m.parts[0] + ([SLASH] + JoinParts(m.parts[1..]));
        JoinedStart(m.parts[1..]);
      } else {
        assert printed == m.parts[0] + [];
      }
    }
  }

  lemma {:induction false} FirstSlashAt(first: Bytes, rest: Bytes)
    requires SLASH !in first && (rest == [] || rest[0] == SLASH)
    ensures FirstSlash(first + rest) == |first|
  {
    if first == [] {
      assert first + rest == rest;
    } else {
      FirstSlashAt(first[1..], rest);
      assert (first + rest)[1..] == first[1..] + rest;
    }
  }

  /**
   * What the manager opens, for every public path: under the root of the disk that the first component names,
   * the other components; otherwise under the root of the default disk, all of them. The second cleaning drops the
   * slash that the first one kept, so this holds for empty roots too; it refuses only "//".
   */
  lemma OpensUnderChosenRoot(m: Manager, publicPath: Bytes)
    requires CleanObjectPath(publicPath).Some?
    ensures var Meaning(rooted, parts) := MeaningOf(CleanObjectPath(publicPath).value);
            var outcome := OpenPublicPath(m, publicPath);
            && AllNormal(parts)
            && if !rooted && |parts| > 1 && parts[0] in m.disks then
                 var root := m.disks[parts[0]];
                 outcome.Path? && MeaningOf(outcome.path) == Meaning(Rooted(root), MeaningOf(root).parts + parts[1..])
               else if m.defaultDisk !in m.disks then outcome == DiskNotFound
               else if parts == [] then outcome == InvalidPath
               else
                 var root := m.disks[m.defaultDisk];
                 outcome.Path? && MeaningOf(outcome.path) == Meaning(Rooted(root), MeaningOf(root).parts + parts)
  {
    var cleaned := CleanObjectPath(publicPath).value;
    var whole := MeaningOf(cleaned);
    AcceptedIsNormal(publicPath);
    CleanedNoBackslash(publicPath);
    SplitIs(whole);
    if !whole.rooted && |whole.parts| > 1 && whole.parts[0] in m.disks {
      var rest := whole.parts[1..];
      assert forall b :: b in JoinParts(rest) ==> b in cleaned;
      CleanPlain(rest);
      JoinedRelative(m.disks[whole.parts[0]], rest);
    } else if m.defaultDisk in m.disks {
      CleanedAgain(publicPath);
      if whole.parts != [] {
        JoinedRelative(m.disks[m.defaultDisk], whole.parts);
      }
    }
  }
}
