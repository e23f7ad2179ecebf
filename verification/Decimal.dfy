/** The decimal integers of strconv: FormatInt(n, 10) and ParseInt(s, 10, 64), which Atoi equals on 64-bit machines. */
module Decimal {
  import opened Basics

  const PLUS: byte := 43
  const MINUS: byte := 45

  datatype NumberError = Syntax | Range
  datatype ParsedInt = Parsed(value: int64) | Rejected(error: NumberError, clamped: int64)

  // ---------- formatting ----------

  function Digit(d: nat): byte
    requires d < 10
  {
    (48 + d) as byte
  }

  function FormatNat(n: nat): (s: Bytes)
    ensures s != []
  {
    if n < 10 then [Digit(n)] else FormatNat(n / 10) + [Digit(n % 10)]
  }

  function Magnitude(n: int): nat {
    if n < 0 then -n else n
  }

  function FormatInt(n: int64): (s: Bytes)
    ensures s != []
  {
    if n < 0 then [MINUS] + FormatNat(Magnitude(n)) else FormatNat(Magnitude(n))
  }

  // ---------- parsing ----------

  datatype Scan = Scanned(n: nat) | Malformed | TooBig

  predicate IsDigit(b: byte) {
    48 <= b <= 57
  }

  /** The digit loop of ParseUint: a bad byte is a syntax error, but only if no overflow came before it. */
  function ScanDigits(s: Bytes, n: nat): Scan
    decreases |s|
  {
    if s == [] then Scanned(n)
    else if !IsDigit(s[0]) then Malformed
    else if 10 * n + (s[0] as int - 48) > MAX_UINT64 then TooBig
    else ScanDigits(s[1..], 10 * n + (s[0] as int - 48))
  }

  function ParseInt(s: Bytes): ParsedInt {
    if s == [] then Rejected(Syntax, 0)
    else
      var negative := s[0] == MINUS;
      var digits := if s[0] == MINUS || s[0] == PLUS then s[1..] else s;
      if digits == [] then Rejected(Syntax, 0)
      else match ScanDigits(digits, 0)
           case Malformed => Rejected(Syntax, 0)
           case TooBig => Rejected(Range, if negative then MIN_INT64 else MAX_INT64)
           case Scanned(n) =>
             if negative then
               if n <= 0x8000_0000_0000_0000 then Parsed(0 - n as int) else Rejected(Range, MIN_INT64)
             else
               if n <= MAX_INT64 then Parsed(n) else Rejected(Range, MAX_INT64)
  }

  // ---------- properties ----------

  /** Scanning the digits of n from zero arrives at n, whatever follows. */
  lemma {:induction false} ScanFormatted(n: nat, tail: Bytes)
    requires n <= MAX_UINT64
    ensures ScanDigits(FormatNat(n) + tail, 0) == ScanDigits(tail, n)
    decreases n
  {
    var last := [Digit(n % 10)];
    assert (last + tail)[1..] == tail;
    if n < 10 {
      assert FormatNat(n) == last;
    } else {
      ScanFormatted(n / 10, last + tail);
      assert FormatNat(n) + tail == FormatNat(n / 10) + (last + tail);
    }
  }

  lemma {:induction false} FormatNatDigits(n: nat)
    ensures forall i :: 0 <= i < |FormatNat(n)| ==> IsDigit(FormatNat(n)[i])
    decreases n
  {
    if n >= 10 {
      FormatNatDigits(n / 10);
    }
  }

  /** ParseInt inverts FormatInt on every int64. */
  lemma ParseFormat(n: int64)
    ensures ParseInt(FormatInt(n)) == Parsed(n)
  {
    var m := Magnitude(n);
    FormatNatDigits(m);
    ScanFormatted(m, []);
    assert FormatNat(m) + [] == FormatNat(m);
    assert IsDigit(FormatNat(m)[0]);
  }

  /** The number that decimal digits stand for. */
  function ValueOf(digits: Bytes): nat
    requires forall i :: 0 <= i < |digits| ==> 48 <= digits[i] <= 57
  {
    if digits == [] then 0
    else 10 * ValueOf(digits[..|digits| - 1]) + (digits[|digits| - 1] as int - 48)
  }

  predicate AllDigits(s: Bytes) {
    forall i :: 0 <= i < |s| ==> 48 <= s[i] <= 57
  }

  /** The digit loop, with `done` behind it. */
  lemma {:induction false} ScanIs(done: Bytes, s: Bytes)
    requires AllDigits(done) && ValueOf(done) <= MAX_UINT64
    ensures ScanDigits(s, ValueOf(done)).Scanned? <==> AllDigits(s) && ValueOf(done + s) <= MAX_UINT64
    ensures ScanDigits(s, ValueOf(done)).Scanned? ==> ScanDigits(s, ValueOf(done)).n == ValueOf(done + s)
    decreases |s|
  {
    if s == [] {
      assert done + s == done;
    } else if IsDigit(s[0]) {
      var more := done + [s[0]];
      assert more[..|more| - 1] == done;
      assert done + s == more + s[1..];
      assert AllDigits(s) <==> AllDigits(s[1..]) by {
        assert forall i :: 0 < i < |s| ==> s[i] == s[1..][i - 1];
      }
      if ValueOf(more) <= MAX_UINT64 {
        ScanIs(more, s[1..]);
      } else if AllDigits(s) {
        ValueGrows(more, s[1..]);
      }
    } else {
      assert !AllDigits(s);
    }
  }

  lemma {:induction false} ValueGrows(a: Bytes, b: Bytes)
    requires AllDigits(a) && AllDigits(b)
    ensures AllDigits(a + b) && ValueOf(a) <= ValueOf(a + b)
    decreases |b|
  {
    if b == [] {
      assert a + b == a;
    } else {
      ValueGrows(a, b[..|b| - 1]);
      assert (a + b)[..|a + b| - 1] == a + b[..|b| - 1];
    }
  }

  /** An optional sign, digits, and the number they stand for. */
  predicate Spells(s: Bytes, sign: Bytes, n: int) {
    && sign in {[], [43], [45]} && sign < s && AllDigits(s[|sign|..])
    && n == if sign == [45] then 0 - ValueOf(s[|sign|..]) as int else ValueOf(s[|sign|..])
  }

  /** ParseInt accepts exactly the spellings of the int64 numbers. */
  lemma ParsedIff(s: Bytes, n: int64)
    ensures ParseInt(s) == Parsed(n) <==> exists sign :: Spells(s, sign, n)
  {
    if s != [] {
      var sign: Bytes := if s[0] == MINUS || s[0] == PLUS then [s[0]] else [];
      ParsedSpells(s, sign, n);
      if other :| Spells(s, other, n) {
        SignIs(s, other);
      }
    }
  }

  /** The same for the sign that the text has. */
  lemma ParsedSpells(s: Bytes, sign: Bytes, n: int64)
    requires s != [] && sign == if s[0] == MINUS || s[0] == PLUS then [s[0]] else []
    ensures ParseInt(s) == Parsed(n) <==> Spells(s, sign, n)
  {
    hide ScanDigits, ValueOf;
    var digits := s[|sign|..];
    assert sign <= s;
    NoValue();
    ScanIs([], digits);
    assert [] + digits == digits;
  }

  lemma NoValue()
    ensures ValueOf([]) == 0
  {
  }

  lemma SignIs(s: Bytes, sign: Bytes)
    requires sign in {[], [43], [45]} && sign < s && AllDigits(s[|sign|..])
    ensures sign == if s[0] == 43 || s[0] == 45 then [s[0]] else []
  {
    assert sign == [] ==> s[|sign|..][0] == s[0];
  }

  lemma {:induction false} DigitsAreFine(s: Bytes, n: nat)
    requires AllDigits(s)
    ensures !ScanDigits(s, n).Malformed?
    decreases |s|
  {
    if s != [] {
      DigitsAreFine(s[1..], 10 * n + (s[0] as int - 48));
    }
  }

  /** A number beyond the int64 range is rejected with the end of the range that it passed. */
  lemma BeyondRange(s: Bytes, sign: Bytes, n: int)
    requires Spells(s, sign, n) && (n > MAX_INT64 || n < MIN_INT64)
    ensures ParseInt(s) == Rejected(Range, if n > 0 then 0x7fff_ffff_ffff_ffff else -0x8000_0000_0000_0000)
  {
    hide ScanDigits, ValueOf;
    var digits := s[|sign|..];
    SignIs(s, sign);
    NoValue();
    ScanIs([], digits);
    assert [] + digits == digits;
    DigitsAreFine(digits, 0);
  }

  /** A formatted number stands for itself. */
  lemma {:induction false} FormatNatValue(n: nat)
    ensures AllDigits(FormatNat(n)) && ValueOf(FormatNat(n)) == n
    decreases n
  {
    if n >= 10 {
      FormatNatValue(n / 10);
      assert FormatNat(n)[..|FormatNat(n)| - 1] == FormatNat(n / 10);
    } else {
      assert FormatNat(n)[..0] == [];
    }
  }

  /** No leading zero is written. */
  lemma {:induction false} FormatNatCanonical(n: nat)
    ensures FormatNat(n)[0] == 48 <==> n == 0
    ensures n == 0 ==> |FormatNat(n)| == 1
    decreases n
  {
    if n >= 10 {
      FormatNatCanonical(n / 10);
    }
  }

  /** An integer is written with a minus sign exactly if it is negative, and the digits of its size, without leading zeros. */
  lemma FormatIntIs(n: int64)
    ensures var digits := if n < 0 then FormatInt(n)[1..] else FormatInt(n);
            && (n < 0 ==> FormatInt(n)[0] == 45)
            && AllDigits(digits) && (if n < 0 then n + ValueOf(digits) == 0 else n == ValueOf(digits))
            && digits != [] && (digits[0] == 48 ==> digits == [48])
  {
    FormatNatValue(Magnitude(n));
    FormatNatCanonical(Magnitude(n));
  }

  /** A formatted integer is made of digits and a minus sign, so it never contains a line break. */
  lemma FormatIntBytes(n: int64)
    ensures forall b :: b in FormatInt(n) ==> b == MINUS || IsDigit(b)
  {
    FormatNatDigits(Magnitude(n));
  }
}
