/** Redis keys and values of the refresh-token allowlist (src/modules/auth/token.service.ts). */
module TokenKeys {
  import opened Common
  import opened Text

  function RtKey(jti: string): string { "rt:" + jti }

  function RtFamilyKey(familyId: string, jti: string): string { "rt-family:" + familyId + ":" + jti }

  function RtFamilyActiveKey(familyId: string): string { "rt-family-active:" + familyId }

  /** The value stored for a live token. */
  function EntryValue(userId: string, familyId: string): string { userId + ":" + familyId }

  /** The family named by a stored value, as the destructuring of its `split(':')` reads it. */
  function FamilyOf(value: string): Option<string> {
    var parts := SplitColon(value);
    if |parts| >= 2 then Some(parts[1]) else None
  }

  /** The test of a stored value against the claimed user and family. */
  predicate Matches(value: string, userId: string, familyId: string) {
    var parts := SplitColon(value);
    parts[0] == userId && |parts| >= 2 && parts[1] == familyId
  }

  /** A value written for colon-free ids splits back into exactly those ids. */
  lemma EntryValueSplits(userId: string, familyId: string)
    requires NoColon(userId) && NoColon(familyId)
    ensures SplitColon(EntryValue(userId, familyId)) == [userId, familyId]
  {
    SplitPrepend(userId, familyId);
    SplitNoColon(familyId);
  }

  /** So it matches one user and one family only, and never reads as an empty (falsy) string. */
  lemma EntryValueMatches(userId: string, familyId: string, u: string, f: string)
    requires NoColon(userId) && NoColon(familyId)
    ensures Matches(EntryValue(userId, familyId), u, f) <==> u == userId && f == familyId
    ensures FamilyOf(EntryValue(userId, familyId)) == Some(familyId)
    ensures EntryValue(userId, familyId) != ""
  {
    EntryValueSplits(userId, familyId);
  }

  /** The three kinds of keys never meet, and each determines its ids. */
  lemma KeysInjective(f: string, j: string, f': string, j': string)
    requires NoColon(f) && NoColon(j) && NoColon(f') && NoColon(j')
    ensures RtKey(j) == RtKey(j') ==> j == j'
    ensures RtFamilyKey(f, j) == RtFamilyKey(f', j') ==> f == f' && j == j'
    ensures RtFamilyActiveKey(f) == RtFamilyActiveKey(f') ==> f == f'
    ensures RtKey(j) != RtFamilyKey(f', j') && RtKey(j) != RtFamilyActiveKey(f')
    ensures RtFamilyKey(f, j) != RtFamilyActiveKey(f')
  {
    MarkerSplits(f, j);
    MarkerSplits(f', j');
    assert RtKey(j)[2] == ':' && RtFamilyKey(f', j')[2] == '-' && RtFamilyActiveKey(f')[2] == '-';
    assert RtFamilyKey(f, j)[9] == ':' && RtFamilyActiveKey(f')[9] == '-';
    assert RtKey(j)[3..] == j && RtKey(j')[3..] == j';
    assert RtFamilyActiveKey(f)[17..] == f && RtFamilyActiveKey(f')[17..] == f';
    assert RtFamilyKey(f, j)[10..] == f + ":" + j && RtFamilyKey(f', j')[10..] == f' + ":" + j';
  }

  lemma MarkerSplits(f: string, j: string)
    requires NoColon(f) && NoColon(j)
    ensures SplitColon(f + ":" + j) == [f, j]
  {
    SplitPrepend(f, j);
    SplitNoColon(j);
  }

  // ---------------------------------------------------------------- durations

  predicate IsDigit(c: char) { '0' <= c <= '9' }

  predicate AllDigits(s: string) { forall c <- s :: IsDigit(c) }

  function DigitValue(c: char): nat
    requires IsDigit(c)
  {
    c as int - '0' as int
  }

  function ParseInt(s: string): nat
    requires AllDigits(s)
  {
    if s == "" then 0 else 10 * ParseInt(s[..|s| - 1]) + DigitValue(s[|s| - 1])
  }

  function UnitSeconds(unit: char): Option<nat> {
    match unit
    case 's' => Some(1)
    case 'm' => Some(60)
    case 'h' => Some(3600)
    case 'd' => Some(86400)
    case _ => None
  }

  /** `parseDurationToSeconds`; None stands for the thrown error. */
  function ParseDuration(s: string): Option<nat> {
    if |s| < 2 || !AllDigits(s[..|s| - 1]) || UnitSeconds(s[|s| - 1]).None? then None
    else Some(ParseInt(s[..|s| - 1]) * UnitSeconds(s[|s| - 1]).value)
  }

  lemma {:induction false} ParseDecimal(n: nat)
    ensures AllDigits(Decimal(n)) && ParseInt(Decimal(n)) == n
  {
    var s := Decimal(n);
    assert s != "";
    if n < 10 {
      assert s == [DigitChar(n)] && s[..0] == "";
      assert DigitValue(DigitChar(n)) == n;
    } else {
      ParseDecimal(n / 10);
      assert s[..|s| - 1] == Decimal(n / 10) && s[|s| - 1] == DigitChar(n % 10);
      assert DigitValue(DigitChar(n % 10)) == n % 10;
    }
  }

  lemma ParsesTo(digits: string, n: nat, unit: char)
    requires digits != "" && AllDigits(digits) && ParseInt(digits) == n
    ensures ParseDuration(digits + [unit])
         == match unit
            case 's' => Some(n)
            case 'm' => Some(60 * n)
            case 'h' => Some(3600 * n)
            case 'd' => Some(86400 * n)
            case _ => None
  {
    var s := digits + [unit];
    assert s[..|s| - 1] == digits;
  }

  function Zeros(k: nat): string {
    seq(k, i => '0')
  }

  lemma DigitOfValue(c: char)
    requires IsDigit(c)
    ensures DigitChar(DigitValue(c)) == c
  {
  }

  lemma DecimalStep(n: nat, d: nat)
    requires n > 0 && d < 10
    ensures Decimal(10 * n + d) == Decimal(n) + [DigitChar(d)]
  {
    assert (10 * n + d) / 10 == n && (10 * n + d) % 10 == d;
  }

  lemma DecimalDigit(d: nat)
    requires d < 10
    ensures Decimal(d) == [DigitChar(d)]
  {
  }

  /** Digits are leading zeros and a rendered number, which is their value. */
  lemma {:induction false} DigitsAreNumber(digits: string) returns (k: nat)
    requires digits != "" && AllDigits(digits)
    ensures digits == Zeros(k) + Decimal(ParseInt(digits))
  {
    var front, c := digits[..|digits| - 1], digits[|digits| - 1];
    assert digits == front + [c];
    if front == "" {
      k := 0;
      DigitOfValue(c);
      DecimalDigit(DigitValue(c));
    } else {
      k := DigitsAreNumber(front);
      k := NextDigit(front, k, ParseInt(front), c);
    }
  }

  lemma NextDigit(front: string, k: nat, n: nat, c: char) returns (k': nat)
    requires front == Zeros(k) + Decimal(n) && IsDigit(c)
    ensures front + [c] == Zeros(k') + Decimal(10 * n + DigitValue(c))
  {
    DigitOfValue(c);
    if n == 0 {
      DecimalDigit(0);
      DecimalDigit(DigitValue(c));
      assert Zeros(k) + ['0'] == Zeros(k + 1);
      k' := k + 1;
    } else {
      DecimalStep(n, DigitValue(c));
      assert Zeros(k) + Decimal(n) + [c] == Zeros(k) + (Decimal(n) + [c]);
      k' := k;
    }
  }

  lemma {:induction false} LeadingZeros(k: nat, digits: string)
    requires digits != "" && AllDigits(digits)
    ensures AllDigits(Zeros(k) + digits) && ParseInt(Zeros(k) + digits) == ParseInt(digits)
    decreases |digits|
  {
    var s := Zeros(k) + digits;
    var front := digits[..|digits| - 1];
    assert s[..|s| - 1] == Zeros(k) + front;
    if front == "" {
      ZerosAreZero(k);
      assert s[..|s| - 1] == Zeros(k);
    } else {
      LeadingZeros(k, front);
    }
  }

  lemma {:induction false} ZerosAreZero(k: nat)
    ensures AllDigits(Zeros(k)) && ParseInt(Zeros(k)) == 0
  {
    if k > 0 {
      ZerosAreZero(k - 1);
      assert Zeros(k)[..k - 1] == Zeros(k - 1);
    }
  }

  /** `s` is a number, possibly with leading zeros, followed by a unit, and stands for that many seconds. */
  ghost predicate Denotes(s: string, seconds: nat) {
    exists k: nat, n: nat, unit: char ::
      s == Zeros(k) + Decimal(n) + [unit] && UnitSeconds(unit).Some? && seconds == n * UnitSeconds(unit).value
  }

  /** A duration string is accepted exactly when it is a number and a unit, and read as what it denotes. */
  lemma DurationExact(s: string, seconds: nat)
    ensures ParseDuration(s) == Some(seconds) <==> Denotes(s, seconds)
  {
    if ParseDuration(s) == Some(seconds) {
      var digits, unit := s[..|s| - 1], s[|s| - 1];
      var k := DigitsAreNumber(digits);
      assert s == Zeros(k) + Decimal(ParseInt(digits)) + [unit];
    }
    if Denotes(s, seconds) {
      var k: nat, n: nat, unit: char :|
        s == Zeros(k) + Decimal(n) + [unit] && UnitSeconds(unit).Some? && seconds == n * UnitSeconds(unit).value;
      DenotedIsParsed(k, n, unit);
    }
  }

  lemma DenotedIsParsed(k: nat, n: nat, unit: char)
    requires UnitSeconds(unit).Some?
    ensures ParseDuration(Zeros(k) + Decimal(n) + [unit]) == Some(n * UnitSeconds(unit).value)
  {
    ParseDecimal(n);
    LeadingZeros(k, Decimal(n));
    ParsesTo(Zeros(k) + Decimal(n), n, unit);
  }

  /** Every rendered duration reads back as its number of seconds; other units are refused. */
  lemma DurationRoundTrip(n: nat, unit: char)
    ensures ParseDuration(Decimal(n) + [unit])
         == match unit
            case 's' => Some(n)
            case 'm' => Some(60 * n)
            case 'h' => Some(3600 * n)
            case 'd' => Some(86400 * n)
            case _ => None
  {
    ParseDecimal(n);
    ParsesTo(Decimal(n), n, unit);
  }
}
