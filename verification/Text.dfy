/** String helpers shared by the key schemes: decimal rendering, `join(':')` and `split(':')`. */
module Text {
  predicate NoColon(s: string) {
    ':' !in s
  }

  function DigitChar(d: nat): (c: char)
    requires d < 10
    ensures '0' <= c <= '9'
  {
    "0123456789"[d]
  }

  /** Decimal rendering of a non-negative integer, as in a template literal. */
  function Decimal(n: nat): (s: string)
    ensures s != "" && forall i :: 0 <= i < |s| ==> '0' <= s[i] <= '9'
  {
    if n < 10 then [DigitChar(n)] else Decimal(n / 10) + [DigitChar(n % 10)]
  }

  lemma DecimalHasNoColon(n: nat)
    ensures NoColon(Decimal(n))
  {
  }

  lemma {:induction false} DecimalInjective(m: nat, n: nat)
    requires Decimal(m) == Decimal(n)
    ensures m == n
  {
    var s := Decimal(m);
    if m < 10 && n < 10 {
    } else if m >= 10 && n >= 10 {
      assert s[..|s| - 1] == Decimal(m / 10) == Decimal(n / 10);
      DecimalInjective(m / 10, n / 10);
      assert s[|s| - 1] == DigitChar(m % 10) == DigitChar(n % 10);
    }
  }

  /** JavaScript's `parts.join(sep)`. */
  function Join(parts: seq<string>, sep: string): string {
    if |parts| == 0 then ""
    else if |parts| == 1 then parts[0]
    else parts[0] + sep + Join(parts[1..], sep)
  }

  /** JavaScript's `s.split(':')`. */
  function SplitColon(s: string): (parts: seq<string>)
    ensures |parts| >= 1
    ensures forall i :: 0 <= i < |parts| ==> NoColon(parts[i])
  {
    if s == "" then [""]
    else
      var rest := SplitColon(s[1..]);
      if s[0] == ':' then [""] + rest
      else [[s[0]] + rest[0]] + rest[1..]
  }

  lemma {:induction false} SplitPrepend(head: string, rest: string)
    requires NoColon(head)
    ensures SplitColon(head + ":" + rest) == [head] + SplitColon(rest)
  {
    var s := head + ":" + rest;
    if head == "" {
      assert s[1..] == rest;
    } else {
      assert s[0] == head[0] && s[1..] == head[1..] + ":" + rest;
      SplitPrepend(head[1..], rest);
      assert [head[0]] + head[1..] == head;
    }
  }

  lemma {:induction false} SplitNoColon(s: string)
    requires NoColon(s)
    ensures SplitColon(s) == [s]
  {
    if s != "" {
      SplitNoColon(s[1..]);
      assert [s[0]] + s[1..] == s;
    }
  }

  /** Splitting undoes joining when no part contains the separator. */
  lemma {:induction false} SplitJoin(parts: seq<string>)
    requires |parts| >= 1
    requires forall i :: 0 <= i < |parts| ==> NoColon(parts[i])
    ensures SplitColon(Join(parts, ":")) == parts
  {
    if |parts| == 1 {
      SplitNoColon(parts[0]);
    } else {
      SplitPrepend(parts[0], Join(parts[1..], ":"));
      SplitJoin(parts[1..]);
    }
  }

  lemma ThreeSegments(a: string, b: string, c: string)
    requires NoColon(a) && NoColon(b) && NoColon(c)
    ensures SplitColon(a + ":" + b + ":" + c) == [a, b, c]
  {
    Regroup(a, ":", b + ":", c);
    Regroup(b, ":", c, "");
    assert a + ":" + (b + ":") == a + ":" + b + ":";
    SplitPrepend(a, b + ":" + c);
    SplitPrepend(b, c);
    SplitNoColon(c);
  }

  lemma FourSegments(a: string, b: string, c: string, d: string)
    requires NoColon(a) && NoColon(b) && NoColon(c) && NoColon(d)
    ensures SplitColon(a + ":" + b + ":" + c + ":" + d) == [a, b, c, d]
  {
    var rest := b + ":" + c + ":" + d;
    ThreeSegments(b, c, d);
    SplitPrepend(a, rest);
    RegroupFour(a, ":", b, c, d);
  }

  lemma Regroup(a: string, sep: string, b: string, c: string)
    ensures a + sep + b + c == a + sep + (b + c)
  {
  }

  lemma RegroupFour(a: string, sep: string, b: string, c: string, d: string)
    ensures a + sep + b + sep + c + sep + d == a + sep + (b + sep + c + sep + d)
  {
  }
}
