/** Character classes and string operations of JavaScript that the engine and
    the board widget rely on: `split`, `join`, `Number`, decimal printing, the
    regular-expression classes `\d`, `\w`, `\s`, and ASCII case mapping. */
module Text {

  predicate IsDigit(c: char) { '0' <= c <= '9' }

  function DigitValue(c: char): (d: nat)
    requires IsDigit(c)
    ensures d < 10
  {
    (c as int - '0' as int) as nat
  }

  function DigitChar(d: nat): (c: char)
    requires d < 10
    ensures IsDigit(c) && DigitValue(c) == d
  {
    (d + '0' as int) as char
  }

  /** The regular-expression class `\w`. */
  predicate IsWordChar(c: char) {
    ('a' <= c <= 'z') || ('A' <= c <= 'Z') || IsDigit(c) || c == '_'
  }

  /** The regular-expression class `\s` (white space and line terminators),
      which is also the set of characters `Number` ignores. */
  predicate IsSpace(c: char) {
    c in {'\t', '\n', '\U{0B}', '\U{0C}', '\r', ' ', '\U{A0}', '\U{1680}', '\U{2028}',
          '\U{2029}', '\U{202F}', '\U{205F}', '\U{3000}', '\U{FEFF}'}
    || ('\U{2000}' <= c <= '\U{200A}')
  }

  predicate IsUpper(c: char) { 'A' <= c <= 'Z' }
  predicate IsLower(c: char) { 'a' <= c <= 'z' }

  /** `toUpperCase` restricted to ASCII letters. */
  function ToUpper(c: char): (u: char)
    ensures IsLower(c) ==> IsUpper(u)
    ensures !IsLower(c) ==> u == c
  {
    if IsLower(c) then (c as int - 32) as char else c
  }

  /** `toLowerCase` restricted to ASCII letters. */
  function ToLower(c: char): (l: char)
    ensures IsUpper(c) ==> IsLower(l)
    ensures !IsUpper(c) ==> l == c
  {
    if IsUpper(c) then (c as int + 32) as char else c
  }

  lemma CaseRoundTrip(c: char)
    ensures IsUpper(c) ==> ToUpper(ToLower(c)) == c
    ensures IsLower(c) ==> ToLower(ToUpper(c)) == c
  {
  }

  predicate AllDigits(s: string) {
    |s| > 0 && forall i | 0 <= i < |s| :: IsDigit(s[i])
  }

  /** `Number(s)` for a string of decimal digits. */
  function ParseDecimal(s: string): nat
    requires forall i | 0 <= i < |s| :: IsDigit(s[i])
  {
    if |s| == 0 then 0 else ParseDecimal(s[..|s| - 1]) * 10 + DigitValue(s[|s| - 1])
  }

  /** 2^53: every integer below it is a JavaScript number exactly, and
      prints in plain digits (the exponent form starts at 10^21). */
  const ExactLimit: nat := 0x20_0000_0000_0000

  /** The plain decimal text of a non-negative integer: what a template
      literal prints for an integer below 10^21; from 10^21 on JavaScript
      prints an exponent form instead, which this does not model. */
  function Decimal(n: nat): (s: string)
    ensures |s| > 0
  {
    if n < 10 then [DigitChar(n)] else Decimal(n / 10) + [DigitChar(n % 10)]
  }

  /** Printing a counter and reading it back gives the counter. */
  lemma {:induction false} DecimalRoundTrip(n: nat)
    ensures AllDigits(Decimal(n))
    ensures ParseDecimal(Decimal(n)) == n
  {
    if n >= 10 {
      DecimalRoundTrip(n / 10);
      var s := Decimal(n);
      assert s[..|s| - 1] == Decimal(n / 10);
    }
  }

  /** `10^k`. */
  function Power10(k: nat): (p: nat)
    ensures p >= 1
  {
    if k == 0 then 1 else 10 * Power10(k - 1)
  }

  /** `10^(a+b) = 10^a * 10^b`. */
  lemma {:induction false} Power10Split(a: nat, b: nat)
    ensures Power10(a + b) == Power10(a) * Power10(b)
  {
    if b > 0 {
      Power10Split(a, b - 1);
      assert Power10(a + b) == 10 * Power10(a + b - 1);
    }
  }

  /** A number below `10^k` prints in at most `k` digits (one at least). */
  lemma {:induction false} DecimalWidth(n: nat, k: nat)
    requires k >= 1 && n < Power10(k)
    ensures |Decimal(n)| <= k
  {
    if n >= 10 {
      assert k >= 2;
      DecimalWidth(n / 10, k - 1);
    }
  }

  /** A number below 2^53 prints in at most 16 digits, well short of the
      22 digits of 10^21 from which JavaScript switches to an exponent. */
  lemma ExactDecimalShort(n: nat)
    requires n < ExactLimit
    ensures |Decimal(n)| <= 16
  {
    assert Power10(16) == 10000000000000000 by {
      assert Power10(4) == 10000;
      assert Power10(8) == 10000 * Power10(4) by { Power10Split(4, 4); }
      assert Power10(12) == 10000 * Power10(8) by { Power10Split(8, 4); }
      assert Power10(16) == 10000 * Power10(12) by { Power10Split(12, 4); }
    }
    DecimalWidth(n, 16);
  }

  /** `s.split(sep)` where every character of `seps` separates fields (a
      one-character separator, or a one-character regular-expression
      alternative). There is always at least one field. */
  function Split(s: string, seps: set<char>): (r: seq<string>)
    ensures |r| >= 1
    ensures |r| == 1 + Occurrences(s, seps)
  {
    if |s| == 0 then [""]
    else if s[0] in seps then [""] + Split(s[1..], seps)
    else
      var rest := Split(s[1..], seps);
      [[s[0]] + rest[0]] + rest[1..]
  }

  /** How many characters of `s` belong to `cs`. */
  function Occurrences(s: string, cs: set<char>): nat {
    if |s| == 0 then 0 else (if s[0] in cs then 1 else 0) + Occurrences(s[1..], cs)
  }

  lemma OccurrencesAppend(a: string, b: string, cs: set<char>)
    ensures Occurrences(a + b, cs) == Occurrences(a, cs) + Occurrences(b, cs)
  {
    if |a| > 0 {
      assert (a + b)[1..] == a[1..] + b;
      assert (a + b)[0] == a[0];
      OccurrencesAppend(a[1..], b, cs);
    } else {
      assert a + b == b;
    }
  }

  /** `parts.join(sep)`. */
  function Join(parts: seq<string>, sep: char): string
    requires |parts| >= 1
  {
    if |parts| == 1 then parts[0] else parts[0] + [sep] + Join(parts[1..], sep)
  }

  predicate Free(s: string, c: char) {
    forall i | 0 <= i < |s| :: s[i] != c
  }

  /** No character of `s` belongs to `cs`. */
  predicate Avoids(s: string, cs: set<char>) {
    forall i | 0 <= i < |s| :: s[i] !in cs
  }

  lemma {:induction false} SplitAvoiding(p: string, seps: set<char>)
    requires Avoids(p, seps)
    ensures Split(p, seps) == [p]
  {
    if |p| > 0 {
      SplitAvoiding(p[1..], seps);
      assert [p[0]] + p[1..] == p;
    }
  }

  lemma {:induction false} SplitAfter(p: string, sep: char, rest: string, seps: set<char>)
    requires sep in seps && Avoids(p, seps)
    ensures Split(p + [sep] + rest, seps) == [p] + Split(rest, seps)
  {
    if |p| == 0 {
      assert p + [sep] + rest == [sep] + rest;
      assert ([sep] + rest)[1..] == rest;
    } else {
      SplitAfter(p[1..], sep, rest, seps);
      assert (p + [sep] + rest)[1..] == p[1..] + [sep] + rest;
      assert [p[0]] + p[1..] == p;
    }
  }

  /** Splitting a join at a set of separators, which holds the joining
      one and none of the parts' characters, gives back the parts. */
  lemma {:induction false} SplitJoinAmong(parts: seq<string>, sep: char, seps: set<char>)
    requires |parts| >= 1 && sep in seps
    requires forall k | 0 <= k < |parts| :: Avoids(parts[k], seps)
    ensures Split(Join(parts, sep), seps) == parts
  {
    if |parts| == 1 {
      SplitAvoiding(parts[0], seps);
    } else {
      SplitJoinAmong(parts[1..], sep, seps);
      SplitAfter(parts[0], sep, Join(parts[1..], sep), seps);
      assert [parts[0]] + parts[1..] == parts;
    }
  }

  /** Splitting a join on a separator that no part contains gives back the parts. */
  lemma SplitJoin(parts: seq<string>, sep: char)
    requires |parts| >= 1
    requires forall k | 0 <= k < |parts| :: Free(parts[k], sep)
    ensures Split(Join(parts, sep), {sep}) == parts
  {
    forall k | 0 <= k < |parts| ensures Avoids(parts[k], {sep}) {
      assert Free(parts[k], sep);
    }
    SplitJoinAmong(parts, sep, {sep});
  }

  /** A string that starts with `prefix`. */
  predicate StartsWith(s: string, c: char) { |s| > 0 && s[0] == c }

  predicate Contains(s: string, c: char) { exists i | 0 <= i < |s| :: s[i] == c }

  /** Removal of leading and trailing white space, as the two `replace`
      calls with anchored `\s*` patterns do. */
  function Trim(s: string): (t: string)
    ensures |t| > 0 ==> !IsSpace(t[0]) && !IsSpace(t[|t| - 1])
    ensures |s| > 0 && !IsSpace(s[0]) && !IsSpace(s[|s| - 1]) ==> t == s
    ensures exists i :: Padded(s, t, i)
  {
    var u := TrimStart(s);
    var t := TrimEnd(u);
    TrimPadded(s, u, t);
    t
  }

  /** `t` is the slice of `s` from `i`, with only white space around it. */
  predicate Padded(s: string, t: string, i: int) {
    && 0 <= i <= |s| - |t|
    && t == s[i..i + |t|]
    && (forall k | 0 <= k < i :: IsSpace(s[k]))
    && (forall k | i + |t| <= k < |s| :: IsSpace(s[k]))
  }

  /** A suffix of `s` with only white space before it, cut to a prefix
      with only white space after it, is a padded slice of `s`. */
  lemma TrimPadded(s: string, u: string, t: string)
    requires |u| <= |s| && u == s[|s| - |u|..] && forall k | 0 <= k < |s| - |u| :: IsSpace(s[k])
    requires |t| <= |u| && t == u[..|t|] && forall k | |t| <= k < |u| :: IsSpace(u[k])
    ensures Padded(s, t, |s| - |u|)
  {
    var i := |s| - |u|;
    forall k | i + |t| <= k < |s| ensures IsSpace(s[k]) {
      assert s[k] == u[k - i];
    }
  }

  function TrimStart(s: string): (t: string)
    ensures |t| > 0 ==> !IsSpace(t[0])
    ensures |s| > 0 && !IsSpace(s[0]) ==> t == s
    ensures |t| <= |s| && t == s[|s| - |t|..]
    ensures forall k | 0 <= k < |s| - |t| :: IsSpace(s[k])
    decreases |s|
  {
    if |s| > 0 && IsSpace(s[0]) then TrimStart(s[1..]) else s
  }

  function TrimEnd(s: string): (t: string)
    ensures |t| > 0 ==> !IsSpace(t[|t| - 1])
    ensures |s| > 0 && !IsSpace(s[|s| - 1]) ==> t == s
    ensures |t| <= |s| && t == s[..|t|]
    ensures forall k | |t| <= k < |s| :: IsSpace(s[k])
    decreases |s|
  {
    if |s| > 0 && IsSpace(s[|s| - 1]) then TrimEnd(s[..|s| - 1]) else s
  }
}
