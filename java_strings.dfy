/** The parts of java.lang.String, java.lang.Integer and Spring's StringUtils that the
    loaders rely on, stated over Dafny strings. A Dafny character is a Unicode scalar value;
    a Java string holds UTF-16 code units, where a character above U+FFFF takes two. */
module JavaStrings {
  import opened Wrappers

  /** Range of a Java `int`. */
  const INT_MIN: int := -0x8000_0000
  const INT_MAX: int := 0x7fff_ffff

  predicate InIntRange(n: int) { INT_MIN <= n <= INT_MAX }

  // ---------------------------------------------------------------------------
  // String.length(): counts UTF-16 code units.
  // ---------------------------------------------------------------------------

  /** The length Java reports: a character up to U+FFFF is one code unit, one above it is a
      surrogate pair of two. The two counts agree exactly when no character is above U+FFFF. */
  function Utf16Length(s: string): (r: nat)
    ensures |s| <= r <= 2 * |s|
    ensures r == |s| <==> forall i | 0 <= i < |s| :: s[i] <= '\U{FFFF}'
    decreases |s|
  {
    if s == [] then 0
    else
      var rest := Utf16Length(s[1..]);
      assert forall i | 1 <= i < |s| :: s[i] == s[1..][i - 1];
      (if s[0] <= '\U{FFFF}' then 1 else 2) + rest
  }

  // ---------------------------------------------------------------------------
  // String.trim(): strips leading and trailing characters whose code is <= ' '.
  // ---------------------------------------------------------------------------

  predicate IsTrimmed(c: char) { c <= ' ' }

  function TrimLeading(s: string): (r: string)
    ensures |r| <= |s|
    ensures r == s[|s| - |r|..]
    ensures r != [] ==> !IsTrimmed(r[0])
    ensures forall i | 0 <= i < |s| - |r| :: IsTrimmed(s[i])
  {
    if |s| > 0 && IsTrimmed(s[0]) then TrimLeading(s[1..]) else s
  }

  function TrimTrailing(s: string): (r: string)
    ensures |r| <= |s|
    ensures r == s[..|r|]
    ensures r != [] ==> !IsTrimmed(r[|r| - 1])
    ensures forall i | |r| <= i < |s| :: IsTrimmed(s[i])
  {
    if |s| > 0 && IsTrimmed(s[|s| - 1]) then TrimTrailing(s[..|s| - 1]) else s
  }

  /** Java's `s.trim()`: `s` less its leading and trailing characters <= ' '. */
  function Trim(s: string): (r: string)
    ensures |r| <= |s|
    ensures r != [] ==> !IsTrimmed(r[0]) && !IsTrimmed(r[|r| - 1])
    ensures exists i | 0 <= i <= |s| - |r| ::
              && r == s[i..][..|r|]
              && (forall c | c in s[..i] :: IsTrimmed(c))
              && (forall c | c in s[i..][|r|..] :: IsTrimmed(c))
  {
    var t := TrimLeading(s);
    var r := TrimTrailing(t);
    var i := |s| - |t|;
    assert t == s[i..];
    assert forall c | c in s[..i] :: IsTrimmed(c);
    r
  }

  lemma {:induction false} TrimLeadingOfUntrimmed(s: string)
    requires s == [] || !IsTrimmed(s[0])
    ensures TrimLeading(s) == s
  {
  }

  lemma {:induction false} TrimTrailingOfUntrimmed(s: string)
    requires s == [] || !IsTrimmed(s[|s| - 1])
    ensures TrimTrailing(s) == s
  {
  }

  /** A string with no character <= ' ' at either end is its own trim. */
  lemma TrimOfUntrimmed(s: string)
    requires s == [] || (!IsTrimmed(s[0]) && !IsTrimmed(s[|s| - 1]))
    ensures Trim(s) == s
  {
    TrimLeadingOfUntrimmed(s);
    TrimTrailingOfUntrimmed(s);
  }

  /** Trimming a trimmed string changes nothing. */
  lemma {:induction false} TrimIdempotent(s: string)
    ensures Trim(Trim(s)) == Trim(s)
  {
    var r := Trim(s);
    TrimLeadingOfUntrimmed(r);
    TrimTrailingOfUntrimmed(r);
  }

  /** A string trims to "" exactly when every character is <= ' '. */
  lemma {:induction false} TrimEmptyIff(s: string)
    ensures Trim(s) == [] <==> forall i | 0 <= i < |s| :: IsTrimmed(s[i])
  {
    TrimLeadingEmptyIff(s);
    var t := TrimLeading(s);
    if t != [] {
      assert !IsTrimmed(t[0]);
      assert TrimTrailing(t) != [] by { TrimTrailingKeepsHead(t); }
    }
  }

  lemma {:induction false} TrimLeadingEmptyIff(s: string)
    ensures TrimLeading(s) == [] <==> forall i | 0 <= i < |s| :: IsTrimmed(s[i])
    decreases |s|
  {
    if |s| > 0 && IsTrimmed(s[0]) {
      TrimLeadingEmptyIff(s[1..]);
      assert forall i | 1 <= i < |s| :: s[i] == s[1..][i - 1];
    }
  }

  lemma {:induction false} TrimTrailingKeepsHead(t: string)
    requires t != [] && !IsTrimmed(t[0])
    ensures TrimTrailing(t) != [] && TrimTrailing(t)[0] == t[0]
    decreases |t|
  {
    if IsTrimmed(t[|t| - 1]) {
      TrimTrailingKeepsHead(t[..|t| - 1]);
    }
  }

  // ---------------------------------------------------------------------------
  // Character.isWhitespace, String.isBlank and StringUtils.hasText.
  // ---------------------------------------------------------------------------

  /** Character.isWhitespace: the ASCII controls TAB..CR and FS..US, SPACE, and the Unicode
      space, line and paragraph separators other than the three non-breaking ones (U+00A0,
      U+2007, U+202F). None of these is above U+FFFF, so a surrogate pair is never
      whitespace and testing whole characters agrees with testing code units. */
  predicate IsWhitespace(c: char) {
    || ('\t' <= c <= '\r')
    || ('\U{001C}' <= c <= '\U{001F}')
    || c == ' '
    || c == '\U{1680}'
    || ('\U{2000}' <= c <= '\U{2006}')
    || ('\U{2008}' <= c <= '\U{200A}')
    || c == '\U{2028}' || c == '\U{2029}' || c == '\U{205F}' || c == '\U{3000}'
  }

  /** Java 11 `String.isBlank()`: empty or whitespace only. */
  predicate IsBlank(s: string) {
    forall i | 0 <= i < |s| :: IsWhitespace(s[i])
  }

  /** Spring `StringUtils.hasText`: not null, not empty, some non-whitespace character. */
  predicate HasText(s: Option<string>) {
    s.Some? && |s.value| > 0 && exists i | 0 <= i < |s.value| :: !IsWhitespace(s.value[i])
  }

  /** A nullable string as string concatenation renders it: `null` becomes "null". */
  function Str(s: Option<string>): string {
    if s.Some? then s.value else "null"
  }

  /** `hasText` is the negation of "null or blank", the test the lookup service makes. */
  lemma HasTextIffNotBlank(s: Option<string>)
    ensures HasText(s) <==> s.Some? && !IsBlank(s.value)
  {
  }

  // ---------------------------------------------------------------------------
  // String.toUpperCase, restricted to ASCII letters.
  // ---------------------------------------------------------------------------

  function UpperChar(c: char): char {
    if 'a' <= c <= 'z' then (c as int - 'a' as int + 'A' as int) as char else c
  }

  function ToUpper(s: string): (r: string)
    ensures |r| == |s|
    ensures forall i | 0 <= i < |s| :: r[i] == UpperChar(s[i])
  {
    seq(|s|, i requires 0 <= i < |s| => UpperChar(s[i]))
  }

  /** Upper-casing twice is upper-casing once. */
  lemma ToUpperIdempotent(s: string)
    ensures ToUpper(ToUpper(s)) == ToUpper(s)
  {
  }

  /** Upper-casing never turns a blank string into a non-blank one or back. */
  lemma ToUpperKeepsBlank(s: string)
    ensures IsBlank(ToUpper(s)) <==> IsBlank(s)
  {
  }

  // ---------------------------------------------------------------------------
  // Integer.parseInt and Integer/Long.toString (decimal).
  // ---------------------------------------------------------------------------

  predicate IsDigit(c: char) { '0' <= c <= '9' }

  predicate AllDigits(s: string) { forall i | 0 <= i < |s| :: IsDigit(s[i]) }

  function DigitValue(c: char): nat
    requires IsDigit(c)
  {
    c as int - '0' as int
  }

  /** Value of a string of decimal digits, most significant first. */
  function DigitsValue(s: string): nat
    requires AllDigits(s)
  {
    if s == [] then 0 else DigitsValue(s[..|s| - 1]) * 10 + DigitValue(s[|s| - 1])
  }

  /** Integer.parseInt(s): an optional '-' or '+', then at least one decimal digit, and
      a value inside the int range; null, "" and everything else throw
      NumberFormatException, here None. */
  function ParseInt(s: Option<string>): (r: Option<int>)
    ensures r.Some? ==> InIntRange(r.value)
    ensures r.Some? ==> s.Some? && |s.value| > 0
  {
    match s
    case None => None
    case Some(t) =>
      if |t| == 0 then None
      else
        var signed := t[0] == '-' || t[0] == '+';
        var digits := if signed then t[1..] else t;
        if |digits| == 0 || !AllDigits(digits) then None
        else
          var v: int := if t[0] == '-' then -(DigitsValue(digits) as int) else DigitsValue(digits);
          if InIntRange(v) then Some(v) else None
  }

  predicate IsSign(sign: string) { sign == "" || sign == "-" || sign == "+" }

  /** The number an optional sign and a run of decimal digits denote. */
  function SignedValue(sign: string, digits: string): int
    requires AllDigits(digits)
  {
    if sign == "-" then -(DigitsValue(digits) as int) else DigitsValue(digits)
  }

  /** An optional sign and a non-empty run of digits parse to the number they denote
      when it is an int, and fail otherwise. */
  lemma ParseIntOfSignedDigits(sign: string, digits: string)
    requires IsSign(sign) && |digits| > 0 && AllDigits(digits)
    ensures ParseInt(Some(sign + digits)) ==
              if InIntRange(SignedValue(sign, digits)) then Some(SignedValue(sign, digits)) else None
  {
    var t := sign + digits;
    if sign == "" {
      assert t == digits && IsDigit(t[0]);
    } else {
      assert t[0] == sign[0] && t[1..] == digits;
    }
  }

  /** Whatever parses is an optional sign followed by a non-empty run of digits, and
      parses to the number they denote. */
  lemma ParseIntSuccess(t: string)
    requires ParseInt(Some(t)).Some?
    ensures var sign := if t[0] == '-' || t[0] == '+' then t[..1] else "";
            && IsSign(sign) && t == sign + t[|sign|..]
            && |t[|sign|..]| > 0 && AllDigits(t[|sign|..])
            && ParseInt(Some(t)).value == SignedValue(sign, t[|sign|..])
  {
    if t[0] == '-' || t[0] == '+' {
      assert t == t[..1] + t[1..];
    } else {
      assert t[0..] == t;
    }
  }

  function DigitChar(d: nat): (c: char)
    requires d < 10
    ensures IsDigit(c) && DigitValue(c) == d
  {
    ('0' as int + d) as char
  }

  /** Decimal digits of a natural number, no leading zeros. */
  function NatToString(n: nat): (r: string)
    ensures |r| > 0 && AllDigits(r)
  {
    if n < 10 then [DigitChar(n)] else NatToString(n / 10) + [DigitChar(n % 10)]
  }

  /** Integer.toString / Long.toString / string concatenation of a number. */
  function IntToString(n: int): string {
    if n < 0 then "-" + NatToString(-n as int) else NatToString(n)
  }

  lemma {:induction false} NatToStringValue(n: nat)
    ensures DigitsValue(NatToString(n)) == n
  {
    if n >= 10 {
      var s := NatToString(n);
      var p := NatToString(n / 10);
      assert s[..|s| - 1] == p;
      NatToStringValue(n / 10);
    }
  }

  /** Parsing the decimal rendering of any int gives it back. */
  lemma {:induction false} ParseIntOfToString(n: int)
    requires InIntRange(n)
    ensures ParseInt(Some(IntToString(n))) == Some(n)
  {
    var m := if n < 0 then -n else n;
    NatToStringValue(m);
    var t := IntToString(n);
    if n < 0 {
      assert t[1..] == NatToString(m);
    } else {
      assert IsDigit(t[0]);
    }
  }

  // ---------------------------------------------------------------------------
  // String.startsWith and String.replace(CharSequence, CharSequence).
  // ---------------------------------------------------------------------------

  predicate StartsWith(s: string, prefix: string) {
    |prefix| <= |s| && s[..|prefix|] == prefix
  }

  predicate OccursAt(s: string, t: string, i: int) {
    0 <= i && i + |t| <= |s| && s[i..i + |t|] == t
  }

  /** `s.contains(t)`. */
  predicate Contains(s: string, t: string) {
    exists i | 0 <= i <= |s| :: OccursAt(s, t, i)
  }

  /** `s.replace(target, replacement)` for a non-empty target: every occurrence, scanning
      left to right without overlaps, is replaced. */
  function Replace(s: string, target: string, replacement: string): string
    requires |target| > 0
    decreases |s|
  {
    if |s| < |target| then s
    else if s[..|target|] == target then replacement + Replace(s[|target|..], target, replacement)
    else [s[0]] + Replace(s[1..], target, replacement)
  }

  /** Number of occurrences `Replace` rewrites. */
  function Occurrences(s: string, target: string): nat
    requires |target| > 0
    decreases |s|
  {
    if |s| < |target| then 0
    else if s[..|target|] == target then 1 + Occurrences(s[|target|..], target)
    else Occurrences(s[1..], target)
  }

  /** Each replaced occurrence changes the length by |replacement| - |target|. */
  lemma {:induction false} ReplaceLength(s: string, target: string, replacement: string)
    requires |target| > 0
    ensures |Replace(s, target, replacement)| == |s| + Occurrences(s, target) * (|replacement| - |target|)
    decreases |s|
  {
    var d := |replacement| - |target|;
    if |s| < |target| {
    } else if s[..|target|] == target {
      var rest := s[|target|..];
      ReplaceLength(rest, target, replacement);
      var k := Occurrences(rest, target);
      assert Occurrences(s, target) == 1 + k;
      assert |Replace(s, target, replacement)| == |replacement| + |Replace(rest, target, replacement)|;
      MulSucc(k, d);
    } else {
      ReplaceLength(s[1..], target, replacement);
      assert |Replace(s, target, replacement)| == 1 + |Replace(s[1..], target, replacement)|;
    }
  }

  /** Replace finds something to rewrite exactly when the target occurs. */
  lemma {:induction false} OccurrencesPositiveIff(s: string, target: string)
    requires |target| > 0
    ensures Occurrences(s, target) > 0 <==> Contains(s, target)
    decreases |s|
  {
    if |s| < |target| {
    } else if s[..|target|] == target {
      assert OccursAt(s, target, 0);
    } else {
      OccurrencesPositiveIff(s[1..], target);
      if Contains(s[1..], target) {
        var i :| 0 <= i <= |s| - 1 && OccursAt(s[1..], target, i);
        SliceOfTail(s, i + 1, |target|);
        assert OccursAt(s, target, i + 1);
      }
      if Contains(s, target) {
        var i :| 0 <= i <= |s| && OccursAt(s, target, i);
        assert i != 0;
        SliceOfTail(s, i, |target|);
        assert OccursAt(s[1..], target, i - 1);
      }
    }
  }

  lemma SliceOfTail(s: string, i: int, n: nat)
    requires 1 <= i && i + n <= |s|
    ensures s[1..][i - 1..i - 1 + n] == s[i..i + n]
  {
    var t, u := s[1..][i - 1..i - 1 + n], s[i..i + n];
    assert |t| == |u| == n;
    assert forall k | 0 <= k < n :: t[k] == u[k];
  }

  /** With no occurrence of the target, replace returns the string unchanged. */
  lemma {:induction false} ReplaceWithoutOccurrence(s: string, target: string, replacement: string)
    requires |target| > 0
    requires Occurrences(s, target) == 0
    ensures Replace(s, target, replacement) == s
    decreases |s|
  {
    if |s| >= |target| {
      ReplaceWithoutOccurrence(s[1..], target, replacement);
    }
  }

  /** The two multiplication facts below are kept apart from their callers, whose contexts
      are too large for the solver's non-linear reasoning. */
  // Solver helper: distributes one factor, for ReplaceLength.
  lemma MulSucc(k: int, d: int)
    ensures (1 + k) * d == k * d + d
  {
  }

  // Solver helper: a product of non-zero factors is non-zero, for ReplaceUnchangedIff.
  lemma MulNonZero(a: int, b: int)
    requires a != 0 && b != 0
    ensures a * b != 0
  {
  }

  /** A string equals its `replace` result exactly when the target does not occur,
      provided the replacement has a different length. */
  lemma ReplaceUnchangedIff(s: string, target: string, replacement: string)
    requires |target| > 0 && |replacement| != |target|
    ensures Replace(s, target, replacement) == s <==> !Contains(s, target)
  {
    OccurrencesPositiveIff(s, target);
    ReplaceLength(s, target, replacement);
    if !Contains(s, target) {
      ReplaceWithoutOccurrence(s, target, replacement);
    } else {
      MulNonZero(Occurrences(s, target), |replacement| - |target|);
    }
  }

  /** Text free of the target's first character is copied through unchanged. */
  lemma {:induction false} ReplaceAfterPrefix(a: string, b: string, target: string, replacement: string)
    requires |target| > 0 && target[0] !in a
    ensures Replace(a + b, target, replacement) == a + Replace(b, target, replacement)
    decreases |a|
  {
    if a != [] {
      assert (a + b)[0] == a[0];
      assert a[0] != target[0];
      ReplaceAfterPrefix(a[1..], b, target, replacement);
      assert (a + b)[1..] == a[1..] + b;
      if |a + b| >= |target| {
        assert (a + b)[..|target|][0] != target[0];
        assert Replace(a + b, target, replacement) == [a[0]] + (a[1..] + Replace(b, target, replacement));
        assert [a[0]] + a[1..] == a;
      }
    } else {
      assert a + b == b;
    }
  }

  /** A string occurs in any concatenation that has it as a middle part. */
  lemma ContainsConcat(a: string, b: string, c: string)
    ensures Contains(a + b + c, b)
  {
    assert (a + b + c)[|a|..|a| + |b|] == b;
    assert OccursAt(a + b + c, b, |a|);
  }
}
