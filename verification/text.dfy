/**
 * String helpers that stand for the Python built-ins the subtitle code uses:
 * `str.strip()`, `str.isdigit()`, `int(...)` and `str(...)` on decimal text,
 * `str.split(' --> ')`, `' '.join(...)` and the length of `str.encode("utf-8")`.
 */
module Text {
  import opened Wrappers

  // ---------------------------------------------------------------------------
  // Whitespace and str.strip()
  // ---------------------------------------------------------------------------

  /** The characters `str.isspace()` accepts, which `str.strip()` removes. */
  predicate IsSpace(c: char) {
    || ('\U{9}' <= c <= '\U{D}')
    || ('\U{1C}' <= c <= '\U{20}')
    || c == '\U{85}' || c == '\U{A0}' || c == '\U{1680}'
    || ('\U{2000}' <= c <= '\U{200A}')
    || c == '\U{2028}' || c == '\U{2029}' || c == '\U{202F}' || c == '\U{205F}' || c == '\U{3000}'
  }

  predicate AllSpace(s: string) {
    forall i :: 0 <= i < |s| ==> IsSpace(s[i])
  }

  /** `s.lstrip()`: the longest suffix of `s` that does not start with whitespace. */
  function TrimStart(s: string): (r: string)
    ensures |r| <= |s|
  {
    if s != [] && IsSpace(s[0]) then TrimStart(s[1..]) else s
  }

  /** `s.rstrip()`: the longest prefix of `s` that does not end with whitespace. */
  function TrimEnd(s: string): (r: string)
    ensures |r| <= |s|
  {
    if s != [] && IsSpace(s[|s| - 1]) then TrimEnd(s[..|s| - 1]) else s
  }

  /** `lstrip` drops exactly the leading whitespace. */
  lemma {:induction false} TrimStartSpec(s: string)
    ensures var r := TrimStart(s);
      && r == s[|s| - |r|..]
      && (r == [] || !IsSpace(r[0]))
      && forall i :: 0 <= i < |s| - |r| ==> IsSpace(s[i])
  {
    if s != [] && IsSpace(s[0]) {
      TrimStartSpec(s[1..]);
    }
  }

  /** `rstrip` drops exactly the trailing whitespace. */
  lemma {:induction false} TrimEndSpec(s: string)
    ensures var r := TrimEnd(s);
      && r == s[..|r|]
      && (r == [] || !IsSpace(r[|r| - 1]))
      && forall i :: |r| <= i < |s| ==> IsSpace(s[i])
  {
    if s != [] && IsSpace(s[|s| - 1]) {
      TrimEndSpec(s[..|s| - 1]);
    }
  }

  /** `s.strip()`. */
  function Strip(s: string): string {
    TrimEnd(TrimStart(s))
  }

  /**
   * What `strip` leaves: nothing exactly when the line is all whitespace (a
   * blank line for the parser), otherwise text that neither starts nor ends
   * with whitespace.
   */
  lemma StripSpec(s: string)
    ensures var r := Strip(s);
      && (r == [] <==> AllSpace(s))
      && (r != [] ==> !IsSpace(r[0]) && !IsSpace(r[|r| - 1]))
  {
    TrimStartSpec(s);
    TrimEndSpec(TrimStart(s));
  }

  /** A line whose first and `n`-th characters are not whitespace keeps its first `n` characters. */
  lemma StripKeepsPrefix(s: string, n: nat)
    requires 0 < n <= |s| && !IsSpace(s[0]) && !IsSpace(s[n - 1])
    ensures |Strip(s)| >= n && Strip(s)[..n] == s[..n]
  {
    assert TrimStart(s) == s;
    TrimEndSpec(s);
  }

  // ---------------------------------------------------------------------------
  // Decimal digits: str.isdigit(), int(...) and str(...)
  // ---------------------------------------------------------------------------

  predicate IsDigit(c: char) {
    '0' <= c <= '9'
  }

  predicate AllDigits(s: string) {
    forall i :: 0 <= i < |s| ==> IsDigit(s[i])
  }

  /** `s.isdigit()`: non-empty and made of digits. */
  predicate IsDigits(s: string) {
    |s| > 0 && AllDigits(s)
  }

  /** A digit string as `str(n)` writes it: no leading zero unless it is "0". */
  predicate Canonical(s: string) {
    IsDigits(s) && (s[0] == '0' ==> |s| == 1)
  }

  function DigitValue(c: char): (d: nat)
    requires IsDigit(c)
    ensures d < 10
  {
    (c as int) - ('0' as int)
  }

  function DigitChar(d: nat): (c: char)
    requires d < 10
    ensures IsDigit(c) && DigitValue(c) == d
  {
    ((('0' as int) + d) as char)
  }

  /** `int(s)` for a string of decimal digits. */
  function DigitsValue(s: string): nat
    requires AllDigits(s)
    decreases |s|
  {
    if s == [] then 0 else 10 * DigitsValue(s[..|s| - 1]) + DigitValue(s[|s| - 1])
  }

  /** `str(n)` for a non-negative integer. */
  function ShowNat(n: nat): (r: string)
    ensures Canonical(r)
    decreases n
  {
    if n < 10 then [DigitChar(n)] else ShowNat(n / 10) + [DigitChar(n % 10)]
  }

  /** `str(n)` for any integer. */
  function ShowInt(n: int): (r: string)
    ensures IsDigits(r) <==> n >= 0
  {
    if n < 0 then
      assert ("-" + ShowNat(-n))[0] == '-';
      "-" + ShowNat(-n)
    else ShowNat(n)
  }

  /** `int(str(n)) == n`. */
  lemma {:induction false} ShowNatRoundTrip(n: nat)
    ensures DigitsValue(ShowNat(n)) == n
  {
    var s := ShowNat(n);
    if n >= 10 {
      ShowNatRoundTrip(n / 10);
      assert s[..|s| - 1] == ShowNat(n / 10);
    }
  }

  lemma {:induction false} LeadingNonZero(s: string)
    requires IsDigits(s) && s[0] != '0'
    ensures DigitsValue(s) >= 1
  {
    if |s| > 1 {
      LeadingNonZero(s[..|s| - 1]);
    }
  }

  /** `str(int(s)) == s` exactly for the canonical digit strings. */
  lemma {:induction false} CanonicalRoundTrip(s: string)
    requires Canonical(s)
    ensures ShowNat(DigitsValue(s)) == s
  {
    var p := s[..|s| - 1];
    if |s| > 1 {
      CanonicalRoundTrip(p);
      LeadingNonZero(p);
      var v := DigitsValue(s);
      assert v / 10 == DigitsValue(p) && v % 10 == DigitValue(s[|s| - 1]);
      assert s == p + [s[|s| - 1]];
    } else {
      assert s == [s[0]];
    }
  }

  /** Two canonical digit strings are equal exactly when their values are. */
  lemma CanonicalInjective(s: string, t: string)
    requires Canonical(s) && Canonical(t) && DigitsValue(s) == DigitsValue(t)
    ensures s == t
  {
    CanonicalRoundTrip(s);
    CanonicalRoundTrip(t);
  }

  // ---------------------------------------------------------------------------
  // str.split(' --> ')
  // ---------------------------------------------------------------------------

  const Arrow: string := " --> "

  predicate ArrowAt(s: string, j: int) {
    0 <= j && j + 5 <= |s| && s[j..j + 5] == Arrow
  }

  /** The first occurrence of the separator at or after `i`. */
  function ArrowFrom(s: string, i: nat): (r: Option<nat>)
    decreases |s| - i
    ensures r.Some? ==> i <= r.value && ArrowAt(s, r.value)
    ensures forall j :: i <= j < (if r.Some? then r.value else |s|) ==> !ArrowAt(s, j)
  {
    if i + 5 > |s| then None
    else if s[i..i + 5] == Arrow then Some(i)
    else ArrowFrom(s, i + 1)
  }

  function FirstArrow(s: string): Option<nat> {
    ArrowFrom(s, 0)
  }

  lemma NoArrow(s: string)
    requires forall j :: !ArrowAt(s, j)
    ensures FirstArrow(s) == None
  {
  }

  /** `s.split(' --> ')[0]`: everything before the first separator. */
  function SplitHead(s: string): (r: string)
    ensures FirstArrow(r) == None
    ensures |r| <= |s| && r == s[..|r|]
  {
    match FirstArrow(s)
    case Some(i) =>
      assert forall j :: ArrowAt(s[..i], j) ==> ArrowAt(s, j) && j < i;
      NoArrow(s[..i]);
      s[..i]
    case None => s
  }

  /** `s.split(' --> ')[1]`: what lies between the first and the second separator. */
  function SplitSecond(s: string): (r: string)
    requires FirstArrow(s).Some?
    ensures FirstArrow(r) == None
  {
    SplitHead(s[FirstArrow(s).value + 5..])
  }

  /** Cutting at the first separator a second time changes nothing. */
  lemma SplitHeadIdempotent(s: string)
    ensures SplitHead(SplitHead(s)) == SplitHead(s)
  {
  }

  // ---------------------------------------------------------------------------
  // ' '.join(...) and UTF-8 lengths
  // ---------------------------------------------------------------------------

  /** The words joined by single spaces, built up left to right. */
  function JoinSpaced(ws: seq<string>): string
    requires |ws| > 0
    decreases |ws|
  {
    if |ws| == 1 then ws[0] else JoinSpaced(ws[..|ws| - 1]) + " " + ws[|ws| - 1]
  }

  /** Number of bytes UTF-8 uses for one Unicode scalar value. */
  function Utf8Width(c: char): (n: nat)
    ensures 1 <= n <= 4
    ensures n == 1 <==> c < '\U{80}'
  {
    if c < '\U{80}' then 1
    else if c < '\U{800}' then 2
    else if c < '\U{10000}' then 3
    else 4
  }

  /** `len(s.encode("utf-8"))`. */
  function Utf8Length(s: string): (n: nat)
    ensures |s| <= n <= 4 * |s|
    decreases |s|
  {
    if s == [] then 0 else Utf8Length(s[..|s| - 1]) + Utf8Width(s[|s| - 1])
  }

  /** An ASCII string needs one byte per character, and only an ASCII string does. */
  lemma {:induction false} Utf8LengthAscii(s: string)
    ensures Utf8Length(s) == |s| <==> forall i :: 0 <= i < |s| ==> s[i] < '\U{80}'
  {
    if s != [] {
      var p := s[..|s| - 1];
      Utf8LengthAscii(p);
      assert forall i :: 0 <= i < |p| ==> p[i] == s[i];
    }
  }

  lemma {:induction false} Utf8LengthAppend(a: string, b: string)
    ensures Utf8Length(a + b) == Utf8Length(a) + Utf8Length(b)
    decreases |b|
  {
    if b != [] {
      var b' := b[..|b| - 1];
      assert (a + b)[..|a + b| - 1] == a + b';
      Utf8LengthAppend(a, b');
    } else {
      assert a + b == a;
    }
  }
}
