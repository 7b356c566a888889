/**
 * SubRip timing lines, `HH:MM:SS,mmm --> HH:MM:SS,mmm`: recognising them the
 * way main.py's regular expression does, converting each clock to
 * milliseconds, and rewriting the end clock when two cues are combined.
 */
module Timestamps {
  import opened Wrappers
  import opened Text

  /** `\d\d:\d\d:\d\d,\d\d\d` at offset `i` of `s`. */
  predicate ClockAt(s: string, i: nat) {
    && i + 12 <= |s|
    && IsDigit(s[i]) && IsDigit(s[i + 1]) && s[i + 2] == ':'
    && IsDigit(s[i + 3]) && IsDigit(s[i + 4]) && s[i + 5] == ':'
    && IsDigit(s[i + 6]) && IsDigit(s[i + 7]) && s[i + 8] == ','
    && IsDigit(s[i + 9]) && IsDigit(s[i + 10]) && IsDigit(s[i + 11])
  }

  /**
   * `re.match` of the timing pattern: it must start at the first character
   * of the line; anything may follow the 29 characters it covers.
   */
  predicate TimestampLine(s: string) {
    ClockAt(s, 0) && ArrowAt(s, 12) && ClockAt(s, 17)
  }

  const MsPerHour := 3600000
  const MsPerMinute := 60000
  const MsPerSecond := 1000

  /** The largest value a clock can denote: every field at 99, milliseconds at 999. */
  const MaxClockMs := 99 * MsPerHour + 99 * MsPerMinute + 99 * MsPerSecond + 999

  /** `int(h) * 3600000 + int(m) * 60000 + int(s) * 1000 + int(ms)` for the clock at offset `i`. */
  function ClockMs(s: string, i: nat): (ms: nat)
    requires ClockAt(s, i)
    ensures ms <= MaxClockMs
  {
    var h, m, sec, milli := s[i..i + 2], s[i + 3..i + 5], s[i + 6..i + 8], s[i + 9..i + 12];
    assert AllDigits(h) && AllDigits(m) && AllDigits(sec) && AllDigits(milli);
    DigitsOfLength(h);
    DigitsOfLength(m);
    DigitsOfLength(sec);
    DigitsOfLength(milli);
    DigitsValue(h) * MsPerHour + DigitsValue(m) * MsPerMinute + DigitsValue(sec) * MsPerSecond + DigitsValue(milli)
  }

  lemma DigitsOfLength(s: string)
    requires AllDigits(s) && |s| <= 3
    ensures |s| == 2 ==> DigitsValue(s) == 10 * DigitValue(s[0]) + DigitValue(s[1]) && DigitsValue(s) <= 99
    ensures |s| == 3 ==> DigitsValue(s) == 100 * DigitValue(s[0]) + 10 * DigitValue(s[1]) + DigitValue(s[2])
    ensures |s| == 3 ==> DigitsValue(s) <= 999
  {
    if |s| >= 2 {
      assert s[..|s| - 1][..|s| - 2] == s[..|s| - 2];
    }
    if |s| == 3 {
      assert s[..2][..1] == s[..1];
    }
  }

  /** Writes milliseconds (below 100 hours) as `HH:MM:SS,mmm`. */
  function FormatClock(ms: nat): (s: string)
    requires ms < 100 * MsPerHour
    ensures |s| == 12
  {
    var milli, secs := ms % 1000, ms / 1000;
    var sec, mins := secs % 60, secs / 60;
    var m, h := mins % 60, mins / 60;
    [DigitChar(h / 10), DigitChar(h % 10), ':',
     DigitChar(m / 10), DigitChar(m % 10), ':',
     DigitChar(sec / 10), DigitChar(sec % 10), ',',
     DigitChar(milli / 100), DigitChar(milli / 10 % 10), DigitChar(milli % 10)]
  }

  lemma ThreeDigitSplit(x: nat)
    requires x < 1000
    ensures 100 * (x / 100) + 10 * (x / 10 % 10) + x % 10 == x
  {
    assert x == 10 * (x / 10) + x % 10;
    assert x / 10 == 10 * (x / 100) + x / 10 % 10;
  }

  /** Reading a formatted clock gives back the milliseconds it was written from. */
  lemma ClockRoundTrip(ms: nat)
    requires ms < 100 * MsPerHour
    ensures ClockAt(FormatClock(ms), 0) && ClockMs(FormatClock(ms), 0) == ms
  {
    var s := FormatClock(ms);
    var milli, secs := ms % 1000, ms / 1000;
    var sec, mins := secs % 60, secs / 60;
    var m, h := mins % 60, mins / 60;
    assert h < 100;
    DigitsOfLength(s[0..2]);
    DigitsOfLength(s[3..5]);
    DigitsOfLength(s[6..8]);
    DigitsOfLength(s[9..12]);
    ThreeDigitSplit(milli);
    assert DigitsValue(s[0..2]) == h;
    assert DigitsValue(s[3..5]) == m;
    assert DigitsValue(s[6..8]) == sec;
    assert DigitsValue(s[9..12]) == milli;
    assert ms == secs * 1000 + milli;
    assert secs == mins * 60 + sec;
    assert mins == h * 60 + m;
  }

  /** No separator can start inside a clock: its characters are never blanks. */
  lemma NoArrowInClock(s: string, i: nat, j: int)
    requires ClockAt(s, i) && i <= j < i + 12
    ensures !ArrowAt(s, j)
  {
    assert s[j] != ' ';
    if j + 5 <= |s| {
      assert s[j..j + 5][0] == s[j];
    }
  }

  /** How `split(' --> ')` cuts a timing line: the start clock, then text that begins with the end clock. */
  lemma TimestampSplit(s: string)
    requires TimestampLine(s)
    ensures FirstArrow(s) == Some(12)
    ensures SplitHead(s) == s[..12]
    ensures |SplitSecond(s)| >= 12 && SplitSecond(s)[..12] == s[17..29]
  {
    forall j | 0 <= j < 12 ensures !ArrowAt(s, j) {
      NoArrowInClock(s, 0, j);
    }
    var t := s[17..];
    assert ClockAt(t, 0);
    forall j | 0 <= j < 12 ensures !ArrowAt(t, j) {
      NoArrowInClock(t, 0, j);
    }
  }

  /**
   * The timing line of a combined cue: the first cue's part before the
   * separator, the separator, and the second cue's part after it.
   */
  function RejoinedLine(first: string, second: string): (r: string)
    requires FirstArrow(second).Some?
    ensures FirstArrow(r).Some?
  {
    var r := SplitHead(first) + Arrow + SplitSecond(second);
    assert ArrowAt(r, |SplitHead(first)|);
    r
  }

  /**
   * Rejoining two timing lines yields a timing line that starts with the
   * first line's start clock and ends with the second line's end clock, and
   * that `split` cuts back into exactly those two parts.
   */
  lemma RejoinedTimestamp(first: string, second: string)
    requires TimestampLine(first) && TimestampLine(second)
    ensures var r := RejoinedLine(first, second);
      && TimestampLine(r)
      && r[..12] == first[..12] && r[17..29] == second[17..29]
      && SplitHead(r) == SplitHead(first) && SplitSecond(r) == SplitSecond(second)
  {
    TimestampSplit(first);
    TimestampSplit(second);
    var r := RejoinedLine(first, second);
    var tail := SplitSecond(second);
    assert r == first[..12] + Arrow + tail;
    assert r[..12] == first[..12];
    assert r[12..17] == Arrow;
    assert r[17..] == tail;
    assert r[17..29] == tail[..12] == second[17..29];
    assert ClockAt(r, 0) && ClockAt(r, 17);
    TimestampSplit(r);
    SplitHeadIdempotent(second[FirstArrow(second).value + 5..]);
  }

  /** A clock is read from its twelve characters alone. */
  lemma SameClock(s: string, i: nat, t: string, j: nat)
    requires ClockAt(s, i) && j + 12 <= |t| && s[i..i + 12] == t[j..j + 12]
    ensures ClockAt(t, j) && ClockMs(t, j) == ClockMs(s, i)
  {
    var c := s[i..i + 12];
    assert forall k :: 0 <= k < 12 ==> t[j + k] == c[k] == s[i + k];
    assert s[i..i + 2] == c[0..2] == t[j..j + 2];
    assert s[i + 3..i + 5] == c[3..5] == t[j + 3..j + 5];
    assert s[i + 6..i + 8] == c[6..8] == t[j + 6..j + 8];
    assert s[i + 9..i + 12] == c[9..12] == t[j + 9..j + 12];
  }

  /** The clocks of a rejoined line are the first line's start and the second line's end. */
  lemma RejoinedClocks(first: string, second: string)
    requires TimestampLine(first) && TimestampLine(second)
    ensures TimestampLine(RejoinedLine(first, second))
    ensures ClockMs(RejoinedLine(first, second), 0) == ClockMs(first, 0)
    ensures ClockMs(RejoinedLine(first, second), 17) == ClockMs(second, 17)
  {
    RejoinedTimestamp(first, second);
    ClocksFromParts(first, second, RejoinedLine(first, second));
  }

  /** A timing line made of the start clock of `first` and the end clock of `second` reads those clocks. */
  lemma ClocksFromParts(first: string, second: string, r: string)
    requires TimestampLine(first) && TimestampLine(second) && TimestampLine(r)
    requires r[..12] == first[..12] && r[17..29] == second[17..29]
    ensures ClockMs(r, 0) == ClockMs(first, 0) && ClockMs(r, 17) == ClockMs(second, 17)
  {
    assert first[0..12] == first[..12] == r[..12] == r[0..12];
    SameClock(first, 0, r, 0);
    SameClock(second, 17, r, 17);
  }

  /**
   * Stripping a timing line keeps the 29 characters the pattern matched,
   * since they start and end with a digit, so the stored line is still a
   * timing line with the same two clocks.
   */
  lemma StripTimestampLine(s: string)
    requires TimestampLine(s)
    ensures TimestampLine(Strip(s))
    ensures ClockMs(Strip(s), 0) == ClockMs(s, 0) && ClockMs(Strip(s), 17) == ClockMs(s, 17)
  {
    StripKeepsPrefix(s, 29);
    var t := Strip(s);
    assert t[..29] == s[..29];
    assert t[0..12] == s[0..12] && t[12..17] == s[12..17] && t[17..29] == s[17..29];
    SameClock(s, 0, t, 0);
    SameClock(s, 17, t, 17);
  }
}
