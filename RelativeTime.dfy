/**
 * The relative-time parser of scripts/update_discover.py.
 *
 * A label such as "5 hours ago" is turned into the instant that lies that
 * far before `now`. The text is stripped and lower-cased, the pattern
 * `(\d+)\s*(minute|min|hour|hr|day|week|month)` is searched for, and the
 * matched amount and unit select a `timedelta` that is subtracted from
 * `now`.
 *
 * Instants are whole seconds since 0001-01-01T00:00:00Z (Python's
 * `datetime.min`), which is the resolution of the "%Y-%m-%dT%H:%M:%SZ"
 * format the script writes.
 */
module RelativeTime {
  import opened Wrappers

  /** The last second a Python `datetime` can hold, 9999-12-31T23:59:59Z. */
  const MaxInstant: int := 315537897599

  type Instant = t: int | 0 <= t <= MaxInstant

  /** `timedelta` refuses more days than this with an OverflowError. */
  const MaxDeltaDays: int := 999999999

  // ---------------------------------------------------------------------
  // Characters
  // ---------------------------------------------------------------------

  /** What `\d` matches, restricted to ASCII digits. */
  predicate IsDigit(c: char) { '0' <= c <= '9' }

  /** What `\s` and `str.strip()` treat as white space in Python 3. */
  predicate IsSpace(c: char) {
    || '\t' <= c <= '\r'
    || '\U{1C}' <= c <= ' '
    || c == '\U{85}' || c == '\U{A0}' || c == '\U{1680}'
    || '\U{2000}' <= c <= '\U{200A}'
    || c == '\U{2028}' || c == '\U{2029}' || c == '\U{202F}'
    || c == '\U{205F}' || c == '\U{3000}'
  }

  /** `t` holds no capital ASCII letter. */
  predicate NoCapital(t: string) {
    forall k :: 0 <= k < |t| ==> !('A' <= t[k] <= 'Z')
  }

  /**
   * `str.lower()` of one character, written out for every character whose
   * lower-case form contains an ASCII character; every other character is
   * left as it is (see README, "Left out").
   */
  function LowerChar(c: char): (r: string)
    ensures |r| > 0
    ensures 'A' <= c <= 'Z' ==> |r| == 1 && r[0] as int - 'a' as int == c as int - 'A' as int
    ensures IsDigit(c) || 'a' <= c <= 'z' || IsSpace(c) ==> r == [c]
    ensures !IsSpace(c) ==> !IsSpace(r[0]) && !IsSpace(r[|r| - 1])
  {
    if 'A' <= c <= 'Z' then [(c as int + 32) as char]
    else if c == '\U{212A}' then "k"              // KELVIN SIGN
    else if c == '\U{130}' then "i\U{307}"        // LATIN CAPITAL LETTER I WITH DOT ABOVE
    else [c]
  }

  function Lower(s: string): string {
    if s == [] then [] else LowerChar(s[0]) + Lower(s[1..])
  }

  function TrimStart(s: string): (r: string)
    ensures |r| <= |s| && r == s[|s| - |r|..]
    ensures r != [] ==> !IsSpace(r[0])
  {
    if s != [] && IsSpace(s[0]) then TrimStart(s[1..]) else s
  }

  function TrimEnd(s: string): (r: string)
    ensures |r| <= |s| && r == s[..|r|]
    ensures r != [] ==> !IsSpace(r[|r| - 1])
  {
    if s != [] && IsSpace(s[|s| - 1]) then TrimEnd(s[..|s| - 1]) else s
  }

  /** TrimStart removes white space only: every character before the rest it keeps. */
  lemma {:induction false} TrimStartSpec(s: string)
    ensures forall k :: 0 <= k < |s| - |TrimStart(s)| ==> IsSpace(s[k])
  {
    if s != [] && IsSpace(s[0]) {
      TrimStartSpec(s[1..]);
      assert forall k :: 1 <= k < |s| ==> s[k] == s[1..][k - 1];
    }
  }

  /** TrimEnd removes white space only: every character after the prefix it keeps. */
  lemma {:induction false} TrimEndSpec(s: string)
    ensures forall k :: |TrimEnd(s)| <= k < |s| ==> IsSpace(s[k])
  {
    if s != [] && IsSpace(s[|s| - 1]) {
      TrimEndSpec(s[..|s| - 1]);
      assert forall k :: 0 <= k < |s| - 1 ==> s[k] == s[..|s| - 1][k];
    }
  }

  /** `str.strip()`. */
  function Strip(s: string): string {
    TrimEnd(TrimStart(s))
  }

  /** The text the pattern is searched in: `text.strip().lower()`. */
  function Fold(s: string): string {
    Lower(Strip(s))
  }

  // ---------------------------------------------------------------------
  // The pattern and what `re.search` returns for it
  // ---------------------------------------------------------------------

  /** The alternatives of the unit group, in the order the pattern lists them. */
  const Units: seq<string> := ["minute", "min", "hour", "hr", "day", "week", "month"]

  /** `w` is spelled out in `s` from position `k` on, one character at a time. */
  predicate StartsWith(s: string, k: nat, w: string)
    decreases |w|
  {
    w == [] || (k < |s| && s[k] == w[0] && StartsWith(s, k + 1, w[1..]))
  }

  /** Unit alternative `u` is spelled out in `s` from position `k` on. */
  predicate UnitAt(s: string, k: nat, u: nat) {
    u < |Units| && StartsWith(s, k, Units[u])
  }

  /**
   * The pattern matches `s` at position `i` with `n` digits, then `w` white
   * space characters, then the unit alternative with index `u`.
   */
  ghost predicate PatternAt(s: string, i: nat, n: nat, w: nat, u: nat) {
    && 1 <= n && i + n + w <= |s| && u < |Units|
    && (forall k :: i <= k < i + n ==> IsDigit(s[k]))
    && (forall k :: i + n <= k < i + n + w ==> IsSpace(s[k]))
    && UnitAt(s, i + n + w, u)
  }

  ghost predicate HasPattern(s: string) {
    exists i: nat, n: nat, w: nat, u: nat :: PatternAt(s, i, n, w, u)
  }

  /** The pattern does not match at position `j`, whatever the split. */
  ghost predicate NoPatternAt(s: string, j: nat) {
    forall n: nat, w: nat, u: nat :: !PatternAt(s, j, n, w, u)
  }

  /**
   * A match: where it starts, the text of group 1, how much white space
   * follows it, and which unit alternative is group 2.
   */
  datatype Hit = Hit(start: nat, digits: string, spaces: nat, unit: nat)

  /**
   * `h` is a match at `h.start` whose group 2 is the first unit alternative
   * that fits there. (At a given position the digit and space counts are
   * forced; see PatternRuns.)
   */
  ghost predicate IsMatchAt(s: string, h: Hit) {
    && PatternAt(s, h.start, |h.digits|, h.spaces, h.unit)
    && h.digits == s[h.start..h.start + |h.digits|]
    && forall u :: 0 <= u < h.unit ==> !UnitAt(s, UnitStart(h), u)
  }

  /** Where group 2 of `h` begins. */
  function UnitStart(h: Hit): nat {
    h.start + |h.digits| + h.spaces
  }

  /** `h` is the match `re.search` reports: the leftmost one. */
  ghost predicate IsSearchResult(s: string, h: Hit) {
    && IsMatchAt(s, h)
    && forall j: nat :: j < h.start ==> NoPatternAt(s, j)
  }

  /** Length of the run of digits that starts at `i`. */
  function DigitRun(s: string, i: nat): (n: nat)
    requires i <= |s|
    ensures i + n <= |s|
    decreases |s| - i
  {
    if i < |s| && IsDigit(s[i]) then 1 + DigitRun(s, i + 1) else 0
  }

  /** Length of the run of white space that starts at `i`. */
  function SpaceRun(s: string, i: nat): (w: nat)
    requires i <= |s|
    ensures i + w <= |s|
    decreases |s| - i
  {
    if i < |s| && IsSpace(s[i]) then 1 + SpaceRun(s, i + 1) else 0
  }

  /** The first unit alternative, from index `u` on, that starts `s[k..]`. */
  function FirstUnit(s: string, k: nat, u: nat): (r: Option<nat>)
    requires k <= |s| && u <= |Units|
    ensures r.Some? ==> r.value < |Units|
    decreases |Units| - u
  {
    if u == |Units| then None
    else if UnitAt(s, k, u) then Some(u)
    else FirstUnit(s, k, u + 1)
  }

  /** DigitRun measures a maximal run: all digits, and no digit right after it. */
  lemma {:induction false} DigitRunSpec(s: string, i: nat)
    requires i <= |s|
    ensures forall k :: i <= k < i + DigitRun(s, i) ==> IsDigit(s[k])
    ensures i + DigitRun(s, i) < |s| ==> !IsDigit(s[i + DigitRun(s, i)])
    decreases |s| - i
  {
    if i < |s| && IsDigit(s[i]) {
      DigitRunSpec(s, i + 1);
    }
  }

  /** SpaceRun measures a maximal run: all white space, and none right after it. */
  lemma {:induction false} SpaceRunSpec(s: string, i: nat)
    requires i <= |s|
    ensures forall k :: i <= k < i + SpaceRun(s, i) ==> IsSpace(s[k])
    ensures i + SpaceRun(s, i) < |s| ==> !IsSpace(s[i + SpaceRun(s, i)])
    decreases |s| - i
  {
    if i < |s| && IsSpace(s[i]) {
      SpaceRunSpec(s, i + 1);
    }
  }

  /** FirstUnit returns the earliest alternative from `u` on that fits, and None when none does. */
  lemma {:induction false} FirstUnitSpec(s: string, k: nat, u: nat)
    requires k <= |s| && u <= |Units|
    ensures FirstUnit(s, k, u).Some? ==>
      var r := FirstUnit(s, k, u).value;
      u <= r && UnitAt(s, k, r) && forall j :: u <= j < r ==> !UnitAt(s, k, j)
    ensures FirstUnit(s, k, u).None? ==> forall j :: u <= j < |Units| ==> !UnitAt(s, k, j)
    decreases |Units| - u
  {
    if u < |Units| && !UnitAt(s, k, u) {
      FirstUnitSpec(s, k, u + 1);
    }
  }

  /** The match, if any, that starts at position `i`. */
  function MatchAt(s: string, i: nat): (r: Option<Hit>)
    requires i <= |s|
    ensures r.Some? ==> r.value.start == i && r.value.unit < |Units|
  {
    var n := DigitRun(s, i);
    var w := SpaceRun(s, i + n);
    if n == 0 then None
    else match FirstUnit(s, i + n + w, 0)
      case None => None
      case Some(u) => Some(Hit(i, s[i..i + n], w, u))
  }

  /** What MatchAt finds at each position 0 .. |s| of `s`. */
  function Matches(s: string): (ms: seq<Option<Hit>>)
    ensures |ms| == |s| + 1
  {
    seq(|s| + 1, j requires 0 <= j <= |s| => MatchAt(s, j))
  }

  /**
   * The first position from `i` on that holds a match, or `|ms|` when none
   * does: the order in which `re.search` tries start positions.
   */
  function FirstFound(ms: seq<Option<Hit>>, i: nat): (p: nat)
    requires i <= |ms|
    ensures i <= p <= |ms|
    ensures p < |ms| ==> ms[p].Some?
    ensures forall j :: i <= j < p ==> ms[j].None?
    decreases |ms| - i
  {
    if i == |ms| || ms[i].Some? then i else FirstFound(ms, i + 1)
  }

  /** `re.search`: the match at the first position where there is one. */
  function Search(s: string): (r: Option<Hit>)
    ensures r.Some? ==> r.value.unit < |Units|
  {
    var ms := Matches(s);
    var p := FirstFound(ms, 0);
    if p < |ms| then ms[p] else None
  }

  /** Every unit begins with a letter that is neither a digit nor white space. */
  lemma UnitsStartWithLetters(u: nat)
    requires u < |Units|
    ensures |Units[u]| > 0 && !IsDigit(Units[u][0]) && !IsSpace(Units[u][0])
  {
  }

  /** A run of `n` digits followed by a non-digit is the run DigitRun measures. */
  lemma {:induction false} DigitRunIs(s: string, i: nat, n: nat)
    requires i + n < |s| && !IsDigit(s[i + n])
    requires forall k :: i <= k < i + n ==> IsDigit(s[k])
    ensures DigitRun(s, i) == n
    decreases n
  {
    if n > 0 {
      DigitRunIs(s, i + 1, n - 1);
    } else {
      assert !IsDigit(s[i]);
    }
  }

  /** A run of `w` white space characters followed by another character is the run SpaceRun measures. */
  lemma {:induction false} SpaceRunIs(s: string, i: nat, w: nat)
    requires i + w < |s| && !IsSpace(s[i + w])
    requires forall k :: i <= k < i + w ==> IsSpace(s[k])
    ensures SpaceRun(s, i) == w
    decreases w
  {
    if w > 0 {
      SpaceRunIs(s, i + 1, w - 1);
    }
  }

  /**
   * Wherever the pattern matches, the character after group 1 is no digit
   * and the character after the white space is no white space, because a
   * unit starts with a letter.
   */
  lemma RunEnds(s: string, i: nat, n: nat, w: nat, u: nat)
    requires PatternAt(s, i, n, w, u)
    ensures i + n < |s| && !IsDigit(s[i + n])
    ensures i + n + w < |s| && !IsSpace(s[i + n + w])
  {
    UnitsStartWithLetters(u);
    var c := s[i + n + w];
    assert c == Units[u][0];
    assert w == 0 ==> s[i + n] == c;
    assert w > 0 ==> IsSpace(s[i + n]);
  }

  /**
   * Wherever the pattern matches, group 1 is the whole run of digits and the
   * white space after it is the whole run of white space: backtracking can
   * never give a different split.
   */
  lemma PatternRuns(s: string, i: nat, n: nat, w: nat, u: nat)
    requires PatternAt(s, i, n, w, u)
    ensures n == DigitRun(s, i) && w == SpaceRun(s, i + n)
  {
    RunEnds(s, i, n, w, u);
    DigitRunIs(s, i, n);
    SpaceRunIs(s, i + n, w);
  }

  /** The runs at `i` and the first unit after them make a match with the first alternative. */
  lemma RunsMatch(s: string, i: nat)
    requires i <= |s| && DigitRun(s, i) > 0
    requires FirstUnit(s, i + DigitRun(s, i) + SpaceRun(s, i + DigitRun(s, i)), 0).Some?
    ensures
      var n := DigitRun(s, i);
      var w := SpaceRun(s, i + n);
      IsMatchAt(s, Hit(i, s[i..i + n], w, FirstUnit(s, i + n + w, 0).value))
  {
    var n := DigitRun(s, i);
    var w := SpaceRun(s, i + n);
    var k := i + n + w;
    var u := FirstUnit(s, k, 0).value;
    FirstUnitSpec(s, k, 0);
    RunsPattern(s, i, n, w, u);
    var h := Hit(i, s[i..i + n], w, u);
    assert |h.digits| == n && UnitStart(h) == k;
    assert forall j :: 0 <= j < h.unit ==> !UnitAt(s, UnitStart(h), j);
    assert IsMatchAt(s, h);
  }

  /** The runs at `i`, followed by a unit alternative, are a match of the pattern. */
  lemma RunsPattern(s: string, i: nat, n: nat, w: nat, u: nat)
    requires i <= |s| && n == DigitRun(s, i) > 0 && w == SpaceRun(s, i + n)
    requires UnitAt(s, i + n + w, u)
    ensures PatternAt(s, i, n, w, u)
  {
    DigitRunSpec(s, i);
    SpaceRunSpec(s, i + n);
  }

  /** What MatchAt returns is a match at `i` with the first alternative. */
  lemma MatchAtSound(s: string, i: nat)
    requires i <= |s| && MatchAt(s, i).Some?
    ensures MatchAt(s, i).value.start == i && IsMatchAt(s, MatchAt(s, i).value)
  {
    var n := DigitRun(s, i);
    var w := SpaceRun(s, i + n);
    RunsMatch(s, i);
    assert MatchAt(s, i).value == Hit(i, s[i..i + n], w, FirstUnit(s, i + n + w, 0).value);
  }

  /** Wherever the pattern matches, MatchAt reports a match. */
  lemma MatchAtComplete(s: string, i: nat, n: nat, w: nat, u: nat)
    requires PatternAt(s, i, n, w, u)
    ensures MatchAt(s, i).Some?
  {
    RunsComplete(s, i, n, w, u);
  }

  /** Wherever the pattern matches, the runs at `i` are its runs and some unit follows them. */
  lemma RunsComplete(s: string, i: nat, n: nat, w: nat, u: nat)
    requires PatternAt(s, i, n, w, u)
    ensures DigitRun(s, i) == n > 0 && SpaceRun(s, i + n) == w
    ensures FirstUnit(s, i + n + w, 0).Some?
  {
    PatternRuns(s, i, n, w, u);
    FirstUnitSpec(s, i + n + w, 0);
  }

  /** MatchAt finds exactly the matches that start at `i`, with the first alternative. */
  lemma MatchAtSpec(s: string, i: nat)
    requires i <= |s|
    ensures MatchAt(s, i).None? <==> NoPatternAt(s, i)
    ensures MatchAt(s, i).Some? ==> MatchAt(s, i).value.start == i && IsMatchAt(s, MatchAt(s, i).value)
  {
    forall n: nat, w: nat, u: nat | PatternAt(s, i, n, w, u) ensures MatchAt(s, i).Some? {
      MatchAtComplete(s, i, n, w, u);
    }
    if MatchAt(s, i).Some? {
      MatchAtSound(s, i);
    }
  }

  /** Search over the whole text agrees with `re.search`. */
  lemma SearchSpec(s: string)
    ensures Search(s).None? <==> !HasPattern(s)
    ensures Search(s).Some? ==> IsSearchResult(s, Search(s).value)
  {
    var ms := Matches(s);
    var p := FirstFound(ms, 0);
    if p == |ms| {
      forall i: nat, n: nat, w: nat, u: nat ensures !PatternAt(s, i, n, w, u) {
        if i <= |s| {
          assert ms[i] == MatchAt(s, i);
          MatchAtSpec(s, i);
        }
      }
    } else {
      assert ms[p] == MatchAt(s, p);
      MatchAtSpec(s, p);
      var h := MatchAt(s, p).value;
      assert PatternAt(s, h.start, |h.digits|, h.spaces, h.unit);
      forall j: nat | j < h.start ensures NoPatternAt(s, j) {
        assert ms[j] == MatchAt(s, j);
        MatchAtSpec(s, j);
      }
    }
  }

  /** At most one match starts at the leftmost matching position. */
  lemma SameStart(s: string, h1: Hit, h2: Hit)
    requires IsSearchResult(s, h1) && IsSearchResult(s, h2)
    ensures h1.start == h2.start
  {
    assert PatternAt(s, h1.start, |h1.digits|, h1.spaces, h1.unit);
    assert PatternAt(s, h2.start, |h2.digits|, h2.spaces, h2.unit);
    assert !NoPatternAt(s, h1.start);
    assert !NoPatternAt(s, h2.start);
  }

  /** Two matches at one position split the text the same way. */
  lemma SameSplit(s: string, i: nat, n1: nat, w1: nat, u1: nat, n2: nat, w2: nat, u2: nat)
    requires PatternAt(s, i, n1, w1, u1) && PatternAt(s, i, n2, w2, u2)
    ensures n1 == n2 && w1 == w2
  {
    RunEnds(s, i, n1, w1, u1);
    RunEnds(s, i, n2, w2, u2);
  }

  /** At one position there is only one match with the first fitting alternative. */
  lemma SameMatch(s: string, h1: Hit, h2: Hit)
    requires IsMatchAt(s, h1) && IsMatchAt(s, h2) && h1.start == h2.start
    ensures h1 == h2
  {
    SameSplit(s, h1.start, |h1.digits|, h1.spaces, h1.unit, |h2.digits|, h2.spaces, h2.unit);
    assert UnitStart(h1) == UnitStart(h2);
    assert h1.unit == h2.unit;
  }

  /** There is only one match `re.search` can report. */
  lemma SearchResultUnique(s: string, h1: Hit, h2: Hit)
    requires IsSearchResult(s, h1) && IsSearchResult(s, h2)
    ensures h1 == h2
  {
    SameStart(s, h1, h2);
    SameMatch(s, h1, h2);
  }

  // ---------------------------------------------------------------------
  // Numbers, time deltas and the parser
  // ---------------------------------------------------------------------

  function DigitValue(c: char): nat {
    if IsDigit(c) then c as int - '0' as int else 0
  }

  /** `int()` of a string of decimal digits. */
  function Value(ds: string): (r: nat)
    ensures r < Pow10(|ds|)
  {
    if ds == [] then 0
    else 10 * Value(ds[..|ds| - 1]) + DigitValue(ds[|ds| - 1])
  }

  function Pow10(n: nat): (r: nat)
    ensures r > 0
  {
    if n == 0 then 1 else 10 * Pow10(n - 1)
  }

  /**
   * A Python `timedelta` of whole seconds, held as Python holds it: whole
   * days and the seconds left over.
   */
  datatype Delta = Delta(days: nat, seconds: nat)

  function Seconds(d: Delta): nat {
    d.days * 86400 + d.seconds
  }

  /**
   * `timedelta(days=…, hours=…, minutes=…, weeks=…)`, normalised into days
   * and seconds; None for the OverflowError it raises beyond MaxDeltaDays
   * days.
   */
  function Timedelta(days: nat := 0, hours: nat := 0, minutes: nat := 0, weeks: nat := 0): (d: Option<Delta>)
    ensures d.Some? <==> 604800 * weeks + 86400 * days + 3600 * hours + 60 * minutes < (MaxDeltaDays + 1) * 86400
    ensures d.Some? ==> d.value.days <= MaxDeltaDays && d.value.seconds < 86400
    ensures d.Some? ==> Seconds(d.value) == 604800 * weeks + 86400 * days + 3600 * hours + 60 * minutes
  {
    var total := 604800 * weeks + 86400 * days + 3600 * hours + 60 * minutes;
    if total / 86400 > MaxDeltaDays then None else Some(Delta(total / 86400, total % 86400))
  }

  /**
   * What the parser yields: no time (Python's `None`), an instant, or the
   * OverflowError that `timedelta` or the subtraction raises.
   */
  datatype Stamp = NoTime | At(t: Instant) | Overflow

  /** `now - d`, which raises an OverflowError before the earliest instant. */
  function Subtract(now: Instant, d: Delta): (r: Stamp)
    ensures r != NoTime
    ensures r.At? <==> Seconds(d) <= now
    ensures r.At? ==> r.t == now - Seconds(d)
  {
    if now - Seconds(d) < 0 then Overflow else At(now - Seconds(d))
  }

  /**
   * `now - timedelta(…)`, where `td` is what the constructor gave: either
   * of the two can raise. A delta too long for `timedelta` is also longer
   * than the time since the earliest instant.
   */
  function Before(now: Instant, td: Option<Delta>): (r: Stamp)
    ensures r != NoTime
    ensures r.At? <==> td.Some? && Seconds(td.value) <= now
    ensures r.At? ==> r.t == now - Seconds(td.value)
  {
    match td
    case None => Overflow
    case Some(d) => Subtract(now, d)
  }

  /** The unit dispatch of parse_relative_time, including its final `else`. */
  function Ago(now: Instant, val: nat, unit: string): (r: Stamp)
    ensures r.At? ==> r.t <= now
  {
    if unit == "minute" || unit == "min" then Before(now, Timedelta(minutes := val))
    else if unit == "hour" || unit == "hr" then Before(now, Timedelta(hours := val))
    else if unit == "day" then Before(now, Timedelta(days := val))
    else if unit == "week" then Before(now, Timedelta(weeks := val))
    else if unit == "month" then Before(now, Timedelta(days := val * 30))
    else NoTime
  }

  /** `parse_relative_time(text)`, with the clock reading `now` as a parameter. */
  function ParseRelativeTime(text: Option<string>, now: Instant): (r: Stamp)
    ensures r.At? ==> r.t <= now
    ensures text.Some? && text.value != [] && Search(Fold(text.value)).Some? ==> r != NoTime
  {
    if text.None? || text.value == [] then NoTime
    else
      var s := Fold(text.value);
      match Search(s)
      case None => NoTime
      case Some(h) => Ago(now, Value(h.digits), Units[h.unit])
  }

  /** Minutes per unit alternative, in the order of Units: a month counts as 30 days. */
  const UnitMinutes: seq<nat> := [1, 1, 60, 60, 1440, 10080, 43200]

  /**
   * Every unit the pattern can capture selects a branch other than the final
   * `else`, and that branch moves `val` times the unit's length in minutes
   * back from `now`, failing only when that would precede the earliest
   * instant.
   */
  lemma AgoByUnit(now: Instant, val: nat, u: nat)
    requires u < |Units|
    ensures Ago(now, val, Units[u]) != NoTime
    ensures Ago(now, val, Units[u]).At? <==> 60 * (val * UnitMinutes[u]) <= now
    ensures Ago(now, val, Units[u]).At? ==> Ago(now, val, Units[u]).t == now - 60 * (val * UnitMinutes[u])
  {
    if u == 4 || u == 6 {
      var d := if u == 4 then 1 else 30;
      assert Timedelta(days := val * d).Some? ==> Seconds(Timedelta(days := val * d).value) == 86400 * (val * d);
      assert 60 * (val * UnitMinutes[u]) == 86400 * (val * d);
    } else if u == 5 {
      assert 60 * (val * UnitMinutes[u]) == 604800 * val;
    }
  }

  /** For a fixed unit, a larger amount never gives a later instant. */
  lemma AgoMonotone(now: Instant, v1: nat, v2: nat, u: nat)
    requires u < |Units| && v1 <= v2
    ensures Ago(now, v2, Units[u]).At? ==> Ago(now, v1, Units[u]).At?
    ensures Ago(now, v2, Units[u]).At? ==> Ago(now, v2, Units[u]).t <= Ago(now, v1, Units[u]).t
  {
    AgoByUnit(now, v1, u);
    AgoByUnit(now, v2, u);
    assert v1 * UnitMinutes[u] <= v2 * UnitMinutes[u] by {
      var f := UnitMinutes[u];
      assert v2 * f == v1 * f + (v2 - v1) * f;
    }
  }

  /**
   * The parser's whole behaviour. It yields no time exactly when the text is
   * `None`, empty, or holds no match of the pattern once stripped and
   * lower-cased. Otherwise, for the match `re.search` reports, the instant is
   * `now` minus the amount times the unit's length, never later than `now`,
   * and an OverflowError when that would precede the earliest instant.
   */
  lemma ParseRelativeTimeSpec(text: Option<string>, now: Instant)
    ensures ParseRelativeTime(text, now) == NoTime <==>
      text.None? || text.value == [] || !HasPattern(Fold(text.value))
    ensures forall h :: text.Some? && IsSearchResult(Fold(text.value), h) ==>
      var minutes := Value(h.digits) * UnitMinutes[h.unit];
      var r := ParseRelativeTime(text, now);
      && (r.At? <==> 60 * minutes <= now)
      && (r.At? ==> r.t == now - 60 * minutes && r.t <= now)
      && (r.Overflow? <==> 60 * minutes > now)
  {
    if text.Some? {
      var s := Fold(text.value);
      SearchSpec(s);
      if text.value == [] {
        assert Strip(text.value) == [];
        assert !HasPattern(s);
      }
      if Search(s).Some? {
        var h := Search(s).value;
        AgoByUnit(now, Value(h.digits), h.unit);
        forall h' | IsSearchResult(s, h') ensures h' == h {
          SearchResultUnique(s, h, h');
        }
      }
    }
  }

  // ---------------------------------------------------------------------
  // Case and surrounding white space
  // ---------------------------------------------------------------------

  lemma {:induction false} LowerAppend(a: string, b: string)
    ensures Lower(a + b) == Lower(a) + Lower(b)
  {
    if a != [] {
      assert (a + b)[0] == a[0] && (a + b)[1..] == a[1..] + b;
      LowerAppend(a[1..], b);
    } else {
      assert a + b == b;
    }
  }

  /** A lower-cased text holds no capital ASCII letter. */
  lemma {:induction false} LowerNoCapital(s: string)
    ensures NoCapital(Lower(s))
  {
    if s != [] {
      LowerNoCapital(s[1..]);
      var l, rest := LowerChar(s[0]), Lower(s[1..]);
      assert NoCapital(l);
      assert Lower(s) == l + rest;
      assert forall k :: 0 <= k < |l + rest| ==> (l + rest)[k] == if k < |l| then l[k] else rest[k - |l|];
    }
  }

  lemma {:induction false} LowerTrimStart(s: string)
    ensures Lower(TrimStart(s)) == TrimStart(Lower(s))
  {
    if s != [] {
      var l, rest := LowerChar(s[0]), Lower(s[1..]);
      assert Lower(s) == l + rest;
      if IsSpace(s[0]) {
        LowerTrimStart(s[1..]);
        TrimStartDrops(l + rest);
      } else {
        TrimStartKeeps(l + rest);
      }
    }
  }

  /** TrimStart past one leading white space character. */
  lemma TrimStartDrops(t: string)
    requires t != [] && IsSpace(t[0])
    ensures TrimStart(t) == TrimStart(t[1..])
  {
  }

  /** TrimStart of a text that starts with another character. */
  lemma TrimStartKeeps(t: string)
    requires t != [] && !IsSpace(t[0])
    ensures TrimStart(t) == t
  {
  }

  lemma {:induction false} LowerTrimEnd(s: string)
    ensures Lower(TrimEnd(s)) == TrimEnd(Lower(s))
  {
    if s != [] {
      var init, last := s[..|s| - 1], s[|s| - 1];
      assert s == init + [last];
      LowerAppend(init, [last]);
      assert Lower([last]) == LowerChar(last);
      if IsSpace(last) {
        LowerTrimEnd(init);
        assert Lower(s) == Lower(init) + [last];
        assert Lower(s)[..|Lower(s)| - 1] == Lower(init);
      }
    }
  }

  lemma {:induction false} LowerEmpty(s: string)
    ensures Lower(s) == [] <==> s == []
  {
    if s != [] {
      assert |LowerChar(s[0])| > 0;
    }
  }

  /**
   * Matching ignores case: two labels that lower-case alike are parsed
   * alike, because the text is lower-cased before the search.
   */
  lemma ParseIgnoresCase(a: string, b: string, now: Instant)
    requires Lower(a) == Lower(b)
    ensures ParseRelativeTime(Some(a), now) == ParseRelativeTime(Some(b), now)
  {
    LowerEmpty(a);
    LowerEmpty(b);
    FoldOfLower(a);
    FoldOfLower(b);
  }

  lemma FoldOfLower(s: string)
    ensures Fold(s) == TrimEnd(TrimStart(Lower(s)))
  {
    LowerTrimEnd(TrimStart(s));
    LowerTrimStart(s);
  }
}
