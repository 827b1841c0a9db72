/**
 * String helpers shared by the station form, the station list and the
 * recorder: the JavaScript `String.prototype.trim` whitespace set, prefix
 * tests, decimal rendering of counters (`n.toString()`,
 * `padStart(2, '0')`), the inverse reading of such decimals, and decimal
 * `parseInt`.
 */
module Text {
  import opened Optional

  /** WhiteSpace and LineTerminator code points that `trim` removes (Unicode Zs included). */
  predicate IsSpace(c: char)
    ensures IsLineTerminator(c) ==> IsSpace(c)
    ensures IsSpace(c) ==> !IsDigit(c) && c != '#' && c != ','
  {
    || c == '\U{0009}' || c == '\U{000A}' || c == '\U{000B}' || c == '\U{000C}' || c == '\U{000D}'
    || c == '\U{0020}' || c == '\U{00A0}' || c == '\U{1680}'
    || ('\U{2000}' <= c <= '\U{200A}')
    || c == '\U{2028}' || c == '\U{2029}' || c == '\U{202F}' || c == '\U{205F}' || c == '\U{3000}'
    || c == '\U{FEFF}'
  }

  /** The characters that `.` in a JavaScript regular expression does not match. */
  predicate IsLineTerminator(c: char) {
    c == '\U{000A}' || c == '\U{000D}' || c == '\U{2028}' || c == '\U{2029}'
  }

  predicate AllSpace(s: string) {
    forall i :: 0 <= i < |s| ==> IsSpace(s[i])
  }

  /** A string that `trim` leaves as it is. */
  predicate Trimmed(s: string) {
    s == [] || (!IsSpace(s[0]) && !IsSpace(s[|s| - 1]))
  }

  function TrimStart(s: string): (r: string)
    ensures |r| <= |s|
    ensures r == [] || !IsSpace(r[0])
  {
    if s == [] || !IsSpace(s[0]) then s else TrimStart(s[1..])
  }

  /** `TrimStart` removes a run of whitespace from the front and nothing else. */
  lemma {:induction false} TrimStartSpec(s: string)
    ensures TrimStart(s) == s[|s| - |TrimStart(s)|..]
    ensures AllSpace(s[..|s| - |TrimStart(s)|])
  {
    if s != [] && IsSpace(s[0]) {
      var r := TrimStart(s[1..]);
      TrimStartSpec(s[1..]);
      assert s[1..][..|s| - 1 - |r|] == s[1..|s| - |r|];
    }
  }

  function TrimEnd(s: string): (r: string)
    ensures |r| <= |s|
    ensures r == [] || !IsSpace(r[|r| - 1])
  {
    if s == [] || !IsSpace(s[|s| - 1]) then s else TrimEnd(s[..|s| - 1])
  }

  /** `TrimEnd` removes a run of whitespace from the back and nothing else. */
  lemma {:induction false} TrimEndSpec(s: string)
    ensures TrimEnd(s) == s[..|TrimEnd(s)|]
    ensures AllSpace(s[|TrimEnd(s)|..])
  {
    if s != [] && IsSpace(s[|s| - 1]) {
      var r := TrimEnd(s[..|s| - 1]);
      TrimEndSpec(s[..|s| - 1]);
      assert s[..|s| - 1][|r|..] == s[|r|..|s| - 1];
    }
  }

  /** `s.trim()`: whitespace removed from both ends. */
  function Trim(s: string): (r: string)
    ensures |r| <= |s|
    ensures Trimmed(r)
  {
    var a := TrimStart(s);
    TrimEndSpec(a);
    TrimEnd(a)
  }

  /** `trim` removes whitespace from the two ends and touches nothing else. */
  lemma TrimRemovesOnlyEnds(s: string)
    ensures exists i, j :: 0 <= i <= j <= |s| && Trim(s) == s[i..j] && AllSpace(s[..i]) && AllSpace(s[j..])
  {
    var a := TrimStart(s);
    var r := TrimEnd(a);
    TrimStartSpec(s);
    TrimEndSpec(a);
    var i := |s| - |a|;
    assert r == s[i..i + |r|];
    assert s[i + |r|..] == a[|r|..];
  }

  lemma {:induction false} TrimStartOfTrimmed(s: string)
    requires s == [] || !IsSpace(s[0])
    ensures TrimStart(s) == s
  {
  }

  lemma {:induction false} TrimEndOfTrimmed(s: string)
    requires s == [] || !IsSpace(s[|s| - 1])
    ensures TrimEnd(s) == s
  {
  }

  /** A string with no whitespace at either end is its own trim. */
  lemma TrimOfTrimmed(s: string)
    requires Trimmed(s)
    ensures Trim(s) == s
  {
    TrimStartOfTrimmed(s);
    TrimEndOfTrimmed(s);
  }

  /** Trimming twice is trimming once. */
  lemma TrimIdempotent(s: string)
    ensures Trim(Trim(s)) == Trim(s)
  {
    TrimOfTrimmed(Trim(s));
  }

  /** `s.trim()` is empty exactly when every character of `s` is whitespace. */
  lemma {:induction false} TrimEmptyIff(s: string)
    ensures Trim(s) == [] <==> AllSpace(s)
  {
    var a := TrimStart(s);
    TrimStartSpec(s);
    TrimEndSpec(a);
    assert a != [] ==> a[0] == s[|s| - |a|];
    if Trim(s) == [] {
      assert AllSpace(a[0..]);
      assert a == [];
      assert s[..|s| - |a|] == s;
    }
  }

  predicate StartsWith(s: string, prefix: string) {
    |prefix| <= |s| && s[..|prefix|] == prefix
  }

  /** `s.indexOf(c)`, with the length standing for "not found". */
  function IndexOf(s: string, c: char): (i: nat)
    ensures i <= |s|
    ensures forall k :: 0 <= k < i ==> s[k] != c
    ensures i < |s| ==> s[i] == c
  {
    if s == [] || s[0] == c then 0 else 1 + IndexOf(s[1..], c)
  }

  /** The first `c` of a text is the one after a prefix free of `c`. */
  lemma {:induction false} IndexOfAfter(first: string, c: char, rest: string)
    requires c !in first
    ensures IndexOf(first + [c] + rest, c) == |first|
  {
    var s := first + [c] + rest;
    if first == [] {
      assert s[0] == c;
    } else {
      assert s[0] == first[0];
      assert s[1..] == first[1..] + [c] + rest;
      assert c !in first[1..] by {
        forall k | 0 <= k < |first[1..]| ensures first[1..][k] != c {
          assert first[1..][k] == first[k + 1];
        }
      }
      IndexOfAfter(first[1..], c, rest);
    }
  }

  /** `c` is the letter `lower` in either case, as a case-insensitive pattern matches it. */
  predicate EitherCase(c: char, lower: char, upper: char) {
    c == lower || c == upper
  }

  /** `/^https?:\/\//i.test(s)`: `http://` or `https://` at the start, letters in either case. */
  predicate HasScheme(s: string)
    ensures StartsWith(s, "http://") || StartsWith(s, "https://") ==> HasScheme(s)
    ensures HasScheme(s) ==> |s| >= 7 && (s[4..7] == "://" || (|s| >= 8 && s[5..8] == "://"))
  {
    && |s| >= 7
    && EitherCase(s[0], 'h', 'H') && EitherCase(s[1], 't', 'T') && EitherCase(s[2], 't', 'T')
    && EitherCase(s[3], 'p', 'P')
    && ((s[4] == ':' && s[5] == '/' && s[6] == '/')
        || (|s| >= 8 && EitherCase(s[4], 's', 'S') && s[5] == ':' && s[6] == '/' && s[7] == '/'))
  }

  predicate IsDigit(c: char) { '0' <= c <= '9' }

  predicate AllDigits(s: string) {
    forall i :: 0 <= i < |s| ==> IsDigit(s[i])
  }

  function DigitChar(d: nat): (c: char)
    requires d < 10
    ensures IsDigit(c) && c as int - '0' as int == d
  {
    ['0', '1', '2', '3', '4', '5', '6', '7', '8', '9'][d]
  }

  function DigitValue(c: char): nat
    requires IsDigit(c)
  {
    c as int - '0' as int
  }

  /** `n.toString()` for a non-negative integer: its decimal digits, no leading zero. */
  function NatToString(n: nat): (r: string)
    ensures 1 <= |r| && AllDigits(r)
    ensures |r| > 1 ==> r[0] != '0'
    ensures n < 10 <==> |r| == 1
  {
    if n < 10 then [DigitChar(n)] else NatToString(n / 10) + [DigitChar(n % 10)]
  }

  /** The number a string of decimal digits denotes. */
  function DecimalValue(s: string): nat
    requires AllDigits(s)
  {
    if s == [] then 0 else DecimalValue(s[..|s| - 1]) * 10 + DigitValue(s[|s| - 1])
  }

  /** Reading back a rendered number gives the number. */
  lemma {:induction false} DecimalOfNatToString(n: nat)
    ensures DecimalValue(NatToString(n)) == n
  {
    if n >= 10 {
      var r := NatToString(n);
      assert r[..|r| - 1] == NatToString(n / 10);
      DecimalOfNatToString(n / 10);
    }
  }

  /** Rendering is injective: distinct numbers give distinct strings. */
  lemma NatToStringInjective(m: nat, n: nat)
    requires NatToString(m) == NatToString(n)
    ensures m == n
  {
    DecimalOfNatToString(m);
    DecimalOfNatToString(n);
  }

  /** `n.toString().padStart(2, '0')`. */
  function Pad2(n: nat): (r: string)
    ensures |r| >= 2 && AllDigits(r)
    ensures n < 100 ==> |r| == 2
  {
    if n < 10 then "0" + NatToString(n) else NatToString(n)
  }

  /** A padded number still reads back as the number. */
  lemma Pad2Value(n: nat)
    ensures DecimalValue(Pad2(n)) == n
  {
    DecimalOfNatToString(n);
    if n < 10 {
      var r := Pad2(n);
      assert r[..|r| - 1] == "0";
    }
  }

  /** A local date and time as the `Date` getters give it, `getMonth() + 1` already applied. */
  datatype Clock = Clock(day: nat, month: nat, year: nat, hours: nat, minutes: nat, seconds: nat)

  predicate ValidClock(c: Clock) {
    1 <= c.day <= 31 && 1 <= c.month <= 12 && c.hours < 24 && c.minutes < 60 && c.seconds < 60
  }

  function StampDate(c: Clock): string {
    Pad2(c.day) + "-" + Pad2(c.month) + "-"
  }

  function StampTime(c: Clock): string {
    "-" + Pad2(c.hours) + "-" + Pad2(c.minutes) + "-" + Pad2(c.seconds)
  }

  /** `dd-mm-yyyy-hh-mm-ss`: every part but the year padded to two digits. */
  function Stamp(c: Clock): (r: string)
    ensures ValidClock(c) ==> |r| == |NatToString(c.year)| + 15
    ensures |r| >= |StampDate(c)| + |StampTime(c)|
    ensures r[..|StampDate(c)|] == StampDate(c) && r[|r| - |StampTime(c)|..] == StampTime(c)
  {
    StampDate(c) + NatToString(c.year) + StampTime(c)
  }

  lemma StampDateFields(c: Clock)
    requires ValidClock(c)
    ensures |StampDate(c)| == 6
    ensures StampDate(c)[0..2] == Pad2(c.day) && StampDate(c)[3..5] == Pad2(c.month)
  {
  }

  lemma StampTimeFields(c: Clock)
    requires ValidClock(c)
    ensures |StampTime(c)| == 9
    ensures StampTime(c)[1..3] == Pad2(c.hours) && StampTime(c)[4..6] == Pad2(c.minutes)
    ensures StampTime(c)[7..9] == Pad2(c.seconds)
  {
  }

  /** Three pieces glued together come apart again when the outer two have known lengths. */
  lemma Unglue<T>(a: seq<T>, b: seq<T>, c: seq<T>, a': seq<T>, b': seq<T>, c': seq<T>)
    requires |a| == |a'| && |c| == |c'|
    requires a + b + c == a' + b' + c'
    ensures a == a' && b == b' && c == c'
  {
    var s := a + b + c;
    assert a == s[..|a|] && a' == s[..|a|];
    assert c == s[|s| - |c|..] && c' == s[|s| - |c|..];
    assert b == s[|a|..|s| - |c|] && b' == s[|a|..|s| - |c|];
  }

  /** Different instants, to the second, give different stamps. */
  lemma StampInjective(c: Clock, d: Clock)
    requires ValidClock(c) && ValidClock(d)
    requires Stamp(c) == Stamp(d)
    ensures c == d
  {
    StampDateFields(c);
    StampDateFields(d);
    StampTimeFields(c);
    StampTimeFields(d);
    Unglue(StampDate(c), NatToString(c.year), StampTime(c), StampDate(d), NatToString(d.year), StampTime(d));
    NatToStringInjective(c.year, d.year);
    Pad2Value(c.day);
    Pad2Value(d.day);
    Pad2Value(c.month);
    Pad2Value(d.month);
    Pad2Value(c.hours);
    Pad2Value(d.hours);
    Pad2Value(c.minutes);
    Pad2Value(d.minutes);
    Pad2Value(c.seconds);
    Pad2Value(d.seconds);
  }

  /** The longest run of decimal digits at the front of `s`. */
  function LeadingDigits(s: string): (r: string)
    ensures AllDigits(r) && |r| <= |s| && r == s[..|r|]
    ensures |r| < |s| ==> !IsDigit(s[|r|])
  {
    if s == [] || !IsDigit(s[0]) then [] else [s[0]] + LeadingDigits(s[1..])
  }

  lemma {:induction false} LeadingDigitsOfDigits(s: string)
    requires AllDigits(s)
    ensures LeadingDigits(s) == s
  {
    if s != [] {
      LeadingDigitsOfDigits(s[1..]);
    }
  }

  /**
   * `parseInt(s)` without a radix, for decimal text: leading whitespace is
   * skipped, an optional sign is read, then the longest run of digits;
   * `None` stands for `NaN` (no digit at all).
   */
  function ParseInt(s: string): (r: Option<int>)
    ensures r.None? <==> LeadingDigits(Unsigned(TrimStart(s))) == []
  {
    var t := TrimStart(s);
    var digits := LeadingDigits(Unsigned(t));
    if digits == [] then None
    else if t[0] == '-' then Some(-(DecimalValue(digits) as int))
    else Some(DecimalValue(digits))
  }

  /** The text after a leading `+` or `-`, if there is one. */
  function Unsigned(t: string): string {
    if t != [] && (t[0] == '-' || t[0] == '+') then t[1..] else t
  }

  /** `parseInt` reads back what `toString` writes. */
  lemma ParseIntOfNatToString(n: nat)
    ensures ParseInt(NatToString(n)) == Some(n)
  {
    var r := NatToString(n);
    assert IsDigit(r[0]);
    TrimStartOfTrimmed(r);
    assert Unsigned(r) == r;
    LeadingDigitsOfDigits(r);
    DecimalOfNatToString(n);
  }
}
