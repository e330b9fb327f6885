/**
 * The string helpers of the server's `Tools` class: node-name and MAC
 * address validation, human-readable durations and SSID sanitising.
 * Java strings are sequences of characters; `null` is `None` where the
 * source checks for it.
 */
module Tools {
  import opened Wrappers
  import opened JavaLong

  // ---------------------------------------------------------------------
  // String.trim
  // ---------------------------------------------------------------------

  /** The characters `String.trim` removes: U+0000 through U+0020. */
  predicate Blank(c: char) {
    c <= ' '
  }

  /** How many blanks open the string. */
  function LeadingBlanks(s: string): (n: nat)
    ensures n <= |s|
    ensures forall i | 0 <= i < n :: Blank(s[i])
    ensures n < |s| ==> !Blank(s[n])
  {
    if |s| > 0 && Blank(s[0]) then 1 + LeadingBlanks(s[1..]) else 0
  }

  /** How many blanks close the string. */
  function TrailingBlanks(s: string): (n: nat)
    ensures n <= |s|
    ensures forall i | |s| - n <= i < |s| :: Blank(s[i])
    ensures n < |s| ==> !Blank(s[|s| - 1 - n])
  {
    if |s| > 0 && Blank(s[|s| - 1]) then 1 + TrailingBlanks(s[..|s| - 1]) else 0
  }

  /**
   * `String.trim`: the string without its leading and trailing blanks. It
   * is empty exactly when every character is blank, it neither starts nor
   * ends with a blank, and it is the part of the input that holds every
   * non-blank character.
   */
  function Trim(s: string): (r: string)
    ensures |r| == 0 <==> forall i | 0 <= i < |s| :: Blank(s[i])
    ensures |r| > 0 ==> !Blank(r[0]) && !Blank(r[|r| - 1])
    ensures LeadingBlanks(s) + |r| <= |s| && r == s[LeadingBlanks(s)..LeadingBlanks(s) + |r|]
    ensures forall i | 0 <= i < |s| && !Blank(s[i]) :: LeadingBlanks(s) <= i < LeadingBlanks(s) + |r|
  {
    var a := LeadingBlanks(s);
    if a == |s| then [] else s[a..|s| - TrailingBlanks(s)]
  }

  /** A string that neither starts nor ends with a blank is its own trim. */
  lemma TrimKeepsTrimmed(s: string)
    requires |s| > 0 ==> !Blank(s[0]) && !Blank(s[|s| - 1])
    ensures Trim(s) == s
  {
    if |s| > 0 {
      assert LeadingBlanks(s) == 0;
      assert TrailingBlanks(s) == 0;
    }
  }

  // ---------------------------------------------------------------------
  // isSafeNodeName
  // ---------------------------------------------------------------------

  /** The character class of `SAFE_ID`: ASCII letters, digits, `-` and `_`. */
  predicate SafeIdChar(c: char) {
    'a' <= c <= 'z' || 'A' <= c <= 'Z' || '0' <= c <= '9' || c == '-' || c == '_'
  }

  /** `SAFE_ID.matcher(x).matches()`: one or more characters, all in the class, the whole string. */
  predicate MatchesSafeId(s: string) {
    |s| > 0 && forall i | 0 <= i < |s| :: SafeIdChar(s[i])
  }

  /**
   * `isSafeNodeName`: no name at all, an empty or all-blank name is
   * refused; otherwise the name must be shorter than 255 characters and
   * match `SAFE_ID`. The blank test adds nothing to the pattern, so a name is
   * safe exactly when it has 1 to 254 characters from the class.
   */
  function IsSafeNodeName(x: Option<string>): (r: bool)
    ensures x.None? ==> !r
    ensures x.Some? && (forall i | 0 <= i < |x.value| :: Blank(x.value[i])) ==> !r
    ensures r <==> x.Some? && 0 < |x.value| < 255 && forall i | 0 <= i < |x.value| :: SafeIdChar(x.value[i])
  {
    match x
    case None => false
    case Some(s) =>
      if |Trim(s)| == 0 then false
      else |s| < 255 && MatchesSafeId(s)
  }

  // ---------------------------------------------------------------------
  // isValidMacAddress
  // ---------------------------------------------------------------------

  predicate HexDigit(c: char) {
    '0' <= c <= '9' || 'a' <= c <= 'f' || 'A' <= c <= 'F'
  }

  /** Two hex digits at `i`. */
  predicate PairAt(s: string, i: nat)
    requires i + 2 <= |s|
  {
    HexDigit(s[i]) && HexDigit(s[i + 1])
  }

  /** The body of `VALID_MAC` at the start of `s`: six hex pairs joined by colons, 17 characters. */
  predicate MacAt(s: string) {
    && |s| >= 17
    && PairAt(s, 0) && s[2] == ':' && PairAt(s, 3) && s[5] == ':' && PairAt(s, 6) && s[8] == ':'
    && PairAt(s, 9) && s[11] == ':' && PairAt(s, 12) && s[14] == ':' && PairAt(s, 15)
  }

  /** The line terminators of `java.util.regex` outside UNIX_LINES mode (`\r\n` is handled by `EndAnchor`). */
  predicate LineTerminator(c: char) {
    c == '\n' || c == '\r' || c == '\U{85}' || c == '\U{2028}' || c == '\U{2029}'
  }

  /** Where `$` without MULTILINE matches: at the end of input, or before a line terminator that ends it. */
  predicate EndAnchor(rest: string) {
    |rest| == 0 || (|rest| == 1 && LineTerminator(rest[0])) || rest == "\r\n"
  }

  /**
   * `isValidMacAddress`: no text or empty text is refused; otherwise
   * `VALID_MAC.matcher(addr).find()`. The pattern opens with `^`, so only a
   * match at the start counts, and its closing `$` lets one final line
   * terminator follow the address.
   */
  function IsValidMacAddress(addr: Option<string>): (r: bool)
    ensures addr.None? || addr == Some("") ==> !r
    ensures r ==> 17 <= |addr.value| <= 19
  {
    match addr
    case None => false
    case Some(s) => |s| > 0 && MacAt(s) && EndAnchor(s[17..])
  }

  function HexValue(c: char): (r: nat)
    requires HexDigit(c)
    ensures r < 16
  {
    if c <= '9' then c as int - '0' as int
    else if c <= 'F' then c as int - 'A' as int + 10
    else c as int - 'a' as int + 10
  }

  /** The hex digit of a value below 16, in lower or upper case. */
  function HexChar(d: nat, upper: bool): (r: char)
    requires d < 16
    ensures HexDigit(r) && HexValue(r) == d
  {
    if d < 10 then (d + '0' as int) as char
    else if upper then (d - 10 + 'A' as int) as char
    else (d - 10 + 'a' as int) as char
  }

  /** A hex digit in lower case. */
  function LowerHex(c: char): char {
    if 'A' <= c <= 'F' then (c as int - 'A' as int + 'a' as int) as char else c
  }

  /** An upper-case hex letter. */
  predicate UpperHex(c: char) {
    'A' <= c <= 'F'
  }

  /**
   * The six octets of a MAC address written as colon-separated hex pairs;
   * `cases[j]` picks upper case for the `j`-th of the twelve digits.
   */
  function FormatMac(o: seq<byte>, cases: seq<bool>): (r: string)
    requires |o| == 6 && |cases| == 12
    ensures |r| == 17
  {
    [HexChar(o[0] / 16, cases[0]), HexChar(o[0] % 16, cases[1]), ':',
     HexChar(o[1] / 16, cases[2]), HexChar(o[1] % 16, cases[3]), ':',
     HexChar(o[2] / 16, cases[4]), HexChar(o[2] % 16, cases[5]), ':',
     HexChar(o[3] / 16, cases[6]), HexChar(o[3] % 16, cases[7]), ':',
     HexChar(o[4] / 16, cases[8]), HexChar(o[4] % 16, cases[9]), ':',
     HexChar(o[5] / 16, cases[10]), HexChar(o[5] % 16, cases[11])]
  }

  /** One case for all twelve digits. */
  function Uniform(upper: bool): (r: seq<bool>)
    ensures |r| == 12 && forall j | 0 <= j < 12 :: r[j] == upper
  {
    seq(12, _ => upper)
  }

  /** The case of each of the twelve digits of the address at the start of `s`. */
  function MacCases(s: string): (r: seq<bool>)
    requires |s| >= 17
    ensures |r| == 12
  {
    [UpperHex(s[0]), UpperHex(s[1]), UpperHex(s[3]), UpperHex(s[4]), UpperHex(s[6]), UpperHex(s[7]),
     UpperHex(s[9]), UpperHex(s[10]), UpperHex(s[12]), UpperHex(s[13]), UpperHex(s[15]), UpperHex(s[16])]
  }

  /** The octet spelled by the hex pair at `i`. */
  function PairValue(s: string, i: nat): (r: byte)
    requires i + 2 <= |s| && PairAt(s, i)
  {
    HexValue(s[i]) * 16 + HexValue(s[i + 1])
  }

  /** The six octets of the address at the start of `s`. */
  function MacOctets(s: string): (r: seq<byte>)
    requires MacAt(s)
    ensures |r| == 6
  {
    [PairValue(s, 0), PairValue(s, 3), PairValue(s, 6), PairValue(s, 9), PairValue(s, 12), PairValue(s, 15)]
  }

  /**
   * A formatted address is accepted, with any mix of letter cases, with
   * nothing after it or one final line terminator, and its octets read
   * back; any other text after it is refused.
   */
  lemma FormattedMacAccepted(o: seq<byte>, cases: seq<bool>, rest: string)
    requires |o| == 6 && |cases| == 12
    ensures IsValidMacAddress(Some(FormatMac(o, cases) + rest)) <==> EndAnchor(rest)
    ensures MacAt(FormatMac(o, cases) + rest) && MacOctets(FormatMac(o, cases) + rest) == o
  {
    var s := FormatMac(o, cases) + rest;
    assert s[17..] == rest;
    assert MacAt(s);
  }

  /** The hex digit of a digit's value is that digit in lower case, and in its own case the digit itself. */
  lemma HexCharOfValue(c: char)
    requires HexDigit(c)
    ensures HexChar(HexValue(c), false) == LowerHex(c)
    ensures HexChar(HexValue(c), UpperHex(c)) == c
  {
  }

  /** The 17 characters of an address at the start of `s`, hex digits in lower case. */
  function LowerMac(s: string): (r: string)
    requires |s| >= 17
    ensures |r| == 17
  {
    [LowerHex(s[0]), LowerHex(s[1]), ':', LowerHex(s[3]), LowerHex(s[4]), ':',
     LowerHex(s[6]), LowerHex(s[7]), ':', LowerHex(s[9]), LowerHex(s[10]), ':',
     LowerHex(s[12]), LowerHex(s[13]), ':', LowerHex(s[15]), LowerHex(s[16])]
  }

  /**
   * An octet read from a pair of hex digits and written back gives the
   * digits in lower case, and the digits themselves in their own case.
   */
  lemma PairRoundTrip(o: seq<byte>, k: nat, s: string, i: nat)
    requires k < |o| && i + 2 <= |s| && PairAt(s, i) && o[k] == PairValue(s, i)
    ensures HexChar(o[k] / 16, false) == LowerHex(s[i])
    ensures HexChar(o[k] % 16, false) == LowerHex(s[i + 1])
    ensures HexChar(o[k] / 16, UpperHex(s[i])) == s[i]
    ensures HexChar(o[k] % 16, UpperHex(s[i + 1])) == s[i + 1]
  {
    var hi, lo := HexValue(s[i]), HexValue(s[i + 1]);
    assert o[k] / 16 == hi && o[k] % 16 == lo;
    HexCharOfValue(s[i]);
    HexCharOfValue(s[i + 1]);
  }

  /**
   * The first three octets of an address, written back, give its first
   * three pairs in lower case, and in the case of each digit the pairs
   * themselves.
   */
  lemma MacDigitsFirst(s: string, o: seq<byte>)
    requires MacAt(s) && o == MacOctets(s)
    ensures HexChar(o[0] / 16, false) == LowerHex(s[0]) && HexChar(o[0] % 16, false) == LowerHex(s[1])
    ensures HexChar(o[1] / 16, false) == LowerHex(s[3]) && HexChar(o[1] % 16, false) == LowerHex(s[4])
    ensures HexChar(o[2] / 16, false) == LowerHex(s[6]) && HexChar(o[2] % 16, false) == LowerHex(s[7])
    ensures HexChar(o[0] / 16, UpperHex(s[0])) == s[0] && HexChar(o[0] % 16, UpperHex(s[1])) == s[1]
    ensures HexChar(o[1] / 16, UpperHex(s[3])) == s[3] && HexChar(o[1] % 16, UpperHex(s[4])) == s[4]
    ensures HexChar(o[2] / 16, UpperHex(s[6])) == s[6] && HexChar(o[2] % 16, UpperHex(s[7])) == s[7]
  {
    PairRoundTrip(o, 0, s, 0);
    PairRoundTrip(o, 1, s, 3);
    PairRoundTrip(o, 2, s, 6);
  }

  /**
   * The last three octets of an address, written back, give its last three
   * pairs in lower case, and in the case of each digit the pairs themselves.
   */
  lemma MacDigitsLast(s: string, o: seq<byte>)
    requires MacAt(s) && o == MacOctets(s)
    ensures HexChar(o[3] / 16, false) == LowerHex(s[9]) && HexChar(o[3] % 16, false) == LowerHex(s[10])
    ensures HexChar(o[4] / 16, false) == LowerHex(s[12]) && HexChar(o[4] % 16, false) == LowerHex(s[13])
    ensures HexChar(o[5] / 16, false) == LowerHex(s[15]) && HexChar(o[5] % 16, false) == LowerHex(s[16])
    ensures HexChar(o[3] / 16, UpperHex(s[9])) == s[9] && HexChar(o[3] % 16, UpperHex(s[10])) == s[10]
    ensures HexChar(o[4] / 16, UpperHex(s[12])) == s[12] && HexChar(o[4] % 16, UpperHex(s[13])) == s[13]
    ensures HexChar(o[5] / 16, UpperHex(s[15])) == s[15] && HexChar(o[5] % 16, UpperHex(s[16])) == s[16]
  {
    PairRoundTrip(o, 3, s, 9);
    PairRoundTrip(o, 4, s, 12);
    PairRoundTrip(o, 5, s, 15);
  }

  /**
   * Every accepted address is a formatted one: its first 17 characters are
   * the formatting of its octets in the case of each of its digits, in lower
   * case they are the lower-case formatting, and what follows is empty or
   * one line terminator.
   */
  lemma AcceptedMacIsFormatted(s: string)
    requires IsValidMacAddress(Some(s))
    ensures MacAt(s) && EndAnchor(s[17..])
    ensures FormatMac(MacOctets(s), MacCases(s)) == s[..17]
    ensures FormatMac(MacOctets(s), Uniform(false)) == LowerMac(s)
  {
    MacKeepsCase(s);
    MacDigitsFirst(s, MacOctets(s));
    MacDigitsLast(s, MacOctets(s));
  }

  /** The octets of an address, written in the case of its own digits, give back its 17 characters. */
  lemma MacKeepsCase(s: string)
    requires MacAt(s)
    ensures FormatMac(MacOctets(s), MacCases(s)) == s[..17]
  {
    var o, f := MacOctets(s), FormatMac(MacOctets(s), MacCases(s));
    MacDigitsFirst(s, o);
    MacDigitsLast(s, o);
    forall j | 0 <= j < 17
      ensures f[j] == s[j]
    {
    }
  }

  // ---------------------------------------------------------------------
  // durationToHumanReadable
  // ---------------------------------------------------------------------

  const MillisPerSecond: nat := 1000
  const MillisPerMinute: nat := 60_000
  const MillisPerHour: nat := 3_600_000
  const MillisPerDay: nat := 86_400_000

  /**
   * `durationToHumanReadable` on a duration of `millis` milliseconds. The
   * standard seconds, minutes, hours and days are Java quotients, which
   * truncate toward zero; the count is printed with `Long.toString`.
   */
  function DurationToHumanReadable(millis: int): (r: string)
    ensures r == "n/a" <==> -1000 < millis < 1000
  {
    var seconds := Quot(millis, MillisPerSecond);
    if seconds == 0 then "n/a"
    else if seconds < 60 then Format(seconds) + " seconds"
    else if Quot(millis, MillisPerHour) < 2 then Format(Quot(millis, MillisPerMinute)) + " minutes"
    else if Quot(millis, MillisPerDay) <= 3 then Format(Quot(millis, MillisPerHour)) + " hours"
    else Format(Quot(millis, MillisPerDay)) + " days"
  }

  /**
   * The buckets of a non-negative duration: under a second "n/a"; under a
   * minute 1 to 59 seconds; under two hours 1 to 119 minutes; under four
   * days 2 to 95 hours; from four days on the number of whole days.
   */
  lemma DurationBuckets(millis: int)
    requires millis >= 0
    ensures millis < 1000 ==> DurationToHumanReadable(millis) == "n/a"
    ensures 1000 <= millis < 60_000 ==>
              DurationToHumanReadable(millis) == Format(millis / 1000) + " seconds" && 1 <= millis / 1000 <= 59
    ensures 60_000 <= millis < 7_200_000 ==>
              DurationToHumanReadable(millis) == Format(millis / 60_000) + " minutes" && 1 <= millis / 60_000 <= 119
    ensures 7_200_000 <= millis < 345_600_000 ==>
              DurationToHumanReadable(millis) == Format(millis / 3_600_000) + " hours" && 2 <= millis / 3_600_000 <= 95
    ensures 345_600_000 <= millis ==>
              DurationToHumanReadable(millis) == Format(millis / 86_400_000) + " days" && 4 <= millis / 86_400_000
  {
  }

  /**
   * A negative duration of a second or more always lands in the seconds
   * bucket, however long it is: its count of seconds is negative and
   * therefore below 60.
   */
  lemma NegativeDurationInSeconds(millis: int)
    requires millis <= -1000
    ensures DurationToHumanReadable(millis) == Format(Quot(millis, 1000)) + " seconds"
    ensures Quot(millis, 1000) < 0
  {
  }

  /** The count printed before the unit reads back as the truncated quotient. */
  lemma DurationCountReadsBack(millis: int, unitMillis: nat, unit: string)
    requires InLong(millis)
    requires unitMillis in {MillisPerSecond, MillisPerMinute, MillisPerHour, MillisPerDay}
    requires DurationToHumanReadable(millis) == Format(Quot(millis, unitMillis)) + unit
    ensures ParseLong(Format(Quot(millis, unitMillis))) == Some(Quot(millis, unitMillis))
  {
    assert InLong(Quot(millis, unitMillis));
    FormatRoundTrip(Quot(millis, unitMillis));
  }

  // ---------------------------------------------------------------------
  // sanitizeSSID
  // ---------------------------------------------------------------------

  predicate IsNul(c: char) {
    c == '\0'
  }

  /** Unicode category Cc: U+0000 to U+001F and U+007F to U+009F. */
  predicate IsControl(c: char) {
    c <= '\U{1F}' || '\U{7F}' <= c <= '\U{9F}'
  }

  /** `\p{Zl}`: the line separator U+2028. */
  predicate IsLineSeparator(c: char) {
    c == '\U{2028}'
  }

  /** `\p{Zp}`: the paragraph separator U+2029. */
  predicate IsParagraphSeparator(c: char) {
    c == '\U{2029}'
  }

  predicate IsTab(c: char) {
    c == '\t'
  }

  predicate IsSpace(c: char) {
    c == ' '
  }

  /**
   * `replaceAll` with a one-character pattern and an empty replacement:
   * the characters `drop` selects are removed; text without them is left
   * as it is.
   */
  function RemoveAll(s: string, drop: char -> bool): (r: string)
    ensures forall i | 0 <= i < |r| :: !drop(r[i])
    ensures (forall i | 0 <= i < |s| :: !drop(s[i])) ==> r == s
  {
    if |s| == 0 then []
    else
      var rest := RemoveAll(s[1..], drop);
      assert s == [s[0]] + s[1..];
      if drop(s[0]) then rest else [s[0]] + rest
  }

  /** Every character that is not dropped is kept as often as it occurs. */
  lemma {:induction false} RemoveAllCounts(s: string, drop: char -> bool, c: char)
    requires !drop(c)
    ensures multiset(RemoveAll(s, drop))[c] == multiset(s)[c]
  {
    if |s| > 0 {
      RemoveAllCounts(s[1..], drop, c);
      assert s == [s[0]] + s[1..];
    }
  }

  /** Removing characters keeps any property all characters had. */
  lemma {:induction false} RemoveAllKeeps(s: string, drop: char -> bool, keep: char -> bool)
    requires forall i | 0 <= i < |s| :: keep(s[i])
    ensures forall i | 0 <= i < |RemoveAll(s, drop)| :: keep(RemoveAll(s, drop)[i])
  {
    if |s| > 0 {
      RemoveAllKeeps(s[1..], drop, keep);
    }
  }

  /** Removal works character by character: text is cleaned piecewise and in order. */
  lemma {:induction false} RemoveAllAppend(a: string, b: string, drop: char -> bool)
    ensures RemoveAll(a + b, drop) == RemoveAll(a, drop) + RemoveAll(b, drop)
    decreases |a|
  {
    if |a| > 0 {
      assert (a + b)[0] == a[0];
      assert (a + b)[1..] == a[1..] + b;
      RemoveAllAppend(a[1..], b, drop);
      if !drop(a[0]) {
        assert RemoveAll(a + b, drop) == [a[0]] + RemoveAll(a[1..] + b, drop);
        assert RemoveAll(a, drop) == [a[0]] + RemoveAll(a[1..], drop);
      }
    } else {
      assert a + b == b;
    }
  }

  /** No two spaces in a row. */
  predicate NoDoubleSpace(s: string) {
    forall i | 0 <= i < |s| - 1 :: !(s[i] == ' ' && s[i + 1] == ' ')
  }

  /** The string after its leading run of spaces. */
  function SkipSpaces(s: string): (r: string)
    ensures |r| <= |s| && r == s[|s| - |r|..]
    ensures |r| > 0 ==> r[0] != ' '
    ensures forall i | 0 <= i < |s| - |r| :: s[i] == ' '
  {
    if |s| > 0 && s[0] == ' ' then SkipSpaces(s[1..]) else s
  }

  /**
   * `replaceAll(" +", " ")`: every run of spaces becomes one space. The
   * result has no two spaces in a row, starts and ends with the input's
   * first and last characters, and keeps every other character.
   */
  function CollapseSpaces(s: string): (r: string)
    ensures |r| <= |s|
    ensures |s| > 0 ==> |r| > 0 && r[0] == s[0] && r[|r| - 1] == s[|s| - 1]
    ensures NoDoubleSpace(r)
    decreases |s|
  {
    if |s| == 0 then []
    else if s[0] == ' ' then [' '] + CollapseSpaces(SkipSpaces(s))
    else [s[0]] + CollapseSpaces(s[1..])
  }

  /** Collapsing keeps any property all characters had. */
  lemma {:induction false} CollapseKeeps(s: string, keep: char -> bool)
    requires forall i | 0 <= i < |s| :: keep(s[i])
    ensures forall i | 0 <= i < |CollapseSpaces(s)| :: keep(CollapseSpaces(s)[i])
    decreases |s|
  {
    if |s| > 0 {
      if s[0] == ' ' {
        CollapseKeeps(SkipSpaces(s), keep);
      } else {
        CollapseKeeps(s[1..], keep);
      }
    }
  }

  /** Collapsing changes nothing but spaces: with spaces removed, input and output are the same. */
  lemma {:induction false} CollapseKeepsText(s: string)
    ensures RemoveAll(CollapseSpaces(s), IsSpace) == RemoveAll(s, IsSpace)
    decreases |s|
  {
    if |s| > 0 {
      if s[0] == ' ' {
        var t := SkipSpaces(s);
        CollapseKeepsText(t);
        SkippedSpacesVanish(s);
        assert RemoveAll([' '] + CollapseSpaces(t), IsSpace) == RemoveAll(CollapseSpaces(t), IsSpace) by {
          assert ([' '] + CollapseSpaces(t))[1..] == CollapseSpaces(t);
        }
      } else {
        CollapseKeepsText(s[1..]);
        assert ([s[0]] + CollapseSpaces(s[1..]))[1..] == CollapseSpaces(s[1..]);
      }
    }
  }

  /** The spaces `SkipSpaces` drops are invisible once spaces are removed. */
  lemma {:induction false} SkippedSpacesVanish(s: string)
    ensures RemoveAll(SkipSpaces(s), IsSpace) == RemoveAll(s, IsSpace)
  {
    if |s| > 0 && s[0] == ' ' {
      SkippedSpacesVanish(s[1..]);
    }
  }

  /** A space directly followed by another contributes nothing of its own. */
  lemma CollapseDropSpace(s: string)
    requires |s| >= 2 && s[0] == ' ' && s[1] == ' '
    ensures CollapseSpaces(s) == CollapseSpaces(s[1..])
  {
    assert SkipSpaces(s) == SkipSpaces(s[1..]);
  }

  /**
   * Doubling a space anywhere does not change the collapsed text: every run
   * of spaces comes out as one space, and the text around it is untouched.
   */
  lemma {:induction false} CollapseRun(a: string, b: string)
    ensures CollapseSpaces(a + [' ', ' '] + b) == CollapseSpaces(a + [' '] + b)
    decreases |a|
  {
    var s := a + [' ', ' '] + b;
    var t := a + [' '] + b;
    if |a| == 0 {
      assert s[1..] == t;
      CollapseDropSpace(s);
    } else if a[0] != ' ' {
      assert s[1..] == a[1..] + [' ', ' '] + b;
      assert t[1..] == a[1..] + [' '] + b;
      CollapseRun(a[1..], b);
    } else if |a| == 1 {
      assert s[1..] == t;
      CollapseDropSpace(s);
    } else if a[1] == ' ' {
      assert s[1..] == a[1..] + [' ', ' '] + b;
      assert t[1..] == a[1..] + [' '] + b;
      CollapseDropSpace(s);
      CollapseDropSpace(t);
      CollapseRun(a[1..], b);
    } else {
      assert s[1..] == a[1..] + [' ', ' '] + b;
      assert t[1..] == a[1..] + [' '] + b;
      CollapseStep(s);
      CollapseStep(t);
      CollapseRun(a[1..], b);
    }
  }

  /** Text without two spaces in a row is left as it is. */
  lemma {:induction false} CollapseKeepsSingleSpaces(s: string)
    requires NoDoubleSpace(s)
    ensures CollapseSpaces(s) == s
    decreases |s|
  {
    if |s| > 0 {
      var tail := s[1..];
      NoDoubleSpaceTail(s);
      CollapseKeepsSingleSpaces(tail);
      CollapseStep(s);
    }
  }

  /** Without a second space at its head, collapsing a string is collapsing its tail. */
  lemma CollapseStep(s: string)
    requires |s| > 0 && (s[0] == ' ' ==> |s| == 1 || s[1] != ' ')
    ensures CollapseSpaces(s) == [s[0]] + CollapseSpaces(s[1..])
  {
    if s[0] == ' ' {
      assert SkipSpaces(s) == SkipSpaces(s[1..]);
    }
  }

  lemma NoDoubleSpaceTail(s: string)
    requires |s| > 0 && NoDoubleSpace(s)
    ensures NoDoubleSpace(s[1..])
  {
    var t := s[1..];
    forall i | 0 <= i < |t| - 1
      ensures !(t[i] == ' ' && t[i + 1] == ' ')
    {
      assert t[i] == s[i + 1] && t[i + 1] == s[i + 2];
    }
  }

  /** `\p{C}`: Cc plus the rest of category C (format, surrogate, private-use and unassigned code points), given as `otherC`. */
  predicate IsOtherCategory(otherC: char -> bool, c: char) {
    IsControl(c) || otherC(c)
  }

  /** The characters `sanitizeSSID` removes outright. */
  predicate Removed(otherC: char -> bool, c: char) {
    IsNul(c) || IsOtherCategory(otherC, c) || IsLineSeparator(c) || IsParagraphSeparator(c) || IsTab(c)
  }

  /** What every sanitised SSID satisfies: no removed character, no two spaces in a row, no space at either end. */
  predicate Sanitized(otherC: char -> bool, r: string) {
    && (forall i | 0 <= i < |r| :: !Removed(otherC, r[i]))
    && NoDoubleSpace(r)
    && (|r| > 0 ==> r[0] != ' ' && r[|r| - 1] != ' ')
  }

  /**
   * The five removal steps of `sanitizeSSID`, in order: NUL, category C,
   * line separators, paragraph separators, tabs. No removed character is
   * left, and text without any is left as it is.
   */
  function StripRemoved(otherC: char -> bool, ssid: string): (r: string)
    ensures forall i | 0 <= i < |r| :: !Removed(otherC, r[i])
    ensures (forall i | 0 <= i < |ssid| :: !Removed(otherC, ssid[i])) ==> r == ssid
  {
    var noNul := RemoveAll(ssid, IsNul);
    var noOther := RemoveAll(noNul, c => IsOtherCategory(otherC, c));
    var noLineSeparator := RemoveAll(noOther, IsLineSeparator);
    var noParagraphSeparator := RemoveAll(noLineSeparator, IsParagraphSeparator);
    var noTabs := RemoveAll(noParagraphSeparator, IsTab);
    RemoveAllKeeps(noOther, IsLineSeparator, c => !IsOtherCategory(otherC, c));
    RemoveAllKeeps(noLineSeparator, IsParagraphSeparator, c => !IsOtherCategory(otherC, c) && !IsLineSeparator(c));
    RemoveAllKeeps(noParagraphSeparator, IsTab,
                   c => !IsOtherCategory(otherC, c) && !IsLineSeparator(c) && !IsParagraphSeparator(c));
    noTabs
  }

  /** The removal steps keep every character they do not remove, as often as it occurs. */
  lemma StripRemovedCounts(otherC: char -> bool, ssid: string, c: char)
    requires !Removed(otherC, c)
    ensures multiset(StripRemoved(otherC, ssid))[c] == multiset(ssid)[c]
  {
    var noNul := RemoveAll(ssid, IsNul);
    var noOther := RemoveAll(noNul, c => IsOtherCategory(otherC, c));
    var noLineSeparator := RemoveAll(noOther, IsLineSeparator);
    var noParagraphSeparator := RemoveAll(noLineSeparator, IsParagraphSeparator);
    RemoveAllCounts(ssid, IsNul, c);
    RemoveAllCounts(noNul, c => IsOtherCategory(otherC, c), c);
    RemoveAllCounts(noOther, IsLineSeparator, c);
    RemoveAllCounts(noLineSeparator, IsParagraphSeparator, c);
    RemoveAllCounts(noParagraphSeparator, IsTab, c);
  }

  /** The removal steps act on each character alone, so they distribute over concatenation. */
  lemma StripRemovedAppend(otherC: char -> bool, a: string, b: string)
    ensures StripRemoved(otherC, a + b) == StripRemoved(otherC, a) + StripRemoved(otherC, b)
  {
    var other := c => IsOtherCategory(otherC, c);
    RemoveAllAppend(a, b, IsNul);
    var a1, b1 := RemoveAll(a, IsNul), RemoveAll(b, IsNul);
    RemoveAllAppend(a1, b1, other);
    var a2, b2 := RemoveAll(a1, other), RemoveAll(b1, other);
    RemoveAllAppend(a2, b2, IsLineSeparator);
    var a3, b3 := RemoveAll(a2, IsLineSeparator), RemoveAll(b2, IsLineSeparator);
    RemoveAllAppend(a3, b3, IsParagraphSeparator);
    var a4, b4 := RemoveAll(a3, IsParagraphSeparator), RemoveAll(b3, IsParagraphSeparator);
    RemoveAllAppend(a4, b4, IsTab);
  }

  /**
   * `sanitizeSSID`: the removal steps, then runs of spaces collapsed to one,
   * then `trim`.
   */
  function SanitizeSsid(otherC: char -> bool, ssid: string): (r: string)
    ensures Sanitized(otherC, r)
  {
    var collapsed := CollapseSpaces(StripRemoved(otherC, ssid));
    CollapseKeeps(StripRemoved(otherC, ssid), c => !Removed(otherC, c));
    TrimKeepsClean(otherC, collapsed);
    Trim(collapsed)
  }

  /** Trimming text free of removed characters and double spaces gives a sanitised result. */
  lemma TrimKeepsClean(otherC: char -> bool, s: string)
    requires forall i | 0 <= i < |s| :: !Removed(otherC, s[i])
    requires NoDoubleSpace(s)
    ensures Sanitized(otherC, Trim(s))
  {
    var r := Trim(s);
    var a := LeadingBlanks(s);
    assert forall i | 0 <= i < |r| :: r[i] == s[a + i];
  }

  /** An SSID that is already clean is returned unchanged. */
  lemma SanitizedUnchanged(otherC: char -> bool, s: string)
    requires Sanitized(otherC, s)
    ensures SanitizeSsid(otherC, s) == s
  {
    assert StripRemoved(otherC, s) == s by {
      StripRemovedClean(otherC, s);
    }
    assert CollapseSpaces(s) == s by {
      CollapseKeepsSingleSpaces(s);
    }
    TrimKeepsTrimmed(s);
  }

  /** Text holding no removed character passes the removal steps unchanged. */
  lemma StripRemovedClean(otherC: char -> bool, s: string)
    requires forall i | 0 <= i < |s| :: !Removed(otherC, s[i])
    ensures StripRemoved(otherC, s) == s
  {
    assert RemoveAll(s, IsNul) == s;
    assert RemoveAll(s, c => IsOtherCategory(otherC, c)) == s;
  }

  /** Sanitising a sanitised SSID changes nothing. */
  lemma SanitizeIdempotent(otherC: char -> bool, ssid: string)
    ensures SanitizeSsid(otherC, SanitizeSsid(otherC, ssid)) == SanitizeSsid(otherC, ssid)
  {
    SanitizedUnchanged(otherC, SanitizeSsid(otherC, ssid));
  }

  /**
   * Sanitising keeps every character it has no reason to remove: each
   * character that is not removed outright and not a space occurs in the
   * output as often as in the input.
   */
  lemma SanitizeKeepsText(otherC: char -> bool, ssid: string, c: char)
    requires !Removed(otherC, c) && c != ' '
    ensures multiset(SanitizeSsid(otherC, ssid))[c] == multiset(ssid)[c]
  {
    var stripped := StripRemoved(otherC, ssid);
    var collapsed := CollapseSpaces(stripped);
    assert multiset(Trim(collapsed))[c] == multiset(collapsed)[c] by {
      TrimKeepsNonBlank(collapsed, c);
    }
    assert multiset(collapsed)[c] == multiset(stripped)[c] by {
      CollapseCounts(stripped, c);
    }
    assert multiset(stripped)[c] == multiset(ssid)[c] by {
      StripRemovedCounts(otherC, ssid, c);
    }
  }

  /** Collapsing keeps every character but the space as often as it occurs. */
  lemma CollapseCounts(s: string, c: char)
    requires c != ' '
    ensures multiset(CollapseSpaces(s))[c] == multiset(s)[c]
  {
    CollapseKeepsText(s);
    RemoveAllCounts(CollapseSpaces(s), IsSpace, c);
    RemoveAllCounts(s, IsSpace, c);
  }

  /** Trimming leaves the count of any non-blank character alone. */
  lemma TrimKeepsNonBlank(s: string, c: char)
    requires !Blank(c)
    ensures multiset(Trim(s))[c] == multiset(s)[c]
  {
    var a := LeadingBlanks(s);
    var r := Trim(s);
    var b := a + |r|;
    assert s == s[..a] + r + s[b..];
    assert c !in s[..a];
    assert c !in s[b..];
  }
}
