/** Build-number floors of calendar versions. The script assembles them as decimal strings; this module
    shows that they are plain positional arithmetic, and what that orders. */
module SparkleBuild {
  import opened Text

  predicate IsDigit(c: char) {
    '0' <= c <= '9'
  }

  predicate AllDigits(s: string) {
    forall i | 0 <= i < |s| :: IsDigit(s[i])
  }

  predicate IsLineEnd(c: char) {
    c == '\n' || c == '\r' || c == '\U{2028}' || c == '\U{2029}'
  }

  // ---------- Decimal strings ----------

  function DigitOf(n: nat): char
    requires n < 10
  {
    (48 + n) as char
  }

  function DigitValue(c: char): int {
    c as int - '0' as int
  }

  function ToDecimal(n: nat): string {
    if n < 10 then [DigitOf(n)] else ToDecimal(n / 10) + [DigitOf(n % 10)]
  }

  function FromDecimal(s: string): nat
    requires AllDigits(s)
  {
    if s == "" then 0
    else 10 * FromDecimal(s[..|s| - 1]) + DigitValue(s[|s| - 1])
  }

  /** `String(n).padStart(2, "0")`. */
  function Pad2(n: nat): string {
    var s := ToDecimal(n);
    if |s| < 2 then "0" + s else s
  }

  lemma {:induction false} ToDecimalReads(n: nat)
    ensures AllDigits(ToDecimal(n)) && FromDecimal(ToDecimal(n)) == n
    ensures n < 10 ==> |ToDecimal(n)| == 1
    ensures 10 <= n < 100 ==> |ToDecimal(n)| == 2
  {
    if n < 10 {
      AppendOne("", DigitOf(n));
      assert "" + [DigitOf(n)] == ToDecimal(n);
    } else {
      ToDecimalReads(n / 10);
      AppendOne(ToDecimal(n / 10), DigitOf(n % 10));
      assert n < 100 ==> n / 10 < 10;
    }
  }

  lemma {:induction false} AppendTwo(a: string, b: string)
    requires AllDigits(a) && AllDigits(b) && |b| == 2
    ensures AllDigits(a + b) && FromDecimal(a + b) == 100 * FromDecimal(a) + FromDecimal(b)
  {
    AppendTwoDigits(a, b[0], b[1]);
    AppendTwoDigits("", b[0], b[1]);
    TwoCharacters("", b);
    TwoCharacters(a, b);
    assert "" + b == b;
  }

  lemma {:induction false} TwoCharacters(a: string, b: string)
    requires |b| == 2
    ensures a + b == a + [b[0]] + [b[1]]
  {
  }

  lemma {:induction false} AppendTwoDigits(a: string, c: char, d: char)
    requires AllDigits(a) && IsDigit(c) && IsDigit(d)
    ensures AllDigits(a + [c] + [d])
    ensures FromDecimal(a + [c] + [d]) == 100 * FromDecimal(a) + 10 * DigitValue(c) + DigitValue(d)
  {
    AppendOne(a, c);
    AppendOne(a + [c], d);
  }

  lemma {:induction false} AppendOne(a: string, c: char)
    requires AllDigits(a) && IsDigit(c)
    ensures AllDigits(a + [c]) && FromDecimal(a + [c]) == 10 * FromDecimal(a) + DigitValue(c)
  {
    assert (a + [c])[..|a|] == a;
  }

  lemma {:induction false} Pad2Reads(n: nat)
    requires n < 100
    ensures AllDigits(Pad2(n)) && |Pad2(n)| == 2 && FromDecimal(Pad2(n)) == n
  {
    ToDecimalReads(n);
    if n < 10 {
      var s := Pad2(n);
      assert s[..1] == "0" && "0"[..0] == "";
      assert s[1] == DigitOf(n);
    }
  }

  /** Appending a padded two-digit number multiplies by a hundred and adds it. */
  lemma {:induction false} AppendPadded(n: nat, m: nat)
    requires m < 100
    ensures AllDigits(ToDecimal(n) + Pad2(m)) && FromDecimal(ToDecimal(n) + Pad2(m)) == 100 * n + m
  {
    ToDecimalReads(n);
    Pad2Reads(m);
    AppendTwo(ToDecimal(n), Pad2(m));
  }

  // ---------- Calendar versions ----------

  datatype Version = Version(year: string, month: string, day: string, suffix: string)

  predicate IsSuffix(s: string) {
    s == "" || ((s[0] == '.' || s[0] == '-') && forall i | 1 <= i < |s| :: !IsLineEnd(s[i]))
  }

  /** The text has the form of a calendar version with these parts. */
  predicate Matches(s: string, v: Version) {
    && s == v.year + "." + v.month + "." + v.day + v.suffix
    && |v.year| == 4 && AllDigits(v.year)
    && 1 <= |v.month| <= 2 && AllDigits(v.month)
    && 1 <= |v.day| <= 2 && AllDigits(v.day)
    && IsSuffix(v.suffix)
  }

  /** How many digits, up to `max`, a text starts with. */
  function Digits(s: string, max: nat): (n: nat)
    ensures n <= |s| && n <= max && AllDigits(s[..n])
    ensures n < max && n < |s| ==> !IsDigit(s[n])
  {
    if max == 0 || s == "" || !IsDigit(s[0]) then 0
    else
      var rest := Digits(s[1..], max - 1);
      assert s[..1 + rest] == [s[0]] + s[1..][..rest];
      1 + rest
  }

  /** The leading digits of a text, up to `max`, and what follows them. */
  function Take(s: string, max: nat): (string, string) {
    (s[..Digits(s, max)], s[Digits(s, max)..])
  }

  predicate StartsWithDot(s: string) {
    s != "" && s[0] == '.'
  }

  function Parse(s: string): Option<Version> {
    var (year, afterYear) := Take(s, 4);
    if |year| != 4 || !StartsWithDot(afterYear) then None
    else
      var (month, afterMonth) := Take(afterYear[1..], 2);
      if month == "" || !StartsWithDot(afterMonth) then None
      else
        var (day, suffix) := Take(afterMonth[1..], 2);
        if day == "" || !IsSuffix(suffix) then None
        else Some(Version(year, month, day, suffix))
  }

  lemma {:induction false} TakeSplits(s: string, max: nat)
    ensures Take(s, max).0 + Take(s, max).1 == s
    ensures AllDigits(Take(s, max).0) && |Take(s, max).0| <= max
  {
  }

  lemma {:induction false} TakeLeading(digits: string, rest: string, max: nat)
    requires AllDigits(digits) && |digits| <= max && (|digits| == max || rest == "" || !IsDigit(rest[0]))
    ensures Take(digits + rest, max) == (digits, rest)
  {
    LeadingDigits(digits, rest, max);
    var s := digits + rest;
    assert s[..|digits|] == digits && s[|digits|..] == rest;
  }

  lemma {:induction false} MatchesIsParsed(s: string, v: Version)
    requires Matches(s, v)
    ensures Parse(s) == Some(v)
  {
    PartsAreTaken(v.year, v.month, v.day, v.suffix);
    Nested(v.year, v.month, v.day, v.suffix);
    NestedIsParsed(v);
  }

  lemma {:induction false} Nested(year: string, month: string, day: string, suffix: string)
    ensures year + "." + month + "." + day + suffix == year + ("." + (month + ("." + (day + suffix))))
  {
  }

  lemma {:induction false} NestedIsParsed(v: Version)
    requires |v.year| == 4 && v.month != "" && v.day != "" && IsSuffix(v.suffix)
    requires var afterMonth := "." + (v.day + v.suffix);
             var afterYear := "." + (v.month + afterMonth);
             && Take(v.year + afterYear, 4) == (v.year, afterYear)
             && Take(afterYear[1..], 2) == (v.month, afterMonth)
             && Take(afterMonth[1..], 2) == (v.day, v.suffix)
    ensures Parse(v.year + ("." + (v.month + ("." + (v.day + v.suffix))))) == Some(v)
  {
  }

  lemma {:induction false} PartsAreTaken(year: string, month: string, day: string, suffix: string)
    requires |year| == 4 && AllDigits(year)
    requires 1 <= |month| <= 2 && AllDigits(month) && 1 <= |day| <= 2 && AllDigits(day) && IsSuffix(suffix)
    ensures var afterMonth := "." + (day + suffix);
            var afterYear := "." + (month + afterMonth);
            && Take(year + afterYear, 4) == (year, afterYear)
            && Take(afterYear[1..], 2) == (month, afterMonth)
            && Take(afterMonth[1..], 2) == (day, suffix)
  {
    var afterMonth := "." + (day + suffix);
    var afterYear := "." + (month + afterMonth);
    TakeLeading(year, afterYear, 4);
    assert afterYear[1..] == month + afterMonth;
    TakeLeading(month, afterMonth, 2);
    assert afterMonth[1..] == day + suffix;
    TakeLeading(day, suffix, 2);
  }

  lemma {:induction false} ParsedMatches(s: string)
    requires Parse(s).Some?
    ensures Matches(s, Parse(s).value)
  {
    var v := Parse(s).value;
    TakeSplits(s, 4);
    var afterYear := Take(s, 4).1;
    TakeSplits(afterYear[1..], 2);
    var afterMonth := Take(afterYear[1..], 2).1;
    TakeSplits(afterMonth[1..], 2);
    Regroup(v.year, v.month, v.day, v.suffix, s, afterYear, afterMonth);
  }

  lemma {:induction false} Regroup(year: string, month: string, day: string, suffix: string, s: string,
                                   afterYear: string, afterMonth: string)
    requires s == year + afterYear && StartsWithDot(afterYear)
    requires afterYear[1..] == month + afterMonth && StartsWithDot(afterMonth)
    requires afterMonth[1..] == day + suffix
    ensures s == year + "." + month + "." + day + suffix
  {
    assert afterMonth == "." + (day + suffix);
    assert afterYear == "." + (month + afterMonth);
    assert s == year + ("." + (month + ("." + (day + suffix))));
  }

  /** Parsing finds the parts exactly when the text has the form, and the parts are then determined. */
  lemma {:induction false} ParseIffMatches(s: string, v: Version)
    ensures Parse(s) == Some(v) <==> Matches(s, v)
  {
    if Matches(s, v) {
      MatchesIsParsed(s, v);
    }
    if Parse(s) == Some(v) {
      ParsedMatches(s);
    }
  }

  lemma {:induction false} LeadingDigits(digits: string, rest: string, max: nat)
    requires AllDigits(digits) && |digits| <= max && (|digits| == max || rest == "" || !IsDigit(rest[0]))
    ensures Digits(digits + rest, max) == |digits|
  {
    var s := digits + rest;
    if digits != "" {
      LeadingDigits(digits[1..], rest, max - 1);
      assert s[1..] == digits[1..] + rest;
    } else {
      assert s == rest;
    }
  }

  // ---------- Floors ----------

  datatype Floors = Floors(dateKey: nat, legacyFloor: nat, laneFloor: nat, lane: nat)

  /** The digits a text ends with. */
  function TrailingDigits(s: string): (r: string)
    ensures AllDigits(r) && |r| <= |s|
  {
    if s == "" || !IsDigit(s[|s| - 1]) then "" else TrailingDigits(s[..|s| - 1]) + [s[|s| - 1]]
  }

  function Lane(suffix: string): nat {
    if suffix == "" then 90
    else if TrailingDigits(suffix) != "" then
      var n := FromDecimal(TrailingDigits(suffix));
      if n < 89 then n else 89
    else 1
  }

  /** A number read back from a string of digits. */
  function Number(s: string): nat {
    if AllDigits(s) then FromDecimal(s) else 0
  }

  /** The floors of a date and a suffix, assembled from decimal strings. */
  function AssembleFloors(year: nat, month: nat, day: nat, suffix: string): Floors {
    var dateKey := Number(ToDecimal(year) + Pad2(month) + Pad2(day));
    var legacyFloor := Number(ToDecimal(dateKey) + "0");
    var lane := Lane(suffix);
    var laneFloor := Number(ToDecimal(dateKey) + Pad2(lane));
    Floors(dateKey, legacyFloor, laneFloor, lane)
  }

  function FloorsOf(shortVersion: string): Option<Floors> {
    var parsed := Parse(Trim(shortVersion));
    if parsed.None? then None
    else
      var v := parsed.value;
      var year, month, day := Number(v.year), Number(v.month), Number(v.day);
      if month < 1 || month > 12 || day < 1 || day > 31 then None
      else Some(AssembleFloors(year, month, day, v.suffix))
  }

  /** Whether a text is a valid calendar version with this date and suffix. */
  ghost predicate IsDated(shortVersion: string, y: nat, m: nat, d: nat, suffix: string) {
    exists v :: Matches(Trim(shortVersion), v) && Number(v.year) == y && Number(v.month) == m && Number(v.day) == d
      && v.suffix == suffix && 1 <= m <= 12 && 1 <= d <= 31
  }

  function DateKey(y: nat, m: nat, d: nat): nat {
    10000 * y + 100 * m + d
  }

  lemma {:induction false} FloorsOfDated(shortVersion: string, y: nat, m: nat, d: nat, suffix: string)
    requires IsDated(shortVersion, y, m, d, suffix)
    ensures var date := DateKey(y, m, d);
            FloorsOf(shortVersion) == Some(Floors(date, 10 * date, 100 * date + Lane(suffix), Lane(suffix)))
  {
    var s := Trim(shortVersion);
    var v :| Matches(s, v) && Number(v.year) == y && Number(v.month) == m && Number(v.day) == d && v.suffix == suffix;
    MatchesIsParsed(s, v);
    AssembledFloors(y, m, d, suffix);
  }

  lemma {:induction false} AssembledFloors(y: nat, m: nat, d: nat, suffix: string)
    requires m < 100 && d < 100
    ensures var date := DateKey(y, m, d);
            AssembleFloors(y, m, d, suffix) == Floors(date, 10 * date, 100 * date + Lane(suffix), Lane(suffix))
  {
    var date := DateKey(y, m, d);
    DateIsPositional(y, m, d);
    ToDecimalReads(date);
    AppendOne(ToDecimal(date), '0');
    LaneIsShort(suffix);
    AppendPadded(date, Lane(suffix));
  }

  /** The string construction is positional arithmetic, leading zeros of the year included; anything that is
      not a valid calendar version has no floors. */
  lemma {:induction false} FloorsArePositional(shortVersion: string)
    ensures FloorsOf(shortVersion).Some?
            <==> exists y: nat, m: nat, d: nat, suffix :: IsDated(shortVersion, y, m, d, suffix)
    ensures forall y: nat, m: nat, d: nat, suffix | IsDated(shortVersion, y, m, d, suffix) ::
      var date := DateKey(y, m, d);
      FloorsOf(shortVersion) == Some(Floors(date, 10 * date, 100 * date + Lane(suffix), Lane(suffix)))
  {
    forall y: nat, m: nat, d: nat, suffix | IsDated(shortVersion, y, m, d, suffix)
      ensures var date := DateKey(y, m, d);
              FloorsOf(shortVersion) == Some(Floors(date, 10 * date, 100 * date + Lane(suffix), Lane(suffix)))
    {
      FloorsOfDated(shortVersion, y, m, d, suffix);
    }
    if FloorsOf(shortVersion).Some? {
      var v := DatedParts(shortVersion);
    }
  }

  lemma {:induction false} DatedParts(shortVersion: string) returns (v: Version)
    requires FloorsOf(shortVersion).Some?
    ensures IsDated(shortVersion, Number(v.year), Number(v.month), Number(v.day), v.suffix)
  {
    v := Parse(Trim(shortVersion)).value;
    ParsedMatches(Trim(shortVersion));
  }

  lemma {:induction false} DateIsPositional(y: nat, m: nat, d: nat)
    requires m < 100 && d < 100
    ensures Number(ToDecimal(y) + Pad2(m) + Pad2(d)) == DateKey(y, m, d)
  {
    AppendPadded(y, m);
    Pad2Reads(d);
    AppendTwo(ToDecimal(y) + Pad2(m), Pad2(d));
  }

  predicate DateBefore(y1: nat, m1: nat, d1: nat, y2: nat, m2: nat, d2: nat) {
    y1 < y2 || (y1 == y2 && (m1 < m2 || (m1 == m2 && d1 < d2)))
  }

  /** Lane floors order versions by date first; within a date, by lane, where no suffix beats every suffix. */
  lemma {:induction false} LaneFloorsOrderVersions(a: string, b: string, y1: nat, m1: nat, d1: nat, s1: string,
                                                   y2: nat, m2: nat, d2: nat, s2: string)
    requires IsDated(a, y1, m1, d1, s1) && IsDated(b, y2, m2, d2, s2)
    ensures FloorsOf(a).Some? && FloorsOf(b).Some?
    ensures FloorsOf(a).value.laneFloor < FloorsOf(b).value.laneFloor <==>
            DateBefore(y1, m1, d1, y2, m2, d2) || (y1 == y2 && m1 == m2 && d1 == d2 && Lane(s1) < Lane(s2))
    ensures s1 == "" && s2 != "" ==> Lane(s2) < Lane(s1)
  {
    FloorsOfDated(a, y1, m1, d1, s1);
    FloorsOfDated(b, y2, m2, d2, s2);
    LaneIsShort(s1);
    LaneIsShort(s2);
    DateKeyOrders(y1, m1, d1, y2, m2, d2);
  }

  lemma {:induction false} LaneIsShort(suffix: string)
    ensures Lane(suffix) <= 90 && (suffix != "" ==> Lane(suffix) <= 89)
  {
  }

  lemma {:induction false} DateKeyOrders(y1: nat, m1: nat, d1: nat, y2: nat, m2: nat, d2: nat)
    requires m1 < 100 && d1 < 100 && m2 < 100 && d2 < 100
    ensures DateKey(y1, m1, d1) < DateKey(y2, m2, d2) <==> DateBefore(y1, m1, d1, y2, m2, d2)
    ensures DateKey(y1, m1, d1) == DateKey(y2, m2, d2) <==> y1 == y2 && m1 == m2 && d1 == d2
  {
  }

  /** Numeric suffixes are ordered by their number up to 89, and a suffix without a number counts as 1. */
  lemma {:induction false} NumericSuffixesAreMonotone(prefix1: string, n1: string, prefix2: string, n2: string)
    requires AllDigits(n1) && AllDigits(n2) && n1 != "" && n2 != ""
    requires prefix1 != "" && !IsDigit(prefix1[|prefix1| - 1]) && prefix2 != "" && !IsDigit(prefix2[|prefix2| - 1])
    ensures FromDecimal(n1) <= FromDecimal(n2) ==> Lane(prefix1 + n1) <= Lane(prefix2 + n2)
    ensures FromDecimal(n1) < FromDecimal(n2) && FromDecimal(n1) < 89 ==> Lane(prefix1 + n1) < Lane(prefix2 + n2)
    ensures Lane(prefix1) == 1
  {
    TrailingDigitsOf(prefix1, n1);
    TrailingDigitsOf(prefix2, n2);
  }

  lemma {:induction false} TrailingDigitsOf(prefix: string, digits: string)
    requires AllDigits(digits) && prefix != "" && !IsDigit(prefix[|prefix| - 1])
    ensures TrailingDigits(prefix + digits) == digits
  {
    var s := prefix + digits;
    if digits == "" {
      assert s == prefix;
    } else {
      TrailingDigitsOf(prefix, digits[..|digits| - 1]);
      assert s[..|s| - 1] == prefix + digits[..|digits| - 1];
    }
  }

  // ---------- In terms of the characters ----------

  predicate DigitsOnly(s: string, least: nat, most: nat) {
    least <= |s| <= most && forall i | 0 <= i < |s| :: '0' <= s[i] <= '9'
  }

  /** Nothing, or a dot or hyphen with the rest of a line. */
  predicate IsLineSuffix(s: string) {
    || s == ""
    || ((s[0] == '.' || s[0] == '-')
        && forall i | 1 <= i < |s| :: s[i] != '\n' && s[i] != '\r' && s[i] != '\U{2028}' && s[i] != '\U{2029}')
  }

  lemma {:induction false} PartsMatch(s: string, year: string, month: string, day: string, suffix: string)
    requires s == year + "." + month + "." + day + suffix && IsLineSuffix(suffix)
    requires DigitsOnly(year, 4, 4) && DigitsOnly(month, 1, 2) && DigitsOnly(day, 1, 2)
    ensures Matches(s, Version(year, month, day, suffix))
  {
  }

  lemma {:induction false} DatedByParts(shortVersion: string, v: Version, y: nat, m: nat, d: nat)
    requires Matches(Trim(shortVersion), v) && y == Number(v.year) && m == Number(v.month) && d == Number(v.day)
    requires 1 <= m <= 12 && 1 <= d <= 31
    ensures IsDated(shortVersion, y, m, d, v.suffix)
  {
  }

  lemma {:induction false} NoSuchDate(shortVersion: string, v: Version)
    requires Parse(Trim(shortVersion)) == Some(v)
    requires !(1 <= Number(v.month) <= 12 && 1 <= Number(v.day) <= 31)
    ensures FloorsOf(shortVersion).None?
  {
  }

  /** A text made of a four-digit year, a month and a day of one or two digits and a suffix is dated, for months 1 to 12
      and days 1 to 31. */
  lemma {:induction false} TextIsDated(shortVersion: string, v: Version, y: nat, m: nat, d: nat)
    requires Trim(shortVersion) == v.year + "." + v.month + "." + v.day + v.suffix && IsLineSuffix(v.suffix)
    requires DigitsOnly(v.year, 4, 4) && DigitsOnly(v.month, 1, 2) && DigitsOnly(v.day, 1, 2)
    requires y == Number(v.year) && m == Number(v.month) && d == Number(v.day)
    requires 1 <= m <= 12 && 1 <= d <= 31
    ensures IsDated(shortVersion, y, m, d, v.suffix) && FloorsOf(shortVersion).Some?
  {
    PartsMatch(Trim(shortVersion), v.year, v.month, v.day, v.suffix);
    DatedByParts(shortVersion, v, y, m, d);
    DatedHasFloors(shortVersion, y, m, d, v.suffix);
  }

  lemma {:induction false} DatedHasFloors(shortVersion: string, y: nat, m: nat, d: nat, suffix: string)
    requires IsDated(shortVersion, y, m, d, suffix)
    ensures FloorsOf(shortVersion).Some?
  {
    FloorsOfDated(shortVersion, y, m, d, suffix);
  }

  /** It has no floors for other months or days. */
  lemma {:induction false} NoFloorsOfText(shortVersion: string, v: Version)
    requires Trim(shortVersion) == v.year + "." + v.month + "." + v.day + v.suffix && IsLineSuffix(v.suffix)
    requires DigitsOnly(v.year, 4, 4) && DigitsOnly(v.month, 1, 2) && DigitsOnly(v.day, 1, 2)
    requires !(1 <= Number(v.month) <= 12 && 1 <= Number(v.day) <= 31)
    ensures FloorsOf(shortVersion).None?
  {
    PartsMatch(Trim(shortVersion), v.year, v.month, v.day, v.suffix);
    MatchesIsParsed(Trim(shortVersion), v);
    NoSuchDate(shortVersion, v);
  }

  /** Any other text has none either. */
  lemma {:induction false} FloorsNeedParts(shortVersion: string) returns (v: Version)
    requires FloorsOf(shortVersion).Some?
    ensures Trim(shortVersion) == v.year + "." + v.month + "." + v.day + v.suffix && IsLineSuffix(v.suffix)
    ensures DigitsOnly(v.year, 4, 4) && DigitsOnly(v.month, 1, 2) && DigitsOnly(v.day, 1, 2)
  {
    v := Parse(Trim(shortVersion)).value;
    ParsedMatches(Trim(shortVersion));
    MatchHasParts(Trim(shortVersion), v);
  }

  lemma {:induction false} MatchHasParts(s: string, v: Version)
    requires Matches(s, v)
    ensures s == v.year + "." + v.month + "." + v.day + v.suffix && IsLineSuffix(v.suffix)
    ensures DigitsOnly(v.year, 4, 4) && DigitsOnly(v.month, 1, 2) && DigitsOnly(v.day, 1, 2)
  {
  }

  /** The lane is 90 without a suffix, and otherwise the number the suffix ends with, at most 89, or 1. */
  lemma {:induction false} LaneIsTheNumber(prefix: string, digits: string)
    requires prefix != "" && !('0' <= prefix[|prefix| - 1] <= '9') && DigitsOnly(digits, 1, |digits|)
    ensures Lane("") == 90 && Lane(prefix) == 1
    ensures AllDigits(digits)
    ensures Lane(prefix + digits) == if FromDecimal(digits) <= 89 then FromDecimal(digits) else 89
  {
    TrailingDigitsOf(prefix, digits);
  }
}
