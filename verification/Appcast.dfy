/** Validation of the Sparkle feed, from the items already extracted from the XML. Builds either follow an old
    scheme or the lane scheme; the validator infers from the feed itself when the lane scheme was adopted. */
module Appcast {
  import opened Text
  import opened SparkleBuild
  import opened Sorting

  /** The contents of an item's tags, where it has them. */
  datatype Item = Item(title: Option<string>, shortVersion: Option<string>, sparkleVersion: Option<string>)

  datatype Entry = Entry(title: string, build: nat, floors: Floors)

  datatype Problem =
    | NoItems
    | MissingVersion(title: string)
    | NonNumericVersion(title: string, version: string)
    | BelowLaneFloor(title: string, build: nat, floor: nat)
    | BelowLegacyFloor(title: string, build: nat, floor: nat)

  const LANE_BUILD_MIN: nat := 1_000_000_000
  const LANE_ADOPTION_DATE_KEY: nat := 20260227

  // ---------- What the validator reads from an item ----------

  function Title(item: Item): string {
    if item.title.Some? then item.title.value else "unknown"
  }

  predicate HasVersion(item: Item) {
    item.sparkleVersion.Some? && item.sparkleVersion.value != ""
  }

  predicate HasNumericVersion(item: Item) {
    HasVersion(item) && AllDigits(item.sparkleVersion.value)
  }

  function Dated(item: Item): Option<Entry> {
    if !HasNumericVersion(item) || item.shortVersion.None? || item.shortVersion.value == "" then None
    else
      var floors := FloorsOf(item.shortVersion.value);
      if floors.None? then None
      else Some(Entry(Title(item), FromDecimal(item.sparkleVersion.value), floors.value))
  }

  function FormProblem(item: Item): seq<Problem> {
    if !HasVersion(item) then [MissingVersion(Title(item))]
    else if !HasNumericVersion(item) then [NonNumericVersion(Title(item), item.sparkleVersion.value)]
    else []
  }

  function FormProblems(items: seq<Item>): seq<Problem> {
    if items == [] then [] else FormProblems(items[..|items| - 1]) + FormProblem(items[|items| - 1])
  }

  function DatedEntry(item: Item): seq<Entry> {
    if Dated(item).Some? then [Dated(item).value] else []
  }

  function DatedEntries(items: seq<Item>): seq<Entry> {
    if items == [] then [] else DatedEntries(items[..|items| - 1]) + DatedEntry(items[|items| - 1])
  }

  // ---------- The adoption date ----------

  predicate IsLaneBuild(e: Entry) {
    e.build >= LANE_BUILD_MIN
  }

  function LaneDates(entries: seq<Entry>): seq<int> {
    if entries == [] then []
    else (if IsLaneBuild(entries[0]) then [entries[0].floors.dateKey] else []) + LaneDates(entries[1..])
  }

  predicate AtMost(a: int, b: int) {
    a <= b
  }

  /** The earliest date of a lane build in the feed, or the known adoption date when that is earlier. */
  function AdoptionDate(entries: seq<Entry>): int {
    var observed := Sort(AtMost, LaneDates(entries));
    if observed != [] && observed[0] < LANE_ADOPTION_DATE_KEY then observed[0] else LANE_ADOPTION_DATE_KEY
  }

  function FloorProblem(e: Entry, adoption: int): seq<Problem> {
    if IsLaneBuild(e) || e.floors.dateKey >= adoption then
      if e.build < e.floors.laneFloor then [BelowLaneFloor(e.title, e.build, e.floors.laneFloor)] else []
    else
      if e.build < e.floors.legacyFloor then [BelowLegacyFloor(e.title, e.build, e.floors.legacyFloor)] else []
  }

  function FloorProblems(entries: seq<Entry>, adoption: int): seq<Problem> {
    if entries == [] then []
    else FloorProblems(entries[..|entries| - 1], adoption) + FloorProblem(entries[|entries| - 1], adoption)
  }

  function Problems(items: seq<Item>): seq<Problem> {
    (if items == [] then [NoItems] else [])
    + FormProblems(items)
    + FloorProblems(DatedEntries(items), AdoptionDate(DatedEntries(items)))
  }

  method CollectAppcastSparkleVersionErrors(items: seq<Item>) returns (errors: seq<Problem>)
    ensures errors == Problems(items)
    ensures errors == [] <==> Accepts(items)
  {
    var header: seq<Problem> := [];
    if |items| == 0 {
      header := header + [NoItems];
    }
    var form, calverItems := ReadItems(items);
    var floors := CheckFloors(calverItems, AdoptionDate(calverItems));
    errors := header + form + floors;
    AcceptsIffNoProblems(items);
  }

  method ReadItems(items: seq<Item>) returns (errors: seq<Problem>, calverItems: seq<Entry>)
    ensures errors == FormProblems(items)
    ensures calverItems == DatedEntries(items)
  {
    errors, calverItems := [], [];
    for i := 0 to |items|
      invariant errors == FormProblems(items[..i])
      invariant calverItems == DatedEntries(items[..i])
    {
      NextItem(items, i);
      var item := items[i];
      var title := if item.title.Some? then item.title.value else "unknown";
      if item.sparkleVersion.None? || item.sparkleVersion.value == "" {
        errors := errors + [MissingVersion(title)];
      } else if !AllDigits(item.sparkleVersion.value) {
        errors := errors + [NonNumericVersion(title, item.sparkleVersion.value)];
      } else if item.shortVersion.Some? && item.shortVersion.value != "" {
        var floors := FloorsOf(item.shortVersion.value);
        if floors.Some? {
          calverItems := calverItems + [Entry(title, FromDecimal(item.sparkleVersion.value), floors.value)];
        }
      }
    }
    assert items[..|items|] == items;
  }

  lemma {:induction false} NextItem(items: seq<Item>, i: nat)
    requires i < |items|
    ensures FormProblems(items[..i + 1]) == FormProblems(items[..i]) + FormProblem(items[i])
    ensures DatedEntries(items[..i + 1]) == DatedEntries(items[..i]) + DatedEntry(items[i])
  {
    assert items[..i + 1][..i] == items[..i];
  }

  method CheckFloors(calverItems: seq<Entry>, adoption: int) returns (errors: seq<Problem>)
    ensures errors == FloorProblems(calverItems, adoption)
  {
    errors := [];
    for i := 0 to |calverItems|
      invariant errors == FloorProblems(calverItems[..i], adoption)
    {
      assert calverItems[..i + 1][..i] == calverItems[..i];
      var item := calverItems[i];
      var expectLaneFloor := item.build >= LANE_BUILD_MIN || item.floors.dateKey >= adoption;
      var floor := if expectLaneFloor then item.floors.laneFloor else item.floors.legacyFloor;
      if item.build < floor {
        errors := errors + [if expectLaneFloor then BelowLaneFloor(item.title, item.build, floor)
                            else BelowLegacyFloor(item.title, item.build, floor)];
      }
    }
    assert calverItems[..|calverItems|] == calverItems;
  }

  // ---------- When a feed is accepted ----------

  predicate IsEntry(items: seq<Item>, e: Entry) {
    exists item :: item in items && Dated(item) == Some(e)
  }

  /** The lane scheme was in force on a date: it is on or after the known adoption date, or on or after some
      build of the feed that already uses the scheme. */
  ghost predicate InLaneEra(items: seq<Item>, date: int) {
    date >= LANE_ADOPTION_DATE_KEY || exists e :: IsEntry(items, e) && IsLaneBuild(e) && e.floors.dateKey <= date
  }

  ghost predicate MeetsFloor(items: seq<Item>, e: Entry) {
    e.build >= if InLaneEra(items, e.floors.dateKey) then e.floors.laneFloor else e.floors.legacyFloor
  }

  ghost predicate Accepts(items: seq<Item>) {
    && items != []
    && (forall item | item in items :: HasNumericVersion(item))
    && (forall e | IsEntry(items, e) :: MeetsFloor(items, e))
  }

  lemma {:induction false} NoFormProblems(items: seq<Item>)
    ensures FormProblems(items) == [] <==> forall i | 0 <= i < |items| :: HasNumericVersion(items[i])
  {
    if items != [] {
      var init, last := items[..|items| - 1], items[|items| - 1];
      NoFormProblems(init);
      assert FormProblems(items) == FormProblems(init) + FormProblem(last);
      assert FormProblems(items) == [] <==> FormProblems(init) == [] && FormProblem(last) == [];
      assert FormProblem(last) == [] <==> HasNumericVersion(last);
      assert forall i | 0 <= i < |init| :: init[i] == items[i];
    }
  }

  lemma {:induction false} EntriesOfItems(items: seq<Item>, e: Entry)
    ensures e in DatedEntries(items) <==> IsEntry(items, e)
  {
    if items != [] {
      var init, last := items[..|items| - 1], items[|items| - 1];
      EntriesOfItems(init, e);
      assert forall item :: item in items <==> item in init || item == last by {
        assert items == init + [last];
      }
    }
  }

  lemma {:induction false} LaneDatesOf(entries: seq<Entry>, date: int)
    ensures date in LaneDates(entries) <==> exists e :: e in entries && IsLaneBuild(e) && e.floors.dateKey == date
  {
    if entries != [] {
      LaneDatesOf(entries[1..], date);
      assert entries == [entries[0]] + entries[1..];
    }
  }

  lemma {:induction false} AdoptionDateIsLeast(entries: seq<Entry>, date: int)
    ensures date >= AdoptionDate(entries) <==>
            date >= LANE_ADOPTION_DATE_KEY || exists e :: e in entries && IsLaneBuild(e) && e.floors.dateKey <= date
  {
    var dates := LaneDates(entries);
    var observed := Sort(AtMost, dates);
    SortSorts(AtMost, dates);
    SortPermutes(AtMost, dates);
    forall d ensures d in observed <==> d in dates {
      assert d in observed <==> d in multiset(observed);
    }
    if observed != [] {
      LaneDatesOf(entries, observed[0]);
    }
    forall e | e in entries && IsLaneBuild(e) ensures observed != [] && observed[0] <= e.floors.dateKey {
      LaneDatesOf(entries, e.floors.dateKey);
      LeastIsFirst(observed, e.floors.dateKey);
    }
  }

  lemma {:induction false} LeastIsFirst(s: seq<int>, x: int)
    requires Sorted(AtMost, s) && x in s
    ensures s[0] <= x
  {
    var i :| 0 <= i < |s| && s[i] == x;
    assert i > 0 ==> AtMost(s[0], s[i]);
  }

  lemma {:induction false} NoFloorProblems(entries: seq<Entry>, adoption: int)
    ensures FloorProblems(entries, adoption) == [] <==> forall e | e in entries :: FloorProblem(e, adoption) == []
  {
    if entries != [] {
      var init, last := entries[..|entries| - 1], entries[|entries| - 1];
      NoFloorProblems(init, adoption);
      assert entries == init + [last];
    }
  }

  lemma {:induction false} EntryMeetsFloor(items: seq<Item>, e: Entry)
    requires IsEntry(items, e)
    ensures FloorProblem(e, AdoptionDate(DatedEntries(items))) == [] <==> MeetsFloor(items, e)
    ensures InLaneEra(items, e.floors.dateKey) <==> e.floors.dateKey >= AdoptionDate(DatedEntries(items))
  {
    var entries := DatedEntries(items);
    AdoptionDateIsLeast(entries, e.floors.dateKey);
    forall f: Entry ensures f in entries <==> IsEntry(items, f) {
      EntriesOfItems(items, f);
    }
  }

  /** The validator is silent exactly on feeds whose every item has a numeric version and whose every dated
      build reaches the floor of the scheme in force on its date. */
  lemma {:induction false} AcceptsIffNoProblems(items: seq<Item>)
    ensures Problems(items) == [] <==> Accepts(items)
  {
    var entries := DatedEntries(items);
    NoFormProblems(items);
    NoFloorProblems(entries, AdoptionDate(entries));
    forall e: Entry ensures e in entries <==> IsEntry(items, e) {
      EntriesOfItems(items, e);
    }
    forall e | IsEntry(items, e) ensures FloorProblem(e, AdoptionDate(entries)) == [] <==> MeetsFloor(items, e) {
      EntryMeetsFloor(items, e);
    }
  }

  /** The verdict does not depend on the order of the items, nor on repetitions. */
  lemma {:induction false} VerdictIgnoresOrder(a: seq<Item>, b: seq<Item>)
    requires forall item :: item in a <==> item in b
    ensures Problems(a) == [] <==> Problems(b) == []
  {
    AcceptsIffNoProblems(a);
    AcceptsIffNoProblems(b);
    assert a != [] ==> a[0] in b;
    assert b != [] ==> b[0] in a;
    forall e: Entry ensures IsEntry(a, e) <==> IsEntry(b, e) {
    }
    forall e: Entry ensures MeetsFloor(a, e) <==> MeetsFloor(b, e) {
    }
  }

  // ---------- What acceptance implies ----------

  /** The lane builds are exactly the builds dated on or after the cut. */
  ghost predicate CutsAt(items: seq<Item>, cut: int) {
    forall e | IsEntry(items, e) :: IsLaneBuild(e) <==> e.floors.dateKey >= cut
  }

  predicate YearHasFourDigits(e: Entry) {
    e.floors.dateKey >= 1000_00_00
  }

  lemma {:induction false} LaneFloorOfEntry(items: seq<Item>, e: Entry)
    requires IsEntry(items, e)
    ensures e.floors.laneFloor == 100 * e.floors.dateKey + e.floors.lane
  {
    var item :| item in items && Dated(item) == Some(e);
    FloorsArePositional(item.shortVersion.value);
    var v := DatedParts(item.shortVersion.value);
    FloorsOfDated(item.shortVersion.value, Number(v.year), Number(v.month), Number(v.day), v.suffix);
  }

  /** An accepted feed whose dates all have years from 1000 on has a single cut date, the effective adoption
      date: before it all builds follow the old scheme, from it on all follow the lane scheme. So every build
      before the cut is smaller than every build after it. */
  lemma {:induction false} AcceptedFeedHasOneCut(items: seq<Item>)
    requires Problems(items) == []
    requires forall e | IsEntry(items, e) :: YearHasFourDigits(e)
    ensures CutsAt(items, AdoptionDate(DatedEntries(items)))
    ensures forall e, f | IsEntry(items, e) && IsEntry(items, f) &&
              e.floors.dateKey < AdoptionDate(DatedEntries(items)) <= f.floors.dateKey :: e.build < f.build
  {
    CutHoldsIffNoEarlyYearStraddles(items);
  }

  /** A dated item from before year 1000 with an old build, on or after the date of a lane build. */
  ghost predicate EarlyYearStraddles(items: seq<Item>) {
    exists e, f :: IsEntry(items, e) && IsEntry(items, f) && e.floors.dateKey <= f.floors.dateKey
      && IsLaneBuild(e) && !IsLaneBuild(f) && !YearHasFourDigits(f)
  }

  /** Without the restriction on years, the cut holds exactly when no old build from before year 1000 is dated
      on or after a lane build. */
  lemma {:induction false} CutHoldsIffNoEarlyYearStraddles(items: seq<Item>)
    requires Problems(items) == []
    ensures CutsAt(items, AdoptionDate(DatedEntries(items))) <==> !EarlyYearStraddles(items)
  {
    AcceptsIffNoProblems(items);
    forall e | IsEntry(items, e)
      ensures InLaneEra(items, e.floors.dateKey) <==> e.floors.dateKey >= AdoptionDate(DatedEntries(items))
      ensures IsLaneBuild(e) ==> InLaneEra(items, e.floors.dateKey)
      ensures InLaneEra(items, e.floors.dateKey) && YearHasFourDigits(e) ==> IsLaneBuild(e)
    {
      EntryMeetsFloor(items, e);
      LaneFloorOfEntry(items, e);
    }
  }

  ghost predicate IsNumber(s: string, n: nat) {
    s != "" && AllDigits(s) && FromDecimal(s) == n
  }

  function TwoReleases(version1: string, build1: string, version2: string, build2: string): seq<Item> {
    [Item(None, Some(version1), Some(build1)), Item(None, Some(version2), Some(build2))]
  }

  /** The floors of an unsuffixed release, as numbers of its date alone. */
  function PlainFloors(date: nat): Floors {
    Floors(date, 10 * date, 100 * date + 90, 90)
  }

  lemma {:induction false} DatedRelease(version: string, build: string, n: nat, y: nat, m: nat, d: nat, suffix: string)
    requires IsDated(version, y, m, d, suffix) && suffix == "" && version != "" && IsNumber(build, n)
    ensures Dated(Item(None, Some(version), Some(build))) == Some(Entry("unknown", n, PlainFloors(DateKey(y, m, d))))
  {
    FloorsOfDated(version, y, m, d, suffix);
  }

  /** Two entries that reach both of their floors are accepted whatever era they fall in. */
  lemma {:induction false} TwoEntriesAccepted(items: seq<Item>, e: Entry, f: Entry)
    requires |items| == 2 && Dated(items[0]) == Some(e) && Dated(items[1]) == Some(f)
    requires e.build >= e.floors.laneFloor && e.build >= e.floors.legacyFloor
    requires f.build >= f.floors.laneFloor && f.build >= f.floors.legacyFloor
    ensures Accepts(items) && IsEntry(items, e) && IsEntry(items, f)
  {
    TwoMembers(items);
    AboveBothFloors(items, e);
    AboveBothFloors(items, f);
  }

  lemma {:induction false} AboveBothFloors(items: seq<Item>, e: Entry)
    requires e.build >= e.floors.laneFloor && e.build >= e.floors.legacyFloor
    ensures MeetsFloor(items, e)
  {
  }

  lemma {:induction false} TwoMembers(items: seq<Item>)
    requires |items| == 2
    ensures forall item :: item in items <==> item == items[0] || item == items[1]
  {
    assert items == [items[0], items[1]];
  }

  /** The restriction is needed: two releases of the first days of the year 999, the first already on the lane
      scheme, make an accepted feed that has no cut. */
  lemma {:induction false} EarlyYearsCanStraddle(version1: string, build1: string, version2: string, build2: string)
    requires IsDated(version1, 999, 1, 1, "") && version1 != "" && IsNumber(build1, 1_000_000_000)
    requires IsDated(version2, 999, 1, 2, "") && version2 != "" && IsNumber(build2, 999_010_290)
    ensures var items := TwoReleases(version1, build1, version2, build2);
            && Problems(items) == []
            && EarlyYearStraddles(items)
            && !CutsAt(items, AdoptionDate(DatedEntries(items)))
  {
    var items := TwoReleases(version1, build1, version2, build2);
    DatedRelease(version1, build1, 1_000_000_000, 999, 1, 1, "");
    DatedRelease(version2, build2, 999_010_290, 999, 1, 2, "");
    var e := Entry("unknown", 1_000_000_000, PlainFloors(DateKey(999, 1, 1)));
    var f := Entry("unknown", 999_010_290, PlainFloors(DateKey(999, 1, 2)));
    TwoEntriesAccepted(items, e, f);
    AcceptsIffNoProblems(items);
    CutHoldsIffNoEarlyYearStraddles(items);
  }

  lemma {:induction false} TrimKeeps(s: string)
    requires s != "" && IsDigit(s[0]) && IsDigit(s[|s| - 1])
    ensures Trim(s) == s
  {
    assert TrimStart(s) == s;
  }

  lemma {:induction false} OneDigitDate(version: string, year: string, month: char, day: char)
    requires version == year + "." + [month] + "." + [day]
    requires |year| == 4 && AllDigits(year) && '1' <= month <= '9' && '1' <= day <= '9'
    ensures IsDated(version, Number(year), DigitValue(month), DigitValue(day), "")
  {
    AppendOne("", month);
    AppendOne("", day);
    assert "" + [month] == [month] && "" + [day] == [day];
    assert version == year + "." + [month] + "." + [day] + "";
    assert version[0] == year[0] && version[|version| - 1] == day;
    TrimKeeps(version);
    assert Matches(Trim(version), Version(year, [month], [day], ""));
  }

  lemma {:induction false} FourDigits(a: char, b: char, c: char, d: char)
    requires IsDigit(a) && IsDigit(b) && IsDigit(c) && IsDigit(d)
    ensures AllDigits([a, b, c, d])
    ensures FromDecimal([a, b, c, d]) == 1000 * DigitValue(a) + 100 * DigitValue(b) + 10 * DigitValue(c) + DigitValue(d)
  {
    TwoDigits(a, b);
    AppendTwoDigits([a, b], c, d);
    assert [a, b] + [c] + [d] == [a, b, c, d];
  }

  lemma {:induction false} TwoDigits(a: char, b: char)
    requires IsDigit(a) && IsDigit(b)
    ensures AllDigits([a, b]) && FromDecimal([a, b]) == 10 * DigitValue(a) + DigitValue(b)
  {
    AppendTwoDigits("", a, b);
    assert "" + [a] + [b] == [a, b];
  }

  /** Texts of the kind the counterexample needs. */
  lemma {:induction false} TextsOfTheYear999()
    ensures IsDated("0999.1.1", 999, 1, 1, "") && IsDated("0999.1.2", 999, 1, 2, "")
    ensures IsNumber(ToDecimal(1_000_000_000), 1_000_000_000) && IsNumber(ToDecimal(999_010_290), 999_010_290)
  {
    FourDigits('0', '9', '9', '9');
    OneDigitDate("0999.1.1", "0999", '1', '1');
    OneDigitDate("0999.1.2", "0999", '1', '2');
    NumberOf(1_000_000_000);
    NumberOf(999_010_290);
  }

  lemma {:induction false} NumberOf(n: nat)
    ensures IsNumber(ToDecimal(n), n)
  {
    ToDecimalReads(n);
  }

  // ---------- The verdict in numbers ----------

  lemma {:induction false} OneItem(item: Item, e: Entry)
    requires Dated(item) == Some(e)
    ensures Problems([item]) == FloorProblem(e, AdoptionDate([e]))
  {
    OneItemsLists(item, e);
    OneEntrysProblems(e, AdoptionDate([e]));
    assert [] + [] + FloorProblem(e, AdoptionDate([e])) == FloorProblem(e, AdoptionDate([e]));
  }

  lemma {:induction false} OneItemsLists(item: Item, e: Entry)
    requires Dated(item) == Some(e)
    ensures FormProblems([item]) == [] && DatedEntries([item]) == [e]
  {
    assert [item][..0] == [];
    assert FormProblems([item]) == FormProblems([]) + FormProblem(item);
    assert DatedEntries([item]) == DatedEntries([]) + DatedEntry(item);
  }

  lemma {:induction false} OneEntrysProblems(e: Entry, adoption: int)
    ensures FloorProblems([e], adoption) == FloorProblem(e, adoption)
  {
    assert [e][..0] == [];
    assert FloorProblems([e], adoption) == FloorProblems([], adoption) + FloorProblem(e, adoption);
  }

  lemma {:induction false} OneEntryExpectsLane(e: Entry)
    ensures IsLaneBuild(e) || e.floors.dateKey >= AdoptionDate([e]) <==>
            e.build >= 1000000000 || e.floors.dateKey >= 20260227
  {
    AdoptionDateIsLeast([e], e.floors.dateKey);
    assert e in [e];
  }

  /** The entry of a dated release. */
  lemma {:induction false} ReleaseIsDated(item: Item, n: nat, y: nat, m: nat, d: nat, suffix: string) returns (e: Entry)
    requires item.shortVersion.Some? && item.shortVersion.value != "" && item.sparkleVersion.Some?
    requires IsDated(item.shortVersion.value, y, m, d, suffix) && IsNumber(item.sparkleVersion.value, n)
    ensures Dated(item) == Some(e) && e.build == n
    ensures e.title == if item.title.Some? then item.title.value else "unknown"
    ensures var date := 10000 * y + 100 * m + d;
            e.floors == Floors(date, 10 * date, 100 * date + Lane(suffix), Lane(suffix))
  {
    FloorsOfDated(item.shortVersion.value, y, m, d, suffix);
    e := Dated(item).value;
  }

  /** A feed of one dated release: from a billion on, and from 27 February 2026 on, the build must reach the lane
      floor, and otherwise the old one. */
  lemma {:induction false} OneReleaseVerdict(item: Item, e: Entry)
    requires Dated(item) == Some(e)
    ensures Problems([item]) ==
            if e.build >= 1000000000 || e.floors.dateKey >= 20260227 then
              if e.build < e.floors.laneFloor then [BelowLaneFloor(e.title, e.build, e.floors.laneFloor)] else []
            else
              if e.build < e.floors.legacyFloor then [BelowLegacyFloor(e.title, e.build, e.floors.legacyFloor)] else []
  {
    OneItem(item, e);
    OneEntryExpectsLane(e);
  }

  /** The entry is on or after a date from which the lane scheme is in force. */
  ghost predicate LaneIsExpected(items: seq<Item>, date: int) {
    date >= 20260227 || exists g :: IsEntry(items, g) && g.build >= 1000000000 && g.floors.dateKey <= date
  }

  ghost predicate TitledItem(items: seq<Item>, title: string, item: Item) {
    item in items && title == if item.title.Some? then item.title.value else "unknown"
  }

  /** The build is below the floor it has to reach. */
  ghost predicate IsBelow(items: seq<Item>, e: Entry, p: Problem) {
    match p
    case BelowLaneFloor(title, build, floor) =>
      && e.title == title && e.build == build < floor == e.floors.laneFloor
      && LaneIsExpected(items, e.floors.dateKey)
    case BelowLegacyFloor(title, build, floor) =>
      && e.title == title && e.build == build < floor == e.floors.legacyFloor
      && !LaneIsExpected(items, e.floors.dateKey)
    case _ => false
  }

  ghost predicate IsTrue(items: seq<Item>, p: Problem) {
    match p
    case NoItems => items == []
    case MissingVersion(title) =>
      exists item :: TitledItem(items, title, item) && (item.sparkleVersion.None? || item.sparkleVersion == Some(""))
    case NonNumericVersion(title, version) =>
      exists item :: TitledItem(items, title, item) && item.sparkleVersion == Some(version)
        && version != "" && exists i | 0 <= i < |version| :: !('0' <= version[i] <= '9')
    case _ => exists e :: IsEntry(items, e) && IsBelow(items, e, p)
  }

  lemma {:induction false} FormProblemsOf(items: seq<Item>, p: Problem)
    ensures p in FormProblems(items) <==> exists item :: item in items && p in FormProblem(item)
  {
    if items != [] {
      var init, last := items[..|items| - 1], items[|items| - 1];
      FormProblemsOf(init, p);
      assert items == init + [last];
    }
  }

  lemma {:induction false} FloorProblemsOf(entries: seq<Entry>, adoption: int, p: Problem)
    ensures p in FloorProblems(entries, adoption) <==> exists e :: e in entries && p in FloorProblem(e, adoption)
  {
    if entries != [] {
      var init, last := entries[..|entries| - 1], entries[|entries| - 1];
      FloorProblemsOf(init, adoption, p);
      assert entries == init + [last];
    }
  }

  lemma {:induction false} FormProblemIs(item: Item, p: Problem)
    ensures p in FormProblem(item) <==>
            && (p.MissingVersion? || p.NonNumericVersion?)
            && p.title == (if item.title.Some? then item.title.value else "unknown")
            && (p.MissingVersion? ==> item.sparkleVersion.None? || item.sparkleVersion == Some(""))
            && (p.NonNumericVersion? ==> item.sparkleVersion == Some(p.version) && p.version != "")
            && (p.NonNumericVersion? ==> exists i | 0 <= i < |p.version| :: !('0' <= p.version[i] <= '9'))
  {
  }

  lemma {:induction false} FloorProblemIs(items: seq<Item>, e: Entry, p: Problem)
    requires IsEntry(items, e)
    ensures p in FloorProblem(e, AdoptionDate(DatedEntries(items))) <==> IsBelow(items, e, p)
  {
    LaneExpectedOf(items, e);
    FloorProblemHas(e, AdoptionDate(DatedEntries(items)), p);
  }

  lemma {:induction false} FloorProblemHas(e: Entry, adoption: int, p: Problem)
    ensures p in FloorProblem(e, adoption) <==>
            if IsLaneBuild(e) || e.floors.dateKey >= adoption
            then e.build < e.floors.laneFloor && p == BelowLaneFloor(e.title, e.build, e.floors.laneFloor)
            else e.build < e.floors.legacyFloor && p == BelowLegacyFloor(e.title, e.build, e.floors.legacyFloor)
  {
  }

  lemma {:induction false} LaneExpectedOf(items: seq<Item>, e: Entry)
    requires IsEntry(items, e)
    ensures IsLaneBuild(e) || e.floors.dateKey >= AdoptionDate(DatedEntries(items)) <==>
            LaneIsExpected(items, e.floors.dateKey)
  {
    EntryMeetsFloor(items, e);
    EraIsExpected(items, e.floors.dateKey);
    assert IsLaneBuild(e) ==> InLaneEra(items, e.floors.dateKey);
  }

  lemma {:induction false} EraIsExpected(items: seq<Item>, date: int)
    ensures InLaneEra(items, date) <==> LaneIsExpected(items, date)
  {
    forall g
      ensures IsEntry(items, g) && IsLaneBuild(g) <==> IsEntry(items, g) && g.build >= 1000000000
    {
    }
  }

  lemma {:induction false} FormPart(items: seq<Item>, p: Problem)
    requires p.MissingVersion? || p.NonNumericVersion?
    ensures p in FormProblems(items) <==> IsTrue(items, p)
  {
    FormProblemsOf(items, p);
    forall item
      ensures p in FormProblem(item) ==> (item in items ==> TitledItem(items, p.title, item))
    {
      FormProblemIs(item, p);
    }
    if p in FormProblems(items) {
      var item :| item in items && p in FormProblem(item);
      FormProblemIs(item, p);
      assert TitledItem(items, p.title, item);
    }
    if IsTrue(items, p) {
      if p.MissingVersion? {
        var item :| TitledItem(items, p.title, item)
          && (item.sparkleVersion.None? || item.sparkleVersion == Some(""));
        FormProblemIs(item, p);
      } else {
        var item :| TitledItem(items, p.title, item) && item.sparkleVersion == Some(p.version)
          && p.version != "" && exists i | 0 <= i < |p.version| :: !('0' <= p.version[i] <= '9');
        FormProblemIs(item, p);
      }
    }
  }

  lemma {:induction false} FloorPart(items: seq<Item>, p: Problem)
    requires p.BelowLaneFloor? || p.BelowLegacyFloor?
    ensures p in FloorProblems(DatedEntries(items), AdoptionDate(DatedEntries(items))) <==> IsTrue(items, p)
  {
    var entries := DatedEntries(items);
    FloorProblemsOf(entries, AdoptionDate(entries), p);
    forall e: Entry
      ensures e in entries && p in FloorProblem(e, AdoptionDate(entries)) <==> IsEntry(items, e) && IsBelow(items, e, p)
    {
      EntriesOfItems(items, e);
      if IsEntry(items, e) {
        FloorProblemIs(items, e, p);
      }
    }
  }

  lemma {:induction false} FormKinds(items: seq<Item>, p: Problem)
    ensures p in FormProblems(items) ==> p.MissingVersion? || p.NonNumericVersion?
  {
    FormProblemsOf(items, p);
  }

  lemma {:induction false} FloorKinds(entries: seq<Entry>, adoption: int, p: Problem)
    ensures p in FloorProblems(entries, adoption) ==> p.BelowLaneFloor? || p.BelowLegacyFloor?
  {
    FloorProblemsOf(entries, adoption, p);
  }

  /** Exactly the true problems are reported, each under the title of its item. */
  lemma {:induction false} ProblemsAreTrue(items: seq<Item>, p: Problem)
    ensures p in Problems(items) <==> IsTrue(items, p)
  {
    FormKinds(items, p);
    FloorKinds(DatedEntries(items), AdoptionDate(DatedEntries(items)), p);
    match p
    case NoItems =>
    case MissingVersion(_) => FormPart(items, p);
    case NonNumericVersion(_, _) => FormPart(items, p);
    case BelowLaneFloor(_, _, _) => FloorPart(items, p);
    case BelowLegacyFloor(_, _, _) => FloorPart(items, p);
  }

  /** The problems of form come first, then those of floors. */
  lemma {:induction false} FormComesFirst(items: seq<Item>)
    requires items != []
    ensures Problems(items) ==
            FormProblems(items) + FloorProblems(DatedEntries(items), AdoptionDate(DatedEntries(items)))
  {
    EmptyFirst(FormProblems(items));
  }

  lemma {:induction false} EmptyFirst(problems: seq<Problem>)
    ensures [] + problems == problems
  {
  }

  /** Both follow the order of the items. */
  lemma {:induction false} ProblemsFollowItems(items: seq<Item>, item: Item, entries: seq<Entry>, e: Entry,
                                               adoption: int)
    ensures FormProblems(items + [item]) == FormProblems(items) + FormProblem(item)
    ensures DatedEntries(items + [item]) == DatedEntries(items) + DatedEntry(item)
    ensures FloorProblems(entries + [e], adoption) == FloorProblems(entries, adoption) + FloorProblem(e, adoption)
  {
    assert (items + [item])[..|items|] == items;
    assert (entries + [e])[..|entries|] == entries;
  }
}
