/** The list logic of the dashboard page (src/app/dashboard/page.tsx): the
    sort-column state, the time-remaining and status labels, the search box
    and the column sort, over the records `GET /api/capsules` returns. */
module Dashboard {
  import opened Wrappers
  import opened Db
  import Text
  import Lists
  import CapsuleList

  /** The keys of the page's `Capsule` type. */
  datatype Field = Id | Title | Description | CreatedAt | UnlockDate | IsUnlocked | Mode | Language

  datatype Direction = Asc | Desc

  function Flip(d: Direction): (r: Direction)
    ensures r != d
  {
    if d == Asc then Desc else Asc
  }

  /** The column whose header was clicked last, and its direction. */
  class SortState {
    var field: Field
    var direction: Direction

    /** The page opens sorted by `createdAt`, newest first. */
    constructor ()
      ensures field == CreatedAt && direction == Desc
    {
      field := CreatedAt;
      direction := Desc;
    }

    /** `handleSort`: clicking the active column flips its direction; clicking
        another column makes it active, descending. */
    method HandleSort(f: Field)
      modifies this
      ensures field == f
      ensures f == old(field) ==> direction == Flip(old(direction))
      ensures f != old(field) ==> direction == Desc
    {
      if f == field {
        direction := if direction == Asc then Desc else Asc;
      } else {
        field := f;
        direction := Desc;
      }
    }

    /** `getSortIcon`. */
    function SortIcon(f: Field): (icon: string)
      reads this
      ensures icon == ArrowBoth <==> f != field
      ensures icon == ArrowUp <==> f == field && direction == Asc
      ensures icon == ArrowDown <==> f == field && direction == Desc
    {
      assert |ArrowBoth| == 2 && |ArrowUp| == 1 && |ArrowDown| == 1 && ArrowUp[0] != ArrowDown[0];
      if f != field then ArrowBoth
      else if direction == Asc then ArrowUp
      else assert direction == Desc && f == field; ArrowDown
    }
  }

  const ArrowBoth: string := "\U{2195}\U{FE0F}"
  const ArrowUp: string := "\U{2191}"
  const ArrowDown: string := "\U{2193}"

  /** Two clicks on the same column give back the direction it had. */
  method DoubleClick(s: SortState, f: Field)
    modifies s
    ensures s.field == f
    ensures old(s.field) == f ==> s.direction == old(s.direction)
    ensures old(s.field) != f ==> s.direction == Asc
  {
    s.HandleSort(f);
    s.HandleSort(f);
  }

  const Hour: nat := 1000 * 60 * 60
  const Day: nat := 1000 * 60 * 60 * 24

  /** What `getTimeRemaining` reports. */
  datatype Remaining = ReadyToUnlock | Years(years: nat) | Months(months: nat) | Days(days: nat) | Hours(hours: nat)

  /** `d` holds exactly `n` whole `unit`s: the count rounded down. */
  predicate Whole(d: int, n: int, unit: int)
  {
    n * unit <= d < (n + 1) * unit
  }

  /** `getTimeRemaining(unlockDate)` at the instant `now`: whole days are
      counted down from years (over 365 days) through months (over 30 days)
      to days; under a day, the whole hours. */
  function TimeRemaining(unlock: int, now: int): (r: Remaining)
    ensures r == ReadyToUnlock <==> unlock <= now
    ensures r.Years? ==> r.years >= 1 && unlock - now >= 366 * Day && Whole(unlock - now, r.years, 365 * Day)
    ensures r.Months? ==>
      && 1 <= r.months <= 12
      && 31 * Day <= unlock - now < 366 * Day
      && Whole(unlock - now, r.months, 30 * Day)
    ensures r.Days? ==> 1 <= r.days <= 30 && Whole(unlock - now, r.days, Day)
    ensures r.Hours? ==> r.hours < 24 && unlock - now < Day && Whole(unlock - now, r.hours, Hour)
  {
    var diff := unlock - now;
    if diff <= 0 then ReadyToUnlock
    else
      var days := diff / Day;
      if days > 365 then
        YearsBucket(diff);
        Years(days / 365)
      else if days > 30 then
        MonthsBucket(diff);
        Months(days / 30)
      else if days > 0 then
        DivWhole(diff, Day);
        Days(days)
      else
        HoursBucket(diff);
        Hours((diff % Day) / Hour)
  }

  /** More than 365 whole days: at least one whole year, and at least 366 days. */
  lemma YearsBucket(diff: int)
    requires diff > 0 && diff / Day > 365
    ensures diff / Day / 365 >= 1 && diff >= 366 * Day && Whole(diff, diff / Day / 365, 365 * Day)
  {
    DivWhole(diff, Day);
    WholeGroups(diff, Day, 365);
  }

  /** 31 to 365 whole days: 1 to 12 whole months of 30 days. */
  lemma MonthsBucket(diff: int)
    requires diff > 0 && 30 < diff / Day <= 365
    ensures 1 <= diff / Day / 30 <= 12 && 31 * Day <= diff < 366 * Day && Whole(diff, diff / Day / 30, 30 * Day)
  {
    DivWhole(diff, Day);
    WholeGroups(diff, Day, 30);
  }

  /** Under a day: the hours left, fewer than 24. */
  lemma HoursBucket(diff: int)
    requires diff > 0 && diff / Day == 0
    ensures diff < Day && (diff % Day) / Hour < 24 && Whole(diff, (diff % Day) / Hour, Hour)
  {
    DivWhole(diff, Day);
    DivWhole(diff, Hour);
    assert diff % Day == diff;
  }

  /** Integer division counts whole units. */
  lemma DivWhole(d: int, unit: nat)
    requires d >= 0 && unit > 0
    ensures Whole(d, d / unit, unit)
  {
  }

  /** Whole units counted in groups of `k`: the number of whole `k`-unit periods. */
  lemma WholeGroups(d: int, unit: nat, k: nat)
    requires d >= 0 && unit > 0 && k > 0
    ensures Whole(d, d / unit / k, k * unit)
  {
    var n := d / unit;
    var q := n / k;
    DivWhole(d, unit);
    DivWhole(n, k);
    MulMono(q * k, n, unit);
    MulMono(n + 1, (q + 1) * k, unit);
    assert q * (k * unit) == q * k * unit;
    assert (q + 1) * (k * unit) == (q + 1) * k * unit;
  }

  lemma MulMono(a: int, b: int, c: nat)
    requires a <= b
    ensures a * c <= b * c
  {
  }

  /** Less than an hour to go reads as "0 hours". */
  lemma LastHour(unlock: int, now: int)
    requires now < unlock < now + Hour
    ensures TimeRemaining(unlock, now) == Hours(0)
  {
  }

  /** `${n} unit` with an `s` unless `n` is 1. */
  function Counted(n: nat, unit: string): (r: string)
    ensures r != [] && '0' <= r[0] <= '9'
  {
    Text.NatToString(n) + " " + unit + (if n != 1 then "s" else "")
  }

  /** The text of the `getTimeRemaining` result. */
  function Label(r: Remaining): (s: string)
    ensures s == "Ready to unlock" <==> r == ReadyToUnlock
  {
    match r
    case ReadyToUnlock => "Ready to unlock"
    case Years(n) => Counted(n, "year")
    case Months(n) => Counted(n, "month")
    case Days(n) => Counted(n, "day")
    case Hours(n) => Counted(n, "hour")
  }

  /** The singular is used for a count of one only. */
  lemma CountedSingular(n: nat, unit: string)
    ensures Counted(n, unit) == Text.NatToString(n) + " " + unit <==> n == 1
  {
    var plural := Text.NatToString(n) + " " + unit + "s";
    if n != 1 {
      assert |plural| == |Text.NatToString(n) + " " + unit| + 1;
    }
  }

  /** `getAccessModeLabel`. */
  function AccessModeLabel(m: AccessMode): (s: string)
    ensures s == "Private" <==> m == Private
    ensures s == "Shared" <==> m == Shared
    ensures s == "Public" <==> m == Public
  {
    match m
    case Private => "Private"
    case Shared => "Shared"
    case Public => "Public"
  }

  /** The status badge of a row. */
  datatype Badge = Unlocked | Ready | Sealed

  /** Unlocked if the record says so, else ready once the unlock date has
      come, else sealed. */
  function Status(c: Summary, now: int): (b: Badge)
    ensures b == Unlocked <==> c.isUnlocked
    ensures b == Ready <==> !c.isUnlocked && c.unlockDate <= now
    ensures b == Sealed <==> !c.isUnlocked && c.unlockDate > now
  {
    if c.isUnlocked then Unlocked
    else if c.unlockDate <= now then Ready
    else Sealed
  }

  /** A locked row is ready exactly when its time remaining reads ready. */
  lemma StatusAgreesWithRemaining(c: Summary, now: int)
    requires !c.isUnlocked
    ensures Status(c, now) == Ready <==> Label(TimeRemaining(c.unlockDate, now)) == "Ready to unlock"
  {
  }

  /** The Edit link is offered only while the capsule is locked. */
  predicate ShowsEdit(c: Summary)
  {
    !c.isUnlocked
  }

  lemma EditOnlyWhenLocked(c: Summary, now: int)
    ensures ShowsEdit(c) <==> Status(c, now) != Unlocked
  {
  }

  /** A list fresh from the listing handler, shown at the same instant, has no
      row in the "Ready to unlock" state: the handler has unlocked them all. */
  lemma NoReadyAfterListing(s: seq<Summary>, now: int)
    ensures forall i :: 0 <= i < |CapsuleList.UnlockDue(s, now)| ==>
      Status(CapsuleList.UnlockDue(s, now)[i], now) != Ready
  {
    var r := CapsuleList.UnlockDue(s, now);
    forall i | 0 <= i < |r| ensures Status(r[i], now) != Ready {
      if r[i].unlockDate <= now {
        assert s[i].unlockDate <= now;
      }
    }
  }

  /** `filteredCapsules`: the lower-cased title, or the lower-cased
      description when there is one, includes the lower-cased term. */
  predicate Matches(c: Summary, term: string)
  {
    var t := Text.Lower(term);
    || Text.Contains(Text.Lower(c.title), t)
    || (c.description.Some? && Text.Contains(Text.Lower(c.description.value), t))
  }

  function Search(s: seq<Summary>, term: string): seq<Summary>
  {
    Lists.Filter(s, (c: Summary) => Matches(c, term))
  }

  /** The search keeps, in order, exactly the rows that match, every copy of each. */
  lemma SearchKeepsMatches(s: seq<Summary>, term: string)
    ensures Lists.Subsequence(Search(s, term), s)
    ensures forall i :: 0 <= i < |Search(s, term)| ==> Matches(Search(s, term)[i], term)
    ensures forall i :: 0 <= i < |s| && Matches(s[i], term) ==>
      multiset(Search(s, term))[s[i]] == multiset(s)[s[i]]
  {
    Lists.FilterIsSubsequence(s, (c: Summary) => Matches(c, term));
    forall i | 0 <= i < |s| && Matches(s[i], term)
      ensures multiset(Search(s, term))[s[i]] == multiset(s)[s[i]]
    {
      Lists.FilterCounts(s, (c: Summary) => Matches(c, term), s[i]);
    }
  }

  /** An empty search box shows every row. */
  lemma EmptySearchKeepsAll(s: seq<Summary>)
    ensures Search(s, "") == s
  {
    forall i | 0 <= i < |s| ensures Matches(s[i], "") {
      assert Text.Lower("") == "";
      Text.ContainsEmpty(Text.Lower(s[i].title));
    }
    Lists.FilterKeepsAll(s, (c: Summary) => Matches(c, ""));
  }

  /** The search ignores the case of the term. */
  lemma SearchIgnoresCase(s: seq<Summary>, term: string)
    ensures Search(s, Text.Lower(term)) == Search(s, term)
  {
    Text.LowerIdempotent(term);
    Lists.FilterSame(s, (c: Summary) => Matches(c, Text.Lower(term)), (c: Summary) => Matches(c, term));
  }

  /** `(a[field] || '').toLowerCase()` for the text columns. */
  function TextKey(f: Field, c: Summary): string
  {
    if f == Title then Text.Lower(c.title)
    else if c.description.Some? then Text.Lower(c.description.value)
    else ""
  }

  /** `new Date(a[field]).getTime()` for the date columns. */
  function DateKey(f: Field, c: Summary): int
  {
    if f == CreatedAt then c.createdAt else c.unlockDate
  }

  predicate IsText(f: Field) { f == Title || f == Description }

  predicate IsDate(f: Field) { f == CreatedAt || f == UnlockDate }

  /** The comparator of `sortedCapsules`. */
  function Compare(f: Field, d: Direction, a: Summary, b: Summary): int
  {
    if IsText(f) then
      if d == Asc then Text.Compare(TextKey(f, a), TextKey(f, b)) else Text.Compare(TextKey(f, b), TextKey(f, a))
    else if IsDate(f) then
      if d == Asc then DateKey(f, a) - DateKey(f, b) else DateKey(f, b) - DateKey(f, a)
    else 0
  }

  /** `a` may stay ahead of `b`. */
  function Order(f: Field, d: Direction): (Summary, Summary) -> bool
  {
    (a: Summary, b: Summary) => Compare(f, d, a, b) <= 0
  }

  /** `sortedCapsules`: a stable sort of the searched rows. */
  function SortCapsules(s: seq<Summary>, f: Field, d: Direction): (r: seq<Summary>)
    ensures multiset(r) == multiset(s)
  {
    Lists.SortBy(s, Order(f, d))
  }

  lemma OrderIsTotalPreorder(f: Field, d: Direction)
    ensures Lists.TotalPreorder(Order(f, d))
  {
    var le := Order(f, d);
    if IsText(f) {
      forall a, b ensures le(a, b) || le(b, a) {
        Text.LexLeTotal(TextKey(f, a), TextKey(f, b));
      }
      forall a, b, c | le(a, b) && le(b, c) ensures le(a, c) {
        if d == Asc {
          Text.LexLeTransitive(TextKey(f, a), TextKey(f, b), TextKey(f, c));
        } else {
          Text.LexLeTransitive(TextKey(f, c), TextKey(f, b), TextKey(f, a));
        }
      }
    }
  }

  /** Text columns come out in (lower-cased) lexicographic order. */
  lemma SortedByText(s: seq<Summary>, f: Field, d: Direction)
    requires IsText(f)
    ensures var r := SortCapsules(s, f, d);
      forall i, j :: 0 <= i < j < |r| ==>
        if d == Asc then Text.LexLe(TextKey(f, r[i]), TextKey(f, r[j]))
        else Text.LexLe(TextKey(f, r[j]), TextKey(f, r[i]))
  {
    OrderIsTotalPreorder(f, d);
    Lists.SortBySorted(s, Order(f, d));
  }

  /** Date columns come out in time order. */
  lemma SortedByDate(s: seq<Summary>, f: Field, d: Direction)
    requires IsDate(f)
    ensures var r := SortCapsules(s, f, d);
      forall i, j :: 0 <= i < j < |r| ==>
        if d == Asc then DateKey(f, r[i]) <= DateKey(f, r[j])
        else DateKey(f, r[j]) <= DateKey(f, r[i])
  {
    OrderIsTotalPreorder(f, d);
    Lists.SortBySorted(s, Order(f, d));
  }

  /** Any other column leaves the rows in the order they came. */
  lemma OtherFieldKeepsOrder(s: seq<Summary>, f: Field, d: Direction)
    requires !IsText(f) && !IsDate(f)
    ensures SortCapsules(s, f, d) == s
  {
    Lists.SortByAllTies(s, Order(f, d));
  }
}
