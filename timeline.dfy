/**
 * The timeline: the dates of every evidence item of every profile, the ones that parse
 * as calendar dates, counted per `YYYY-MM` month in ascending month order.
 */
module Timeline {
  import opened Wrappers
  import opened Text
  import opened Records
  import opened Calendar
  import opened Seqs

  /** `evidence.get("date", "")`. */
  function DateText(e: Evidence): string { e.date.GetOr("") }

  /** `profile.get("evidence", [])`. */
  function EvidenceOf(p: Profile): seq<Evidence> { p.evidence.GetOr([]) }

  /** The date an item contributes: none for an empty date or one that does not parse. */
  function KeptDate(e: Evidence): Option<Date> {
    if DateText(e) != "" then ParseDate(DateText(e)) else None
  }

  /** The dates one profile's items contribute, in item order. */
  function ItemDates(items: seq<Evidence>): (dates: seq<Date>)
    ensures |dates| <= |items|
    ensures forall d :: d in dates ==> IsValidDate(d)
    decreases |items|
  {
    if items == [] then []
    else
      var earlier := ItemDates(items[..|items| - 1]);
      match KeptDate(items[|items| - 1])
      case Some(d) => earlier + [d]
      case None => earlier
  }

  /**
   * Which items contribute: every item whose date is present and parses contributes that
   * date, and every date comes from such an item.
   */
  lemma {:induction false} ItemDatesKept(items: seq<Evidence>)
    ensures forall k :: 0 <= k < |items| && KeptDate(items[k]).Some? ==>
      KeptDate(items[k]).value in ItemDates(items)
    ensures forall d :: d in ItemDates(items) ==>
      exists k :: 0 <= k < |items| && KeptDate(items[k]) == Some(d)
    decreases |items|
  {
    if items != [] {
      var init := items[..|items| - 1];
      ItemDatesKept(init);
      assert forall k :: 0 <= k < |init| ==> init[k] == items[k];
    }
  }

  function ItemCount(profiles: seq<Profile>): nat
    decreases |profiles|
  {
    if profiles == [] then 0
    else ItemCount(profiles[..|profiles| - 1]) + |EvidenceOf(profiles[|profiles| - 1])|
  }

  /** Item `k` of profile `i` keeps a date. */
  predicate KeptAt(profiles: seq<Profile>, i: int, k: int) {
    0 <= i < |profiles| && 0 <= k < |EvidenceOf(profiles[i])| && KeptDate(EvidenceOf(profiles[i])[k]).Some?
  }

  /** Every valid date of every profile's items, profile by profile (`all_dates`). */
  function ProfileDates(profiles: seq<Profile>): (dates: seq<Date>)
    ensures |dates| <= ItemCount(profiles)
    ensures forall d :: d in dates ==> IsValidDate(d)
    decreases |profiles|
  {
    if profiles == [] then []
    else ProfileDates(profiles[..|profiles| - 1]) + ItemDates(EvidenceOf(profiles[|profiles| - 1]))
  }

  /**
   * Which items contribute, over all profiles: every (profile, item) position whose date is
   * present and parses contributes that date, and every date comes from such a position.
   */
  lemma {:induction false} ProfileDatesKept(profiles: seq<Profile>)
    ensures forall i, k :: KeptAt(profiles, i, k) ==>
      KeptDate(EvidenceOf(profiles[i])[k]).value in ProfileDates(profiles)
    ensures forall d :: d in ProfileDates(profiles) ==>
      exists i, k :: KeptAt(profiles, i, k) && KeptDate(EvidenceOf(profiles[i])[k]) == Some(d)
    decreases |profiles|
  {
    if profiles != [] {
      var init := profiles[..|profiles| - 1];
      var last := profiles[|profiles| - 1];
      ProfileDatesKept(init);
      ItemDatesKept(EvidenceOf(last));
      assert forall i, k :: KeptAt(init, i, k) <==> i < |init| && KeptAt(profiles, i, k);
      assert forall k :: KeptAt(profiles, |init|, k) <==>
        0 <= k < |EvidenceOf(last)| && KeptDate(EvidenceOf(last)[k]).Some?;
    }
  }

  /** One more item extends the dates of a profile's items by the date it keeps, if any. */
  lemma ItemDatesStep(items: seq<Evidence>, j: nat)
    requires j < |items|
    ensures ItemDates(items[..j + 1]) == ItemDates(items[..j])
      + (if KeptDate(items[j]).Some? then [KeptDate(items[j]).value] else [])
  {
    assert items[..j + 1][..j] == items[..j];
  }

  /** One more profile extends the dates by the dates of its items. */
  lemma ProfileDatesStep(profiles: seq<Profile>, i: nat)
    requires i < |profiles|
    ensures ProfileDates(profiles[..i + 1]) == ProfileDates(profiles[..i]) + ItemDates(EvidenceOf(profiles[i]))
  {
    assert profiles[..i + 1][..i] == profiles[..i];
  }

  /**
   * The inner loop of the date collection: appends the date of each of one profile's items,
   * skipping an empty date and dropping one that does not parse without stopping.
   */
  method AppendItemDates(dates: seq<Date>, items: seq<Evidence>) returns (out: seq<Date>)
    ensures out == dates + ItemDates(items)
  {
    out := dates;
    for j := 0 to |items|
      invariant out == dates + ItemDates(items[..j])
    {
      ItemDatesStep(items, j);
      var text := DateText(items[j]);
      var parsed: Option<Date> := None;
      if text != "" {
        parsed := ParseDate(text);
      }
      assert parsed == KeptDate(items[j]);
      if parsed.Some? {
        out := out + [parsed.value];
      }
    }
    assert items[..|items|] == items;
  }

  /**
   * The nested loops that collect `all_dates`: empty dates are skipped, a date that does
   * not parse is dropped without stopping the loop.
   */
  method CollectDates(profiles: seq<Profile>) returns (dates: seq<Date>)
    ensures dates == ProfileDates(profiles)
    ensures |dates| <= ItemCount(profiles)
    ensures forall d :: d in dates ==> IsValidDate(d)
  {
    dates := [];
    for i := 0 to |profiles|
      invariant dates == ProfileDates(profiles[..i])
    {
      ProfileDatesStep(profiles, i);
      dates := AppendItemDates(dates, EvidenceOf(profiles[i]));
    }
    assert profiles[..|profiles|] == profiles;
  }

  /** The month buckets of the dates, in order. */
  function Months(dates: seq<Date>): (months: seq<string>)
    requires forall d :: d in dates ==> IsValidDate(d)
    ensures |months| == |dates|
  {
    seq(|dates|, i requires 0 <= i < |dates| => MonthBucket(dates[i]))
  }

  /** One bar of the timeline chart. */
  datatype Bucket = Bucket(month: string, count: nat)

  predicate MonthsAscending(bs: seq<Bucket>) {
    forall i, j :: 0 <= i < j < |bs| ==> Less(bs[i].month, bs[j].month)
  }

  predicate CountsPositive(bs: seq<Bucket>) {
    forall i :: 0 <= i < |bs| ==> bs[i].count >= 1
  }

  function MonthSet(bs: seq<Bucket>): set<string> {
    set b | b in bs :: b.month
  }

  /** The count shown for a month; 0 for a month without a bucket. */
  function CountOf(bs: seq<Bucket>, month: string): nat {
    if bs == [] then 0
    else if bs[0].month == month then bs[0].count
    else CountOf(bs[1..], month)
  }

  function Total(bs: seq<Bucket>): nat {
    if bs == [] then 0 else bs[0].count + Total(bs[1..])
  }

  /** A month without a bucket counts nothing. */
  lemma {:induction false} CountOfAbsent(bs: seq<Bucket>, month: string)
    requires month !in MonthSet(bs)
    ensures CountOf(bs, month) == 0
  {
    if bs != [] {
      assert bs[0] in bs;
      assert MonthSet(bs[1..]) <= MonthSet(bs) by {
        forall m | m in MonthSet(bs[1..]) ensures m in MonthSet(bs) {
          var b :| b in bs[1..] && b.month == m;
          assert b in bs;
        }
      }
      CountOfAbsent(bs[1..], month);
    }
  }

  lemma MonthSetCons(b: Bucket, bs: seq<Bucket>)
    ensures MonthSet([b] + bs) == {b.month} + MonthSet(bs)
  {
    assert forall c :: c in [b] + bs <==> c == b || c in bs;
  }

  /** In an ascending list the first month precedes every other month. */
  lemma HeadPrecedesRest(bs: seq<Bucket>)
    requires bs != [] && MonthsAscending(bs)
    ensures forall m :: m in MonthSet(bs[1..]) ==> Less(bs[0].month, m)
  {
    forall m | m in MonthSet(bs[1..]) ensures Less(bs[0].month, m) {
      var b :| b in bs[1..] && b.month == m;
      var j :| 0 <= j < |bs[1..]| && bs[1..][j] == b;
      assert bs[j + 1].month == m;
    }
  }

  /** A bucket whose month precedes every month of an ascending list can go in front. */
  lemma AscendingCons(b: Bucket, bs: seq<Bucket>)
    requires MonthsAscending(bs)
    requires forall m :: m in MonthSet(bs) ==> Less(b.month, m)
    ensures MonthsAscending([b] + bs)
  {
    forall j | 0 <= j < |bs| ensures Less(b.month, bs[j].month) {
      assert bs[j] in bs;
    }
  }

  /** A month before the first month of an ascending list is before all of them, so not among them. */
  lemma PrecedesAll(month: string, bs: seq<Bucket>)
    requires bs != [] && MonthsAscending(bs) && Less(month, bs[0].month)
    ensures forall m :: m in MonthSet(bs) ==> Less(month, m)
    ensures month !in MonthSet(bs)
  {
    HeadPrecedesRest(bs);
    assert bs == [bs[0]] + bs[1..];
    MonthSetCons(bs[0], bs[1..]);
    forall m | m in MonthSet(bs) ensures Less(month, m) {
      if m != bs[0].month {
        LessTransitive(month, bs[0].month, m);
      }
    }
    LessIrreflexive(month);
  }

  /** Counts one more item of `month`: its bucket goes up by one, or a new bucket of 1 takes its place in order. */
  function AddOne(bs: seq<Bucket>, month: string): seq<Bucket> {
    if bs == [] then [Bucket(month, 1)]
    else if bs[0].month == month then [Bucket(month, bs[0].count + 1)] + bs[1..]
    else if Less(month, bs[0].month) then [Bucket(month, 1)] + bs
    else [bs[0]] + AddOne(bs[1..], month)
  }

  /** Adding an item keeps the months ascending and the counts positive, and adds its month. */
  lemma {:induction false} AddOneOrdered(bs: seq<Bucket>, month: string)
    requires MonthsAscending(bs) && CountsPositive(bs)
    ensures MonthsAscending(AddOne(bs, month)) && CountsPositive(AddOne(bs, month))
    ensures MonthSet(AddOne(bs, month)) == MonthSet(bs) + {month}
    decreases |bs|, 1
  {
    if bs == [] {
    } else if bs[0].month == month {
      IncrementHead(bs);
    } else if Less(month, bs[0].month) {
      PrecedesAll(month, bs);
      MonthSetCons(Bucket(month, 1), bs);
      AscendingCons(Bucket(month, 1), bs);
    } else {
      AddBehindHead(bs, month);
    }
  }

  /** The case where the first bucket is the item's month. */
  lemma IncrementHead(bs: seq<Bucket>)
    requires bs != [] && MonthsAscending(bs) && CountsPositive(bs)
    ensures var r := [Bucket(bs[0].month, bs[0].count + 1)] + bs[1..];
      MonthsAscending(r) && CountsPositive(r) && MonthSet(r) == MonthSet(bs)
  {
    var b := Bucket(bs[0].month, bs[0].count + 1);
    assert bs == [bs[0]] + bs[1..];
    MonthSetCons(bs[0], bs[1..]);
    MonthSetCons(b, bs[1..]);
    HeadPrecedesRest(bs);
    AscendingCons(b, bs[1..]);
  }

  /** The first bucket still goes first once a later month is added behind it. */
  lemma AscendingBehind(bs: seq<Bucket>, month: string, rest: seq<Bucket>)
    requires bs != [] && MonthsAscending(bs) && MonthsAscending(rest)
    requires bs[0].month != month && !Less(month, bs[0].month)
    requires MonthSet(rest) == MonthSet(bs[1..]) + {month}
    ensures MonthsAscending([bs[0]] + rest)
  {
    HeadPrecedesRest(bs);
    LessTotal(month, bs[0].month);
    AscendingCons(bs[0], rest);
  }

  /** The case where the item's month comes after the first bucket's. */
  lemma {:induction false} AddBehindHead(bs: seq<Bucket>, month: string)
    requires bs != [] && MonthsAscending(bs) && CountsPositive(bs)
    requires bs[0].month != month && !Less(month, bs[0].month)
    ensures var r := [bs[0]] + AddOne(bs[1..], month);
      MonthsAscending(r) && CountsPositive(r) && MonthSet(r) == MonthSet(bs) + {month}
    decreases |bs|, 0
  {
    var head, tail := bs[0], bs[1..];
    assert bs == [head] + tail;
    assert MonthsAscending(tail) && CountsPositive(tail);
    AddOneOrdered(tail, month);
    var rest := AddOne(tail, month);
    assert MonthSet([head] + rest) == MonthSet(bs) + {month} by {
      MonthSetCons(head, tail);
      MonthSetCons(head, rest);
    }
    assert MonthsAscending([head] + rest) by {
      AscendingBehind(bs, month, rest);
    }
    assert CountsPositive([head] + rest);
  }

  /** Adding an item raises its month's count by one and no other count, so the total by one. */
  lemma {:induction false} AddOneCounts(bs: seq<Bucket>, month: string)
    requires MonthsAscending(bs)
    ensures Total(AddOne(bs, month)) == Total(bs) + 1
    ensures forall m :: CountOf(AddOne(bs, month), m) == CountOf(bs, m) + (if m == month then 1 else 0)
  {
    if bs == [] {
    } else if bs[0].month == month {
    } else if Less(month, bs[0].month) {
      PrecedesAll(month, bs);
      CountOfAbsent(bs, month);
      assert AddOne(bs, month)[1..] == bs;
    } else {
      AddOneCounts(bs[1..], month);
      assert AddOne(bs, month)[1..] == AddOne(bs[1..], month);
    }
  }

  /**
   * `value_counts().sort_index()` of the months: ascending months, each with a positive
   * count equal to the number of times it occurs; the counts add up to the number of months.
   */
  function CountByMonth(months: seq<string>): (bs: seq<Bucket>)
    ensures MonthsAscending(bs) && CountsPositive(bs)
    ensures MonthSet(bs) == set m | m in months
    ensures Total(bs) == |months|
    ensures forall m :: CountOf(bs, m) == multiset(months)[m]
  {
    if months == [] then []
    else
      assert months == [months[0]] + months[1..];
      var rest := CountByMonth(months[1..]);
      AddOneOrdered(rest, months[0]);
      AddOneCounts(rest, months[0]);
      AddOne(rest, months[0])
  }

  /** The timeline of the profiles: month buckets of every kept evidence date. */
  function TimelineOf(profiles: seq<Profile>): seq<Bucket> {
    CountByMonth(Months(ProfileDates(profiles)))
  }

  /** An item keeps a date, and `sel` accepts it. */
  predicate Keeps(e: Evidence, sel: Date -> bool) {
    KeptDate(e).Some? && sel(KeptDate(e).value)
  }

  /** The positions of the items whose kept date `sel` accepts. */
  function KeptItems(items: seq<Evidence>, sel: Date -> bool): set<nat> {
    set k: nat | k < |items| && Keeps(items[k], sel)
  }

  /** The (profile, item) positions of the items whose kept date `sel` accepts. */
  function KeptPositions(profiles: seq<Profile>, sel: Date -> bool): set<(nat, nat)> {
    set i: nat, k: nat | i < |profiles| && k < |EvidenceOf(profiles[i])| && Keeps(EvidenceOf(profiles[i])[k], sel)
      :: (i, k)
  }

  /** Any date. */
  function AnyDate(): Date -> bool {
    d => true
  }

  /** The valid dates of month `m`. */
  function InMonth(m: string): Date -> bool {
    d => IsValidDate(d) && MonthBucket(d) == m
  }

  /** Adding an item to the end adds its position when it keeps a date `sel` accepts. */
  lemma KeptItemsSnoc(items: seq<Evidence>, sel: Date -> bool)
    requires items != []
    ensures var n := |items| - 1;
      KeptItems(items, sel) == KeptItems(items[..n], sel) + (if Keeps(items[n], sel) then {n} else {})
      && n !in KeptItems(items[..n], sel)
  {
    var n := |items| - 1;
    assert forall k :: 0 <= k < n ==> items[..n][k] == items[k];
  }

  /** The dates of one profile that `sel` accepts are exactly as many as its items whose kept date it accepts. */
  lemma {:induction false} KeptItemsCount(items: seq<Evidence>, sel: Date -> bool)
    ensures |Where(ItemDates(items), sel)| == |KeptItems(items, sel)|
    decreases |items|
  {
    if items == [] {
      assert KeptItems(items, sel) == {};
    } else {
      var n := |items| - 1;
      var init := items[..n];
      KeptItemsCount(init, sel);
      KeptItemsSnoc(items, sel);
      var earlier := ItemDates(init);
      match KeptDate(items[n])
      case Some(d) =>
        assert ItemDates(items) == earlier + [d];
        WhereAppend(earlier, [d], sel);
        WhereSingle(d, sel);
      case None =>
        assert ItemDates(items) == earlier;
    }
  }

  /** Every element of `s`, paired with `i` as first component. */
  function Paired(i: nat, s: set<nat>): set<(nat, nat)> {
    set k | k in s :: (i, k)
  }

  /** Pairing every element of a set with the same first component keeps its size. */
  lemma {:induction false} PairedCount(i: nat, s: set<nat>)
    ensures |Paired(i, s)| == |s|
    decreases s
  {
    if s != {} {
      var x :| x in s;
      PairedCount(i, s - {x});
      assert Paired(i, s) == Paired(i, s - {x}) + {(i, x)};
      assert (i, x) !in Paired(i, s - {x});
    }
  }

  /** Adding a profile to the end adds the positions of its items that keep a date `sel` accepts. */
  lemma KeptPositionsSnoc(profiles: seq<Profile>, sel: Date -> bool)
    requires profiles != []
    ensures var n := |profiles| - 1;
      var added := Paired(n, KeptItems(EvidenceOf(profiles[n]), sel));
      KeptPositions(profiles, sel) == KeptPositions(profiles[..n], sel) + added
      && KeptPositions(profiles[..n], sel) * added == {}
  {
    var n := |profiles| - 1;
    var init := profiles[..n];
    var before, added := KeptPositions(init, sel), Paired(n, KeptItems(EvidenceOf(profiles[n]), sel));
    forall p | p in KeptPositions(profiles, sel) ensures p in before + added {
      if p.0 < n {
        assert profiles[p.0] == init[p.0];
      }
    }
    forall p | p in before + added ensures p in KeptPositions(profiles, sel) {
      if p in before {
        assert profiles[p.0] == init[p.0];
      }
    }
  }

  /** The dates `sel` accepts are exactly as many as the items, over all profiles, whose kept date it accepts. */
  lemma {:induction false} KeptPositionsCount(profiles: seq<Profile>, sel: Date -> bool)
    ensures |Where(ProfileDates(profiles), sel)| == |KeptPositions(profiles, sel)|
    decreases |profiles|
  {
    if profiles == [] {
      assert KeptPositions(profiles, sel) == {};
    } else {
      var n := |profiles| - 1;
      var init, items := profiles[..n], EvidenceOf(profiles[n]);
      KeptPositionsCount(init, sel);
      KeptItemsCount(items, sel);
      PairedCount(n, KeptItems(items, sel));
      KeptPositionsSnoc(profiles, sel);
      assert ProfileDates(profiles) == ProfileDates(init) + ItemDates(items);
      WhereAppend(ProfileDates(init), ItemDates(items), sel);
    }
  }

  /** How often a month occurs among the buckets of valid dates is the number of its dates. */
  lemma {:induction false} MonthMultiplicity(dates: seq<Date>, m: string)
    requires forall d :: d in dates ==> IsValidDate(d)
    ensures multiset(Months(dates))[m] == |Where(dates, InMonth(m))|
    decreases |dates|
  {
    if dates != [] {
      MonthMultiplicity(dates[1..], m);
      assert Months(dates) == [MonthBucket(dates[0])] + Months(dates[1..]);
    } else {
      assert Months(dates) == [];
    }
  }

  /**
   * Every kept item is counted exactly once: the buckets are ascending with positive counts,
   * each month's count is the number of evidence items, over all profiles, whose date is
   * present, valid and in that month, and the counts add up to the number of items whose
   * date is present and valid.
   */
  lemma TimelineCountsEveryKeptItem(profiles: seq<Profile>)
    ensures MonthsAscending(TimelineOf(profiles)) && CountsPositive(TimelineOf(profiles))
    ensures forall m :: CountOf(TimelineOf(profiles), m) == |KeptPositions(profiles, InMonth(m))|
    ensures Total(TimelineOf(profiles)) == |KeptPositions(profiles, AnyDate())|
  {
    var dates := ProfileDates(profiles);
    forall m ensures CountOf(TimelineOf(profiles), m) == |KeptPositions(profiles, InMonth(m))| {
      MonthMultiplicity(dates, m);
      KeptPositionsCount(profiles, InMonth(m));
    }
    WhereAll(dates, AnyDate());
    KeptPositionsCount(profiles, AnyDate());
  }

  /** One month: one bucket of 1. */
  lemma CountOneMonth()
    ensures CountByMonth(["2024-02"]) == [Bucket("2024-02", 1)]
  {
    assert ["2024-02"][1..] == [];
  }

  /** Two distinct months: a bucket of 1 each, in month order. */
  lemma CountTwoMonths()
    ensures CountByMonth(["2024-01", "2024-02"]) == [Bucket("2024-01", 1), Bucket("2024-02", 1)]
  {
    assert ["2024-01", "2024-02"][1..] == ["2024-02"];
    CountOneMonth();
    assert Less("2024-01", "2024-02");
  }

  /** Three months, two of them January 2024: two buckets in month order. */
  lemma CountByMonthExample()
    ensures CountByMonth(["2024-01", "2024-01", "2024-02"]) == [Bucket("2024-01", 2), Bucket("2024-02", 1)]
  {
    assert ["2024-01", "2024-01", "2024-02"][1..] == ["2024-01", "2024-02"];
    CountTwoMonths();
  }

  function DatedItem(date: string): Evidence {
    Evidence(Some(date), None, None)
  }

  /** The worked example's first profile: two items in January 2024. */
  function FirstItems(): seq<Evidence> {
    [DatedItem("2024-01-15"), DatedItem("2024-01-20")]
  }

  /** The worked example's second profile: one item in February 2024, one malformed, one empty. */
  function SecondItems(): seq<Evidence> {
    [DatedItem("2024-02-01"), DatedItem("bad-date"), DatedItem("")]
  }

  /** A profile holding only its evidence items. */
  function ProfileWithItems(items: seq<Evidence>): Profile {
    Profile(None, None, None, None, None, None, None, None, None, Some(items))
  }

  lemma ExampleFields()
    ensures PadNumber(2024, 4) == "2024"
    ensures PadNumber(1, 2) == "01" && PadNumber(2, 2) == "02"
    ensures PadNumber(15, 2) == "15" && PadNumber(20, 2) == "20"
  {
    assert DigitChar(0) == '0' && DigitChar(1) == '1' && DigitChar(2) == '2';
    assert DigitChar(4) == '4' && DigitChar(5) == '5';
    assert PadNumber(0, 1) == "0";
    assert PadNumber(2, 1) == "2";
    assert PadNumber(1, 1) == "1";
    assert PadNumber(20, 2) == "20";
    assert PadNumber(202, 3) == "202";
  }

  /** The text of the three dates of the worked example. */
  lemma ExampleTexts()
    ensures FormatDate(Date(2024, 1, 15)) == "2024-01-15"
    ensures FormatDate(Date(2024, 1, 20)) == "2024-01-20"
    ensures FormatDate(Date(2024, 2, 1)) == "2024-02-01"
    ensures MonthBucket(Date(2024, 1, 15)) == "2024-01"
    ensures MonthBucket(Date(2024, 1, 20)) == "2024-01"
    ensures MonthBucket(Date(2024, 2, 1)) == "2024-02"
  {
    ExampleFields();
  }

  /** Which items of the worked example keep a date: the malformed and the empty one do not. */
  lemma ExampleKeptDates()
    ensures KeptDate(FirstItems()[0]) == Some(Date(2024, 1, 15))
    ensures KeptDate(FirstItems()[1]) == Some(Date(2024, 1, 20))
    ensures KeptDate(SecondItems()[0]) == Some(Date(2024, 2, 1))
    ensures KeptDate(SecondItems()[1]) == None && KeptDate(SecondItems()[2]) == None
  {
    assert KeptDate(DatedItem("2024-01-15")) == Some(Date(2024, 1, 15)) by {
      ExampleTexts();
      ParseFormatted(Date(2024, 1, 15));
    }
    assert KeptDate(DatedItem("2024-01-20")) == Some(Date(2024, 1, 20)) by {
      ExampleTexts();
      ParseFormatted(Date(2024, 1, 20));
    }
    assert KeptDate(DatedItem("2024-02-01")) == Some(Date(2024, 2, 1)) by {
      ExampleTexts();
      ParseFormatted(Date(2024, 2, 1));
    }
    assert !HasDateShape("bad-date");
  }

  /** The dates each profile of the worked example contributes, in item order. */
  lemma ExampleItemDates()
    ensures ItemDates(FirstItems()) == [Date(2024, 1, 15), Date(2024, 1, 20)]
    ensures ItemDates(SecondItems()) == [Date(2024, 2, 1)]
  {
    var first, second := FirstItems(), SecondItems();
    ExampleKeptDates();
    assert first[..1][..0] == [];
    assert first[..|first| - 1] == first[..1];
    assert ItemDates(first[..1]) == [Date(2024, 1, 15)];
    assert second[..1][..0] == [];
    assert ItemDates(second[..1]) == [Date(2024, 2, 1)];
    assert second[..2][..1] == second[..1];
    assert ItemDates(second[..2]) == [Date(2024, 2, 1)];
    assert second[..|second| - 1] == second[..2];
  }

  /** The worked example's two profiles. */
  function ExampleProfiles(): seq<Profile> {
    [ProfileWithItems(FirstItems()), ProfileWithItems(SecondItems())]
  }

  /** The dates the two profiles contribute, profile by profile. */
  lemma ExampleProfileDates()
    ensures ProfileDates(ExampleProfiles()) == [Date(2024, 1, 15), Date(2024, 1, 20), Date(2024, 2, 1)]
  {
    var ps := ExampleProfiles();
    ExampleItemDates();
    assert ps[..1][..0] == [];
    assert ProfileDates(ps[..1]) == ItemDates(FirstItems());
    assert ProfileDates(ps) == ProfileDates(ps[..1]) + ItemDates(SecondItems());
  }

  /** The month buckets of the worked example's three kept dates. */
  lemma ExampleMonths()
    ensures Months([Date(2024, 1, 15), Date(2024, 1, 20), Date(2024, 2, 1)])
            == ["2024-01", "2024-01", "2024-02"]
  {
    ExampleTexts();
  }

  /**
   * The worked example, split across two profiles: two items in January 2024, one in
   * February, one malformed and one empty give two buckets in month order.
   */
  lemma TimelineExample()
    ensures TimelineOf(ExampleProfiles()) == [Bucket("2024-01", 2), Bucket("2024-02", 1)]
  {
    var dates := [Date(2024, 1, 15), Date(2024, 1, 20), Date(2024, 2, 1)];
    calc {
      TimelineOf(ExampleProfiles());
      CountByMonth(Months(ProfileDates(ExampleProfiles())));
      { ExampleProfileDates(); }
      CountByMonth(Months(dates));
      { ExampleMonths(); }
      CountByMonth(["2024-01", "2024-01", "2024-02"]);
      { CountByMonthExample(); }
      [Bucket("2024-01", 2), Bucket("2024-02", 1)];
    }
  }
}
