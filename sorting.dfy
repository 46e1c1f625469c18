/**
 * The sort engine: the four orders of the "Sort by" selector, applied in place to the
 * selected profiles by a stable sort. Python's `list.sort` is stable, with and without
 * `reverse=True`: profiles with equal keys keep their relative order.
 */
module Sorting {
  import opened Wrappers
  import opened Seqs
  import opened Text
  import opened Records

  datatype SortOrder = CountHighToLow | CountLowToHigh | UsernameAToZ | LatestActivity

  /** The selector's labels; any other value selects no order. */
  function ParseSortOption(option: string): (o: Option<SortOrder>)
    ensures o == Some(CountHighToLow) <==> option == "Evidence Count (High to Low)"
    ensures o == Some(CountLowToHigh) <==> option == "Evidence Count (Low to High)"
    ensures o == Some(UsernameAToZ) <==> option == "Username (A-Z)"
    ensures o == Some(LatestActivity) <==> option == "Latest Activity"
  {
    if option == "Evidence Count (High to Low)" then Some(CountHighToLow)
    else if option == "Evidence Count (Low to High)" then Some(CountLowToHigh)
    else if option == "Username (A-Z)" then Some(UsernameAToZ)
    else if option == "Latest Activity" then Some(LatestActivity)
    else None
  }

  function CountKey(p: Profile): int { p.evidenceCount.GetOr(0) }
  function NameKey(p: Profile): string { Lower(p.username.GetOr("")) }
  function LatestKey(p: Profile): string { p.latestEvidenceDate.GetOr("") }

  /** The value a profile is sorted by. */
  datatype SortKey = Number(n: int) | Word(s: string)

  function KeyOf(order: SortOrder, p: Profile): SortKey {
    match order
    case CountHighToLow => Number(CountKey(p))
    case CountLowToHigh => Number(CountKey(p))
    case UsernameAToZ => Word(NameKey(p))
    case LatestActivity => Word(LatestKey(p))
  }

  /** `p` must be placed strictly before `q`: its key comes first in the chosen direction. */
  predicate Before(order: SortOrder, p: Profile, q: Profile) {
    match order
    case CountHighToLow => CountKey(p) > CountKey(q)
    case CountLowToHigh => CountKey(p) < CountKey(q)
    case UsernameAToZ => Less(NameKey(p), NameKey(q))
    case LatestActivity => Less(LatestKey(q), LatestKey(p))
  }

  /** Profiles with equal keys are never ordered against each other. */
  lemma BeforeNeedsDistinctKeys(order: SortOrder, p: Profile, q: Profile)
    requires Before(order, p, q)
    ensures KeyOf(order, p) != KeyOf(order, q)
  {
    if order == UsernameAToZ && NameKey(p) == NameKey(q) {
      LessIrreflexive(NameKey(p));
    }
    if order == LatestActivity && LatestKey(p) == LatestKey(q) {
      LessIrreflexive(LatestKey(p));
    }
  }

  lemma BeforeAsymmetric(order: SortOrder, p: Profile, q: Profile)
    requires Before(order, p, q)
    ensures !Before(order, q, p)
  {
    match order
    case UsernameAToZ => LessAsymmetric(NameKey(p), NameKey(q));
    case LatestActivity => LessAsymmetric(LatestKey(q), LatestKey(p));
    case _ =>
  }

  /** If `p` precedes `r`, then whatever `q` is, `p` precedes `q` or `q` precedes `r`. */
  lemma BeforeSplits(order: SortOrder, p: Profile, q: Profile, r: Profile)
    requires Before(order, p, r)
    ensures Before(order, p, q) || Before(order, q, r)
  {
    match order
    case UsernameAToZ =>
      LessTotal(NameKey(p), NameKey(q));
      if Less(NameKey(q), NameKey(p)) {
        LessTransitive(NameKey(q), NameKey(p), NameKey(r));
      }
    case LatestActivity =>
      LessTotal(LatestKey(q), LatestKey(p));
      if Less(LatestKey(p), LatestKey(q)) {
        LessTransitive(LatestKey(r), LatestKey(p), LatestKey(q));
      }
    case _ =>
  }

  /** No profile is followed by one that should precede it. */
  predicate IsSortedBy(s: seq<Profile>, order: SortOrder) {
    forall i, j :: 0 <= i < j < |s| ==> !Before(order, s[j], s[i])
  }

  /**
   * Inserts `x` behind every element of `sorted` that `x` does not have to precede, the
   * step of a stable insertion sort.
   */
  function Insert(sorted: seq<Profile>, x: Profile, order: SortOrder): seq<Profile>
    decreases |sorted|
  {
    if sorted == [] then [x]
    else if Before(order, x, sorted[|sorted| - 1]) then
      Insert(sorted[..|sorted| - 1], x, order) + [sorted[|sorted| - 1]]
    else sorted + [x]
  }

  /** The stable sort of `s`: the insertion sort of its elements, taken from the front. */
  function SortedBy(s: seq<Profile>, order: SortOrder): seq<Profile>
    decreases |s|
  {
    if s == [] then [] else Insert(SortedBy(s[..|s| - 1], order), s[|s| - 1], order)
  }

  /** `filtered_profiles.sort(...)` for the chosen option; an unknown option changes nothing. */
  function SortWith(s: seq<Profile>, option: string): seq<Profile> {
    match ParseSortOption(option)
    case None => s
    case Some(order) => SortedBy(s, order)
  }

  /** Insertion keeps every element and adds `x`. */
  lemma {:induction false} InsertPermutes(sorted: seq<Profile>, x: Profile, order: SortOrder)
    ensures multiset(Insert(sorted, x, order)) == multiset(sorted) + multiset{x}
    decreases |sorted|
  {
    if sorted != [] && Before(order, x, sorted[|sorted| - 1]) {
      var init := sorted[..|sorted| - 1];
      InsertPermutes(init, x, order);
      assert sorted == init + [sorted[|sorted| - 1]];
    }
  }

  /** Insertion returns `sorted` with `x` placed at some position `k`, every later element strictly after `x`. */
  lemma {:induction false} InsertShape(sorted: seq<Profile>, x: Profile, order: SortOrder)
    returns (k: nat)
    ensures k <= |sorted|
    ensures Insert(sorted, x, order) == sorted[..k] + [x] + sorted[k..]
    ensures k > 0 ==> !Before(order, x, sorted[k - 1])
    ensures forall m :: k <= m < |sorted| ==> Before(order, x, sorted[m])
    decreases |sorted|
  {
    if sorted == [] {
      k := 0;
    } else if Before(order, x, sorted[|sorted| - 1]) {
      var init := sorted[..|sorted| - 1];
      k := InsertShape(init, x, order);
      assert sorted[..k] == init[..k];
      assert init[k..] + [sorted[|sorted| - 1]] == sorted[k..];
    } else {
      k := |sorted|;
      assert sorted[..k] == sorted;
    }
  }

  /** Insertion into a sorted sequence gives a sorted sequence. */
  lemma InsertSorted(sorted: seq<Profile>, x: Profile, order: SortOrder)
    requires IsSortedBy(sorted, order)
    ensures IsSortedBy(Insert(sorted, x, order), order)
  {
    var k := InsertShape(sorted, x, order);
    var r := Insert(sorted, x, order);
    forall i, j | 0 <= i < j < |r| ensures !Before(order, r[j], r[i]) {
      if i < k && j == k {
        // r[i] == sorted[i] and r[j] == x
        if Before(order, x, sorted[i]) {
          BeforeSplits(order, x, sorted[k - 1], sorted[i]);
        }
      } else if i == k && j > k {
        // r[i] == x and r[j] == sorted[j - 1], which x precedes
        BeforeAsymmetric(order, x, sorted[j - 1]);
      } else if i < k && j > k {
        assert r[i] == sorted[i] && r[j] == sorted[j - 1];
      } else if j < k {
        assert r[i] == sorted[i] && r[j] == sorted[j];
      } else {
        assert r[i] == sorted[i - 1] && r[j] == sorted[j - 1];
      }
    }
  }

  /** Accepts the profiles whose key is `k`. */
  function HasKey(order: SortOrder, k: SortKey): Profile -> bool {
    p => KeyOf(order, p) == k
  }

  /** The profiles of `s` whose key is `k`, in their order in `s`. */
  function WithKey(s: seq<Profile>, order: SortOrder, k: SortKey): seq<Profile> {
    Where(s, HasKey(order, k))
  }

  /** Insertion places `x` after every element with the same key. */
  lemma InsertStable(sorted: seq<Profile>, x: Profile, order: SortOrder, k: SortKey)
    ensures WithKey(Insert(sorted, x, order), order, k)
            == WithKey(sorted, order, k) + WithKey([x], order, k)
  {
    var i := InsertShape(sorted, x, order);
    var front, back := sorted[..i], sorted[i..];
    var keep := HasKey(order, k);
    assert sorted == front + back;
    forall m | 0 <= m < |back| && keep(x) ensures !keep(back[m]) {
      BeforeNeedsDistinctKeys(order, x, back[m]);
    }
    WhereInsertLast(front, x, back, keep);
  }

  /** Sorting returns a permutation of its input. */
  lemma {:induction false} SortedByPermutes(s: seq<Profile>, order: SortOrder)
    ensures multiset(SortedBy(s, order)) == multiset(s)
    decreases |s|
  {
    if s != [] {
      var init := s[..|s| - 1];
      SortedByPermutes(init, order);
      InsertPermutes(SortedBy(init, order), s[|s| - 1], order);
      assert s == init + [s[|s| - 1]];
    }
  }

  /** Sorting returns its input in the chosen order. */
  lemma {:induction false} SortedByIsSorted(s: seq<Profile>, order: SortOrder)
    ensures IsSortedBy(SortedBy(s, order), order)
    decreases |s|
  {
    if s != [] {
      SortedByIsSorted(s[..|s| - 1], order);
      InsertSorted(SortedBy(s[..|s| - 1], order), s[|s| - 1], order);
    }
  }

  /** Sorting is stable: the profiles sharing any one key keep their relative order. */
  lemma {:induction false} SortedByIsStable(s: seq<Profile>, order: SortOrder, k: SortKey)
    ensures WithKey(SortedBy(s, order), order, k) == WithKey(s, order, k)
    decreases |s|
  {
    if s != [] {
      var init := s[..|s| - 1];
      SortedByIsStable(init, order, k);
      InsertStable(SortedBy(init, order), s[|s| - 1], order, k);
      assert s == init + [s[|s| - 1]];
      WhereAppend(init, [s[|s| - 1]], HasKey(order, k));
    }
  }

  /** An unrecognised option leaves the profiles as they are. */
  lemma UnknownOptionKeepsOrder(s: seq<Profile>, option: string)
    requires ParseSortOption(option).None?
    ensures SortWith(s, option) == s
  {
  }

  function ProfileWithCount(name: string, count: int): Profile {
    Profile(Some(name), None, None, None, None, None, Some(count), None, None, None)
  }

  /** High to low, ties in input order: a(5), b(5), c(3) stay as they are. */
  lemma StableSortExample()
    ensures var a, b, c := ProfileWithCount("a", 5), ProfileWithCount("b", 5), ProfileWithCount("c", 3);
      SortWith([a, b, c], "Evidence Count (High to Low)") == [a, b, c]
  {
    var a, b, c := ProfileWithCount("a", 5), ProfileWithCount("b", 5), ProfileWithCount("c", 3);
    var o := CountHighToLow;
    assert ParseSortOption("Evidence Count (High to Low)") == Some(o);
    assert [a, b, c][..2] == [a, b] && [a, b][..1] == [a] && [a][..0] == [];
    assert SortedBy([a], o) == [a];
    assert !Before(o, b, a);
    assert SortedBy([a, b], o) == Insert([a], b, o) == [a, b];
    assert !Before(o, c, b);
    assert SortedBy([a, b, c], o) == Insert([a, b], c, o) == [a, b, c];
  }

  /**
   * One insertion step on the array: `a[..i]` is sorted, and `a[i]` moves left past the
   * elements it must precede, which shift one place right.
   */
  method InsertAt(a: array<Profile>, i: nat, order: SortOrder)
    requires i < a.Length
    modifies a
    ensures a[..i + 1] == Insert(old(a[..i]), old(a[i]), order)
    ensures a[i + 1..] == old(a[i + 1..])
  {
    var x := a[i];
    ghost var t := a[..i];
    var j := ShiftRight(a, i, x, order, t);
    a[j] := x;
    InsertAtGap(t, x, order, j);
    ghost var done := a[..];
    assert forall m :: 0 <= m < j ==> done[m] == t[m];
    assert forall m :: j < m <= i ==> done[m] == t[m - 1];
    Reassemble(done, t, x, i, j);
    assert forall m :: i < m < a.Length ==> a[m] == old(a[m]);
    assert a[i + 1..] == old(a[i + 1..]);
  }

  /**
   * Shifts the last elements of `a[..i]` that `x` must precede one place right, opening
   * the gap `j` where `x` belongs; nothing past `i` changes.
   */
  method ShiftRight(a: array<Profile>, i: nat, x: Profile, order: SortOrder, ghost t: seq<Profile>)
    returns (j: nat)
    requires i < a.Length && a[..i] == t
    modifies a
    ensures j <= i
    ensures forall m :: 0 <= m < j ==> a[m] == t[m]
    ensures forall m :: j < m <= i ==> a[m] == t[m - 1]
    ensures forall m :: i < m < a.Length ==> a[m] == old(a[m])
    ensures forall m :: j <= m < i ==> Before(order, x, t[m])
    ensures j == 0 || !Before(order, x, t[j - 1])
  {
    j := i;
    assert forall m :: 0 <= m < j ==> a[m] == a[..i][m];
    while j > 0 && Before(order, x, a[j - 1])
      invariant 0 <= j <= i
      invariant forall m :: 0 <= m < j ==> a[m] == t[m]
      invariant forall m :: j < m <= i ==> a[m] == t[m - 1]
      invariant forall m :: i < m < a.Length ==> a[m] == old(a[m])
      invariant forall m :: j <= m < i ==> Before(order, x, t[m])
      decreases j
    {
      a[j] := a[j - 1];
      j := j - 1;
    }
  }

  /**
   * Where `x` precedes every element from `j` on but not the one before, insertion puts it
   * at `j`: the prefix, `x`, then the rest.
   */
  lemma {:induction false} InsertAtGap(t: seq<Profile>, x: Profile, order: SortOrder, j: nat)
    requires j <= |t|
    requires forall m :: j <= m < |t| ==> Before(order, x, t[m])
    requires j == 0 || !Before(order, x, t[j - 1])
    ensures Insert(t, x, order) == t[..j] + [x] + t[j..]
    decreases |t|
  {
    if |t| == j {
      assert t[..j] == t && t[j..] == [];
    } else {
      var init := t[..|t| - 1];
      assert init[..j] == t[..j];
      assert j == 0 || init[j - 1] == t[j - 1];
      InsertAtGap(init, x, order, j);
      assert t[j..] == init[j..] + [t[|t| - 1]];
    }
  }

  /** An array image holding `t[..j]`, then `x`, then `t[j..]` in its first `i + 1` places. */
  lemma Reassemble(done: seq<Profile>, t: seq<Profile>, x: Profile, i: nat, j: nat)
    requires j <= i == |t| < |done|
    requires forall m :: 0 <= m < j ==> done[m] == t[m]
    requires done[j] == x
    requires forall m :: j < m <= i ==> done[m] == t[m - 1]
    ensures done[..i + 1] == t[..j] + [x] + t[j..]
  {
  }

  /**
   * The in-place sort of the selected profiles: stable insertion sort on the array,
   * which ends holding the specification's sorted sequence.
   */
  method SortInPlace(a: array<Profile>, order: SortOrder)
    modifies a
    ensures a[..] == SortedBy(old(a[..]), order)
  {
    ghost var s := a[..];
    for i := 0 to a.Length
      invariant a[..i] == SortedBy(s[..i], order)
      invariant a[i..] == s[i..]
    {
      assert a[i] == s[i] && a[i + 1..] == s[i + 1..];
      InsertAt(a, i, order);
      assert s[..i + 1][..i] == s[..i];
    }
    assert a[..] == a[..a.Length] && s == s[..a.Length];
  }

  /** The sort step: the option selects the order; an unknown option leaves the array alone. */
  method SortProfiles(a: array<Profile>, option: string)
    modifies a
    ensures a[..] == SortWith(old(a[..]), option)
  {
    var order := ParseSortOption(option);
    if order.Some? {
      SortInPlace(a, order.value);
    }
  }
}
