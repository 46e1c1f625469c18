/**
 * The filter engine: the three row filters of the sidebar, the options and bound the
 * sidebar widgets offer, and the selection of the full profile records that survive.
 */
module Filters {
  import opened Wrappers
  import opened Seqs
  import opened Text
  import opened Records
  import opened Projection

  /** The company-size option that places no restriction. */
  const AllSizes := "All"

  /** The slider's upper bound when there are no rows. */
  const EmptySliderMax := 10

  /** One of the three row filters. */
  datatype Criterion =
    | Search(query: string)      // case-insensitive substring of username or full name
    | MinEvidence(bound: int)    // inclusive lower bound on the evidence count
    | SizeIs(size: string)       // exact company size

  predicate MatchesSearch(r: Row, query: string) {
    Contains(Lower(r.username), Lower(query)) || Contains(Lower(r.fullName), Lower(query))
  }

  predicate Satisfies(r: Row, c: Criterion) {
    match c
    case Search(q) => MatchesSearch(r, q)
    case MinEvidence(m) => r.evidenceCount >= m
    case SizeIs(s) => r.companySize == s
  }

  /**
   * A boolean mask over the rows: the rows that satisfy the criterion, in their order,
   * each with all its copies; the others are dropped.
   */
  function Apply(rows: seq<Row>, c: Criterion): (kept: seq<Row>)
    ensures IsSubsequence(kept, rows)
    ensures forall r :: r in kept ==> Satisfies(r, c)
    ensures forall r :: multiset(kept)[r] == if Satisfies(r, c) then multiset(rows)[r] else 0
  {
    if rows == [] then []
    else
      assert rows == [rows[0]] + rows[1..];
      if Satisfies(rows[0], c) then [rows[0]] + Apply(rows[1..], c) else Apply(rows[1..], c)
  }

  /** The user's choices in the sidebar. */
  datatype Query = Query(search: string, minEvidence: int, size: string)

  /** The row filters in the source's order; an empty search and "All" skip their step. */
  function FilterRows(rows: seq<Row>, q: Query): seq<Row> {
    var searched := if q.search != "" then Apply(rows, Search(q.search)) else rows;
    var counted := Apply(searched, MinEvidence(q.minEvidence));
    if q.size != AllSizes then Apply(counted, SizeIs(q.size)) else counted
  }

  /** A row passes all three active filters. */
  predicate RowMatches(r: Row, q: Query) {
    && (q.search != "" ==> MatchesSearch(r, q.search))
    && r.evidenceCount >= q.minEvidence
    && (q.size != AllSizes ==> r.companySize == q.size)
  }

  /**
   * The filtered rows are an order-preserving subsequence of the rows; exactly the rows
   * passing all three filters survive, with all their copies.
   */
  lemma FilterRowsSpec(rows: seq<Row>, q: Query)
    ensures IsSubsequence(FilterRows(rows, q), rows)
    ensures forall r :: r in FilterRows(rows, q) ==> RowMatches(r, q)
    ensures forall r :: multiset(FilterRows(rows, q))[r] == if RowMatches(r, q) then multiset(rows)[r] else 0
  {
    var searched := if q.search != "" then Apply(rows, Search(q.search)) else rows;
    var counted := Apply(searched, MinEvidence(q.minEvidence));
    if q.search == "" {
      SubsequenceReflexive(rows);
    }
    SubsequenceTransitive(counted, searched, rows);
    if q.size != AllSizes {
      SubsequenceTransitive(Apply(counted, SizeIs(q.size)), counted, rows);
    }
  }

  /** Two filters applied one after the other give the same rows in either order. */
  lemma {:induction false} ApplyCommutes(rows: seq<Row>, c1: Criterion, c2: Criterion)
    ensures Apply(Apply(rows, c1), c2) == Apply(Apply(rows, c2), c1)
  {
    if rows != [] {
      ApplyCommutes(rows[1..], c1, c2);
      var x, rest := rows[0], rows[1..];
      if Satisfies(x, c1) {
        assert ([x] + Apply(rest, c1))[1..] == Apply(rest, c1);
      }
      if Satisfies(x, c2) {
        assert ([x] + Apply(rest, c2))[1..] == Apply(rest, c2);
      }
    }
  }

  /** A filter every row satisfies keeps the rows unchanged. */
  lemma {:induction false} ApplyKeepsAll(rows: seq<Row>, c: Criterion)
    requires forall r :: r in rows ==> Satisfies(r, c)
    ensures Apply(rows, c) == rows
  {
    if rows != [] {
      ApplyKeepsAll(rows[1..], c);
    }
  }

  /** The neutral query (no search, minimum 0, "All") leaves rows with non-negative counts unchanged. */
  lemma NeutralQueryKeepsAll(rows: seq<Row>)
    requires forall r :: r in rows ==> r.evidenceCount >= 0
    ensures FilterRows(rows, Query("", 0, AllSizes)) == rows
  {
    ApplyKeepsAll(rows, MinEvidence(0));
  }

  /** A company size that no row has yields no rows, not an error. */
  lemma UnknownSizeYieldsNothing(rows: seq<Row>, q: Query)
    requires q.size != AllSizes
    requires forall r :: r in rows ==> r.companySize != q.size
    ensures FilterRows(rows, q) == []
  {
    FilterRowsSpec(rows, q);
    var f := FilterRows(rows, q);
    assert forall r :: multiset(f)[r] == 0;
    assert multiset(f) == multiset{};
  }

  /** The search is case-insensitive: "ALICE" finds the user "alice_dev". */
  lemma SearchIgnoresCase()
    ensures MatchesSearch(Row("alice_dev", "", "", "", "", 0, "", ""), "ALICE")
  {
    assert StartsWith(Lower("alice_dev"), Lower("ALICE"));
  }

  /** Company sizes in strictly ascending order, hence without duplicates. */
  predicate StrictlyAscending(s: seq<string>) {
    forall i, j :: 0 <= i < j < |s| ==> Less(s[i], s[j])
  }

  /** Puts `x` into its place in a strictly ascending list, unless it is already there. */
  function InsertDistinct(sorted: seq<string>, x: string): (r: seq<string>)
    requires StrictlyAscending(sorted)
    ensures StrictlyAscending(r)
    ensures forall y :: y in r <==> y in sorted || y == x
  {
    if sorted == [] then [x]
    else if x == sorted[0] then sorted
    else if Less(x, sorted[0]) then
      assert forall j :: 0 < j < |sorted| ==> Less(x, sorted[j]) by {
        forall j | 0 < j < |sorted| ensures Less(x, sorted[j]) {
          LessTransitive(x, sorted[0], sorted[j]);
        }
      }
      [x] + sorted
    else
      LessTotal(x, sorted[0]);
      var rest := InsertDistinct(sorted[1..], x);
      assert forall y :: y in rest ==> Less(sorted[0], y) by {
        forall y | y in rest ensures Less(sorted[0], y) {
          if y != x {
            var j :| 0 <= j < |sorted[1..]| && sorted[1..][j] == y;
            assert sorted[j + 1] == y;
          }
        }
      }
      [sorted[0]] + rest
  }

  /** `sorted(set(values))`: the distinct values in strictly ascending order. */
  function DistinctSorted(values: seq<string>): (r: seq<string>)
    ensures StrictlyAscending(r)
    ensures forall y :: y in r <==> y in values
  {
    if values == [] then []
    else InsertDistinct(DistinctSorted(values[1..]), values[0])
  }

  function Sizes(rows: seq<Row>): seq<string> {
    seq(|rows|, i requires 0 <= i < |rows| => rows[i].companySize)
  }

  /**
   * The company-size selector's options: "All", then every observed size once, ascending.
   * The corrected form of the source, which also answers for an empty table.
   */
  function CompanySizeOptions(rows: seq<Row>): (opts: seq<string>)
    ensures |opts| >= 1 && opts[0] == AllSizes
    ensures StrictlyAscending(opts[1..])
    ensures forall s :: s in opts[1..] <==> exists r :: r in rows && r.companySize == s
  {
    var sizes := Sizes(rows);
    assert forall s :: s in sizes <==> exists r :: r in rows && r.companySize == s by {
      forall s ensures s in sizes <==> exists r :: r in rows && r.companySize == s {
        if s in sizes {
          var i :| 0 <= i < |sizes| && sizes[i] == s;
          assert rows[i] in rows;
        }
        if exists r :: r in rows && r.companySize == s {
          var r :| r in rows && r.companySize == s;
          var i :| 0 <= i < |rows| && rows[i] == r;
          assert sizes[i] == s;
        }
      }
    }
    [AllSizes] + DistinctSorted(sizes)
  }

  /**
   * The options as the source computes them: a table built from no records has no
   * columns, so reading its company-size column fails (None) instead of giving ["All"].
   */
  function SizeOptionsAsWritten(rows: seq<Row>): (opts: Option<seq<string>>)
    ensures rows != [] ==> opts == Some(CompanySizeOptions(rows))
  {
    if rows == [] then None else Some(CompanySizeOptions(rows))
  }

  /** The discrepancy: no profiles, so no size options, although the slider handles that case. */
  lemma EmptyTableHasNoSizeOptions()
    ensures SizeOptionsAsWritten([]) == None
    ensures SliderMax([]) == EmptySliderMax
    ensures CompanySizeOptions([]) == [AllSizes]
  {
  }

  /** The slider's upper bound: the largest evidence count, or 10 without rows. */
  function SliderMax(rows: seq<Row>): (m: int)
    ensures rows == [] ==> m == EmptySliderMax
    ensures rows != [] ==> (exists r :: r in rows && r.evidenceCount == m)
    ensures forall r :: r in rows ==> r.evidenceCount <= m
  {
    if rows == [] then EmptySliderMax
    else if |rows| == 1 then rows[0].evidenceCount
    else
      var rest := SliderMax(rows[1..]);
      assert rows == [rows[0]] + rows[1..];
      if rows[0].evidenceCount >= rest then rows[0].evidenceCount else rest
  }

  /** The usernames of the surviving rows (`filtered_df["username"].values`). */
  function Usernames(rows: seq<Row>): set<string> {
    set r | r in rows :: r.username
  }

  /**
   * `p.get("username") in ...values`: an absent username is None, which equals no
   * string, so such a profile is never selected.
   */
  predicate Selected(p: Profile, rows: seq<Row>) {
    p.username.Some? && p.username.value in Usernames(rows)
  }

  /**
   * The profiles whose username occurs among the rows, in their order, each with all its
   * copies, duplicates of a username included.
   */
  function SelectProfiles(profiles: seq<Profile>, rows: seq<Row>): (sel: seq<Profile>)
    ensures IsSubsequence(sel, profiles)
    ensures forall p :: p in sel ==> Selected(p, rows)
    ensures forall p :: multiset(sel)[p] == if Selected(p, rows) then multiset(profiles)[p] else 0
  {
    if profiles == [] then []
    else
      assert profiles == [profiles[0]] + profiles[1..];
      var rest := SelectProfiles(profiles[1..], rows);
      if Selected(profiles[0], rows) then [profiles[0]] + rest else rest
  }

  /**
   * A profile is selected by its own row exactly when it has a username: the row of a
   * profile without one carries "", but the profile itself compares as None.
   */
  lemma OwnRowSelects(p: Profile)
    ensures Selected(p, [ProjectRow(p)]) <==> p.username.Some?
  {
    if p.username.Some? {
      assert ProjectRow(p) in [ProjectRow(p)];
    }
  }

  /**
   * With the neutral query over the projected table, the selection is every profile that
   * has a username, and nothing else.
   */
  lemma NeutralSelection(profiles: seq<Profile>)
    requires forall p :: p in profiles ==> p.evidenceCount.GetOr(0) >= 0
    ensures forall p :: multiset(SelectProfiles(profiles, FilterRows(Project(profiles), Query("", 0, AllSizes))))[p]
                        == if p.username.Some? then multiset(profiles)[p] else 0
  {
    var rows := Project(profiles);
    forall r | r in rows ensures r.evidenceCount >= 0 {
      var i :| 0 <= i < |rows| && rows[i] == r;
      assert profiles[i] in profiles;
    }
    NeutralQueryKeepsAll(rows);
    forall p | p in profiles && p.username.Some? ensures Selected(p, rows) {
      var i :| 0 <= i < |profiles| && profiles[i] == p;
      assert rows[i] in rows;
    }
  }
}
