/** Facts about sequences shared by the filter, selection and sort modules. */
module Seqs {

  /** `xs` is obtained from `ys` by deleting some elements and keeping the order of the rest. */
  predicate IsSubsequence<T(==)>(xs: seq<T>, ys: seq<T>)
    decreases |ys|
  {
    if ys == [] then xs == []
    else (xs != [] && xs[0] == ys[0] && IsSubsequence(xs[1..], ys[1..]))
         || IsSubsequence(xs, ys[1..])
  }

  /** Taking a subsequence twice gives a subsequence of the original. */
  lemma {:induction false} SubsequenceTransitive<T>(a: seq<T>, b: seq<T>, c: seq<T>)
    requires IsSubsequence(a, b) && IsSubsequence(b, c)
    ensures IsSubsequence(a, c)
    decreases |c|
  {
    if c == [] {
    } else if b != [] && b[0] == c[0] && IsSubsequence(b[1..], c[1..]) {
      if a != [] && a[0] == b[0] && IsSubsequence(a[1..], b[1..]) {
        SubsequenceTransitive(a[1..], b[1..], c[1..]);
      } else {
        SubsequenceTransitive(a, b[1..], c[1..]);
      }
    } else {
      SubsequenceTransitive(a, b, c[1..]);
    }
  }

  /** Every sequence is a subsequence of itself. */
  lemma {:induction false} SubsequenceReflexive<T>(s: seq<T>)
    ensures IsSubsequence(s, s)
  {
    if s != [] {
      SubsequenceReflexive(s[1..]);
    }
  }

  /** The elements of `s` that `keep` accepts, in their order. */
  function Where<T>(s: seq<T>, keep: T -> bool): seq<T> {
    if s == [] then []
    else (if keep(s[0]) then [s[0]] else []) + Where(s[1..], keep)
  }

  /** Selecting from a concatenation selects from each part. */
  lemma {:induction false} WhereAppend<T>(a: seq<T>, b: seq<T>, keep: T -> bool)
    ensures Where(a + b, keep) == Where(a, keep) + Where(b, keep)
    decreases |a|
  {
    if a == [] {
      assert a + b == b;
    } else {
      var head := if keep(a[0]) then [a[0]] else [];
      assert (a + b)[0] == a[0];
      assert (a + b)[1..] == a[1..] + b;
      calc {
        Where(a + b, keep);
        head + Where(a[1..] + b, keep);
        { WhereAppend(a[1..], b, keep); }
        head + (Where(a[1..], keep) + Where(b, keep));
        (head + Where(a[1..], keep)) + Where(b, keep);
      }
    }
  }

  /** Nothing is selected from elements that `keep` refuses. */
  lemma {:induction false} WhereNone<T>(s: seq<T>, keep: T -> bool)
    requires forall m :: 0 <= m < |s| ==> !keep(s[m])
    ensures Where(s, keep) == []
    decreases |s|
  {
    if s != [] {
      WhereNone(s[1..], keep);
    }
  }

  /** A single element is selected exactly when `keep` accepts it. */
  lemma WhereSingle<T>(x: T, keep: T -> bool)
    ensures Where([x], keep) == if keep(x) then [x] else []
  {
    assert [x][1..] == [];
  }

  /** Selecting from `front + [x] + back` selects from each of the three parts. */
  lemma WhereAppend3<T>(front: seq<T>, x: T, back: seq<T>, keep: T -> bool)
    ensures Where(front + [x] + back, keep)
            == Where(front, keep) + Where([x], keep) + Where(back, keep)
  {
    WhereAppend(front + [x], back, keep);
    WhereAppend(front, [x], keep);
  }

  /** Two parts, one of them empty, can be appended in either order. */
  lemma SwapEmpty<T>(a: seq<T>, b: seq<T>, c: seq<T>)
    requires b == [] || c == []
    ensures a + b + c == a + c + b
  {
  }

  /** Inserting `x` into `front + back` ahead of elements `keep` refuses whenever it accepts `x`
      selects the same as appending `x`. */
  lemma WhereInsertLast<T>(front: seq<T>, x: T, back: seq<T>, keep: T -> bool)
    requires keep(x) ==> forall m :: 0 <= m < |back| ==> !keep(back[m])
    ensures Where(front + [x] + back, keep) == Where(front + back, keep) + Where([x], keep)
  {
    var wf, wx, wb := Where(front, keep), Where([x], keep), Where(back, keep);
    WhereAppend3(front, x, back, keep);
    WhereAppend(front, back, keep);
    if keep(x) {
      WhereNone(back, keep);
    } else {
      WhereSingle(x, keep);
    }
    SwapEmpty(wf, wx, wb);
  }

  /** Nothing is dropped from elements that `keep` accepts. */
  lemma {:induction false} WhereAll<T>(s: seq<T>, keep: T -> bool)
    requires forall m :: 0 <= m < |s| ==> keep(s[m])
    ensures Where(s, keep) == s
    decreases |s|
  {
    if s != [] {
      WhereAll(s[1..], keep);
      assert s == [s[0]] + s[1..];
    }
  }
}
