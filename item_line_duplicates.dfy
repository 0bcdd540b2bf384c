/** The duplicate item-line check that both the price-list form and the offer
    form run before submitting: two nested loops over the details that push
    the indices `i, j` of every pair `i < j` with equal `item_line`. */
module ItemLineDuplicates {
  import opened Types

  /** `details.map(d => d.item_line)`. */
  function ItemLineValues(details: seq<ItemLine>): (r: seq<string>)
    ensures |r| == |details| && forall k :: 0 <= k < |r| ==> r[k] == details[k].item_line
  {
    seq(|details|, k requires 0 <= k < |details| => details[k].item_line)
  }

  /** The `item_line` values are pairwise distinct. */
  predicate Distinct(xs: seq<string>) {
    forall i, j :: 0 <= i < j < |xs| ==> xs[i] != xs[j]
  }

  /** What the inner loop for row `i` pushes while `j` runs up to `end`. */
  function Matches(xs: seq<string>, i: nat, end: nat): seq<nat>
    requires i < end <= |xs|
    decreases end
  {
    if end == i + 1 then []
    else Matches(xs, i, end - 1) + (if xs[i] == xs[end - 1] then [i, end - 1] else [])
  }

  /** What the outer loop pushes for the rows before `k`. */
  function ErrorRowsUpTo(xs: seq<string>, k: nat): seq<nat>
    requires k <= |xs|
    decreases k
  {
    if k == 0 then [] else ErrorRowsUpTo(xs, k - 1) + Matches(xs, k - 1, |xs|)
  }

  /** The `errorRows` the nested loops produce. */
  function ErrorRows(xs: seq<string>): seq<nat> {
    ErrorRowsUpTo(xs, |xs|)
  }

  /** A list of index pairs `i, j` with `i < j < n` and equal values. */
  predicate DuplicatePairs(r: seq<nat>, xs: seq<string>)
    decreases |r|
  {
    r == [] || (|r| >= 2 && r[0] < r[1] < |xs| && xs[r[0]] == xs[r[1]] && DuplicatePairs(r[2..], xs))
  }

  lemma {:induction false} DuplicatePairsAppend(a: seq<nat>, b: seq<nat>, xs: seq<string>)
    requires DuplicatePairs(a, xs) && DuplicatePairs(b, xs)
    ensures DuplicatePairs(a + b, xs)
    decreases |a|
  {
    if a != [] {
      assert (a + b)[0] == a[0] && (a + b)[1] == a[1];
      assert (a + b)[2..] == a[2..] + b;
      DuplicatePairsAppend(a[2..], b, xs);
    } else {
      assert a + b == b;
    }
  }

  lemma {:induction false} MatchesArePairs(xs: seq<string>, i: nat, end: nat)
    requires i < end <= |xs|
    ensures DuplicatePairs(Matches(xs, i, end), xs)
    decreases end
  {
    if end > i + 1 {
      MatchesArePairs(xs, i, end - 1);
      var extra := if xs[i] == xs[end - 1] then [i, end - 1] else [];
      assert DuplicatePairs(extra, xs) by {
        if extra != [] { assert extra[2..] == []; }
      }
      DuplicatePairsAppend(Matches(xs, i, end - 1), extra, xs);
    }
  }

  lemma {:induction false} ErrorRowsUpToArePairs(xs: seq<string>, k: nat)
    requires k <= |xs|
    ensures DuplicatePairs(ErrorRowsUpTo(xs, k), xs)
    decreases k
  {
    if k > 0 {
      ErrorRowsUpToArePairs(xs, k - 1);
      MatchesArePairs(xs, k - 1, |xs|);
      DuplicatePairsAppend(ErrorRowsUpTo(xs, k - 1), Matches(xs, k - 1, |xs|), xs);
    }
  }

  /** Every pushed index is a row of the details, and the indices come in
      pairs `i, j` with `i < j` naming equal item lines. */
  lemma ErrorRowsArePairs(xs: seq<string>)
    ensures DuplicatePairs(ErrorRows(xs), xs)
    ensures forall k :: 0 <= k < |ErrorRows(xs)| ==> ErrorRows(xs)[k] < |xs|
  {
    ErrorRowsUpToArePairs(xs, |xs|);
    PairsInRange(ErrorRows(xs), xs);
  }

  lemma {:induction false} PairsInRange(r: seq<nat>, xs: seq<string>)
    requires DuplicatePairs(r, xs)
    ensures forall k :: 0 <= k < |r| ==> r[k] < |xs|
    decreases |r|
  {
    if r != [] {
      PairsInRange(r[2..], xs);
      forall k | 2 <= k < |r| ensures r[k] < |xs| { assert r[k] == r[2..][k - 2]; }
    }
  }

  /** The inner loop for row `i` pushes both rows of every later equal line. */
  lemma {:induction false} MatchesFind(xs: seq<string>, i: nat, j: nat, end: nat)
    requires i < j < end <= |xs| && xs[i] == xs[j]
    ensures i in Matches(xs, i, end) && j in Matches(xs, i, end)
    decreases end
  {
    if end - 1 != j {
      MatchesFind(xs, i, j, end - 1);
    } else {
      assert Matches(xs, i, end) == Matches(xs, i, end - 1) + [i, j];
    }
  }

  /** The outer loop only ever appends: what it has pushed after row `m` is
      a prefix of what it has pushed after any later row `k`. */
  lemma {:induction false} ErrorRowsUpToPrefix(xs: seq<string>, m: nat, k: nat)
    requires m <= k <= |xs|
    ensures ErrorRowsUpTo(xs, m) <= ErrorRowsUpTo(xs, k)
    decreases k
  {
    if m < k {
      ErrorRowsUpToPrefix(xs, m, k - 1);
      PrefixAppend(ErrorRowsUpTo(xs, m), ErrorRowsUpTo(xs, k - 1), Matches(xs, k - 1, |xs|));
    }
  }

  lemma PrefixAppend(a: seq<nat>, b: seq<nat>, c: seq<nat>)
    requires a <= b
    ensures a <= b + c
  {
    assert (b + c)[..|a|] == b[..|a|];
  }

  /** Once the outer loop has passed row `i`, both rows of each of its
      duplicate pairs have been pushed. */
  lemma ErrorRowsUpToFind(xs: seq<string>, i: nat, j: nat, k: nat)
    requires i < j < |xs| && xs[i] == xs[j] && i < k <= |xs|
    ensures i in ErrorRowsUpTo(xs, k) && j in ErrorRowsUpTo(xs, k)
  {
    MatchesFind(xs, i, j, |xs|);
    ErrorRowsUpToPrefix(xs, i + 1, k);
    var before, pushed := ErrorRowsUpTo(xs, i), Matches(xs, i, |xs|);
    assert ErrorRowsUpTo(xs, i + 1) == before + pushed;
    InPrefixTail(before, pushed, ErrorRowsUpTo(xs, i + 1), ErrorRowsUpTo(xs, k), i);
    InPrefixTail(before, pushed, ErrorRowsUpTo(xs, i + 1), ErrorRowsUpTo(xs, k), j);
  }

  lemma InPrefixTail(a: seq<nat>, b: seq<nat>, d: seq<nat>, c: seq<nat>, x: nat)
    requires d == a + b && d <= c && x in b
    ensures x in c
  {
    var p :| 0 <= p < |b| && b[p] == x;
    assert d[|a| + p] == x;
    assert c[|a| + p] == x;
  }

  /** Row `k` has the same item line as some other row. */
  predicate HasDuplicate(xs: seq<string>, k: int) {
    0 <= k < |xs| && exists m :: 0 <= m < |xs| && m != k && xs[m] == xs[k]
  }

  lemma {:induction false} PairsHaveDuplicates(r: seq<nat>, xs: seq<string>)
    requires DuplicatePairs(r, xs)
    ensures forall k :: k in r ==> HasDuplicate(xs, k)
    decreases |r|
  {
    if r != [] {
      PairsHaveDuplicates(r[2..], xs);
      forall k | k in r ensures HasDuplicate(xs, k) {
        if k == r[0] {
          assert xs[r[1]] == xs[k];
        } else if k == r[1] {
          assert xs[r[0]] == xs[k];
        } else {
          assert r == [r[0], r[1]] + r[2..];
        }
      }
    }
  }

  /** The rows the form flags are exactly the rows that share their item line
      with another row: none is missed and none is flagged wrongly. */
  lemma ErrorRowsComplete(xs: seq<string>)
    ensures forall k :: k in ErrorRows(xs) <==> HasDuplicate(xs, k)
  {
    ErrorRowsUpToArePairs(xs, |xs|);
    PairsHaveDuplicates(ErrorRows(xs), xs);
    forall k | HasDuplicate(xs, k) ensures k in ErrorRows(xs) {
      var m :| 0 <= m < |xs| && m != k && xs[m] == xs[k];
      if k < m {
        ErrorRowsUpToFind(xs, k, m, |xs|);
      } else {
        ErrorRowsUpToFind(xs, m, k, |xs|);
      }
    }
  }

  /** No rows are reported exactly when the item lines are pairwise distinct. */
  lemma ErrorRowsEmptyIffDistinct(xs: seq<string>)
    ensures ErrorRows(xs) == [] <==> Distinct(xs)
  {
    if !Distinct(xs) {
      var i, j :| 0 <= i < j < |xs| && xs[i] == xs[j];
      ErrorRowsUpToFind(xs, i, j, |xs|);
    }
    if ErrorRows(xs) != [] {
      ErrorRowsUpToArePairs(xs, |xs|);
    }
  }

  /** The nested loops over the details. */
  method FindDuplicateItemLines(itemLines: seq<string>) returns (errorRows: seq<nat>)
    ensures errorRows == ErrorRows(itemLines)
    ensures errorRows == [] <==> Distinct(itemLines)
    ensures forall k :: k in errorRows <==> HasDuplicate(itemLines, k)
  {
    errorRows := [];
    var n := |itemLines|;
    for i := 0 to n
      invariant errorRows == ErrorRowsUpTo(itemLines, i)
    {
      for j := i + 1 to n
        invariant errorRows == ErrorRowsUpTo(itemLines, i) + Matches(itemLines, i, j)
      {
        if itemLines[i] == itemLines[j] {
          errorRows := errorRows + [i, j];
        }
      }
    }
    ErrorRowsEmptyIffDistinct(itemLines);
    ErrorRowsComplete(itemLines);
  }

  /** Two equal lines among three are reported once, as their pair. */
  lemma ErrorRowsExample()
    ensures ErrorRows(["A", "B", "A"]) == [0, 2]
    ensures ErrorRows(["A", "B", "C"]) == []
  {
    var xs := ["A", "B", "A"];
    assert Matches(xs, 0, 2) == [];
    assert Matches(xs, 0, 3) == [0, 2];
    assert Matches(xs, 1, 3) == [];
    assert ErrorRowsUpTo(xs, 1) == [0, 2];
    assert ErrorRowsUpTo(xs, 2) == [0, 2];
    var ys := ["A", "B", "C"];
    assert Matches(ys, 0, 2) == [];
    assert Matches(ys, 0, 3) == [];
    assert Matches(ys, 1, 3) == [];
    assert ErrorRowsUpTo(ys, 2) == [];
  }
}
