/** The sorting helpers of the sortable tables: reading a row's value by key,
    the descending comparator and its ascending negation, and the stable sort
    that tags every item with its index before handing it to
    `Array.prototype.sort`. */
module SortHelpers {
  import opened Text
  import opened GenericObjects

  /** A table row: an untyped object. */
  type Row = map<string, Value>

  /** The two sort directions. */
  datatype Order = Asc | Desc

  // ---------------------------------------------------------------------------
  // getNestedValue

  /** `s.split(c)`: the pieces of `s` between occurrences of `c`. */
  function Split(s: string, c: char): (pieces: seq<string>)
    ensures |pieces| > 0
    decreases |s|
  {
    var i := IndexOf(s, c);
    if i < 0 then [s] else [s[..i]] + Split(s[i + 1..], c)
  }

  /** JavaScript truthiness of a value. */
  predicate Truthy(v: Value) {
    match v
    case Undefined => false
    case Null => false
    case Bool(b) => b
    case Num(n) => n != 0.0
    case Str(s) => s != ""
    case Obj(_) => true
  }

  /** `prev[curr]` on an object; other values are read as having no such key. */
  function Member(v: Value, key: string): Value {
    if v.Obj? then Lookup(v.fields, key) else Undefined
  }

  /** `segments.reduce((prev, curr) => prev ? prev[curr] : null, start)`. */
  function ReduceSegments(start: Value, segments: seq<string>): Value
    decreases |segments|
  {
    if segments == [] then start
    else
      var prev := ReduceSegments(start, segments[..|segments| - 1]);
      if Truthy(prev) then Member(prev, segments[|segments| - 1]) else Null
  }

  /** `getNestedValue(obj, path)`: a path containing "." is looked up as one
      literal key, and any other path is split on "." and reduced over. */
  function GetNestedValue(obj: Row, path: string): Value {
    if Contains(path, ".") then Lookup(obj, path)
    else ReduceSegments(Obj(obj), Split(path, '.'))
  }

  lemma SplitWithout(s: string, c: char)
    requires Lacks(s, c)
    ensures Split(s, c) == [s]
  {
  }

  /** Because the test on "." is the wrong way round, a path is never walked
      into nested objects: the value is always the row's own entry under the
      whole path. */
  lemma GetNestedValueIsLookup(obj: Row, path: string)
    ensures GetNestedValue(obj, path) == Lookup(obj, path)
  {
    if !Contains(path, ".") {
      if !Lacks(path, '.') {
        var k :| 0 <= k < |path| && path[k] == '.';
        assert path[k..k + 1] == ".";
        ContainsAt(path, ".", k);
      }
      SplitWithout(path, '.');
      assert [path][..0] == [];
      assert ReduceSegments(Obj(obj), [path]) == Member(Obj(obj), path);
    }
  }

  /** A dotted path therefore misses a nested value: `{a: {b: 1}}` read at
      "a.b" gives `undefined`. */
  lemma GetNestedValueDottedPath()
    ensures GetNestedValue(map["a" := Obj(map["b" := Num(1.0)])], "a.b") == Undefined
  {
    GetNestedValueIsLookup(map["a" := Obj(map["b" := Num(1.0)])], "a.b");
  }

  // ---------------------------------------------------------------------------
  // descendingComparator and getComparator

  /** `x < y` between two values of the same kind: numbers by size, strings
      lexicographically, and `false < true`. */
  predicate Less(x: Value, y: Value) {
    match (x, y)
    case (Num(a), Num(b)) => a < b
    case (Str(a), Str(b)) => LexLess(a, b)
    case (Bool(a), Bool(b)) => !a && b
    case _ => false
  }

  /** Two values that `Less` orders: both numbers, both strings or both booleans. */
  predicate SameKind(x: Value, y: Value) {
    (x.Num? && y.Num?) || (x.Str? && y.Str?) || (x.Bool? && y.Bool?)
  }

  lemma LessAsymmetric(x: Value, y: Value)
    requires Less(x, y)
    ensures !Less(y, x)
  {
    if x.Str? { LexLessAsymmetric(x.s, y.s); }
  }

  /** On values of one kind, `Less` is a strict total order. */
  lemma LessTotalOrder(x: Value, y: Value, z: Value)
    requires SameKind(x, y) && SameKind(y, z)
    ensures x != y ==> Less(x, y) || Less(y, x)
    ensures Less(x, y) && Less(y, z) ==> Less(x, z)
    ensures !Less(x, x)
  {
    if x.Str? {
      if x != y { LexLessTotal(x.s, y.s); }
      if Less(x, y) && Less(y, z) { LexLessTransitive(x.s, y.s, z.s); }
      LexLessIrreflexive(x.s);
    }
  }

  /** `descendingComparator(a, b, orderBy)`. */
  function DescendingComparator(a: Row, b: Row, orderBy: string): int {
    var leftOp := GetNestedValue(a, orderBy);
    var rightOp := GetNestedValue(b, orderBy);
    if Less(leftOp, rightOp) then 1
    else if Less(rightOp, leftOp) then -1
    else 0
  }

  /** Swapping the rows negates the result. */
  lemma DescendingComparatorSwap(a: Row, b: Row, orderBy: string)
    ensures DescendingComparator(b, a, orderBy) == -DescendingComparator(a, b, orderBy)
    ensures DescendingComparator(a, b, orderBy) in {-1, 0, 1}
  {
    var l, r := GetNestedValue(a, orderBy), GetNestedValue(b, orderBy);
    if Less(l, r) { LessAsymmetric(l, r); }
  }

  /** `getComparator(order, orderBy)`. */
  function GetComparator(order: Order, orderBy: string): (Row, Row) -> int {
    if order == Desc then (a: Row, b: Row) => DescendingComparator(a, b, orderBy)
    else (a: Row, b: Row) => -DescendingComparator(a, b, orderBy)
  }

  /** The ascending comparator is the pointwise negation of the descending one,
      and the descending one puts larger values first. */
  lemma GetComparatorSpec(orderBy: string, a: Row, b: Row)
    ensures GetComparator(Asc, orderBy)(a, b) == -GetComparator(Desc, orderBy)(a, b)
    ensures GetComparator(Desc, orderBy)(a, b) < 0 <==> Less(GetNestedValue(b, orderBy), GetNestedValue(a, orderBy))
    ensures GetComparator(Asc, orderBy)(a, b) < 0 <==> Less(GetNestedValue(a, orderBy), GetNestedValue(b, orderBy))
  {
    var l, r := GetNestedValue(a, orderBy), GetNestedValue(b, orderBy);
    if Less(l, r) { LessAsymmetric(l, r); }
  }

  // ---------------------------------------------------------------------------
  // stableSort

  /** An item with its original index. */
  type Tagged<T> = (T, nat)

  /** `array.map((item, index) => [item, index])`. */
  function Tag<T>(items: seq<T>): (r: seq<Tagged<T>>)
    ensures |r| == |items|
    ensures forall i :: 0 <= i < |items| ==> r[i] == (items[i], i)
  {
    seq(|items|, i requires 0 <= i < |items| => (items[i], i))
  }

  /** `tagged.map(item => item[0])`. */
  function Untag<T>(tagged: seq<Tagged<T>>): (r: seq<T>)
    ensures |r| == |tagged|
    ensures forall i :: 0 <= i < |tagged| ==> r[i] == tagged[i].0
  {
    seq(|tagged|, i requires 0 <= i < |tagged| => tagged[i].0)
  }

  /** Places `x` after every leading element it does not compare below. */
  function Insert<T>(x: Tagged<T>, sorted: seq<Tagged<T>>, cmp: (T, T) -> int): (r: seq<Tagged<T>>)
    ensures multiset(r) == multiset(sorted) + multiset{x}
    decreases |sorted|
  {
    if sorted == [] then [x]
    else if cmp(x.0, sorted[0].0) < 0 then [x] + sorted
    else
      assert sorted == [sorted[0]] + sorted[1..];
      [sorted[0]] + Insert(x, sorted[1..], cmp)
  }

  /** `Array.prototype.sort` with the comparator `(a, b) => cmp(a[0], b[0])`: a
      stable sort, here an insertion sort that inserts each item after the
      earlier ones it does not compare below. */
  function SortTagged<T>(s: seq<Tagged<T>>, cmp: (T, T) -> int): (r: seq<Tagged<T>>)
    ensures multiset(r) == multiset(s)
    decreases |s|
  {
    if s == [] then []
    else
      var n := |s| - 1;
      assert s == s[..n] + [s[n]];
      Insert(s[n], SortTagged(s[..n], cmp), cmp)
  }

  /** The sort of the tagged items, before the tags are dropped. */
  function StableSortTagged<T>(items: seq<T>, cmp: (T, T) -> int): seq<Tagged<T>> {
    SortTagged(Tag(items), cmp)
  }

  /** `stableSort(array, comparator)`. */
  function StableSort<T>(items: seq<T>, cmp: (T, T) -> int): seq<T> {
    Untag(StableSortTagged(items, cmp))
  }

  /** `cmp` behaves as a comparator on the values in `items`: swapping the
      arguments negates it, and "not after" is transitive. */
  predicate ConsistentOn<T>(cmp: (T, T) -> int, items: set<T>) {
    && (forall a, b | a in items && b in items :: cmp(b, a) == -cmp(a, b))
    && (forall a, b, c | a in items && b in items && c in items :: cmp(a, b) <= 0 && cmp(b, c) <= 0 ==> cmp(a, c) <= 0)
  }

  /** The items of a tagged sequence. */
  function Items<T>(s: seq<Tagged<T>>): set<T> {
    set p | p in s :: p.0
  }

  /** `p` may stand before `q`: it compares below, or equal with a smaller tag. */
  predicate Before<T>(cmp: (T, T) -> int, p: Tagged<T>, q: Tagged<T>) {
    cmp(p.0, q.0) < 0 || (cmp(p.0, q.0) == 0 && p.1 < q.1)
  }

  /** Ordered by `cmp`, ties in the order of their tags. */
  predicate StablySorted<T>(r: seq<Tagged<T>>, cmp: (T, T) -> int) {
    forall i, j :: 0 <= i < j < |r| ==> Before(cmp, r[i], r[j])
  }

  /** Comparing below and then not above compares below. */
  lemma StrictThenWeak<T>(cmp: (T, T) -> int, items: set<T>, a: T, b: T, c: T)
    requires ConsistentOn(cmp, items) && a in items && b in items && c in items
    requires cmp(a, b) < 0 && cmp(b, c) <= 0
    ensures cmp(a, c) < 0
  {
    assert cmp(c, a) == -cmp(a, c) && cmp(b, a) == -cmp(a, b);
    assert cmp(b, c) <= 0 && cmp(c, a) <= 0 ==> cmp(b, a) <= 0;
  }

  lemma ConsStablySorted<T>(h: Tagged<T>, r: seq<Tagged<T>>, cmp: (T, T) -> int)
    requires StablySorted(r, cmp)
    requires forall j :: 0 <= j < |r| ==> Before(cmp, h, r[j])
    ensures StablySorted([h] + r, cmp)
  {
    var s := [h] + r;
    forall i, j | 0 <= i < j < |s| ensures Before(cmp, s[i], s[j]) {
      if i > 0 { assert s[i] == r[i - 1] && s[j] == r[j - 1]; }
    }
  }

  lemma ItemOf<T>(s: seq<Tagged<T>>, j: int, items: set<T>)
    requires 0 <= j < |s| && Items(s) <= items
    ensures s[j].0 in items
  {
    assert s[j] in s;
  }

  lemma {:induction false} InsertStablySorted<T>(x: Tagged<T>, sorted: seq<Tagged<T>>, cmp: (T, T) -> int, items: set<T>)
    requires StablySorted(sorted, cmp)
    requires ConsistentOn(cmp, items) && x.0 in items && Items(sorted) <= items
    requires forall p | p in sorted :: p.1 < x.1
    ensures StablySorted(Insert(x, sorted, cmp), cmp)
    decreases |sorted|
  {
    if sorted != [] {
      var h := sorted[0];
      ItemOf(sorted, 0, items);
      if cmp(x.0, h.0) < 0 {
        forall j | 0 <= j < |sorted| ensures Before(cmp, x, sorted[j]) {
          ItemOf(sorted, j, items);
          if j > 0 {
            assert Before(cmp, h, sorted[j]);
            StrictThenWeak(cmp, items, x.0, h.0, sorted[j].0);
          }
        }
        ConsStablySorted(x, sorted, cmp);
      } else {
        var tail := sorted[1..];
        assert Items(tail) <= items by {
          forall p | p in tail ensures p.0 in items { assert p in sorted; }
        }
        assert StablySorted(tail, cmp) by {
          forall i, j | 0 <= i < j < |tail| ensures Before(cmp, tail[i], tail[j]) {
            assert tail[i] == sorted[i + 1] && tail[j] == sorted[j + 1];
          }
        }
        InsertStablySorted(x, tail, cmp, items);
        var ins := Insert(x, tail, cmp);
        forall j | 0 <= j < |ins| ensures Before(cmp, h, ins[j]) {
          var y := ins[j];
          assert y in multiset(ins);
          if y == x {
            assert h in sorted;
          } else {
            assert y in tail;
            var k :| 0 <= k < |tail| && tail[k] == y;
            assert sorted[k + 1] == y;
          }
        }
        ConsStablySorted(h, ins, cmp);
      }
    }
  }

  /** Sorting items tagged in increasing order leaves them ordered by `cmp`,
      ties in input order, whenever `cmp` is consistent on those items. */
  lemma {:induction false} SortTaggedStablySorted<T>(s: seq<Tagged<T>>, cmp: (T, T) -> int, items: set<T>)
    requires ConsistentOn(cmp, items) && Items(s) <= items
    requires forall i, j :: 0 <= i < j < |s| ==> s[i].1 < s[j].1
    ensures StablySorted(SortTagged(s, cmp), cmp)
    decreases |s|
  {
    if s != [] {
      var n := |s| - 1;
      var prefix := s[..n];
      assert Items(prefix) <= items by {
        forall p | p in prefix ensures p.0 in items { assert p in s; }
      }
      SortTaggedStablySorted(prefix, cmp, items);
      var sorted := SortTagged(prefix, cmp);
      forall p | p in sorted ensures p.1 < s[n].1 {
        assert p in multiset(prefix);
        var k :| 0 <= k < |prefix| && prefix[k] == p;
      }
      assert Items(sorted) <= items by {
        forall p | p in sorted ensures p.0 in items {
          assert p in multiset(prefix);
          assert p in prefix;
        }
      }
      assert s[n] in s;
      InsertStablySorted(s[n], sorted, cmp, items);
    }
  }

  /** `stableSort` returns a rearrangement of its input that is ordered by the
      comparator, elements comparing equal keeping their input order, provided
      the comparator is consistent on the input's elements. */
  lemma StableSortSpec<T>(items: seq<T>, cmp: (T, T) -> int)
    ensures multiset(StableSort(items, cmp)) == multiset(items)
    ensures StableSort(items, cmp) == Untag(StableSortTagged(items, cmp))
    ensures multiset(StableSortTagged(items, cmp)) == multiset(Tag(items))
    ensures ConsistentOn(cmp, set x | x in items) ==> StablySorted(StableSortTagged(items, cmp), cmp)
  {
    var tagged := Tag(items);
    var sorted := StableSortTagged(items, cmp);
    UntagMultiset(sorted);
    UntagMultiset(tagged);
    assert Untag(tagged) == items;
    if ConsistentOn(cmp, set x | x in items) {
      assert Items(tagged) <= set x | x in items by {
        forall p | p in tagged ensures p.0 in items {
          var k :| 0 <= k < |tagged| && tagged[k] == p;
        }
      }
      SortTaggedStablySorted(tagged, cmp, set x | x in items);
    }
  }

  /** Two tagged sequences that are rearrangements of each other have
      rearranged items. */
  lemma {:induction false} UntagMultiset<T>(s: seq<Tagged<T>>)
    ensures multiset(Untag(s)) == MapFirst(multiset(s))
    decreases |s|
  {
    if s != [] {
      var n := |s| - 1;
      assert s == s[..n] + [s[n]];
      assert Untag(s) == Untag(s[..n]) + [s[n].0];
      UntagMultiset(s[..n]);
      MapFirstAdd(multiset(s[..n]), s[n]);
    }
  }

  /** The multiset of first components. */
  ghost function MapFirst<T>(m: multiset<Tagged<T>>): multiset<T>
    decreases |m|
  {
    if m == multiset{} then multiset{}
    else
      var p :| p in m;
      MapFirst(m - multiset{p}) + multiset{p.0}
  }

  lemma {:induction false} MapFirstAdd<T>(m: multiset<Tagged<T>>, p: Tagged<T>)
    ensures MapFirst(m + multiset{p}) == MapFirst(m) + multiset{p.0}
    decreases |m|
  {
    var m' := m + multiset{p};
    assert p in m';
    var q :| q in m' && MapFirst(m') == MapFirst(m' - multiset{q}) + multiset{q.0};
    if q == p {
      assert m' - multiset{q} == m;
    } else {
      var rest := m - multiset{q};
      SwapOut(m, p, q);
      MapFirstAdd(rest, p);
      MapFirstAdd(rest, q);
      var base := MapFirst(rest);
      assert MapFirst(m') == (base + multiset{p.0}) + multiset{q.0};
      assert MapFirst(m) == base + multiset{q.0};
    }
  }

  /** Taking out an element other than the one just added. */
  lemma SwapOut<X>(m: multiset<X>, p: X, q: X)
    requires q in m + multiset{p} && q != p
    ensures q in m && m == (m - multiset{q}) + multiset{q}
    ensures (m + multiset{p}) - multiset{q} == (m - multiset{q}) + multiset{p}
  {
  }

  /** Rows whose values under the sort key are of one kind (all numbers, all
      strings or all booleans) are compared consistently in either order. */
  lemma GetComparatorConsistent(order: Order, orderBy: string, rows: set<Row>)
    requires forall a, b | a in rows && b in rows :: SameKind(GetNestedValue(a, orderBy), GetNestedValue(b, orderBy))
    ensures ConsistentOn(GetComparator(order, orderBy), rows)
  {
    var cmp := GetComparator(order, orderBy);
    forall a, b | a in rows && b in rows ensures cmp(b, a) == -cmp(a, b) {
      DescendingComparatorSwap(a, b, orderBy);
    }
    forall a, b, c | a in rows && b in rows && c in rows && cmp(a, b) <= 0 && cmp(b, c) <= 0
      ensures cmp(a, c) <= 0
    {
      var x, y, z := GetNestedValue(a, orderBy), GetNestedValue(b, orderBy), GetNestedValue(c, orderBy);
      LessTotalOrder(x, y, z);
      LessTotalOrder(z, y, x);
      LessTotalOrder(x, z, y);
      LessTotalOrder(y, x, z);
      LessTotalOrder(z, x, y);
      LessTotalOrder(y, z, x);
    }
  }
}
