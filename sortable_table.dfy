/** The sort state of the sortable table: the column it is ordered by, the
    direction, and the rows it displays in that order. */
module SortableTable {
  import opened SortHelpers

  /** The state after a click on the header of column `p`: the column becomes
      `p`, and the order is descending exactly when `p` was already sorted
      ascending. */
  function NextSort(orderBy: string, order: Order, p: string): (next: (string, Order))
    ensures next.0 == p
    ensures next.1 == Desc <==> orderBy == p && order == Asc
  {
    var isAsc := orderBy == p && order == Asc;
    (p, if isAsc then Desc else Asc)
  }

  /** A column that is not the current one always starts ascending. */
  lemma FreshColumnStartsAscending(orderBy: string, order: Order, p: string)
    requires p != orderBy
    ensures NextSort(orderBy, order, p) == (p, Asc)
  {
  }

  /** Repeated clicks on one column alternate between the two directions. */
  lemma {:induction false} RepeatedClicksAlternate(orderBy: string, order: Order, p: string)
    ensures var s1 := NextSort(orderBy, order, p);
            var s2 := NextSort(s1.0, s1.1, p);
            s2.0 == p && s2.1 != s1.1 && NextSort(s2.0, s2.1, p) == s1
  {
    var s1 := NextSort(orderBy, order, p);
    assert s1.0 == p;
  }

  /** From a descending state (which includes the initial one), two clicks on
      a column show it ascending and then descending. */
  lemma ClickTwiceFromDescending(orderBy: string, p: string)
    ensures NextSort(orderBy, Desc, p) == (p, Asc)
    ensures NextSort(p, Asc, p) == (p, Desc)
  {
  }

  class SortTable {
    /** `rowData`: the rows the table is given. */
    var rowData: seq<Row>
    /** The column sorted by; "" before any click. */
    var orderBy: string
    var order: Order

    /** The initial state: no column, descending. */
    constructor (rows: seq<Row>)
      ensures rowData == rows && orderBy == "" && order == Desc
    {
      rowData := rows;
      orderBy := "";
      order := Desc;
    }

    /** `sortedValues`: the rows as displayed. */
    function SortedValues(): (shown: seq<Row>)
      reads this
      ensures multiset(shown) == multiset(rowData)
    {
      StableSortSpec(rowData, GetComparator(order, orderBy));
      StableSort(rowData, GetComparator(order, orderBy))
    }

    /** `handleSort(property)`. */
    method HandleSort(property: string)
      modifies this
      ensures (orderBy, order) == NextSort(old(orderBy), old(order), property)
      ensures rowData == old(rowData)
    {
      var isAsc := orderBy == property && order == Asc;
      order := if isAsc then Desc else Asc;
      orderBy := property;
    }

    /** A click on a column header. The sort control exists only when there
        are at least two rows; otherwise the header is a plain label and the
        click does nothing. */
    method ClickHeader(valueKey: string)
      modifies this
      ensures |rowData| >= 2 ==> (orderBy, order) == NextSort(old(orderBy), old(order), valueKey)
      ensures |rowData| < 2 ==> orderBy == old(orderBy) && order == old(order)
      ensures rowData == old(rowData)
    {
      if |rowData| >= 2 {
        HandleSort(valueKey);
      }
    }
  }

  /** The displayed rows are ordered by the chosen column, ties in the order of
      `rowData`, when that column holds values of one kind. */
  lemma SortedValuesOrdered(rowData: seq<Row>, order: Order, orderBy: string)
    requires forall a, b | a in rowData && b in rowData :: SameKind(GetNestedValue(a, orderBy), GetNestedValue(b, orderBy))
    ensures StablySorted(StableSortTagged(rowData, GetComparator(order, orderBy)), GetComparator(order, orderBy))
    ensures StableSort(rowData, GetComparator(order, orderBy)) == Untag(StableSortTagged(rowData, GetComparator(order, orderBy)))
  {
    GetComparatorConsistent(order, orderBy, set x | x in rowData);
    StableSortSpec(rowData, GetComparator(order, orderBy));
  }
}
