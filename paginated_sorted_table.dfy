/** The head cells of the paginated sorted table, which keep the sort in the
    `sort` URL parameter: "key" for ascending, "-key" for descending. */
module PaginatedSortedTable {
  import opened Wrappers
  import opened Text
  import opened Params
  import opened SortHelpers

  /** The direction read from `sort`: descending exactly when its first
      character is "-"; an absent or empty parameter reads as ascending. */
  function OrderOf(sort: Option<string>): (order: Order)
    ensures order == Desc <==> sort.Some? && StartsWith(sort.value, "-")
  {
    if sort.Some? && |sort.value| > 0 && sort.value[0] == '-' then Desc else Asc
  }

  /** The column read from `sort`: its value with the first "-" removed. */
  function OrderByOf(sort: Option<string>): (orderBy: Option<string>)
    ensures orderBy.None? <==> sort.None?
    ensures sort.Some? && StartsWith(sort.value, "-") ==> orderBy == Some(sort.value[1..])
    ensures sort.Some? && Lacks(sort.value, '-') ==> orderBy == sort
  {
    match sort
    case None => None
    case Some(s) =>
      if |s| > 0 && s[0] == '-' then
        assert IndexOf(s, '-') == 0 && s[..0] + s[1..] == s[1..];
        Some(RemoveFirst(s, '-'))
      else Some(RemoveFirst(s, '-'))
  }

  /** The value `onSort` writes: "-key" when the current order is ascending,
      "key" when it is descending. */
  function SortValue(order: Order, valueKey: string): (v: string)
    ensures !StartsWith(valueKey, "-") ==> OrderOf(Some(v)) != order
    ensures Lacks(valueKey, '-') ==> OrderByOf(Some(v)) == Some(valueKey)
  {
    if order == Asc then
      assert ("-" + valueKey)[..1] == "-" && ("-" + valueKey)[1..] == valueKey;
      "-" + valueKey
    else valueKey
  }

  /** A key that itself contains "-" is read back without its first "-" once
      the order is descending: the column "a-b" comes back as "ab". */
  lemma DashedKeyMisread()
    ensures OrderByOf(Some(SortValue(Desc, "a-b"))) == Some("ab")
  {
    assert "a-b"[0] != '-' && "a-b"[1] == '-';
    assert IndexOf("a-b", '-') == 1;
    assert "a-b"[..1] + "a-b"[2..] == "ab";
  }

  /** The URL parameters after `onSort` for column `valueKey`. */
  function OnSortEntries(es: Entries, valueKey: string): (r: Entries)
    ensures GetParam(r, "sort") == Some(SortValue(OrderOf(GetParam(es, "sort")), valueKey))
    ensures forall other :: other != "sort" ==> GetParam(r, other) == GetParam(es, other)
    ensures DeleteParam(r, "sort") == DeleteParam(es, "sort")
  {
    var r := SetParam(es, "sort", SortValue(OrderOf(GetParam(es, "sort")), valueKey));
    SetParamSpec(es, "sort", SortValue(OrderOf(GetParam(es, "sort")), valueKey));
    forall other | other != "sort" ensures GetParam(r, other) == GetParam(es, other) {
      GetAfterSet(es, "sort", SortValue(OrderOf(GetParam(es, "sort")), valueKey), other);
    }
    r
  }

  /** `onSort`: copies the URL parameters, sets `sort` on the copy and returns
      the copy as the new parameters; the current ones are left as they are. */
  method OnSort(urlParams: UrlSearchParams, valueKey: string) returns (updated: UrlSearchParams)
    ensures fresh(updated)
    ensures updated.entries == OnSortEntries(urlParams.entries, valueKey)
  {
    var order := OrderOf(urlParams.Get("sort"));
    var sortValue := SortValue(order, valueKey);
    updated := new UrlSearchParams(urlParams.entries);
    updated.Set("sort", sortValue);
  }

  /** A head cell offers a sort action only when it is enabled and has a
      non-empty `valueKey`. */
  predicate Sortable(disabled: bool, valueKey: Option<string>) {
    !disabled && valueKey.Some? && valueKey.value != ""
  }

  /** A click on a head cell: the parameters `onSort` produces for a sortable
      cell, and the parameters unchanged otherwise. */
  function ClickHeadCell(es: Entries, disabled: bool, valueKey: Option<string>): (r: Entries)
    ensures !Sortable(disabled, valueKey) ==> r == es
    ensures Sortable(disabled, valueKey) ==> GetParam(r, "sort").Some?
  {
    if Sortable(disabled, valueKey) then OnSortEntries(es, valueKey.value) else es
  }

  /** Two clicks on the same column, starting from `sort=key` or `sort=-key`,
      give back the original `sort` value and leave the other parameters as
      they were. */
  lemma TwoClicksRestore(es: Entries, key: string)
    requires key != [] && key[0] != '-'
    requires GetParam(es, "sort") == Some(key) || GetParam(es, "sort") == Some("-" + key)
    ensures GetParam(OnSortEntries(OnSortEntries(es, key), key), "sort") == GetParam(es, "sort")
    ensures DeleteParam(OnSortEntries(OnSortEntries(es, key), key), "sort") == DeleteParam(es, "sort")
  {
    var once := OnSortEntries(es, key);
    if GetParam(es, "sort") == Some(key) {
      assert OrderOf(GetParam(es, "sort")) == Asc;
      assert GetParam(once, "sort") == Some("-" + key);
      assert ("-" + key)[0] == '-';
    } else {
      assert ("-" + key)[0] == '-';
      assert GetParam(once, "sort") == Some(key);
    }
  }

  /** Clicking a column while the current order is ascending, which includes
      the case where no `sort` is set, writes "-key": from a URL without
      `sort` the first click sorts descending. */
  lemma FirstClickFromNoSort(es: Entries, key: string)
    requires GetParam(es, "sort") == None
    ensures GetParam(OnSortEntries(es, key), "sort") == Some("-" + key)
  {
  }

  /** Clicking a column while the current order is descending writes the bare
      key, whatever column was sorted before, and the next click on it writes
      "-key". */
  lemma ClicksAfterDescending(es: Entries, prev: string, key: string)
    requires GetParam(es, "sort") == Some("-" + prev)
    requires key != [] && key[0] != '-'
    ensures GetParam(OnSortEntries(es, key), "sort") == Some(key)
    ensures GetParam(OnSortEntries(OnSortEntries(es, key), key), "sort") == Some("-" + key)
  {
    assert ("-" + prev)[0] == '-';
  }

  /** The head cell shows a column as active when the parsed column equals its
      key, in either direction. */
  lemma ActiveColumn(key: string)
    requires Lacks(key, '-')
    ensures OrderByOf(Some(key)) == Some(key) && OrderOf(Some(key)) == Asc
    ensures OrderByOf(Some("-" + key)) == Some(key) && OrderOf(Some("-" + key)) == Desc
  {
    assert ("-" + key)[1..] == key;
  }
}
