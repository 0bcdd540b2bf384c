/** The pagination control: the number of pages, the current page read from
    the `page` URL parameter, the page-change handler and the disabled state
    of the Back and Forward buttons. */
module Pagination {
  import opened Wrappers
  import opened Text
  import opened Params

  /** `Math.ceil(totalCount / pageSize)`. */
  function NumPages(totalCount: nat, pageSize: nat): (n: nat)
    requires pageSize > 0
    ensures n * pageSize >= totalCount
    ensures n == 0 || (n - 1) * pageSize < totalCount
  {
    CeilDiv(totalCount, pageSize)
  }

  function CeilDiv(t: nat, p: nat): (n: nat)
    requires p > 0
    ensures n * p >= t && (n == 0 || (n - 1) * p < t)
    decreases t
  {
    if t == 0 then 0
    else if t <= p then 1
    else
      var m := CeilDiv(t - p, p);
      assert (m + 1) * p == m * p + p;
      m + 1
  }

  /** The result of `Number(s)` on the strings the `page` parameter holds: an
      optional sign followed by decimal digits gives their value, the empty
      string gives 0, and anything else is `NaN` (None). */
  function NumberOf(s: string): (r: Option<int>)
    ensures s == "" ==> r == Some(0)
    ensures s != "" && AllDigits(s) ==> r == Some(DigitsValue(s))
  {
    if s == "" then Some(0)
    else if AllDigits(s) then Some(DigitsValue(s))
    else if (s[0] == '+' || s[0] == '-') && |s| > 1 && AllDigits(s[1..]) then
      var v: int := DigitsValue(s[1..]);
      Some(if s[0] == '-' then -v else v)
    else None
  }

  /** `Number(urlParams.get("page")) || 1`: `Number(null)` is 0, and 0 or
      `NaN` fall back to 1. */
  function CurrentPage(page: Option<string>): (c: int)
    ensures c != 0
    ensures page.None? ==> c == 1
    ensures page.Some? && NumberOf(page.value).Some? && NumberOf(page.value).value != 0 ==> c == NumberOf(page.value).value
    ensures page.Some? && (NumberOf(page.value).None? || NumberOf(page.value) == Some(0)) ==> c == 1
  {
    var n := if page.None? then Some(0) else NumberOf(page.value);
    if n.None? || n.value == 0 then 1 else n.value
  }

  /** A requested page is acted on only when it differs from the current page
      and lies in 1..numPages. */
  predicate Accepts(currentPage: int, numPages: nat, page: int) {
    !(page == currentPage || page < 1 || page > numPages)
  }

  /** The URL parameters after `onChange(page)`. */
  function PageChange(es: Entries, currentPage: int, numPages: nat, page: int): (r: Entries)
    ensures !Accepts(currentPage, numPages, page) ==> r == es
    ensures Accepts(currentPage, numPages, page) && page == 1 ==> GetParam(r, "page") == None
    ensures Accepts(currentPage, numPages, page) && page > 1 ==> GetParam(r, "page") == Some(DecimalString(page))
    ensures forall other :: other != "page" ==> GetParam(r, other) == GetParam(es, other)
  {
    if !Accepts(currentPage, numPages, page) then es
    else if page == 1 then
      GetAfterDeleteAll(es, "page");
      DeleteParam(es, "page")
    else
      SetParamSpec(es, "page", DecimalString(page));
      GetAfterSetAll(es, "page", DecimalString(page));
      SetParam(es, "page", DecimalString(page))
  }

  lemma GetAfterDeleteAll(es: Entries, name: string)
    ensures forall other :: GetParam(DeleteParam(es, name), other) == if other == name then None else GetParam(es, other)
  {
    forall other { GetAfterDelete(es, name, other); }
  }

  lemma GetAfterSetAll(es: Entries, name: string, value: string)
    ensures forall other :: other != name ==> GetParam(SetParam(es, name, value), other) == GetParam(es, other)
  {
    forall other | other != name { GetAfterSet(es, name, value, other); }
  }

  /** `onChange`: updates the shared URL parameters in place. */
  method OnChange(urlParams: UrlSearchParams, currentPage: int, numPages: nat, page: int)
    modifies urlParams
    ensures urlParams.entries == PageChange(old(urlParams.entries), currentPage, numPages, page)
  {
    if page == currentPage || page < 1 || page > numPages {
      return;
    }
    if page == 1 {
      urlParams.Delete("page");
    } else {
      urlParams.Set("page", DecimalString(page));
    }
  }

  /** Every accepted page change is read back as the new current page. */
  lemma PageChangeRoundTrip(es: Entries, currentPage: int, numPages: nat, page: int)
    requires Accepts(currentPage, numPages, page)
    ensures CurrentPage(GetParam(PageChange(es, currentPage, numPages, page), "page")) == page
  {
    if page > 1 {
      DecimalStringRoundTrip(page);
    }
  }

  /** Back is disabled exactly on the first page. */
  predicate BackDisabled(currentPage: int) { currentPage == 1 }

  /** Forward is disabled exactly on the last page. */
  predicate ForwardDisabled(currentPage: int, numPages: nat) { currentPage == numPages }

  /** On a page in range, an enabled Back button leads to an accepted change to
      the previous page, and an enabled Forward button to the next page. */
  lemma NavButtonsLeadToAcceptedPages(currentPage: int, numPages: nat)
    requires 1 <= currentPage <= numPages
    ensures !BackDisabled(currentPage) <==> Accepts(currentPage, numPages, currentPage - 1)
    ensures !ForwardDisabled(currentPage, numPages) <==> Accepts(currentPage, numPages, currentPage + 1)
  {
  }

  /** Forward from page 1 of five writes page=2, Back from there removes the
      parameter again, and the buttons are enabled and disabled accordingly. */
  lemma {:induction false} ForwardThenBack(es: Entries)
    requires GetParam(es, "page") == None
    ensures var p := CurrentPage(GetParam(es, "page"));
            var n := NumPages(5, 1);
            p == 1 && n == 5 && BackDisabled(p) && !ForwardDisabled(p, n)
    ensures var fwd := PageChange(es, 1, 5, 2);
            GetParam(fwd, "page") == Some("2")
            && CurrentPage(GetParam(fwd, "page")) == 2
            && GetParam(PageChange(fwd, 2, 5, 1), "page") == None
  {
    assert DecimalString(2) == "2";
    PageChangeRoundTrip(es, 1, 5, 2);
  }
}
