/** The backend's price-list schema: the enumerations and defaults of its
    fields, the trimming Mongoose applies to string fields, and the two
    validators on `details`. */
module PriceListSchema {
  import opened Wrappers
  import opened ItemLineDuplicates
  import UtilsHelpers

  const CategoryEnum: seq<string> := ["cc-destination", "inland-carrier", "forwarder", "inland-supplier", "local-charges"]
  const IncotermEnum: seq<string> := ["DAP", "CIF", "EXW", "FOB"]
  const ActivityEnum: seq<string> := ["Active", "Archived"]
  const DefaultActivity: string := "Active"
  const DefaultCurrencyCode: string := "USD"

  /** The categories the schema accepts are the ones the front end titles. */
  lemma CategoryEnumMatchesFrontEnd()
    ensures CategoryEnum == UtilsHelpers.CategoryNames
  {
  }

  // ---------------------------------------------------------------------------
  // trim

  /** The characters `String.prototype.trim` removes: white space and line
      terminators. */
  predicate IsTrimmed(c: char) {
    || c == ' ' || c == '\t' || c == '\n' || c == '\r' || c == '\U{000B}' || c == '\U{000C}'
    || c == '\U{00A0}' || c == '\U{1680}' || ('\U{2000}' <= c <= '\U{200A}')
    || c == '\U{2028}' || c == '\U{2029}' || c == '\U{202F}' || c == '\U{205F}'
    || c == '\U{3000}' || c == '\U{FEFF}'
  }

  function TrimStart(s: string): (r: string)
    ensures |r| <= |s| && r == s[|s| - |r|..]
    ensures r == [] || !IsTrimmed(r[0])
    ensures forall k :: 0 <= k < |s| - |r| ==> IsTrimmed(s[k])
    decreases |s|
  {
    if s != [] && IsTrimmed(s[0]) then TrimStart(s[1..]) else s
  }

  function TrimEnd(s: string): (r: string)
    ensures |r| <= |s| && r == s[..|r|]
    ensures r == [] || !IsTrimmed(r[|r| - 1])
    ensures forall k :: |r| <= k < |s| ==> IsTrimmed(s[k])
    decreases |s|
  {
    if s != [] && IsTrimmed(s[|s| - 1]) then TrimEnd(s[..|s| - 1]) else s
  }

  /** `s.trim()`: `s` without its leading and trailing white space. */
  function Trim(s: string): (r: string)
    ensures exists i, j :: 0 <= i <= j <= |s| && r == s[i..j]
                        && (forall k :: 0 <= k < i ==> IsTrimmed(s[k]))
                        && (forall k :: j <= k < |s| ==> IsTrimmed(s[k]))
    ensures r == [] || (!IsTrimmed(r[0]) && !IsTrimmed(r[|r| - 1]))
  {
    var t := TrimStart(s);
    var r := TrimEnd(t);
    TrimSlice(s, |s| - |t|, t, r);
    if r != [] then assert r[0] == t[0]; r else r
  }

  /** Cutting a suffix `t` off `s` and then a prefix `r` off `t` leaves the
      slice of `s` from `i` to `i + |r|`; white space after `r` in `t` is white
      space of `s`. */
  lemma TrimSlice(s: string, i: nat, t: string, r: string)
    requires |t| <= |s| && t == s[|s| - |t|..] && i == |s| - |t|
    requires |r| <= |t| && r == t[..|r|]
    requires forall k :: |r| <= k < |t| ==> IsTrimmed(t[k])
    ensures i + |r| <= |s| && r == s[i..i + |r|]
    ensures forall k :: i + |r| <= k < |s| ==> IsTrimmed(s[k])
  {
    forall k | i + |r| <= k < |s| ensures IsTrimmed(s[k]) {
      assert s[k] == t[k - i];
    }
  }

  /** A string that neither starts nor ends with white space is left as it is. */
  lemma TrimUnchanged(s: string)
    requires s == [] || (!IsTrimmed(s[0]) && !IsTrimmed(s[|s| - 1]))
    ensures Trim(s) == s
  {
    assert TrimStart(s) == s;
  }

  /** Trimming a second time changes nothing. */
  lemma TrimIdempotent(s: string)
    ensures Trim(Trim(s)) == Trim(s)
  {
    var r := Trim(s);
    if r != [] {
      assert TrimStart(r) == r;
      assert TrimEnd(r) == r;
    }
  }

  // ---------------------------------------------------------------------------
  // the details validators

  /** `new Set(itemLines)`. */
  function ValueSet(xs: seq<string>): set<string> {
    set x | x in xs
  }

  /** The first validator: as many distinct item lines as item lines. */
  predicate UniqueItemLines(itemLines: seq<string>) {
    |itemLines| == |ValueSet(itemLines)|
  }

  /** The second validator: at least one detail, and some item line that is
      not the empty string. */
  predicate HasItemLine(itemLines: seq<string>) {
    |itemLines| > 0 && exists k :: 0 <= k < |itemLines| && itemLines[k] != ""
  }

  /** Empty details fail, and so do details whose item lines are all empty. */
  lemma HasItemLineExamples()
    ensures !HasItemLine([])
    ensures !HasItemLine(["", ""])
    ensures HasItemLine(["", "A"])
  {
    assert ["", "A"][1] != "";
  }

  lemma {:induction false} ValueSetSize(xs: seq<string>)
    ensures |ValueSet(xs)| <= |xs|
    ensures |ValueSet(xs)| == |xs| <==> Distinct(xs)
    decreases |xs|
  {
    if xs != [] {
      var n := |xs| - 1;
      var ys, x := xs[..n], xs[n];
      assert xs == ys + [x];
      ValueSetSnoc(ys, x);
      DistinctSnoc(ys, x);
      ValueSetSize(ys);
      if x in ys {
        assert ValueSet(xs) == ValueSet(ys);
      }
    }
  }

  lemma ValueSetSnoc(ys: seq<string>, x: string)
    ensures ValueSet(ys + [x]) == ValueSet(ys) + {x}
  {
  }

  lemma DistinctSnoc(ys: seq<string>, x: string)
    ensures x in ys ==> !Distinct(ys + [x])
    ensures x !in ys ==> (Distinct(ys + [x]) <==> Distinct(ys))
  {
    var xs := ys + [x];
    if x in ys {
      var k :| 0 <= k < |ys| && ys[k] == x;
      assert xs[k] == xs[|ys|];
    } else {
      if Distinct(ys) {
        forall i, j | 0 <= i < j < |xs| ensures xs[i] != xs[j] {
          assert xs[i] == ys[i];
          if j < |ys| { assert xs[j] == ys[j]; }
        }
      }
      if Distinct(xs) {
        forall i, j | 0 <= i < j < |ys| ensures ys[i] != ys[j] { assert ys[i] == xs[i] && ys[j] == xs[j]; }
      }
    }
  }

  /** The backend's Set-size check accepts exactly the item lines in which the
      front end's nested loops find no duplicates. */
  lemma UniqueIffNoErrorRows(itemLines: seq<string>)
    ensures UniqueItemLines(itemLines) <==> ErrorRows(itemLines) == []
  {
    ValueSetSize(itemLines);
    ErrorRowsEmptyIffDistinct(itemLines);
  }

  /** The item lines as the backend stores them: trimmed. */
  function TrimAll(itemLines: seq<string>): (r: seq<string>)
    ensures |r| == |itemLines| && forall k :: 0 <= k < |r| ==> r[k] == Trim(itemLines[k])
  {
    seq(|itemLines|, k requires 0 <= k < |itemLines| => Trim(itemLines[k]))
  }

  /** The front end compares the lines as typed and the backend after trimming,
      so the two disagree on lines that differ only in surrounding spaces. */
  lemma TrimmedDuplicatesExample()
    ensures ErrorRows(["A", "A "]) == []
    ensures !UniqueItemLines(TrimAll(["A", "A "]))
  {
    var xs := ["A", "A "];
    assert Matches(xs, 0, 2) == [];
    assert ErrorRowsUpTo(xs, 2) == [];
    assert TrimStart("A ") == "A ";
    assert TrimEnd("A ") == "A";
    var t := TrimAll(xs);
    assert t[0] == t[1];
    ValueSetSize(t);
  }

  /** Trimming can only merge item lines, never separate them: lines unique
      after trimming were unique before. */
  lemma TrimmedUniqueImpliesUnique(itemLines: seq<string>)
    requires UniqueItemLines(TrimAll(itemLines))
    ensures UniqueItemLines(itemLines)
  {
    var t := TrimAll(itemLines);
    ValueSetSize(t);
    ValueSetSize(itemLines);
    forall i, j | 0 <= i < j < |itemLines| ensures itemLines[i] != itemLines[j] {
      assert t[i] != t[j];
    }
  }

  // ---------------------------------------------------------------------------
  // documents

  datatype DetailDoc = DetailDoc(item_line: string, supplier: string, price_20: real, price_40: real, currency_code: Option<string>)

  datatype PriceListDoc = PriceListDoc(
    category: string,
    incoterm: Option<string>,
    valid_from: Option<int>,
    valid_until: Option<int>,
    details: seq<DetailDoc>,
    activity: Option<string>,
    company: Option<string>,
    senderInformation: Option<string>)

  function ItemLines(details: seq<DetailDoc>): (r: seq<string>)
    ensures |r| == |details| && forall k :: 0 <= k < |r| ==> r[k] == details[k].item_line
  {
    seq(|details|, k requires 0 <= k < |details| => details[k].item_line)
  }

  /** A detail as it is stored: strings trimmed and the currency defaulted. */
  function CastDetail(d: DetailDoc): DetailDoc {
    DetailDoc(Trim(d.item_line), Trim(d.supplier), d.price_20, d.price_40,
              Some(Trim(d.currency_code.GetOr(DefaultCurrencyCode))))
  }

  /** A document as it is stored: strings trimmed and defaults filled in. */
  function Cast(doc: PriceListDoc): (r: PriceListDoc)
    ensures r.activity.Some? && r.activity.value == Trim(doc.activity.GetOr(DefaultActivity))
    ensures |r.details| == |doc.details|
    ensures forall k :: 0 <= k < |r.details| ==> r.details[k] == CastDetail(doc.details[k])
  {
    var incoterm := if doc.incoterm.Some? then Some(Trim(doc.incoterm.value)) else None;
    doc.(category := Trim(doc.category),
         incoterm := incoterm,
         details := seq(|doc.details|, k requires 0 <= k < |doc.details| => CastDetail(doc.details[k])),
         activity := Some(Trim(doc.activity.GetOr(DefaultActivity))))
  }

  /** The checks the schema makes on a stored document. */
  predicate Valid(doc: PriceListDoc) {
    && doc.category in CategoryEnum
    && (doc.incoterm.Some? ==> doc.incoterm.value in IncotermEnum)
    && doc.valid_from.Some? && doc.valid_until.Some?
    && (forall k :: 0 <= k < |doc.details| ==> doc.details[k].item_line != "" && doc.details[k].supplier != "")
    && UniqueItemLines(ItemLines(doc.details))
    && HasItemLine(ItemLines(doc.details))
    && (doc.activity.Some? ==> doc.activity.value in ActivityEnum)
    && doc.company.Some? && doc.senderInformation.Some?
  }

  /** Without an `activity`, the stored document is "Active". */
  lemma CastDefaultActivity(doc: PriceListDoc)
    requires doc.activity.None?
    ensures Cast(doc).activity == Some("Active")
  {
    ActivityDefaultTrimmed();
  }

  /** A detail without a `currency_code` is stored in "USD". */
  lemma CastDefaultCurrency(d: DetailDoc)
    requires d.currency_code.None?
    ensures CastDetail(d).currency_code == Some("USD")
  {
    CurrencyDefaultTrimmed();
  }

  lemma ActivityDefaultTrimmed()
    ensures Trim(DefaultActivity) == DefaultActivity
  {
    TrimUnchanged(DefaultActivity);
  }

  lemma CurrencyDefaultTrimmed()
    ensures Trim(DefaultCurrencyCode) == DefaultCurrencyCode
  {
    TrimUnchanged(DefaultCurrencyCode);
  }

  /** A stored valid document has distinct trimmed item lines, at least one
      detail, and a category the front end knows. */
  lemma ValidStoredDocument(doc: PriceListDoc)
    requires Valid(Cast(doc))
    ensures Distinct(TrimAll(ItemLines(doc.details)))
    ensures Distinct(ItemLines(doc.details))
    ensures |doc.details| > 0
    ensures Trim(doc.category) in UtilsHelpers.CategoryNames
  {
    StoredItemLines(doc);
    var trimmed := TrimAll(ItemLines(doc.details));
    ValueSetSize(trimmed);
    TrimmedUniqueImpliesUnique(ItemLines(doc.details));
    ValueSetSize(ItemLines(doc.details));
  }

  lemma StoredItemLines(doc: PriceListDoc)
    ensures ItemLines(Cast(doc).details) == TrimAll(ItemLines(doc.details))
    ensures Cast(doc).category == Trim(doc.category)
  {
  }

  /** Nothing orders the two dates: a valid document stays valid with any
      pair of dates, `valid_until` before `valid_from` included. */
  lemma DatesUnordered(doc: PriceListDoc, from: int, until: int)
    requires Valid(Cast(doc))
    ensures Valid(Cast(doc.(valid_from := Some(from), valid_until := Some(until))))
  {
    var moved := doc.(valid_from := Some(from), valid_until := Some(until));
    assert Cast(moved) == Cast(doc).(valid_from := Some(from), valid_until := Some(until));
  }
}
