/** The parameter rewriting of the offers service: the defaults and the
    activity-range clause of `getFilteredPage`, the date predicates those
    clauses stand for, and the field merging of `getFilterValues` and
    `getFormValues`. The HTTP requests themselves are not modelled. */
module OffersService {
  import opened Wrappers
  import opened Text
  import opened Params
  import opened UtilsHelpers

  /** `PAGE_SIZE`. */
  const PageSize: nat := 15

  /** The four activity ranges, in the order of `ACTIVITIES`. */
  datatype Activity = Active | Current | Expired | Future

  const Activities: seq<string> := ["Active", "Current", "Expired", "Future"]

  /** The name of each range, as it appears in `ACTIVITIES` and as the key of
      `ACTIVITY_RANGES`. */
  function ActivityName(a: Activity): (name: string)
    ensures name in Activities
  {
    match a
    case Active => "Active"
    case Current => "Current"
    case Expired => "Expired"
    case Future => "Future"
  }

  /** The range named `s`, if any. */
  function ActivityNamed(s: string): (a: Option<Activity>)
    ensures a.Some? ==> ActivityName(a.value) == s
    ensures a.None? ==> s !in Activities
  {
    match s
    case "Active" => Some(Active)
    case "Current" => Some(Current)
    case "Expired" => Some(Expired)
    case "Future" => Some(Future)
    case _ => None
  }

  lemma ActivityNameRoundTrip(a: Activity)
    ensures ActivityNamed(ActivityName(a)) == Some(a)
  {
  }

  // ---------------------------------------------------------------------------
  // ACTIVITY_RANGES

  /** The comparison operators of the range clauses. */
  datatype Cmp = Lte | Gte | Lt | Gt

  function OpName(c: Cmp): string {
    match c
    case Lte => "lte"
    case Gte => "gte"
    case Lt => "lt"
    case Gt => "gt"
  }

  /** A clause `field[op]=TODAY`. */
  datatype Condition = Condition(field: string, op: Cmp)

  /** The conditions of each entry of `ACTIVITY_RANGES`. */
  function Conditions(a: Activity): seq<Condition> {
    match a
    case Active => [Condition("valid_from", Lte), Condition("valid_until", Gte)]
    case Current => [Condition("valid_until", Gte)]
    case Expired => [Condition("valid_until", Lt)]
    case Future => [Condition("valid_from", Gt)]
  }

  /** The query text of a list of conditions, joined with "&". */
  function ClauseText(conds: seq<Condition>, today: string): string
    decreases |conds|
  {
    if conds == [] then ""
    else
      var first := conds[0].field + "[" + OpName(conds[0].op) + "]=" + today;
      if |conds| == 1 then first else first + "&" + ClauseText(conds[1..], today)
  }

  /** The properties every plain object literal inherits from
      `Object.prototype`; `ACTIVITY_RANGES[name]` finds them too. */
  const InheritedNames: seq<string> := [
    "constructor", "__defineGetter__", "__defineSetter__", "hasOwnProperty",
    "__lookupGetter__", "__lookupSetter__", "isPrototypeOf", "propertyIsEnumerable",
    "toString", "valueOf", "__proto__", "toLocaleString"]

  /** The text a template literal makes of an inherited property: `__proto__`
      is `Object.prototype` itself, "[object Object]"; `constructor` is the
      `Object` function; every other one is a built-in method, written out as
      its native source text in the form V8 prints. */
  function InheritedText(name: string): string {
    if name == "__proto__" then "[object Object]"
    else if name == "constructor" then "function Object() { [native code] }"
    else "function " + name + "() { [native code] }"
  }

  /** `${ACTIVITY_RANGES[name]}`: the clause text of a known range, the text of
      an inherited property, and the text "undefined" that a template literal
      makes of any other missing entry. */
  function RangeClause(name: string, today: string): (clause: string)
    ensures ActivityNamed(name).Some? ==> clause == ClauseText(Conditions(ActivityNamed(name).value), today)
    ensures name in InheritedNames ==> clause == InheritedText(name)
    ensures ActivityNamed(name).None? && name !in InheritedNames ==> clause == "undefined"
  {
    match ActivityNamed(name)
    case Some(a) => ClauseText(Conditions(a), today)
    case None => if name in InheritedNames then InheritedText(name) else "undefined"
  }

  /** An inherited name reaches the query as the text of what it finds:
      "toString" brings in a function's source text. */
  lemma InheritedRangeExample(today: string)
    ensures RangeClause("toString", today) == "function " + "toString" + "() { [native code] }"
  {
    assert "toString" in InheritedNames;
    assert ActivityNamed("toString").None?;
  }

  /** "__proto__" brings in "[object Object]". */
  lemma ProtoRangeExample(today: string)
    ensures RangeClause("__proto__", today) == "[object Object]"
  {
    assert "__proto__" in InheritedNames;
    assert ActivityNamed("__proto__").None?;
  }

  /** Any other unknown name, such as "Archived", brings in "undefined". */
  lemma UndefinedRangeExample(today: string)
    ensures RangeClause("Archived", today) == "undefined"
  {
    assert ActivityNamed("Archived").None?;
  }

  /** The `Active` entry written out. */
  lemma ActiveClause(today: string)
    ensures RangeClause("Active", today) == "valid_from[lte]=" + today + "&valid_until[gte]=" + today
  {
    var conds := Conditions(Active);
    var x := "valid_from[lte]=" + today;
    var y := "valid_until[gte]=" + today;
    ActiveLiterals();
    assert conds[0].field + "[" + OpName(conds[0].op) + "]=" + today == x;
    assert conds[1..] == [Condition("valid_until", Gte)];
    assert ClauseText(conds[1..], today) == y;
    assert ClauseText(conds, today) == x + "&" + y;
    JoinAssoc(x, "valid_until[gte]=", today);
  }

  lemma ActiveLiterals()
    ensures "valid_from" + "[" + "lte" + "]=" == "valid_from[lte]="
    ensures "valid_until" + "[" + "gte" + "]=" == "valid_until[gte]="
    ensures "&" + "valid_until[gte]=" == "&valid_until[gte]="
  {
  }

  lemma JoinAssoc(x: string, p: string, t: string)
    ensures x + "&" + (p + t) == x + ("&" + p) + t
  {
  }

  /** The `Expired` entry written out. */
  lemma ExpiredClause(today: string)
    ensures RangeClause("Expired", today) == "valid_until[lt]=" + today
  {
    assert ActivityNamed("Expired") == Some(Expired);
    assert ClauseText(Conditions(Expired), today) == "valid_until" + "[" + "lt" + "]=" + today;
  }

  /** A comparison of a day with today's day. */
  predicate Compare(day: int, op: Cmp, today: int) {
    match op
    case Lte => day <= today
    case Gte => day >= today
    case Lt => day < today
    case Gt => day > today
  }

  /** An offer valid from day `from` until day `until` meets a condition. */
  predicate Meets(c: Condition, from: int, until: int, today: int) {
    Compare(if c.field == "valid_from" then from else until, c.op, today)
  }

  /** An offer is in a range when it meets all of that range's conditions. */
  predicate InRange(a: Activity, from: int, until: int, today: int) {
    forall i :: 0 <= i < |Conditions(a)| ==> Meets(Conditions(a)[i], from, until, today)
  }

  /** The ranges as predicates on days: Active is `from <= t <= until`,
      Current `until >= t`, Expired `until < t` and Future `from > t`. */
  lemma InRangeSpec(from: int, until: int, t: int)
    ensures InRange(Active, from, until, t) <==> from <= t && until >= t
    ensures InRange(Current, from, until, t) <==> until >= t
    ensures InRange(Expired, from, until, t) <==> until < t
    ensures InRange(Future, from, until, t) <==> from > t
  {
    assert Conditions(Active)[0].field == "valid_from";
    assert Conditions(Active)[1].field == "valid_until";
    assert Conditions(Current)[0].field == "valid_until";
    assert Conditions(Expired)[0].field == "valid_until";
    assert Conditions(Future)[0].field == "valid_from";
  }

  /** Every offer is either Current or Expired and not both; an Active offer is
      Current; an Active offer is not a Future one. */
  lemma RangeRelations(from: int, until: int, t: int)
    ensures InRange(Current, from, until, t) != InRange(Expired, from, until, t)
    ensures InRange(Active, from, until, t) ==> InRange(Current, from, until, t)
    ensures !(InRange(Active, from, until, t) && InRange(Future, from, until, t))
  {
    InRangeSpec(from, until, t);
  }

  // ---------------------------------------------------------------------------
  // getFilteredPage

  /** `if (!original.has(name)) copy.set(name, value)`. */
  function SetDefault(original: Entries, copy: Entries, name: string, value: string): Entries {
    if HasParam(original, name) then copy else SetParam(copy, name, value)
  }

  /** The parameters after the four default checks, in the order the source
      makes them. */
  function WithDefaults(es: Entries): Entries {
    var s1 := SetDefault(es, es, "sort", "discharge_port");
    var s2 := SetDefault(es, s1, "page", "1");
    var s3 := SetDefault(es, s2, "limit", "15");
    SetDefault(es, s3, "activity", "Active")
  }

  /** `${PAGE_SIZE}`. */
  lemma PageSizeText()
    ensures DecimalString(PageSize) == "15"
  {
    assert DecimalString(1) == "1";
  }

  /** The request `getFilteredPage` sends: the parameters, and the range clause
      appended after them when `activity_range` is set. */
  datatype Query = Query(params: Entries, clause: Option<string>)

  /** `getFilteredPage(filterUrlParams)` up to the request, with `today` the
      ISO date `TODAY`. */
  function FilteredQuery(es: Entries, today: string): Query {
    var withDefaults := WithDefaults(es);
    var range := GetParam(es, "activity_range");
    if range.Some? && range.value != "" then
      Query(WithoutKeysContaining(DeleteParam(withDefaults, "activity_range"), "valid"), Some(RangeClause(range.value, today)))
    else Query(withDefaults, None)
  }

  /** `getFilteredPage` up to the request: copies the caller's parameters, fills
      in the defaults, and rewrites an activity range into its clause. */
  method GetFilteredPage(filterUrlParams: UrlSearchParams, today: string) returns (query: Query)
    ensures query == FilteredQuery(filterUrlParams.entries, today)
  {
    var paramsCopy := new UrlSearchParams(filterUrlParams.entries);
    var activityRange := filterUrlParams.Get("activity_range");
    ghost var es := filterUrlParams.entries;

    if !filterUrlParams.Has("sort") { paramsCopy.Set("sort", "discharge_port"); }
    ghost var s1 := paramsCopy.entries;
    assert s1 == SetDefault(es, es, "sort", "discharge_port");
    if !filterUrlParams.Has("page") { paramsCopy.Set("page", "1"); }
    ghost var s2 := paramsCopy.entries;
    assert s2 == SetDefault(es, s1, "page", "1");
    PageSizeText();
    if !filterUrlParams.Has("limit") { paramsCopy.Set("limit", DecimalString(PageSize)); }
    ghost var s3 := paramsCopy.entries;
    assert s3 == SetDefault(es, s2, "limit", "15");
    if !filterUrlParams.Has("activity") { paramsCopy.Set("activity", "Active"); }
    assert paramsCopy.entries == SetDefault(es, s3, "activity", "Active");

    query := Query(paramsCopy.entries, None);
    if activityRange.Some? && activityRange.value != "" {
      paramsCopy.Delete("activity_range");
      paramsCopy := DeleteKeysIncludingString(paramsCopy, "valid");
      query := Query(paramsCopy.entries, Some(RangeClause(activityRange.value, today)));
    }
  }

  /** Filling one default: the named parameter is the original value when the
      caller gave one and the default otherwise, and no other parameter moves. */
  lemma FillOneSpec(original: Entries, copy: Entries, name: string, value: string, other: string)
    requires GetParam(copy, name) == GetParam(original, name)
    ensures var next := SetDefault(original, copy, name, value);
            GetParam(next, name) == (if HasParam(original, name) then GetParam(original, name) else Some(value))
            && (other != name ==> GetParam(next, other) == GetParam(copy, other))
  {
    SetParamSpec(copy, name, value);
    if other != name { GetAfterSet(copy, name, value, other); }
  }

  /** The defaults are inserted only for absent names: a value the caller gave
      is kept, a missing one gets its default, and any other parameter is read
      as before. */
  lemma WithDefaultsSpec(es: Entries, name: string)
    ensures name in {"sort", "page", "limit", "activity"} && HasParam(es, name) ==> GetParam(WithDefaults(es), name) == GetParam(es, name)
    ensures name == "sort" && !HasParam(es, name) ==> GetParam(WithDefaults(es), name) == Some("discharge_port")
    ensures name == "page" && !HasParam(es, name) ==> GetParam(WithDefaults(es), name) == Some("1")
    ensures name == "limit" && !HasParam(es, name) ==> GetParam(WithDefaults(es), name) == Some("15")
    ensures name == "activity" && !HasParam(es, name) ==> GetParam(WithDefaults(es), name) == Some("Active")
    ensures name !in {"sort", "page", "limit", "activity"} ==> GetParam(WithDefaults(es), name) == GetParam(es, name)
  {
    var s1 := SetDefault(es, es, "sort", "discharge_port");
    var s2 := SetDefault(es, s1, "page", "1");
    var s3 := SetDefault(es, s2, "limit", "15");
    FillOneSpec(es, es, "sort", "discharge_port", name);
    FillOneSpec(es, es, "sort", "discharge_port", "page");
    FillOneSpec(es, es, "sort", "discharge_port", "limit");
    FillOneSpec(es, es, "sort", "discharge_port", "activity");
    FillOneSpec(es, s1, "page", "1", name);
    FillOneSpec(es, s1, "page", "1", "limit");
    FillOneSpec(es, s1, "page", "1", "activity");
    FillOneSpec(es, s1, "page", "1", "sort");
    FillOneSpec(es, s2, "limit", "15", name);
    FillOneSpec(es, s2, "limit", "15", "activity");
    FillOneSpec(es, s2, "limit", "15", "sort");
    FillOneSpec(es, s2, "limit", "15", "page");
    FillOneSpec(es, s3, "activity", "Active", name);
  }

  /** Without a (non-empty) `activity_range` the query is the defaulted copy
      alone. With one, the query has no `activity_range` and no name containing
      "valid", every other parameter is read as in the defaulted copy, and the
      range's clause is appended. */
  lemma FilteredQuerySpec(es: Entries, today: string, name: string)
    ensures GetParam(es, "activity_range") in {None, Some("")} ==> FilteredQuery(es, today) == Query(WithDefaults(es), None)
    ensures GetParam(es, "activity_range").Some? && GetParam(es, "activity_range").value != "" ==>
              var q := FilteredQuery(es, today);
              && q.clause == Some(RangeClause(GetParam(es, "activity_range").value, today))
              && GetParam(q.params, name)
                 == if name == "activity_range" || Contains(name, "valid") then None
                    else GetParam(WithDefaults(es), name)
  {
    var range := GetParam(es, "activity_range");
    if range.Some? && range.value != "" {
      var d := DeleteParam(WithDefaults(es), "activity_range");
      WithoutKeysContainingGet(d, "valid", name);
      GetAfterDelete(WithDefaults(es), "activity_range", name);
    }
  }

  /** An `Expired` range drops a caller's own date filters and keeps the other
      filters. */
  lemma ExpiredQueryExample(es: Entries, today: string)
    requires GetParam(es, "activity_range") == Some("Expired")
    requires GetParam(es, "incoterm") == Some("FOB")
    ensures var q := FilteredQuery(es, today);
            && q.clause == Some("valid_until[lt]=" + today)
            && GetParam(q.params, "valid_until[gte]") == None
            && GetParam(q.params, "incoterm") == Some("FOB")
  {
    assert "valid_until[gte]"[0..5] == "valid";
    ContainsAt("valid_until[gte]", "valid", 0);
    IncotermLacksValid();
    ExpiredClause(today);
    FilteredQuerySpec(es, today, "incoterm");
    FilteredQuerySpec(es, today, "valid_until[gte]");
    WithDefaultsSpec(es, "incoterm");
  }

  lemma IncotermLacksValid()
    ensures !Contains("incoterm", "valid")
  {
    var s := "incoterm";
    assert Lacks(s, 'v') by {
      forall k | 0 <= k < |s| ensures s[k] != 'v' {
        assert s[k] in {'i', 'n', 'c', 'o', 't', 'e', 'r', 'm'};
      }
    }
    if Contains(s, "valid") {
      ContainsHead(s, "valid");
    }
  }

  // ---------------------------------------------------------------------------
  // getFilterValues and getFormValues

  /** The `data` object of a `distinct` response: each field name with its
      list of distinct values; a missing name reads as `undefined`. */
  type Distinct = map<string, seq<string>>

  /** A response whose `data` the two getters complete in place. */
  class DistinctResponse {
    var data: Option<Distinct>

    constructor (data: Option<Distinct>)
      ensures this.data == data
    {
      this.data := data;
    }
  }

  /** `getFilterValues`: when data is present, `activities` is set to
      `ACTIVITIES`. */
  method GetFilterValues(res: DistinctResponse)
    modifies res
    ensures old(res.data).None? ==> res.data == old(res.data)
    ensures old(res.data).Some? ==> res.data == Some(old(res.data).value["activities" := Activities])
  {
    if res.data.Some? {
      res.data := Some(res.data.value["activities" := Activities]);
    }
  }

  /** `obj[to] = obj[from]`: copies a list, or leaves `to` undefined. */
  function Alias(d: Distinct, to: string, from: string): (r: Distinct)
    ensures from in d ==> to in r && r[to] == d[from]
    ensures from !in d ==> to !in r
    ensures forall k :: k != to ==> (k in r <==> k in d) && (k in r ==> r[k] == d[k])
  {
    if from in d then d[to := d[from]] else d - {to}
  }

  /** The three aliases `getFormValues` assigns before building `suppliers`. */
  function WithAliases(d: Distinct): Distinct {
    var d1 := Alias(d, "currencies", "details.currency_code");
    var d2 := Alias(d1, "customs", "customs.discharge_port");
    Alias(d2, "item_lines", "details.item_line")
  }

  /** The four lists `suppliers` is made of; spreading a missing one throws. */
  const SupplierSources: seq<string> := ["sealine", "inland_carrier.discharge_port", "inland_carrier.loading_port", "customs"]

  /** The concatenation of the lists under `names`, or None when one is missing. */
  function Concat(d: Distinct, names: seq<string>): (r: Option<seq<string>>)
    ensures r.Some? <==> forall i :: 0 <= i < |names| ==> names[i] in d
    decreases |names|
  {
    if names == [] then Some([])
    else if names[0] !in d then None
    else
      match Concat(d, names[1..])
      case None => None
      case Some(rest) => Some(d[names[0]] + rest)
  }

  lemma ConcatCons(d: Distinct, names: seq<string>)
    requires names != [] && names[0] in d && Concat(d, names[1..]).Some?
    ensures Concat(d, names) == Some(d[names[0]] + Concat(d, names[1..]).value)
  {
  }

  /** `getFormValues`: completes the data in place and returns it, or fails
      with the `TypeError` of spreading a missing list. */
  method GetFormValues(res: DistinctResponse) returns (r: Result<Option<Distinct>, string>)
    modifies res
    ensures old(res.data).None? ==> res.data == old(res.data) && r == Success(res.data)
    ensures old(res.data).Some? ==>
              var d := WithAliases(old(res.data).value);
              match Concat(d, SupplierSources)
              case None => r.Failure? && res.data == Some(d)
              case Some(suppliers) => r == Success(res.data) && res.data == Some(d["suppliers" := suppliers])
  {
    if res.data.None? {
      return Success(res.data);
    }
    var d := res.data.value;
    d := Alias(d, "currencies", "details.currency_code");
    d := Alias(d, "customs", "customs.discharge_port");
    d := Alias(d, "item_lines", "details.item_line");
    res.data := Some(d);
    var suppliers := Concat(d, SupplierSources);
    if suppliers.None? {
      return Failure("TypeError");
    }
    res.data := Some(d["suppliers" := suppliers.value]);
    return Success(res.data);
  }

  /** The suppliers list is sealines, then the inland carriers' discharge and
      loading ports, then the customs discharge ports, in that order; the
      aliases read the dotted names. */
  lemma FormValuesSpec(d: Distinct)
    requires "sealine" in d && "inland_carrier.discharge_port" in d && "inland_carrier.loading_port" in d
    requires "customs.discharge_port" in d && "details.currency_code" in d && "details.item_line" in d
    ensures var a := WithAliases(d);
            && Concat(a, SupplierSources)
               == Some(d["sealine"] + d["inland_carrier.discharge_port"] + d["inland_carrier.loading_port"] + d["customs.discharge_port"])
            && a["currencies"] == d["details.currency_code"]
            && a["customs"] == d["customs.discharge_port"]
            && a["item_lines"] == d["details.item_line"]
  {
    var a := WithAliases(d);
    assert a["sealine"] == d["sealine"];
    assert a["inland_carrier.discharge_port"] == d["inland_carrier.discharge_port"];
    assert a["inland_carrier.loading_port"] == d["inland_carrier.loading_port"];
    assert a["customs"] == d["customs.discharge_port"];
    SuppliersConcat(a);
  }

  lemma SuppliersConcat(a: Distinct)
    requires "sealine" in a && "inland_carrier.discharge_port" in a && "inland_carrier.loading_port" in a && "customs" in a
    ensures Concat(a, SupplierSources)
         == Some(a["sealine"] + a["inland_carrier.discharge_port"] + a["inland_carrier.loading_port"] + a["customs"])
  {
    var s := SupplierSources;
    assert s[3..] == ["customs"] && s[2..] == ["inland_carrier.loading_port"] + s[3..];
    assert s[1..] == ["inland_carrier.discharge_port"] + s[2..] && s == ["sealine"] + s[1..];
    assert s[3..][1..] == [] && s[2..][1..] == s[3..] && s[1..][1..] == s[2..];
    assert Concat(a, s[3..][1..]) == Some([]);
    ConcatCons(a, s[3..]);
    var c3 := a["customs"];
    assert Concat(a, s[3..]) == Some(c3) by { assert c3 + [] == c3; }
    ConcatCons(a, s[2..]);
    var c2 := a["inland_carrier.loading_port"] + c3;
    assert Concat(a, s[2..]) == Some(c2);
    ConcatCons(a, s[1..]);
    var c1 := a["inland_carrier.discharge_port"] + c2;
    assert Concat(a, s[1..]) == Some(c1);
    ConcatCons(a, s);
    assert Concat(a, s) == Some(a["sealine"] + c1);
    assert a["sealine"] + c1 == a["sealine"] + a["inland_carrier.discharge_port"] + a["inland_carrier.loading_port"] + a["customs"];
  }
}
