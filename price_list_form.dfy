/** The price-list form modal: the days the date picker disables, the guard
    and request of the free-interval lookup, and the submit handler that
    stamps the form data and refuses duplicate item lines. Days are whole
    numbers. */
module PriceListForm {
  import opened Wrappers
  import opened Types
  import opened ItemLineDuplicates

  // ---------------------------------------------------------------------------
  // getIntervalDates

  /** One entry of `validIntervals`. */
  datatype Interval = Interval(valid_from: int, valid_until: int)

  /** An element of the free-interval response: `validIntervals` may be
      missing. */
  datatype FreeInterval = FreeInterval(validIntervals: Option<seq<Interval>>)

  /** `eachDayOfInterval({start, end})`: the days from `start` to `end`, one
      after the other; an interval that ends before it starts is a
      `RangeError` (None). */
  function EachDay(start: int, end: int): (r: Option<seq<int>>)
    ensures r.None? <==> start > end
    ensures r.Some? ==> |r.value| == end - start + 1
    ensures r.Some? ==> forall k :: 0 <= k < |r.value| ==> r.value[k] == start + k
  {
    if start > end then None else Some(seq(end - start + 1, k => start + k))
  }

  /** The `flatMap` over the intervals: each interval's days, in order; the
      first failing interval makes the whole expansion fail. */
  function FlatDays(intervals: seq<Interval>): Option<seq<int>>
    decreases |intervals|
  {
    if intervals == [] then Some([])
    else
      var first := EachDay(intervals[0].valid_from, intervals[0].valid_until);
      var rest := FlatDays(intervals[1..]);
      if first.Some? && rest.Some? then Some(first.value + rest.value) else None
  }

  /** `getIntervalDates(validIntervals = [])`. */
  function GetIntervalDates(validIntervals: Option<seq<Interval>>): Option<seq<int>> {
    FlatDays(validIntervals.GetOr([]))
  }

  /** `disabledDates`: the days of the first element's `validIntervals`, none
      when there is no response, no first element, or no list. */
  function DisabledDates(value: Option<seq<FreeInterval>>): Option<seq<int>> {
    if value.None? || value.value == [] then GetIntervalDates(None)
    else GetIntervalDates(value.value[0].validIntervals)
  }

  predicate Ordered(i: Interval) {
    i.valid_from <= i.valid_until
  }

  predicate Covers(intervals: seq<Interval>, day: int) {
    exists k :: 0 <= k < |intervals| && intervals[k].valid_from <= day <= intervals[k].valid_until
  }

  lemma {:induction false} FlatDaysSpec(intervals: seq<Interval>)
    ensures FlatDays(intervals).Some? <==> forall k :: 0 <= k < |intervals| ==> Ordered(intervals[k])
    ensures FlatDays(intervals).Some? ==> forall day :: day in FlatDays(intervals).value <==> Covers(intervals, day)
    decreases |intervals|
  {
    if intervals != [] {
      var head, tail := intervals[0], intervals[1..];
      FlatDaysSpec(tail);
      assert forall k :: 1 <= k < |intervals| ==> intervals[k] == tail[k - 1];
      if FlatDays(intervals).Some? {
        var days := EachDay(head.valid_from, head.valid_until).value;
        forall day ensures day in FlatDays(intervals).value <==> Covers(intervals, day) {
          if day in days {
            assert days[day - head.valid_from] == day;
          }
          if Covers(intervals, day) {
            var k :| 0 <= k < |intervals| && intervals[k].valid_from <= day <= intervals[k].valid_until;
            if k == 0 {
              assert days[day - head.valid_from] == day;
            } else {
              assert Covers(tail, day);
            }
          }
          if Covers(tail, day) {
            var k :| 0 <= k < |tail| && tail[k].valid_from <= day <= tail[k].valid_until;
            assert intervals[k + 1] == tail[k];
          }
        }
      }
    }
  }

  /** The days of two runs of intervals are the days of the first run followed
      by those of the second. */
  lemma {:induction false} FlatDaysAppend(xs: seq<Interval>, ys: seq<Interval>)
    ensures FlatDays(xs + ys).Some? <==> FlatDays(xs).Some? && FlatDays(ys).Some?
    ensures FlatDays(xs + ys).Some? ==> FlatDays(xs + ys).value == FlatDays(xs).value + FlatDays(ys).value
    decreases |xs|
  {
    if xs == [] {
      assert xs + ys == ys;
    } else {
      assert (xs + ys)[0] == xs[0];
      assert (xs + ys)[1..] == xs[1..] + ys;
      FlatDaysAppend(xs[1..], ys);
    }
  }

  /** A day is disabled iff some valid interval contains it; a missing list
      disables nothing; the expansion fails iff some interval ends before it
      starts. */
  lemma GetIntervalDatesSpec(validIntervals: Option<seq<Interval>>)
    ensures validIntervals.None? ==> GetIntervalDates(validIntervals) == Some([])
    ensures validIntervals.Some? ==>
              (GetIntervalDates(validIntervals).Some? <==> forall k :: 0 <= k < |validIntervals.value| ==> Ordered(validIntervals.value[k]))
    ensures validIntervals.Some? && GetIntervalDates(validIntervals).Some? ==>
              forall day :: day in GetIntervalDates(validIntervals).value <==> Covers(validIntervals.value, day)
  {
    FlatDaysSpec(validIntervals.GetOr([]));
  }

  /** Two intervals of two and three days give five days, in input order. */
  lemma IntervalDatesExample()
    ensures GetIntervalDates(Some([Interval(10, 11), Interval(3, 5)])) == Some([10, 11, 3, 4, 5])
    ensures DisabledDates(Some([])) == Some([])
  {
    var a, b := Interval(10, 11), Interval(3, 5);
    assert [a, b] == [a] + [b];
    FlatDaysAppend([a], [b]);
    assert [a][1..] == [] && [b][1..] == [];
    var da, db := EachDay(10, 11).value, EachDay(3, 5).value;
    assert da == [10, 11] by { assert |da| == 2 && da[0] == 10 && da[1] == 11; }
    assert db == [3, 4, 5] by { assert |db| == 3 && db[0] == 3 && db[1] == 4 && db[2] == 5; }
    assert da + [] == da && db + [] == db;
    assert FlatDays([a]) == Some(da);
    assert FlatDays([b]) == Some(db);
    assert FlatDays([a] + [b]) == Some(da + db);
    assert da + db == [10, 11, 3, 4, 5];
    assert FlatDays([a, b]) == Some(da + db);
    assert GetIntervalDates(Some([a, b])) == FlatDays([a, b]);
  }

  // ---------------------------------------------------------------------------
  // shouldFetchIntervals and the interval request

  /** A debounced field value counts when it is defined and not empty. */
  predicate Filled(v: Option<string>) {
    v.Some? && v.value != ""
  }

  /** `categoryValues?.every(key => key && key !== "")`. `useDebounce` starts
      from the watched values, which are an array from the first render, so
      `None` stands only for the defensive `?.`, which yields undefined
      (false). */
  predicate ShouldFetchIntervals(categoryValues: Option<seq<Option<string>>>) {
    categoryValues.Some? && forall k :: 0 <= k < |categoryValues.value| ==> Filled(categoryValues.value[k])
  }

  /** Nothing is fetched while a field is empty or undefined, nor in the
      `None` case the `?.` guards against. Filled values fetch at once, so
      a form opened with filled default values fetches on its first render. A
      category without fields fetches at once too, since `every` holds on an
      empty array. */
  lemma ShouldFetchExamples()
    ensures !ShouldFetchIntervals(None)
    ensures ShouldFetchIntervals(Some([]))
    ensures !ShouldFetchIntervals(Some([Some("DAP"), Some("")]))
    ensures !ShouldFetchIntervals(Some([Some("DAP"), None]))
    ensures ShouldFetchIntervals(Some([Some("DAP"), Some("Hamburg")]))
  {
    var blank: seq<Option<string>> := [Some("DAP"), Some("")];
    var missing: seq<Option<string>> := [Some("DAP"), None];
    assert !Filled(blank[1]) && !Filled(missing[1]);
    assert Filled(Some("DAP")) && Filled(Some("Hamburg"));
  }

  /** The date inputs are disabled while the intervals are not fetched. */
  predicate DateInputsDisabled(categoryValues: Option<seq<Option<string>>>) {
    !ShouldFetchIntervals(categoryValues)
  }

  /** `categoryValues[index]`, undefined past the end (the debounced values can
      still belong to the previous category's fields). */
  function ValueAt(values: seq<Option<string>>, index: nat): Option<string> {
    if index < |values| then values[index] else None
  }

  /** No later field of the category has the same key. */
  predicate LastOccurrence(keys: seq<string>, i: nat)
    requires i < |keys|
  {
    forall j :: i < j < |keys| ==> keys[j] != keys[i]
  }

  /** The request the effect builds: `{category}`, then each field key set to
      the debounced value at its index. */
  method BuildIntervalRequest(category: string, inputKeys: seq<string>, values: seq<Option<string>>)
    returns (request: map<string, Option<string>>)
    ensures request.Keys == {"category"} + (set k | k in inputKeys)
    ensures "category" !in inputKeys ==> request["category"] == Some(category)
    ensures forall i :: 0 <= i < |inputKeys| && LastOccurrence(inputKeys, i) ==> request[inputKeys[i]] == ValueAt(values, i)
  {
    request := map["category" := Some(category)];
    assert inputKeys[..0] == [];
    for index := 0 to |inputKeys|
      invariant RequestSoFar(request, category, inputKeys[..index], values)
    {
      RequestStep(request, category, inputKeys, values, index);
      request := request[inputKeys[index] := ValueAt(values, index)];
    }
    assert inputKeys[..|inputKeys|] == inputKeys;
  }

  /** The request once the fields `keys` have been written: the category, then
      each key holding the value of its last field. */
  ghost predicate RequestSoFar(request: map<string, Option<string>>, category: string,
                               keys: seq<string>, values: seq<Option<string>>) {
    && request.Keys == {"category"} + (set k | k in keys)
    && ("category" !in keys ==> request["category"] == Some(category))
    && forall i :: 0 <= i < |keys| && LastOccurrence(keys, i) ==> request[keys[i]] == ValueAt(values, i)
  }

  /** Writing one more field keeps the request in step with the keys seen. */
  lemma {:induction false} RequestStep(request: map<string, Option<string>>, category: string,
                                       inputKeys: seq<string>, values: seq<Option<string>>, index: nat)
    requires index < |inputKeys| && RequestSoFar(request, category, inputKeys[..index], values)
    ensures RequestSoFar(request[inputKeys[index] := ValueAt(values, index)], category, inputKeys[..index + 1], values)
  {
    var before := inputKeys[..index];
    var k := inputKeys[index];
    assert inputKeys[..index + 1] == before + [k];
    assert forall i :: 0 <= i < |before| ==> before[i] in request;
    RequestStepValues(request, before, k, values);
  }

  /** The values part of one step: earlier keys other than `k` keep their last
      value, and `k` now holds the value of its newest field. */
  lemma {:induction false} RequestStepValues(request: map<string, Option<string>>, before: seq<string>,
                                             k: string, values: seq<Option<string>>)
    requires forall i :: 0 <= i < |before| ==> before[i] in request
    requires forall i :: 0 <= i < |before| && LastOccurrence(before, i) ==> request[before[i]] == ValueAt(values, i)
    ensures var keys := before + [k];
            var next := request[k := ValueAt(values, |before|)];
            forall i :: 0 <= i < |keys| && LastOccurrence(keys, i) ==> next[keys[i]] == ValueAt(values, i)
  {
    var keys := before + [k];
    var next := request[k := ValueAt(values, |before|)];
    forall i | 0 <= i < |keys| && LastOccurrence(keys, i) ensures next[keys[i]] == ValueAt(values, i) {
      if i < |before| {
        assert keys[|before|] == k && keys[i] == before[i];
        assert LastOccurrence(before, i) by {
          forall j | i < j < |before| ensures before[j] != before[i] {
            assert keys[j] == before[j];
          }
        }
      }
    }
  }

  /** The effect: the request is sent exactly when the date inputs are
      enabled. */
  method IntervalsEffect(category: string, inputKeys: seq<string>, categoryValues: Option<seq<Option<string>>>)
    returns (sent: Option<map<string, Option<string>>>)
    ensures sent.Some? <==> !DateInputsDisabled(categoryValues)
    ensures sent.Some? ==> sent.value.Keys == {"category"} + (set k | k in inputKeys)
    ensures sent.Some? ==> forall i :: 0 <= i < |inputKeys| && LastOccurrence(inputKeys, i) ==>
                             Filled(sent.value[inputKeys[i]]) || i >= |categoryValues.value|
    ensures sent.Some? ==> forall i :: 0 <= i < |inputKeys| && LastOccurrence(inputKeys, i) ==>
                             sent.value[inputKeys[i]] == ValueAt(categoryValues.value, i)
  {
    if ShouldFetchIntervals(categoryValues) {
      var request := BuildIntervalRequest(category, inputKeys, categoryValues.value);
      sent := Some(request);
    } else {
      sent := None;
    }
  }

  // ---------------------------------------------------------------------------
  // submitForm

  /** The stamping `submitForm` does before its check: the logged-in user's ids
      and the modal's category. */
  function Prepare(data: PriceList, user: Option<User>, category: string): (r: PriceList)
    ensures r.category == category && r.details == data.details
    ensures user.Some? ==> r.senderInformation == user.value.id && r.company == user.value.companyId
    ensures user.None? ==> r.senderInformation == data.senderInformation && r.company == data.company
    ensures r.(category := data.category, senderInformation := data.senderInformation, company := data.company) == data
  {
    var stamped := if user.Some? then data.(senderInformation := user.value.id, company := user.value.companyId) else data;
    stamped.(category := category)
  }

  class PriceListFormModal {
    const category: string
    const user: Option<User>
    /** `errorFields`: the rows flagged on `item_line`, or undefined. */
    var errorFields: Option<seq<nat>>
    /** The data handed to `onSubmit`, one entry per call. */
    var submitted: seq<PriceList>

    constructor (category: string, user: Option<User>)
      ensures this.category == category && this.user == user
      ensures errorFields == None && submitted == []
    {
      this.category := category;
      this.user := user;
      errorFields := None;
      submitted := [];
    }

    /** `submitForm`: refuses duplicate item lines, flagging their rows, and
        otherwise clears the flags and submits the stamped data once. */
    method SubmitForm(data: PriceList)
      modifies this
      ensures var prepared := Prepare(data, user, category);
              var lines := ItemLineValues(data.details);
              && (Distinct(lines) ==> errorFields == None && submitted == old(submitted) + [prepared])
              && (!Distinct(lines) ==> errorFields == Some(ErrorRows(lines)) && submitted == old(submitted))
      ensures errorFields.Some? ==> errorFields.value != [] && DuplicatePairs(errorFields.value, ItemLineValues(data.details))
    {
      var prepared := Prepare(data, user, category);
      var errorRows := FindDuplicateItemLines(ItemLineValues(prepared.details));
      if |errorRows| > 0 {
        ErrorRowsArePairs(ItemLineValues(prepared.details));
        errorFields := Some(errorRows);
        return;
      } else {
        errorFields := None;
      }
      submitted := submitted + [prepared];
    }
  }
}
