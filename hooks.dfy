/** Three hooks: the URL-parameter filter input, the counter, and the status
    of an asynchronous call. Each is a small state machine whose state React
    keeps; here the state is the fields of a class. */
module Hooks {
  import opened Wrappers
  import opened Params

  // ---------------------------------------------------------------------------
  // useUrlParamFilter

  /** The URL parameters after `handleChange(newValue)` for the filter on
      `paramKey`: nothing when the value is the current one; otherwise the
      parameter is set (or deleted for an empty value) and `page` is dropped. */
  function FilterChange(es: Entries, paramKey: string, newValue: string): (r: Entries)
    ensures GetParam(es, paramKey) == Some(newValue) ==> r == es
    ensures GetParam(es, paramKey) != Some(newValue) ==>
              && GetParam(r, "page") == None
              && GetParam(r, paramKey) == (if newValue != "" && paramKey != "page" then Some(newValue) else None)
              && forall other :: other != paramKey && other != "page" ==> GetParam(r, other) == GetParam(es, other)
  {
    if GetParam(es, paramKey) == Some(newValue) then es
    else
      var edited := if newValue != "" then SetParam(es, paramKey, newValue) else DeleteParam(es, paramKey);
      SetParamSpec(es, paramKey, newValue);
      forall other | other != paramKey ensures GetParam(edited, other) == GetParam(es, other) {
        GetAfterSet(es, paramKey, newValue, other);
        GetAfterDelete(es, paramKey, other);
      }
      GetAfterDelete(es, paramKey, paramKey);
      forall other ensures GetParam(DeleteParam(edited, "page"), other) == if other == "page" then None else GetParam(edited, other) {
        GetAfterDelete(edited, "page", other);
      }
      DeleteParam(edited, "page")
  }

  /** Changing a filter twice to the same value is the same as changing it
      once: the second change finds the value already there. */
  lemma FilterChangeIdempotent(es: Entries, paramKey: string, newValue: string)
    requires newValue != "" && paramKey != "page"
    ensures FilterChange(FilterChange(es, paramKey, newValue), paramKey, newValue) == FilterChange(es, paramKey, newValue)
  {
  }

  class UrlParamFilter {
    /** The URL search parameters the router holds. */
    var urlParams: Entries
    /** The input's displayed value. */
    var value: string
    const paramKey: string

    constructor (urlParams: Entries, paramKey: string)
      ensures this.urlParams == urlParams && this.paramKey == paramKey && value == ""
    {
      this.urlParams := urlParams;
      this.paramKey := paramKey;
      value := "";
    }

    /** `defaultValue`: the parameter's current value. */
    function DefaultValue(): Option<string>
      reads this
    {
      GetParam(urlParams, paramKey)
    }

    /** The effect that copies the parameter into the input, "" when absent. */
    method SyncValue()
      modifies this
      ensures value == DefaultValue().GetOr("")
      ensures urlParams == old(urlParams)
    {
      value := DefaultValue().GetOr("");
    }

    /** `handleChange(newValue)`. */
    method HandleChange(newValue: string)
      modifies this
      ensures urlParams == FilterChange(old(urlParams), paramKey, newValue)
      ensures value == if old(DefaultValue()) == Some(newValue) then old(value) else newValue
    {
      if DefaultValue() == Some(newValue) {
        return;
      }
      var newUrlParams := new UrlSearchParams(urlParams);
      if newValue != "" {
        newUrlParams.Set(paramKey, newValue);
      } else {
        newUrlParams.Delete(paramKey);
      }
      value := newValue;
      newUrlParams.Delete("page");
      urlParams := newUrlParams.entries;
    }
  }

  // ---------------------------------------------------------------------------
  // useCounter

  /** The two buttons of the counter. */
  datatype CounterButton = Increment | Decrement

  /** A click as the rendered counter handles it: "-" is disabled at 0. */
  function Click(count: int, button: CounterButton): (next: int)
    ensures count >= 0 ==> next >= 0
    ensures -1 <= next - count <= 1
    ensures next > count <==> button == Increment
    ensures next == count <==> button == Decrement && count == 0
  {
    match button
    case Increment => count + 1
    case Decrement => if count == 0 then count else count - 1
  }

  /** The count after a series of clicks. */
  function Clicks(count: int, buttons: seq<CounterButton>): int
    decreases |buttons|
  {
    if buttons == [] then count else Clicks(Click(count, buttons[0]), buttons[1..])
  }

  /** Starting from a non-negative count, no series of clicks makes it
      negative. */
  lemma {:induction false} ClicksNeverNegative(count: int, buttons: seq<CounterButton>)
    requires count >= 0
    ensures Clicks(count, buttons) >= 0
    decreases |buttons|
  {
    if buttons != [] {
      ClicksNeverNegative(Click(count, buttons[0]), buttons[1..]);
    }
  }

  /** From 1, "-" gives 0 and "+" gives 1 again; a second "-" at 0 does
      nothing. */
  lemma CounterExample()
    ensures Clicks(1, [Decrement, Increment]) == 1
    ensures Clicks(1, [Decrement]) == 0
    ensures Clicks(1, [Decrement, Decrement]) == 0
  {
  }

  class Counter {
    var count: int

    /** `useState(1)`. */
    constructor ()
      ensures count == 1
    {
      count := 1;
    }

    /** `handleIncrement`. */
    method HandleIncrement()
      modifies this
      ensures count == old(count) + 1
    {
      count := count + 1;
    }

    /** `handleDecrement`. */
    method HandleDecrement()
      modifies this
      ensures count == old(count) - 1
    {
      count := count - 1;
    }

    /** A click on a rendered button; "-" is disabled at 0. */
    method ClickButton(button: CounterButton)
      modifies this
      ensures count == Click(old(count), button)
      ensures old(count) >= 0 ==> count >= 0
    {
      match button
      case Increment => HandleIncrement();
      case Decrement =>
        if count != 0 {
          HandleDecrement();
        }
    }
  }

  // ---------------------------------------------------------------------------
  // useAsync

  datatype AsyncStatus = Idle | Loading | Success | Error

  /** The statuses `execute` can move between. */
  predicate Transition(from: AsyncStatus, to: AsyncStatus) {
    (to == Loading && from != Loading) || (from == Loading && (to == AsyncStatus.Success || to == Error))
  }

  class AsyncHook<T, E> {
    var status: AsyncStatus
    var value: Option<T>
    var error: Option<E>

    /** What each status says about the stored value and error. */
    predicate Valid()
      reads this
    {
      && (status == Idle || status == Loading ==> value.None? && error.None?)
      && (status == AsyncStatus.Success ==> value.Some? && error.None?)
      && (status == Error ==> value.None? && error.Some?)
    }

    constructor ()
      ensures status == Idle && value == None && error == None && Valid()
    {
      status := Idle;
      value := None;
      error := None;
    }

    /** The synchronous start of `execute`. */
    method Begin()
      modifies this
      ensures status == Loading && value == None && error == None && Valid()
      ensures old(status) != Loading ==> Transition(old(status), status)
    {
      status := Loading;
      value := None;
      error := None;
    }

    /** The settlement of the awaited call, resolved or rejected. */
    method Settle(outcome: Result<T, E>) returns (value': Option<T>, status': AsyncStatus)
      requires status == Loading && Valid()
      modifies this
      ensures Valid() && Transition(old(status), status)
      ensures outcome.Success? ==> value == Some(outcome.value) && status == AsyncStatus.Success && value' == value && status' == AsyncStatus.Success
      ensures outcome.Failure? ==> error == Some(outcome.error) && status == Error && value' == None && status' == Error
    {
      match outcome
      case Success(response) =>
        value := Some(response);
        status := AsyncStatus.Success;
        return value, AsyncStatus.Success;
      case Failure(e) =>
        error := Some(e);
        status := Error;
        return None, Error;
    }

    /** `execute`, with the outcome of the awaited function as a parameter. */
    method Execute(outcome: Result<T, E>) returns (value': Option<T>, status': AsyncStatus)
      modifies this
      ensures Valid()
      ensures outcome.Success? ==> value == Some(outcome.value) && error == None && status == AsyncStatus.Success
                                   && value' == value && status' == AsyncStatus.Success
      ensures outcome.Failure? ==> value == None && error == Some(outcome.error) && status == Error
                                   && value' == None && status' == Error
    {
      Begin();
      value', status' := Settle(outcome);
    }
  }
}
