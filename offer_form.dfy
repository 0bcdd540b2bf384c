/** The offer input form: the toggle behind the mode-of-shipping checkboxes
    and the submit handler that stamps the offer with the user's ids and
    refuses duplicate item lines. */
module OfferForm {
  import opened Wrappers
  import opened Types
  import opened ItemLineDuplicates

  /** `xs.filter(x => x !== v)`. */
  function Without(xs: seq<string>, v: string): (r: seq<string>)
    ensures v !in r
    ensures forall x :: x != v ==> (x in r <==> x in xs)
    ensures |r| <= |xs|
    decreases |xs|
  {
    if xs == [] then []
    else if xs[0] == v then Without(xs[1..], v)
    else [xs[0]] + Without(xs[1..], v)
  }

  /** `handleCheck(checkedValue, checkedValues)`: every occurrence removed when
      the value is there, the value appended otherwise. */
  function HandleCheck(checkedValue: string, checkedValues: seq<string>): (r: seq<string>)
    ensures checkedValue in r <==> checkedValue !in checkedValues
    ensures forall x :: x != checkedValue ==> (x in r <==> x in checkedValues)
  {
    if checkedValue in checkedValues then Without(checkedValues, checkedValue)
    else checkedValues + [checkedValue]
  }

  lemma {:induction false} WithoutAbsent(xs: seq<string>, v: string)
    requires v !in xs
    ensures Without(xs, v) == xs
    decreases |xs|
  {
    if xs != [] {
      WithoutAbsent(xs[1..], v);
      assert [xs[0]] + xs[1..] == xs;
    }
  }

  lemma {:induction false} WithoutTwice(xs: seq<string>, v: string)
    ensures Without(Without(xs, v), v) == Without(xs, v)
  {
    WithoutAbsent(Without(xs, v), v);
  }

  lemma {:induction false} WithoutAppend(xs: seq<string>, ys: seq<string>, v: string)
    ensures Without(xs + ys, v) == Without(xs, v) + Without(ys, v)
    decreases |xs|
  {
    if xs == [] {
      assert xs + ys == ys;
    } else {
      assert (xs + ys)[0] == xs[0];
      assert (xs + ys)[1..] == xs[1..] + ys;
      WithoutAppend(xs[1..], ys, v);
    }
  }

  /** The other modes keep their relative order: filtering the toggled value
      out of the list before and after the click gives the same list. */
  lemma HandleCheckKeepsOthers(checkedValue: string, checkedValues: seq<string>)
    ensures Without(HandleCheck(checkedValue, checkedValues), checkedValue) == Without(checkedValues, checkedValue)
  {
    if checkedValue in checkedValues {
      WithoutTwice(checkedValues, checkedValue);
    } else {
      WithoutAppend(checkedValues, [checkedValue], checkedValue);
      assert Without([checkedValue], checkedValue) == [];
      assert Without(checkedValues, checkedValue) + [] == Without(checkedValues, checkedValue);
    }
  }

  /** An absent value is appended at the end, and a second click on it gives
      back the original list. */
  lemma HandleCheckAbsent(checkedValue: string, checkedValues: seq<string>)
    requires checkedValue !in checkedValues
    ensures HandleCheck(checkedValue, checkedValues) == checkedValues + [checkedValue]
    ensures HandleCheck(checkedValue, HandleCheck(checkedValue, checkedValues)) == checkedValues
  {
    var once := checkedValues + [checkedValue];
    assert checkedValue in once by { assert once[|checkedValues|] == checkedValue; }
    WithoutAppend(checkedValues, [checkedValue], checkedValue);
    WithoutAbsent(checkedValues, checkedValue);
    assert Without([checkedValue], checkedValue) == [];
    assert checkedValues + [] == checkedValues;
  }

  /** A present value, even repeated, leaves on one click and comes back once,
      at the end, on the next. */
  lemma HandleCheckPresent(checkedValue: string, checkedValues: seq<string>)
    requires checkedValue in checkedValues
    ensures HandleCheck(checkedValue, HandleCheck(checkedValue, checkedValues)) == Without(checkedValues, checkedValue) + [checkedValue]
  {
  }

  /** The checkbox of a mode shows `mode` checked after a click exactly when it
      did not before. */
  lemma CheckboxFlips(mode: string, value: seq<string>)
    ensures (mode in HandleCheck(mode, value)) == !(mode in value)
  {
  }

  /** Ticking Rail and Barge, then unticking Rail. */
  lemma ModesExample()
    ensures HandleCheck("Rail", HandleCheck("Barge", HandleCheck("Rail", []))) == ["Barge"]
  {
    assert HandleCheck("Rail", []) == ["Rail"];
    var two := HandleCheck("Barge", ["Rail"]);
    assert "Barge" !in ["Rail"];
    assert two == ["Rail", "Barge"];
    assert "Rail" in two;
    assert two[1..] == ["Barge"];
    assert ["Barge"][1..] == [];
    assert Without(two, "Rail") == Without(["Barge"], "Rail") == ["Barge"] + Without([], "Rail");
  }

  // ---------------------------------------------------------------------------
  // submitForm

  /** The stamping `submitForm` does before its check: the logged-in user's
      ids; without a user the offer is left as it is. */
  function Prepare(data: Offer, user: Option<User>): (r: Offer)
    ensures r.details == data.details && r.mode == data.mode
    ensures user.Some? ==> r.senderInformation == user.value.id && r.company == user.value.companyId
    ensures user.None? ==> r == data
    ensures r.(senderInformation := data.senderInformation, company := data.company) == data
  {
    if user.Some? then data.(senderInformation := user.value.id, company := user.value.companyId) else data
  }

  class OfferInputForm {
    const user: Option<User>
    /** `errorFields`: the rows flagged on `item_line`, or undefined. */
    var errorFields: Option<seq<nat>>
    /** The offers handed to `onSubmit`, one entry per call. */
    var submitted: seq<Offer>

    constructor (user: Option<User>)
      ensures this.user == user && errorFields == None && submitted == []
    {
      this.user := user;
      errorFields := None;
      submitted := [];
    }

    /** `submitForm`: refuses duplicate item lines, flagging their rows, and
        otherwise clears the flags and submits the stamped offer once. */
    method SubmitForm(data: Offer)
      modifies this
      ensures var prepared := Prepare(data, user);
              var lines := ItemLineValues(data.details);
              && (Distinct(lines) ==> errorFields == None && submitted == old(submitted) + [prepared])
              && (!Distinct(lines) ==> errorFields == Some(ErrorRows(lines)) && submitted == old(submitted))
      ensures errorFields.Some? ==> errorFields.value != [] && DuplicatePairs(errorFields.value, ItemLineValues(data.details))
    {
      var prepared := Prepare(data, user);
      var errorRows := FindDuplicateItemLines(ItemLineValues(prepared.details));
      if |errorRows| > 0 {
        ErrorRowsArePairs(ItemLineValues(prepared.details));
        errorFields := Some(errorRows);
        return;
      } else {
        errorFields := None;
      }
      submitted := submitted + [prepared];
    }
  }
}
