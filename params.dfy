/** The browser's `URLSearchParams`, following section 6.2 (URLSearchParams class)
    of the WHATWG URL Standard: an ordered list of name-value pairs in which a name
    may repeat. `get` returns the first value, `delete` removes every pair with the
    name, and `set` overwrites the first pair with the name and removes the others,
    or appends when there is none. Percent-encoding is not modelled. */
module Params {
  import opened Wrappers

  type Entry = (string, string)
  type Entries = seq<Entry>

  /** `has(name)` */
  predicate HasParam(es: Entries, name: string) {
    exists i :: 0 <= i < |es| && es[i].0 == name
  }

  /** The index of the first pair named `name`. */
  function FirstIndex(es: Entries, name: string): (i: nat)
    requires HasParam(es, name)
    ensures i < |es| && es[i].0 == name
    ensures forall j :: 0 <= j < i ==> es[j].0 != name
  {
    if es[0].0 == name then 0 else FirstIndex(es[1..], name) + 1
  }

  /** `get(name)`: the value of the first pair named `name`, or null. */
  function GetParam(es: Entries, name: string): (r: Option<string>)
    ensures r.Some? <==> HasParam(es, name)
    ensures r.Some? ==> r.value == es[FirstIndex(es, name)].1
  {
    if es == [] then None
    else if es[0].0 == name then Some(es[0].1)
    else GetParam(es[1..], name)
  }

  /** The pairs whose names are not in `names`, in their original order. */
  function DropNames(es: Entries, names: set<string>): (r: Entries)
    ensures |r| <= |es|
  {
    if es == [] then []
    else (if es[0].0 in names then [] else [es[0]]) + DropNames(es[1..], names)
  }

  /** `delete(name)`: every pair named `name` is removed. */
  function DeleteParam(es: Entries, name: string): (r: Entries)
  {
    DropNames(es, {name})
  }

  /** `set(name, value)`. */
  function SetParam(es: Entries, name: string, value: string): (r: Entries)
  {
    if HasParam(es, name) then SetFirst(es, name, value) else es + [(name, value)]
  }

  function SetFirst(es: Entries, name: string, value: string): (r: Entries)
    requires HasParam(es, name)
    ensures |r| > FirstIndex(es, name)
    decreases |es|
  {
    if es[0].0 == name then [(name, value)] + DeleteParam(es[1..], name)
    else
      assert HasParam(es[1..], name) by { assert es[1..][FirstIndex(es, name) - 1].0 == name; }
      [es[0]] + SetFirst(es[1..], name, value)
  }

  /** The names in order, with repetitions: `keys()`. */
  function Names(es: Entries): (r: seq<string>)
    ensures |r| == |es| && forall i :: 0 <= i < |es| ==> r[i] == es[i].0
  {
    if es == [] then [] else [es[0].0] + Names(es[1..])
  }

  lemma HasParamTail(es: Entries, name: string)
    requires es != [] && es[0].0 != name
    ensures HasParam(es, name) <==> HasParam(es[1..], name)
  {
    if HasParam(es, name) {
      assert es[1..][FirstIndex(es, name) - 1].0 == name;
    }
    if HasParam(es[1..], name) {
      var i := FirstIndex(es[1..], name);
      assert es[i + 1].0 == name;
    }
  }

  /** The pairs kept by `DropNames` are exactly those whose name is not dropped. */
  lemma {:induction false} DropNamesMembers(es: Entries, names: set<string>)
    ensures forall e :: e in DropNames(es, names) <==> e in es && e.0 !in names
  {
    if es != [] {
      DropNamesMembers(es[1..], names);
      assert es == [es[0]] + es[1..];
    }
  }

  /** Dropping no names keeps every pair. */
  lemma {:induction false} DropNamesNone(es: Entries)
    ensures DropNames(es, {}) == es
  {
    if es != [] {
      DropNamesNone(es[1..]);
      assert es == [es[0]] + es[1..];
    }
  }

  lemma {:induction false} DropNamesAppend(a: Entries, b: Entries, names: set<string>)
    ensures DropNames(a + b, names) == DropNames(a, names) + DropNames(b, names)
  {
    if a != [] {
      assert (a + b)[1..] == a[1..] + b;
      assert (a + b)[0] == a[0];
      DropNamesAppend(a[1..], b, names);
    } else {
      assert a + b == b;
    }
  }

  lemma {:induction false} DropNamesTwice(es: Entries, a: set<string>, b: set<string>)
    ensures DropNames(DropNames(es, a), b) == DropNames(es, a + b)
  {
    if es != [] {
      var head: Entries := if es[0].0 in a then [] else [es[0]];
      DropNamesAppend(head, DropNames(es[1..], a), b);
      DropNamesTwice(es[1..], a, b);
    }
  }

  lemma {:induction false} GetAfterDropNames(es: Entries, names: set<string>, name: string)
    ensures GetParam(DropNames(es, names), name) == if name in names then None else GetParam(es, name)
  {
    if es != [] {
      GetAfterDropNames(es[1..], names, name);
      var rest := DropNames(es[1..], names);
      if es[0].0 in names {
        assert DropNames(es, names) == rest;
      } else {
        assert DropNames(es, names) == [es[0]] + rest;
        assert ([es[0]] + rest)[1..] == rest;
      }
    }
  }

  /** After `delete(name)` no pair has that name, and every other name's value is
      as it was. */
  lemma GetAfterDelete(es: Entries, name: string, other: string)
    ensures GetParam(DeleteParam(es, name), other) == if other == name then None else GetParam(es, other)
  {
    GetAfterDropNames(es, {name}, other);
  }

  /** Deleting is idempotent. */
  lemma DeleteTwice(es: Entries, name: string)
    ensures DeleteParam(DeleteParam(es, name), name) == DeleteParam(es, name)
  {
    DropNamesTwice(es, {name}, {name});
    assert {name} + {name} == {name};
  }

  /** Deletions of two names commute. */
  lemma DeleteCommutes(es: Entries, a: string, b: string)
    ensures DeleteParam(DeleteParam(es, a), b) == DeleteParam(DeleteParam(es, b), a)
  {
    DropNamesTwice(es, {a}, {b});
    DropNamesTwice(es, {b}, {a});
    assert {a} + {b} == {b} + {a};
  }

  /** The number of pairs named `name`. */
  function CountName(es: Entries, name: string): nat {
    if es == [] then 0 else (if es[0].0 == name then 1 else 0) + CountName(es[1..], name)
  }

  lemma {:induction false} CountAbsent(es: Entries, name: string)
    requires !HasParam(es, name)
    ensures CountName(es, name) == 0
  {
    if es != [] {
      HasParamTail(es, name);
      CountAbsent(es[1..], name);
    }
  }

  lemma {:induction false} CountAppend(a: Entries, b: Entries, name: string)
    ensures CountName(a + b, name) == CountName(a, name) + CountName(b, name)
  {
    if a != [] {
      assert (a + b)[1..] == a[1..] + b;
      assert (a + b)[0] == a[0];
      CountAppend(a[1..], b, name);
    } else {
      assert a + b == b;
    }
  }

  lemma DeleteRemovesAll(es: Entries, name: string)
    ensures !HasParam(DeleteParam(es, name), name)
  {
    GetAfterDelete(es, name, name);
  }

  /** The pairs of `set(name, value)` with names other than `name` are exactly
      those before the call, in the same order. */
  lemma {:induction false} SetFirstKeepsOthers(es: Entries, name: string, value: string)
    requires HasParam(es, name)
    ensures DeleteParam(SetFirst(es, name, value), name) == DeleteParam(es, name)
    ensures CountName(SetFirst(es, name, value), name) == 1
    ensures SetFirst(es, name, value)[FirstIndex(es, name)] == (name, value)
    decreases |es|
  {
    var r := SetFirst(es, name, value);
    if es[0].0 == name {
      var rest := DeleteParam(es[1..], name);
      assert r == [(name, value)] + rest;
      DeleteTwice(es[1..], name);
      DeleteRemovesAll(es[1..], name);
      CountAbsent(rest, name);
      assert r[1..] == rest;
    } else {
      HasParamTail(es, name);
      SetFirstKeepsOthers(es[1..], name, value);
      assert r[1..] == SetFirst(es[1..], name, value);
    }
  }

  /** With exactly one pair named `name`, that pair is the first one. */
  lemma {:induction false} CountPositive(es: Entries, name: string, i: nat)
    requires i < |es| && es[i].0 == name
    ensures CountName(es, name) > 0
  {
    if i > 0 { CountPositive(es[1..], name, i - 1); }
  }

  /** `set` makes `get(name)` return the new value, keeps exactly one pair with
      that name (at the place of the first old one, or at the end), and leaves
      the other pairs and their order unchanged. */
  lemma SetParamSpec(es: Entries, name: string, value: string)
    ensures GetParam(SetParam(es, name, value), name) == Some(value)
    ensures CountName(SetParam(es, name, value), name) == 1
    ensures DeleteParam(SetParam(es, name, value), name) == DeleteParam(es, name)
    ensures HasParam(es, name) ==> SetParam(es, name, value)[FirstIndex(es, name)] == (name, value)
    ensures !HasParam(es, name) ==> SetParam(es, name, value) == es + [(name, value)]
  {
    var r := SetParam(es, name, value);
    if HasParam(es, name) {
      SetFirstKeepsOthers(es, name, value);
      var k := FirstIndex(es, name);
      assert r[k].0 == name;
      forall j | 0 <= j < k ensures r[j].0 != name {
        SetFirstPrefix(es, name, value, j);
      }
      FirstIndexUnique(r, name, k);
    } else {
      CountAbsent(es, name);
      CountAppend(es, [(name, value)], name);
      DropNamesAppend(es, [(name, value)], {name});
      assert r[|es|].0 == name;
      forall j | 0 <= j < |es| ensures r[j].0 != name {
        assert r[j] == es[j];
      }
      FirstIndexUnique(r, name, |es|);
    }
  }

  lemma {:induction false} SetFirstPrefix(es: Entries, name: string, value: string, j: nat)
    requires HasParam(es, name) && j < FirstIndex(es, name)
    ensures SetFirst(es, name, value)[j] == es[j]
  {
    HasParamTail(es, name);
    if j > 0 { SetFirstPrefix(es[1..], name, value, j - 1); }
  }

  lemma FirstIndexUnique(es: Entries, name: string, k: nat)
    requires k < |es| && es[k].0 == name
    requires forall j :: 0 <= j < k ==> es[j].0 != name
    ensures HasParam(es, name) && FirstIndex(es, name) == k
    ensures GetParam(es, name) == Some(es[k].1)
  {
  }

  /** Setting one name leaves every other name's value as it was. */
  lemma GetAfterSet(es: Entries, name: string, value: string, other: string)
    requires other != name
    ensures GetParam(SetParam(es, name, value), other) == GetParam(es, other)
  {
    SetParamSpec(es, name, value);
    GetAfterDelete(SetParam(es, name, value), name, other);
    GetAfterDelete(es, name, other);
  }

  /** A mutable `URLSearchParams` object. `new URLSearchParams(other)` copies the
      pairs of `other`; `set` and `delete` change the object in place. */
  class UrlSearchParams {
    var entries: Entries

    constructor (init: Entries)
      ensures entries == init
    {
      entries := init;
    }

    function Get(name: string): Option<string>
      reads this
    {
      GetParam(entries, name)
    }

    predicate Has(name: string)
      reads this
    {
      HasParam(entries, name)
    }

    method Set(name: string, value: string)
      modifies this
      ensures entries == SetParam(old(entries), name, value)
      ensures Get(name) == Some(value)
      ensures forall other :: other != name ==> Get(other) == old(Get(other))
    {
      entries := SetParam(entries, name, value);
      SetParamSpec(old(entries), name, value);
      forall other | other != name ensures Get(other) == old(Get(other)) {
        GetAfterSet(old(entries), name, value, other);
      }
    }

    method Delete(name: string)
      modifies this
      ensures entries == DeleteParam(old(entries), name)
      ensures forall other :: other != name ==> Get(other) == old(Get(other))
    {
      entries := DeleteParam(entries, name);
      forall other | other != name ensures Get(other) == old(Get(other)) {
        GetAfterDelete(old(entries), name, other);
      }
    }
  }
}
