/** The formatting and validation helpers of the front end's utility module:
    price formatting, deep equality with ignored keys, the e-mail top-level-domain
    check, the password rules, deletion of URL parameters by substring, and the
    offer title of a price-list category. */
module UtilsHelpers {
  import opened Wrappers
  import opened Text
  import opened Params
  import opened GenericObjects
  import opened JsMath

  // ---------------------------------------------------------------------------
  // formatPrice

  /** `x.toFixed()` (no fraction digits) for |x| below 10^21: the magnitude is
      rounded to the nearest integer with halves rounded up, and a minus sign is
      written for every negative `x`, so that -0.4 gives "-0". */
  function ToFixed(x: real): (s: string)
    ensures |s| > 0 && (s[0] == '-' <==> x < 0.0)
    ensures var digits := if x < 0.0 then s[1..] else s;
            AllDigits(digits) && DigitsValue(digits) == Round(if x < 0.0 then -x else x)
  {
    DecimalStringRoundTrip(Round(if x < 0.0 then -x else x));
    if x < 0.0 then "-" + DecimalString(Round(-x)) else DecimalString(Round(x))
  }

  /** The number of consecutive digits at the start of `t`. */
  function DigitRun(t: string): (n: nat)
    ensures n <= |t|
  {
    if t == [] || !IsDigit(t[0]) then 0 else 1 + DigitRun(t[1..])
  }

  /** Whether `/\B(?=(\d{3})+(?!\d))/` matches at the start of `t` when the
      character before it is a word character exactly if `prevWord`: `\B` asks
      that both sides agree on being word characters, and the lookahead asks for
      a positive multiple of three digits followed by a non-digit or the end. */
  predicate CommaHere(prevWord: bool, t: string) {
    var nextWord := |t| > 0 && IsWordChar(t[0]);
    prevWord == nextWord && DigitRun(t) >= 3 && Mult3(DigitRun(t))
  }

  /** `replace(/\B(?=(\d{3})+(?!\d))/g, ",")` applied to `t`, where `prevWord`
      says whether the character before `t` is a word character (false at the
      start of the string). Every position is tried once, and a "," is inserted
      wherever the pattern matches. */
  function InsertCommas(prevWord: bool, t: string): string
    decreases |t|
  {
    (if CommaHere(prevWord, t) then "," else "")
    + (if t == [] then "" else [t[0]] + InsertCommas(IsWordChar(t[0]), t[1..]))
  }

  /** `formatPrice(price)`. */
  function FormatPrice(price: real): string {
    InsertCommas(false, ToFixed(price))
  }

  /** Commas before every group of three digits: the reference grouping of a
      digit string whose length is a multiple of three. */
  function Tail3(t: string): string
    requires Mult3(|t|)
    decreases |t|
  {
    if t == [] then [] else "," + t[..3] + Tail3(t[3..])
  }

  /** A multiple of three, stated without division. */
  predicate Mult3(n: nat)
    decreases n
  {
    n == 0 || (n >= 3 && Mult3(n - 3))
  }

  /** `n % 3`, with the facts about it that the grouping needs. */
  function Rem3(n: nat): (r: nat)
    ensures r < 3 && r <= n && Mult3(n - r)
    decreases n
  {
    if n < 3 then n else Rem3(n - 3)
  }

  lemma {:induction false} Mult3Rem3(n: nat)
    ensures Mult3(n) <==> Rem3(n) == 0
    decreases n
  {
    if n >= 3 { Mult3Rem3(n - 3); }
  }

  lemma {:induction false} Rem3Pred(n: nat)
    requires n > 0
    ensures Rem3(n) == 0 ==> Rem3(n - 1) == 2 && n >= 3
    ensures Rem3(n) != 0 ==> Rem3(n - 1) == Rem3(n) - 1
    decreases n
  {
    if n > 3 { Rem3Pred(n - 3); }
  }

  /** The reference thousands grouping of a non-empty digit string: a leading
      group of one to three digits, then groups of exactly three, each preceded
      by a comma. */
  function Grouped(d: string): string
    requires |d| > 0
  {
    var lead := 1 + Rem3(|d| - 1);
    d[..lead] + Tail3(d[lead..])
  }

  /** `s` with every comma removed. */
  function StripCommas(s: string): string {
    if s == [] then [] else (if s[0] == ',' then "" else [s[0]]) + StripCommas(s[1..])
  }

  lemma {:induction false} DigitRunAllDigits(t: string)
    requires AllDigits(t)
    ensures DigitRun(t) == |t|
  {
    if t != [] { DigitRunAllDigits(t[1..]); }
  }

  /** One step of the scan: a possible comma, then the first character. */
  lemma InsertCommasStep(prevWord: bool, t: string)
    requires t != []
    ensures InsertCommas(prevWord, t)
         == (if CommaHere(prevWord, t) then "," else "") + ([t[0]] + InsertCommas(IsWordChar(t[0]), t[1..]))
  {
  }

  /** Putting the first character back in front of a prefix of the rest. */
  lemma Regroup(t: string, k: nat, tail: string)
    requires 0 < k <= |t|
    ensures [t[0]] + (t[1..][..k - 1] + tail) == t[..k] + tail
    ensures t[1..][k - 1..] == t[k..]
  {
    assert [t[0]] + t[1..][..k - 1] == t[..k];
  }

  /** After a digit, the pattern inserts commas exactly before each group of three
      counted from the right. */
  lemma {:induction false} InsertCommasAfterDigit(t: string)
    requires AllDigits(t)
    ensures InsertCommas(true, t) == t[..Rem3(|t|)] + Tail3(t[Rem3(|t|)..])
    decreases |t|
  {
    if t == [] {
      assert DigitRun(t) == 0;
    } else {
      var tl := t[1..];
      InsertCommasAfterDigit(tl);
      InsertCommasStep(true, t);
      DigitRunAllDigits(t);
      var r := Rem3(|t|);
      Rem3Pred(|t|);
      Mult3Rem3(|t|);
      var rest := InsertCommas(true, tl);
      if r == 0 {
        assert CommaHere(true, t);
        Regroup(t, 3, Tail3(tl[2..]));
        assert InsertCommas(true, t) == "," + (t[..3] + Tail3(t[3..]));
        assert t[0..] == t;
      } else {
        assert !CommaHere(true, t);
        Regroup(t, r, Tail3(tl[r - 1..]));
        assert InsertCommas(true, t) == [t[0]] + rest;
      }
    }
  }

  /** On a plain non-negative digit string the pattern yields the reference grouping. */
  lemma InsertCommasDigits(d: string)
    requires |d| > 0 && AllDigits(d)
    ensures InsertCommas(false, d) == Grouped(d)
  {
    InsertCommasFirstDigit(d);
    InsertCommasAfterDigit(d[1..]);
    GroupedFirst(d);
  }

  /** The reference grouping, read as the first digit followed by the grouping
      of the rest after a digit. */
  lemma GroupedFirst(d: string)
    requires |d| > 0
    ensures var tl := d[1..];
            var r := Rem3(|tl|);
            Grouped(d) == [d[0]] + (tl[..r] + Tail3(tl[r..]))
  {
    var tl := d[1..];
    var r := Rem3(|tl|);
    assert |tl| == |d| - 1;
    Regroup(d, 1 + r, Tail3(tl[r..]));
  }

  /** No comma goes before the first digit of the string. */
  lemma InsertCommasFirstDigit(d: string)
    requires |d| > 0 && AllDigits(d)
    ensures AllDigits(d[1..])
    ensures InsertCommas(false, d) == [d[0]] + InsertCommas(true, d[1..])
  {
    assert IsDigit(d[0]);
    InsertCommasStep(false, d);
  }

  /** A leading minus sign gets no comma after it. */
  lemma InsertCommasNegative(d: string)
    requires |d| > 0 && AllDigits(d)
    ensures InsertCommas(false, "-" + d) == "-" + Grouped(d)
  {
    var s := "-" + d;
    assert !IsWordChar(s[0]);
    assert DigitRun(s) == 0;
    assert s[1..] == d;
    InsertCommasDigits(d);
  }

  /** formatPrice is the sign of `toFixed` followed by the thousands grouping
      of the rounded magnitude. */
  lemma FormatPriceGrouping(price: real)
    ensures price >= 0.0 ==> FormatPrice(price) == Grouped(DecimalString(Round(price)))
    ensures price < 0.0 ==> FormatPrice(price) == "-" + Grouped(DecimalString(Round(-price)))
  {
    if price >= 0.0 {
      InsertCommasDigits(DecimalString(Round(price)));
    } else {
      InsertCommasNegative(DecimalString(Round(-price)));
    }
  }

  lemma {:induction false} StripCommasAppend(a: string, b: string)
    ensures StripCommas(a + b) == StripCommas(a) + StripCommas(b)
  {
    if a == [] {
      assert a + b == b;
    } else {
      assert (a + b)[1..] == a[1..] + b;
      StripCommasAppend(a[1..], b);
    }
  }

  lemma {:induction false} StripCommasDigits(d: string)
    requires AllDigits(d)
    ensures StripCommas(d) == d
  {
    if d != [] { StripCommasDigits(d[1..]); }
  }

  lemma {:induction false} StripTail3(t: string)
    requires Mult3(|t|) && AllDigits(t)
    ensures StripCommas(Tail3(t)) == t
    decreases |t|
  {
    if t != [] {
      StripTail3(t[3..]);
      StripCommasAppend("," + t[..3], Tail3(t[3..]));
      StripCommasAppend(",", t[..3]);
      StripCommasDigits(t[..3]);
      assert t[..3] + t[3..] == t;
    }
  }

  /** Removing the commas from the grouping gives back the digits. */
  lemma StripGrouped(d: string)
    requires |d| > 0 && AllDigits(d)
    ensures StripCommas(Grouped(d)) == d
  {
    var lead := 1 + Rem3(|d| - 1);
    StripCommasAppend(d[..lead], Tail3(d[lead..]));
    StripCommasDigits(d[..lead]);
    StripTail3(d[lead..]);
    assert d[..lead] + d[lead..] == d;
  }

  /** For a non-negative integer price, removing the commas from formatPrice's
      output gives its decimal rendering. */
  lemma FormatPriceStripsToDecimal(n: nat)
    ensures StripCommas(FormatPrice(n as real)) == DecimalString(n)
  {
    assert Round(n as real) == n;
    FormatPriceGrouping(n as real);
    StripGrouped(DecimalString(n));
  }

  lemma FormatPriceThousand()
    ensures FormatPrice(1000.0) == "1,000"
  {
    FormatPriceGrouping(1000.0);
    assert Round(1000.0) == 1000;
    ThousandDigits();
    SingleThousandGrouped('1');
  }

  lemma FormatPriceFiveThousand()
    ensures FormatPrice(5000.0) == "5,000"
  {
    FormatPriceGrouping(5000.0);
    assert Round(5000.0) == 5000;
    FiveThousandDigits();
    SingleThousandGrouped('5');
  }

  lemma ThousandDigits()
    ensures DecimalString(1000) == "1000"
  {
    assert DecimalString(1) == "1";
    assert DecimalString(10) == "10";
    assert DecimalString(100) == "100";
  }

  lemma FiveThousandDigits()
    ensures DecimalString(5000) == "5000"
  {
    assert DecimalString(5) == "5";
    assert DecimalString(50) == "50";
    assert DecimalString(500) == "500";
  }

  /** A four-digit number whose last three digits are zeros. */
  lemma SingleThousandGrouped(c: char)
    ensures Grouped([c] + "000") == [c] + ",000"
  {
    var d := [c] + "000";
    assert Rem3(3) == 0;
    assert d[..1] == [c] && d[1..] == "000";
    assert "000"[..3] == "000" && "000"[3..] == [];
    assert Tail3("000") == ",000";
  }

  lemma FormatPriceTenThousand()
    ensures FormatPrice(10000.0) == "10,000"
  {
    FormatPriceGrouping(10000.0);
    assert Round(10000.0) == 10000;
    TenThousandDigits();
    TenThousandGrouped();
  }

  lemma TenThousandDigits()
    ensures DecimalString(10000) == "10000"
  {
    assert DecimalString(1) == "1";
    assert DecimalString(10) == "10";
    assert DecimalString(100) == "100";
    assert DecimalString(1000) == "1000";
  }

  lemma TenThousandGrouped()
    ensures Grouped("10000") == "10,000"
  {
    assert Rem3(4) == 1;
    assert "10000"[..2] == "10" && "10000"[2..] == "000";
    assert "000"[..3] == "000" && "000"[3..] == [];
    assert Tail3("000") == ",000";
  }

  // ---------------------------------------------------------------------------
  // deepEqual

  /** `isObject`: non-null with `typeof` "object". */
  predicate IsObject(v: Value) { v.Obj? }

  /** `Object.keys(obj).filter(key => !keysToIgnore.includes(key))`, as a set. */
  function VisibleKeys(fields: map<string, Value>, ignore: seq<string>): (ks: set<string>)
    ensures forall k :: k in ks <==> k in fields && k !in ignore
  {
    set k | k in fields && k !in ignore
  }

  /** The meaning of `deepEqual(obj1, obj2, keysToIgnore)` on two objects: the same
      number of non-ignored keys, and for every non-ignored key of `obj1`, the two
      values are objects that are deeply equal, or are the same value. A key
      missing from `obj2` reads as `undefined`. */
  predicate DeepEq(v1: Value, v2: Value, ignore: seq<string>)
    requires v1.Obj? && v2.Obj?
    decreases v1, 0
  {
    |VisibleKeys(v1.fields, ignore)| == |VisibleKeys(v2.fields, ignore)|
    && forall k | k in VisibleKeys(v1.fields, ignore) :: ValuesAgree(v1.fields[k], Lookup(v2.fields, k), ignore)
  }

  /** The test applied to one pair of values inside the loop. */
  predicate ValuesAgree(a: Value, b: Value, ignore: seq<string>)
    decreases a, 1
  {
    if IsObject(a) && IsObject(b) then DeepEq(a, b, ignore) else a == b
  }

  /** `deepEqual`: compares the counts, then walks the non-ignored keys of `obj1`,
      returning false at the first key whose values disagree. */
  method DeepEqual(obj1: map<string, Value>, obj2: map<string, Value>, ignore: seq<string>) returns (eq: bool)
    ensures eq == DeepEq(Obj(obj1), Obj(obj2), ignore)
    ensures |VisibleKeys(obj1, ignore)| != |VisibleKeys(obj2, ignore)| ==> !eq
    decreases Obj(obj1)
  {
    var keys1 := VisibleKeys(obj1, ignore);
    var keys2 := VisibleKeys(obj2, ignore);
    if |keys1| != |keys2| {
      return false;
    }
    var rest := keys1;
    while rest != {}
      invariant rest <= keys1
      invariant forall k | k in keys1 - rest :: ValuesAgree(obj1[k], Lookup(obj2, k), ignore)
      decreases rest
    {
      var key :| key in rest;
      var val1 := obj1[key];
      var val2 := Lookup(obj2, key);
      var areObjects := IsObject(val1) && IsObject(val2);
      if areObjects {
        assert val1 == Obj(val1.fields);
        var sub := DeepEqual(val1.fields, val2.fields, ignore);
        if !sub {
          return false;
        }
      } else if val1 != val2 {
        return false;
      }
      rest := rest - {key};
    }
    return true;
  }

  /** `v` with the ignored keys removed from every object, at every depth. */
  function Strip(v: Value, ignore: seq<string>): (r: Value)
    ensures r.Obj? <==> v.Obj?
    decreases v
  {
    match v
    case Obj(f) => Obj(map k | k in f && k !in ignore :: Strip(f[k], ignore))
    case _ => v
  }

  /** Every object is deeply equal to itself. */
  lemma {:induction false} DeepEqReflexive(v: Value, ignore: seq<string>)
    requires v.Obj?
    ensures DeepEq(v, v, ignore)
    decreases v
  {
    forall k | k in VisibleKeys(v.fields, ignore)
      ensures ValuesAgree(v.fields[k], Lookup(v.fields, k), ignore)
    {
      if v.fields[k].Obj? {
        DeepEqReflexive(v.fields[k], ignore);
      }
    }
  }

  /** Differences under ignored keys, at any depth, never make deepEqual false:
      two objects that agree once the ignored keys are removed everywhere are
      deeply equal. */
  lemma {:induction false} StripEqualDeepEq(v1: Value, v2: Value, ignore: seq<string>)
    requires v1.Obj? && v2.Obj? && Strip(v1, ignore) == Strip(v2, ignore)
    ensures DeepEq(v1, v2, ignore)
    decreases v1
  {
    var f1 := v1.fields;
    var f2 := v2.fields;
    var s1 := Strip(v1, ignore).fields;
    assert s1 == Strip(v2, ignore).fields;
    assert VisibleKeys(f1, ignore) == s1.Keys == VisibleKeys(f2, ignore);
    forall k | k in VisibleKeys(f1, ignore)
      ensures ValuesAgree(f1[k], Lookup(f2, k), ignore)
    {
      assert Strip(f1[k], ignore) == s1[k] == Strip(f2[k], ignore);
      if f1[k].Obj? {
        StripEqualDeepEq(f1[k], f2[k], ignore);
      }
    }
  }

  /** Conversely, when no `undefined` occurs anywhere, deepEqual holds only for
      objects that agree once the ignored keys are removed. */
  lemma {:induction false} DeepEqStripEqual(v1: Value, v2: Value, ignore: seq<string>)
    requires v1.Obj? && v2.Obj? && NoUndefined(v1) && NoUndefined(v2)
    requires DeepEq(v1, v2, ignore)
    ensures Strip(v1, ignore) == Strip(v2, ignore)
    decreases v1
  {
    var f1 := v1.fields;
    var f2 := v2.fields;
    var ks1 := VisibleKeys(f1, ignore);
    var ks2 := VisibleKeys(f2, ignore);
    forall k | k in ks1
      ensures k in f2 && Strip(f1[k], ignore) == Strip(f2[k], ignore)
    {
      assert ValuesAgree(f1[k], Lookup(f2, k), ignore);
      assert NoUndefined(f1[k]);
      if k in f2 && f1[k].Obj? && f2[k].Obj? {
        DeepEqStripEqual(f1[k], f2[k], ignore);
      }
    }
    assert ks1 <= ks2;
    SubsetSameSize(ks1, ks2);
    var s1 := Strip(v1, ignore).fields;
    var s2 := Strip(v2, ignore).fields;
    assert s1.Keys == ks1 && s2.Keys == ks2;
    assert forall k | k in s1.Keys :: s1[k] == s2[k];
    assert s1 == s2;
  }

  lemma SubsetSameSize<T>(a: set<T>, b: set<T>)
    requires a <= b && |a| == |b|
    ensures a == b
  {
    assert a * (b - a) == {};
    assert b == a + (b - a);
    assert |b - a| == 0;
  }

  /** deepEqual is not symmetric once `undefined` occurs: `{a: undefined}` is
      deeply equal to `{b: 1}`, because the missing `a` reads as `undefined`,
      but not the other way round. */
  lemma DeepEqNotSymmetric()
    ensures DeepEq(Obj(map["a" := Undefined]), Obj(map["b" := Num(1.0)]), [])
    ensures !DeepEq(Obj(map["b" := Num(1.0)]), Obj(map["a" := Undefined]), [])
  {
    var o1 := map["a" := Undefined];
    var o2 := map["b" := Num(1.0)];
    assert VisibleKeys(o1, []) == {"a"};
    assert VisibleKeys(o2, []) == {"b"};
    assert "a" != "b";
    assert ValuesAgree(o2["b"], Lookup(o1, "b"), []) == false;
  }

  /** The person records of the unit test: the same record twice is deeply equal,
      and a different nested city is not. */
  function Person(city: string): Value {
    Obj(map["name" := Str("John"), "age" := Num(30.0),
             "address" := Obj(map["city" := Str(city), "country" := Str("USA")])])
  }

  lemma DeepEqPersonExamples()
    ensures DeepEq(Person("New York"), Person("New York"), [])
    ensures !DeepEq(Person("New York"), Person("Los Angeles"), [])
  {
    DeepEqReflexive(Person("New York"), []);
    var a1 := Person("New York").fields["address"];
    var a3 := Person("Los Angeles").fields["address"];
    assert "address" in VisibleKeys(Person("New York").fields, []);
    assert a1.fields["city"] == Str("New York") != Str("Los Angeles") == a3.fields["city"];
    assert "city" in VisibleKeys(a1.fields, []);
    assert !ValuesAgree(a1.fields["city"], Lookup(a3.fields, "city"), []);
    assert !DeepEq(a1, a3, []);
  }

  // ---------------------------------------------------------------------------
  // doesEmailHaveTopLevelDomain

  /** The second piece of `email.split("@")`: the text between the first "@" and
      the next one (or the end), or None when there is no "@" at all, in which
      case the source reads `indexOf` of `undefined` and throws a TypeError. */
  function DomainPart(email: string): (d: Option<string>)
    ensures d.None? <==> Lacks(email, '@')
    ensures d.Some? ==> Lacks(d.value, '@')
    ensures d.Some? ==> var i := IndexOf(email, '@'); StartsWith(email[i + 1..], d.value)
  {
    var i := IndexOf(email, '@');
    if i < 0 then None
    else
      var rest := email[i + 1..];
      var j := IndexOf(rest, '@');
      if j < 0 then Some(rest) else Some(rest[..j])
  }

  /** `doesEmailHaveTopLevelDomain(email)`: None stands for the TypeError thrown
      when `email` holds no "@". */
  function EmailHasTopLevelDomain(email: string): Option<bool> {
    match DomainPart(email)
    case None => None
    case Some(domain) =>
      var dot := IndexOf(domain, '.');
      Some(!(dot < 0 || dot > |domain| - 3))
  }

  /** The check holds exactly when the domain is a dot-free host, a dot, and
      at least two more characters. */
  lemma EmailTopLevelDomainSpec(email: string)
    requires !Lacks(email, '@')
    ensures EmailHasTopLevelDomain(email).Some?
    ensures EmailHasTopLevelDomain(email) == Some(true)
        <==> exists a: string, b: string :: DomainPart(email).value == a + "." + b && Lacks(a, '.') && |b| >= 2
  {
    var domain := DomainPart(email).value;
    assert EmailHasTopLevelDomain(email) == Some(DomainAccepted(domain));
    DomainAcceptedIff(domain);
  }

  /** The dot test on the domain. */
  predicate DomainAccepted(domain: string) {
    var dot := IndexOf(domain, '.');
    !(dot < 0 || dot > |domain| - 3)
  }

  lemma DomainAcceptedIff(domain: string)
    ensures DomainAccepted(domain)
        <==> exists a: string, b: string :: domain == a + "." + b && Lacks(a, '.') && |b| >= 2
  {
    if DomainAccepted(domain) {
      AcceptedDomainSplits(domain);
    }
    if exists a: string, b: string :: domain == a + "." + b && Lacks(a, '.') && |b| >= 2 {
      var a: string, b: string :| domain == a + "." + b && Lacks(a, '.') && |b| >= 2;
      SplitDomainAccepted(domain, a, b);
    }
  }

  lemma AcceptedDomainSplits(domain: string)
    requires DomainAccepted(domain)
    ensures var dot := IndexOf(domain, '.');
            domain == domain[..dot] + "." + domain[dot + 1..] && Lacks(domain[..dot], '.') && |domain[dot + 1..]| >= 2
  {
    var dot := IndexOf(domain, '.');
    assert domain == domain[..dot] + [domain[dot]] + domain[dot + 1..];
  }

  lemma SplitDomainAccepted(domain: string, a: string, b: string)
    requires domain == a + "." + b && Lacks(a, '.') && |b| >= 2
    ensures DomainAccepted(domain)
  {
    assert domain[|a|] == '.';
    assert domain[..|a|] == a;
    IndexOfFirst(domain, '.', |a|);
  }

  /** The first occurrence is the one `IndexOf` reports. */
  lemma IndexOfFirst(s: string, c: char, i: nat)
    requires i < |s| && s[i] == c && Lacks(s[..i], c)
    ensures IndexOf(s, c) == i
  {
  }

  /** The domain of an address with a single "@". */
  lemma DomainOf(user: string, domain: string)
    requires Lacks(user, '@') && Lacks(domain, '@')
    ensures DomainPart(user + "@" + domain) == Some(domain)
  {
    var email := user + "@" + domain;
    assert email[..|user|] == user;
    IndexOfFirst(email, '@', |user|);
    assert email[|user| + 1..] == domain;
  }

  /** A domain whose first dot follows `host`: the check asks for at
      least two characters after that dot. */
  lemma EmailWithDot(user: string, host: string, rest: string)
    requires Lacks(user, '@') && Lacks(host, '@') && Lacks(rest, '@') && Lacks(host, '.')
    ensures EmailHasTopLevelDomain(user + "@" + (host + "." + rest)) == Some(|rest| >= 2)
  {
    var domain := host + "." + rest;
    DomainOf(user, domain);
    assert domain[..|host|] == host;
    IndexOfFirst(domain, '.', |host|);
  }

  /** A domain without any dot fails the check. */
  lemma EmailWithoutDot(user: string, domain: string)
    requires Lacks(user, '@') && Lacks(domain, '@') && Lacks(domain, '.')
    ensures EmailHasTopLevelDomain(user + "@" + domain) == Some(false)
  {
    DomainOf(user, domain);
  }

  lemma EmailExampleNoDot()
    ensures EmailHasTopLevelDomain("example@test") == Some(false)
  {
    EmailWithoutDot("example", "test");
    NoDotAddress();
  }

  lemma NoDotAddress()
    ensures "example" + "@" + "test" == "example@test"
  {
  }

  /** Without an "@" the source throws. */
  lemma EmailExampleNoAt()
    ensures EmailHasTopLevelDomain("example") == None
  {
  }

  lemma EmailExampleTrailingDot()
    ensures EmailHasTopLevelDomain("example@test.") == Some(false)
  {
    EmailWithDot("example", "test", "");
    TrailingDotAddress();
  }

  lemma TrailingDotAddress()
    ensures "example" + "@" + ("test" + "." + "") == "example@test."
  {
  }

  lemma EmailExampleCom()
    ensures EmailHasTopLevelDomain("example@test.com") == Some(true)
  {
    EmailWithDot("example", "test", "com");
    ComAddress();
  }

  lemma ComAddress()
    ensures "example" + "@" + ("test" + "." + "com") == "example@test.com"
  {
  }

  lemma EmailExampleCoUk()
    ensures EmailHasTopLevelDomain("example@test.co.uk") == Some(true)
  {
    EmailWithDot("example", "test", "co.uk");
    CoUkAddress();
  }

  lemma CoUkAddress()
    ensures "example" + "@" + ("test" + "." + "co.uk") == "example@test.co.uk"
  {
  }

  // ---------------------------------------------------------------------------
  // getPasswordValidationMessage

  /** The characters of `[!@#$%^&*]`. */
  predicate IsSpecial(c: char) {
    c == '!' || c == '@' || c == '#' || c == '$' || c == '%' || c == '^' || c == '&' || c == '*'
  }

  /** `/(?=.*[a-z])/.test(p)` and its three siblings: some character of `p` is of the class. */
  predicate AnyLower(p: string) { exists i :: 0 <= i < |p| && IsLower(p[i]) }
  predicate AnyUpper(p: string) { exists i :: 0 <= i < |p| && IsUpper(p[i]) }
  predicate AnyDigit(p: string) { exists i :: 0 <= i < |p| && IsDigit(p[i]) }
  predicate AnySpecial(p: string) { exists i :: 0 <= i < |p| && IsSpecial(p[i]) }

  /** The password rules, in the order they are checked. */
  datatype PasswordRule = NonEmpty | MinLength | HasLower | HasUpper | HasDigit | HasSpecial

  const PasswordRules: seq<PasswordRule> := [NonEmpty, MinLength, HasLower, HasUpper, HasDigit, HasSpecial]

  predicate Satisfies(password: string, rule: PasswordRule) {
    match rule
    case NonEmpty => password != ""
    case MinLength => |password| >= 8
    case HasLower => AnyLower(password)
    case HasUpper => AnyUpper(password)
    case HasDigit => AnyDigit(password)
    case HasSpecial => AnySpecial(password)
  }

  function RuleMessage(rule: PasswordRule): string {
    match rule
    case NonEmpty => "Please enter a password."
    case MinLength => "Your password must be at least eight characters long."
    case HasLower => "Your password must include at least one lowercase letter."
    case HasUpper => "Your password must include at least one uppercase letter."
    case HasDigit => "Your password must include at least one digit."
    case HasSpecial => "Your password must include at least one special character."
  }

  /** The first rule of `rules` that `password` breaks. */
  function FirstFailing(password: string, rules: seq<PasswordRule>): (r: Option<PasswordRule>)
    ensures r.None? <==> forall i :: 0 <= i < |rules| ==> Satisfies(password, rules[i])
    ensures r.Some? ==> r.value in rules && !Satisfies(password, r.value)
  {
    if rules == [] then None
    else if !Satisfies(password, rules[0]) then Some(rules[0])
    else FirstFailing(password, rules[1..])
  }

  /** The rule the checks of `getPasswordValidationMessage` stop at, tried in
      the source's order. */
  function FailedRule(password: string): Option<PasswordRule> {
    if password == "" then Some(NonEmpty)
    else if |password| < 8 then Some(MinLength)
    else if !AnyLower(password) then Some(HasLower)
    else if !AnyUpper(password) then Some(HasUpper)
    else if !AnyDigit(password) then Some(HasDigit)
    else if !AnySpecial(password) then Some(HasSpecial)
    else None
  }

  /** `getPasswordValidationMessage(password)`: the message of the rule the
      checks stop at, or "" when all pass. */
  function PasswordValidationMessage(password: string): string {
    match FailedRule(password)
    case None => ""
    case Some(rule) => RuleMessage(rule)
  }

  /** The checks stop at the first broken rule, in the order empty, length,
      lowercase, uppercase, digit, special. */
  lemma {:induction false} FailedRuleIsFirstFailing(password: string)
    ensures FailedRule(password) == FirstFailing(password, PasswordRules)
  {
    var p := password;
    var r1 := PasswordRules[1..];
    var r2 := r1[1..];
    var r3 := r2[1..];
    var r4 := r3[1..];
    var r5 := r4[1..];
    assert r5 == [HasSpecial] && r5[1..] == [];
    assert FirstFailing(p, r5) == if AnySpecial(p) then None else Some(HasSpecial);
    assert FirstFailing(p, r4) == if AnyDigit(p) then FirstFailing(p, r5) else Some(HasDigit);
    assert FirstFailing(p, r3) == if AnyUpper(p) then FirstFailing(p, r4) else Some(HasUpper);
    assert FirstFailing(p, r2) == if AnyLower(p) then FirstFailing(p, r3) else Some(HasLower);
    assert FirstFailing(p, r1) == if |p| >= 8 then FirstFailing(p, r2) else Some(MinLength);
  }

  /** Only the first broken rule's message is reported. */
  lemma PasswordMessageFirstFailing(password: string)
    ensures PasswordValidationMessage(password)
         == match FirstFailing(password, PasswordRules)
            case None => ""
            case Some(rule) => RuleMessage(rule)
  {
    FailedRuleIsFirstFailing(password);
  }

  /** The message is empty exactly when every rule holds. */
  lemma PasswordMessageEmptyIff(password: string)
    ensures PasswordValidationMessage(password) == ""
        <==> forall rule :: Satisfies(password, rule)
  {
    FailedRuleIsFirstFailing(password);
    var f := FailedRule(password);
    if f.Some? {
      RuleMessageNonEmpty(f.value);
    } else {
      forall rule ensures Satisfies(password, rule) {
        var i := PasswordRuleIndex(rule);
        assert Satisfies(password, PasswordRules[i]);
      }
    }
  }

  lemma RuleMessageNonEmpty(rule: PasswordRule)
    ensures RuleMessage(rule) != ""
  {
    match rule
    case NonEmpty => NonEmptyMessage();
    case MinLength => MinLengthMessage();
    case HasLower => LowerMessage();
    case HasUpper => UpperMessage();
    case HasDigit => DigitMessage();
    case HasSpecial => SpecialMessage();
  }

  lemma NonEmptyMessage() ensures RuleMessage(NonEmpty) != "" {}
  lemma MinLengthMessage() ensures RuleMessage(MinLength) != "" {}
  lemma LowerMessage() ensures RuleMessage(HasLower) != "" {}
  lemma UpperMessage() ensures RuleMessage(HasUpper) != "" {}
  lemma DigitMessage() ensures RuleMessage(HasDigit) != "" {}
  lemma SpecialMessage() ensures RuleMessage(HasSpecial) != "" {}

  function PasswordRuleIndex(rule: PasswordRule): (i: nat)
    ensures i < |PasswordRules| && PasswordRules[i] == rule
  {
    match rule
    case NonEmpty => 0
    case MinLength => 1
    case HasLower => 2
    case HasUpper => 3
    case HasDigit => 4
    case HasSpecial => 5
  }

  lemma PasswordExamplesShort()
    ensures PasswordValidationMessage("") == "Please enter a password."
    ensures PasswordValidationMessage("1234567") == "Your password must be at least eight characters long."
  {
  }

  lemma PasswordExampleAllLower()
    ensures PasswordValidationMessage("password") == "Your password must include at least one uppercase letter."
  {
    AllLowerWord();
  }

  lemma PasswordExampleAllUpper()
    ensures PasswordValidationMessage("PASSWORD") == "Your password must include at least one lowercase letter."
  {
    AllUpperWord();
  }

  lemma AllLowerWord()
    ensures AnyLower("password") && !AnyUpper("password")
  {
    var p := "password";
    assert IsLower(p[0]);
    assert forall i :: 0 <= i < 8 ==> !IsUpper(p[i]);
  }

  lemma AllUpperWord()
    ensures !AnyLower("PASSWORD")
  {
    var p := "PASSWORD";
    assert forall i :: 0 <= i < 8 ==> !IsLower(p[i]);
  }

  lemma PasswordExampleNoSpecial()
    ensures PasswordValidationMessage("Password1") == "Your password must include at least one special character."
  {
    NoSpecialClasses();
  }

  lemma NoSpecialClasses()
    ensures var p := "Password1"; AnyLower(p) && AnyUpper(p) && AnyDigit(p) && !AnySpecial(p)
  {
    var p := "Password1";
    assert IsLower(p[1]) && IsUpper(p[0]) && IsDigit(p[8]);
    assert forall i :: 0 <= i < 9 ==> !IsSpecial(p[i]);
  }

  lemma PasswordExampleNoDigit()
    ensures PasswordValidationMessage("Password@") == "Your password must include at least one digit."
  {
    NoDigitClasses();
  }

  lemma NoDigitClasses()
    ensures var p := "Password@"; AnyLower(p) && AnyUpper(p) && !AnyDigit(p)
  {
    var p := "Password@";
    assert IsLower(p[1]) && IsUpper(p[0]);
    assert forall i :: 0 <= i < 9 ==> !IsDigit(p[i]);
  }

  lemma PasswordExampleStrong()
    ensures PasswordValidationMessage("StrongPassword1@") == ""
  {
    StrongClasses();
  }

  lemma StrongClasses()
    ensures var p := "StrongPassword1@"; AnyLower(p) && AnyUpper(p) && AnyDigit(p) && AnySpecial(p)
  {
    var p := "StrongPassword1@";
    assert IsLower(p[1]) && IsUpper(p[0]) && IsDigit(p[14]) && IsSpecial(p[15]);
  }

  // ---------------------------------------------------------------------------
  // deleteKeysIncludingString

  /** The parameter names of `es` that contain `sub`. */
  function NamesContaining(es: Entries, sub: string): (names: set<string>)
    ensures forall n :: n in names <==> HasParam(es, n) && Contains(n, sub)
  {
    set i | 0 <= i < |es| && Contains(es[i].0, sub) :: es[i].0
  }

  /** What `deleteKeysIncludingString` returns: the entries whose name does not
      contain `sub`, in their original order. */
  function WithoutKeysContaining(es: Entries, sub: string): Entries {
    DropNames(es, NamesContaining(es, sub))
  }

  /** `deleteKeysIncludingString(urlParams, stringToFind)`: copies the parameters,
      then walks the names of the original and deletes from the copy every name
      that contains the string. The original is left as it was. */
  method DeleteKeysIncludingString(urlParams: UrlSearchParams, sub: string) returns (copy: UrlSearchParams)
    ensures fresh(copy)
    ensures copy.entries == WithoutKeysContaining(urlParams.entries, sub)
  {
    copy := new UrlSearchParams(urlParams.entries);
    var keys := Names(urlParams.entries);
    ghost var es := urlParams.entries;
    DropNamesNone(es);
    assert NamesContaining(es[..0], sub) == {};
    var i := 0;
    while i < |keys|
      invariant 0 <= i <= |keys|
      invariant copy.entries == DropNames(es, NamesContaining(es[..i], sub))
    {
      assert keys[i] == es[i].0;
      DeleteKeysStep(es, sub, i);
      if Contains(keys[i], sub) {
        copy.Delete(keys[i]);
      }
      i := i + 1;
    }
    assert es[..i] == es;
  }

  /** One round of the loop in `DeleteKeysIncludingString`: deleting the name
      of pair `i` when it contains the string drops the names found so far. */
  lemma DeleteKeysStep(es: Entries, sub: string, i: nat)
    requires i < |es|
    ensures var before := DropNames(es, NamesContaining(es[..i], sub));
            DropNames(es, NamesContaining(es[..i + 1], sub))
            == if Contains(es[i].0, sub) then DropNames(before, {es[i].0}) else before
  {
    NamesContainingSnoc(es, sub, i);
    if Contains(es[i].0, sub) {
      DropNamesTwice(es, NamesContaining(es[..i], sub), {es[i].0});
    } else {
      assert NamesContaining(es[..i + 1], sub) == NamesContaining(es[..i], sub);
    }
  }

  /** Looking at one more pair adds its name when the name contains the string. */
  lemma NamesContainingSnoc(es: Entries, sub: string, i: nat)
    requires i < |es|
    ensures NamesContaining(es[..i + 1], sub)
         == NamesContaining(es[..i], sub) + (if Contains(es[i].0, sub) then {es[i].0} else {})
  {
    var a := NamesContaining(es[..i], sub);
    var b := NamesContaining(es[..i + 1], sub);
    forall n ensures n in b <==> n in a || (n == es[i].0 && Contains(n, sub)) {
      if HasParam(es[..i + 1], n) {
        var k :| 0 <= k < i + 1 && es[..i + 1][k].0 == n;
        if k < i {
          assert es[..i][k].0 == n;
        }
      }
      if HasParam(es[..i], n) {
        var k :| 0 <= k < i && es[..i][k].0 == n;
        assert es[..i + 1][k].0 == n;
      }
      if n == es[i].0 {
        assert es[..i + 1][i].0 == n;
      }
    }
  }

  /** An entry survives exactly when its name does not contain the string. */
  lemma WithoutKeysContainingMembers(es: Entries, sub: string)
    ensures forall e :: e in WithoutKeysContaining(es, sub) <==> e in es && !Contains(e.0, sub)
  {
    DropNamesMembers(es, NamesContaining(es, sub));
    forall e | e in es ensures HasParam(es, e.0) {
      var i :| 0 <= i < |es| && es[i] == e;
      assert es[i].0 == e.0;
    }
  }

  /** Names that do not contain the string keep their value; the others are gone. */
  lemma WithoutKeysContainingGet(es: Entries, sub: string, name: string)
    ensures GetParam(WithoutKeysContaining(es, sub), name)
         == if Contains(name, sub) then None else GetParam(es, name)
  {
    GetAfterDropNames(es, NamesContaining(es, sub), name);
    if Contains(name, sub) && !HasParam(es, name) {
      assert GetParam(es, name) == None;
    }
  }

  /** When every name is dropped, nothing is left. */
  lemma {:induction false} DropAllNamed(es: Entries, names: set<string>)
    requires forall k :: 0 <= k < |es| ==> es[k].0 in names
    ensures DropNames(es, names) == []
  {
    if es != [] {
      assert es[0].0 in names;
      DropAllNamed(es[1..], names);
    }
  }

  /** The unit test: every "paramN" contains "param", so nothing is left. */
  lemma DeleteKeysExample()
    ensures WithoutKeysContaining([("param1", "value1"), ("param2", "value2"),
                                   ("param3", "value3"), ("param4", "value4")], "param") == []
  {
    var es: Entries := [("param1", "value1"), ("param2", "value2"), ("param3", "value3"), ("param4", "value4")];
    var names := NamesContaining(es, "param");
    forall k | 0 <= k < 4 ensures es[k].0 in names {
      assert es[k].0[..5] == "param";
      assert HasParam(es, es[k].0);
    }
    DropAllNamed(es, names);
  }

  // ---------------------------------------------------------------------------
  // getCategoryTitle

  /** The price-list categories, as the `PriceList["category"]` type lists them. */
  const CategoryNames: seq<string> := ["cc-destination", "inland-carrier", "forwarder", "inland-supplier", "local-charges"]

  /** `getCategoryTitle(category)`: the four named categories have their own
      title, and anything else falls through to the local-charges title. */
  function CategoryTitle(category: string): string {
    match category
    case "cc-destination" => "Customs Clearance at Destination Offer"
    case "inland-carrier" => "Inland Carrier at Destination Offer"
    case "forwarder" => "Forwarder Offer"
    case "inland-supplier" => "Inland Carrier Offer"
    case _ => "Local Charges Offer"
  }

  /** Distinct categories get distinct titles, and any string outside the four
      named ones gets the local-charges title. */
  lemma CategoryTitleSpec(c1: string, c2: string)
    ensures c1 in CategoryNames && c2 in CategoryNames && c1 != c2 ==> CategoryTitle(c1) != CategoryTitle(c2)
    ensures c1 !in CategoryNames[..4] ==> CategoryTitle(c1) == CategoryTitle("local-charges")
  {
    if c1 in CategoryNames && c2 in CategoryNames && c1 != c2 {
      var i :| 0 <= i < |CategoryNames| && CategoryNames[i] == c1;
      var j :| 0 <= j < |CategoryNames| && CategoryNames[j] == c2;
      CategoryTitleAt(i);
      CategoryTitleAt(j);
      CategoryTitlesDistinct(i, j);
    }
    if c1 !in CategoryNames[..4] {
      CategoryTitleOther(c1);
    }
  }

  /** The title of each category, in the order of `CategoryNames`. */
  const CategoryTitles: seq<string> := ["Customs Clearance at Destination Offer", "Inland Carrier at Destination Offer",
                                        "Forwarder Offer", "Inland Carrier Offer", "Local Charges Offer"]

  lemma CategoryTitleAt(i: nat)
    requires i < |CategoryNames|
    ensures CategoryTitle(CategoryNames[i]) == CategoryTitles[i]
  {
  }

  lemma CategoryTitlesDistinct(i: nat, j: nat)
    requires i < |CategoryTitles| && j < |CategoryTitles| && i != j
    ensures CategoryTitles[i] != CategoryTitles[j]
  {
    assert |CategoryTitles[0]| == 38 && |CategoryTitles[1]| == 35 && |CategoryTitles[2]| == 15
        && |CategoryTitles[3]| == 20 && |CategoryTitles[4]| == 19;
  }

  lemma CategoryTitleOther(c: string)
    requires c !in CategoryNames[..4]
    ensures CategoryTitle(c) == "Local Charges Offer" == CategoryTitle("local-charges")
  {
    assert CategoryNames[..4] == ["cc-destination", "inland-carrier", "forwarder", "inland-supplier"];
  }
}
