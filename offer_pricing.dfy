/** The offer helpers of the simulator page: per-supplier totals, the transit
    path of an offer, and the scaling of an offer's prices by container counts. */
module OfferPricing {
  import opened Types
  import opened JsMath

  // ---------------------------------------------------------------------------
  // getOfferSuppliers

  /** The price of one line: `Math.round(price_20_usd + price_40_usd)`. */
  function LinePrice(line: ItemLine): (p: int)
    ensures p as real - 0.5 <= line.price_20_usd + line.price_40_usd < p as real + 0.5
  {
    Round(line.price_20_usd + line.price_40_usd)
  }

  /** The distinct suppliers of `lines`, in order of first appearance. */
  function SupplierOrder(lines: seq<ItemLine>): (order: seq<string>)
    decreases |lines|
  {
    if lines == [] then []
    else
      var prefix := SupplierOrder(lines[..|lines| - 1]);
      var s := lines[|lines| - 1].supplier;
      if s in prefix then prefix else prefix + [s]
  }

  /** The sum of the rounded prices of the lines of `supplier`. */
  function SupplierTotal(lines: seq<ItemLine>, supplier: string): int
    decreases |lines|
  {
    if lines == [] then 0
    else
      var last := lines[|lines| - 1];
      SupplierTotal(lines[..|lines| - 1], supplier) + (if last.supplier == supplier then LinePrice(last) else 0)
  }

  /** One entry of the result: `{ supplier, price_usd }`. */
  datatype SupplierPrice = SupplierPrice(supplier: string, price_usd: int)

  /** The reference result: one entry per distinct supplier, in order of first
      appearance, carrying that supplier's total. */
  function SupplierPrices(lines: seq<ItemLine>): (r: seq<SupplierPrice>)
    ensures |r| == |SupplierOrder(lines)|
  {
    var order := SupplierOrder(lines);
    seq(|order|, k requires 0 <= k < |order| => SupplierPrice(order[k], SupplierTotal(lines, order[k])))
  }

  /** `getOfferSuppliers(offer)`: one pass over the lines that keeps a
      `Map` from supplier to running total (a `Map` remembers the order in which
      its keys were first set), then the map's entries as an array. */
  method GetOfferSuppliers(offer: Offer) returns (result: seq<SupplierPrice>)
    ensures result == SupplierPrices(offer.details)
  {
    var itemLines := offer.details;
    var keys: seq<string> := [];
    var totals: map<string, int> := map[];
    assert itemLines[..0] == [];
    for i := 0 to |itemLines|
      invariant Tally(itemLines[..i], keys, totals)
    {
      var line := itemLines[i];
      var itemLinePrice := LinePrice(line);
      TallySnoc(itemLines, i, keys, totals);
      if line.supplier in totals {
        totals := totals[line.supplier := itemLinePrice + totals[line.supplier]];
      } else {
        totals := totals[line.supplier := itemLinePrice];
        keys := keys + [line.supplier];
      }
    }
    assert itemLines[..|itemLines|] == itemLines;
    TallyResult(itemLines, keys, totals);
    result := seq(|keys|, k requires 0 <= k < |keys| => SupplierPrice(keys[k], totals[keys[k]]));
  }

  /** The state of `getOfferSuppliers` after `lines`: the map's keys in the
      order they were first set, and each supplier's running total. */
  ghost predicate Tally(lines: seq<ItemLine>, keys: seq<string>, totals: map<string, int>) {
    && keys == SupplierOrder(lines)
    && totals.Keys == (set s | s in keys)
    && forall s :: SupplierTotal(lines, s) == if s in totals then totals[s] else 0
  }

  /** One iteration of the `forEach`. */
  lemma TallySnoc(lines: seq<ItemLine>, i: nat, keys: seq<string>, totals: map<string, int>)
    requires i < |lines| && Tally(lines[..i], keys, totals)
    ensures var s := lines[i].supplier;
            var p := LinePrice(lines[i]);
            && (s in totals ==> Tally(lines[..i + 1], keys, totals[s := p + totals[s]]))
            && (s !in totals ==> Tally(lines[..i + 1], keys + [s], totals[s := p]))
  {
    PrefixSnoc(lines, i);
  }

  /** After the last line, the map's entries are the reference result. */
  lemma TallyResult(lines: seq<ItemLine>, keys: seq<string>, totals: map<string, int>)
    requires Tally(lines, keys, totals)
    ensures forall k :: 0 <= k < |keys| ==> keys[k] in totals
    ensures seq(|keys|, k requires 0 <= k < |keys| => SupplierPrice(keys[k], totals[keys[k]])) == SupplierPrices(lines)
  {
  }

  /** What one more line does to the suppliers and totals of a prefix. */
  lemma PrefixSnoc(lines: seq<ItemLine>, i: nat)
    requires i < |lines|
    ensures var line := lines[i];
            SupplierOrder(lines[..i + 1])
            == if line.supplier in SupplierOrder(lines[..i]) then SupplierOrder(lines[..i])
               else SupplierOrder(lines[..i]) + [line.supplier]
    ensures forall s :: SupplierTotal(lines[..i + 1], s)
                     == SupplierTotal(lines[..i], s) + (if lines[i].supplier == s then LinePrice(lines[i]) else 0)
  {
    assert lines[..i + 1][..i] == lines[..i];
    assert lines[..i + 1][i] == lines[i];
  }

  /** The position of the first line of `supplier`, or the number of lines when
      there is none. */
  function FirstLineOf(lines: seq<ItemLine>, supplier: string): (i: nat)
    ensures i <= |lines|
    ensures i < |lines| ==> lines[i].supplier == supplier
    ensures forall j :: 0 <= j < i ==> lines[j].supplier != supplier
    decreases |lines|
  {
    if lines == [] then 0
    else if lines[0].supplier == supplier then 0
    else 1 + FirstLineOf(lines[1..], supplier)
  }

  /** Exactly one entry per distinct supplier: the suppliers listed are those of
      the lines, each once, ordered by where they first appear. */
  lemma SupplierOrderSpec(lines: seq<ItemLine>)
    ensures forall s :: s in SupplierOrder(lines) <==> FirstLineOf(lines, s) < |lines|
    ensures forall a, b :: 0 <= a < b < |SupplierOrder(lines)| ==>
              FirstLineOf(lines, SupplierOrder(lines)[a]) < FirstLineOf(lines, SupplierOrder(lines)[b])
  {
    SupplierOrderMembers(lines);
    SupplierOrderRanked(lines);
  }

  lemma {:induction false} SupplierOrderMembers(lines: seq<ItemLine>)
    ensures forall s :: s in SupplierOrder(lines) <==> FirstLineOf(lines, s) < |lines|
    decreases |lines|
  {
    if lines != [] {
      var n := |lines| - 1;
      SupplierOrderMembers(lines[..n]);
      FirstLineOfSnocAll(lines);
    }
  }

  lemma {:induction false} SupplierOrderRanked(lines: seq<ItemLine>)
    ensures forall a, b :: 0 <= a < b < |SupplierOrder(lines)| ==>
              FirstLineOf(lines, SupplierOrder(lines)[a]) < FirstLineOf(lines, SupplierOrder(lines)[b])
    decreases |lines|
  {
    if lines != [] {
      var n := |lines| - 1;
      var prefix := lines[..n];
      SupplierOrderRanked(prefix);
      SupplierOrderMembers(prefix);
      FirstLineOfSnocAll(lines);
      var before := SupplierOrder(prefix);
      var s := lines[n].supplier;
      if s !in before {
        assert SupplierOrder(lines) == before + [s];
        forall a | 0 <= a < |before| ensures FirstLineOf(lines, before[a]) < n {
          assert before[a] in before;
        }
      }
    }
  }

  /** The first line of a supplier is the one with no earlier line of it. */
  lemma {:induction false} FirstLineOfUnique(lines: seq<ItemLine>, supplier: string, i: nat)
    requires i <= |lines|
    requires i < |lines| ==> lines[i].supplier == supplier
    requires forall j :: 0 <= j < i ==> lines[j].supplier != supplier
    ensures FirstLineOf(lines, supplier) == i
  {
  }

  lemma FirstLineOfSnocAll(lines: seq<ItemLine>)
    requires lines != []
    ensures var n := |lines| - 1;
            forall t :: FirstLineOf(lines, t) == (if FirstLineOf(lines[..n], t) < n then FirstLineOf(lines[..n], t)
                                                  else if t == lines[n].supplier then n else |lines|)
  {
    forall t ensures FirstLineOf(lines, t) == (if FirstLineOf(lines[..|lines| - 1], t) < |lines| - 1 then FirstLineOf(lines[..|lines| - 1], t)
                                               else if t == lines[|lines| - 1].supplier then |lines| - 1 else |lines|) {
      FirstLineOfSnoc(lines, t);
    }
  }

  /** The first line of a supplier within all lines but the last. */
  lemma {:induction false} FirstLineOfSnoc(lines: seq<ItemLine>, supplier: string)
    requires lines != []
    ensures var n := |lines| - 1; var p := FirstLineOf(lines[..n], supplier);
      FirstLineOf(lines, supplier) == (if p < n then p else if lines[n].supplier == supplier then n else |lines|)
  {
    var n := |lines| - 1;
    var prefix := lines[..n];
    var p := FirstLineOf(prefix, supplier);
    assert forall j :: 0 <= j < n ==> prefix[j] == lines[j];
    if p < n {
      FirstLineOfUnique(lines, supplier, p);
    } else if lines[n].supplier == supplier {
      FirstLineOfUnique(lines, supplier, n);
    } else {
      FirstLineOfUnique(lines, supplier, |lines|);
    }
  }

  /** The suppliers listed are pairwise distinct. */
  lemma SupplierOrderDistinct(lines: seq<ItemLine>)
    ensures forall a, b :: 0 <= a < b < |SupplierOrder(lines)| ==> SupplierOrder(lines)[a] != SupplierOrder(lines)[b]
  {
    SupplierOrderSpec(lines);
  }

  /** The sum of the totals of the suppliers of `order`. */
  function SumTotals(lines: seq<ItemLine>, order: seq<string>): int
    decreases |order|
  {
    if order == [] then 0 else SupplierTotal(lines, order[0]) + SumTotals(lines, order[1..])
  }

  /** The sum of the rounded line prices. */
  function SumLinePrices(lines: seq<ItemLine>): int
    decreases |lines|
  {
    if lines == [] then 0 else SumLinePrices(lines[..|lines| - 1]) + LinePrice(lines[|lines| - 1])
  }

  function SumPrices(r: seq<SupplierPrice>): int
    decreases |r|
  {
    if r == [] then 0 else r[0].price_usd + SumPrices(r[1..])
  }

  /** Adding a line adds its price to the sum over a list of distinct suppliers
      exactly when its supplier is among them. */
  lemma {:induction false} SumTotalsSnoc(lines: seq<ItemLine>, line: ItemLine, order: seq<string>)
    requires forall a, b :: 0 <= a < b < |order| ==> order[a] != order[b]
    ensures SumTotals(lines + [line], order)
         == SumTotals(lines, order) + (if line.supplier in order then LinePrice(line) else 0)
    decreases |order|
  {
    if order != [] {
      assert (lines + [line])[..|lines|] == lines;
      SumTotalsSnoc(lines, line, order[1..]);
      if line.supplier == order[0] {
        assert line.supplier !in order[1..] by {
          forall j | 0 <= j < |order[1..]| ensures order[1..][j] != line.supplier {
            assert order[1..][j] == order[j + 1];
          }
        }
      }
    }
  }

  lemma {:induction false} SumTotalsAppend(lines: seq<ItemLine>, order: seq<string>, s: string)
    ensures SumTotals(lines, order + [s]) == SumTotals(lines, order) + SupplierTotal(lines, s)
    decreases |order|
  {
    if order == [] {
      assert order + [s] == [s];
    } else {
      assert (order + [s])[1..] == order[1..] + [s];
      SumTotalsAppend(lines, order[1..], s);
    }
  }

  lemma {:induction false} SupplierTotalAbsent(lines: seq<ItemLine>, s: string)
    requires forall i :: 0 <= i < |lines| ==> lines[i].supplier != s
    ensures SupplierTotal(lines, s) == 0
    decreases |lines|
  {
    if lines != [] {
      SupplierTotalAbsent(lines[..|lines| - 1], s);
    }
  }

  /** Summing the per-supplier totals gives the sum of the rounded line prices:
      rounding happens per line, before any summation, and no line is lost or
      counted twice. */
  lemma {:induction false} SupplierTotalsSum(lines: seq<ItemLine>)
    ensures SumTotals(lines, SupplierOrder(lines)) == SumLinePrices(lines)
    decreases |lines|
  {
    if lines != [] {
      var n := |lines| - 1;
      var prefix := lines[..n];
      var line := lines[n];
      assert lines == prefix + [line];
      SupplierTotalsSum(prefix);
      SupplierOrderDistinct(prefix);
      var order := SupplierOrder(prefix);
      SumTotalsSnoc(prefix, line, order);
      if line.supplier !in order {
        SumTotalsSnoc(prefix, line, order);
        SumTotalsAppend(lines, order, line.supplier);
        SupplierOrderSpec(prefix);
        SupplierTotalAbsent(prefix, line.supplier);
      }
    }
  }

  lemma {:induction false} SumPricesOfOrder(lines: seq<ItemLine>, order: seq<string>)
    ensures SumPrices(seq(|order|, k requires 0 <= k < |order| => SupplierPrice(order[k], SupplierTotal(lines, order[k]))))
         == SumTotals(lines, order)
    decreases |order|
  {
    if order != [] {
      var r := seq(|order|, k requires 0 <= k < |order| => SupplierPrice(order[k], SupplierTotal(lines, order[k])));
      var r' := seq(|order[1..]|, k requires 0 <= k < |order[1..]| => SupplierPrice(order[1..][k], SupplierTotal(lines, order[1..][k])));
      assert r[1..] == r';
      SumPricesOfOrder(lines, order[1..]);
    }
  }

  /** The sum of all `price_usd` of the result is the sum of the per-line
      rounded prices. */
  lemma SupplierPricesSum(lines: seq<ItemLine>)
    ensures SumPrices(SupplierPrices(lines)) == SumLinePrices(lines)
  {
    SumPricesOfOrder(lines, SupplierOrder(lines));
    SupplierTotalsSum(lines);
  }

  /** Two lines of 100.4 each from one supplier total 200, not `Math.round(200.8)`. */
  lemma SupplierPricesRoundPerLine()
    ensures var line := ItemLine("freight", "ACME", 0.0, 0.0, 100.4, 0.0, 1.0, "USD");
            SupplierPrices([line, line]) == [SupplierPrice("ACME", 200)]
  {
    var line := ItemLine("freight", "ACME", 0.0, 0.0, 100.4, 0.0, 1.0, "USD");
    var lines := [line, line];
    assert lines[..1] == [line];
    assert lines[..1][..0] == [];
    assert LinePrice(line) == 100;
    assert SupplierOrder(lines[..1]) == ["ACME"];
    assert SupplierOrder(lines) == ["ACME"];
    assert SupplierTotal(lines[..1], "ACME") == 100;
    assert SupplierTotal(lines, "ACME") == 200;
  }

  // ---------------------------------------------------------------------------
  // getOfferPath

  /** One intermediate location: `{ name, isInLand, label }`, with the label
      named `caption` here. */
  datatype PathStop = PathStop(name: string, isInLand: bool, caption: string)

  /** `location && location !== "-"`. */
  predicate IsPresent(location: string) { location != "" && location != "-" }

  /** The three possible stops, in their fixed order. */
  function PathCandidates(offer: Offer): seq<PathStop> {
    [PathStop(offer.transit_port, false, "Port of transit"),
     PathStop(offer.discharge_port, false, "Port of discharge"),
     PathStop(offer.train_station, true, "Train station")]
  }

  /** The candidates whose location is present, in order. */
  function PresentStops(stops: seq<PathStop>): (r: seq<PathStop>)
    ensures forall s :: s in r <==> s in stops && IsPresent(s.name)
    decreases |stops|
  {
    if stops == [] then []
    else (if IsPresent(stops[0].name) then [stops[0]] else []) + PresentStops(stops[1..])
  }

  /** `getOfferPath(offer)`: pushes each present location in turn. */
  method GetOfferPath(offer: Offer) returns (path: seq<PathStop>)
    ensures path == PresentStops(PathCandidates(offer))
  {
    path := [];
    if IsPresent(offer.transit_port) {
      path := path + [PathStop(offer.transit_port, false, "Port of transit")];
    }
    if IsPresent(offer.discharge_port) {
      path := path + [PathStop(offer.discharge_port, false, "Port of discharge")];
    }
    if IsPresent(offer.train_station) {
      path := path + [PathStop(offer.train_station, true, "Train station")];
    }
    PresentCandidates(offer);
  }

  /** The present stops, one candidate at a time. */
  lemma PresentCandidates(offer: Offer)
    ensures var c := PathCandidates(offer);
            PresentStops(c)
            == (if IsPresent(c[0].name) then [c[0]] else [])
             + (if IsPresent(c[1].name) then [c[1]] else [])
             + (if IsPresent(c[2].name) then [c[2]] else [])
  {
    var c := PathCandidates(offer);
    assert c[1..][1..][1..] == [];
    assert PresentStops(c[1..][1..]) == if IsPresent(c[2].name) then [c[2]] else [];
    assert PresentStops(c[1..]) == (if IsPresent(c[1].name) then [c[1]] else []) + PresentStops(c[1..][1..]);
  }

  /** The path lists at most the three stops, in the fixed order transit port,
      discharge port, train station, each exactly when its location is present;
      only the train station is inland. */
  lemma OfferPathSpec(offer: Offer)
    ensures var path := PresentStops(PathCandidates(offer));
      && |path| <= 3
      && (PathStop(offer.transit_port, false, "Port of transit") in path <==> IsPresent(offer.transit_port))
      && (PathStop(offer.discharge_port, false, "Port of discharge") in path <==> IsPresent(offer.discharge_port))
      && (PathStop(offer.train_station, true, "Train station") in path <==> IsPresent(offer.train_station))
      && (forall s | s in path :: s.isInLand <==> s.caption == "Train station")
      && (forall a, b :: 0 <= a < b < |path| ==> StopRank(path[a]) < StopRank(path[b]))
  {
    PathMembers(offer);
    PathOrder(offer);
  }

  lemma PathMembers(offer: Offer)
    ensures var c := PathCandidates(offer);
            var path := PresentStops(c);
            && |path| <= 3
            && (c[0] in path <==> IsPresent(c[0].name))
            && (c[1] in path <==> IsPresent(c[1].name))
            && (c[2] in path <==> IsPresent(c[2].name))
  {
    var c := PathCandidates(offer);
    PresentCandidates(offer);
    CandidateRanks(offer);
    assert c[0] != c[1] && c[0] != c[2] && c[1] != c[2];
  }

  lemma PathOrder(offer: Offer)
    ensures var path := PresentStops(PathCandidates(offer));
            && (forall s | s in path :: s.isInLand <==> s.caption == "Train station")
            && (forall a, b :: 0 <= a < b < |path| ==> StopRank(path[a]) < StopRank(path[b]))
  {
    var c := PathCandidates(offer);
    CandidateRanks(offer);
    assert forall s | s in c :: s == c[0] || s == c[1] || s == c[2];
    PresentStopsRanked(c, StopRank);
  }

  /** Each stop of `stops` ranks below every later one. */
  predicate Ranked(stops: seq<PathStop>, rank: PathStop -> nat) {
    forall a, b :: 0 <= a < b < |stops| ==> rank(stops[a]) < rank(stops[b])
  }

  /** Dropping the absent stops keeps the survivors in their relative order. */
  lemma {:induction false} PresentStopsRanked(stops: seq<PathStop>, rank: PathStop -> nat)
    requires Ranked(stops, rank)
    ensures Ranked(PresentStops(stops), rank)
    decreases |stops|
  {
    if stops != [] {
      var tl := stops[1..];
      RankedTail(stops, rank);
      PresentStopsRanked(tl, rank);
      var rest := PresentStops(tl);
      if IsPresent(stops[0].name) {
        forall y | y in rest ensures rank(stops[0]) < rank(y) {
          var j :| 0 <= j < |tl| && tl[j] == y;
          assert stops[j + 1] == y;
        }
        RankedCons(stops[0], rest, rank);
      } else {
        assert PresentStops(stops) == rest;
      }
    }
  }

  lemma RankedTail(stops: seq<PathStop>, rank: PathStop -> nat)
    requires stops != [] && Ranked(stops, rank)
    ensures Ranked(stops[1..], rank)
  {
    var tl := stops[1..];
    forall a, b | 0 <= a < b < |tl| ensures rank(tl[a]) < rank(tl[b]) {
      assert tl[a] == stops[a + 1] && tl[b] == stops[b + 1];
    }
  }

  lemma RankedCons(x: PathStop, rest: seq<PathStop>, rank: PathStop -> nat)
    requires Ranked(rest, rank) && forall y | y in rest :: rank(x) < rank(y)
    ensures Ranked([x] + rest, rank)
  {
    var r := [x] + rest;
    forall a, b | 0 <= a < b < |r| ensures rank(r[a]) < rank(r[b]) {
      assert r[b] == rest[b - 1];
      if a > 0 {
        assert r[a] == rest[a - 1];
      } else {
        assert rest[b - 1] in rest;
      }
    }
  }

  /** The captions tell the three candidates apart. */
  lemma CandidateRanks(offer: Offer)
    ensures var c := PathCandidates(offer);
            && StopRank(c[0]) == 0 && StopRank(c[1]) == 1 && StopRank(c[2]) == 2
            && !c[0].isInLand && !c[1].isInLand && c[2].isInLand
            && c[0].caption != "Train station" && c[1].caption != "Train station" && c[2].caption == "Train station"
  {
    TransitNotDischarge();
    TransitNotTrain();
    DischargeNotTrain();
  }

  lemma TransitNotDischarge() ensures "Port of transit" != "Port of discharge" {
    assert "Port of transit"[8] != "Port of discharge"[8];
  }

  lemma TransitNotTrain() ensures "Port of transit" != "Train station" {
    assert "Port of transit"[0] != "Train station"[0];
  }

  lemma DischargeNotTrain() ensures "Port of discharge" != "Train station" {
    assert "Port of discharge"[0] != "Train station"[0];
  }

  /** The position of a stop's kind in the fixed order. */
  function StopRank(s: PathStop): nat {
    if s.caption == "Port of transit" then 0 else if s.caption == "Port of discharge" then 1 else 2
  }

  // ---------------------------------------------------------------------------
  // multiplyOfferPrices

  /** One line with its local and USD prices scaled by the container counts. */
  function ScaleLine(line: ItemLine, num20: real, num40: real): ItemLine {
    line.(price_20 := line.price_20 * num20, price_40 := line.price_40 * num40,
          price_20_usd := line.price_20_usd * num20, price_40_usd := line.price_40_usd * num40)
  }

  function ScaleLines(lines: seq<ItemLine>, num20: real, num40: real): (r: seq<ItemLine>)
    ensures |r| == |lines|
    ensures forall i :: 0 <= i < |lines| ==> r[i] == ScaleLine(lines[i], num20, num40)
  {
    seq(|lines|, i requires 0 <= i < |lines| => ScaleLine(lines[i], num20, num40))
  }

  /** A price list with its lines scaled and everything else, its own totals
      included, copied as it was. */
  function ScalePriceList(priceList: PriceList, num20: real, num40: real): (r: PriceList)
    ensures r.(details := priceList.details) == priceList
    ensures |r.details| == |priceList.details|
    ensures forall j :: 0 <= j < |priceList.details| ==> LineScaled(priceList.details[j], r.details[j], num20, num40)
  {
    priceList.(details := ScaleLines(priceList.details, num20, num40))
  }

  /** `multiplyOfferPrices(offer, num20, num40)`. */
  function MultiplyOfferPrices(offer: Offer, num20: real, num40: real): Offer {
    offer.(
      total_price_20_usd := offer.total_price_20_usd * num20,
      total_price_40_usd := offer.total_price_40_usd * num40,
      weight_limit := WeightLimit(offer.weight_limit.w_20 * num20, offer.weight_limit.w_40 * num40),
      details := ScaleLines(offer.details, num20, num40),
      priceLists := seq(|offer.priceLists|, i requires 0 <= i < |offer.priceLists| =>
                          ScalePriceList(offer.priceLists[i], num20, num40)))
  }

  /** What is scaled and what is left: the 20-foot prices and weight by `num20`,
      the 40-foot ones by `num40`, on the offer and on every line of the offer
      and of each price list; the number and order of lines and price lists, the
      other line fields, and every price-list field besides `details` unchanged. */
  lemma MultiplyOfferPricesSpec(offer: Offer, num20: real, num40: real)
    ensures var r := MultiplyOfferPrices(offer, num20, num40);
      && r.total_price_20_usd == offer.total_price_20_usd * num20
      && r.total_price_40_usd == offer.total_price_40_usd * num40
      && r.weight_limit.w_20 == offer.weight_limit.w_20 * num20
      && r.weight_limit.w_40 == offer.weight_limit.w_40 * num40
      && r.(total_price_20_usd := offer.total_price_20_usd, total_price_40_usd := offer.total_price_40_usd,
            weight_limit := offer.weight_limit, details := offer.details, priceLists := offer.priceLists) == offer
      && |r.details| == |offer.details|
      && (forall i :: 0 <= i < |offer.details| ==> LineScaled(offer.details[i], r.details[i], num20, num40))
      && |r.priceLists| == |offer.priceLists|
      && (forall i :: 0 <= i < |offer.priceLists| ==>
            r.priceLists[i].(details := offer.priceLists[i].details) == offer.priceLists[i]
            && |r.priceLists[i].details| == |offer.priceLists[i].details|
            && forall j :: 0 <= j < |offer.priceLists[i].details| ==>
                 LineScaled(offer.priceLists[i].details[j], r.priceLists[i].details[j], num20, num40))
  {
  }

  /** `after` is `before` with its four prices scaled and all else kept. */
  predicate LineScaled(before: ItemLine, after: ItemLine, num20: real, num40: real) {
    && after.price_20 == before.price_20 * num20
    && after.price_40 == before.price_40 * num40
    && after.price_20_usd == before.price_20_usd * num20
    && after.price_40_usd == before.price_40_usd * num40
    && after.item_line == before.item_line
    && after.supplier == before.supplier
    && after.currency == before.currency
    && after.currency_code == before.currency_code
  }

  /** One container of each kind leaves the offer as it was. */
  lemma MultiplyByOne(offer: Offer)
    ensures MultiplyOfferPrices(offer, 1.0, 1.0) == offer
  {
    var r := MultiplyOfferPrices(offer, 1.0, 1.0);
    assert r.details == offer.details;
    forall i | 0 <= i < |offer.priceLists| ensures r.priceLists[i] == offer.priceLists[i] {
      assert r.priceLists[i].details == offer.priceLists[i].details;
    }
    assert r.priceLists == offer.priceLists;
  }

  /** No containers zero every scaled field. */
  lemma MultiplyByZero(offer: Offer)
    ensures var r := MultiplyOfferPrices(offer, 0.0, 0.0);
      && r.total_price_20_usd == 0.0 && r.total_price_40_usd == 0.0
      && r.weight_limit == WeightLimit(0.0, 0.0)
      && (forall l | l in r.details :: l.price_20 == l.price_40 == l.price_20_usd == l.price_40_usd == 0.0)
      && (forall p | p in r.priceLists ::
            forall l | l in p.details :: l.price_20 == l.price_40 == l.price_20_usd == l.price_40_usd == 0.0)
  {
  }

  /** Scaling twice is scaling once by the products. */
  lemma MultiplyCompose(offer: Offer, a20: real, a40: real, b20: real, b40: real)
    ensures MultiplyOfferPrices(MultiplyOfferPrices(offer, a20, a40), b20, b40)
         == MultiplyOfferPrices(offer, a20 * b20, a40 * b40)
  {
    var once := MultiplyOfferPrices(offer, a20, a40);
    var twice := MultiplyOfferPrices(once, b20, b40);
    var direct := MultiplyOfferPrices(offer, a20 * b20, a40 * b40);
    ScaleLinesCompose(offer.details, a20, a40, b20, b40);
    forall i | 0 <= i < |offer.priceLists| ensures twice.priceLists[i] == direct.priceLists[i] {
      ScaleLinesCompose(offer.priceLists[i].details, a20, a40, b20, b40);
    }
    assert twice.priceLists == direct.priceLists;
    MulAssoc(offer.total_price_20_usd, a20, b20);
    MulAssoc(offer.total_price_40_usd, a40, b40);
    MulAssoc(offer.weight_limit.w_20, a20, b20);
    MulAssoc(offer.weight_limit.w_40, a40, b40);
  }

  lemma MulAssoc(x: real, a: real, b: real)
    ensures x * a * b == x * (a * b)
  {
  }

  lemma ScaleLinesCompose(lines: seq<ItemLine>, a20: real, a40: real, b20: real, b40: real)
    ensures ScaleLines(ScaleLines(lines, a20, a40), b20, b40) == ScaleLines(lines, a20 * b20, a40 * b40)
  {
    forall i | 0 <= i < |lines|
      ensures ScaleLine(ScaleLine(lines[i], a20, a40), b20, b40) == ScaleLine(lines[i], a20 * b20, a40 * b40)
    {
      ScaleLineCompose(lines[i], a20, a40, b20, b40);
    }
  }

  lemma ScaleLineCompose(l: ItemLine, a20: real, a40: real, b20: real, b40: real)
    ensures ScaleLine(ScaleLine(l, a20, a40), b20, b40) == ScaleLine(l, a20 * b20, a40 * b40)
  {
    MulAssoc(l.price_20, a20, b20);
    MulAssoc(l.price_40, a40, b40);
    MulAssoc(l.price_20_usd, a20, b20);
    MulAssoc(l.price_40_usd, a40, b40);
  }

  /** The sum of the 20-foot USD prices of some lines. */
  function Sum20Usd(lines: seq<ItemLine>): real
    decreases |lines|
  {
    if lines == [] then 0.0 else lines[0].price_20_usd + Sum20Usd(lines[1..])
  }

  /** The sum of the lines' 20-foot USD prices scales with `num20`. */
  lemma {:induction false} ScaledLinesSum(lines: seq<ItemLine>, num20: real, num40: real)
    ensures Sum20Usd(ScaleLines(lines, num20, num40)) == Sum20Usd(lines) * num20
    decreases |lines|
  {
    if lines != [] {
      assert ScaleLines(lines, num20, num40)[1..] == ScaleLines(lines[1..], num20, num40);
      ScaledLinesSum(lines[1..], num20, num40);
    }
  }
}
