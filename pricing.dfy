/** The pricing calculator: `price_item` looks a SKU up in the pricing table
    and breaks its cost down, and `price_from_technical_result` prices the
    best match of every requirement line and adds the costs up. */
module Pricing {
  import opened Seqs
  import opened Matching

  /** One row of the pricing table. */
  datatype PricingRow = PricingRow(
    skuId: string,
    baseMaterialCost: real,
    testingCost: real,
    currency: string)

  /** The answer of `price_item`: either the "not found" record or the cost
      breakdown of the row. */
  datatype PriceInfo =
    | NotFound(skuId: string, message: string)
    | Found(
        skuId: string,
        currency: string,
        quantity: real,
        baseMaterialCost: real,
        testingCost: real,
        totalMaterialCost: real,
        totalTestingCost: real,
        totalCost: real)

  const NoPricing: string := "No pricing available"

  /** The currency the batch reports, whatever the rows say. */
  const BatchCurrency: string := "INR"

  /** `price_item`: an unknown SKU gives the "not found" record; a known one
      gives its row's unit costs, each multiplied by the quantity, and their
      sum. */
  function PriceItem(pricing: map<string, PricingRow>, skuId: string, quantity: real := 1.0): (p: PriceInfo)
    ensures p.NotFound? <==> skuId !in pricing
    ensures p.NotFound? ==> p.skuId == skuId && p.message == NoPricing
    ensures p.Found? ==>
              p.skuId == pricing[skuId].skuId && p.currency == pricing[skuId].currency &&
              p.quantity == quantity &&
              p.baseMaterialCost == pricing[skuId].baseMaterialCost &&
              p.testingCost == pricing[skuId].testingCost
    ensures p.Found? ==>
              p.totalMaterialCost == pricing[skuId].baseMaterialCost * quantity &&
              p.totalTestingCost == pricing[skuId].testingCost * quantity
    ensures p.Found? ==> p.totalCost == p.totalMaterialCost + p.totalTestingCost
  {
    if skuId !in pricing then NotFound(skuId, NoPricing)
    else
      var row := pricing[skuId];
      var totalMaterial := row.baseMaterialCost * quantity;
      var totalTesting := row.testingCost * quantity;
      Found(row.skuId, row.currency, quantity, row.baseMaterialCost, row.testingCost,
            totalMaterial, totalTesting, totalMaterial + totalTesting)
  }

  /** The cost of a known SKU is the quantity times the sum of its two unit
      costs, so it is linear in the quantity. */
  lemma PriceItemLinear(pricing: map<string, PricingRow>, skuId: string, q1: real, q2: real)
    requires skuId in pricing
    ensures PriceItem(pricing, skuId, q1).totalCost ==
            q1 * (pricing[skuId].baseMaterialCost + pricing[skuId].testingCost)
    ensures PriceItem(pricing, skuId, q1 + q2).totalCost ==
            PriceItem(pricing, skuId, q1).totalCost + PriceItem(pricing, skuId, q2).totalCost
  {
    var row := pricing[skuId];
    assert row.baseMaterialCost * (q1 + q2) == row.baseMaterialCost * q1 + row.baseMaterialCost * q2;
    assert row.testingCost * (q1 + q2) == row.testingCost * q1 + row.testingCost * q2;
  }

  /** With non-negative unit costs and quantity, every total is non-negative. */
  lemma PriceItemNonNegative(pricing: map<string, PricingRow>, skuId: string, quantity: real)
    requires skuId in pricing && quantity >= 0.0
    requires pricing[skuId].baseMaterialCost >= 0.0 && pricing[skuId].testingCost >= 0.0
    ensures PriceItem(pricing, skuId, quantity).totalMaterialCost >= 0.0
    ensures PriceItem(pricing, skuId, quantity).totalTestingCost >= 0.0
    ensures PriceItem(pricing, skuId, quantity).totalCost >= 0.0
  {
  }

  /** A table keyed by each row's own SKU id answers with the id it is asked
      for. */
  lemma PriceItemEchoesId(pricing: map<string, PricingRow>, skuId: string, quantity: real)
    requires forall k :: k in pricing ==> pricing[k].skuId == k
    ensures PriceItem(pricing, skuId, quantity).skuId == skuId
  {
  }

  /** `match_score`: the best candidate's score, or "-" when there is none. */
  datatype MatchScore = Dash | Points(points: int)

  /** One entry of `priced_items`. */
  datatype PricedItem = PricedItem(
    rfpItem: string,
    bestMatchSku: string,
    matchScore: MatchScore,
    pricing: Option<PriceInfo>)

  /** The output of `price_from_technical_result`. */
  datatype PricedBatch = PricedBatch(
    pricedItems: seq<PricedItem>,
    grandTotal: real,
    currency: string)

  /** The entry for one line: a placeholder when it has no match, otherwise
      its first match priced at quantity one. */
  function PriceLine(pricing: map<string, PricingRow>, r: MatchResult): PricedItem
  {
    if r.topMatches == [] then PricedItem(r.rfpItem, "-", Dash, None)
    else
      var best := r.topMatches[0];
      PricedItem(r.rfpItem, best.skuId, Points(best.score), Some(PriceItem(pricing, best.skuId, 1.0)))
  }

  /** The entries for all lines, in order. */
  function PriceAll(pricing: map<string, PricingRow>, items: seq<MatchResult>): (r: seq<PricedItem>)
    ensures |r| == |items|
  {
    if items == [] then []
    else PriceAll(pricing, items[..|items| - 1]) + [PriceLine(pricing, items[|items| - 1])]
  }

  /** What an entry adds to the grand total: its cost when its SKU was found. */
  function Contribution(p: PricedItem): real
  {
    if p.pricing.Some? && p.pricing.value.Found? then p.pricing.value.totalCost else 0.0
  }

  /** The sum of the contributions. */
  function FoundSum(priced: seq<PricedItem>): real
  {
    if priced == [] then 0.0
    else FoundSum(priced[..|priced| - 1]) + Contribution(priced[|priced| - 1])
  }

  /** `price_from_technical_result` on the lines produced by the matcher. */
  method PriceFromTechnicalResult(pricing: map<string, PricingRow>, items: seq<MatchResult>)
    returns (batch: PricedBatch)
    ensures batch.pricedItems == PriceAll(pricing, items)
    ensures batch.grandTotal == FoundSum(batch.pricedItems)
    ensures batch.currency == BatchCurrency
  {
    var pricedItems: seq<PricedItem> := [];
    var grandTotal := 0.0;
    for k := 0 to |items|
      invariant pricedItems == PriceAll(pricing, items[..k])
      invariant grandTotal == FoundSum(pricedItems)
    {
      assert items[..k + 1][..k] == items[..k];
      var item := items[k];
      var entry: PricedItem;
      if item.topMatches == [] {
        entry := PricedItem(item.rfpItem, "-", Dash, None);
      } else {
        var best := item.topMatches[0];
        var info := PriceItem(pricing, best.skuId, 1.0);
        if info.Found? {
          grandTotal := grandTotal + info.totalCost;
        }
        entry := PricedItem(item.rfpItem, best.skuId, Points(best.score), Some(info));
      }
      assert (pricedItems + [entry])[..|pricedItems|] == pricedItems;
      pricedItems := pricedItems + [entry];
    }
    assert items[..|items|] == items;
    batch := PricedBatch(pricedItems, grandTotal, BatchCurrency);
  }

  lemma {:induction false} PriceAllAt(pricing: map<string, PricingRow>, items: seq<MatchResult>)
    ensures forall k :: 0 <= k < |items| ==> PriceAll(pricing, items)[k] == PriceLine(pricing, items[k])
  {
    if items != [] {
      var n := |items| - 1;
      PriceAllAt(pricing, items[..n]);
      assert forall k :: 0 <= k < n ==> items[..n][k] == items[k];
    }
  }

  /** One entry per line, in order, each carrying its line. */
  lemma BatchShape(pricing: map<string, PricingRow>, items: seq<MatchResult>)
    ensures |PriceAll(pricing, items)| == |items|
    ensures forall k :: 0 <= k < |items| ==> PriceAll(pricing, items)[k].rfpItem == items[k].rfpItem
  {
    PriceAllAt(pricing, items);
  }

  /** A line without a match gives the placeholder entry, which adds nothing. */
  lemma UnmatchedLine(pricing: map<string, PricingRow>, r: MatchResult)
    requires r.topMatches == []
    ensures PriceLine(pricing, r) == PricedItem(r.rfpItem, "-", Dash, None)
    ensures Contribution(PriceLine(pricing, r)) == 0.0
  {
  }

  /** Only the first match is priced, at quantity one, and its id and score
      are reported; the other matches play no part. */
  lemma TopOneOnly(pricing: map<string, PricingRow>, r: MatchResult, others: seq<Candidate>)
    requires r.topMatches != []
    ensures PriceLine(pricing, r).bestMatchSku == r.topMatches[0].skuId
    ensures PriceLine(pricing, r).matchScore == Points(r.topMatches[0].score)
    ensures PriceLine(pricing, r).pricing == Some(PriceItem(pricing, r.topMatches[0].skuId, 1.0))
    ensures PriceLine(pricing, r) == PriceLine(pricing, r.(topMatches := [r.topMatches[0]] + others))
  {
  }

  lemma {:induction false} FoundSumAppend(a: seq<PricedItem>, b: seq<PricedItem>)
    ensures FoundSum(a + b) == FoundSum(a) + FoundSum(b)
    decreases |b|
  {
    if b == [] {
      assert a + b == a;
    } else {
      var n := |b| - 1;
      FoundSumAppend(a, b[..n]);
      assert (a + b)[..|a + b| - 1] == a + b[..n];
    }
  }

  /** The unit cost of the SKU a line's first match names, when the table
      knows it, and zero otherwise. */
  function LineCost(pricing: map<string, PricingRow>, r: MatchResult): real
  {
    if r.topMatches != [] && r.topMatches[0].skuId in pricing then
      var row := pricing[r.topMatches[0].skuId];
      row.baseMaterialCost + row.testingCost
    else 0.0
  }

  function LinesCost(pricing: map<string, PricingRow>, items: seq<MatchResult>): real
  {
    if items == [] then 0.0
    else LinesCost(pricing, items[..|items| - 1]) + LineCost(pricing, items[|items| - 1])
  }

  /** The grand total is the sum, over the lines with a match whose SKU the
      table knows, of that SKU's material and testing unit costs; lines
      without a match and SKUs without a row add nothing. */
  lemma {:induction false} GrandTotalFromRows(pricing: map<string, PricingRow>, items: seq<MatchResult>)
    ensures FoundSum(PriceAll(pricing, items)) == LinesCost(pricing, items)
  {
    if items != [] {
      var n := |items| - 1;
      GrandTotalFromRows(pricing, items[..n]);
      var priced := PriceAll(pricing, items);
      assert priced[..n] == PriceAll(pricing, items[..n]);
      var r := items[n];
      if r.topMatches != [] && r.topMatches[0].skuId in pricing {
        var row := pricing[r.topMatches[0].skuId];
        assert Contribution(priced[n]) == row.baseMaterialCost * 1.0 + row.testingCost * 1.0;
      }
    }
  }

  /** With non-negative unit costs in the table, the grand total is
      non-negative. */
  lemma {:induction false} GrandTotalNonNegative(pricing: map<string, PricingRow>, items: seq<MatchResult>)
    requires forall k :: k in pricing ==>
               pricing[k].baseMaterialCost >= 0.0 && pricing[k].testingCost >= 0.0
    ensures FoundSum(PriceAll(pricing, items)) >= 0.0
  {
    LinesCostNonNegative(pricing, items);
    GrandTotalFromRows(pricing, items);
  }

  lemma {:induction false} LinesCostNonNegative(pricing: map<string, PricingRow>, items: seq<MatchResult>)
    requires forall k :: k in pricing ==>
               pricing[k].baseMaterialCost >= 0.0 && pricing[k].testingCost >= 0.0
    ensures LinesCost(pricing, items) >= 0.0
  {
    if items != [] {
      LinesCostNonNegative(pricing, items[..|items| - 1]);
    }
  }

  /** Priced one after the other, two runs of lines add up. */
  lemma GrandTotalAppend(pricing: map<string, PricingRow>, a: seq<MatchResult>, b: seq<MatchResult>)
    ensures PriceAll(pricing, a + b) == PriceAll(pricing, a) + PriceAll(pricing, b)
    ensures FoundSum(PriceAll(pricing, a + b)) == FoundSum(PriceAll(pricing, a)) + FoundSum(PriceAll(pricing, b))
  {
    PriceAllAppend(pricing, a, b);
    FoundSumAppend(PriceAll(pricing, a), PriceAll(pricing, b));
  }

  lemma {:induction false} PriceAllAppend(pricing: map<string, PricingRow>, a: seq<MatchResult>, b: seq<MatchResult>)
    ensures PriceAll(pricing, a + b) == PriceAll(pricing, a) + PriceAll(pricing, b)
    decreases |b|
  {
    if b == [] {
      assert a + b == a;
    } else {
      var n := |b| - 1;
      PriceAllAppend(pricing, a, b[..n]);
      assert (a + b)[..|a + b| - 1] == a + b[..n];
    }
  }

  /** For a matcher result, the reported score of a line is the highest
      score any catalog entry reaches for it, and the placeholder appears
      exactly when no entry scores above zero. */
  lemma MatchedLineScore(pricing: map<string, PricingRow>, line: string, catalog: seq<Sku>)
    ensures var p := PriceLine(pricing, MatchResult(line, TopMatches(line, catalog)));
            (p.matchScore == Dash <==> forall i :: 0 <= i < |catalog| ==> Score(line, catalog[i]) == 0) &&
            (p.matchScore.Points? ==>
               (exists i :: 0 <= i < |catalog| && Score(line, catalog[i]) == p.matchScore.points) &&
               forall i :: 0 <= i < |catalog| ==> Score(line, catalog[i]) <= p.matchScore.points)
  {
    FirstMatchIsBest(line, catalog);
    var top := TopMatches(line, catalog);
    if top != [] {
      var idx := ScoredProvenance(line, catalog);
      var scored := Scored(line, catalog);
      var sorted := SortByScore(scored);
      assert top[0] == sorted[0];
      assert sorted[0] in scored by {
        SortedMembers(scored);
      }
      var k :| 0 <= k < |scored| && scored[k] == sorted[0];
      assert Score(line, catalog[idx[k]]) == top[0].score;
    }
  }
}
