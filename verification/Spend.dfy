/** tools/spend.py: per-model token totals, rate cards and session prices, with prices as
    exact dollars. */
module Spend {
  import opened Wrappers
  import Text
  import opened Grouping

  /** The recorded counts of one call or one bucket; a missing count is zero. */
  datatype Tokens = Tokens(prompt: int, completion: int, cacheRead: int, cacheWrite: int, reasoning: int)

  datatype Field = Prompt | Completion | CacheRead | CacheWrite | Reasoning

  function Count(t: Tokens, field: Field): int {
    match field
    case Prompt => t.prompt
    case Completion => t.completion
    case CacheRead => t.cacheRead
    case CacheWrite => t.cacheWrite
    case Reasoning => t.reasoning
  }

  const ZERO := Tokens(0, 0, 0, 0, 0)

  function Plus(a: Tokens, b: Tokens): Tokens {
    Tokens(a.prompt + b.prompt, a.completion + b.completion, a.cacheRead + b.cacheRead,
           a.cacheWrite + b.cacheWrite, a.reasoning + b.reasoning)
  }

  datatype Call = Call(model: string, tokens: Tokens)
  datatype Service = Service(calls: seq<Call>, accumulated: Tokens)

  const UNKNOWN := "unknown"

  /** Every recorded bucket with the model it is booked under: the calls of a service, or its
      accumulated bucket when it has none. */
  function ServiceEntries(service: Service): seq<Call> {
    if service.calls == [] then [Call(UNKNOWN, service.accumulated)]
    else AllBooked(service.calls)
  }

  function AllBooked(calls: seq<Call>): seq<Call> {
    seq(|calls|, i requires 0 <= i < |calls| => Booked(calls[i]))
  }

  function Booked(call: Call): Call {
    if call.model == "" then Call(UNKNOWN, call.tokens) else call
  }

  function Entries(services: seq<Service>): seq<Call> {
    if services == [] then [] else Entries(services[..|services| - 1]) + ServiceEntries(services[|services| - 1])
  }

  function TotalFor(entries: seq<Call>, model: string): Tokens {
    if entries == [] then ZERO
    else
      var rest, last := TotalFor(entries[..|entries| - 1], model), entries[|entries| - 1];
      if last.model == model then Plus(rest, last.tokens) else rest
  }

  /** The distinct models in order of first appearance: the insertion order of the dict. */
  function Models(entries: seq<Call>): seq<string> {
    if entries == [] then []
    else
      var rest := Models(entries[..|entries| - 1]);
      if entries[|entries| - 1].model in rest then rest else rest + [entries[|entries| - 1].model]
  }

  /** A Python dict of buckets: its values and its insertion order. */
  ghost predicate IsTotals(totals: map<string, Tokens>, order: seq<string>, entries: seq<Call>) {
    && order == Models(entries)
    && (forall model :: model in totals <==> model in order)
    && forall model | model in totals :: totals[model] == TotalFor(entries, model)
  }

  lemma {:induction false} ModelsDistinct(entries: seq<Call>)
    ensures Distinct(Models(entries))
    ensures forall i | 0 <= i < |entries| :: entries[i].model in Models(entries)
    ensures forall model | model !in Models(entries) :: TotalFor(entries, model) == ZERO
  {
    if entries != [] {
      ModelsDistinct(entries[..|entries| - 1]);
      assert forall i | 0 <= i < |entries| - 1 :: entries[..|entries| - 1][i] == entries[i];
    }
  }

  /** `setdefault` followed by the per-field additions. */
  method AddToBucket(totals: map<string, Tokens>, order: seq<string>, entry: Call, ghost entries: seq<Call>)
    returns (totals': map<string, Tokens>, order': seq<string>)
    requires IsTotals(totals, order, entries)
    ensures IsTotals(totals', order', entries + [entry])
  {
    totals', order' := totals, order;
    ghost var longer := entries + [entry];
    assert longer[..|longer| - 1] == entries && longer[|longer| - 1] == entry;
    ModelsDistinct(entries);
    if entry.model !in totals' {
      totals', order' := totals'[entry.model := ZERO], order' + [entry.model];
    }
    totals' := totals'[entry.model := Plus(totals'[entry.model], entry.tokens)];
  }

  method AddCalls(totals: map<string, Tokens>, order: seq<string>, calls: seq<Call>, ghost entries: seq<Call>)
    returns (totals': map<string, Tokens>, order': seq<string>)
    requires IsTotals(totals, order, entries)
    ensures IsTotals(totals', order', entries + AllBooked(calls))
  {
    totals', order' := totals, order;
    assert entries + AllBooked(calls)[..0] == entries;
    for c := 0 to |calls|
      invariant IsTotals(totals', order', entries + AllBooked(calls)[..c])
    {
      var entry := Booked(calls[c]);
      totals', order' := AddToBucket(totals', order', entry, entries + AllBooked(calls)[..c]);
      assert entries + AllBooked(calls)[..c] + [entry] == entries + AllBooked(calls)[..c + 1];
    }
    assert AllBooked(calls)[..|calls|] == AllBooked(calls);
  }

  /** `usage_by_model`. */
  method UsageByModel(services: seq<Service>) returns (totals: map<string, Tokens>, order: seq<string>)
    ensures IsTotals(totals, order, Entries(services))
  {
    totals, order := map[], [];
    for s := 0 to |services|
      invariant IsTotals(totals, order, Entries(services[..s]))
    {
      var service := services[s];
      assert services[..s + 1][..s] == services[..s];
      if service.calls != [] {
        totals, order := AddCalls(totals, order, service.calls, Entries(services[..s]));
      } else {
        totals, order := AddToBucket(totals, order, Call(UNKNOWN, service.accumulated), Entries(services[..s]));
      }
    }
    assert services[..|services|] == services;
  }

  // ----- rates -----

  /** Dollars per million tokens. */
  datatype Card = Card(miss: real, hit: real, output: real)
  datatype Cards = Cards(offPeak: Card, peak: Card)

  /** The rate cards, and the names of retired models with the model that serves them. */
  datatype RateTable = RateTable(cards: map<string, Cards>, aliases: map<string, string>)

  const PRICE_TABLE := RateTable(
    map["deepseek-flash" := Cards(Card(0.15, 0.003, 0.60), Card(0.30, 0.006, 1.20)),
        "deepseek-v4-pro" := Cards(Card(0.66, 0.022, 1.98), Card(1.32, 0.044, 3.96))],
    map["deepseek-v4-flash" := "deepseek-flash", "deepseek-v4-flash-vision-exp" := "deepseek-flash"])

  /** `name.rsplit("/", 1)[-1]`. */
  function Leaf(name: string): string
    decreases |name|
  {
    if '/' !in name then name else Leaf(name[1..])
  }

  /** The billed model behind a recorded name; None is unpriced. */
  function CardsFor(table: RateTable, model: string): Option<Cards> {
    var leaf := Leaf(Text.Lower(model));
    var name := if leaf in table.aliases then table.aliases[leaf] else leaf;
    if model != "" && name in table.cards then Some(table.cards[name]) else None
  }

  function RatesFor(table: RateTable, model: string, peak: bool): Option<Card> {
    match CardsFor(table, model)
    case Some(cards) => Some(if peak then cards.peak else cards.offPeak)
    case None => None
  }

  predicate Priced(table: RateTable, model: string) { CardsFor(table, model).Some? }

  /** Fresh prompt tokens, cache reads and output tokens to millionths of a dollar. */
  type Pricing = (int, int, int) -> real

  function PricingOf(card: Card): Pricing {
    (fresh_: int, read: int, output: int) =>
      fresh_ as real * card.miss + read as real * card.hit + output as real * card.output
  }

  function UsagePrice(pricing: Pricing, usage: Tokens): real {
    pricing(Clamp(usage.prompt - usage.cacheRead), usage.cacheRead, usage.completion)
  }

  /** `cost_for`, with the amount in millionths of a dollar. */
  function CostFor(table: RateTable, model: string, usage: Tokens, peak: bool): (real, bool) {
    match RatesFor(table, model, peak)
    case Some(card) => (UsagePrice(PricingOf(card), usage), true)
    case None => (0.0, false)
  }

  // ----- a session -----

  /** What a bucket of a model costs, and whether the table covers the model. */
  type Coster = (string, Tokens) -> (real, bool)

  function CosterOf(table: RateTable, peak: bool): Coster {
    (model: string, usage: Tokens) => CostFor(table, model, usage, peak)
  }

  ghost predicate Covers(cost: Coster, covered: string -> bool) {
    forall model, usage :: cost(model, usage).1 == covered(model) && (!covered(model) ==> cost(model, usage).0 == 0.0)
  }

  function TotalCost(order: seq<string>, entries: seq<Call>, cost: Coster): real {
    if order == [] then 0.0
    else TotalCost(order[..|order| - 1], entries, cost)
         + cost(order[|order| - 1], TotalFor(entries, order[|order| - 1])).0
  }

  function SumModels(order: seq<string>, entries: seq<Call>): Tokens {
    if order == [] then ZERO
    else Plus(SumModels(order[..|order| - 1], entries), TotalFor(entries, order[|order| - 1]))
  }

  /** The tokens of the models of a list that are covered, or of those that are not. */
  function SumWhere(order: seq<string>, entries: seq<Call>, covered: string -> bool, want: bool): Tokens {
    if order == [] then ZERO
    else
      var rest, model := SumWhere(order[..|order| - 1], entries, covered, want), order[|order| - 1];
      if covered(model) == want then Plus(rest, TotalFor(entries, model)) else rest
  }

  /** The loop of `price_session`, for any way of costing a bucket. */
  method PriceTotals(totals: map<string, Tokens>, order: seq<string>, cost: Coster,
                     ghost entries: seq<Call>, ghost covered: string -> bool)
    returns (total: real, unpriced: Tokens, unpricedModels: set<string>)
    requires IsTotals(totals, order, entries) && Covers(cost, covered)
    ensures total == TotalCost(order, entries, cost)
    ensures unpriced == SumWhere(order, entries, covered, false)
    ensures forall model :: model in unpricedModels <==> model in order && !covered(model)
  {
    total, unpriced, unpricedModels := 0.0, ZERO, {};
    for i := 0 to |order|
      invariant total == TotalCost(order[..i], entries, cost)
      invariant unpriced == SumWhere(order[..i], entries, covered, false)
      invariant forall model :: model in unpricedModels <==> model in order[..i] && !covered(model)
    {
      var model := order[i];
      assert order[..i + 1][..i] == order[..i];
      var (usd, priced) := cost(model, totals[model]);
      if priced {
        total := total + usd;
      } else {
        unpricedModels := unpricedModels + {model};
        unpriced := Plus(unpriced, totals[model]);
      }
    }
    assert order[..|order|] == order;
  }

  lemma CosterCovers(table: RateTable, peak: bool)
    ensures Covers(CosterOf(table, peak), model => Priced(table, model))
  {}

  /** `price_session`. */
  method PriceSession(services: seq<Service>, table: RateTable, peak: bool)
    returns (total: real, unpriced: Tokens, unpricedModels: set<string>)
    ensures total == TotalCost(Models(Entries(services)), Entries(services), CosterOf(table, peak))
    ensures unpriced == SumWhere(Models(Entries(services)), Entries(services), m => Priced(table, m), false)
    ensures forall m :: m in unpricedModels <==> m in Models(Entries(services)) && !Priced(table, m)
  {
    var totals, order := UsageByModel(services);
    ghost var covered := m => Priced(table, m);
    CosterCovers(table, peak);
    total, unpriced, unpricedModels := PriceTotals(totals, order, CosterOf(table, peak), Entries(services), covered);
  }

  // ----- conservation -----

  function SumTokens(entries: seq<Call>): Tokens {
    if entries == [] then ZERO else Plus(SumTokens(entries[..|entries| - 1]), entries[|entries| - 1].tokens)
  }

  /** One field of the entries, keyed by model. */
  function Keyed(entries: seq<Call>, field: Field): seq<(string, int)> {
    seq(|entries|, i requires 0 <= i < |entries| => (entries[i].model, Count(entries[i].tokens, field)))
  }

  lemma {:induction false} KeyedSums(entries: seq<Call>, field: Field, model: string)
    ensures Sum(Keyed(entries, field)) == Count(SumTokens(entries), field)
    ensures SumFor(Keyed(entries, field), model) == Count(TotalFor(entries, model), field)
  {
    if entries != [] {
      var n := |entries| - 1;
      KeyedSums(entries[..n], field, model);
      assert Keyed(entries, field)[..n] == Keyed(entries[..n], field);
    }
  }

  lemma {:induction false} SumModelsField(order: seq<string>, entries: seq<Call>, field: Field)
    ensures Count(SumModels(order, entries), field) == SumOver(order, Keyed(entries, field))
  {
    if order != [] {
      SumModelsField(order[..|order| - 1], entries, field);
      KeyedSums(entries, field, order[|order| - 1]);
    }
  }

  lemma {:induction false} WhereSplits(order: seq<string>, entries: seq<Call>, covered: string -> bool)
    ensures Plus(SumWhere(order, entries, covered, true), SumWhere(order, entries, covered, false))
         == SumModels(order, entries)
  {
    if order != [] {
      WhereSplits(order[..|order| - 1], entries, covered);
    }
  }

  /** Token conservation: in every field, what is priced plus what is reported unpriced is
      everything that was recorded, whatever the table covers. */
  lemma TokensConserved(services: seq<Service>, covered: string -> bool, field: Field)
    ensures var entries := Entries(services);
            Count(SumWhere(Models(entries), entries, covered, true), field)
            + Count(SumWhere(Models(entries), entries, covered, false), field)
            == Count(SumTokens(entries), field)
  {
    var entries := Entries(services);
    var keyed := Keyed(entries, field);
    ModelsDistinct(entries);
    WhereSplits(Models(entries), entries, covered);
    SumModelsField(Models(entries), entries, field);
    assert forall i | 0 <= i < |keyed| :: keyed[i].0 == entries[i].model;
    GroupedSum(Models(entries), keyed);
    KeyedSums(entries, field, "");
  }

  // ----- aggregate against per-call prices -----

  /** The price of each bucket of a model by itself. */
  function PerCall(entries: seq<Call>, model: string, cost: Coster): real {
    if entries == [] then 0.0
    else PerCall(entries[..|entries| - 1], model, cost)
         + if entries[|entries| - 1].model == model then cost(model, entries[|entries| - 1].tokens).0 else 0.0
  }

  /** Fresh prompt tokens of each bucket of a model, before clamping. */
  function Portions(entries: seq<Call>, model: string): seq<int> {
    if entries == [] then []
    else
      var rest, last := Portions(entries[..|entries| - 1], model), entries[|entries| - 1];
      if last.model == model then rest + [last.tokens.prompt - last.tokens.cacheRead] else rest
  }

  function Together(pricing: Pricing, a: int, b: int, c: int, d: int, e: int, f: int): real {
    pricing(a, b, c) + pricing(d, e, f)
  }

  /** Prices add up, and more fresh tokens cost more. */
  ghost predicate Additive(pricing: Pricing) {
    && pricing(0, 0, 0) == 0.0
    && forall a, b, c, d, e, f {:trigger Together(pricing, a, b, c, d, e, f)} ::
         Together(pricing, a, b, c, d, e, f) == pricing(a + d, b + e, c + f)
  }

  ghost predicate Increasing(pricing: Pricing) {
    forall a, d, b, c :: pricing(a, b, c) <= pricing(d, b, c) <==> a <= d
  }

  lemma CardAdditive(card: Card)
    ensures Additive(PricingOf(card))
  {
    forall a, b, c, d, e, f
      ensures Together(PricingOf(card), a, b, c, d, e, f) == PricingOf(card)(a + d, b + e, c + f)
    {
      CardAdditiveAt(card, a, b, c, d, e, f);
    }
  }

  lemma CardAdditiveAt(card: Card, a: int, b: int, c: int, d: int, e: int, f: int)
    ensures PricingOf(card)(a, b, c) + PricingOf(card)(d, e, f) == PricingOf(card)(a + d, b + e, c + f)
  {
    Distribute(a, d, card.miss);
    Distribute(b, e, card.hit);
    Distribute(c, f, card.output);
  }

  lemma Distribute(a: int, b: int, rate: real)
    ensures (a + b) as real * rate == a as real * rate + b as real * rate
  {}

  lemma CardIncreasing(card: Card)
    requires card.miss > 0.0
    ensures Increasing(PricingOf(card))
  {
    forall a, d, b, c
      ensures PricingOf(card)(a, b, c) <= PricingOf(card)(d, b, c) <==> a <= d
    {
      Scale(a, d, card.miss);
    }
  }

  lemma Scale(a: int, d: int, rate: real)
    requires rate > 0.0
    ensures a as real * rate <= d as real * rate <==> a <= d
  {}

  lemma PriceStep(pricing: Pricing, fresh_: int, read: int, output: int, usage: Tokens)
    requires Additive(pricing)
    ensures pricing(fresh_, read, output) + UsagePrice(pricing, usage)
         == pricing(fresh_ + Clamp(usage.prompt - usage.cacheRead), read + usage.cacheRead, output + usage.completion)
  {
    var portion := Clamp(usage.prompt - usage.cacheRead);
    assert Together(pricing, fresh_, read, output, portion, usage.cacheRead, usage.completion)
        == pricing(fresh_ + portion, read + usage.cacheRead, output + usage.completion);
  }

  lemma PortionsSnoc(entries: seq<Call>, model: string)
    requires entries != []
    ensures var rest, last := entries[..|entries| - 1], entries[|entries| - 1];
            var d := if last.model == model then last.tokens.prompt - last.tokens.cacheRead else 0;
            && SumClamped(Portions(entries, model)) == SumClamped(Portions(rest, model)) + Clamp(d)
            && SumInts(Portions(entries, model)) == SumInts(Portions(rest, model)) + d
  {
    var rest, last := entries[..|entries| - 1], entries[|entries| - 1];
    if last.model == model {
      var portions, d := Portions(rest, model), last.tokens.prompt - last.tokens.cacheRead;
      assert (portions + [d])[..|portions|] == portions;
    }
  }

  lemma {:induction false} PerCallIsPortions(entries: seq<Call>, model: string, cost: Coster, pricing: Pricing)
    requires Additive(pricing) && forall usage :: cost(model, usage).0 == UsagePrice(pricing, usage)
    ensures PerCall(entries, model, cost)
         == pricing(SumClamped(Portions(entries, model)), TotalFor(entries, model).cacheRead,
                    TotalFor(entries, model).completion)
    ensures SumInts(Portions(entries, model)) == TotalFor(entries, model).prompt - TotalFor(entries, model).cacheRead
  {
    if entries != [] {
      var rest, last := entries[..|entries| - 1], entries[|entries| - 1];
      PerCallIsPortions(rest, model, cost, pricing);
      PortionsSnoc(entries, model);
      if last.model == model {
        var total := TotalFor(rest, model);
        PriceStep(pricing, SumClamped(Portions(rest, model)), total.cacheRead, total.completion, last.tokens);
      }
    }
  }

  /** Pricing a model's aggregate costs at most what its buckets cost one by one, and exactly
      that if and only if their fresh portions are all of one sign. */
  lemma AggregateAtMostPerCall(entries: seq<Call>, model: string, cost: Coster, pricing: Pricing)
    requires Additive(pricing) && Increasing(pricing)
    requires forall usage :: cost(model, usage).0 == UsagePrice(pricing, usage)
    ensures cost(model, TotalFor(entries, model)).0 <= PerCall(entries, model, cost)
    ensures cost(model, TotalFor(entries, model)).0 == PerCall(entries, model, cost)
            <==> OneSign(Portions(entries, model))
  {
    PerCallIsPortions(entries, model, cost, pricing);
    ClampOfSum(Portions(entries, model));
    var t, all := TotalFor(entries, model), SumClamped(Portions(entries, model));
    assert pricing(Clamp(t.prompt - t.cacheRead), t.cacheRead, t.completion) <= pricing(all, t.cacheRead, t.completion);
    assert pricing(all, t.cacheRead, t.completion) <= pricing(Clamp(t.prompt - t.cacheRead), t.cacheRead, t.completion)
      <==> all <= Clamp(t.prompt - t.cacheRead);
  }

  /** Every recorded bucket priced by itself. */
  function EachPriced(entries: seq<Call>, cost: Coster): real {
    if entries == [] then 0.0
    else EachPriced(entries[..|entries| - 1], cost)
         + cost(entries[|entries| - 1].model, entries[|entries| - 1].tokens).0
  }

  function AllModelsPriced(order: seq<string>, entries: seq<Call>, cost: Coster): real {
    if order == [] then 0.0
    else AllModelsPriced(order[..|order| - 1], entries, cost) + PerCall(entries, order[|order| - 1], cost)
  }

  lemma {:induction false} AllModelsPricedSnoc(order: seq<string>, entries: seq<Call>, last: Call, cost: Coster)
    requires Distinct(order)
    ensures AllModelsPriced(order, entries + [last], cost)
         == AllModelsPriced(order, entries, cost) + if last.model in order then cost(last.model, last.tokens).0 else 0.0
  {
    if order != [] {
      var rest, model := order[..|order| - 1], order[|order| - 1];
      AllModelsPricedSnoc(rest, entries, last, cost);
      var longer := entries + [last];
      assert longer[..|longer| - 1] == entries && longer[|longer| - 1] == last;
      assert model !in rest;
      assert last.model in order <==> last.model in rest || last.model == model;
    }
  }

  lemma {:induction false} NothingPriced(order: seq<string>, cost: Coster)
    ensures AllModelsPriced(order, [], cost) == 0.0
  {
    if order != [] {
      NothingPriced(order[..|order| - 1], cost);
    }
  }

  lemma {:induction false} EachPricedByModel(order: seq<string>, entries: seq<Call>, cost: Coster)
    requires Distinct(order) && forall i | 0 <= i < |entries| :: entries[i].model in order
    ensures AllModelsPriced(order, entries, cost) == EachPriced(entries, cost)
    decreases |entries|
  {
    if entries == [] {
      NothingPriced(order, cost);
    } else {
      var n := |entries| - 1;
      assert entries == entries[..n] + [entries[n]];
      EachPricedByModel(order, entries[..n], cost);
      AllModelsPricedSnoc(order, entries[..n], entries[n], cost);
    }
  }

  /** Every card charges for fresh tokens. */
  predicate ChargesFresh(table: RateTable) {
    forall name | name in table.cards :: table.cards[name].peak.miss > 0.0 && table.cards[name].offPeak.miss > 0.0
  }

  lemma ModelAtMostCalls(table: RateTable, model: string, entries: seq<Call>, peak: bool)
    requires ChargesFresh(table)
    ensures CosterOf(table, peak)(model, TotalFor(entries, model)).0 <= PerCall(entries, model, CosterOf(table, peak))
    ensures CosterOf(table, peak)(model, TotalFor(entries, model)).0 == PerCall(entries, model, CosterOf(table, peak))
       <==> (Priced(table, model) ==> OneSign(Portions(entries, model)))
  {
    var cost := CosterOf(table, peak);
    match RatesFor(table, model, peak)
    case Some(card) =>
      CardAdditive(card);
      CardIncreasing(card);
      AggregateAtMostPerCall(entries, model, cost, PricingOf(card));
    case None => FreeModel(entries, model, cost);
  }

  lemma {:induction false} FreeModel(entries: seq<Call>, model: string, cost: Coster)
    requires forall usage :: cost(model, usage).0 == 0.0
    ensures PerCall(entries, model, cost) == 0.0
  {
    if entries != [] {
      FreeModel(entries[..|entries| - 1], model, cost);
    }
  }

  lemma {:induction false} TotalAtMostModels(order: seq<string>, entries: seq<Call>, table: RateTable, peak: bool)
    requires ChargesFresh(table)
    ensures TotalCost(order, entries, CosterOf(table, peak)) <= AllModelsPriced(order, entries, CosterOf(table, peak))
    ensures TotalCost(order, entries, CosterOf(table, peak)) == AllModelsPriced(order, entries, CosterOf(table, peak))
       <==> forall m | m in order && Priced(table, m) :: OneSign(Portions(entries, m))
  {
    if order != [] {
      var rest, last := order[..|order| - 1], order[|order| - 1];
      TotalAtMostModels(rest, entries, table, peak);
      ModelAtMostCalls(table, last, entries, peak);
      assert forall m :: m in order <==> m in rest || m == last;
    }
  }

  /** A session's price is at most that of its buckets priced one by one, and equal to it if and
      only if within each priced model no prompt falls short of its cache reads while another
      exceeds them. */
  lemma SessionAtMostCalls(services: seq<Service>, table: RateTable, peak: bool)
    requires ChargesFresh(table)
    ensures var entries, cost := Entries(services), CosterOf(table, peak);
            && TotalCost(Models(entries), entries, cost) <= EachPriced(entries, cost)
            && (TotalCost(Models(entries), entries, cost) == EachPriced(entries, cost) <==>
                forall m | m in Models(entries) && Priced(table, m) :: OneSign(Portions(entries, m)))
  {
    var entries := Entries(services);
    ModelsDistinct(entries);
    EachPricedByModel(Models(entries), entries, CosterOf(table, peak));
    TotalAtMostModels(Models(entries), entries, table, peak);
  }

  /** In particular when every call's prompt covers its cache reads. */
  lemma CoveredCallsAddUp(services: seq<Service>, table: RateTable, peak: bool)
    requires ChargesFresh(table) && forall i | 0 <= i < |Entries(services)| :: Covered(Entries(services)[i])
    ensures TotalCost(Models(Entries(services)), Entries(services), CosterOf(table, peak))
         == EachPriced(Entries(services), CosterOf(table, peak))
  {
    var entries := Entries(services);
    SessionAtMostCalls(services, table, peak);
    forall m | m in Models(entries) && Priced(table, m)
      ensures OneSign(Portions(entries, m))
    {
      PortionsCovered(entries, m);
    }
  }

  predicate Covered(entry: Call) { entry.tokens.prompt >= entry.tokens.cacheRead }

  lemma {:induction false} PortionsCovered(entries: seq<Call>, model: string)
    requires forall i | 0 <= i < |entries| :: Covered(entries[i])
    ensures forall i | 0 <= i < |Portions(entries, model)| :: Portions(entries, model)[i] >= 0
  {
    if entries != [] {
      var rest := entries[..|entries| - 1];
      assert forall i | 0 <= i < |rest| :: rest[i] == entries[i];
      PortionsCovered(rest, model);
    }
  }

  // ----- peak and off-peak -----

  /** The weekday and hour of a start time in UTC; Monday is 0. */
  datatype Moment = Moment(weekday: nat, hour: nat)

  /** `is_peak`; an unknown time counts as peak. */
  predicate IsPeak(start: Option<Moment>) {
    start.None? || (start.value.weekday < 5 && (1 <= start.value.hour < 4 || 6 <= start.value.hour < 10))
  }

  /** Off-peak rates are half the peak rates, and no rate is negative. */
  predicate HalfRates(table: RateTable) {
    forall name | name in table.cards ::
      var low, high := table.cards[name].offPeak, table.cards[name].peak;
      && high == Card(2.0 * low.miss, 2.0 * low.hit, 2.0 * low.output)
      && low.miss >= 0.0 && low.hit >= 0.0 && low.output >= 0.0
  }

  /** The published table is one of those the bounds are proved for. */
  lemma PublishedTable()
    ensures HalfRates(PRICE_TABLE) && ChargesFresh(PRICE_TABLE)
  {}

  predicate NonNegative(t: Tokens) {
    t.prompt >= 0 && t.completion >= 0 && t.cacheRead >= 0 && t.cacheWrite >= 0 && t.reasoning >= 0
  }

  predicate AllNonNegative(entries: seq<Call>) {
    forall i | 0 <= i < |entries| :: NonNegative(entries[i].tokens)
  }

  lemma {:induction false} TotalNonNegative(entries: seq<Call>, model: string)
    requires AllNonNegative(entries)
    ensures NonNegative(TotalFor(entries, model))
  {
    if entries != [] {
      TotalNonNegative(entries[..|entries| - 1], model);
      assert NonNegative(entries[|entries| - 1].tokens);
    }
  }

  lemma CardTwice(table: RateTable, model: string, usage: Tokens)
    requires HalfRates(table)
    ensures CosterOf(table, true)(model, usage).0 == 2.0 * CosterOf(table, false)(model, usage).0
    ensures NonNegative(usage) ==> CosterOf(table, false)(model, usage).0 >= 0.0
  {
    match CardsFor(table, model)
    case Some(cards) =>
      Doubling(cards.offPeak, cards.peak, Clamp(usage.prompt - usage.cacheRead), usage.cacheRead, usage.completion);
    case None =>
  }

  lemma Doubling(low: Card, high: Card, fresh_: nat, read: int, output: int)
    requires high == Card(2.0 * low.miss, 2.0 * low.hit, 2.0 * low.output)
    requires low.miss >= 0.0 && low.hit >= 0.0 && low.output >= 0.0
    ensures PricingOf(high)(fresh_, read, output) == 2.0 * PricingOf(low)(fresh_, read, output)
    ensures read >= 0 && output >= 0 ==> PricingOf(low)(fresh_, read, output) >= 0.0
  {}

  lemma {:induction false} TotalTwice(order: seq<string>, entries: seq<Call>, table: RateTable)
    requires HalfRates(table)
    ensures TotalCost(order, entries, CosterOf(table, true)) == 2.0 * TotalCost(order, entries, CosterOf(table, false))
    ensures AllNonNegative(entries) ==> TotalCost(order, entries, CosterOf(table, false)) >= 0.0
  {
    if order != [] {
      TotalTwice(order[..|order| - 1], entries, table);
      CardTwice(table, order[|order| - 1], TotalFor(entries, order[|order| - 1]));
      if AllNonNegative(entries) {
        TotalNonNegative(entries, order[|order| - 1]);
      }
    }
  }

  function SessionCost(services: seq<Service>, table: RateTable, peak: bool): real {
    TotalCost(Models(Entries(services)), Entries(services), CosterOf(table, peak))
  }

  /** Off-peak is exactly half of peak, and pricing a session whose start time is unknown
      bounds from above its price at any time it may have started. */
  lemma UnknownTimeIsUpperBound(services: seq<Service>, table: RateTable, start: Option<Moment>)
    requires HalfRates(table) && AllNonNegative(Entries(services))
    ensures SessionCost(services, table, true) == 2.0 * SessionCost(services, table, false)
    ensures SessionCost(services, table, IsPeak(None)) >= SessionCost(services, table, IsPeak(start))
  {
    TotalTwice(Models(Entries(services)), Entries(services), table);
  }
}
