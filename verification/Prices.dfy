/** What each kind of token costs under a rate card, which card a recorded model name is billed by,
    and when the peak rate applies. */
module Prices {
  import opened Wrappers
  import Text
  import opened Grouping
  import opened Spend

  /** The price in millionths of a dollar of n tokens of one kind: fresh prompt tokens at the miss rate,
      prompt tokens read from the cache at the hit rate, completions at the output rate; what is written
      to the cache and what the model reasons about is not charged again. */
  lemma PriceOfOneKind(table: RateTable, model: string, peak: bool, card: Card, n: nat, written: int, reasoning: int)
    requires RatesFor(table, model, peak) == Some(card)
    ensures CostFor(table, model, Tokens(n, 0, 0, written, reasoning), peak) == (n as real * card.miss, true)
    ensures CostFor(table, model, Tokens(n, 0, n, written, reasoning), peak) == (n as real * card.hit, true)
    ensures CostFor(table, model, Tokens(0, n, 0, written, reasoning), peak) == (n as real * card.output, true)
  {
    OnlyKind(card, n);
  }

  lemma OnlyKind(card: Card, n: nat)
    ensures PricingOf(card)(n, 0, 0) == n as real * card.miss
    ensures PricingOf(card)(0, n, 0) == n as real * card.hit
    ensures PricingOf(card)(0, 0, n) == n as real * card.output
  {
    NoTokens(card.miss);
    NoTokens(card.hit);
    NoTokens(card.output);
  }

  lemma NoTokens(rate: real)
    ensures 0 as real * rate == 0.0
  {}

  /** Any usage is the sum of its kinds; reads beyond the prompt leave no fresh tokens. */
  lemma PriceIsSumOfKinds(table: RateTable, model: string, peak: bool, usage: Tokens)
    requires Priced(table, model)
    ensures var fresh_ := if usage.prompt > usage.cacheRead then usage.prompt - usage.cacheRead else 0;
            CostFor(table, model, usage, peak).0
              == CostFor(table, model, Tokens(fresh_, 0, 0, 0, 0), peak).0
                 + CostFor(table, model, Tokens(usage.cacheRead, 0, usage.cacheRead, 0, 0), peak).0
                 + CostFor(table, model, Tokens(0, usage.completion, 0, 0, 0), peak).0
  {
    var card := RatesFor(table, model, peak).value;
    NoTokens(card.miss);
    NoTokens(card.hit);
    NoTokens(card.output);
  }

  lemma {:induction false} LeafBehindSlash(front: string, name: string)
    requires '/' !in name
    ensures Leaf(front + "/" + name) == name
    decreases |front|
  {
    var all := front + "/" + name;
    assert all[|front|] == '/';
    if front == "" {
      assert all[1..] == name;
    } else {
      assert all[1..] == front[1..] + "/" + name;
      LeafBehindSlash(front[1..], name);
    }
  }

  lemma LowerParts(front: string, name: string)
    ensures Text.Lower(front + "/" + name) == Text.Lower(front) + "/" + Text.Lower(name)
  {}

  lemma LowerHasNoSlash(name: string)
    requires '/' !in name
    ensures '/' !in Text.Lower(name)
  {
    forall i | 0 <= i < |name|
      ensures Text.Lower(name)[i] != '/'
    {
      assert name[i] in name;
    }
  }

  /** A routing prefix does not change what a model is billed by. */
  lemma RoutedName(table: RateTable, front: string, name: string, peak: bool)
    requires '/' !in name && name != ""
    ensures RatesFor(table, front + "/" + name, peak) == RatesFor(table, name, peak)
  {
    LowerParts(front, name);
    LowerHasNoSlash(name);
    LeafBehindSlash(Text.Lower(front), Text.Lower(name));
  }

  /** A model has the card of its name, a retired one that of the model that serves it, and any other
      name none; letter case aside. Of a card, the peak rates apply at peak and only then. */
  lemma CardOfName(table: RateTable, name: string, peak: bool)
    requires '/' !in name && name != ""
    ensures var lower := Text.Lower(name);
            var billed := if lower in table.aliases then table.aliases[lower] else lower;
            && (billed !in table.cards ==> RatesFor(table, name, peak) == None)
            && (billed in table.cards ==>
                RatesFor(table, name, true) == Some(table.cards[billed].peak)
                && RatesFor(table, name, false) == Some(table.cards[billed].offPeak))
  {
    LowerHasNoSlash(name);
  }

  /** Peak is 01:00 to 04:00 and 06:00 to 10:00 UTC from Monday to Friday, and any unknown time. */
  lemma PeakHours(weekday: nat, hour: nat)
    ensures IsPeak(Some(Moment(weekday, hour))) <==> weekday in {0, 1, 2, 3, 4} && hour in {1, 2, 3, 6, 7, 8, 9}
    ensures IsPeak(None)
  {}

  // ----- what is booked under which model -----

  /** A service books its calls under their models, an unnamed one under "unknown"; without calls it
      books its accumulated tokens under "unknown". */
  lemma ServiceBooks(service: Service, i: nat)
    ensures service.calls == [] ==> ServiceEntries(service) == [Call("unknown", service.accumulated)]
    ensures service.calls != [] ==> |ServiceEntries(service)| == |service.calls|
    ensures i < |service.calls| ==>
              ServiceEntries(service)[i].tokens == service.calls[i].tokens
              && ServiceEntries(service)[i].model
                 == if service.calls[i].model == "" then "unknown" else service.calls[i].model
  {}
}
