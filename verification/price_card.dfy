/** The pricing card: which of a product's prices the card offers, which amount it displays,
    whether it shows the monthly/yearly switch, and which call to action it renders. */
module PriceCard {
  import opened Wrappers

  /** A price of the product: its billing interval (`None` for a one-time price) and its amount
      in cents (`None` when the price has no fixed amount). */
  datatype Price = Price(id: string, interval: Option<string>, unitAmount: Option<int>)

  const Month := "month"
  const Year := "year"

  /** The first price, in listed order, whose interval equals `interval`; `None` when there is
      none. */
  function FirstWithInterval(prices: seq<Price>, interval: Option<string>): (r: Option<Price>)
    ensures r.Some? <==> exists k :: 0 <= k < |prices| && prices[k].interval == interval
    ensures r.Some? ==> exists k :: 0 <= k < |prices| && prices[k] == r.value
                          && r.value.interval == interval
                          && forall j :: 0 <= j < k ==> prices[j].interval != interval
  {
    if |prices| == 0 then None
    else if prices[0].interval == interval then Some(prices[0])
    else
      var rest := FirstWithInterval(prices[1..], interval);
      assert forall k :: 1 <= k < |prices| ==> prices[k] == prices[1..][k - 1];
      if rest.Some? then
        var k :| 0 <= k < |prices[1..]| && prices[1..][k] == rest.value
                 && rest.value.interval == interval
                 && forall j :: 0 <= j < k ==> prices[1..][j].interval != interval;
        assert prices[k + 1] == rest.value;
        rest
      else rest
  }

  /** The billing interval the card starts with: the given price's interval, else monthly. */
  function InitialBillingInterval(price: Option<Price>): (r: Option<string>)
    ensures price.Some? ==> r == price.value.interval
    ensures price.None? ==> r == Some(Month)
  {
    if price.Some? then price.value.interval else Some(Month)
  }

  /** The price the card offers. A given price wins; a product without prices offers none; a
      product with one price offers it whatever the interval; otherwise the first price of the
      selected interval, if any. */
  function CurrentPrice(price: Option<Price>, prices: seq<Price>, billingInterval: Option<string>)
    : (r: Option<Price>)
    ensures price.Some? ==> r == price
    ensures price.None? && |prices| == 0 ==> r.None?
    ensures price.None? && |prices| == 1 ==> r == Some(prices[0])
    ensures price.None? && |prices| > 1 ==>
              (r.Some? <==> exists k :: 0 <= k < |prices| && prices[k].interval == billingInterval)
    ensures price.None? && |prices| > 1 && r.Some? ==>
              r.value in prices && r.value.interval == billingInterval
    ensures price.None? && |prices| > 1 ==> r == FirstWithInterval(prices, billingInterval)
  {
    if price.Some? then price
    else if |prices| == 0 then None
    else if |prices| == 1 then Some(prices[0])
    else FirstWithInterval(prices, billingInterval)
  }

  /** The amount of the first price with the given interval; `None` when there is no such price
      or it has no amount. Later prices of the same interval are never consulted. */
  function AmountFor(prices: seq<Price>, interval: string): (r: Option<int>)
    ensures r.Some? ==> exists k :: 0 <= k < |prices| && prices[k].interval == Some(interval)
                          && prices[k].unitAmount == r
                          && forall j :: 0 <= j < k ==> prices[j].interval != Some(interval)
    ensures FirstWithInterval(prices, Some(interval)).Some? ==>
              r == FirstWithInterval(prices, Some(interval)).value.unitAmount
    ensures FirstWithInterval(prices, Some(interval)).None? ==> r.None?
  {
    var p := FirstWithInterval(prices, Some(interval));
    if p.Some? then p.value.unitAmount else None
  }

  /** An amount counts as present when it exists and is not zero. */
  predicate Present(amount: Option<int>) {
    amount.Some? && amount.value != 0
  }

  /** What the card displays: an amount in cents per year or per month, or the word 'Custom'. */
  datatype Display = Yearly(cents: int) | Monthly(cents: int) | Custom

  /** The displayed amount: the yearly amount when the yearly interval is selected and present,
      else the monthly amount when present, else 'Custom'. */
  function DisplayedAmount(prices: seq<Price>, billingInterval: Option<string>): (d: Display)
    ensures d.Yearly? <==> billingInterval == Some(Year) && Present(AmountFor(prices, Year))
    ensures d.Yearly? ==> Some(d.cents) == AmountFor(prices, Year)
    ensures d.Monthly? <==> !(billingInterval == Some(Year) && Present(AmountFor(prices, Year)))
                            && Present(AmountFor(prices, Month))
    ensures d.Monthly? ==> Some(d.cents) == AmountFor(prices, Month)
    ensures d.Yearly? || d.Monthly? ==> d.cents != 0
  {
    var yearAmount := AmountFor(prices, Year);
    var monthAmount := AmountFor(prices, Month);
    if Present(yearAmount) && billingInterval == Some(Year) then Yearly(yearAmount.value)
    else if Present(monthAmount) then Monthly(monthAmount.value)
    else Custom
  }

  /** The monthly/yearly switch appears only for a card without a given price and with more
      than one price. */
  predicate ShowSwitch(price: Option<Price>, prices: seq<Price>) {
    price.None? && |prices| > 1
  }

  /** The call to action: checkout with the offered price, or a link to the contact page. */
  datatype CallToAction = GetStarted(price: Price) | ContactUs

  /** The call to action, rendered only when the card can start a checkout. */
  function Action(canCheckout: bool, current: Option<Price>): (r: Option<CallToAction>)
    ensures r.None? <==> !canCheckout
    ensures r == Some(ContactUs) <==> canCheckout && current.None?
    ensures forall p :: r == Some(GetStarted(p)) <==> canCheckout && current == Some(p)
  {
    if !canCheckout then None
    else if current.Some? then Some(GetStarted(current.value))
    else Some(ContactUs)
  }

  /** A product without prices, shown without a given price, offers the contact page instead of
      a checkout. */
  lemma NoPricesMeansContactUs(prices: seq<Price>, billingInterval: Option<string>)
    requires |prices| == 0
    ensures Action(true, CurrentPrice(None, prices, billingInterval)) == Some(ContactUs)
    ensures DisplayedAmount(prices, billingInterval) == Custom
  {
  }

  /** Whatever the card checks out is the given price or one of the product's prices. */
  lemma CheckoutPriceIsOffered(price: Option<Price>, prices: seq<Price>,
                               billingInterval: Option<string>, p: Price)
    requires Action(true, CurrentPrice(price, prices, billingInterval)) == Some(GetStarted(p))
    ensures price.Some? ==> p == price.value
    ensures price.None? ==> p in prices
  {
  }

  /** For a subscription product (no given price, several prices), selecting an interval that
      has a price with a present amount makes the card display exactly the amount it checks
      out, under the matching suffix. */
  lemma DisplayAgreesWithCheckout(prices: seq<Price>, interval: string)
    requires |prices| > 1 && (interval == Month || interval == Year)
    requires CurrentPrice(None, prices, Some(interval)).Some?
    requires Present(CurrentPrice(None, prices, Some(interval)).value.unitAmount)
    ensures interval == Year ==>
              DisplayedAmount(prices, Some(interval))
              == Yearly(CurrentPrice(None, prices, Some(interval)).value.unitAmount.value)
    ensures interval == Month ==>
              DisplayedAmount(prices, Some(interval))
              == Monthly(CurrentPrice(None, prices, Some(interval)).value.unitAmount.value)
  {
    assert Month != Year by {
      assert Month[0] != Year[0];
    }
  }

  /** With the yearly interval selected but no present yearly amount, the card falls back to
      the monthly amount (or 'Custom') although the checkout uses the yearly price. */
  lemma YearlyFallsBackToMonthly(prices: seq<Price>)
    requires !Present(AmountFor(prices, Year))
    ensures DisplayedAmount(prices, Some(Year))
            == if Present(AmountFor(prices, Month)) then Monthly(AmountFor(prices, Month).value)
               else Custom
  {
  }

  /** The card's state: its given price, the product's prices and the selected interval. */
  class PricingCard {
    const price: Option<Price>
    const prices: seq<Price>
    var billingInterval: Option<string>

    /** The selected interval starts as the given price's interval, or monthly. */
    constructor (price: Option<Price>, prices: seq<Price>)
      ensures this.price == price && this.prices == prices
      ensures billingInterval == InitialBillingInterval(price)
    {
      this.price := price;
      this.prices := prices;
      billingInterval := InitialBillingInterval(price);
    }

    /** The switch selects an interval; on a card that shows the switch, the offered price is
        then the first price of that interval, if there is one. */
    method HandleBillingIntervalChange(interval: string)
      modifies this
      ensures billingInterval == Some(interval)
      ensures ShowSwitch(price, prices) ==>
                CurrentPrice(price, prices, billingInterval) == FirstWithInterval(prices, Some(interval))
    {
      billingInterval := Some(interval);
    }
  }
}
