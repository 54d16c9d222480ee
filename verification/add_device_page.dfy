/** The add-on device page (frontend/app/addDevice/page.jsx): the price per
    extra device for the current plan, the total, and the bounded quantity
    picker. */
module AddDevicePage {
  import opened Common
  import opened ClientRecords
  import opened PricingPage

  datatype AddOnQuote = AddOnQuote(pricePerDevice: int, planName: string)

  /** The `switch` on `plan_type`, starting from 199 and "Monthly"; an
      unknown plan type keeps the name "Monthly". */
  function Quote(sub: Option<ClientSubscription>): (q: AddOnQuote)
    ensures sub.None? ==> q == AddOnQuote(199, "Monthly")
    ensures q.pricePerDevice == 99 || q.pricePerDevice == 149 || q.pricePerDevice == 199
    ensures sub.Some? && sub.value.planType !in {"quarterly", "half_yearly", "yearly"} ==>
      q == AddOnQuote(199, "Monthly")
  {
    if sub.None? then AddOnQuote(199, "Monthly")
    else match sub.value.planType
      case "quarterly" => AddOnQuote(199, "Quarterly")
      case "half_yearly" => AddOnQuote(149, "Half Yearly")
      case "yearly" => AddOnQuote(99, "Yearly")
      case _ => AddOnQuote(199, "Monthly")
  }

  /** For every plan of the pricing table, a subscription of that plan's
      duration is quoted the plan's own add-on price and name. */
  lemma QuoteAgreesWithPlans(sub: ClientSubscription, i: nat)
    requires i < |Plans| && sub.planType == Plans[i].duration
    ensures Quote(Some(sub)) == AddOnQuote(Plans[i].pricePerAdditionalDevice, Plans[i].name)
  {
  }

  /** `totalPrice = quantity * pricePerDevice`. */
  function TotalPrice(quantity: int, q: AddOnQuote): int
  {
    quantity * q.pricePerDevice
  }

  /** Within the picker's range the total lies between one and ten times
      the unit price, and grows with the quantity. */
  lemma TotalPriceBounds(quantity: int, q: AddOnQuote)
    requires 1 <= quantity <= 10 && q.pricePerDevice >= 0
    ensures q.pricePerDevice <= TotalPrice(quantity, q) <= 10 * q.pricePerDevice
    ensures TotalPrice(quantity + 1, q) == TotalPrice(quantity, q) + q.pricePerDevice
  {
  }

  /** `handleQuantityChange(delta)`: the change is applied only if it lands
      in [1, 10]. */
  function NextQuantity(quantity: int, delta: int): (n: int)
    ensures 1 <= quantity + delta <= 10 ==> n == quantity + delta
    ensures !(1 <= quantity + delta <= 10) ==> n == quantity
  {
    var candidate := quantity + delta;
    if 1 <= candidate <= 10 then candidate else quantity
  }

  /** Any sequence of changes, applied in order. */
  function ApplyDeltas(quantity: int, deltas: seq<int>): int
    decreases |deltas|
  {
    if deltas == [] then quantity
    else ApplyDeltas(NextQuantity(quantity, deltas[0]), deltas[1..])
  }

  /** From any start in [1, 10], and so from the initial 1, the quantity
      stays in [1, 10] whatever the changes. */
  lemma {:induction false} QuantityStaysInRange(quantity: int, deltas: seq<int>)
    requires 1 <= quantity <= 10
    ensures 1 <= ApplyDeltas(quantity, deltas) <= 10
    decreases |deltas|
  {
    if deltas != [] {
      QuantityStaysInRange(NextQuantity(quantity, deltas[0]), deltas[1..]);
    }
  }

  /** The page's state. */
  class AddDevices {
    var quantity: int
    var loading: bool

    ghost predicate Valid()
      reads this
    {
      1 <= quantity <= 10
    }

    constructor ()
      ensures Valid() && quantity == 1 && !loading
    {
      quantity, loading := 1, false;
    }

    method HandleQuantityChange(delta: int)
      requires Valid()
      modifies this`quantity
      ensures Valid()
      ensures quantity == NextQuantity(old(quantity), delta)
    {
      var newQuantity := quantity + delta;
      if newQuantity >= 1 && newQuantity <= 10 {
        quantity := newQuantity;
      }
    }

    /** `disabled={loading || !subscription}`. */
    predicate PurchaseDisabled(sub: Option<ClientSubscription>)
      reads this
    {
      loading || sub.None?
    }

    /** Without a subscription the purchase button is always disabled. */
    lemma NoSubscriptionNoPurchase()
      ensures PurchaseDisabled(None)
    {
    }
  }
}
