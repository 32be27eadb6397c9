/** The payment summary's derived values (`discountAmount` and the discount row). */
module PaymentInfo {
  import opened Wrappers
  import opened Shop
  import opened ShopState

  /** The discount shown to the shopper: what the coupon took off the total. */
  function DiscountAmount(t: Totals): (d: int)
    ensures t.totalAfterDiscount + d == t.totalBeforeDiscount
  {
    t.totalBeforeDiscount - t.totalAfterDiscount
  }

  /** The discount row is rendered only for a positive discount. */
  function ShowsDiscountRow(t: Totals): (shown: bool)
    ensures shown <==> t.totalAfterDiscount < t.totalBeforeDiscount
  {
    DiscountAmount(t) > 0
  }

  /** The totals the payment summary shows for a session state. */
  function ShownTotals(s: State, pricing: Pricing): Totals
  {
    pricing(s.cart, s.selected)
  }

  /**
   * The one thing this model asks of the cart-total calculation: with no
   * coupon selected, nothing is taken off the total.
   */
  ghost predicate NoCouponNoDiscount(pricing: Pricing)
  {
    forall cart :: pricing(cart, None).totalAfterDiscount == pricing(cart, None).totalBeforeDiscount
  }

  /** After an order is completed the summary shows no discount. */
  lemma NoDiscountRowAfterCompletion(s: State, now: nat, pricing: Pricing)
    requires NoCouponNoDiscount(pricing)
    ensures DiscountAmount(ShownTotals(CompleteOrder(s, now).next, pricing)) == 0
    ensures !ShowsDiscountRow(ShownTotals(CompleteOrder(s, now).next, pricing))
  {
  }

  /** Choosing a code that no coupon has (normally the empty option) hides the discount. */
  lemma NoDiscountRowAfterUnlistedCode(s: State, code: string, pricing: Pricing)
    requires NoCouponNoDiscount(pricing)
    requires forall c :: c in s.coupons ==> c.code != code
    ensures DiscountAmount(ShownTotals(SelectByCode(s, code, pricing).next, pricing)) == 0
    ensures !ShowsDiscountRow(ShownTotals(SelectByCode(s, code, pricing).next, pricing))
  {
  }

  /** Deleting the selected coupon's code removes its discount from the summary. */
  lemma NoDiscountRowAfterDeletingSelected(s: State, code: string, pricing: Pricing)
    requires NoCouponNoDiscount(pricing)
    requires s.selected.Some? && s.selected.value.code == code
    ensures DiscountAmount(ShownTotals(DeleteCoupon(s, code).next, pricing)) == 0
    ensures !ShowsDiscountRow(ShownTotals(DeleteCoupon(s, code).next, pricing))
  {
  }

  /** A discount row can only be showing while some coupon is selected. */
  lemma DiscountRowNeedsSelection(s: State, pricing: Pricing)
    requires NoCouponNoDiscount(pricing)
    requires ShowsDiscountRow(ShownTotals(s, pricing))
    ensures s.selected.Some?
  {
  }
}
