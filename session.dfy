/**
 * The shopping session as the components hold it: a cart, a coupon list and a
 * selected coupon that the event handlers overwrite. Each handler is proved to
 * perform the transition of the same name in `ShopState`.
 */
module Session {
  import opened Wrappers
  import opened Shop
  import opened ShopState

  class CartSession {
    var cart: seq<CartItem>
    var coupons: seq<Coupon>
    var selected: Option<Coupon>
    /** The cart-total calculation the handlers consult. */
    const pricing: Pricing

    function Current(): State
      reads this
    {
      State(cart, coupons, selected)
    }

    constructor (pricing: Pricing, coupons: seq<Coupon>)
      ensures this.pricing == pricing
      ensures Current() == State([], coupons, None)
    {
      this.pricing := pricing;
      this.cart := [];
      this.coupons := coupons;
      this.selected := None;
    }

    /** `handleCouponApply` on the cart page. */
    method ApplyCoupon(coupon: Coupon) returns (notices: seq<Notice>)
      modifies this
      ensures Step(Current(), notices) == ShopState.ApplyCoupon(old(Current()), coupon, pricing)
    {
      var currentTotal := pricing(cart, selected).totalAfterDiscount;
      if currentTotal < PercentageMinimum && coupon.discountType == Percentage {
        notices := [PercentageNeedsMinimum];
        return;
      }
      selected := Some(coupon);
      notices := [CouponApplied];
    }

    /** The coupon drop-down's `onChange` handler on the cart page. */
    method SelectByCode(code: string) returns (notices: seq<Notice>)
      modifies this
      ensures Step(Current(), notices) == ShopState.SelectByCode(old(Current()), code, pricing)
    {
      var coupon := FindByCode(coupons, code);
      if coupon.Some? {
        notices := ApplyCoupon(coupon.value);
      } else {
        selected := None;
        notices := [];
      }
    }

    /** `handleOrderComplete`, with the clock reading `now` passed in. */
    method CompleteOrder(now: nat) returns (orderNumber: string, notices: seq<Notice>)
      modifies this
      ensures orderNumber == OrderNumber(now)
      ensures Step(Current(), notices) == ShopState.CompleteOrder(old(Current()), now)
    {
      orderNumber := OrderNumber(now);
      notices := [OrderCompleted(orderNumber)];
      cart := [];
      selected := None;
    }

    /** `handleCouponDelete` in the admin coupon view. */
    method DeleteCoupon(code: string) returns (notices: seq<Notice>)
      modifies this
      ensures Step(Current(), notices) == ShopState.DeleteCoupon(old(Current()), code)
    {
      coupons := RemoveCode(coupons, code);
      if selected.Some? && selected.value.code == code {
        selected := None;
      }
      notices := [CouponDeleted];
    }
  }
}
