/** The storefront's records: products, cart lines, coupons, totals and notifications. */
module Shop {
  import opened Wrappers

  /** A product as the catalogue lists it; `description` is optional. */
  datatype Product = Product(id: string, name: string, price: int, description: Option<string>)

  datatype CartItem = CartItem(product: Product, quantity: int)

  datatype DiscountType = Amount | Percentage

  /** A coupon, identified by its `code`. */
  datatype Coupon = Coupon(name: string, code: string, discountType: DiscountType, discountValue: int)

  /** What `calculateCartTotal` returns. */
  datatype Totals = Totals(totalBeforeDiscount: int, totalAfterDiscount: int)

  /**
   * The cart-total calculation, `calculateCartTotal(cart, selectedCoupon)`. Its
   * definition is not part of this model: the session holds it as a value.
   */
  type Pricing = (seq<CartItem>, Option<Coupon>) -> Totals

  datatype NoticeKind = Error | Success | Warning

  /** The notifications the session emits through `handleNotificationAdd`. */
  datatype Notice =
    | PercentageNeedsMinimum
    | CouponApplied
    | OrderCompleted(orderNumber: string)
    | CouponDeleted
  {
    function Kind(): NoticeKind
    {
      if PercentageNeedsMinimum? then Error else Success
    }
  }
}
