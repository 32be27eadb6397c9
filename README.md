# Shopping-cart session: coupon gate, order completion, coupon deletion, product search

This project models the business logic that sits inside the storefront's cart page,
payment summary and admin coupon view. The model has three parts:

- **A session state.** It holds the cart, the coupon list and the selected coupon.
  `ShopState` gives it as a value with pure transitions. `Session.CartSession` is a class
  whose handler methods overwrite these fields. Each method is proved to perform the
  transition of the same name.
- **The transitions.**
  - Applying a coupon, with the percentage-coupon minimum of 10000.
  - Choosing a code from the coupon drop-down.
  - Completing an order: the order number `ORD-<timestamp>`, then an emptied cart and a
    cleared selection.
  - Deleting a coupon in the admin view.
- **Two pure helpers.** One is the product search (case-insensitive substring match on
  name or description). The other is the discount amount and whether its row is shown.

The cart-total calculation (`calculateCartTotal`) is not part of this model. The session
holds it as a value of type `Pricing`, and nothing is assumed about its formula. Every
notification the handlers emit is recorded as a `Notice` in the step's output.

The model follows the code in a few places a reader may not expect:

- The percentage-coupon gate reads the total **with the currently selected coupon
  applied** (`src/basic/pages/cart/PageCart.tsx:36-39`). It does not use the undiscounted
  total. `ShopState.GateReadsCurrentSelection` and
  `ShopState.SelectedDiscountCanBlockPercentage` state the consequence.
- The order-completion handler itself has **no empty-cart guard**, and completing an
  empty cart succeeds (`ShopState.CompleteOnEmptyCart`). The page decides whether that can
  happen: on the basic cart page the pay button is rendered only while the cart has a
  line (`src/basic/pages/cart/PageCart.tsx:166`, `:227-232`), so there it cannot.
- The empty "no coupon" option clears the selection only because no coupon normally has
  the empty code. The lookup is literal (`src/basic/pages/cart/PageCart.tsx:182-184`), so a
  coupon whose code is `""` would be applied instead, and the model does the same.
- Applying a coupon does not check that it is listed. Only the drop-down path keeps the
  selection among the listed coupons (`ShopState.SelectByCodeKeepsSelectionRegistered`).
- Deletion removes **every** coupon with the code, as `filter` does
  (`src/advanced/pages/admin/AdminCoupons/AdminCouponView.tsx:11`). Whether codes are unique
  is decided when a coupon is created, which is not modelled.

## Model

| member | source | states |
|---|---|---|
| `ShopState.ApplyCoupon` | src/basic/pages/cart/PageCart.tsx:34-53 | cart and coupon list never change; the coupon is accepted iff it is an amount coupon or the current total is at least 10000; on acceptance it becomes the selection with a success notice; on refusal the state is unchanged and the percentage-minimum error is emitted |
| `ShopState.AmountCouponAlwaysAccepted` | src/basic/pages/cart/PageCart.tsx:41-50 | an amount coupon is selected and reported applied, whatever the total |
| `ShopState.PercentageBoundary` | src/basic/pages/cart/PageCart.tsx:41 | the test is a strict `<`: a percentage coupon is accepted at a current total of exactly 10000 and refused, leaving the state as it was, at 9999 |
| `ShopState.GateReadsCurrentSelection` | src/basic/pages/cart/PageCart.tsx:36-39 | the outcome depends on the pricing only at (cart, currently selected coupon): two pricings that agree there give the same step |
| `ShopState.SelectedDiscountCanBlockPercentage` | src/basic/pages/cart/PageCart.tsx:36-47 | a percentage coupon is refused with an error when the discounted current total is below 10000, even if the undiscounted total reaches it |
| `ShopState.ApplyIdempotent` | src/basic/pages/cart/PageCart.tsx:34-53 | applying the same coupon twice leaves the state of applying it once |
| `ShopState.ReapplySelectedKeepsState` | src/basic/pages/cart/PageCart.tsx:34-53 | re-applying the coupon already selected never changes the state, whether accepted or refused |
| `ShopState.FindByCode` | src/basic/pages/cart/PageCart.tsx:182-184 | returns nothing iff no listed coupon has the code; otherwise a listed coupon with that code and no coupon with that code before it |
| `ShopState.SelectByCode` | src/basic/pages/cart/PageCart.tsx:181-187 | cart and list never change; a code no coupon has clears the selection silently (the empty option does so unless some coupon has the empty code); a listed code behaves exactly as applying the found coupon; the selection only ever becomes the old one, none, or a listed coupon with that code |
| `ShopState.SelectByCodeAppliesFirstMatch` | src/basic/pages/cart/PageCart.tsx:182-185 | the coupon applied is the first one in list order with the chosen code |
| `ShopState.SelectByCodeKeepsSelectionRegistered` | src/basic/pages/cart/PageCart.tsx:181-187 | if the selection was a listed coupon (or none), it still is after a drop-down choice |
| `ShopState.OrderNumber` | src/basic/pages/cart/PageCart.tsx:56 | the order number is `ORD-` followed by decimal digits only |
| `ShopState.OrderNumberDecodes` | src/advanced/pages/cart/SectionCart/SectionPaymentInfo.tsx:16 | the timestamp can be read back from the digits after `ORD-` |
| `ShopState.OrderNumberInjective` | src/advanced/pages/cart/SectionCart/SectionPaymentInfo.tsx:16 | distinct timestamps give distinct order numbers |
| `ShopState.CompleteOrder` | src/basic/pages/cart/PageCart.tsx:55-63 | for any prior state the cart is empty, the selection is cleared, the coupon list is unchanged, and exactly one success notice with `OrderNumber(now)` is emitted |
| `ShopState.CompleteOnEmptyCart` | src/advanced/pages/cart/SectionCart/SectionPaymentInfo.tsx:15-22 | completing an already-empty cart succeeds and yields the same reset state |
| `ShopState.CompleteIdempotent` | src/advanced/pages/cart/SectionCart/SectionPaymentInfo.tsx:20-21 | completing a second time leaves the state of the first completion |
| `ShopState.CompleteKeepsSelectionRegistered` | src/advanced/pages/cart/SectionCart/SectionPaymentInfo.tsx:21 | after completion no selection can refer to an unlisted coupon |
| `ShopState.RemoveCode` | src/advanced/pages/admin/AdminCoupons/AdminCouponView.tsx:11 | a coupon is in the result iff it was in the list and has another code; the list never grows |
| `ShopState.DeleteCoupon` | src/advanced/pages/admin/AdminCoupons/AdminCouponView.tsx:10-16 | cart unchanged; a coupon is in the new list iff it was in the old one and has another code; a selection with that code is cleared, any other selection (or none) is untouched; a success notice on every call |
| `ShopState.DeleteAbsentCodeKeepsCoupons` | src/advanced/pages/admin/AdminCoupons/AdminCouponView.tsx:11 | deleting a code no coupon has leaves the list exactly as it was, and a listed selection untouched |
| `ShopState.DeleteTwiceIsDeleteOnce` | src/advanced/pages/admin/AdminCoupons/AdminCouponView.tsx:10-16 | deleting the same code twice gives the state of deleting it once |
| `ShopState.DeleteKeepsOrder` | src/advanced/pages/admin/AdminCoupons/AdminCouponView.tsx:11 | the surviving coupons keep their relative order (filtering distributes over concatenation) |
| `ShopState.DeleteKeepsSelectionRegistered` | src/advanced/pages/admin/AdminCoupons/AdminCouponView.tsx:12-14 | if the selection was listed it stays listed, and it never has the deleted code: no dangling selection |
| `Session.CartSession.ApplyCoupon` | src/basic/pages/cart/PageCart.tsx:34-53 | the handler's new fields and notices are exactly those of `ShopState.ApplyCoupon` on the old fields |
| `Session.CartSession.SelectByCode` | src/basic/pages/cart/PageCart.tsx:181-187 | the handler's new fields and notices are exactly those of `ShopState.SelectByCode` |
| `Session.CartSession.CompleteOrder` | src/advanced/pages/cart/SectionCart/SectionPaymentInfo.tsx:15-22 | returns `OrderNumber(now)` and leaves exactly the state and notice of `ShopState.CompleteOrder` |
| `Session.CartSession.DeleteCoupon` | src/advanced/pages/admin/AdminCoupons/AdminCouponView.tsx:10-16 | the handler's new fields and notices are exactly those of `ShopState.DeleteCoupon` |
| `ProductSearch.FilteredProducts` | src/basic/pages/cart/PageCart.tsx:67-78 | the empty term returns the list unchanged; otherwise a product is listed iff it is in the catalogue and matches (lower-cased name contains the lower-cased term, or a non-empty description does); never longer than the catalogue |
| `ProductSearch.SearchPreservesOrder` | src/basic/pages/cart/PageCart.tsx:67-78 | the result is an order-preserving selection: searching a concatenation concatenates the results |
| `ProductSearch.SearchIgnoresTermCase` | src/basic/pages/cart/PageCart.tsx:72 | lower-casing the search term first yields the same list |
| `ProductSearch.VerbatimNameMatchIsListed` | src/basic/pages/cart/PageCart.tsx:70-72 | a product whose name contains the term verbatim is always listed |
| `ProductSearch.SearchIdempotent` | src/basic/pages/cart/PageCart.tsx:67-78 | searching the search result again with the same term gives the same list |
| `Sequences.Filter` | src/basic/pages/cart/PageCart.tsx:68 | `Array.filter`: an element is in the result iff it is in the input and accepted; never longer than the input |
| `Text.LowerString` | src/basic/pages/cart/PageCart.tsx:70-76 | `toLowerCase` on ASCII: same length, each capital becomes its small letter, every other character is kept |
| `Text.Contains` | src/basic/pages/cart/PageCart.tsx:72 | `includes`: a match implies the needle fits in the string; a prefix is always a match |
| `Text.ContainsIffOccurs` | src/basic/pages/cart/PageCart.tsx:72 | the scanning search succeeds iff the needle occurs at some position |
| `Text.ContainsLowered` | src/basic/pages/cart/PageCart.tsx:70-76 | an occurrence survives lower-casing both sides |
| `Text.DecimalString` | src/basic/pages/cart/PageCart.tsx:56 | the timestamp's text is non-empty, all digits, with no leading zero unless it is 0 |
| `Text.DecimalRoundTrip` | src/advanced/pages/cart/SectionCart/SectionPaymentInfo.tsx:16 | reading the decimal text back gives the number written |
| `PaymentInfo.DiscountAmount` | src/advanced/pages/cart/SectionCart/SectionPaymentInfo.tsx:13 | the discount amount is the total before discount minus the total after it |
| `PaymentInfo.ShowsDiscountRow` | src/advanced/pages/cart/SectionCart/SectionPaymentInfo.tsx:32 | the discount row is shown iff the total before discount exceeds the total after it |
| `PaymentInfo.NoDiscountRowAfterCompletion` | src/advanced/pages/cart/SectionCart/SectionPaymentInfo.tsx:12-22 | when the pricing takes nothing off without a coupon, the discount amount is 0 and its row is hidden after an order is completed |
| `PaymentInfo.NoDiscountRowAfterUnlistedCode` | src/advanced/pages/cart/SectionCart/SectionPaymentInfo.tsx:13 | under the same hypothesis, choosing a code no coupon has leaves a discount amount of 0 and no discount row |
| `PaymentInfo.NoDiscountRowAfterDeletingSelected` | src/advanced/pages/cart/SectionCart/SectionPaymentInfo.tsx:32 | under the same hypothesis, deleting the selected coupon's code leaves a discount amount of 0 and no discount row |
| `PaymentInfo.DiscountRowNeedsSelection` | src/advanced/pages/cart/SectionCart/SectionPaymentInfo.tsx:32 | under the same hypothesis, a shown discount row implies that a coupon is selected |

## Left out

- The cart-total calculation (`calculateCartTotal` in `src/basic/entities/CartItem.ts`) is not part of this model. It is a `Pricing` parameter. No property of totals (non-negativity, after ≤ before, the amount and percentage formulas, rounding) is stated. The `PaymentInfo` lemmas take one such property as an explicit hypothesis (`NoCouponNoDiscount`: without a coupon nothing is taken off). It is assumed, not established: nothing in the modelled code guarantees it, and the discount row is gated only on a positive difference. If the calculation discounts lines without a coupon, `NoDiscountRowAfterCompletion`, `NoDiscountRowAfterUnlistedCode` and `NoDiscountRowAfterDeletingSelected` say nothing, and `DiscountRowNeedsSelection` does not apply.
- `Date.now()` is the `now` parameter of order completion. Uniqueness of order numbers across calls is not claimed, because the clock does not guarantee it. Only distinct timestamps are shown to give distinct numbers.
- Notification delivery and the Korean message texts: each notification is an enumerated `Notice` with its kind (error or success). Nothing is displayed.
- `Text.LowerString`: lower-cases ASCII letters only. JavaScript's `toLowerCase` follows full Unicode case mapping, which this model does not cover.
- Numbers: prices, quantities, discount values and totals are unbounded integers. The source uses JavaScript doubles. Formatting with `toLocaleString` is display only.
- `Text.DecimalString` renders a timestamp as JavaScript does for integers below 10^21. Larger numbers would use exponent notation there, which this model does not cover.
- React hooks, memoisation and dependency arrays, the cart and coupon context providers, and all JSX rendering are not modelled. The state containers are the fields of `Session.CartSession`. Each handler runs to completion, one at a time.
- In the admin view the list is updated through a functional state update, while the selection test reads the rendered `selectedCoupon`. With one handler at a time both read the same state, so the model uses one state.
- Toggling `showCouponForm` in `src/basic/pages/admin/AdminTabCoupons.tsx` is view state and is not modelled.
- Coupon creation (`handleCouponSubmit`, `AdminCouponForm`) is not modelled, so code uniqueness is neither assumed nor enforced.
- Cart editing (adding, changing quantities, removing lines) is not part of this model. Only order completion changes the cart here.
