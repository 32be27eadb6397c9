/**
 * The shopping session as a value: the cart, the coupon list and the selected
 * coupon, with the transitions the cart page and the admin coupon view apply to
 * them. Each transition returns the next state and the notifications it emits.
 */
module ShopState {
  import opened Wrappers
  import opened Shop
  import opened Text
  import opened Sequences

  /** A percentage coupon needs at least this current total. */
  const PercentageMinimum: int := 10000

  const OrderPrefix: string := "ORD-"

  datatype State = State(cart: seq<CartItem>, coupons: seq<Coupon>, selected: Option<Coupon>)

  datatype Step = Step(next: State, notices: seq<Notice>)

  /** The total the cart page currently shows: computed with the selected coupon applied. */
  function CurrentTotal(s: State, pricing: Pricing): int
  {
    pricing(s.cart, s.selected).totalAfterDiscount
  }

  /** The selected coupon, if any, is one of the listed coupons. */
  predicate SelectionRegistered(s: State)
  {
    s.selected.Some? ==> s.selected.value in s.coupons
  }

  predicate NoCodeBefore(coupons: seq<Coupon>, code: string, i: int)
    requires 0 <= i <= |coupons|
  {
    forall j :: 0 <= j < i ==> coupons[j].code != code
  }

  /** `coupons.find(c => c.code === code)`: the first coupon with that code, if there is one. */
  function FindByCode(coupons: seq<Coupon>, code: string): (r: Option<Coupon>)
    ensures r.None? <==> forall c :: c in coupons ==> c.code != code
    ensures r.Some? ==> r.value.code == code
    ensures r.Some? ==> exists i :: 0 <= i < |coupons| && coupons[i] == r.value && NoCodeBefore(coupons, code, i)
    decreases |coupons|
  {
    if coupons == [] then None
    else if coupons[0].code == code then Some(coupons[0])
    else
      var r := FindByCode(coupons[1..], code);
      assert r.Some? ==> exists i :: 0 <= i < |coupons[1..]| && coupons[1..][i] == r.value && NoCodeBefore(coupons[1..], code, i);
      assert r.Some? ==> exists i :: 1 <= i < |coupons| && coupons[i] == r.value && NoCodeBefore(coupons, code, i);
      r
  }

  function CodeDiffers(code: string): Coupon -> bool
  {
    (c: Coupon) => c.code != code
  }

  /** `coupons.filter(c => c.code !== code)`. */
  function RemoveCode(coupons: seq<Coupon>, code: string): (r: seq<Coupon>)
    ensures forall c :: c in r <==> c in coupons && c.code != code
    ensures |r| <= |coupons|
  {
    Filter(coupons, CodeDiffers(code))
  }

  /**
   * `handleCouponApply`: a percentage coupon is refused while the current total
   * (with the selected coupon applied) is below the minimum; otherwise the
   * coupon becomes the selection. Cart and coupon list never change.
   */
  function ApplyCoupon(s: State, coupon: Coupon, pricing: Pricing): (r: Step)
    ensures r.next.cart == s.cart && r.next.coupons == s.coupons
    ensures r.notices == [CouponApplied]
            <==> coupon.discountType == Amount || CurrentTotal(s, pricing) >= PercentageMinimum
    ensures r.notices == [CouponApplied] ==> r.next.selected == Some(coupon)
    ensures r.notices != [CouponApplied] ==> r.next == s && r.notices == [PercentageNeedsMinimum]
  {
    if CurrentTotal(s, pricing) < PercentageMinimum && coupon.discountType == Percentage then
      Step(s, [PercentageNeedsMinimum])
    else
      assert coupon.discountType == Amount || CurrentTotal(s, pricing) >= PercentageMinimum;
      Step(s.(selected := Some(coupon)), [CouponApplied])
  }

  /**
   * The coupon drop-down's change handler: a listed code applies the first
   * coupon with that code; a code no coupon has clears the selection without a
   * notification. The empty "no coupon" option clears it too, unless some
   * coupon has the empty code, which is then applied like any other.
   */
  function SelectByCode(s: State, code: string, pricing: Pricing): (r: Step)
    ensures r.next.cart == s.cart && r.next.coupons == s.coupons
    ensures (forall c :: c in s.coupons ==> c.code != code) ==> r.next.selected == None && r.notices == []
    ensures (exists c :: c in s.coupons && c.code == code)
            ==> r == ApplyCoupon(s, FindByCode(s.coupons, code).value, pricing)
    ensures r.next.selected == s.selected || r.next.selected == None
            || (r.next.selected.value in s.coupons && r.next.selected.value.code == code)
  {
    match FindByCode(s.coupons, code)
    case Some(coupon) =>
      assert coupon in s.coupons;
      ApplyCoupon(s, coupon, pricing)
    case None => Step(s.(selected := None), [])
  }

  /** The order number built from the completion timestamp. */
  function OrderNumber(now: nat): (id: string)
    ensures |id| > |OrderPrefix| && id[..|OrderPrefix|] == OrderPrefix
    ensures forall i :: |OrderPrefix| <= i < |id| ==> IsDigit(id[i])
  {
    OrderPrefix + DecimalString(now)
  }

  /**
   * `handleOrderComplete`: announces the order number, empties the cart and
   * clears the selection; there is no guard on an empty cart.
   */
  function CompleteOrder(s: State, now: nat): (r: Step)
    ensures r.next.cart == [] && r.next.selected == None && r.next.coupons == s.coupons
    ensures r.notices == [OrderCompleted(OrderNumber(now))]
  {
    Step(State([], s.coupons, None), [OrderCompleted(OrderNumber(now))])
  }

  /**
   * `handleCouponDelete`: drops every coupon with the code, clears the selection
   * only when it has that code, and always reports success.
   */
  function DeleteCoupon(s: State, code: string): (r: Step)
    ensures r.next.cart == s.cart
    ensures forall c :: c in r.next.coupons <==> c in s.coupons && c.code != code
    ensures s.selected.Some? && s.selected.value.code == code ==> r.next.selected == None
    ensures !(s.selected.Some? && s.selected.value.code == code) ==> r.next.selected == s.selected
    ensures r.notices == [CouponDeleted]
  {
    var selected := if s.selected.Some? && s.selected.value.code == code then None else s.selected;
    Step(State(s.cart, RemoveCode(s.coupons, code), selected), [CouponDeleted])
  }

  // ----- coupon application -----

  /** An amount coupon passes the gate whatever the total. */
  lemma AmountCouponAlwaysAccepted(s: State, coupon: Coupon, pricing: Pricing)
    requires coupon.discountType == Amount
    ensures ApplyCoupon(s, coupon, pricing).next.selected == Some(coupon)
    ensures ApplyCoupon(s, coupon, pricing).notices == [CouponApplied]
  {
  }

  /** The threshold is strict: a current total of exactly the minimum is enough, one less is not. */
  lemma PercentageBoundary(s: State, coupon: Coupon, pricing: Pricing)
    requires coupon.discountType == Percentage
    ensures CurrentTotal(s, pricing) == PercentageMinimum ==> ApplyCoupon(s, coupon, pricing).next.selected == Some(coupon)
    ensures CurrentTotal(s, pricing) == PercentageMinimum - 1 ==> ApplyCoupon(s, coupon, pricing).next == s
  {
  }

  /**
   * The gate consults the pricing only for the cart with the current selection
   * applied: two pricings that agree there lead to the same step, whatever
   * they say about the undiscounted cart.
   */
  lemma GateReadsCurrentSelection(s: State, coupon: Coupon, p1: Pricing, p2: Pricing)
    requires p1(s.cart, s.selected) == p2(s.cart, s.selected)
    ensures ApplyCoupon(s, coupon, p1) == ApplyCoupon(s, coupon, p2)
  {
  }

  /**
   * Because of that, a selected coupon can block a percentage coupon even when
   * the undiscounted cart reaches the minimum.
   */
  lemma SelectedDiscountCanBlockPercentage(s: State, coupon: Coupon, pricing: Pricing)
    requires coupon.discountType == Percentage
    requires pricing(s.cart, None).totalAfterDiscount >= PercentageMinimum
    requires CurrentTotal(s, pricing) < PercentageMinimum
    ensures ApplyCoupon(s, coupon, pricing).next == s
    ensures ApplyCoupon(s, coupon, pricing).notices[0].Kind() == Error
  {
  }

  /** Applying a coupon a second time changes nothing more. */
  lemma ApplyIdempotent(s: State, coupon: Coupon, pricing: Pricing)
    ensures ApplyCoupon(ApplyCoupon(s, coupon, pricing).next, coupon, pricing).next
            == ApplyCoupon(s, coupon, pricing).next
  {
  }

  /** Re-applying the selected coupon leaves the state as it is, accepted or not. */
  lemma ReapplySelectedKeepsState(s: State, coupon: Coupon, pricing: Pricing)
    requires s.selected == Some(coupon)
    ensures ApplyCoupon(s, coupon, pricing).next == s
  {
  }

  /** Choosing from the drop-down never selects a coupon that is not listed. */
  lemma SelectByCodeKeepsSelectionRegistered(s: State, code: string, pricing: Pricing)
    requires SelectionRegistered(s)
    ensures SelectionRegistered(SelectByCode(s, code, pricing).next)
  {
  }

  /** The first listed coupon with the code is the one applied. */
  lemma SelectByCodeAppliesFirstMatch(s: State, code: string, pricing: Pricing, i: int)
    requires 0 <= i < |s.coupons| && s.coupons[i].code == code
    requires forall j :: 0 <= j < i ==> s.coupons[j].code != code
    ensures SelectByCode(s, code, pricing) == ApplyCoupon(s, s.coupons[i], pricing)
  {
  }

  // ----- order completion -----

  /** Completion has no emptiness guard: completing an empty cart yields the same reset state. */
  lemma CompleteOnEmptyCart(s: State, now: nat)
    requires s.cart == []
    ensures CompleteOrder(s, now).next == State([], s.coupons, None)
  {
  }

  /** Completing twice leaves the state the first completion produced. */
  lemma CompleteIdempotent(s: State, now1: nat, now2: nat)
    ensures CompleteOrder(CompleteOrder(s, now1).next, now2).next == CompleteOrder(s, now1).next
  {
  }

  /** The timestamp can be read back from the order number. */
  lemma OrderNumberDecodes(now: nat)
    ensures ParseDecimal(OrderNumber(now)[|OrderPrefix|..]) == now
  {
    assert OrderNumber(now)[|OrderPrefix|..] == DecimalString(now);
    DecimalRoundTrip(now);
  }

  /** Different timestamps give different order numbers. */
  lemma OrderNumberInjective(a: nat, b: nat)
    requires OrderNumber(a) == OrderNumber(b)
    ensures a == b
  {
    OrderNumberDecodes(a);
    OrderNumberDecodes(b);
  }

  // ----- coupon deletion -----

  /** Deleting a code that no coupon has leaves the list as it was. */
  lemma DeleteAbsentCodeKeepsCoupons(s: State, code: string)
    requires forall c :: c in s.coupons ==> c.code != code
    ensures DeleteCoupon(s, code).next.coupons == s.coupons
    ensures SelectionRegistered(s) ==> DeleteCoupon(s, code).next.selected == s.selected
  {
    FilterAllKept(s.coupons, CodeDiffers(code));
  }

  /** Deleting the same code twice is deleting it once. */
  lemma DeleteTwiceIsDeleteOnce(s: State, code: string)
    ensures DeleteCoupon(DeleteCoupon(s, code).next, code).next == DeleteCoupon(s, code).next
  {
    FilterIdempotent(s.coupons, CodeDiffers(code));
  }

  /** The surviving coupons keep their relative order. */
  lemma DeleteKeepsOrder(xs: seq<Coupon>, ys: seq<Coupon>, code: string)
    ensures RemoveCode(xs + ys, code) == RemoveCode(xs, code) + RemoveCode(ys, code)
  {
    FilterAppend(xs, ys, CodeDiffers(code));
  }

  /** Deletion never leaves the selection pointing at a removed coupon. */
  lemma DeleteKeepsSelectionRegistered(s: State, code: string)
    requires SelectionRegistered(s)
    ensures SelectionRegistered(DeleteCoupon(s, code).next)
    ensures DeleteCoupon(s, code).next.selected.Some? ==> DeleteCoupon(s, code).next.selected.value.code != code
  {
  }

  /** Completion keeps the selection consistent with the list as well. */
  lemma CompleteKeepsSelectionRegistered(s: State, now: nat)
    ensures SelectionRegistered(CompleteOrder(s, now).next)
  {
  }
}
