/** How the edit form's rules differ from the creation handler's. */
module ClientServerRules {
  import opened JsValues
  import ProductsRoute
  import EditForm

  /** A discount price of 0 passes the server's price guard but never the form's rules. */
  lemma ZeroDiscountPriceDivergence(price: real, v: EditForm.FormValues)
    requires price > 0.0
    requires v.discountPrice == Num(0.0)
    ensures !ProductsRoute.PriceRejected(Num(price), Num(0.0))
    ensures ProductsRoute.CalculatedDiscount(price, 0.0) == 100
    ensures !EditForm.ClientValid(v)
  {
  }

  /** Neither side checks the discount price against the price: a discount price above the
      price passes the server guard, giving a percentage of at most 0, and passes the
      form's price rules. */
  lemma DiscountAbovePriceAccepted(price: real, discountPrice: real)
    requires 0.0 < price < discountPrice
    ensures !ProductsRoute.PriceRejected(Num(price), Num(discountPrice))
    ensures ProductsRoute.CalculatedDiscount(price, discountPrice) <= 0
    ensures EditForm.PositiveNumber(Num(price)) && EditForm.PositiveNumber(Num(discountPrice))
  {
  }

  /** The server rounds the same fraction up to an integer; the form shows it to two decimals.
      The stored percentage is never below the exact one and less than one above it. */
  lemma CeilingVersusTwoDecimals(price: real, discountPrice: real)
    requires price > 0.0
    ensures var exact := EditForm.CalculateDiscountPercent(price, discountPrice);
            && exact <= ProductsRoute.CalculatedDiscount(price, discountPrice) as real < exact + 1.0
            && EditForm.DisplayedPercent(Num(price), Num(discountPrice)) == EditForm.Shown(ToFixed2(exact))
  {
    var exact := EditForm.CalculateDiscountPercent(price, discountPrice);
    assert exact == (price - discountPrice) / price * 100.0 by {
      var q := (price - discountPrice) / price;
      assert q * price == price - discountPrice;
    }
  }

  /** Price 3 and discount price 2: the form shows 33.33, the server stores 34. */
  lemma RoundingExample()
    ensures EditForm.DisplayedPercent(Num(3.0), Num(2.0)) == EditForm.Shown(33.33)
    ensures ProductsRoute.CalculatedDiscount(3.0, 2.0) == 34
  {
    var exact := EditForm.CalculateDiscountPercent(3.0, 2.0);
    assert exact * 3.0 == 100.0;
    assert (exact * 100.0 + 0.5).Floor == 3333;
  }

  /** A product created without a discount price is saved with `null`, which the server reads
      as 0: it passes the price guard and is stored with a 100 percent discount. Loaded back,
      the form coerces the same `null` to 0 and shows "100.00"; only an `undefined` discount
      price shows "NaN". */
  lemma NullDiscountPriceIsFullDiscount(price: real)
    requires price > 0.0
    ensures !ProductsRoute.PriceRejected(Num(price), Null)
    ensures ProductsRoute.CalculatedDiscount(price, ToNumber(Null)) == 100
    ensures EditForm.DisplayedPercent(Num(price), Null) == EditForm.Shown(100.0)
    ensures EditForm.DisplayedPercent(Num(price), NoNumber) == EditForm.NotANumber
  {
  }
}
