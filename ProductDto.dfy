/** ProductRequest.java: the request body of product create and update, and its validation. */
module ProductDto {
  import opened Common
  import opened Constraints
  import opened Text
  import opened ProductModel

  /** The @Max on the request price, which the client gives in major units (roubles). */
  const MaxRequestPrice: int := 100000000

  /** The price is the client's Float, taken here as an exact real. */
  datatype ProductRequest = ProductRequest(name: Option<string>, description: Option<string>,
                                           price: Option<real>, categories: Option<seq<string>>)

  /** name: @NotBlank, @Size(3, 255). */
  predicate ValidName(name: Option<string>) {
    NotBlank(name) && Size(name, 3, 255)
  }

  /** description: @Size(max = 1000), null allowed. */
  predicate ValidDescription(description: Option<string>) {
    Size(description, 0, 1000)
  }

  /** price: @NotNull, @Positive, @Max(100000000). */
  predicate ValidPrice(price: Option<real>) {
    NotNull(price) && PositiveReal(price) && MaxReal(price, MaxRequestPrice)
  }

  /** One category: @NotBlank, @Size(max = 100). */
  predicate ValidCategory(category: string) {
    NotBlank(Some(category)) && Size(Some(category), 0, 100)
  }

  /** categories: @NotNull, @Size(min = 1), and every element valid. */
  predicate ValidCategories(categories: Option<seq<string>>) {
    && NotNull(categories) && MinSize(categories, 1)
    && forall i :: 0 <= i < |categories.value| ==> ValidCategory(categories.value[i])
  }

  predicate ValidProductRequest(r: ProductRequest) {
    ValidName(r.name) && ValidDescription(r.description) && ValidPrice(r.price) && ValidCategories(r.categories)
  }

  /** What a request that passes validation carries: a name with text of 3 to 255 characters,
      a description of at most 1000 characters if any, a price in (0, 100000000], and at least one
      category, each with text and at most 100 characters. */
  lemma ValidProductRequestFields(r: ProductRequest)
    requires ValidProductRequest(r)
    ensures r.name.Some? && HasText(r.name.value) && 3 <= |r.name.value| <= 255
    ensures r.description.Some? ==> |r.description.value| <= 1000
    ensures r.price.Some? && 0.0 < r.price.value <= MaxRequestPrice as real
    ensures r.categories.Some? && |r.categories.value| >= 1
    ensures forall c | c in r.categories.value :: HasText(c) && |c| <= 100
  {
  }

  /** The request caps the price at 100000000 major units, the entity at 100000000 minor units:
      the largest accepted price is stored as Integer.MAX_VALUE, beyond the entity's cap, and a
      price below one kopeck is accepted and stored as 0, which the entity's @Positive rejects. */
  lemma RequestPriceBoundsDisagreeWithEntity()
    ensures ValidPrice(Some(MaxRequestPrice as real))
    ensures ToMinorUnits(MaxRequestPrice as real) == MaxInt32 && MaxInt32 > MaxStoredPrice
    ensures ValidPrice(Some(0.001)) && ToMinorUnits(0.001) == 0
  {
    assert (MaxRequestPrice as real) * 100.0 == 10000000000.0;
    assert 0.001 * 100.0 == 0.1;
  }

  /** Between one kopeck and one million roubles, an accepted price meets the entity's bounds. */
  lemma RequestPriceWithinEntityBounds(price: real)
    requires 0.01 <= price <= 1000000.0
    ensures ValidPrice(Some(price))
    ensures 0 < ToMinorUnits(price) <= MaxStoredPrice
  {
  }
}
