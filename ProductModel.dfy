/** Product.java: the product record and its price conversion. */
module ProductModel {
  import opened Common
  import opened Text

  /** The @Max on the stored price, which is kept in minor units (kopecks). */
  const MaxStoredPrice: int := 100000000

  /** A row of the products table. The categories are the decoded list; the JSON column that
      holds them is not modelled. */
  datatype Product = Product(id: string, name: string, description: Option<string>, price: Int32,
                             categories: seq<string>, createdAt: Instant)

  /** The constraints Product.java declares on its fields. */
  predicate ValidEntity(p: Product) {
    && HasText(p.name) && 3 <= |p.name| <= 255
    && (p.description.Some? ==> |p.description.value| <= 1000)
    && 0 < p.price <= MaxStoredPrice
  }

  /** Java's (int) cast of an in-range value: truncation toward zero. */
  function TruncateTowardZero(x: real): int {
    if x >= 0.0 then x.Floor else -((-x).Floor)
  }

  /** setPrice: (int)(price * 100), on exact reals. Java's narrowing cast truncates toward zero
      and saturates at the bounds of Integer. */
  function ToMinorUnits(price: real): (r: Int32)
    ensures 0.0 <= price * 100.0 < MaxInt32 as real ==> r as real <= price * 100.0 < r as real + 1.0
    ensures MinInt32 as real < price * 100.0 < 0.0 ==> r as real - 1.0 < price * 100.0 <= r as real
    ensures price * 100.0 >= MaxInt32 as real ==> r == MaxInt32
    ensures price * 100.0 <= MinInt32 as real ==> r == MinInt32
  {
    var x := price * 100.0;
    if x >= MaxInt32 as real then MaxInt32
    else if x <= MinInt32 as real then MinInt32
    else TruncateTowardZero(x)
  }

  /** The conversion truncates rather than rounds: 1499.99 roubles are 149999 kopecks, and
      14.999 roubles are 1499 kopecks, not 1500. */
  lemma ToMinorUnitsTruncates()
    ensures ToMinorUnits(1499.99) == 149999
    ensures ToMinorUnits(14.999) == 1499
  {
    assert 1499.99 * 100.0 == 149999.0;
    assert 14.999 * 100.0 == 1499.9;
  }
}
