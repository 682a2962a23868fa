/** The request bodies of the order API and their bean-validation rules:
    OrderRequest.java, OrderItemRequest.java and UpdateOrderRequest.java. */
module OrderDto {
  import opened Common
  import opened Constraints
  import OrderModel

  /** One requested line: the product id as the client sent it, and a quantity. */
  datatype OrderItemRequest = OrderItemRequest(productId: Option<string>, quantity: Option<Int32>)

  /** A line of products may itself be null: the list is JSON and nothing forbids a null entry. */
  datatype OrderRequest = OrderRequest(deliveryAddress: Option<string>, products: Option<seq<Option<OrderItemRequest>>>)

  datatype UpdateOrderRequest = UpdateOrderRequest(deliveryAddress: Option<string>)

  /** productId is @NotNull only; quantity is @NotNull and @Positive. */
  predicate ValidItemRequest(r: OrderItemRequest) {
    NotNull(r.productId) && NotNull(r.quantity) && Positive(r.quantity)
  }

  /** deliveryAddress is @NotBlank and @Size(5, 255); products is @NotEmpty and @Valid. The
      cascade of @Valid skips null elements, so a null line passes. */
  predicate ValidOrderRequest(r: OrderRequest) {
    && NotBlank(r.deliveryAddress) && Size(r.deliveryAddress, 5, 255)
    && NotEmpty(r.products)
    && forall i :: 0 <= i < |r.products.value| && r.products.value[i].Some? ==> ValidItemRequest(r.products.value[i].value)
  }

  /** deliveryAddress is @NotBlank and @Size(5, 255). */
  predicate ValidUpdateOrderRequest(r: UpdateOrderRequest) {
    NotBlank(r.deliveryAddress) && Size(r.deliveryAddress, 5, 255)
  }

  /** A valid create request has an address that meets the entity's rule and a non-empty list in
      which every non-null line has a product id and a positive quantity. */
  lemma ValidOrderRequestMeetsEntity(r: OrderRequest)
    requires ValidOrderRequest(r)
    ensures r.deliveryAddress.Some? && OrderModel.ValidDeliveryAddress(r.deliveryAddress.value)
    ensures r.products.Some? && |r.products.value| >= 1
    ensures forall i :: 0 <= i < |r.products.value| && r.products.value[i].Some? ==>
              r.products.value[i].value.productId.Some? && r.products.value[i].value.quantity.Some?
              && r.products.value[i].value.quantity.value >= 1
  {
  }

  /** A null line is not rejected: a request whose only line is null passes validation. */
  lemma NullLinePassesValidation(address: string)
    requires OrderModel.ValidDeliveryAddress(address)
    ensures ValidOrderRequest(OrderRequest(Some(address), Some([None])))
  {
  }

  /** A valid update request carries an address that meets the entity's rule. */
  lemma ValidUpdateRequestMeetsEntity(r: UpdateOrderRequest)
    ensures ValidUpdateOrderRequest(r) <==>
              r.deliveryAddress.Some? && OrderModel.ValidDeliveryAddress(r.deliveryAddress.value)
  {
  }

  /** The product id is not checked for UUID syntax: any non-null string passes. */
  lemma ProductIdFormatNotChecked(id: string, quantity: Int32)
    requires quantity > 0
    ensures ValidItemRequest(OrderItemRequest(Some(id), Some(quantity)))
  {
  }
}
