/** The order aggregate: Order.java and OrderItem.java. */
module OrderModel {
  import opened Common
  import opened Text

  /** The delivery address rule of Order.deliveryAddress: @NotBlank and @Size(min = 5, max = 255). */
  predicate ValidDeliveryAddress(a: string) {
    HasText(a) && 5 <= |a| <= 255
  }

  /** One row of order_items. The item's own generated id is not modelled. The price is the
      snapshot in minor units (kopecks); None is a price that was never set. */
  datatype OrderItem = OrderItem(order: Order?, productId: Uuid, quantity: Int32, price: Option<Int32>)
  {
    /** The bean constraints of OrderItem.java that can fail on a built item: a positive quantity
        and, once set, a positive price. The product id, a UUID value here, is never null. */
    predicate MeetsConstraints() {
      quantity > 0 && (price.Some? ==> price.value > 0)
    }

    /** The item is attached to an order (the non-null join column) and meets its constraints. */
    predicate Valid() {
      order != null && MeetsConstraints()
    }
  }

  /** What bean validation at persist makes of an order and, through the @Valid on orderItems,
      of its items. */
  datatype ConstraintOutcome = Satisfied | Violated | UnexpectedType

  /** The check as the annotations are written. OrderItem.productId is a UUID that carries
      @NotBlank, a constraint Hibernate Validator has no validator for on that type, so validating
      any item throws UnexpectedTypeException, whatever the other fields hold. */
  function PersistCheckAsWritten(deliveryAddress: string, items: seq<OrderItem>): ConstraintOutcome {
    if |items| > 0 then UnexpectedType
    else if ValidDeliveryAddress(deliveryAddress) then Satisfied
    else Violated
  }

  /** The check with @NotNull on productId, as evidently meant: the address rule and every
      item's constraints. */
  function PersistCheck(deliveryAddress: string, items: seq<OrderItem>): ConstraintOutcome {
    if ValidDeliveryAddress(deliveryAddress) && forall i :: 0 <= i < |items| ==> items[i].MeetsConstraints()
    then Satisfied
    else Violated
  }

  /** The Order entity. id and createdAt stay None until the repository first saves the order. */
  class Order {
    var id: Option<Uuid>
    var deliveryAddress: string
    var orderItems: seq<OrderItem>
    var createdAt: Option<Instant>

    /** Order.builder().deliveryAddress(a).build(), with the item list starting empty
        (the builder as written leaves it null; see OrderApi.CreateLoopAsWritten). */
    constructor (deliveryAddress: string)
      ensures id == None && createdAt == None
      ensures this.deliveryAddress == deliveryAddress && orderItems == []
    {
      id := None;
      this.deliveryAddress := deliveryAddress;
      orderItems := [];
      createdAt := None;
    }

    /** The entity constraints of the aggregate: a valid address, and every item valid and
        referring back to this order. */
    ghost predicate Valid()
      reads this
    {
      && ValidDeliveryAddress(deliveryAddress)
      && forall i :: 0 <= i < |orderItems| ==> orderItems[i].order == this && orderItems[i].Valid()
    }

    /** An order that meets the invariant passes the (corrected) check at persist. */
    lemma PassesPersistCheck()
      requires Valid()
      ensures PersistCheck(deliveryAddress, orderItems) == Satisfied
    {
    }

    /** Appends the item and points its order reference at this order. */
    method AddOrderItem(item: OrderItem)
      modifies this
      ensures orderItems == old(orderItems) + [item.(order := this)]
      ensures id == old(id) && deliveryAddress == old(deliveryAddress) && createdAt == old(createdAt)
      ensures old(Valid()) && item.quantity > 0 && (item.price.Some? ==> item.price.value > 0) ==> Valid()
    {
      orderItems := orderItems + [item.(order := this)];
    }
  }
}
