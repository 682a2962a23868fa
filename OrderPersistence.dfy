/** OrderRepository.java: the order store (the inherited JpaRepository operations) and the
    findByProductId query. */
module OrderPersistence {
  import opened Common
  import opened OrderModel

  /** The id and the @CreatedDate timestamp that persistence generates for a new order. */
  datatype Generated = Generated(id: Uuid, createdAt: Instant)

  /** Some item of the list refers to the product. */
  predicate HasProduct(items: seq<OrderItem>, productId: Uuid) {
    exists i :: 0 <= i < |items| && items[i].productId == productId
  }

  class OrderRepository {
    /** The persisted orders by id. Each entry is the managed entity object. */
    var orders: map<Uuid, Order>
    /** The item list that each call of Save persisted, in call order. */
    ghost var saved: seq<seq<OrderItem>>

    /** Every stored order carries its own key as id, has its creation time, and meets the
        entity constraints; in particular each item refers back to the order that owns it.
        Distinct keys hold distinct objects, since an object has one id. */
    ghost predicate Valid()
      reads this, orders.Values
    {
      forall k | k in orders :: orders[k].id == Some(k) && orders[k].createdAt.Some? && orders[k].Valid()
    }

    constructor ()
      ensures Valid() && orders == map[] && saved == []
    {
      orders := map[];
      saved := [];
    }

    /** findById */
    function FindById(id: Uuid): (r: Option<Order>)
      reads this
      ensures r.Some? <==> id in orders
      ensures r.Some? ==> r.value == orders[id]
    {
      if id in orders then Some(orders[id]) else None
    }

    /** findAll: every stored order, each under its own id. */
    function FindAll(): (r: set<Order>)
      requires Valid()
      reads this, orders.Values
      ensures forall k | k in orders :: orders[k] in r
      ensures forall o | o in r :: o.id.Some? && o.id.value in orders && orders[o.id.value] == o
    {
      orders.Values
    }

    /** SELECT o FROM Order o JOIN o.orderItems oi WHERE oi.productId = :productId.
        One joined row per matching item; the set keeps the selected orders and drops the
        duplicates the join yields for an order with several matching items. */
    function FindByProductId(productId: Uuid): (r: set<Order>)
      reads this, orders.Values
    {
      set k, i | k in orders && 0 <= i < |orders[k].orderItems| && orders[k].orderItems[i].productId == productId
        :: orders[k]
    }

    /** The join selects exactly the stored orders that own an item for the product; an order
        without items is never selected. */
    lemma FindByProductIdExact(productId: Uuid)
      ensures forall o :: o in FindByProductId(productId) <==> o in orders.Values && HasProduct(o.orderItems, productId)
      ensures forall o | o in FindByProductId(productId) :: |o.orderItems| > 0
    {
      forall o | o in orders.Values && HasProduct(o.orderItems, productId)
        ensures o in FindByProductId(productId)
      {
        var k :| k in orders && orders[k] == o;
        var i :| 0 <= i < |o.orderItems| && o.orderItems[i].productId == productId;
        assert orders[k].orderItems[i].productId == productId;
      }
    }

    /** save: a new order gets the generated id and creation time; an order that is already
        stored keeps both (they are not updatable). */
    method Save(order: Order, generated: Generated)
      requires Valid() && order.Valid()
      requires order.id.None? ==> generated.id !in orders
      requires order.id.Some? ==> order.id.value in orders && orders[order.id.value] == order
      modifies this, order
      ensures Valid()
      ensures old(order.id).None? ==> order.id == Some(generated.id) && order.createdAt == Some(generated.createdAt)
      ensures old(order.id).Some? ==> order.id == old(order.id) && order.createdAt == old(order.createdAt)
      ensures order.deliveryAddress == old(order.deliveryAddress) && order.orderItems == old(order.orderItems)
      ensures order.id.Some? && orders == old(orders)[order.id.value := order]
      ensures FindById(order.id.value) == Some(order)
      ensures saved == old(saved) + [order.orderItems]
    {
      if order.id.None? {
        order.id := Some(generated.id);
        order.createdAt := Some(generated.createdAt);
      }
      orders := orders[order.id.value := order];
      saved := saved + [order.orderItems];
    }

    /** delete: removes the order, and with it the items it owns; other entries are unchanged. */
    method Delete(order: Order)
      requires Valid()
      modifies this
      ensures Valid()
      ensures orders == if order.id.Some? then old(orders) - {order.id.value} else old(orders)
      ensures order.id.Some? ==> FindById(order.id.value) == None
      ensures forall k | k in orders :: FindById(k) == old(FindById(k))
      ensures saved == old(saved)
    {
      if order.id.Some? {
        orders := orders - {order.id.value};
      }
    }
  }
}
