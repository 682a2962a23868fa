/** OrderController.java: the REST endpoints of the order ledger over an OrderRepository. */
module OrderApi {
  import opened Common
  import opened OrderModel
  import opened OrderDto
  import opened OrderPersistence

  /** The request line is not null, and its product id is present and parses as a UUID. */
  predicate Parses(r: Option<OrderItemRequest>, fromString: string -> Option<Uuid>) {
    r.Some? && r.value.productId.Some? && fromString(r.value.productId.value).Some?
  }

  /** Every line is not null and its product id parses. */
  predicate AllProductIdsParse(products: seq<Option<OrderItemRequest>>, fromString: string -> Option<Uuid>) {
    forall i :: 0 <= i < |products| ==> Parses(products[i], fromString)
  }

  /** Lines that createOrder can turn into items: valid, with a parsable product id. */
  predicate Buildable(products: seq<Option<OrderItemRequest>>, fromString: string -> Option<Uuid>) {
    forall i :: 0 <= i < |products| ==> Parses(products[i], fromString) && ValidItemRequest(products[i].value)
  }

  /** The item createOrder builds for one request line: no price is set. */
  function RequestedItem(owner: Order, r: Option<OrderItemRequest>, fromString: string -> Option<Uuid>): OrderItem
    requires Parses(r, fromString) && ValidItemRequest(r.value)
  {
    OrderItem(owner, fromString(r.value.productId.value).value, r.value.quantity.value, None)
  }

  /** The items createOrder builds, one per line, in request order. */
  function RequestedItems(owner: Order, products: seq<Option<OrderItemRequest>>, fromString: string -> Option<Uuid>): seq<OrderItem>
    requires Buildable(products, fromString)
    decreases |products|
  {
    if products == [] then []
    else [RequestedItem(owner, products[0], fromString)] + RequestedItems(owner, products[1..], fromString)
  }

  lemma {:induction false} RequestedItemsAppend(owner: Order, products: seq<Option<OrderItemRequest>>, r: Option<OrderItemRequest>,
                                                fromString: string -> Option<Uuid>)
    requires Buildable(products, fromString)
    requires Parses(r, fromString) && ValidItemRequest(r.value)
    ensures Buildable(products + [r], fromString)
    ensures RequestedItems(owner, products + [r], fromString)
            == RequestedItems(owner, products, fromString) + [RequestedItem(owner, r, fromString)]
    decreases |products|
  {
    assert forall i :: 0 <= i < |products| ==> products[i] == (products + [r])[i];
    if products != [] {
      assert (products + [r])[1..] == products[1..] + [r];
      RequestedItemsAppend(owner, products[1..], r, fromString);
    }
  }

  /** One item per requested line, in the same order, duplicates kept: each copies the line's
      product id and quantity, refers to the owner, and has no price. */
  lemma {:induction false} RequestedItemsFaithful(owner: Order, products: seq<Option<OrderItemRequest>>,
                                                  fromString: string -> Option<Uuid>)
    requires Buildable(products, fromString)
    ensures |RequestedItems(owner, products, fromString)| == |products|
    ensures forall i :: 0 <= i < |products| ==>
              var item := RequestedItems(owner, products, fromString)[i];
              && item.order == owner
              && Some(item.productId) == fromString(products[i].value.productId.value)
              && Some(item.quantity) == products[i].value.quantity
              && item.price == None
    decreases |products|
  {
    if products != [] {
      RequestedItemsFaithful(owner, products[1..], fromString);
    }
  }

  /** Every built item meets the OrderItem constraints. */
  lemma RequestedItemsValid(owner: Order, products: seq<Option<OrderItemRequest>>, fromString: string -> Option<Uuid>)
    requires Buildable(products, fromString)
    ensures |RequestedItems(owner, products, fromString)| == |products|
    ensures forall i :: 0 <= i < |products| ==>
              RequestedItems(owner, products, fromString)[i].order == owner
              && RequestedItems(owner, products, fromString)[i].Valid()
  {
    RequestedItemsFaithful(owner, products, fromString);
  }

  /** What createOrder's loop does with the item list it starts from: None stands for the null
      list that Order.builder() leaves when orderItems has no default. */
  datatype LoopOutcome = Completed(items: Option<seq<OrderItem>>) | NullPointer | IllegalArgument

  /** The loop as written: read the line's product id (which throws when the line is null), parse
      it (UUID.fromString throws on a malformed one), build the item, then add it to the list
      (which throws when the list is null). */
  function CreateLoopAsWritten(owner: Order, list: Option<seq<OrderItem>>, products: seq<Option<OrderItemRequest>>,
                               fromString: string -> Option<Uuid>): LoopOutcome
    requires forall i :: 0 <= i < |products| && products[i].Some? ==> ValidItemRequest(products[i].value)
    decreases |products|
  {
    if products == [] then Completed(list)
    else if products[0].None? then NullPointer
    else
      assert ValidItemRequest(products[0].value);
      var productId := fromString(products[0].value.productId.value);
      if productId.None? then IllegalArgument
      else if list.None? then NullPointer
      else
        var item := OrderItem(owner, productId.value, products[0].value.quantity.value, None);
        CreateLoopAsWritten(owner, Some(list.value + [item]), products[1..], fromString)
  }

  /** With the list null, as Order.builder() leaves it, no valid request completes the loop: the
      first line throws, an IllegalArgumentException when its product id does not parse and a
      NullPointerException otherwise. */
  lemma AsWrittenLoopNeverCompletes(owner: Order, request: OrderRequest, fromString: string -> Option<Uuid>)
    requires ValidOrderRequest(request)
    ensures !CreateLoopAsWritten(owner, None, request.products.value, fromString).Completed?
    ensures CreateLoopAsWritten(owner, None, request.products.value, fromString)
            == if request.products.value[0].Some? && !Parses(request.products.value[0], fromString)
               then IllegalArgument else NullPointer
  {
  }

  /** Started from a list, the same loop appends exactly RequestedItems. */
  lemma {:induction false} LoopFromListBuildsRequestedItems(owner: Order, list: seq<OrderItem>,
                                                            products: seq<Option<OrderItemRequest>>,
                                                            fromString: string -> Option<Uuid>)
    requires Buildable(products, fromString)
    ensures CreateLoopAsWritten(owner, Some(list), products, fromString)
            == Completed(Some(list + RequestedItems(owner, products, fromString)))
    decreases |products|
  {
    if products != [] {
      var item := RequestedItem(owner, products[0], fromString);
      assert Parses(products[0], fromString) && ValidItemRequest(products[0].value);
      assert RequestedItems(owner, products, fromString) == [item] + RequestedItems(owner, products[1..], fromString);
      assert CreateLoopAsWritten(owner, Some(list), products, fromString)
          == CreateLoopAsWritten(owner, Some(list + [item]), products[1..], fromString);
      LoopFromListBuildsRequestedItems(owner, list + [item], products[1..], fromString);
      assert list + [item] + RequestedItems(owner, products[1..], fromString)
          == list + RequestedItems(owner, products, fromString);
    } else {
      assert list + RequestedItems(owner, products, fromString) == list;
    }
  }

  /** As annotated, every order createOrder builds from a valid request fails bean validation at
      persist with UnexpectedTypeException, even once its item list starts empty: a valid request
      has at least one line, so the order has at least one item. */
  lemma BuiltOrderFailsPersistCheckAsWritten(owner: Order, request: OrderRequest, fromString: string -> Option<Uuid>)
    requires ValidOrderRequest(request) && Buildable(request.products.value, fromString)
    ensures PersistCheckAsWritten(request.deliveryAddress.value,
                                  RequestedItems(owner, request.products.value, fromString)) == UnexpectedType
  {
    RequestedItemsFaithful(owner, request.products.value, fromString);
  }

  /** With @NotNull on productId, every order createOrder builds from a valid request passes the
      check at persist. */
  lemma BuiltOrderPassesPersistCheck(owner: Order, request: OrderRequest, fromString: string -> Option<Uuid>)
    requires ValidOrderRequest(request) && Buildable(request.products.value, fromString)
    ensures PersistCheck(request.deliveryAddress.value,
                         RequestedItems(owner, request.products.value, fromString)) == Satisfied
  {
    ValidOrderRequestMeetsEntity(request);
    RequestedItemsValid(owner, request.products.value, fromString);
  }

  class OrderController {
    const repository: OrderRepository
    /** java.util.UUID.fromString; None is the IllegalArgumentException it throws. */
    const fromString: string -> Option<Uuid>

    constructor (repository: OrderRepository, fromString: string -> Option<Uuid>)
      ensures this.repository == repository && this.fromString == fromString
    {
      this.repository := repository;
      this.fromString := fromString;
    }

    /** getOrders: 200 with every stored order. */
    function GetOrders(): (r: Response<set<Order>>)
      requires repository.Valid()
      reads repository, repository.orders.Values
      ensures r.Ok?
      ensures forall k | k in repository.orders :: repository.orders[k] in r.body
      ensures forall o | o in r.body :: o.id.Some? && repository.FindById(o.id.value) == Some(o)
    {
      Ok(repository.FindAll())
    }

    /** getOrder: 200 with the stored order, 404 when the id is unknown. */
    function GetOrder(id: Uuid): (r: Response<Order>)
      reads repository
      ensures r.Ok? || r.NotFound?
      ensures r.NotFound? <==> id !in repository.orders
      ensures r.Ok? ==> r.body == repository.orders[id]
    {
      var order := repository.FindById(id);
      if order.None? then NotFound else Ok(order.value)
    }

    /** searchByProductId, with the id already parsed: 404 exactly when no stored order has an
        item for the product, otherwise 200 with exactly the orders that do. */
    function SearchByProductId(productId: Uuid): (r: Response<set<Order>>)
      reads repository, repository.orders.Values
      ensures r.Ok? || r.NotFound?
      ensures r.NotFound? <==> forall k | k in repository.orders :: !HasProduct(repository.orders[k].orderItems, productId)
      ensures r.Ok? ==> forall o | o in r.body :: o in repository.orders.Values && HasProduct(o.orderItems, productId)
      ensures r.Ok? ==> forall k | k in repository.orders && HasProduct(repository.orders[k].orderItems, productId) ::
                          repository.orders[k] in r.body
    {
      repository.FindByProductIdExact(productId);
      var orders := repository.FindByProductId(productId);
      if orders == {} then NotFound else Ok(orders)
    }

    /** createOrder: 400 for an invalid request; 500 when a line is null or its product id does
        not parse; otherwise
        one new order holding one item per requested line, saved once with all its items, and 201. */
    method CreateOrder(request: OrderRequest, generated: Generated) returns (response: Response<Order>)
      requires repository.Valid()
      requires generated.id !in repository.orders
      modifies repository
      ensures repository.Valid()
      ensures response.BadRequest? <==> !ValidOrderRequest(request)
      ensures response.ServerError? <==> ValidOrderRequest(request) && !AllProductIdsParse(request.products.value, fromString)
      ensures response.BadRequest? || response.ServerError? || response.Created?
      ensures !response.Created? ==> repository.orders == old(repository.orders) && repository.saved == old(repository.saved)
      ensures response.Created? ==>
                var order := response.body;
                && fresh(order)
                && order.id == Some(generated.id) && order.createdAt == Some(generated.createdAt)
                && order.deliveryAddress == request.deliveryAddress.value
                && Buildable(request.products.value, fromString)
                && order.orderItems == RequestedItems(order, request.products.value, fromString)
                && repository.orders == old(repository.orders)[generated.id := order]
                && repository.saved == old(repository.saved) + [order.orderItems]
                && GetOrder(generated.id) == Ok(order)
    {
      if !ValidOrderRequest(request) {
        return BadRequest;
      }
      ValidOrderRequestMeetsEntity(request);
      var order := new Order(request.deliveryAddress.value);
      var products := request.products.value;
      var i := 0;
      while i < |products|
        invariant 0 <= i <= |products|
        invariant Buildable(products[..i], fromString)
        invariant order.orderItems == RequestedItems(order, products[..i], fromString)
        invariant order.id == None && order.createdAt == None
        invariant order.deliveryAddress == request.deliveryAddress.value
        invariant unchanged(repository)
      {
        var itemRequest := products[i];
        if itemRequest.None? {
          return ServerError;
        }
        assert ValidItemRequest(itemRequest.value);
        var productId := fromString(itemRequest.value.productId.value);
        if productId.None? {
          return ServerError;
        }
        var item := OrderItem(order, productId.value, itemRequest.value.quantity.value, None);
        assert products[..i + 1] == products[..i] + [itemRequest];
        RequestedItemsAppend(order, products[..i], itemRequest, fromString);
        order.orderItems := order.orderItems + [item];
        i := i + 1;
      }
      assert products[..i] == products;
      RequestedItemsValid(order, products, fromString);
      repository.Save(order, generated);
      return Created(order);
    }

    /** updateOrder: 400 for an invalid request before any lookup, then 404 for an unknown id;
        otherwise only that order's delivery address changes, and 200. */
    method UpdateOrder(id: Uuid, request: UpdateOrderRequest) returns (response: Response<()>)
      requires repository.Valid()
      modifies repository, repository.orders.Values
      ensures repository.Valid()
      ensures response.BadRequest? <==> !ValidUpdateOrderRequest(request)
      ensures response.NotFound? <==> ValidUpdateOrderRequest(request) && id !in old(repository.orders)
      ensures response.Ok? <==> ValidUpdateOrderRequest(request) && id in old(repository.orders)
      ensures repository.orders == old(repository.orders)
      ensures forall k | k in repository.orders ::
                && repository.orders[k].id == old(repository.orders[k].id)
                && repository.orders[k].createdAt == old(repository.orders[k].createdAt)
                && repository.orders[k].orderItems == old(repository.orders[k].orderItems)
      ensures forall k | k in repository.orders && (k != id || !response.Ok?) ::
                repository.orders[k].deliveryAddress == old(repository.orders[k].deliveryAddress)
      ensures response.Ok? ==> repository.orders[id].deliveryAddress == request.deliveryAddress.value
      ensures repository.saved == if response.Ok? then old(repository.saved) + [repository.orders[id].orderItems]
                                 else old(repository.saved)
    {
      if !ValidUpdateOrderRequest(request) {
        return BadRequest;
      }
      var found := repository.FindById(id);
      if found.None? {
        return NotFound;
      }
      var order := found.value;
      ValidUpdateRequestMeetsEntity(request);
      order.deliveryAddress := request.deliveryAddress.value;
      // The order already has its id, so save consumes no generated values.
      repository.Save(order, Generated(id, 0));
      return Ok(());
    }

    /** deleteOrder: 404 for an unknown id with nothing changed; otherwise the order and its items
        are removed, the other orders stay, and 204. Afterwards getOrder answers 404. */
    method DeleteOrder(id: Uuid) returns (response: Response<()>)
      requires repository.Valid()
      modifies repository
      ensures repository.Valid()
      ensures response.NotFound? <==> id !in old(repository.orders)
      ensures response.NoContent? <==> id in old(repository.orders)
      ensures repository.orders == old(repository.orders) - {id}
      ensures GetOrder(id) == NotFound
      ensures response.NoContent? ==>
                forall k, i | k in repository.orders && 0 <= i < |repository.orders[k].orderItems| ::
                  repository.orders[k].orderItems[i].order != old(repository.orders[id])
    {
      var found := repository.FindById(id);
      if found.None? {
        return NotFound;
      }
      repository.Delete(found.value);
      return NoContent;
    }
  }
}
