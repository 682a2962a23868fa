# Order ledger and product directory, modelled in Dafny

This project models the two domain services of a small e-commerce backend.

- **Order ledger.** The REST controller accepts, lists, looks up, searches, re-addresses and deletes orders. The order aggregate holds its line items, each pointing back at its owner. The request validators and the order repository are part of it, including its join query by product id.
- **Product directory.** The REST controller lists, searches, shows, creates, updates and deletes products. The product entity stores its price in kopecks. The request validator and the repository are part of it, including its case-insensitive name search sorted by name.

Modules follow the Java packages:

- `Common`: nullable values, `UUID`, `Integer` as a 32-bit subset type, and the HTTP response kinds.
- `Text`: `String.trim`, substring containment and a lexicographic order.
- `Constraints`: the jakarta.validation annotations as Hibernate Validator evaluates them. A null value passes every constraint except `@NotNull`, `@NotEmpty` and `@NotBlank`.
- `OrderModel`, `OrderDto`, `OrderPersistence` and `OrderApi` for the order service.
- `ProductModel`, `ProductDto`, `ProductPersistence` and `ProductApi` for the product service.

The two sides take different forms.

- **Orders are objects.** `Order` is a class whose item list and address the controller changes in place. `OrderRepository` keeps a map from id to the managed `Order` object. Its invariant is that each stored order carries its own key, has a creation time, and meets the entity constraints. In particular, every item refers back to the order that owns it.
- **Products are values.** `ProductRepository` keeps the table as a sequence of rows. Its invariant is that ids are distinct and every row meets the entity constraints.

Each controller method is proved against its specification. That covers the order in which the guards fire (400, 404, 500), what each error path leaves unchanged, and the new state on success.

Things the environment supplies are parameters:

- `UUID.fromString`, as a function that answers None where Java throws.
- The database's `LOWER`.
- Generated ids and timestamps, with a requirement that a generated id is fresh.

## Model

| member | source | states |
|---|---|---|
| Text.HasText | orderService/orderservice/src/main/java/com/example/orderservice/model/Order.java:43 | `@NotBlank`'s test `trim().length() > 0`: some character is above U+0020 |
| Text.ContainsIffOccurs | productService/src/main/java/com/example/productservice/repository/ProductRepository.java:29 | the `LIKE '%q%'` test holds exactly when q occurs in the name at some position |
| Text.NameLeTotal | productService/src/main/java/com/example/productservice/repository/ProductRepository.java:29 | any two names are comparable under the `ORDER BY name` order |
| Text.NameLeTransitive | productService/src/main/java/com/example/productservice/repository/ProductRepository.java:29 | the `ORDER BY name` order is transitive |
| ProductModel.ValidEntity | productService/src/main/java/com/example/productservice/model/Product.java:33-48 | the entity constraints: a name with text of 3–255 chars, a description of at most 1000 chars if any, a price in (0, 100000000] kopecks |
| ProductModel.ToMinorUnits | productService/src/main/java/com/example/productservice/model/Product.java:63-65 | setPrice's `(int)(price * 100)`: truncates toward zero inside the Integer range and saturates at Integer.MAX_VALUE and MIN_VALUE |
| ProductModel.ToMinorUnitsTruncates | productService/src/main/java/com/example/productservice/model/Product.java:63-65 | 1499.99 is stored as 149999 and 14.999 as 1499: truncation, not rounding |
| ProductDto.ValidProductRequest | productService/src/main/java/com/example/productservice/dto/ProductRequest.java:29-72 | the request validator: every field annotation, with null passing all but @NotNull and @NotBlank |
| ProductDto.ValidProductRequestFields | productService/src/main/java/com/example/productservice/dto/ProductRequest.java:29-72 | a valid request has a name with text of 3–255 chars, a description of at most 1000 chars if any, a price in (0, 100000000], and one or more categories, each with text and at most 100 chars |
| ProductDto.RequestPriceBoundsDisagreeWithEntity | productService/src/main/java/com/example/productservice/dto/ProductRequest.java:53-61 | the largest accepted price is stored as Integer.MAX_VALUE, above the entity's @Max; an accepted price of 0.001 is stored as 0, which the entity's @Positive rejects |
| ProductDto.RequestPriceWithinEntityBounds | productService/src/main/java/com/example/productservice/model/Product.java:44-48 | an accepted price between 0.01 and 1000000 meets the entity's bounds once converted |
| ProductPersistence.IndexOf | productService/src/main/java/com/example/productservice/repository/ProductRepository.java:18 | the position found holds a row with that id; None means no row has that id |
| ProductPersistence.Lookup | productService/src/main/java/com/example/productservice/repository/ProductRepository.java:18 | findById on the table: a returned row is stored and has the id; None means no row has it |
| ProductPersistence.LookupExact | productService/src/main/java/com/example/productservice/repository/ProductRepository.java:18 | with distinct ids, findById returns p exactly when p is a stored row with that id |
| ProductPersistence.Without | productService/src/main/java/com/example/productservice/repository/ProductRepository.java:18 | after a delete, the remaining rows are exactly the rows with another id |
| ProductPersistence.WithoutDistinct | productService/src/main/java/com/example/productservice/repository/ProductRepository.java:18 | a delete keeps ids distinct |
| ProductPersistence.Filter | productService/src/main/java/com/example/productservice/repository/ProductRepository.java:29 | the WHERE clause keeps exactly the rows whose lower-cased name contains the lower-cased query |
| ProductPersistence.FilterDistinct | productService/src/main/java/com/example/productservice/repository/ProductRepository.java:29 | filtering keeps ids distinct |
| ProductPersistence.Insert | productService/src/main/java/com/example/productservice/repository/ProductRepository.java:29 | one sort step adds exactly one row (multiset) |
| ProductPersistence.InsertSorted | productService/src/main/java/com/example/productservice/repository/ProductRepository.java:29 | inserting into a list sorted by name keeps it sorted |
| ProductPersistence.SortByName | productService/src/main/java/com/example/productservice/repository/ProductRepository.java:29 | `ORDER BY` permutes the selected rows (multiset equality) |
| ProductPersistence.SortByNameSortedDistinct | productService/src/main/java/com/example/productservice/repository/ProductRepository.java:29 | the result is sorted by name and keeps ids distinct |
| ProductPersistence.FindByName | productService/src/main/java/com/example/productservice/repository/ProductRepository.java:29-30 | the query: the WHERE filter, then `ORDER BY name ASC` (its meaning is FindByNameSpec's) |
| ProductPersistence.FindByNameSpec | productService/src/main/java/com/example/productservice/repository/ProductRepository.java:29-30 | findByName returns exactly the matching stored rows, once each, in ascending name order |
| ProductPersistence.ProductRepository.FindById | productService/src/main/java/com/example/productservice/repository/ProductRepository.java:18 | the row returned has the id; None means no row has it |
| ProductPersistence.ProductRepository.FindAll | productService/src/main/java/com/example/productservice/repository/ProductRepository.java:18 | every stored row, each one found by its id and meeting the entity constraints |
| ProductPersistence.ProductRepository.FindByNameQuery | productService/src/main/java/com/example/productservice/repository/ProductRepository.java:29-30 | sorted by name, distinct, and exactly the matching stored rows |
| ProductPersistence.ProductRepository.Save | productService/src/main/java/com/example/productservice/repository/ProductRepository.java:18 | a stored id has its row replaced in place, a new one is appended; ids stay distinct and the row is then found by its id |
| ProductPersistence.ProductRepository.Delete | productService/src/main/java/com/example/productservice/repository/ProductRepository.java:18 | the row goes, no other lookup changes, and the invariant holds |
| ProductApi.Merged | productService/src/main/java/com/example/productservice/controller/ProductController.java:176-187 | the row updateProduct writes: each present request field replaces the stored one (price through setPrice), an absent one keeps it |
| ProductApi.MergedUnderValidRequest | productService/src/main/java/com/example/productservice/controller/ProductController.java:176-187 | after validation, name, price and categories are always replaced and the description only when present; id and createdAt are kept |
| ProductApi.MergedIdempotent | productService/src/main/java/com/example/productservice/controller/ProductController.java:176-187 | applying the same update twice equals applying it once |
| ProductApi.MergedEmptyIsIdentity | productService/src/main/java/com/example/productservice/controller/ProductController.java:176-187 | an update with every field absent changes nothing |
| ProductApi.ValidRequestMakesValidEntity | productService/src/main/java/com/example/productservice/model/Product.java:33-48 | a valid request with a storable converted price, merged into a valid row, gives a valid entity |
| ProductApi.ProductController.IsNotValidUuid | productService/src/main/java/com/example/productservice/controller/ProductController.java:221-228 | true exactly when `UUID.fromString` throws on the id |
| ProductApi.ProductController.Index | productService/src/main/java/com/example/productservice/controller/ProductController.java:56-59 | 200 with exactly the stored rows, distinct and each valid |
| ProductApi.ProductController.SearchByName | productService/src/main/java/com/example/productservice/controller/ProductController.java:76-83 | 400 exactly for a null or empty name; otherwise 200 with exactly the matching rows, sorted by name, once each |
| ProductApi.ProductController.Show | productService/src/main/java/com/example/productservice/controller/ProductController.java:99-110 | 400 exactly for a non-UUID id, then 404 exactly when no row has the id, else 200 with that row |
| ProductApi.ProductController.Create | productService/src/main/java/com/example/productservice/controller/ProductController.java:124-133 | 400 exactly for an invalid request; 500 exactly when the converted price breaks the entity bounds; otherwise 201 with the new row appended, carrying the generated id, the converted price and the creation time, and shown afterwards |
| ProductApi.ProductController.UpdateProduct | productService/src/main/java/com/example/productservice/controller/ProductController.java:154-191 | guards fire in order (UUID 400, 404, validation 400, price 500); every failure leaves the table as it was; on 200 the row is replaced in place by the merge and shown afterwards |
| ProductApi.ProductController.Delete | productService/src/main/java/com/example/productservice/controller/ProductController.java:207-219 | 400 for a non-UUID id, 404 for an unknown one, both leaving the table; otherwise 204, the row is removed and the id then answers 404, and no other lookup changes |
| OrderModel.ValidDeliveryAddress | orderService/orderservice/src/main/java/com/example/orderservice/model/Order.java:42-46 | the address rule: `@NotBlank` and 5–255 chars |
| OrderModel.OrderItem.MeetsConstraints | orderService/orderservice/src/main/java/com/example/orderservice/model/OrderItem.java:56-69 | the item's bean constraints that can fail: positive quantity, positive price once set |
| OrderModel.OrderItem.Valid | orderService/orderservice/src/main/java/com/example/orderservice/model/OrderItem.java:40-69 | the item is attached to an order (non-null join column) and meets its constraints |
| OrderModel.PersistCheckAsWritten | orderService/orderservice/src/main/java/com/example/orderservice/model/OrderItem.java:49-51 | bean validation at persist as annotated: any item makes it throw UnexpectedTypeException (`@NotBlank` on a UUID); with no items only the address rule decides |
| OrderModel.PersistCheck | orderService/orderservice/src/main/java/com/example/orderservice/model/OrderItem.java:48-69 | the same check with `@NotNull` on productId: the address rule and every item's constraints |
| OrderModel.Order.PassesPersistCheck | orderService/orderservice/src/main/java/com/example/orderservice/model/Order.java:42-55 | an order meeting the repository's invariant passes the corrected check |
| OrderModel.Order.constructor | orderService/orderservice/src/main/java/com/example/orderservice/controller/OrderController.java:69-71 | the built order has only the address: no id, no creation time and (corrected) an empty item list |
| OrderModel.Order.AddOrderItem | orderService/orderservice/src/main/java/com/example/orderservice/model/Order.java:70-73 | appends the item with its order reference set to this order; the other fields are unchanged and the entity constraints are preserved |
| OrderDto.ValidItemRequest | orderService/orderservice/src/main/java/com/example/orderservice/dto/OrderItemRequest.java:24-35 | a line's validator: productId and quantity non-null, quantity positive; the id's format is not checked |
| OrderDto.ValidOrderRequest | orderService/orderservice/src/main/java/com/example/orderservice/dto/OrderRequest.java:26-38 | the create validator: address `@NotBlank` and 5–255 chars, a non-empty product list, every non-null line valid (the `@Valid` cascade skips null lines) |
| OrderDto.ValidUpdateOrderRequest | orderService/orderservice/src/main/java/com/example/orderservice/dto/UpdateOrderRequest.java:26-29 | the update validator: address `@NotBlank` and 5–255 chars |
| OrderDto.ValidOrderRequestMeetsEntity | orderService/orderservice/src/main/java/com/example/orderservice/dto/OrderRequest.java:26-38 | a valid create request has an address meeting the entity rule and a non-empty list of lines, each non-null line with a product id and a positive quantity |
| OrderDto.ValidUpdateRequestMeetsEntity | orderService/orderservice/src/main/java/com/example/orderservice/dto/UpdateOrderRequest.java:26-29 | an update request is valid exactly when its address is present and meets the entity rule |
| OrderDto.NullLinePassesValidation | orderService/orderservice/src/main/java/com/example/orderservice/dto/OrderRequest.java:35-38 | a request whose only line is null passes validation |
| OrderDto.ProductIdFormatNotChecked | orderService/orderservice/src/main/java/com/example/orderservice/dto/OrderItemRequest.java:24-26 | any non-null product id string passes validation, UUID or not |
| OrderPersistence.OrderRepository.FindById | orderService/orderservice/src/main/java/com/example/orderservice/repository/OrderRepository.java:15 | Some exactly when the id is stored, and then the stored order object |
| OrderPersistence.OrderRepository.FindAll | orderService/orderservice/src/main/java/com/example/orderservice/repository/OrderRepository.java:15 | every stored order, each under its own id |
| OrderPersistence.OrderRepository.FindByProductId | orderService/orderservice/src/main/java/com/example/orderservice/repository/OrderRepository.java:25-26 | the join: the stored orders reached through an item whose productId is the argument (its exactness is FindByProductIdExact's) |
| OrderPersistence.OrderRepository.FindByProductIdExact | orderService/orderservice/src/main/java/com/example/orderservice/repository/OrderRepository.java:25-26 | the join selects exactly the stored orders that own an item for the product; an order with no items is never selected |
| OrderPersistence.OrderRepository.Save | orderService/orderservice/src/main/java/com/example/orderservice/model/Order.java:33-63 | a new order gets the generated id and creation time, a stored one keeps both; address and items are kept and the order is then found under its id |
| OrderPersistence.OrderRepository.Delete | orderService/orderservice/src/main/java/com/example/orderservice/repository/OrderRepository.java:15 | removes the order's entry (its items go with it) and leaves every other entry |
| OrderApi.RequestedItemsAppend | orderService/orderservice/src/main/java/com/example/orderservice/controller/OrderController.java:73-80 | one loop step extends the built list by exactly the item for the next line |
| OrderApi.RequestedItemsFaithful | orderService/orderservice/src/main/java/com/example/orderservice/controller/OrderController.java:73-80 | one item per line in request order: each copies the parsed product id and the quantity, refers to the order, and has no price |
| OrderApi.RequestedItemsValid | orderService/orderservice/src/main/java/com/example/orderservice/model/OrderItem.java:40-69 | every built item refers to its order and meets the OrderItem constraints |
| OrderApi.CreateLoopAsWritten | orderService/orderservice/src/main/java/com/example/orderservice/controller/OrderController.java:69-80 | the loop as written: a null line throws NullPointerException at `getProductId`, a malformed id IllegalArgumentException, an add to a null list NullPointerException; otherwise one item per line is appended |
| OrderApi.AsWrittenLoopNeverCompletes | orderService/orderservice/src/main/java/com/example/orderservice/controller/OrderController.java:69-80 | with the builder's null item list, no valid request gets through the loop: the first line throws IllegalArgumentException when its id does not parse, NullPointerException otherwise |
| OrderApi.BuiltOrderFailsPersistCheckAsWritten | orderService/orderservice/src/main/java/com/example/orderservice/model/OrderItem.java:49-51 | as annotated, every order built from a valid request fails validation at persist with UnexpectedTypeException |
| OrderApi.BuiltOrderPassesPersistCheck | orderService/orderservice/src/main/java/com/example/orderservice/model/OrderItem.java:48-69 | with `@NotNull` on productId, every order built from a valid request passes validation at persist |
| OrderApi.LoopFromListBuildsRequestedItems | orderService/orderservice/src/main/java/com/example/orderservice/controller/OrderController.java:73-80 | started from a list, the loop appends exactly the requested items |
| OrderApi.OrderController.GetOrders | orderService/orderservice/src/main/java/com/example/orderservice/controller/OrderController.java:45-48 | 200 with every stored order, each found under its own id |
| OrderApi.OrderController.GetOrder | orderService/orderservice/src/main/java/com/example/orderservice/controller/OrderController.java:119-126 | 404 exactly for an unknown id, else 200 with the stored order |
| OrderApi.OrderController.SearchByProductId | orderService/orderservice/src/main/java/com/example/orderservice/controller/OrderController.java:97-106 | 404 exactly when no stored order has an item for the product; otherwise 200 with exactly the orders that do |
| OrderApi.OrderController.CreateOrder | orderService/orderservice/src/main/java/com/example/orderservice/controller/OrderController.java:61-84 | 400 exactly for an invalid request; 500 exactly when a line is null or its product id does not parse; either way nothing is stored. Otherwise 201 with one fresh order (generated id and time, the address, one item per line), stored under its id in one save |
| OrderApi.OrderController.UpdateOrder | orderService/orderservice/src/main/java/com/example/orderservice/controller/OrderController.java:141-160 | validation 400 before the 404 lookup; on 200 only that order's address changes; ids, times, items and other orders are untouched |
| OrderApi.OrderController.DeleteOrder | orderService/orderservice/src/main/java/com/example/orderservice/controller/OrderController.java:172-181 | 404 exactly for an unknown id; otherwise 204, the entry is removed, getOrder then answers 404, and no remaining item refers to the deleted order |

## Left out

- Item prices: OrderItem.price is documented as the price at the time of ordering (OrderItem.java:61-69), and ProductResponse.java:9-10 is a DTO for reading products from the product service. The shipped createOrder (OrderController.java:61-84) makes no call to it and never sets a price. The model follows the code, so item prices stay unset.
- HTTP transport, JSON (de)serialisation, Spring's request binding, OpenAPI annotations, CORS and routing configuration are not modelled.
- Transactions and concurrency are not modelled.
- `UUID.fromString` and the database's `LOWER` are parameters. Generated ids and timestamps are parameters too, with `@CreatedDate` auditing assumed to be enabled.
- Floating point: request prices are exact reals. The float rounding of `price * 100` and the float `getPrice` accessor are not modelled.
- Product.categories is stored as a JSON string. The model keeps the decoded list, so the JSON encode and decode, and their failure paths, are not modelled: a failed decode reads as an empty list and a failed encode keeps the old value.
- Null elements inside a category list are not modelled (the list holds strings).
- `@Size` counts UTF-16 code units; the model counts characters.
- The LIKE query treats `%` and `_` inside the query as wildcards; the model matches the query literally.
- `ORDER BY name` is modelled as code-point order, whatever the database collation. Ties keep table order.
- The order item's own generated id is not modelled, since nothing reads it.
- OrderItem.productId carries `@NotBlank` on a UUID field, so validation at persist throws UnexpectedTypeException for every order with an item: as written, createOrder answers 500 for every valid request even with the item list fixed (see Findings). CreateOrder follows the corrected `@NotNull` check.
- OrderItem.price is mapped to a NOT NULL column but never set. Whether the insert then fails depends on the database schema, which is part of no source file, so the model accepts a missing price.
- OrderPersistence.OrderRepository.Save: entity validation at persist is a precondition here rather than a failure path. On the order side the request validation already implies it, apart from the productId constraint above; OrderModel.Order.PassesPersistCheck ties it to the corrected check.
- OrderApi.OrderController.SearchByProductId: as written, the call does not type-check: a `String` argument is passed for the finder's `UUID` parameter (OrderController.java:100, OrderRepository.java:26). The model takes the intended, already-parsed UUID, as a `UUID` request parameter would give.
- OrderApi.OrderController.SearchByProductId: the join returns one row per matching item, so an order can appear more than once. The model returns the set of selected orders, so multiplicity and order are not stated.
- OrderApi.OrderController.GetOrders: findAll's order is not specified; the model returns the set of stored orders.
- The SearchByProductIdRequest DTO is never used by the controller and is not modelled.
- ProductApi.ProductController.Create: the framework answers 400 for an invalid request because create has `@Valid` without a BindingResult. The model returns BadRequest without the error body.
- ProductApi.ProductController.UpdateProduct: the class-level `@Validated` (ProductController.java:31) may make Spring validate the `@Valid` body before the method runs, answering 500 (ConstraintViolationException) before the UUID guard. The model follows the BindingResult path in the method body.
- A 500 at persist (a converted price outside the entity bounds) is assumed to roll back, leaving the table as it was.

## Findings

| source | as written | input that shows it | evidently intended | confidence | as-written member | corrected member |
|---|---|---|---|---|---|---|
| orderService/orderservice/src/main/java/com/example/orderservice/model/Order.java:55 | `Order.builder()` leaves `orderItems` null (no `@Builder.Default`), and the loop of createOrder (OrderController.java:73-80) calls `order.getOrderItems().add(item)` on it | any valid request, e.g. address "Main street 1" with one line (a well-formed UUID, quantity 1): the first add throws a NullPointerException and the client gets 500 | the item list starts empty, so the order is saved with one item per line | not executed | OrderApi.CreateLoopAsWritten (shown by OrderApi.AsWrittenLoopNeverCompletes) | OrderApi.OrderController.CreateOrder (with OrderModel.Order.constructor and OrderApi.LoopFromListBuildsRequestedItems) |
| orderService/orderservice/src/main/java/com/example/orderservice/model/OrderItem.java:49-51 | `productId` is a `UUID` annotated `@NotBlank`, a constraint Hibernate Validator supports only on character sequences, so validating an item throws UnexpectedTypeException | any valid request, once the item list starts empty, e.g. address "Main street 1" with one line (a well-formed UUID, quantity 1): saving the order validates its item and throws, and the client gets 500 | `@NotNull`, so the order is saved and answered with 201 | not executed | OrderModel.PersistCheckAsWritten (shown by OrderApi.BuiltOrderFailsPersistCheckAsWritten) | OrderModel.PersistCheck (with OrderApi.BuiltOrderPassesPersistCheck and OrderModel.Order.PassesPersistCheck) |
