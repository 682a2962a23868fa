/** ProductController.java: the REST endpoints of the product directory. */
module ProductApi {
  import opened Common
  import opened ProductModel
  import opened ProductDto
  import opened ProductPersistence

  /** The product updateProduct writes back: each request field that is present replaces the
      stored one (the price through setPrice), and an absent one keeps it. */
  function Merged(p: Product, r: ProductRequest): Product {
    p.(name := if r.name.Some? then r.name.value else p.name,
       description := if r.description.Some? then r.description else p.description,
       price := if r.price.Some? then ToMinorUnits(r.price.value) else p.price,
       categories := if r.categories.Some? then r.categories.value else p.categories)
  }

  /** Under a request that passed validation, name, price and categories are always present, so
      only the description is a partial update; id and creation time are never touched. */
  lemma MergedUnderValidRequest(p: Product, r: ProductRequest)
    requires ValidProductRequest(r)
    ensures Merged(p, r).id == p.id && Merged(p, r).createdAt == p.createdAt
    ensures Merged(p, r).name == r.name.value
    ensures Merged(p, r).price == ToMinorUnits(r.price.value)
    ensures Merged(p, r).categories == r.categories.value
    ensures r.description.Some? ==> Merged(p, r).description == r.description
    ensures r.description.None? ==> Merged(p, r).description == p.description
  {
  }

  /** Applying the same update twice gives the same product as applying it once. */
  lemma MergedIdempotent(p: Product, r: ProductRequest)
    ensures Merged(Merged(p, r), r) == Merged(p, r)
  {
  }

  /** An update with every field absent changes nothing. */
  lemma MergedEmptyIsIdentity(p: Product)
    ensures Merged(p, ProductRequest(None, None, None, None)) == p
  {
  }

  /** The entity constraint a validated request can still break: the converted price. */
  predicate PriceStorable(price: real) {
    0 < ToMinorUnits(price) <= MaxStoredPrice
  }

  /** A validated request with a storable price, merged into a valid product, yields a product
      that passes the entity's constraints. */
  lemma ValidRequestMakesValidEntity(p: Product, r: ProductRequest)
    requires ValidEntity(p) && ValidProductRequest(r) && PriceStorable(r.price.value)
    ensures ValidEntity(Merged(p, r))
  {
    MergedUnderValidRequest(p, r);
  }

  class ProductController {
    const repository: ProductRepository
    /** java.util.UUID.fromString; None is the IllegalArgumentException it throws. */
    const fromString: string -> Option<Uuid>
    /** The database's LOWER. */
    const toLower: string -> string

    constructor (repository: ProductRepository, fromString: string -> Option<Uuid>, toLower: string -> string)
      ensures this.repository == repository && this.fromString == fromString && this.toLower == toLower
    {
      this.repository := repository;
      this.fromString := fromString;
      this.toLower := toLower;
    }

    /** isNotValidUUID */
    predicate IsNotValidUuid(id: string) {
      fromString(id).None?
    }

    /** index: 200 with every stored product. */
    function Index(): (r: Response<seq<Product>>)
      requires repository.Valid()
      reads repository
      ensures r.Ok? && |r.body| == |repository.rows|
      ensures DistinctIds(r.body)
      ensures forall q :: q in r.body <==> q in repository.rows
      ensures forall q | q in r.body :: repository.FindById(q.id) == Some(q) && ValidEntity(q)
    {
      Ok(repository.FindAll())
    }

    /** searchByName: 400 for a missing or empty name; otherwise 200 with exactly the stored
        products whose lower-cased name contains the lower-cased query, sorted by name. */
    function SearchByName(name: Option<string>): (r: Response<seq<Product>>)
      requires repository.Valid()
      reads repository
      ensures r.Ok? || r.BadRequest?
      ensures r.BadRequest? <==> name.None? || name.value == []
      ensures r.Ok? ==> SortedByName(r.body) && DistinctIds(r.body)
      ensures r.Ok? ==> forall q :: q in r.body <==> q in repository.rows && Matches(q, name.value, toLower)
    {
      if name.None? || name.value == [] then BadRequest
      else Ok(repository.FindByNameQuery(name.value, toLower))
    }

    /** show: 400 for an id that is not a UUID, 404 for an unknown one, else 200 with the row. */
    function Show(id: string): (r: Response<Product>)
      reads repository
      ensures r.Ok? || r.BadRequest? || r.NotFound?
      ensures r.BadRequest? <==> IsNotValidUuid(id)
      ensures r.NotFound? <==> !IsNotValidUuid(id) && forall q | q in repository.rows :: q.id != id
      ensures r.Ok? ==> r.body in repository.rows && r.body.id == id
    {
      if IsNotValidUuid(id) then BadRequest
      else
        var product := repository.FindById(id);
        if product.None? then NotFound else Ok(product.value)
    }

    /** create: 400 for a request that fails validation; 500 when the converted price breaks the
        entity's bounds at persist; otherwise the new product, with the generated id and creation
        time, is appended and returned with 201. */
    method Create(request: ProductRequest, newId: string, now: Instant) returns (response: Response<Product>)
      requires repository.Valid()
      requires !IsNotValidUuid(newId) && forall q | q in repository.rows :: q.id != newId
      modifies repository
      ensures repository.Valid()
      ensures response.BadRequest? <==> !ValidProductRequest(request)
      ensures response.ServerError? <==> ValidProductRequest(request) && !PriceStorable(request.price.value)
      ensures response.Created? || response.BadRequest? || response.ServerError?
      ensures !response.Created? ==> repository.rows == old(repository.rows)
      ensures response.Created? ==>
        && response.body == Product(newId, request.name.value, request.description,
                                    ToMinorUnits(request.price.value), request.categories.value, now)
        && repository.rows == old(repository.rows) + [response.body]
        && Show(newId) == Ok(response.body)
    {
      if !ValidProductRequest(request) {
        return BadRequest;
      }
      var product := Product(newId, request.name.value, request.description,
                             ToMinorUnits(request.price.value), request.categories.value, now);
      if !PriceStorable(request.price.value) {
        return ServerError;
      }
      assert IndexOf(repository.rows, newId).None?;
      repository.Save(product);
      response := Created(product);
    }

    /** updateProduct: 400 for an id that is not a UUID, then 404 for an unknown one, then 400
        for a request that fails validation; 500 when the merged price breaks the entity's bounds
        at persist; otherwise the stored row is replaced in place by the merge and returned. */
    method UpdateProduct(id: string, request: ProductRequest) returns (response: Response<Product>)
      requires repository.Valid()
      modifies repository
      ensures repository.Valid()
      ensures response.Ok? || response.BadRequest? || response.NotFound? || response.ServerError?
      ensures IsNotValidUuid(id) ==> response.BadRequest?
      ensures !IsNotValidUuid(id) ==> (response.NotFound? <==> old(repository.FindById(id)).None?)
      ensures !IsNotValidUuid(id) && old(repository.FindById(id)).Some? ==>
        (response.BadRequest? <==> !ValidProductRequest(request))
      ensures response.ServerError? <==>
        !IsNotValidUuid(id) && old(repository.FindById(id)).Some? && ValidProductRequest(request)
        && !PriceStorable(request.price.value)
      ensures !response.Ok? ==> repository.rows == old(repository.rows)
      ensures response.Ok? ==>
        && old(IndexOf(repository.rows, id)).Some?
        && response.body == Merged(old(repository.rows)[old(IndexOf(repository.rows, id)).value], request)
        && repository.rows == old(repository.rows)[old(IndexOf(repository.rows, id)).value := response.body]
        && Show(id) == Ok(response.body)
    {
      if IsNotValidUuid(id) {
        return BadRequest;
      }
      var found := repository.FindById(id);
      if found.None? {
        return NotFound;
      }
      if !ValidProductRequest(request) {
        return BadRequest;
      }
      var product := found.value;
      if request.name.Some? {
        product := product.(name := request.name.value);
      }
      if request.description.Some? {
        product := product.(description := request.description);
      }
      if request.price.Some? {
        product := product.(price := ToMinorUnits(request.price.value));
      }
      if request.categories.Some? {
        product := product.(categories := request.categories.value);
      }
      assert product == Merged(found.value, request);
      if !PriceStorable(request.price.value) {
        return ServerError;
      }
      ghost var i := IndexOf(repository.rows, id).value;
      assert repository.rows[i] == found.value;
      ValidRequestMakesValidEntity(found.value, request);
      repository.Save(product);
      response := Ok(product);
    }

    /** delete: 400 for an id that is not a UUID, then 404 for an unknown one; otherwise the row
        is removed, 204, and every other row stays as it was. */
    method Delete(id: string) returns (response: Response<()>)
      requires repository.Valid()
      modifies repository
      ensures repository.Valid()
      ensures response.NoContent? || response.BadRequest? || response.NotFound?
      ensures response.BadRequest? <==> IsNotValidUuid(id)
      ensures response.NotFound? <==> !IsNotValidUuid(id) && old(repository.FindById(id)).None?
      ensures !response.NoContent? ==> repository.rows == old(repository.rows)
      ensures response.NoContent? ==>
        && repository.rows == Without(old(repository.rows), id)
        && Show(id) == NotFound
        && forall other | other != id :: repository.FindById(other) == old(repository.FindById(other))
    {
      if IsNotValidUuid(id) {
        return BadRequest;
      }
      var found := repository.FindById(id);
      if found.None? {
        return NotFound;
      }
      repository.Delete(found.value);
      response := NoContent;
    }
  }
}
