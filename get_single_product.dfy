/** Reading one product (GET /products/{productId}): validate the id, look it up,
    answer 404 without a body when it is absent and the product's fields otherwise. */
module GetSingleProduct {
  import opened Domain
  import opened Validation
  import opened InMemory

  datatype GetSingleProductQuery = GetSingleProductQuery(id: Guid)

  const IdNotEmpty := ValidationFailure(Id, NotEmpty)

  /** GetSingleProductQueryValidator: Id NotEmpty. */
  function Validate(q: GetSingleProductQuery): (errors: seq<ValidationFailure>)
    ensures errors == [] <==> q.id != EmptyGuid
    ensures forall f :: f in errors ==> f == IdNotEmpty
  {
    Check(q.id == EmptyGuid, IdNotEmpty)
  }

  /** The response record; CreatedAt is nullable there and always set here. */
  datatype GetProductResponse = GetProductResponse(
    id: Guid,
    title: string,
    imageUrl: Option<string>,
    price: int,
    description: Option<string>,
    quantity: Int32,
    createdAt: Option<Instant>)

  function ResponseOf(p: Product): (r: GetProductResponse)
    ensures r.id == p.id && r.title == p.title && r.imageUrl == p.imageUrl && r.price == p.price
    ensures r.description == p.description && r.quantity == p.quantity && r.createdAt == Some(p.createdOnUtc)
  {
    GetProductResponse(p.id, p.title, p.imageUrl, p.price, p.description, p.quantity, Some(p.createdOnUtc))
  }

  datatype LogEvent = RequestInvalid(query: GetSingleProductQuery, errors: seq<ValidationFailure>)

  datatype HandleResult = Ok(response: GetProductResponse) | NotFound | ValidationProblem(errors: seq<ValidationFailure>)

  datatype Handled = Handled(result: HandleResult, calls: seq<RepoCall>, log: seq<LogEvent>)

  /** What Handle answers for a store holding `store`; it changes nothing. */
  function Decide(store: map<Guid, Product>, productId: Guid): (h: Handled)
    requires Keyed(store)
    ensures h.result.ValidationProblem? <==> productId == EmptyGuid
    ensures h.result.ValidationProblem? ==>
      && h.result.errors == [IdNotEmpty] && h.calls == []
      && h.log == [RequestInvalid(GetSingleProductQuery(productId), [IdNotEmpty])]
    ensures h.result.NotFound? <==> productId != EmptyGuid && productId !in store
    ensures h.result.Ok? ==> productId in store && h.result.response == ResponseOf(store[productId])
    ensures h.result.Ok? ==> h.result.response.id == productId
    ensures !h.result.ValidationProblem? ==> h.calls == [GetSingleCall(productId)] && h.log == []
  {
    var query := GetSingleProductQuery(productId);
    var errors := Validate(query);
    if errors != [] then Handled(ValidationProblem(errors), [], [RequestInvalid(query, errors)])
    else if productId !in store then Handled(NotFound, [GetSingleCall(productId)], [])
    else Handled(Ok(ResponseOf(store[productId])), [GetSingleCall(productId)], [])
  }

  /** GetSingleProductEndpoint.Handle against the in-memory repository. */
  method Handle(repository: InMemoryRepository, productId: Guid) returns (result: HandleResult, log: seq<LogEvent>)
    requires repository.Valid()
    modifies repository`calls
    ensures var h := Decide(repository.data, productId);
      && result == h.result
      && repository.calls == old(repository.calls) + h.calls
      && log == h.log
  {
    var query := GetSingleProductQuery(productId);
    var validationResult := Validate(query);
    if validationResult != [] {
      return ValidationProblem(validationResult), [RequestInvalid(query, validationResult)];
    }
    var product := repository.GetSingle(query.id);
    if product.None? {
      return NotFound, [];
    }
    result := Ok(ResponseOf(product.value));
    log := [];
  }
}
