/** The unversioned quantity update (POST): like version 1, but the body's quantity
    may be null, and the validator rejects null. */
module UpdateQuantity {
  import opened Domain
  import opened Validation
  import opened InMemory
  import opened ProblemResponses

  datatype UpdateRequest = UpdateRequest(quantity: Option<Int32>)

  datatype Query = Query(id: Guid, quantity: Option<Int32>)

  /** The rules in declaration order: Id NotEmpty; Quantity NotNull, then
      GreaterThanOrEqualTo(0), which a null quantity passes. */
  function ValidateQuery(q: Query): (r: seq<ValidationFailure>)
    ensures ValidationFailure(Id, NotEmpty) in r <==> q.id == EmptyGuid
    ensures ValidationFailure(Quantity, NotNull) in r <==> q.quantity.None?
    ensures ValidationFailure(Quantity, GreaterThanOrEqualTo(0)) in r <==> q.quantity.Some? && q.quantity.value < 0
    ensures forall f :: f in r ==> f.property == Id || f.property == Quantity
    ensures r == [] <==> q.id != EmptyGuid && q.quantity.Some? && q.quantity.value >= 0
  {
    Check(q.id == EmptyGuid, ValidationFailure(Id, NotEmpty))
      + Check(q.quantity.None?, ValidationFailure(Quantity, NotNull))
      + Check(q.quantity.Some? && q.quantity.value < 0, ValidationFailure(Quantity, GreaterThanOrEqualTo(0)))
  }

  datatype LogEvent =
    | RequestInvalid(request: UpdateRequest, errors: seq<ValidationFailure>)
    | QuantityUpdated(original: Int32, updated: Int32)

  datatype HandleResult =
    | Ok
    | NotFound(problem: ProblemDetails)
    | ValidationProblem(errors: seq<ValidationFailure>)

  datatype Handled = Handled(result: HandleResult, store: map<Guid, Product>, calls: seq<RepoCall>, log: seq<LogEvent>)

  /** What Handle does to a store holding `store`. */
  function Decide(store: map<Guid, Product>, productId: Guid, request: UpdateRequest): (h: Handled)
    requires Keyed(store)
    ensures Keyed(h.store) && h.store.Keys == store.Keys
    ensures h.result.ValidationProblem? <==>
      productId == EmptyGuid || request.quantity.None? || request.quantity.value < 0
    ensures h.result.ValidationProblem? ==>
      && h.store == store && h.calls == []
      && h.result.errors == ValidateQuery(Query(productId, request.quantity))
      && h.log == [RequestInvalid(request, h.result.errors)]
    ensures h.result.NotFound? ==>
      && productId !in store
      && h.store == store && h.calls == [GetSingleCall(productId)] && h.log == []
      && h.result.problem == NotFoundProblem(productId)
    ensures h.result.Ok? ==>
      && request.quantity.Some? && request.quantity.value >= 0
      && OnlyQuantityChanged(store, h.store, productId, request.quantity.value)
      && h.calls == [GetSingleCall(productId), UpdateSingleCall(Some(h.store[productId]))]
      && h.log == [QuantityUpdated(store[productId].quantity, request.quantity.value)]
    ensures !h.result.ValidationProblem? ==> (h.result.Ok? <==> productId in store)
  {
    var errors := ValidateQuery(Query(productId, request.quantity));
    if errors != [] then Handled(ValidationProblem(errors), store, [], [RequestInvalid(request, errors)])
    else if productId !in store then Handled(NotFound(NotFoundProblem(productId)), store, [GetSingleCall(productId)], [])
    else
      var product := store[productId];
      var updated := product.(quantity := request.quantity.value);
      Handled(Ok, store[productId := updated], [GetSingleCall(productId), UpdateSingleCall(Some(updated))],
              [QuantityUpdated(product.quantity, updated.quantity)])
  }

  method Handle(repository: InMemoryRepository, productId: Guid, request: UpdateRequest)
    returns (result: HandleResult, log: seq<LogEvent>)
    requires repository.Valid()
    modifies repository
    ensures repository.Valid()
    ensures var h := Decide(old(repository.data), productId, request);
      && result == h.result
      && repository.data == h.store
      && repository.calls == old(repository.calls) + h.calls
      && log == h.log
  {
    var query := Query(productId, request.quantity);
    var validationResult := ValidateQuery(query);
    if validationResult != [] {
      return ValidationProblem(validationResult), [RequestInvalid(request, validationResult)];
    }
    var product := repository.GetSingle(productId);
    if product.None? {
      return NotFound(NotFoundProblem(productId)), [];
    }
    var originalQuantity := product.value.quantity;
    var updated := product.value.(quantity := request.quantity.value);
    var persisted := repository.UpdateSingle(Some(updated));
    log := [QuantityUpdated(originalQuantity, updated.quantity)];
    result := Ok;
  }
}
