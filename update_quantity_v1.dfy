/** Version 1 of the quantity update: the endpoint validates the command, looks the
    product up, sets its quantity, persists it and answers at once. */
module UpdateQuantityV1 {
  import opened Domain
  import opened Validation
  import opened QuantityCommand
  import opened InMemory
  import opened ProblemResponses

  datatype UpdateRequest = UpdateRequest(quantity: Int32)

  datatype LogEvent =
    | RequestInvalid(request: UpdateRequest, errors: seq<ValidationFailure>)
    | QuantityUpdated(original: Int32, updated: Int32)

  /** Results.Ok(), Results.NotFound(problem) or Results.ValidationProblem(errors). */
  datatype HandleResult =
    | Ok
    | NotFound(problem: ProblemDetails)
    | ValidationProblem(errors: seq<ValidationFailure>)

  /** The answer, the store afterwards, the repository calls made and the log. */
  datatype Handled = Handled(result: HandleResult, store: map<Guid, Product>, calls: seq<RepoCall>, log: seq<LogEvent>)

  /** What Handle does to a store holding `store`. */
  function Decide(store: map<Guid, Product>, productId: Guid, request: UpdateRequest): (h: Handled)
    requires Keyed(store)
    ensures Keyed(h.store) && h.store.Keys == store.Keys
    ensures h.result.ValidationProblem? <==> productId == EmptyGuid || request.quantity < 0
    ensures h.result.ValidationProblem? ==>
      && h.store == store && h.calls == []
      && h.result.errors == Validate(Command(productId, request.quantity))
      && h.log == [RequestInvalid(request, h.result.errors)]
    ensures h.result.NotFound? <==> productId != EmptyGuid && request.quantity >= 0 && productId !in store
    ensures h.result.NotFound? ==>
      && h.store == store && h.calls == [GetSingleCall(productId)] && h.log == []
      && h.result.problem == NotFoundProblem(productId)
    ensures h.result.Ok? <==> productId != EmptyGuid && request.quantity >= 0 && productId in store
    ensures h.result.Ok? ==>
      && OnlyQuantityChanged(store, h.store, productId, request.quantity)
      && h.calls == [GetSingleCall(productId), UpdateSingleCall(Some(h.store[productId]))]
      && h.log == [QuantityUpdated(store[productId].quantity, request.quantity)]
  {
    var errors := Validate(Command(productId, request.quantity));
    if errors != [] then Handled(ValidationProblem(errors), store, [], [RequestInvalid(request, errors)])
    else if productId !in store then Handled(NotFound(NotFoundProblem(productId)), store, [GetSingleCall(productId)], [])
    else
      var product := store[productId];
      var updated := product.(quantity := request.quantity);
      Handled(Ok, store[productId := updated], [GetSingleCall(productId), UpdateSingleCall(Some(updated))],
              [QuantityUpdated(product.quantity, updated.quantity)])
  }

  method Handle(repository: InMemoryRepository, productId: Guid, request: UpdateRequest)
    returns (result: HandleResult, log: seq<LogEvent>)
    requires repository.Valid()
    modifies repository
    ensures repository.Valid()
    ensures var h := Decide(old(repository.data), productId, request);
      && result == h.result
      && repository.data == h.store
      && repository.calls == old(repository.calls) + h.calls
      && log == h.log
  {
    var command := Command(productId, request.quantity);
    var validationResult := Validate(command);
    if validationResult != [] {
      return ValidationProblem(validationResult), [RequestInvalid(request, validationResult)];
    }
    var product := repository.GetSingle(productId);
    if product.None? {
      return NotFound(NotFoundProblem(productId)), [];
    }
    var originalQuantity := product.value.quantity;
    var updated := product.value.(quantity := request.quantity);
    var persisted := repository.UpdateSingle(Some(updated));
    log := [QuantityUpdated(originalQuantity, updated.quantity)];
    result := Ok;
  }
}
