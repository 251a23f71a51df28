/** Version 2 of the quantity update: the endpoint only enqueues the command, and
    ProductServices.Update applies it later from the background worker. Outcomes are
    visible only in the log, modelled as a sequence of events. */
module UpdateQuantityV2 {
  import opened Domain
  import opened Validation
  import opened QuantityCommand
  import opened InMemory
  import opened ProductUpdateQueue

  datatype UpdateRequest = UpdateRequest(quantity: Int32)

  /** The log entries of the service and of the worker that drives it. */
  datatype LogEvent =
    | CommandInvalid(command: Command, errors: seq<ValidationFailure>)
    | ProductNotFound(id: Guid)
    | QuantityUpdated(original: Int32, updated: Int32)
    | WorkerStarted
    | JobProcessing(item: Command)
    | JobProcessed(item: Command)
    | JobCancelled(cancelled: Option<Command>)
    | JobFailed
    | WorkerStopped
  {
    function Level(): LogLevel {
      match this
      case CommandInvalid(_, _) => Warning
      case ProductNotFound(_) => Warning
      case JobFailed => Error
      case _ => Information
    }
  }

  /** What one application of a command does: the new store, the repository calls
      made, and the entries logged. */
  datatype Outcome = Outcome(store: map<Guid, Product>, calls: seq<RepoCall>, log: seq<LogEvent>)

  /** ProductServices.Update: validate, look up, set the quantity, persist, log.
      Each failure stops early and is reported by one warning. */
  function Apply(store: map<Guid, Product>, c: Command): (o: Outcome)
    requires Keyed(store)
    ensures Keyed(o.store) && o.store.Keys == store.Keys
    ensures |o.log| == 1
    ensures (c.id == EmptyGuid || c.quantity < 0) <==> o.log[0].CommandInvalid?
    ensures o.log[0].CommandInvalid? ==>
      o.store == store && o.calls == [] && o.log[0] == CommandInvalid(c, Validate(c))
    ensures o.log[0].ProductNotFound? <==> c.id != EmptyGuid && c.quantity >= 0 && c.id !in store
    ensures o.log[0].ProductNotFound? ==>
      o.store == store && o.calls == [GetSingleCall(c.id)] && o.log[0].id == c.id
    ensures o.log[0].QuantityUpdated? <==> c.id != EmptyGuid && c.quantity >= 0 && c.id in store
    ensures o.log[0].QuantityUpdated? ==>
      && OnlyQuantityChanged(store, o.store, c.id, c.quantity)
      && o.calls == [GetSingleCall(c.id), UpdateSingleCall(Some(o.store[c.id]))]
      && o.log[0] == QuantityUpdated(store[c.id].quantity, c.quantity)
  {
    var errors := Validate(c);
    if errors != [] then Outcome(store, [], [CommandInvalid(c, errors)])
    else if c.id !in store then Outcome(store, [GetSingleCall(c.id)], [ProductNotFound(c.id)])
    else
      var product := store[c.id];
      var updated := product.(quantity := c.quantity);
      Outcome(store[c.id := updated], [GetSingleCall(c.id), UpdateSingleCall(Some(updated))],
              [QuantityUpdated(product.quantity, updated.quantity)])
  }

  /** The service resolved for one job; its store is the shared repository. */
  class ProductServices {
    const repository: InMemoryRepository

    constructor (repository: InMemoryRepository)
      ensures this.repository == repository
    {
      this.repository := repository;
    }

    method Update(command: Command) returns (log: seq<LogEvent>)
      requires repository.Valid()
      modifies repository
      ensures repository.Valid()
      ensures var o := Apply(old(repository.data), command);
        && repository.data == o.store
        && repository.calls == old(repository.calls) + o.calls
        && log == o.log
    {
      var validationResult := Validate(command);
      if validationResult != [] {
        return [CommandInvalid(command, validationResult)];
      }
      var product := repository.GetSingle(command.id);
      if product.None? {
        return [ProductNotFound(command.id)];
      }
      var originalQuantity := product.value.quantity;
      var updated := product.value.(quantity := command.quantity);
      var persisted := repository.UpdateSingle(Some(updated));
      log := [QuantityUpdated(originalQuantity, updated.quantity)];
    }
  }

  /** The HTTP outcome of the acceptance endpoint. Accepted is 202; a write that
      suspends on a full queue leaves the request Pending; a cancelled request is
      Aborted with the cancellation exception. */
  datatype AcceptResult = Accepted | Pending | Aborted

  /** The command the endpoint builds from its route and body, unvalidated. */
  function CommandFor(productId: Guid, request: UpdateRequest): (c: Command)
    ensures c.id == productId && c.quantity == request.quantity
  {
    Command(productId, request.quantity)
  }

  /** UpdateProductQuantityEndpoint.Handle: enqueue one command, answer Accepted. */
  method HandleAccept(queue: ProductUpdateQueue, productId: Guid, request: UpdateRequest, cancelled: bool)
    returns (r: AcceptResult)
    requires queue.Valid()
    modifies queue
    ensures queue.Valid()
    ensures var s := Write(old(queue.buffer), queue.capacity, queue.fullMode, CommandFor(productId, request), cancelled);
      && queue.buffer == s.buffer
      && (r == Accepted <==> s.result == Enqueued)
      && (r == Pending <==> s.result == EnqueueWouldBlock)
      && (r == Aborted <==> cancelled)
    ensures !cancelled && |old(queue.buffer)| < queue.capacity ==>
      r == Accepted && queue.buffer == old(queue.buffer) + [Command(productId, request.quantity)]
  {
    var command := Command(productId, request.quantity);
    var written := queue.EnqueueAsync(command, cancelled);
    r := match written
      case Enqueued => Accepted
      case EnqueueWouldBlock => Pending
      case EnqueueCancelled => Aborted;
  }
}
