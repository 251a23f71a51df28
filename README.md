# AlzaEshop product API, modelled in Dafny

This project models the core of the AlzaEshop product API, an ASP.NET service over
a product store. The model covers:

- **The quantity-update features, in three versions.**
  - The unversioned POST and version 1 PUT validate the request, look the product
    up, set its quantity, persist it and answer at once: a validation problem, 404
    or 200.
  - Version 2 answers 202 Accepted as soon as its command is on the queue; with a
    full queue in Wait mode the request stays pending until there is room. It puts a command on a bounded channel
    (`ProductUpdateQueue`). A background worker (`ProductUpdateBackgroundService`)
    takes commands off the queue one at a time. It applies each one through
    `ProductServices.Update`, logs and skips a job that faults, and stops on
    cancellation.
- **The in-memory repository.** A dictionary from Guid to product with get-all,
  get, create, upsert-style update and delete.
- **Product creation.** The validator, how the product is built and persisted, and
  the response that echoes it.
- **Reads.** The single-product lookup, the version 1 listing, and the version 2
  paged listing with its defaults and bounds.
- **The auditing interceptor.** The EF Core `SaveChangesInterceptor` stamps ids,
  creation instants and modification instants on the tracked entries before a
  save.

How the system is modelled:

- **Products.** There is one `Product` datatype (`domain.dfy`).
  - A Guid is the 128-bit number its 32 hexadecimal digits spell. `Guid.Empty` is 0.
  - Price is C# `decimal`, which is exact. It is an integer number of the smallest
    currency unit.
  - Quantities are C# `int`, the subset type `Int32`.
- **Validators.** Each validator is a function that returns its failures in rule
  order. The request is valid exactly when that list is empty (`validation.dfy`).
- **The repository.** The in-memory repository is a class whose dictionary is a
  `map` field.
  - A ghost trace of the calls made on it, `calls`, stands in for the mock
    verifications of the unit tests.
  - Handlers that change the store are module-level methods (`UpdateQuantity.Handle`,
    `UpdateQuantityV1.Handle`, `CreateProduct.Handle`) or a method of the
    `ProductServices` class (`Update`). Each is given the repository, as a parameter
    or a field, and is proved against a pure `Decide` or `Apply` function.
- **Logs.** Log output is a returned sequence of events.
- **Inputs.** The clock, `Guid.NewGuid()`, the id provider and the paged query are
  inputs.
- **The queue.** The queue is a class whose buffer is a `seq`.
  - A write that would suspend on a full queue returns `EnqueueWouldBlock` and
    changes nothing. A read from an empty queue returns `DequeueWouldBlock`.
  - A cancellation token that is already cancelled is a flag, checked first, as
    the .NET channel does.
- **The worker.** The loop is a `while` loop in `ExecuteAsync`, proved against
  `Drain`, a function over a script with one `Interference` per iteration:
  - `Undisturbed` means the job runs through.
  - `Faults` means a non-cancellation exception is raised before the store is
    touched.
  - `CancelledAtDequeue` and `CancelledDuring` mean the stopping token fires at the
    dequeue or while the job runs.

  The run ends when the script does, because the token is then seen at the loop's
  own check.

## Model

| member | source | states |
|---|---|---|
| QuantityCommand.Validate | AlzaEshop.API/Features/Products/v2/UpdateProductQuantity.cs:24-29 | The Id rule fails exactly when the id is Guid.Empty. The quantity rule fails exactly when the quantity is negative. No other failure is reported, because NotNull never fails on an `int`. The command is valid iff Id is not empty and Quantity >= 0. |
| UpdateQuantityV2.Apply | AlzaEshop.API/Features/Products/v2/UpdateProductQuantity.cs:78-103 | Each call logs exactly one entry. An invalid command is logged with its errors, makes no repository call and leaves the store alone. A valid command for an absent id logs the id, makes only the GetSingle call and changes nothing. Otherwise only that product's quantity becomes the command's; every other field and product is unchanged. The calls are then GetSingle then UpdateSingle once, and the log carries the old and the new quantity. |
| UpdateQuantityV2.ProductServices.constructor | AlzaEshop.API/Features/Products/v2/UpdateProductQuantity.cs:71-76 | The service keeps the repository it is given; the validator and logger are not fields of the model. |
| UpdateQuantityV2.ProductServices.Update | AlzaEshop.API/Features/Products/v2/UpdateProductQuantity.cs:78-103 | The service's new repository contents, appended calls and log are those of `Apply` on the old contents, and the repository stays keyed by id. |
| UpdateQuantityV2.CommandFor | AlzaEshop.API/Features/Products/v2/UpdateProductQuantity.cs:53-57 | The command carries the route's product id and the body's quantity, unvalidated. |
| UpdateQuantityV2.HandleAccept | AlzaEshop.API/Features/Products/v2/UpdateProductQuantity.cs:46-62 | The endpoint writes exactly one command, built from the route id and the body quantity and not validated. It answers Accepted iff the write is admitted, Pending iff the write would suspend, and Aborted iff cancelled. With room in the queue, the command is appended and the answer is Accepted. |
| ProductUpdateQueue.Write | AlzaEshop.API/Features/Products/v2/UpdateProductQuantity.cs:124-127 | Cancellation is reported iff the token is cancelled. The write suspends iff the queue is full in Wait mode. With room, the item is appended. When full, DropNewest replaces the newest item, DropOldest drops the oldest and appends, and DropWrite discards the item. The buffer never exceeds capacity. |
| ProductUpdateQueue.Read | AlzaEshop.API/Features/Products/v2/UpdateProductQuantity.cs:129-132 | Cancellation is reported iff the token is cancelled. The read waits iff the buffer is empty. Otherwise it returns the oldest command and leaves the rest: `[item] + rest == buffer`. |
| ProductUpdateQueue.WriteAllAppends | AlzaEshop.API/Features/Products/v2/UpdateProductQuantity.cs:124-127 | Writes that fit within capacity append their items in order, whatever the full mode. |
| ProductUpdateQueue.ReadAllDrains | AlzaEshop.API/Features/Products/v2/UpdateProductQuantity.cs:129-132 | Reading until empty yields the buffer, oldest first. |
| ProductUpdateQueue.Fifo | AlzaEshop.API/Features/Products/v2/UpdateProductQuantity.cs:106-132 | Up to capacity, commands written to an empty queue are read back in the order written. |
| ProductUpdateQueue.Backpressure | AlzaEshop.API/Features/Products/v2/UpdateProductQuantity.cs:110-132 | After `capacity` writes in Wait mode, the next write suspends and admits nothing. After one read, which returns the first command, the same write is admitted behind the rest. |
| ProductUpdateQueue.CapacityTwoAdmission | AlzaEshop.API/Features/Products/v2/UpdateProductQuantity.cs:110-132 | With capacity 2, A and B are admitted and C suspends. After A is read, C is admitted behind B, and the reads then yield B and C. |
| ProductUpdateQueue.ProductUpdateQueue.constructor | AlzaEshop.API/Features/Products/v2/UpdateProductQuantity.cs:110-117 | The default capacity is 100 (`DefaultCapacity`), the mode is Wait, and the queue starts empty. |
| ProductUpdateQueue.ProductUpdateQueue.WithOptions | AlzaEshop.API/Features/Products/v2/UpdateProductQuantity.cs:119-122 | The queue takes the capacity and full mode of the options and starts empty. |
| ProductUpdateQueue.ProductUpdateQueue.EnqueueAsync | AlzaEshop.API/Features/Products/v2/UpdateProductQuantity.cs:124-127 | The new buffer and the result are those of `Write`, and the buffer stays within capacity. |
| ProductUpdateQueue.ProductUpdateQueue.DequeueAsync | AlzaEshop.API/Features/Products/v2/UpdateProductQuantity.cs:129-132 | The new buffer and the result are those of `Read`. |
| ProductUpdateWorker.Step | AlzaEshop.API/Features/Products/v2/UpdateProductQuantity.cs:155-177 | An iteration stops the loop iff the token fires or the queue is empty. A cancelled or empty dequeue logs a cancellation with no item and changes nothing. Otherwise the front command leaves the queue and is logged first. A fault or a cancellation during the job leaves the store alone and makes no call. |
| ProductUpdateWorker.ApplyAll | AlzaEshop.API/Features/Products/v2/UpdateProductQuantity.cs:97-100 | Applying commands in sequence keeps every key and every field of every product except its quantity. |
| ProductUpdateWorker.StepDequeues | AlzaEshop.API/Features/Products/v2/UpdateProductQuantity.cs:159-160 | The queue before an iteration is the commands that iteration logs as taken, followed by the queue after it. |
| ProductUpdateWorker.StepApplies | AlzaEshop.API/Features/Products/v2/UpdateProductQuantity.cs:159-166 | An iteration's store is the old store with exactly the commands it logs as processed applied. |
| ProductUpdateWorker.StepTakesFront | AlzaEshop.API/Features/Products/v2/UpdateProductQuantity.cs:156-177 | An iteration that runs undisturbed or faults, on a non-empty queue, takes exactly the front command and does not stop the loop. |
| ProductUpdateWorker.StepCompletes | AlzaEshop.API/Features/Products/v2/UpdateProductQuantity.cs:162-177 | Such an iteration logs its command as processed iff it does not fault. |
| ProductUpdateWorker.StepQuiet | AlzaEshop.API/Features/Products/v2/UpdateProductQuantity.cs:174-177 | Such an iteration logs no cancellation. |
| ProductUpdateWorker.DrainDequeuesInOrder | AlzaEshop.API/Features/Products/v2/UpdateProductQuantity.cs:153-178 | Ordering across a run: the worker takes commands from the front of the queue, in queue order, and leaves the rest queued. |
| ProductUpdateWorker.DrainAppliesProcessed | AlzaEshop.API/Features/Products/v2/UpdateProductQuantity.cs:153-178 | The store after a run is the initial store with exactly the processed commands applied, in the order processed. Skipped and cancelled jobs leave no trace. |
| ProductUpdateWorker.FaultIsolation | AlzaEshop.API/Features/Products/v2/UpdateProductQuantity.cs:153-178 | Suppose the token only fires at the end and the queue holds a job for every iteration. Then every iteration takes the next job, and a faulting job is logged and skipped. Every other job is processed, in order, and no cancellation is logged. |
| ProductUpdateWorker.UncancelledTakesEach | AlzaEshop.API/Features/Products/v2/UpdateProductQuantity.cs:153-178 | Without cancellation, n iterations take exactly the first n queued commands and leave the rest queued. |
| ProductUpdateWorker.UncancelledCompletesUndisturbed | AlzaEshop.API/Features/Products/v2/UpdateProductQuantity.cs:153-178 | Without cancellation, the processed commands are exactly the taken commands whose iteration did not fault, in order. |
| ProductUpdateWorker.UncancelledNeverCancels | AlzaEshop.API/Features/Products/v2/UpdateProductQuantity.cs:153-178 | Without cancellation, the run logs no cancellation. |
| ProductUpdateWorker.CancellationStops | AlzaEshop.API/Features/Products/v2/UpdateProductQuantity.cs:168-173 | If the token fires in iteration k, the iterations after it never run: the run leaves the same store, queue, calls and log as its first k + 1 iterations, and takes at most k + 1 commands from the queue. |
| ProductUpdateWorker.LastWriteWins | AlzaEshop.API/Features/Products/v2/UpdateProductQuantity.cs:97-100 | After a sequence of commands, a product's quantity is that of the last valid command for it, and its other fields are as they were. |
| ProductUpdateWorker.Untouched | AlzaEshop.API/Features/Products/v2/UpdateProductQuantity.cs:97-100 | Commands that never validly target a product leave it exactly as it was. |
| ProductUpdateWorker.CapacityTwoScenario | AlzaEshop.API/Features/Products/v2/UpdateProductQuantity.cs:148-181 | Given A (5 for product 1), B (7 for product 2) and C (9 for product 1), the worker processes A, B and C in that order. Product 1 ends with quantity 9 and product 2 with 7. |
| ProductUpdateWorker.ProductUpdateBackgroundService.constructor | AlzaEshop.API/Features/Products/v2/UpdateProductQuantity.cs:141-146 | The worker keeps the queue it is given and the repository its service provider resolves. |
| ProductUpdateWorker.ProductUpdateBackgroundService.ProcessNext | AlzaEshop.API/Features/Products/v2/UpdateProductQuantity.cs:155-177 | One loop body moves the queue, the repository and the call trace as `Step` says, and returns Step's log entries and stop flag. |
| ProductUpdateWorker.ProductUpdateBackgroundService.ExecuteAsync | AlzaEshop.API/Features/Products/v2/UpdateProductQuantity.cs:148-181 | The queue, store and calls after the loop are those of `Drain`. The log is "started", then Drain's entries, then "stopped". |
| UpdateQuantityV1.Decide | AlzaEshop.API/Features/Products/v1/UpdateProductQuantity.cs:47-89 | ValidationProblem iff the id is empty or the quantity is negative, with no repository call and the store unchanged. NotFound iff the request is valid and the id is absent; it carries the 404 problem for that id, makes just the GetSingle call and logs nothing. Ok iff valid and present: only the quantity changes, GetSingle then one UpdateSingle with the same id, and a log of the old and new quantity. |
| UpdateQuantityV1.Handle | AlzaEshop.API/Features/Products/v1/UpdateProductQuantity.cs:47-89 | The handler's result, new repository contents, appended calls and log are those of `Decide`. |
| ProblemResponses.NotFoundProblem | AlzaEshop.API/Features/Products/v1/UpdateProductQuantity.cs:72-78 | Title "Product not found" and status 404. The detail is "Product with ID ", then the id's 36-character canonical text, then " was not found". |
| ProblemResponses.NotFoundNamesProduct | AlzaEshop.API/Features/Products/v1/UpdateProductQuantity.cs:76 | Different ids give different 404 details, so the detail identifies the product. |
| GuidText.TextInjective | AlzaEshop.API/Features/Products/v1/UpdateProductQuantity.cs:76 | Two different Guids never have the same canonical text. |
| GuidText.ValueOfDigits | AlzaEshop.API/Features/Products/v1/UpdateProductQuantity.cs:76 | Reading back the hexadecimal digits printed for a number gives the number. |
| UpdateQuantity.ValidateQuery | AlzaEshop.API/Features/Products/UpdateProductQuantity.cs:19-30 | A null quantity fails NotNull. A negative quantity fails GreaterThanOrEqualTo(0), which a null passes. An empty id fails NotEmpty. The query is valid iff the id is not empty and the quantity is present and >= 0. |
| UpdateQuantity.Decide | AlzaEshop.API/Features/Products/UpdateProductQuantity.cs:39-81 | ValidationProblem iff the query is invalid, before any lookup. NotFound, with the 404 problem, only for a valid query whose product is absent, with no update. Ok only for a present product: the quantity is non-null, the stored quantity is its value and nothing else changes. |
| UpdateQuantity.Handle | AlzaEshop.API/Features/Products/UpdateProductQuantity.cs:39-81 | The handler's result, new repository contents, appended calls and log are those of `Decide`. |
| InMemory.InMemoryRepository.constructor | AlzaEshop.API/Common/Database/InMemory/InMemoryRepository.cs:17-20 | A new repository is empty. |
| InMemory.InMemoryRepository.GetAll | AlzaEshop.API/Common/Database/InMemory/InMemoryRepository.cs:22-26 | Every stored product is returned exactly once, and nothing else is. |
| InMemory.InMemoryRepository.GetSingle | AlzaEshop.API/Common/Database/InMemory/InMemoryRepository.cs:28-32 | Returns the stored product iff the id is a key, and null otherwise. |
| InMemory.InMemoryRepository.CreateSingle | AlzaEshop.API/Common/Database/InMemory/InMemoryRepository.cs:34-42 | A null entity throws and changes nothing. Otherwise the entity's id is replaced by the fresh key and its creation instant by the clock. It is stored under that key, everything else is kept, and the entity is returned. |
| InMemory.InMemoryRepository.UpdateSingle | AlzaEshop.API/Common/Database/InMemory/InMemoryRepository.cs:44-51 | A null entity throws and changes nothing. Otherwise the entity is stored under its own id, inserted if absent, and every other key is unchanged. |
| InMemory.InMemoryRepository.DeleteSingle | AlzaEshop.API/Common/Database/InMemory/InMemoryRepository.cs:53-60 | A null entity throws and changes nothing. Otherwise only the entity's id is removed, and deleting an absent id changes nothing. |
| CreateProduct.TextRules | AlzaEshop.API/Features/Products/CreateProduct.cs:23-29 | A required text field fails NotEmpty iff it is null or white space only, and MaximumLength iff it is longer than the maximum in UTF-16 units; it reports no failure about another field, and none iff both rules pass. |
| CreateProduct.NumericAndDescriptionRules | AlzaEshop.API/Features/Products/CreateProduct.cs:31-40 | Price and Quantity fail iff they are negative (a null passes); Description fails iff it is longer than 2000; no failure about another field is reported, and none iff all three pass. |
| CreateProduct.Validate | AlzaEshop.API/Features/Products/CreateProduct.cs:19-42 | The request is valid (no failure at all) iff every rule on every field passes. |
| CreateProduct.ValidateReportsText | AlzaEshop.API/Features/Products/CreateProduct.cs:23-29 | Over the whole validator: Title and ImageUrl each fail NotEmpty exactly when blank and MaximumLength exactly when longer than 200 / 500 units. |
| CreateProduct.ValidateReportsRest | AlzaEshop.API/Features/Products/CreateProduct.cs:31-40 | Over the whole validator: the Price, Quantity and Description failures are reported exactly when those rules fail. |
| CreateProduct.ValidateFields | AlzaEshop.API/Features/Products/CreateProduct.cs:19-42 | Every reported failure is about Title, ImageUrl, Price, Quantity or Description; the id, for one, is never validated. |
| CreateProduct.Draft | AlzaEshop.API/Features/Products/CreateProduct.cs:76-81 | The built product carries the provider's id and the request's title, image URL, price, quantity and description. |
| CreateProduct.ResponseOf | AlzaEshop.API/Features/Products/CreateProduct.cs:87-88 | The response copies every field of the persisted product. |
| CreateProduct.Decide | AlzaEshop.API/Features/Products/CreateProduct.cs:60-91 | ValidationProblem iff the request is invalid, with no CreateSingle call and the store unchanged. Otherwise there is exactly one CreateSingle call, with the built product. The product is stored under the repository's key with the clock's instant. It is logged, and the response echoes the persisted product. |
| CreateProduct.CreatedIsStored | AlzaEshop.API/Features/Products/CreateProduct.cs:83-90 | For a valid request, the id in the response is a key of the store, and the product stored there maps to that very response. Its title and quantity are the request's, its creation instant is the clock's, and every other product is unchanged. |
| CreateProduct.Handle | AlzaEshop.API/Features/Products/CreateProduct.cs:60-91 | The handler's result, new repository contents, appended calls and log are those of `Decide`. |
| GetSingleProduct.Validate | AlzaEshop.API/Features/Products/GetSingleProduct.cs:10-17 | The query is valid iff the id is not Guid.Empty. The only failure is Id NotEmpty. |
| GetSingleProduct.ResponseOf | AlzaEshop.API/Features/Products/GetSingleProduct.cs:60-69 | The response copies every field of the product, with CreatedAt set. |
| GetSingleProduct.Decide | AlzaEshop.API/Features/Products/GetSingleProduct.cs:37-72 | ValidationProblem iff the id is empty, before any lookup. NotFound iff the id is valid and absent. Ok otherwise, with the stored product's fields and the requested id. |
| GetSingleProduct.Handle | AlzaEshop.API/Features/Products/GetSingleProduct.cs:37-72 | The handler's result, appended calls and log are those of `Decide`, and the store is not changed. |
| GetProductsV1.ToModel | AlzaEshop.API/Features/Products/v1/GetProducts.cs:45-54 | Every listed field is copied unchanged, a null description and zero price or quantity included. |
| GetProductsV1.Project | AlzaEshop.API/Features/Products/v1/GetProducts.cs:43-55 | One item per product, in the same order: item i is product i's model. |
| GetProductsV1.ProjectRestores | AlzaEshop.API/Features/Products/v1/GetProducts.cs:45-54 | Each product is recovered from its item and its modification instant: the projection loses nothing else. |
| GetProductsV1.ProjectAppend | AlzaEshop.API/Features/Products/v1/GetProducts.cs:43-55 | The projection of two concatenated lists is the concatenation of their projections. |
| GetProductsV1.Respond | AlzaEshop.API/Features/Products/v1/GetProducts.cs:43-55 | The response's Count is the number of products, including 0, and its items are their projection. |
| GetProductsV1.Handle | AlzaEshop.API/Features/Products/v1/GetProducts.cs:36-58 | The repository is queried exactly once. The products listed are every stored product exactly once, and the response is their projection, its Count the size of the store. |
| GetProductsV2.Validate | AlzaEshop.API/Features/Products/v2/GetProducts.cs:16-27 | Each rule fails exactly on its condition, and nothing else is reported. The request is valid iff PageNumber >= 0 and 0 <= PageSize <= 150. |
| GetProductsV2.RequestOf | AlzaEshop.API/Features/Products/v2/GetProducts.cs:65-79 | A missing page number becomes 0 and a missing page size 10. Given values are kept. |
| GetProductsV2.DefaultsAreValid | AlzaEshop.API/Features/Products/v2/GetProducts.cs:10-14 | With no parameters the request is page 0 of size 10, which the validator accepts. |
| GetProductsV2.Handle | AlzaEshop.API/Features/Products/v2/GetProducts.cs:57-107 | An invalid request gets a validation problem and makes no query. A valid one makes exactly one query, (PageNumber, PageSize, Descending), and answers with the projection of what the query returned. |
| Auditing.Stamp | AlzaEshop.API/Common/Database/EntityFramework/AuditingInterceptor.cs:44-62 | Entries neither added nor modified are untouched. An added entry keeps a non-empty id or takes the new one, gets `now` as its creation instant, and changes nothing else. A modified entry gets `now` as its modification instant and changes nothing else. |
| Auditing.AuditPointwise | AlzaEshop.API/Common/Database/EntityFramework/AuditingInterceptor.cs:40-63 | Each entry of the pass is stamped by the rule above. An entry that needs an id gets the id of the provider's next call, after the calls of the entries before it. |
| Auditing.AuditRules | AlzaEshop.API/Common/Database/EntityFramework/AuditingInterceptor.cs:40-61 | Over a whole save, only added and modified entries change. Added ones get the creation instant and keep a non-empty id. Modified ones get the modification instant and keep their creation instant. |
| Auditing.OneTimestamp | AlzaEshop.API/Common/Database/EntityFramework/AuditingInterceptor.cs:39-61 | An added entry's creation instant and a modified entry's modification instant in the same save are the one instant read at the start. |
| Auditing.AddedGetIds | AlzaEshop.API/Common/Database/EntityFramework/AuditingInterceptor.cs:49-53 | If the provider never returns Guid.Empty, every added entity ends with a non-empty id. Entries that need an id each take a different provider call. |
| Auditing.StampEntry | AlzaEshop.API/Common/Database/EntityFramework/AuditingInterceptor.cs:46-61 | The loop body stamps one entry by the rule. It calls the provider exactly when the entry is added with an empty id. |
| Auditing.UpdateAuditableEntities | AlzaEshop.API/Common/Database/EntityFramework/AuditingInterceptor.cs:37-70 | The pass in place leaves the tracked entries as `Audit` of the old ones. It makes as many provider calls as added entries with an empty id. |
| Auditing.SavingChanges | AlzaEshop.API/Common/Database/EntityFramework/AuditingInterceptor.cs:24-35 | With a context, the entries become `Audit` of the old ones. Without one, nothing is modified. |

## Left out

- Concurrency of the channel is left out: many producers, suspension and wake-up, and the timing of cancellation. A suspended write or read is a `WouldBlock` result that changes nothing, and cancellation is an input flag.
- ProductUpdateQueue.ProductUpdateQueue.constructor and WithOptions: the constructors require a capacity of at least 1. The .NET constructor of `BoundedChannelOptions` throws for a smaller one instead.
- ProductUpdateWorker.Step: a fault raised after the store update, by the logger at v2/UpdateProductQuantity.cs:102 or :166, is not modelled; every modelled fault happens before the store is touched.
- `LogError` passes only the exception and the service name, so the error entry carries no item.
- The hosting lifecycle of `BackgroundService` and dependency injection are left out. So are the per-job scope, which the code creates and never disposes, and the reuse of the singleton repository across scopes.
- The EF Core repositories (`EFRepository.cs`, `ProductsRepository.cs`, `EFProductsRepository.cs`) are not part of this model. Both of their `DeleteSingleAsync` implementations call `Add`, so they would not delete.
- `ProductsDbContext.ModifyEnitities` is not part of this model; the interceptor carries the auditing rules.
- The paged `GetAllAsync(pageNumber, pageSize, order)` overload appears in no repository shown. What it returns is the input `fetch`, and the model states only the query made and the projection of its answer.
- Log message templates, validation messages and HTTP status encoding are left out. The model keeps each log entry's level-relevant content and each failure's property and rule.
- ProductServices.Update, UpdateQuantityV1.Handle and UpdateQuantity.Handle set `Quantity` on the loaded product in place, and the in-memory dictionary holds that same object. The model copies a value and stores it, so the aliasing is not modelled.
- `Product.cs` declares `CreatedAt`, which the in-memory repository sets and GetSingleProduct reads, and the interceptor and the listing use `CreatedOnUtc`. The model has one creation instant, `createdOnUtc`, and treats both names as that one field.
- CreateProduct.Draft: the four-argument `Product` constructor is not part of this model. A null price or quantity is taken to become 0, and the draft's creation instant is `default`.
- CreateProduct.Decide: with the in-memory repository, `CreateSingleAsync` replaces the provider's id with a key of its own. So the response reports the repository's key, not the provider's id.
- Auditing.UpdateAuditableEntities: a Guid property's current value is never null here, so the `is null` branch of the id check is not modelled. EF Core's filtering of the tracked entries by state is folded into the per-entry rule, which leaves other states alone.
- The older `Features/Products/GetProducts.cs` is not part of this model; version 1 covers the same projection.
- String length is counted in UTF-16 code units, as `string.Length` does. Dafny strings are sequences of Unicode scalar values, and no normalisation or case folding is modelled.
