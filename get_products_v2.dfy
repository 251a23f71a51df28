/** Listing products, version 2 (GET /v2/products?pageNumber&pageSize): a paged
    query, newest first. The paged repository query itself is not part of this
    model: what it returns for a query is the input `fetch`. */
module GetProductsV2 {
  import opened Domain
  import opened Validation
  import opened GetProductsV1

  datatype PagingRequest = PagingRequest(pageNumber: Int32, pageSize: Int32)

  const DefaultPageNumber: Int32 := 0
  const DefaultPageSize: Int32 := 10
  const MaxPageSize: Int32 := 150

  const PageNumberNotNegative := ValidationFailure(PageNumber, GreaterThanOrEqualTo(0))
  const PageSizeNotNegative := ValidationFailure(PageSize, GreaterThanOrEqualTo(0))
  const PageSizeNotTooLarge := ValidationFailure(PageSize, LessThanOrEqualTo(MaxPageSize))

  /** PagingRequestValidator: PageNumber >= 0; PageSize >= 0, then PageSize <= 150. */
  function Validate(r: PagingRequest): (errors: seq<ValidationFailure>)
    ensures PageNumberNotNegative in errors <==> r.pageNumber < 0
    ensures PageSizeNotNegative in errors <==> r.pageSize < 0
    ensures PageSizeNotTooLarge in errors <==> r.pageSize > MaxPageSize
    ensures forall f :: f in errors ==> f in [PageNumberNotNegative, PageSizeNotNegative, PageSizeNotTooLarge]
    ensures errors == [] <==> 0 <= r.pageNumber && 0 <= r.pageSize <= MaxPageSize
  {
    Check(r.pageNumber < 0, PageNumberNotNegative)
      + Check(r.pageSize < 0, PageSizeNotNegative)
      + Check(r.pageSize > MaxPageSize, PageSizeNotTooLarge)
  }

  /** The request Handle builds from the query string: a missing page number is 0
      and a missing page size is 10; given values are kept as they are. */
  function RequestOf(pageNumber: Option<Int32>, pageSize: Option<Int32>): (r: PagingRequest)
    ensures pageNumber.None? ==> r.pageNumber == DefaultPageNumber
    ensures pageNumber.Some? ==> r.pageNumber == pageNumber.value
    ensures pageSize.None? ==> r.pageSize == DefaultPageSize
    ensures pageSize.Some? ==> r.pageSize == pageSize.value
  {
    PagingRequest(pageNumber.GetOr(DefaultPageNumber), pageSize.GetOr(DefaultPageSize))
  }

  /** A request with neither parameter asks for the first ten products, and the
      validator accepts it. */
  lemma {:induction false} DefaultsAreValid()
    ensures RequestOf(None, None) == PagingRequest(0, 10)
    ensures Validate(RequestOf(None, None)) == []
  {
  }

  datatype SortOrder = Ascending | Descending

  /** The arguments of the paged GetAllAsync call. */
  datatype PageQuery = PageQuery(pageNumber: Int32, pageSize: Int32, order: SortOrder)

  datatype LogEvent = RequestInvalid(request: PagingRequest, errors: seq<ValidationFailure>)

  datatype HandleResult = Ok(response: GetProductsResponse) | ValidationProblem(errors: seq<ValidationFailure>)

  /** GetProductsEndpoint.Handle: defaults, validation, one query, projection. */
  method Handle(pageNumber: Option<Int32>, pageSize: Option<Int32>, fetch: PageQuery -> seq<Product>)
    returns (result: HandleResult, queries: seq<PageQuery>, log: seq<LogEvent>)
    ensures var request := RequestOf(pageNumber, pageSize);
      && (result.ValidationProblem? <==> !(0 <= request.pageNumber && 0 <= request.pageSize <= MaxPageSize))
      && (result.ValidationProblem? ==>
            && result.errors == Validate(request)
            && queries == [] && log == [RequestInvalid(request, result.errors)])
      && (result.Ok? ==>
            && queries == [PageQuery(request.pageNumber, request.pageSize, Descending)]
            && result.response == Respond(fetch(queries[0]))
            && log == [])
  {
    var number := pageNumber;
    if number.None? {
      number := Some(DefaultPageNumber);
    }
    var size := pageSize;
    if size.None? {
      size := Some(DefaultPageSize);
    }
    var request := PagingRequest(number.value, size.value);
    var validationResult := Validate(request);
    if validationResult != [] {
      return ValidationProblem(validationResult), [], [RequestInvalid(request, validationResult)];
    }
    var query := PageQuery(request.pageNumber, request.pageSize, Descending);
    var products := fetch(query);
    queries := [query];
    result := Ok(GetProductsResponse(Project(products)));
    log := [];
  }
}
