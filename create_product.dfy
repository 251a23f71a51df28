/** Product creation (POST /products): validate the request, build the product with
    a new id, persist it, log it and echo the persisted product back. */
module CreateProduct {
  import opened Domain
  import opened Validation
  import opened InMemory

  /** The request body. JSON may leave out or null any field, so each is optional. */
  datatype CreateProductRequest = CreateProductRequest(
    title: Option<string>,
    imageUrl: Option<string>,
    price: Option<int>,
    description: Option<string>,
    quantity: Option<Int32>)

  const TitleNotEmpty := ValidationFailure(Title, NotEmpty)
  const TitleNotTooLong := ValidationFailure(Title, MaximumLength(TitleLength))
  const ImageUrlNotEmpty := ValidationFailure(ImageUrl, NotEmpty)
  const ImageUrlNotTooLong := ValidationFailure(ImageUrl, MaximumLength(ImageUrlLength))
  const PriceNotNegative := ValidationFailure(Price, GreaterThanOrEqualTo(0))
  const QuantityNotNegative := ValidationFailure(Quantity, GreaterThanOrEqualTo(0))
  const DescriptionNotTooLong := ValidationFailure(Description, MaximumLength(DescriptionLength))

  /** The request the validator accepts, rule by rule. */
  predicate Acceptable(r: CreateProductRequest) {
    && !IsBlank(r.title) && !TooLong(r.title, TitleLength)
    && !IsBlank(r.imageUrl) && !TooLong(r.imageUrl, ImageUrlLength)
    && !Below(r.price, 0)
    && !Below(r.quantity, 0)
    && !TooLong(r.description, DescriptionLength)
  }

  /** The two rules on a required text field: NotEmpty, then MaximumLength. */
  function TextRules(s: Option<string>, notEmpty: ValidationFailure, notTooLong: ValidationFailure, max: nat): (errors: seq<ValidationFailure>)
    requires notEmpty != notTooLong && notEmpty.property == notTooLong.property
    ensures notEmpty in errors <==> IsBlank(s)
    ensures notTooLong in errors <==> TooLong(s, max)
    ensures forall f :: f in errors ==> f.property == notEmpty.property
    ensures errors == [] <==> !IsBlank(s) && !TooLong(s, max)
  {
    Check(IsBlank(s), notEmpty) + Check(TooLong(s, max), notTooLong)
  }

  /** The rules after the two text fields: Price >= 0, Quantity >= 0, and
      Description no longer than its maximum. Each passes a missing value. */
  function NumericAndDescriptionRules(r: CreateProductRequest): (errors: seq<ValidationFailure>)
    ensures PriceNotNegative in errors <==> Below(r.price, 0)
    ensures QuantityNotNegative in errors <==> Below(r.quantity, 0)
    ensures DescriptionNotTooLong in errors <==> TooLong(r.description, DescriptionLength)
    ensures forall f :: f in errors ==> f.property == Price || f.property == Quantity || f.property == Description
    ensures errors == [] <==> !Below(r.price, 0) && !Below(r.quantity, 0) && !TooLong(r.description, DescriptionLength)
  {
    Check(Below(r.price, 0), PriceNotNegative)
      + Check(Below(r.quantity, 0), QuantityNotNegative)
      + Check(TooLong(r.description, DescriptionLength), DescriptionNotTooLong)
  }

  /** CreateProductCommandValidator, its rules in declaration order. Every rule runs:
      a null title fails NotEmpty and passes MaximumLength. The `When` conditions test
      the request itself, which is never null, so they always hold. */
  function Validate(r: CreateProductRequest): (errors: seq<ValidationFailure>)
    ensures errors == [] <==> Acceptable(r)
  {
    TextRules(r.title, TitleNotEmpty, TitleNotTooLong, TitleLength)
      + TextRules(r.imageUrl, ImageUrlNotEmpty, ImageUrlNotTooLong, ImageUrlLength)
      + NumericAndDescriptionRules(r)
  }

  /** Each rule on the title and the image URL is reported exactly when it fails. */
  lemma {:induction false} ValidateReportsText(r: CreateProductRequest)
    ensures var errors := Validate(r);
      && (TitleNotEmpty in errors <==> IsBlank(r.title))
      && (TitleNotTooLong in errors <==> TooLong(r.title, TitleLength))
      && (ImageUrlNotEmpty in errors <==> IsBlank(r.imageUrl))
      && (ImageUrlNotTooLong in errors <==> TooLong(r.imageUrl, ImageUrlLength))
  {
    var title := TextRules(r.title, TitleNotEmpty, TitleNotTooLong, TitleLength);
    var imageUrl := TextRules(r.imageUrl, ImageUrlNotEmpty, ImageUrlNotTooLong, ImageUrlLength);
    assert Validate(r) == title + imageUrl + NumericAndDescriptionRules(r);
  }

  /** Each rule on the price, the quantity and the description is reported exactly
      when it fails. */
  lemma {:induction false} ValidateReportsRest(r: CreateProductRequest)
    ensures var errors := Validate(r);
      && (PriceNotNegative in errors <==> Below(r.price, 0))
      && (QuantityNotNegative in errors <==> Below(r.quantity, 0))
      && (DescriptionNotTooLong in errors <==> TooLong(r.description, DescriptionLength))
  {
    var title := TextRules(r.title, TitleNotEmpty, TitleNotTooLong, TitleLength);
    var imageUrl := TextRules(r.imageUrl, ImageUrlNotEmpty, ImageUrlNotTooLong, ImageUrlLength);
    var rest := NumericAndDescriptionRules(r);
    var text := title + imageUrl;
    assert Validate(r) == text + rest;
    assert forall f: ValidationFailure :: f in text ==> f.property == Title || f.property == ImageUrl;
  }

  /** Every failure is about one of the five validated fields; an id is never
      reported. */
  lemma {:induction false} ValidateFields(r: CreateProductRequest)
    ensures forall f :: f in Validate(r) ==> f.property in {Title, ImageUrl, Price, Quantity, Description}
  {
    var title := TextRules(r.title, TitleNotEmpty, TitleNotTooLong, TitleLength);
    var imageUrl := TextRules(r.imageUrl, ImageUrlNotEmpty, ImageUrlNotTooLong, ImageUrlLength);
    assert Validate(r) == title + imageUrl + NumericAndDescriptionRules(r);
  }

  /** The product the handler builds: `id` from the id provider, the description set
      after construction, no creation instant yet. A missing price or quantity becomes
      0. */
  function Draft(r: CreateProductRequest, id: Guid): (p: Product)
    requires r.title.Some?
    ensures p.id == id && p.title == r.title.value && p.imageUrl == r.imageUrl
    ensures p.price == r.price.GetOr(0) && p.quantity == r.quantity.GetOr(0)
    ensures p.description == r.description
    ensures p.createdOnUtc == 0 && p.modifiedOnUtc.None?
  {
    Product(id, r.title.value, r.imageUrl, r.price.GetOr(0), r.description, r.quantity.GetOr(0), 0, None)
  }

  datatype CreateProductResponse = CreateProductResponse(
    id: Guid,
    title: string,
    imageUrl: Option<string>,
    price: int,
    description: Option<string>,
    quantity: Int32,
    createdAt: Instant)

  /** The response: the persisted product's fields, one for one. */
  function ResponseOf(p: Product): (r: CreateProductResponse)
    ensures r.id == p.id && r.title == p.title && r.imageUrl == p.imageUrl && r.price == p.price
    ensures r.description == p.description && r.quantity == p.quantity && r.createdAt == p.createdOnUtc
  {
    CreateProductResponse(p.id, p.title, p.imageUrl, p.price, p.description, p.quantity, p.createdOnUtc)
  }

  datatype LogEvent =
    | RequestInvalid(request: CreateProductRequest, errors: seq<ValidationFailure>)
    | ProductCreated(product: Product)

  datatype HandleResult = Ok(response: CreateProductResponse) | ValidationProblem(errors: seq<ValidationFailure>)

  datatype Handled = Handled(result: HandleResult, store: map<Guid, Product>, calls: seq<RepoCall>, log: seq<LogEvent>)

  /** What Handle does to a store holding `store`, when the id provider yields
      `providedId`, the repository draws `key` and the clock reads `now`. */
  function Decide(store: map<Guid, Product>, r: CreateProductRequest, providedId: Guid, key: Guid, now: Instant): (h: Handled)
    requires Keyed(store)
    ensures Keyed(h.store)
    ensures h.result.ValidationProblem? <==> !Acceptable(r)
    ensures h.result.ValidationProblem? ==>
      && h.result.errors == Validate(r)
      && h.store == store && h.calls == [] && h.log == [RequestInvalid(r, h.result.errors)]
    ensures h.result.Ok? ==>
      && r.title.Some?
      && var p := Draft(r, providedId).(id := key, createdOnUtc := now);
      && h.store == store[key := p]
      && h.calls == [CreateSingleCall(Some(Draft(r, providedId)))]
      && h.log == [ProductCreated(p)]
      && h.result.response == ResponseOf(p)
  {
    var errors := Validate(r);
    if errors != [] then Handled(ValidationProblem(errors), store, [], [RequestInvalid(r, errors)])
    else
      var draft := Draft(r, providedId);
      var p := draft.(id := key, createdOnUtc := now);
      Handled(Ok(ResponseOf(p)), store[key := p], [CreateSingleCall(Some(draft))], [ProductCreated(p)])
  }

  /** A created product is stored under the id the response reports, with the
      response's fields, and every other product is left as it was. */
  lemma {:induction false} CreatedIsStored(store: map<Guid, Product>, r: CreateProductRequest, providedId: Guid, key: Guid, now: Instant)
    requires Keyed(store) && Acceptable(r)
    ensures var h := Decide(store, r, providedId, key, now);
      && h.result.Ok?
      && h.result.response.id in h.store
      && ResponseOf(h.store[h.result.response.id]) == h.result.response
      && h.result.response.title == r.title.value && h.result.response.quantity == r.quantity.GetOr(0)
      && h.result.response.createdAt == now
      && forall k :: k in store && k != h.result.response.id ==> h.store[k] == store[k]
  {
    var h := Decide(store, r, providedId, key, now);
    assert h.result.response.id == key;
  }

  /** CreateProductEndpoint.Handle against the in-memory repository. */
  method Handle(repository: InMemoryRepository, r: CreateProductRequest, providedId: Guid, key: Guid, now: Instant)
    returns (result: HandleResult, log: seq<LogEvent>)
    requires repository.Valid()
    modifies repository
    ensures repository.Valid()
    ensures var h := Decide(old(repository.data), r, providedId, key, now);
      && result == h.result
      && repository.data == h.store
      && repository.calls == old(repository.calls) + h.calls
      && log == h.log
  {
    var validationResult := Validate(r);
    if validationResult != [] {
      return ValidationProblem(validationResult), [RequestInvalid(r, validationResult)];
    }
    var product := Draft(r, providedId);
    var created := repository.CreateSingle(Some(product), key, now);
    var persisted := created.value;
    log := [ProductCreated(persisted)];
    result := Ok(ResponseOf(persisted));
  }
}
