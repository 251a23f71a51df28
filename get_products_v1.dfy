/** Listing products, version 1 (GET /v1/products): every stored product, projected
    to the list model one for one. The projection is also the one version 2 uses. */
module GetProductsV1 {
  import opened Domain
  import opened InMemory

  /** ProductModel: the product without its modification instant. */
  datatype ProductModel = ProductModel(
    id: Guid,
    title: string,
    imageUrl: Option<string>,
    price: int,
    description: Option<string>,
    quantity: Int32,
    createdOnUtc: Instant)

  /** CollectionResponse: the items and their count. */
  datatype GetProductsResponse = GetProductsResponse(items: seq<ProductModel>) {
    function Count(): nat {
      |items|
    }
  }

  /** The Select lambda: every field copied unchanged. */
  function ToModel(p: Product): (m: ProductModel)
    ensures m.id == p.id && m.title == p.title && m.imageUrl == p.imageUrl && m.price == p.price
    ensures m.description == p.description && m.quantity == p.quantity && m.createdOnUtc == p.createdOnUtc
  {
    ProductModel(p.id, p.title, p.imageUrl, p.price, p.description, p.quantity, p.createdOnUtc)
  }

  /** The product a model came from, given the one field the model drops. */
  function Restore(m: ProductModel, modifiedOnUtc: Option<Instant>): Product {
    Product(m.id, m.title, m.imageUrl, m.price, m.description, m.quantity, m.createdOnUtc, modifiedOnUtc)
  }

  /** `products.Select(ToModel).ToList()`: one item per product, in the same order. */
  function Project(products: seq<Product>): (items: seq<ProductModel>)
    ensures |items| == |products|
    ensures forall i :: 0 <= i < |products| ==> items[i] == ToModel(products[i])
  {
    if products == [] then [] else [ToModel(products[0])] + Project(products[1..])
  }

  /** The projection loses nothing but the modification instants: each product is
      restored from its item. */
  lemma {:induction false} ProjectRestores(products: seq<Product>)
    ensures forall i :: 0 <= i < |products| ==>
      Restore(Project(products)[i], products[i].modifiedOnUtc) == products[i]
  {
  }

  /** Projection commutes with concatenation, so a listing split in two pages
      projects to the two projected pages. */
  lemma {:induction false} ProjectAppend(a: seq<Product>, b: seq<Product>)
    ensures Project(a + b) == Project(a) + Project(b)
  {
    var l, r := Project(a + b), Project(a) + Project(b);
    assert |l| == |r|;
    forall i | 0 <= i < |l| ensures l[i] == r[i] {
      if i < |a| {
        assert (a + b)[i] == a[i];
      } else {
        assert (a + b)[i] == b[i - |a|];
      }
    }
  }

  /** The response to a repository listing. */
  function Respond(products: seq<Product>): (response: GetProductsResponse)
    ensures response.Count() == |products|
    ensures response.items == Project(products)
  {
    GetProductsResponse(Project(products))
  }

  /** GetProductsEndpoint.Handle against the in-memory repository: one GetAll call,
      and a response listing every stored product exactly once. */
  method Handle(repository: InMemoryRepository) returns (products: seq<Product>, response: GetProductsResponse)
    requires repository.Valid()
    modifies repository`calls
    ensures repository.calls == old(repository.calls) + [GetAllCall]
    ensures Lists(products, repository.data)
    ensures response == Respond(products)
    ensures response.Count() == |repository.data|
  {
    products := repository.GetAll();
    response := GetProductsResponse(Project(products));
  }
}
