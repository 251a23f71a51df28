/** The problem details the synchronous quantity updates answer with when the
    product does not exist. */
module ProblemResponses {
  import opened Domain
  import GuidText

  datatype ProblemDetails = ProblemDetails(title: string, detail: string, status: int)

  const Status404NotFound: int := 404

  const DetailPrefix: string := "Product with ID "
  const DetailSuffix: string := " was not found"

  /** "Product not found", 404, and a detail that interpolates the id's canonical
      text. */
  function NotFoundProblem(id: Guid): (p: ProblemDetails)
    ensures p.title == "Product not found" && p.status == Status404NotFound
    ensures |p.detail| == 66
    ensures p.detail[..16] == DetailPrefix && p.detail[52..] == DetailSuffix
    ensures p.detail[16..52] == GuidText.Text(id)
  {
    ProblemDetails("Product not found", DetailPrefix + GuidText.Text(id) + DetailSuffix, Status404NotFound)
  }

  /** The detail names the product: different ids give different details. */
  lemma NotFoundNamesProduct(a: Guid, b: Guid)
    requires NotFoundProblem(a).detail == NotFoundProblem(b).detail
    ensures a == b
  {
    assert GuidText.Text(a) == NotFoundProblem(a).detail[16..52];
    assert GuidText.Text(b) == NotFoundProblem(b).detail[16..52];
    GuidText.TextInjective(a, b);
  }
}
