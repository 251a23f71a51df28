/** The command "set the quantity of product `id` to `quantity`" and its validator.
    The v1 command validator and the v2 command validator state the same two rules,
    so both endpoints use this one definition. */
module QuantityCommand {
  import opened Domain
  import opened Validation

  datatype Command = Command(id: Guid, quantity: Int32)

  const IdNotEmpty := ValidationFailure(Id, NotEmpty)
  const QuantityNotNegative := ValidationFailure(Quantity, GreaterThanOrEqualTo(0))

  /** The rules in declaration order: Id NotEmpty; Quantity NotNull, then
      GreaterThanOrEqualTo(0). NotNull on a non-nullable int never fails. */
  function Validate(c: Command): (r: seq<ValidationFailure>)
    ensures IdNotEmpty in r <==> c.id == EmptyGuid
    ensures QuantityNotNegative in r <==> c.quantity < 0
    ensures forall f :: f in r ==> f == IdNotEmpty || f == QuantityNotNegative
    ensures r == [] <==> c.id != EmptyGuid && c.quantity >= 0
  {
    Check(c.id == EmptyGuid, IdNotEmpty)
      + Check(false, ValidationFailure(Quantity, NotNull))
      + Check(c.quantity < 0, QuantityNotNegative)
  }
}
