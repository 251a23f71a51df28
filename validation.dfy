/** The FluentValidation rules the validators use, as plain predicates, and the
    failures they report. A validator's result is the list of its failures, in rule
    order; a result is valid exactly when that list is empty. */
module Validation {
  import opened Domain

  datatype Property = Id | Quantity | Title | ImageUrl | Price | Description | PageNumber | PageSize

  datatype Rule =
    | NotEmpty
    | NotNull
    | MaximumLength(max: nat)
    | GreaterThanOrEqualTo(bound: int)
    | LessThanOrEqualTo(bound: int)

  datatype ValidationFailure = ValidationFailure(property: Property, rule: Rule)

  /** char.IsWhiteSpace: the Unicode space, line and paragraph separators,
      U+0009 to U+000D and U+0085. */
  predicate IsWhiteSpace(c: char) {
    || '\U{0009}' <= c <= '\U{000D}'
    || c == ' ' || c == '\U{0085}' || c == '\U{00A0}' || c == '\U{1680}'
    || '\U{2000}' <= c <= '\U{200A}'
    || c == '\U{2028}' || c == '\U{2029}' || c == '\U{202F}' || c == '\U{205F}' || c == '\U{3000}'
  }

  /** What NotEmpty rejects for a string: null, "" or white space only. */
  predicate IsBlank(s: Option<string>) {
    s.None? || forall i :: 0 <= i < |s.value| ==> IsWhiteSpace(s.value[i])
  }

  /** string.Length, which counts UTF-16 code units: a character outside the Basic
      Multilingual Plane takes two. */
  function Utf16Length(s: string): (n: nat)
    ensures |s| <= n <= 2 * |s|
    ensures (forall i :: 0 <= i < |s| ==> s[i] as int < 0x1_0000) ==> n == |s|
  {
    if |s| == 0 then 0
    else Utf16Length(s[..|s| - 1]) + (if s[|s| - 1] as int < 0x1_0000 then 1 else 2)
  }

  /** MaximumLength(max) fails only for a non-null string that is too long. */
  predicate TooLong(s: Option<string>, max: nat) {
    s.Some? && Utf16Length(s.value) > max
  }

  /** GreaterThanOrEqualTo(bound) on a nullable value: null passes. */
  predicate Below(x: Option<int>, bound: int) {
    x.Some? && x.value < bound
  }

  /** The failure `f` when `failed`, nothing otherwise. */
  function Check(failed: bool, f: ValidationFailure): (r: seq<ValidationFailure>)
    ensures f in r <==> failed
    ensures r == [] <==> !failed
    ensures forall g :: g in r ==> g == f
  {
    if failed then [f] else []
  }
}
