/** The request-validation rules the controllers use, each as a predicate on
    one submitted value; an absent field is `None`. A failing rule adds its
    field's name to the list of errors, in the order the rules are written. */
module Validation {
  import opened Wrappers
  import opened Entities
  import Text

  /** `$field` when the rule fails, nothing otherwise. */
  function FieldIf(fails: bool, field: Field): (r: seq<Field>)
    ensures fails <==> r == [field]
    ensures !fails <==> r == []
    ensures forall g :: g in r <==> fails && g == field
  {
    if fails then [field] else []
  }

  /** `required|string`: present and not made of white space only. */
  predicate FilledString(v: Option<string>) {
    v.Some? && !Text.Blank(v.value, Text.PhpSpace)
  }

  /** `max:n` on a string: at most n characters. */
  predicate AtMost(v: Option<string>, n: nat) {
    v.None? || |v.value| <= n
  }

  /** `integer`: a number with no fractional part. */
  predicate Integral(x: real) {
    x == x.Floor as real
  }

  /** `required|integer|min:m`. */
  predicate IntegerAtLeast(v: Option<real>, m: int) {
    v.Some? && Integral(v.value) && v.value >= m as real
  }

  /** `required|numeric|min:0`. */
  predicate NonNegative(v: Option<real>) {
    v.Some? && v.value >= 0.0
  }

  /** `nullable|numeric|min:0`. */
  predicate NonNegativeIfGiven(v: Option<real>) {
    v.None? || v.value >= 0.0
  }
}
