/**
 * The react-hook-form rules the client's forms declare. `required` refuses an
 * empty text value; `minLength` and `maxLength` are not applied to an empty
 * value (which `required`, when declared, has already refused); a number input
 * left empty is `None`, and `min` and `max` bound a number that is there.
 * Lengths count characters.
 */
module Forms {
  import opened Results

  /** A text field with `required` (or not) and length bounds `minLength..maxLength`. */
  predicate Text(v: string, required: bool, minLength: int, maxLength: int) {
    if v == "" then !required else minLength <= |v| <= maxLength
  }

  /** A required number field with `min` and `max`. */
  predicate Number(v: Option<int>, min: int, max: int) {
    v.Some? && min <= v.value <= max
  }

  /** A required text field accepts exactly the values whose length lies within its bounds, when those bounds start above zero. */
  lemma RequiredText(v: string, minLength: int, maxLength: int)
    requires minLength >= 1
    ensures Text(v, true, minLength, maxLength) <==> minLength <= |v| <= maxLength
  {
  }
}
