/** Small value types shared by every part of the model. */
module Common {

  /** A value that may be absent: a nullable column, an unset field, a missing cell. */
  datatype Option<+T> = None | Some(value: T)

  /** A calendar date (a `DATE` column); only the year and month are ever inspected. */
  datatype Date = Date(year: nat, month: nat, day: nat)

  /** The value a set field assigns, or the current value when the field is unset. */
  function Patch<T>(current: T, update: Option<T>): (r: T)
    ensures update.None? ==> r == current
    ensures update.Some? ==> r == update.value
  {
    match update
    case None => current
    case Some(v) => v
  }

  /** Python truthiness of an optional string: neither `None` nor the empty string. */
  predicate Truthy(s: Option<string>)
  {
    s.Some? && s.value != ""
  }

  /** No element occurs twice. */
  predicate NoDuplicates<T(==)>(s: seq<T>)
  {
    forall i, j :: 0 <= i < j < |s| ==> s[i] != s[j]
  }
}
