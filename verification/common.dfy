/** Values shared by every controller: optional request fields and JavaScript truthiness. */
module Common {

  /** An absent (`undefined`) or present value. */
  datatype Option<+T> = None | Some(value: T)

  /** A JavaScript number as the store keeps it. Parsing is abstract (see `Http.Env`). */
  type Number = real

  /** A request-body string field is truthy when it is present and not the empty string. */
  predicate Truthy(f: Option<string>)
  {
    f.Some? && f.value != ""
  }

  /** `a || b` for two optional strings: the first operand when it is truthy, the second otherwise. */
  function Or(a: Option<string>, b: Option<string>): (r: Option<string>)
    ensures Truthy(a) ==> r == a
    ensures !Truthy(a) ==> r == b
  {
    if Truthy(a) then a else b
  }

  /** `given || current` where `current` is a stored string: a truthy field replaces it. */
  function OrElse(given: Option<string>, current: string): (r: string)
    ensures Truthy(given) ==> r == given.value
    ensures !Truthy(given) ==> r == current
    ensures current != "" ==> r != ""
  {
    if Truthy(given) then given.value else current
  }
}
