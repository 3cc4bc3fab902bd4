/** Values shared by every module of the model: Python's `None`-or-value,
    JSON files and raw bytes. */
module Common {

  /** A value that may be absent (`None` in Python, `NULL` in SQL). */
  datatype Option<+T> = None | Some(value: T) {
    /** `x or default` for a value whose only falsy form is `None`. */
    function GetOr(default: T): T {
      match this
      case Some(v) => v
      case None => default
    }
  }

  /** A JSON file as `json.load` finds it: missing, unreadable, holding
      something other than an object, or holding an object. */
  datatype JsonDoc<V> = NoFile | Unreadable | NotADict | ADict(entries: map<string, V>)

  /** One byte of a file or a message. */
  newtype byte = b: int | 0 <= b < 256

  /** SQL equality: a comparison with `NULL` on either side never holds. */
  predicate SqlEq<T(==)>(a: Option<T>, b: Option<T>) {
    a.Some? && b.Some? && a.value == b.value
  }
}
