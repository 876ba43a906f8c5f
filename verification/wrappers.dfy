/** Small datatypes for absent values, shared by the other modules. */
module Wrappers {

  /** Python's `None` or a present value. */
  datatype Option<+T> = None | Some(value: T)

  /** The state of one key of a JSON object as seen through `dict.get`/`dict.pop`:
      the key is missing, present with `null`, or present with a value. */
  datatype Field<+T> = Absent | Null | Present(value: T)
  {
    /** `d.get(key, default)`: the default only when the key is missing;
        a present `null` is returned as `None`. */
    function GetOr(default: T): Option<T>
    {
      match this
      case Absent => Some(default)
      case Null => None
      case Present(v) => Some(v)
    }

    /** `d.pop(key, None)`: missing and `null` both give `None`. */
    function Get(): Option<T>
    {
      if Present? then Some(value) else None
    }

    /** `d.get(key) or default`: missing and `null` both give the default. */
    function OrElse(default: T): T
    {
      if Present? then value else default
    }
  }
}
