/** Optional values, the model's counterpart of `std::optional`. */
module Wrappers {

  datatype Option<T> = None | Some(value: T)
  {
    /** `o.value_or(d)`. */
    function GetOr(default: T): T
    {
      if Some? then value else default
    }
  }
}
