/** Optional values and results, and the JSON values the proxy exchanges. */
module Wrappers {
  datatype Option<+T> = None | Some(value: T)

  function Or<T>(value: Option<T>, default: T): T {
    if value.Some? then value.value else default
  }

  datatype Result<+T, +E> = Ok(value: T) | Err(error: E)
}

/** JSON values.  Numbers are reals: rounding in floating point is not modelled. */
module Json {
  import opened Wrappers

  datatype Json =
    | Null
    | Bool(flag: bool)
    | Num(number: real)
    | Str(text: string)
    | Arr(items: seq<Json>)
    | Obj(fields: map<string, Json>)
  {
    function Get(key: string): Option<Json> {
      if Obj? && key in fields then Some(fields[key]) else None
    }

    function AsStr(): Option<string> {
      if Str? then Some(text) else None
    }

    /** The string member `key`, absent when it is missing or not a string. */
    function GetStr(key: string): Option<string> {
      match Get(key)
      case Some(value) => value.AsStr()
      case None => None
    }
  }
}
