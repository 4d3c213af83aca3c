/** Optional values, and the JSON values the other modules exchange. */
module Wrappers {
  datatype Option<+T> = None | Some(value: T)

  datatype Result<+T, +E> = Ok(value: T) | Err(error: E)
}

/**
 JSON as the Rust code handles it: an object is a map from member names to values, so two
 members never share a name and the order of members means nothing. Numbers are integers.
 */
module Json {
  import opened Wrappers

  datatype Json =
    | Null
    | Bool(b: bool)
    | Num(n: int)
    | Str(s: string)
    | Arr(items: seq<Json>)
    | Obj(fields: map<string, Json>)
  {
    /** The member `key`, absent when this is not an object (`Value::get`). */
    function Get(key: string): Option<Json> {
      if Obj? && key in fields then Some(fields[key]) else None
    }

    /** The member `key`, or null when there is none (`value[key]`). */
    function Index(key: string): Json {
      match Get(key)
      case Some(v) => v
      case None => Null
    }

    function AsStr(): Option<string> {
      if Str? then Some(s) else None
    }

    /** `as_i64`: an integer that fits 64 signed bits. */
    function AsI64(): Option<int> {
      if Num? && -0x8000_0000_0000_0000 <= n < 0x8000_0000_0000_0000 then Some(n) else None
    }
  }

  /** What is found by following `path` down through nested objects. */
  function At(v: Json, path: seq<string>): Option<Json> {
    if path == [] then Some(v)
    else
      match v.Get(path[0])
      case Some(child) => At(child, path[1..])
      case None => None
  }
}
