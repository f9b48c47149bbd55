// The attribute values every other module carries (include/ddbsh/value.hpp), and
// the option and result types used for std::optional and Result<T>.

module Values {
  datatype Option<+T> = None | Some(value: T) {
    function GetOr(default: T): T {
      if Some? then value else default
    }
  }

  datatype Result<+T, +E> = Ok(value: T) | Err(error: E)

  // Numbers keep their exact lexeme: they are strings here as they are there.
  datatype Value =
    | S(s: string)
    | N(s: string)
    | B(s: string)
    | Bool(boolean: bool)
    | Null
    | L(list: seq<Value>)
    | M(entries: seq<(string, Value)>)
    | SS(elements: seq<string>)
    | NS(elements: seq<string>)
    | BS(elements: seq<string>)

  // An item, or the part of one a request returns: attribute path to value.
  type Item = map<string, Value>

  function Lookup(item: Item, path: string): Option<Value> {
    if path in item then Some(item[path]) else None
  }
}
