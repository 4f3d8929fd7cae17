/** JSON documents as `json.load` hands them to the cleaning script. Objects
    keep their keys in insertion order, as Python dictionaries do. A number is
    an extended real because the script itself stores the float `-inf`. */
module Json {
  import opened Extended
  import opened Dicts

  datatype Value =
    | Null
    | Bool(b: bool)
    | Num(x: ExtReal)
    | Str(s: string)
    | Arr(items: seq<Value>)
    | Obj(fields: Dict<Value>)
}
