/** JSON values as the code handles them (serde_json's Value). */
module Json {
  import opened Basics

  datatype Value =
    | Null
    | Bool(b: bool)
    | Number(n: int)
    | Float(text: string)
    | Str(s: string)
    | Array(items: seq<Value>)
    | Object(fields: map<string, Value>)
  {
    /** Value::get with a string key: absent on anything that is not an object. */
    function Get(key: string): Option<Value> {
      if Object? && key in fields then Some(fields[key]) else None
    }

    function AsStr(): Option<string> {
      if Str? then Some(s) else None
    }

    /** get(key).and_then(as_str). */
    function GetStr(key: string): Option<string> {
      match Get(key)
      case Some(Str(s)) => Some(s)
      case _ => None
    }
  }
}
