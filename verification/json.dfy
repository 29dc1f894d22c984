/** Parsed JSON, and what a path into it finds. */
module JsonTree {
  import opened Text

  datatype Json =
    | Null
    | Bool(flag: bool)
    | Num(number: real)
    | Str(text: string)
    | Arr(items: seq<Json>)
    | Obj(fields: map<string, Json>)

  datatype Step = Key(name: string) | Index(at: nat)

  type Path = seq<Step>

  function Child(j: Json, step: Step): Option<Json> {
    match step
    case Key(k) => if j.Obj? && k in j.fields then Some(j.fields[k]) else None
    case Index(i) => if j.Arr? && i < |j.items| then Some(j.items[i]) else None
  }

  function At(j: Json, path: Path): Option<Json> {
    if path == [] then Some(j) else
      var child := Child(j, path[0]);
      if child.None? then None else At(child.value, path[1..])
  }
}
