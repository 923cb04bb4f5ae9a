/** JSON trees as a parser returns them. */
module Json {
  import opened Prelude

  datatype Json =
    | Scalar(content: int)
    | Object(members: seq<Member>)
    | Array(items: seq<Json>)

  datatype Member = Member(key: string, value: Json)

  /** The values a traversal visits below a node, in order. */
  function Children(v: Json): (r: seq<Json>)
    ensures forall i :: 0 <= i < |r| ==> r[i] < v
  {
    match v
    case Scalar(_) => []
    case Object(members) => seq(|members|, i requires 0 <= i < |members| => members[i].value)
    case Array(items) => items
  }

  /** The node a sequence of child positions leads to. */
  function NodeAt(v: Json, path: seq<nat>): Option<Json>
    decreases |path|
  {
    if path == [] then Some(v)
    else if path[0] < |Children(v)| then NodeAt(Children(v)[path[0]], path[1..])
    else None
  }
}
