/** JSON values as the reader keeps them: number lexemes, member order and
    repeated members are all retained. */
module Json {
  import opened Wrappers

  datatype Json =
    | Null
    | Bool(flag: bool)
    | Number(lexeme: string)
    | Str(text: string)
    | Array(items: seq<Json>)
    | Object(members: seq<(string, Json)>)
  {
    /** The member named `key`; the last occurrence of a repeated name wins. */
    function Get(key: string): Option<Json> {
      if Object? then Lookup(members, key) else None
    }

    function AsStr(): Option<string> { if Str? then Some(text) else None }

    function AsBool(): Option<bool> { if Bool? then Some(flag) else None }
  }

  /** The value of the last member named `key`. */
  function Lookup(members: seq<(string, Json)>, key: string): (found: Option<Json>)
    ensures found.Some? <==> exists i :: 0 <= i < |members| && members[i].0 == key
  {
    if members == [] then None
    else if members[|members| - 1].0 == key then Some(members[|members| - 1].1)
    else Lookup(members[..|members| - 1], key)
  }

  /** How much there is to walk: more for a container than for all its children and one step. */
  function Size(v: Json): nat {
    match v
    case Array(items) => 2 + SizeOf(items)
    case Object(members) => 2 + SizeOfMembers(members)
    case _ => 1
  }

  function SizeOf(items: seq<Json>): nat { if items == [] then 0 else Size(items[0]) + SizeOf(items[1..]) }

  function MemberSize(m: (string, Json)): nat { Size(m.1) }

  function SizeOfMembers(members: seq<(string, Json)>): nat {
    if members == [] then 0 else MemberSize(members[0]) + SizeOfMembers(members[1..])
  }
}
