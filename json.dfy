/**
  An already-decoded JSON document. Objects are maps from member name to
  value, so two objects are equal exactly when they have the same members,
  whatever order the text listed them in. Numbers keep their literal text, so
  `==` on this type is the deep equality of decoded JSON except that numbers
  compare by their spelling: `1` and `1.0` differ here, though they decode to
  the same number.
 */
module Json {
  import opened Wrappers

  datatype Json =
    | JNull
    | JBool(b: bool)
    | JNum(literal: string)
    | JStr(s: string)
    | JArr(items: seq<Json>)
    | JObj(members: map<string, Json>)

  /** The value of member `key` of an object's members, if it has one. */
  function Member(members: map<string, Json>, key: string): (r: Option<Json>)
    ensures r.Some? <==> key in members
    ensures r.Some? ==> r.value == members[key]
  {
    if key in members then Some(members[key]) else None
  }

  /** A list-valued field: an array gives its items, any single value is a one-element list. */
  function AsList(j: Json): (r: seq<Json>)
    ensures j.JArr? ==> r == j.items
    ensures !j.JArr? ==> r == [j]
  {
    if j.JArr? then j.items else [j]
  }
}
