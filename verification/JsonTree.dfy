/** JSON values as a parser delivers them: objects have their keys once, in no order of their own. */
module JsonTree {

  datatype Json<Name> =
    | Null
    | Bool(value: bool)
    | Number(literal: string)
    | Str(text: string)
    | Arr(items: seq<Json<Name>>)
    | Obj(fields: map<Name, Json<Name>>)
}
