/** JSON values as trees. Text and numbers are their UTF-8 bytes; an object is
    the list of its fields in the order a parser or serializer visits them. */
module JsonTree {
  import opened ByteText

  datatype Json =
    | Null
    | Bool(flag: bool)
    | Number(digits: Bytes)
    | Text(text: Bytes)
    | Array(items: seq<Json>)
    | Object(fields: seq<Field>)

  datatype Field = Field(name: Bytes, value: Json)
}
