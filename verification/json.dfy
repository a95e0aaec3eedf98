/** The JSON values the dataset scripts handle, as far as they look into them.
    Parsing and serialisation (RFC 8259) are not modelled: a parser is a
    parameter of type `string -> Option<Value>`. */
module Json {

  /** A JSON value: an object, seen as its key/value map, or any other value
      (array, string, number, literal), kept as its canonical text. */
  datatype Value =
    | Object(fields: map<string, Value>)
    | Other(text: string)
}
