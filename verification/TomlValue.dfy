/** TOML documents as the program handles them: parsed trees, without comments and key order. */
module TomlValue {
  import opened Wrappers

  datatype Toml =
    | Text(text: string)
    | Items(items: seq<Toml>)
    | Table(table: map<string, Toml>)
    | Scalar(repr: string)

  /** A document, or any table inside one. */
  type Doc = map<string, Toml>

  function Lookup(doc: Doc, key: string): Option<Toml> {
    if key in doc then Some(doc[key]) else None
  }
}
