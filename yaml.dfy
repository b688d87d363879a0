/** The parsed form of a YAML unit file, as `yaml.load(f, Loader=yaml.SafeLoader)`
    hands it to the readers. Parsing itself is not part of this model. */
module Yaml {
  import opened Wrappers

  datatype Value =
    | Null
    | Bool(b: bool)
    | Int(i: int)
    | Str(s: string)
    | List(items: seq<Value>)
    | Mapping(entries: map<string, Value>)

  /** A top-level mapping. */
  type Document = map<string, Value>

  /** The contents of a unit file: `None` when the file holds no document. */
  type UnitFile = Option<Document>

  /** `yaml.load(f) or {}`: an empty unit file configures nothing. */
  function LoadDocument(file: UnitFile): (doc: Document)
    ensures file.Some? ==> doc == file.value
    ensures file.None? ==> doc == map[]
  {
    file.GetOr(map[])
  }
}
