/** The data a definition file holds once parsed, and the outcomes of the
    pipeline's steps. */
module Values {

  /** A parsed YAML value. Raw markers (`{raw: ...}`) and include directives
      (`{include: ...}`) are not separate kinds: like in the parsed document,
      they are mappings that happen to carry a `raw` or an `include` key. */
  datatype Value =
    | Str(s: string)
    | Int(i: int)
    | Bool(b: bool)
    | Null
    | List(items: seq<Value>)
    | Dict(entries: map<string, Value>)

  datatype Option<T> = None | Some(value: T)

  /** Every exception the pipeline raises, by the step that raises it. */
  datatype Error =
    | LoadFailed(path: string)        // the definition file cannot be read or parsed
    | SchemaViolation(path: string)   // the schema rejects the parsed definition
    | NotAMapping                     // the definition is not a mapping (`.get` fails)
    | ValuesNotIterable               // `values` is something a `for` loop cannot walk
    | IncludeNameNotString            // an include name that is not a string (path join fails)
    | IncludeNotFound(name: string)   // the include file does not exist
    | MissingKey(key: string)         // `table` or `fields` is absent
    | TemplateFailed                  // the template raised while rendering
    | WriteFailed                     // the output file cannot be written

  datatype Result<T> = Ok(value: T) | Err(error: Error)
}
