/** The two tests the loader registers with the template environment, which
    the template uses to choose how each resolved value is quoted. */
module ConfigLoader {
  import opened Values

  /** `is_string`: the value is a character string. */
  predicate IsString(v: Value) {
    v.Str?
  }

  /** `is_raw`: the value is a mapping with a `raw` key, whatever else it holds. */
  predicate IsRaw(v: Value) {
    v.Dict? && "raw" in v.entries
  }

  /** No value is both a string and a raw marker. */
  lemma StringAndRawDisjoint(v: Value)
    ensures !(IsString(v) && IsRaw(v))
  {
  }

  /** Numbers, booleans, null, lists and mappings without `raw` pass neither test. */
  lemma NeitherStringNorRaw(v: Value)
    requires v.Int? || v.Bool? || v.Null? || v.List? || (v.Dict? && "raw" !in v.entries)
    ensures !IsString(v) && !IsRaw(v)
  {
  }

  /** A mapping is a raw marker exactly when it has a `raw` key; adding or
      changing any other key does not change that. */
  lemma RawIgnoresOtherKeys(m: map<string, Value>, k: string, x: Value)
    requires k != "raw"
    ensures IsRaw(Dict(m)) <==> "raw" in m
    ensures IsRaw(Dict(m[k := x])) <==> IsRaw(Dict(m))
  {
  }
}
