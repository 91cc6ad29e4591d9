/** Building one SQL statement from one definition: resolve the include
    directives of its `values`, escape the strings, bind the record into a
    three-key context and render it through the template. */
module SqlGenerator {
  import opened Values
  import opened ConfigLoader
  import opened SqlLiteral
  import opened Whitespace

  /** What the generator is built with. The includes directory is a map from
      file name to file content; a file that does not exist is absent. The
      template is a function from the rendering context to its output, or
      `None` when rendering raises. */
  datatype Generator = Generator(
    mappings: Value,
    includes: map<string, string>,
    render: Value -> Option<string>)

  /** An include directive: a mapping with an `include` key. */
  predicate IsInclude(v: Value) {
    v.Dict? && "include" in v.entries
  }

  /** `_load_include`: the content of the named file, quotes doubled. */
  function LoadInclude(includes: map<string, string>, name: string): (r: Result<string>)
    ensures name !in includes ==> r == Err(IncludeNotFound(name))
    ensures name in includes ==> r == Ok(Escape(includes[name]))
  {
    if name !in includes then Err(IncludeNotFound(name))
    else Ok(Escape(includes[name]))
  }

  /** What one element of `values` becomes: an include directive is replaced
      by the escaped file content (tested first, so it wins over `raw`), a
      string is escaped, anything else is kept as it is. */
  function ResolveValue(includes: map<string, string>, v: Value): Result<Value> {
    if IsInclude(v) then
      match v.entries["include"]
      case Str(name) =>
        (match LoadInclude(includes, name)
         case Ok(content) => Ok(Str(content))
         case Err(e) => Err(e))
      case _ => Err(IncludeNameNotString)
    else if IsString(v) then Ok(Str(Escape(v.s)))
    else Ok(v)
  }

  /** `_resolve_includes` as a function: every element resolved in order; the
      first element that fails makes the whole list fail with its error. */
  function ResolveAll(includes: map<string, string>, vs: seq<Value>): Result<seq<Value>> {
    if vs == [] then Ok([])
    else
      match ResolveValue(includes, vs[0])
      case Err(e) => Err(e)
      case Ok(x) =>
        match ResolveAll(includes, vs[1..])
        case Err(e) => Err(e)
        case Ok(rest) => Ok([x] + rest)
  }

  /** Resolution works element by element: it succeeds exactly when every
      element resolves, then keeps the length and puts element i's result at
      position i; otherwise it fails with the error of the first element that
      does not resolve. */
  lemma {:induction false} ResolveAllPointwise(includes: map<string, string>, vs: seq<Value>)
    ensures ResolveAll(includes, vs).Ok? <==> forall i :: 0 <= i < |vs| ==> ResolveValue(includes, vs[i]).Ok?
    ensures ResolveAll(includes, vs).Ok? ==>
              var r := ResolveAll(includes, vs).value;
              |r| == |vs| && forall i :: 0 <= i < |vs| ==> r[i] == ResolveValue(includes, vs[i]).value
    ensures ResolveAll(includes, vs).Err? ==>
              exists k :: 0 <= k < |vs| && ResolveValue(includes, vs[k]) == Err(ResolveAll(includes, vs).error)
                && forall i :: 0 <= i < k ==> ResolveValue(includes, vs[i]).Ok?
  {
    if vs != [] {
      ResolveAllPointwise(includes, vs[1..]);
      assert forall i :: 1 <= i < |vs| ==> vs[1..][i - 1] == vs[i];
      var head := ResolveValue(includes, vs[0]);
      var tail := ResolveAll(includes, vs[1..]);
      if head.Ok? && tail.Err? {
        var k :| 0 <= k < |vs[1..]| && ResolveValue(includes, vs[1..][k]) == Err(tail.error)
                   && forall i :: 0 <= i < k ==> ResolveValue(includes, vs[1..][i]).Ok?;
        assert ResolveValue(includes, vs[k + 1]) == Err(tail.error);
        assert forall i :: 0 <= i < k + 1 ==> ResolveValue(includes, vs[i]).Ok?;
      }
    }
  }

  /** `_resolve_includes`: walk the values, appending each resolved element to
      the result list; a failing include stops the walk. */
  method ResolveIncludes(includes: map<string, string>, values: seq<Value>) returns (r: Result<seq<Value>>)
    ensures r == ResolveAll(includes, values)
  {
    ResolveAllPointwise(includes, values);
    var resolved: seq<Value> := [];
    for i := 0 to |values|
      invariant |resolved| == i
      invariant forall k :: 0 <= k < i ==> ResolveValue(includes, values[k]) == Ok(resolved[k])
    {
      var value := values[i];
      if IsInclude(value) {
        var name := value.entries["include"];
        if !name.Str? {
          return Err(IncludeNameNotString);
        }
        var content := LoadInclude(includes, name.s);
        if content.Err? {
          return Err(content.error);
        }
        resolved := resolved + [Str(content.value)];
      } else {
        if IsString(value) {
          value := Str(Escape(value.s));
        }
        resolved := resolved + [value];
      }
    }
    assert ResolveAll(includes, values).value == resolved;
    return Ok(resolved);
  }

  /** A string element is replaced by its escape: one longer per quote, and an
      SQL lexer reading it inside quotes gets the original string back. */
  lemma StringEscaped(includes: map<string, string>, v: Value)
    requires IsString(v)
    ensures ResolveValue(includes, v).Ok? && ResolveValue(includes, v).value.Str?
    ensures var e := ResolveValue(includes, v).value.s;
            && |e| == |v.s| + Count(v.s, Quote)
            && ReadBody(e + [Quote]) == Some((v.s, []))
  {
    EscapeCounts(v.s, Quote);
    LiteralRoundTrip(v.s, []);
    assert Escape(v.s) + [Quote] + [] == Escape(v.s) + [Quote];
  }

  /** Numbers, booleans, null, lists, raw markers and every other mapping
      without an `include` key come out unchanged; in particular a raw
      marker's text is not escaped. */
  lemma OthersPassThrough(includes: map<string, string>, v: Value)
    requires !IsString(v) && !IsInclude(v)
    ensures ResolveValue(includes, v) == Ok(v)
    ensures IsRaw(v) ==> ResolveValue(includes, v).value.entries["raw"] == v.entries["raw"]
  {
  }

  /** An include of an existing file becomes the file's content escaped once:
      not the content itself and not the content escaped twice, as soon as the
      content holds a quote. */
  lemma IncludeEscapedOnce(includes: map<string, string>, v: Value, name: string)
    requires IsInclude(v) && v.entries["include"] == Str(name) && name in includes
    ensures ResolveValue(includes, v) == Ok(Str(Escape(includes[name])))
    ensures Count(includes[name], Quote) > 0 ==>
              ResolveValue(includes, v) != Ok(Str(includes[name]))
              && ResolveValue(includes, v) != Ok(Str(Escape(Escape(includes[name]))))
  {
    var c := includes[name];
    if Count(c, Quote) > 0 {
      EscapeCounts(c, Quote);
      EscapeTwiceDiffers(c);
    }
  }

  /** A mapping with both `include` and `raw` is an include: it never comes
      out as a raw marker. */
  lemma IncludeBeforeRaw(includes: map<string, string>, v: Value)
    requires IsInclude(v) && IsRaw(v)
    ensures ResolveValue(includes, v).Ok? ==> ResolveValue(includes, v).value.Str?
    ensures ResolveValue(includes, v).Ok? ==> !IsRaw(ResolveValue(includes, v).value)
  {
  }

  /** A missing include file, or an include name that is not a string, makes
      the element fail. */
  lemma IncludeErrors(includes: map<string, string>, v: Value)
    requires IsInclude(v)
    ensures !v.entries["include"].Str? ==> ResolveValue(includes, v) == Err(IncludeNameNotString)
    ensures v.entries["include"].Str? && v.entries["include"].s !in includes ==>
              ResolveValue(includes, v) == Err(IncludeNotFound(v.entries["include"].s))
  {
  }

  /** After a successful resolution no include directive is left, and every
      string in the list is the escape of a string: either the element that
      stood there or the content of the file it named. */
  lemma ResolvedListIsClean(includes: map<string, string>, vs: seq<Value>)
    requires ResolveAll(includes, vs).Ok?
    ensures |ResolveAll(includes, vs).value| == |vs|
    ensures forall i :: 0 <= i < |vs| ==> !IsInclude(ResolveAll(includes, vs).value[i])
    ensures forall i :: 0 <= i < |vs| && ResolveAll(includes, vs).value[i].Str? ==>
              || (vs[i].Str? && ResolveAll(includes, vs).value[i].s == Escape(vs[i].s))
              || (IsInclude(vs[i]) && vs[i].entries["include"].Str? && vs[i].entries["include"].s in includes
                  && ResolveAll(includes, vs).value[i].s == Escape(includes[vs[i].entries["include"].s]))
  {
    ResolveAllPointwise(includes, vs);
  }

  /** The elements Python's `for` loop visits when it walks `values`: the items
      of a list, or the characters of a string, each as a one-character
      string. Anything else cannot be walked. */
  function Elements(v: Value): (r: Result<seq<Value>>)
    ensures v.List? ==> r == Ok(v.items)
    ensures v.Str? ==> r.Ok? && |r.value| == |v.s| && forall i :: 0 <= i < |v.s| ==> r.value[i] == Str([v.s[i]])
    ensures !v.List? && !v.Str? ==> r == Err(ValuesNotIterable)
  {
    match v
    case List(items) => Ok(items)
    case Str(s) => Ok(seq(|s|, i requires 0 <= i < |s| => Str([s[i]])))
    case _ => Err(ValuesNotIterable)
  }

  /** Look up a key, with a default for a missing one (`dict.get`). */
  function Get(m: map<string, Value>, key: string, default: Value): Value {
    if key in m then m[key] else default
  }

  /** The rendering context `generate_sql` builds: resolution first, then the
      `table` and `fields` lookups, which raise when the key is absent. */
  function BuildContext(g: Generator, definition: Value): (r: Result<Value>)
    ensures !definition.Dict? ==> r == Err(NotAMapping)
    ensures r.Ok? <==>
              && definition.Dict?
              && Elements(Get(definition.entries, "values", List([]))).Ok?
              && ResolveAll(g.includes, Elements(Get(definition.entries, "values", List([]))).value).Ok?
              && "table" in definition.entries && "fields" in definition.entries
    ensures r.Ok? ==>
              var d := definition.entries;
              && r.value.Dict?
              && r.value.entries.Keys == {"definition", "mappings", "metadata"}
              && r.value.entries["definition"] == Dict(map[
                   "table" := d["table"],
                   "fields" := d["fields"],
                   "values" := List(ResolveAll(g.includes, Elements(Get(d, "values", List([]))).value).value)])
              && r.value.entries["mappings"] == g.mappings
              && r.value.entries["metadata"] == Get(d, "metadata", Dict(map[]))
    ensures r.Ok? && "values" !in definition.entries ==>
              r.value.entries["definition"].entries["values"] == List([])
    ensures definition.Dict? && Elements(Get(definition.entries, "values", List([]))).Ok?
              && ResolveAll(g.includes, Elements(Get(definition.entries, "values", List([]))).value).Ok? ==>
              && ("table" !in definition.entries ==> r == Err(MissingKey("table")))
              && ("table" in definition.entries && "fields" !in definition.entries ==> r == Err(MissingKey("fields")))
  {
    if !definition.Dict? then Err(NotAMapping)
    else
      var d := definition.entries;
      match Elements(Get(d, "values", List([])))
      case Err(e) => Err(e)
      case Ok(items) =>
        match ResolveAll(g.includes, items)
        case Err(e) => Err(e)
        case Ok(resolved) =>
          if "table" !in d then Err(MissingKey("table"))
          else if "fields" !in d then Err(MissingKey("fields"))
          else
            Ok(Dict(map[
              "definition" := Dict(map["table" := d["table"], "fields" := d["fields"], "values" := List(resolved)]),
              "mappings" := g.mappings,
              "metadata" := Get(d, "metadata", Dict(map[]))]))
  }

  /** `generate_sql`: build the context, render it, and strip whitespace from
      both ends of the output. Every failure is passed on to the caller. */
  function GenerateSql(g: Generator, definition: Value): (r: Result<string>)
    ensures r.Ok? <==> BuildContext(g, definition).Ok? && g.render(BuildContext(g, definition).value).Some?
    ensures BuildContext(g, definition).Err? ==> r == Err(BuildContext(g, definition).error)
    ensures BuildContext(g, definition).Ok? && g.render(BuildContext(g, definition).value).None? ==>
              r == Err(TemplateFailed)
    ensures r.Ok? ==>
              var out := g.render(BuildContext(g, definition).value).value;
              && IsTrimmed(r.value)
              && exists i, j :: 0 <= i <= j <= |out| && r.value == out[i..j] && AllSpace(out[..i]) && AllSpace(out[j..])
  {
    match BuildContext(g, definition)
    case Err(e) => Err(e)
    case Ok(context) =>
      match g.render(context)
      case None => Err(TemplateFailed)
      case Some(sql) => Ok(Strip(sql))
  }

  /** A definition whose list of values names a missing include file produces
      no statement. */
  lemma MissingIncludeFails(g: Generator, definition: Value, k: nat)
    requires definition.Dict? && "values" in definition.entries && definition.entries["values"].List?
    requires k < |definition.entries["values"].items|
    requires var v := definition.entries["values"].items[k];
             IsInclude(v) && v.entries["include"].Str? && v.entries["include"].s !in g.includes
    ensures GenerateSql(g, definition).Err?
  {
    ResolveAllPointwise(g.includes, definition.entries["values"].items);
  }
}
