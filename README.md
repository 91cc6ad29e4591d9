# YAML-to-SQL INSERT compiler, modelled in Dafny

The compiler turns YAML definition records into SQL INSERT statements. Each record has a `table`, its `fields`, its `values` and optional `metadata`. For every definition file, in the order given, the compiler:

1. loads the file;
2. validates it against a schema;
3. resolves the include directives in its `values` and doubles every single quote in its strings;
4. binds the record into a three-key context and renders it through a template;
5. strips whitespace from both ends of the result.

A file that fails at any step is skipped. If at least one statement was produced, all of them are written to one output file, each followed by a blank line.

The model has six modules:

- `Values` (`values.dfy`): the parsed YAML value and the errors the pipeline raises. Raw markers (`{raw: ...}`) and include directives (`{include: ...}`) are mappings with a `raw` or `include` key, as they are in the parsed document. So "a mapping with both keys is an include" can be stated.
- `ConfigLoader` (`config_loader.dfy`): the template tests `is_string` and `is_raw`.
- `SqlLiteral` (`sql_literal.dfy`): the quote-doubling escape of SQL character string literals (ISO/IEC 9075-2, section 5.3, `<quote symbol>`). It also has a reader for such a literal, used to state that escaped text cannot end the literal early.
- `Whitespace` (`whitespace.dfy`): Python's `str.strip()`, over the exact set of characters `str.isspace` accepts.
- `SqlGenerator` (`sql_generator.dfy`): `_load_include`, `_resolve_includes` (as a loop method and as the function that specifies it) and the context and strip steps of `generate_sql`.
- `Compile` (`compiler.dfy`): the per-file steps, the statement-collecting loop of `run`, `_write_output` and `run`. The `Compiler` class is the object. Its configuration is fixed at construction. Its state is its one output file, whose name comes from the timestamp taken at construction. The state is absent until the file is first written, and each write replaces the file's content.

Abstractions:

- The includes directory is a map from file name to content. A missing file is one absent from the map.
- The template is a function from the context value to `Some(text)`, or `None` when rendering raises.
- Loading is a function from path to `Some(definition)`, or `None` when reading or parsing raises.
- Schema validation is a function from definition to `bool`.
- Whether the output file can be opened for writing is the class constant `writable`.
- An include file's content is the text `open(path, 'r').read()` returns: decoded, with line endings translated, so a CRLF file has lost its `\r` before it is escaped.
- The output text is the text handed to a file opened in text mode, so on Windows each `"\n\n"` separator becomes `"\r\n\r\n"` on disk.

Errors from resolution and from the template reach the caller as raised, with no wrapping. The output text ends with a blank line after the last statement, because each statement is followed by `"\n\n"`.

## Model

| member | source | states |
|---|---|---|
| `ConfigLoader.StringAndRawDisjoint` | src/config_loader.py:58-63 | no value is both a string and a raw marker |
| `ConfigLoader.NeitherStringNorRaw` | src/config_loader.py:58-63 | numbers, booleans, null, lists and mappings without `raw` pass neither test |
| `ConfigLoader.RawIgnoresOtherKeys` | src/config_loader.py:62-63 | a mapping is raw exactly when it has a `raw` key; changing another key does not change that |
| `SqlLiteral.EscapeCounts` | src/sql_generator.py:82 | escaping doubles the number of quotes and keeps the count of every other character; the length grows by the number of quotes |
| `SqlLiteral.EscapeAppend` | src/sql_generator.py:82 | escaping a concatenation is concatenating the escapes: each character is replaced on its own |
| `SqlLiteral.EscapeQuoteFree` | src/sql_generator.py:82 | a text without quotes is unchanged |
| `SqlLiteral.LiteralRoundTrip` | src/sql_generator.py:80-82 | an SQL lexer reading an escaped text followed by a closing quote returns exactly the original text and resumes right after that quote, so the value cannot break out of its literal |
| `SqlLiteral.EscapeInjective` | src/sql_generator.py:82 | two different texts never escape to the same text |
| `SqlLiteral.EscapeTwiceDiffers` | src/sql_generator.py:104 | for a text with a quote, escaping twice differs from escaping once |
| `Whitespace.LeadingSpaces` | src/sql_generator.py:59 | the returned count is the length of the longest all-whitespace prefix |
| `Whitespace.TrailingSpaces` | src/sql_generator.py:59 | the returned count is the length of the longest all-whitespace suffix |
| `Whitespace.Strip` | src/sql_generator.py:59 | the result has no whitespace at either end and is a slice of the input with only whitespace before and after it |
| `Whitespace.StripUnique` | src/sql_generator.py:59 | those two properties determine the result: any split into whitespace, trimmed middle and whitespace yields that middle |
| `Whitespace.StripIdempotent` | src/sql_generator.py:59 | stripping twice equals stripping once |
| `SqlGenerator.LoadInclude` | src/sql_generator.py:86-104 | a name missing from the includes directory raises file-not-found; an existing file yields its content with quotes doubled |
| `SqlGenerator.ResolveAllPointwise` | src/sql_generator.py:72-84 | resolution succeeds iff every element resolves. It then keeps the length and puts element i's resolution at position i. Otherwise it fails with the first failing element's error |
| `SqlGenerator.ResolveIncludes` | src/sql_generator.py:65-84 | the loop that appends each resolved element, stopping at a failing include, returns exactly the specified resolution |
| `SqlGenerator.StringEscaped` | src/sql_generator.py:81-83 | a string element becomes its escape: longer by its number of quotes, and read back as the original string |
| `SqlGenerator.OthersPassThrough` | src/sql_generator.py:79-83 | an element that is neither a string nor an include comes out unchanged; a raw marker's text is not escaped |
| `SqlGenerator.IncludeEscapedOnce` | src/sql_generator.py:74-78 | an include of an existing file becomes its content escaped once. When the content has a quote, the result is neither the raw content nor the content escaped twice |
| `SqlGenerator.IncludeBeforeRaw` | src/sql_generator.py:74 | a mapping with both `include` and `raw` is treated as an include and never comes out as a raw marker |
| `SqlGenerator.IncludeErrors` | src/sql_generator.py:76-97 | a non-string include name fails, and a name of a missing file fails with file-not-found |
| `SqlGenerator.ResolvedListIsClean` | src/sql_generator.py:72-84 | no element of the resolved list is an include directive (nested values are not walked). Every string element is the escape of the element's own string or of the named file's content |
| `SqlGenerator.Elements` | src/sql_generator.py:41 | walking `values`: a list gives its items, a string its one-character strings, anything else fails |
| `SqlGenerator.BuildContext` | src/sql_generator.py:41-52 | the context has exactly the keys `definition`, `mappings` and `metadata`. `definition` holds `table`, `fields` and the resolved values. `values` defaults to an empty list and `metadata` to an empty mapping. A non-mapping definition, a resolution failure or a missing `table` or `fields` fails; nothing else does |
| `SqlGenerator.GenerateSql` | src/sql_generator.py:32-63 | succeeds iff the context builds and the template renders; errors pass through unchanged. The statement is the rendered text without whitespace at either end |
| `SqlGenerator.MissingIncludeFails` | src/sql_generator.py:94-97 | a definition whose values name a missing include file yields no statement |
| `Compile.Process` | src/compiler.py:88-99 | load, then validate, then generate. A failed load or a schema rejection stops the file there. The file succeeds iff all three steps do, with the generated statement |
| `Compile.CompiledCount` | src/compiler.py:79-105 | with N files of which M fail, N - M statements are collected |
| `Compile.CompiledAppend` | src/compiler.py:88-100 | the statements of two batches are those of the first followed by those of the second |
| `Compile.FailureIsolated` | src/compiler.py:89-105 | a failing file contributes nothing and leaves the statements before and after it unchanged |
| `Compile.CompiledMembers` | src/compiler.py:99-100 | a text is a collected statement iff some file produces it |
| `Compile.AllSucceed` | src/compiler.py:96-100 | when no file fails, statement i is file i's |
| `Compile.JoinedAppend` | src/compiler.py:122-123 | the output text of two lists of statements is the concatenation of their texts |
| `Compile.JoinedAt` | src/compiler.py:121-123 | in the output text, statement i follows the text of the statements before it and is followed by a blank line and the rest |
| `Compile.Compiler.constructor` | src/compiler.py:23-58 | the compiler keeps its configuration and has written no output yet |
| `Compile.Compiler.CollectStatements` | src/compiler.py:88-105 | the per-file loop collects exactly the statements of the files that pass all three steps, in file order |
| `Compile.Compiler.WriteOutput` | src/compiler.py:114-129 | replaces the output file's content with each statement followed by `"\n\n"`; if the file cannot be opened, it returns the write error and leaves the output as it was |
| `Compile.Compiler.Run` | src/compiler.py:72-112 | no files, or no statements, leaves the output as it was. Otherwise the output file is written once and holds exactly the joined statements, or the write error is propagated and the output is unchanged |

## Left out

- Template rendering (Jinja2) is a parameter of the generator. That a raw marker's text appears unquoted in the statement depends on the template, which is not part of this model.
- JSON Schema validation (`src/validator.py`) is a per-definition outcome given to the pipeline.
- YAML parsing and file loading (`load_yaml`, `_load_mappings`, `_load_schema`, the template environment set-up) are a per-path outcome or are not modelled. Configuration load failures happen before any file is processed and are not modelled.
- The value type has no floating-point numbers, dates or non-string mapping keys, which the parser can produce. Floats and dates pass through unchanged. A mapping with non-string keys is an include when it has an `include` key and passes through otherwise.
- Directory listing: the definition files are given as a sequence in the order the listing returns. A platform's listing order is not modelled.
- Include paths: the includes directory is keyed by the name as written. Path joining, absolute names and `..` traversal are not modelled.
- Include read failures after the existence check (permissions, a directory, decoding errors) are not modelled. The map holds readable files only.
- SqlGenerator.Elements: when `values` is itself a mapping, Python walks its keys in insertion order. The model's mappings are unordered, so it fails with `ValuesNotIterable` instead.
- Compile.Compiler.WriteOutput: a write that fails after the file was opened leaves a partial file in Python. The model only fails when opening, and then writes nothing.
- Timestamps, output and log file names, logging, the console message, the command line and directory creation have no decision logic and are not modelled.
