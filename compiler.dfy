/** The compilation run: every definition file, in the order given, is
    loaded, validated and turned into a statement; a file that fails at any
    step is skipped; the statements are written to one output file. */
module Compile {
  import opened Values
  import opened SqlGenerator

  /** The per-file steps. Loading (reading and YAML parsing) and schema
      validation are given as outcomes per input: `None` when loading raises,
      `false` when the schema rejects the definition. */
  datatype Pipeline = Pipeline(
    load: string -> Option<Value>,
    validate: Value -> bool,
    generator: Generator)

  /** One file through load, then validate, then generate. A file whose load
      or validation fails stops there, whatever generation would have done. */
  function Process(p: Pipeline, path: string): (r: Result<string>)
    ensures p.load(path).None? ==> r == Err(LoadFailed(path))
    ensures p.load(path).Some? && !p.validate(p.load(path).value) ==> r == Err(SchemaViolation(path))
    ensures r.Ok? <==>
              && p.load(path).Some?
              && p.validate(p.load(path).value)
              && GenerateSql(p.generator, p.load(path).value).Ok?
    ensures r.Ok? ==> r.value == GenerateSql(p.generator, p.load(path).value).value
  {
    match p.load(path)
    case None => Err(LoadFailed(path))
    case Some(definition) =>
      if !p.validate(definition) then Err(SchemaViolation(path))
      else GenerateSql(p.generator, definition)
  }

  /** The statements of the files that make it through all three steps, in
      the order of the files. */
  function Compiled(p: Pipeline, files: seq<string>): seq<string> {
    if files == [] then []
    else
      var r := Process(p, files[0]);
      (if r.Ok? then [r.value] else []) + Compiled(p, files[1..])
  }

  /** Number of files that fail at some step. */
  function Failures(p: Pipeline, files: seq<string>): nat {
    if files == [] then 0
    else (if Process(p, files[0]).Err? then 1 else 0) + Failures(p, files[1..])
  }

  /** With N files of which M fail, there are N - M statements. */
  lemma {:induction false} CompiledCount(p: Pipeline, files: seq<string>)
    ensures Failures(p, files) <= |files|
    ensures |Compiled(p, files)| == |files| - Failures(p, files)
  {
    if files != [] {
      CompiledCount(p, files[1..]);
    }
  }

  /** The statements of two batches are those of the first followed by those
      of the second: order is kept and no file affects another's statement. */
  lemma {:induction false} CompiledAppend(p: Pipeline, a: seq<string>, b: seq<string>)
    ensures Compiled(p, a + b) == Compiled(p, a) + Compiled(p, b)
  {
    if a == [] {
      assert a + b == b;
    } else {
      assert (a + b)[1..] == a[1..] + b;
      CompiledAppend(p, a[1..], b);
    }
  }

  /** A failing file is skipped without touching its neighbours' statements. */
  lemma FailureIsolated(p: Pipeline, a: seq<string>, f: string, b: seq<string>)
    requires Process(p, f).Err?
    ensures Compiled(p, a + [f] + b) == Compiled(p, a) + Compiled(p, b)
  {
    assert [f][1..] == [];
    assert Compiled(p, [f]) == [];
    CompiledAppend(p, a, [f]);
    CompiledAppend(p, a + [f], b);
  }

  /** A string is among the statements exactly when some file produces it. */
  lemma {:induction false} CompiledMembers(p: Pipeline, files: seq<string>, s: string)
    ensures s in Compiled(p, files) <==> exists i :: 0 <= i < |files| && Process(p, files[i]) == Ok(s)
  {
    if files != [] {
      CompiledMembers(p, files[1..], s);
      assert forall i :: 1 <= i < |files| ==> files[1..][i - 1] == files[i];
      if exists i :: 0 <= i < |files| && Process(p, files[i]) == Ok(s) {
        var i :| 0 <= i < |files| && Process(p, files[i]) == Ok(s);
        if i > 0 {
          assert Process(p, files[1..][i - 1]) == Ok(s);
        }
      }
    }
  }

  /** When no file fails, statement i is file i's. */
  lemma {:induction false} AllSucceed(p: Pipeline, files: seq<string>)
    requires forall i :: 0 <= i < |files| ==> Process(p, files[i]).Ok?
    ensures |Compiled(p, files)| == |files|
    ensures forall i :: 0 <= i < |files| ==> Compiled(p, files)[i] == Process(p, files[i]).value
  {
    if files != [] {
      assert forall i :: 1 <= i < |files| ==> files[1..][i - 1] == files[i];
      AllSucceed(p, files[1..]);
    }
  }

  /** The text of the output file: each statement followed by a blank line. */
  function Joined(statements: seq<string>): string {
    if statements == [] then ""
    else statements[0] + "\n\n" + Joined(statements[1..])
  }

  lemma {:induction false} JoinedAppend(a: seq<string>, b: seq<string>)
    ensures Joined(a + b) == Joined(a) + Joined(b)
  {
    if a == [] {
      assert a + b == b;
    } else {
      assert (a + b)[1..] == a[1..] + b;
      JoinedAppend(a[1..], b);
    }
  }

  /** Statement i stands in the output after the text of the statements
      before it and is followed by a blank line and then the rest. */
  lemma JoinedAt(statements: seq<string>, i: nat)
    requires i < |statements|
    ensures Joined(statements) == Joined(statements[..i]) + statements[i] + "\n\n" + Joined(statements[i + 1..])
  {
    assert statements == statements[..i] + statements[i..];
    JoinedAppend(statements[..i], statements[i..]);
    assert statements[i..][1..] == statements[i + 1..];
  }

  /** The compiler object. Its configuration is fixed when it is built; what
      changes is its one output file, whose name is fixed by the timestamp
      taken at construction: `None` until it is first written, then its
      content. Every write reopens it for writing, replacing what was there.
      `writable` says whether the output location accepts the file (when it
      does not, opening it raises). */
  class Compiler {
    const pipeline: Pipeline
    const writable: bool
    var output: Option<string>

    constructor (pipeline: Pipeline, writable: bool)
      ensures this.pipeline == pipeline && this.writable == writable
      ensures output == None
    {
      this.pipeline := pipeline;
      this.writable := writable;
      output := None;
    }

    /** The loop of `run`: each file in turn is loaded, validated and
        generated; a failing step skips the file; each statement is appended. */
    method CollectStatements(files: seq<string>) returns (statements: seq<string>)
      ensures statements == Compiled(pipeline, files)
    {
      statements := [];
      for i := 0 to |files|
        invariant statements == Compiled(pipeline, files[..i])
      {
        assert files[..i + 1] == files[..i] + [files[i]];
        CompiledAppend(pipeline, files[..i], [files[i]]);
        var definition := pipeline.load(files[i]);
        if definition.Some? {
          if pipeline.validate(definition.value) {
            var sql := GenerateSql(pipeline.generator, definition.value);
            if sql.Ok? {
              statements := statements + [sql.value];
            }
          }
        }
      }
      assert files[..|files|] == files;
    }

    /** `_write_output`: open the output file for writing, which empties it,
        and write every statement followed by a blank line. A file that cannot be opened is an error
        passed to the caller, and nothing is written. */
    method WriteOutput(statements: seq<string>) returns (r: Result<()>)
      modifies this`output
      ensures writable ==> r == Ok(()) && output == Some(Joined(statements))
      ensures !writable ==> r == Err(WriteFailed) && output == old(output)
    {
      if !writable {
        return Err(WriteFailed);
      }
      var text := "";
      for i := 0 to |statements|
        invariant text == Joined(statements[..i])
        invariant output == old(output)
      {
        assert statements[..i + 1] == statements[..i] + [statements[i]];
        JoinedAppend(statements[..i], [statements[i]]);
        assert [statements[i]][1..] == [];
        text := text + (statements[i] + "\n\n");
      }
      assert statements[..|statements|] == statements;
      assert text == Joined(statements);
      output := Some(text);
      return Ok(());
    }

    /** `run`: nothing to do without files; otherwise collect the statements
        and write them once, only when there is at least one. */
    method Run(files: seq<string>) returns (r: Result<()>)
      modifies this`output
      ensures Compiled(pipeline, files) == [] ==> r == Ok(()) && output == old(output)
      ensures Compiled(pipeline, files) != [] && writable ==>
                r == Ok(()) && output == Some(Joined(Compiled(pipeline, files)))
      ensures Compiled(pipeline, files) != [] && !writable ==>
                r == Err(WriteFailed) && output == old(output)
    {
      if files == [] {
        return Ok(());
      }
      var statements := CollectStatements(files);
      if statements != [] {
        r := WriteOutput(statements);
      } else {
        r := Ok(());
      }
    }
  }
}
