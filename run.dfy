/**
 * One run of the generator as `main` drives it (main.go:61-106): split the
 * `-out` and `-fun` lists, load the override templates, then for every
 * requested type generate its text and write its buffer.
 *
 * Flag parsing, the package loader and the file system are not modelled:
 * their results are inputs, and the files written are returned in order.
 */
module Sloth {
  import opened Wrappers
  import opened GoStrings
  import opened Decls
  import Parse
  import opened Render
  import opened Gen

  /** Where a type's output goes: the `-output` path for every type, or a
      file named after the type in the input directory (the path join
      itself is not modelled). */
  datatype OutputPath = Explicit(path: string) | InDir(dir: string, base: string)

  /** The output file name (main.go:92-96). */
  function OutputName(output: string, dir: string, typeName: string): (r: OutputPath)
    ensures output != "" ==> r == Explicit(output)
    ensures output == "" ==> r == InDir(dir, AsciiLower(typeName) + "_sloth.go")
  {
    if output != "" then Explicit(output)
    else
      AsciiLowerKeepsSuffix(typeName, "_sloth.go");
      InDir(dir, AsciiLower(typeName + "_sloth.go"))
  }

  /** The command line as the core reads it: `-out`, `-fun`, `-output`,
      `-mod`, and `os.Args[1:]` joined by spaces. */
  datatype Invocation = Invocation(outStruct: string, outFun: string, output: string, mod: string, args: string)

  /** What the loader yields: the package name, its parsed files and the
      directory the output goes to by default. */
  datatype Package = Package(name: string, files: seq<SourceFile>, dir: string)

  /** The rest of the world: the contents of the files of the override
      directory, the built-in templates and the template engine. */
  datatype Env = Env(read: string -> Option<string>, defaults: Templates, render: Renderer)

  /** One call of `ioutil.WriteFile` (main.go:102). */
  datatype Write = Write(path: OutputPath, content: string)

  /** The files written, in order, and what stopped the run if anything did. */
  datatype RunResult = RunResult(writes: seq<Write>, failure: Option<Failure>)

  datatype LoopState = LoopState(buf: map<string, string>, writes: seq<Write>, failure: Option<Failure>)

  /** What `generate` does for each type name. */
  type Generation = string -> GenResult

  /** One iteration of the loop of main.go:89-106. */
  function TypeStep(st: LoopState, gen: Generation, dir: string, output: string, typeName: string): LoopState
  {
    if st.failure.Some? then st
    else
      match gen(typeName)
      case GenFailed(e) => LoopState(st.buf, st.writes, Some(e))
      case GenOk(found, text) =>
        var buf := BufAfter(st.buf, typeName, found, text);
        if typeName !in buf then LoopState(buf, st.writes, Some(MissingBuffer(typeName)))
        else LoopState(buf, st.writes + [Write(OutputName(output, dir, typeName), buf[typeName])], None)
  }

  /** The loop of main.go:89-106 over the requested types. */
  function TypesLoop(types: seq<string>, gen: Generation, dir: string, output: string): LoopState
    decreases |types|
  {
    if |types| == 0 then LoopState(map[], [], None)
    else TypeStep(TypesLoop(types[..|types| - 1], gen, dir, output), gen, dir, output, types[|types| - 1])
  }

  /** `generate` for every type name, over the files of `pkg`. */
  function GenerateIn(s: Settings, pkg: Package): Generation
  {
    t => GenSpec(s, pkg.name, pkg.files, t)
  }

  /** The settings `generate` sees once the override templates are loaded. */
  function RunSettings(inv: Invocation, env: Env, custom: Templates): Settings
  {
    Settings(inv.args, Split(inv.outFun, ','), GetTemplate(custom, env.defaults), env.render)
  }

  /** A whole run (main.go:57-106). */
  function RunSpec(inv: Invocation, pkg: Package, env: Env): RunResult
  {
    if inv.outStruct == "" then RunResult([], Some(UsageError))
    else
      match OverrideTemplates(inv.mod, env.read)
      case Err(e) => RunResult([], Some(e))
      case Ok(custom) =>
        var st := TypesLoop(Split(inv.outStruct, ','), GenerateIn(RunSettings(inv, env, custom), pkg), pkg.dir, inv.output);
        RunResult(st.writes, st.failure)
  }

  lemma {:induction false} LoopFailureStays(types: seq<string>, gen: Generation, dir: string, output: string, i: nat)
    requires i <= |types| && TypesLoop(types[..i], gen, dir, output).failure.Some?
    ensures TypesLoop(types, gen, dir, output).failure == TypesLoop(types[..i], gen, dir, output).failure
    ensures TypesLoop(types, gen, dir, output).writes == TypesLoop(types[..i], gen, dir, output).writes
    decreases |types|
  {
    if i < |types| {
      var init := types[..|types| - 1];
      assert init[..i] == types[..i];
      LoopFailureStays(init, gen, dir, output, i);
    } else {
      assert types[..i] == types;
    }
  }

  /** How often `t` is requested. */
  function Count(types: seq<string>, t: string): nat
    decreases |types|
  {
    if |types| == 0 then 0
    else Count(types[..|types| - 1], t) + (if types[|types| - 1] == t then 1 else 0)
  }

  /** A type is requested no times exactly when it is not in the list. */
  lemma {:induction false} CountZeroIffAbsent(types: seq<string>, t: string)
    ensures Count(types, t) == 0 <==> t !in types
    decreases |types|
  {
    if |types| > 0 {
      var init := types[..|types| - 1];
      CountZeroIffAbsent(init, t);
      assert types == init + [types[|types| - 1]];
    }
  }

  /** `text` written `n` times. */
  function Repeat(text: string, n: nat): string
  {
    if n == 0 then "" else Repeat(text, n - 1) + text
  }

  /** Only types that `generate` found have a buffer. */
  lemma {:induction false} LoopBuffersAreFoundTypes(types: seq<string>, gen: Generation, dir: string, output: string)
    ensures forall k :: k in TypesLoop(types, gen, dir, output).buf ==> gen(k).GenOk? && gen(k).found
    decreases |types|
  {
    if |types| > 0 {
      LoopBuffersAreFoundTypes(types[..|types| - 1], gen, dir, output);
    }
  }

  lemma {:induction false} LengthOfWrites(types: seq<string>, gen: Generation, dir: string, output: string)
    ensures |TypesLoop(types, gen, dir, output).writes| <= |types|
    decreases |types|
  {
    if |types| > 0 {
      LengthOfWrites(types[..|types| - 1], gen, dir, output);
    }
  }

  /** A requested type that `generate` does not find stops the loop at the
      latest when its turn comes, instead of writing an empty file. */
  lemma {:induction false} NotFoundStopsLoop(types: seq<string>, gen: Generation, dir: string, output: string, j: nat)
    requires j < |types| && !(gen(types[j]).GenOk? && gen(types[j]).found)
    ensures TypesLoop(types, gen, dir, output).failure.Some?
    ensures |TypesLoop(types, gen, dir, output).writes| <= j
  {
    var t := types[j];
    var pre := types[..j + 1];
    assert pre[..j] == types[..j] && pre[j] == t;
    var st := TypesLoop(types[..j], gen, dir, output);
    LengthOfWrites(types[..j], gen, dir, output);
    LoopBuffersAreFoundTypes(types[..j], gen, dir, output);
    assert TypesLoop(pre, gen, dir, output).failure.Some?;
    LoopFailureStays(types, gen, dir, output, j + 1);
  }

  /** One iteration that leaves the loop running found its type and
      appended the generated text to that type's buffer. */
  lemma StepAppends(st: LoopState, gen: Generation, dir: string, output: string, t: string)
    requires st.failure.None? && TypeStep(st, gen, dir, output, t).failure.None?
    requires forall k :: k in st.buf ==> gen(k).GenOk? && gen(k).found
    ensures gen(t).GenOk? && gen(t).found
    ensures TypeStep(st, gen, dir, output, t).buf == Append(st.buf, t, gen(t).text)
    ensures TypeStep(st, gen, dir, output, t).writes ==
      st.writes + [Write(OutputName(output, dir, t), Append(st.buf, t, gen(t).text)[t])]
  {
    assert gen(t).GenOk?;
  }

  /** Exactly the types of `types` have a buffer, each belongs to a type
      that `generate` found, and each holds its text once per request of
      that type in `types`. */
  ghost predicate BuffersHold(buf: map<string, string>, types: seq<string>, gen: Generation)
  {
    && (forall k :: k in buf <==> k in types)
    && (forall k :: k in buf ==> gen(k).GenOk? && gen(k).found && buf[k] == Repeat(gen(k).text, Count(types, k)))
  }

  /** Appending a found type's text once more keeps `BuffersHold` for one
      more request of it. */
  lemma AppendKeepsBuffers(buf: map<string, string>, types: seq<string>, t: string, gen: Generation)
    requires BuffersHold(buf, types, gen) && gen(t).GenOk? && gen(t).found
    ensures BuffersHold(Append(buf, t, gen(t).text), types + [t], gen)
  {
    var types' := types + [t];
    assert types'[..|types|] == types;
    var buf' := Append(buf, t, gen(t).text);
    forall k ensures k in buf' <==> k in types' {
      assert k in types' <==> k in types || k == t;
    }
    forall k | k in buf'
      ensures gen(k).GenOk? && gen(k).found && buf'[k] == Repeat(gen(k).text, Count(types', k))
    {
      if k != t {
        assert Count(types', k) == Count(types, k);
      } else {
        assert Count(types', t) == Count(types, t) + 1;
        if t !in buf {
          CountZeroIffAbsent(types, t);
        }
      }
    }
  }

  /** One iteration that leaves the loop running keeps `BuffersHold`. */
  lemma StepKeepsBuffers(st: LoopState, types: seq<string>, gen: Generation, dir: string, output: string, t: string)
    requires st.failure.None? && TypeStep(st, gen, dir, output, t).failure.None?
    requires BuffersHold(st.buf, types, gen)
    ensures BuffersHold(TypeStep(st, gen, dir, output, t).buf, types + [t], gen)
  {
    StepAppends(st, gen, dir, output, t);
    AppendKeepsBuffers(st.buf, types, t, gen);
  }

  /** After a loop that does not fail, exactly the requested types have a
      buffer, and each holds its type's generated text once per request:
      buffers are never reset between requests. */
  lemma {:induction false} CompleteLoopBuffers(types: seq<string>, gen: Generation, dir: string, output: string)
    requires TypesLoop(types, gen, dir, output).failure.None?
    ensures BuffersHold(TypesLoop(types, gen, dir, output).buf, types, gen)
    decreases |types|
  {
    if |types| > 0 {
      var n := |types| - 1;
      var init, t := types[..n], types[n];
      var st := TypesLoop(init, gen, dir, output);
      assert st.failure.None?;
      CompleteLoopBuffers(init, gen, dir, output);
      StepKeepsBuffers(st, init, gen, dir, output, t);
      assert types == init + [t];
    }
  }

  /** The `i`-th file written for `types`: named after `types[i]` and
      holding its generated text once per request of it up to `i`. */
  predicate WriteFor(w: Write, types: seq<string>, i: nat, gen: Generation, dir: string, output: string)
    requires i < |types|
  {
    gen(types[i]).GenOk? && gen(types[i]).found &&
    w == Write(OutputName(output, dir, types[i]), Repeat(gen(types[i]).text, Count(types[..i + 1], types[i])))
  }

  /** A loop that does not fail writes one file per requested type, in order. */
  lemma {:induction false} CompleteLoopWrites(types: seq<string>, gen: Generation, dir: string, output: string)
    requires TypesLoop(types, gen, dir, output).failure.None?
    ensures |TypesLoop(types, gen, dir, output).writes| == |types|
    ensures forall i :: 0 <= i < |types| ==> WriteFor(TypesLoop(types, gen, dir, output).writes[i], types, i, gen, dir, output)
    decreases |types|
  {
    if |types| > 0 {
      var n := |types| - 1;
      var init, t := types[..n], types[n];
      var st := TypesLoop(init, gen, dir, output);
      assert st.failure.None?;
      CompleteLoopWrites(init, gen, dir, output);
      CompleteLoopBuffers(types, gen, dir, output);
      LoopBuffersAreFoundTypes(init, gen, dir, output);
      StepAppends(st, gen, dir, output, t);
      var st' := TypesLoop(types, gen, dir, output);
      forall i | 0 <= i < |types| ensures WriteFor(st'.writes[i], types, i, gen, dir, output) {
        if i < n {
          assert types[..i + 1] == init[..i + 1];
          assert WriteFor(st.writes[i], init, i, gen, dir, output);
        } else {
          assert types[..i + 1] == types;
        }
      }
    }
  }

  /** A requested type that no file of the package declares makes the run
      fail rather than succeed with empty output. */
  lemma AbsentTypeIsFatal(inv: Invocation, pkg: Package, env: Env, t: string)
    requires t in Split(inv.outStruct, ',')
    requires forall i :: 0 <= i < |pkg.files| ==> !FoundIn(pkg.files, i, t)
    ensures RunSpec(inv, pkg, env).failure.Some?
  {
    if inv.outStruct != "" && OverrideTemplates(inv.mod, env.read).Ok? {
      var types := Split(inv.outStruct, ',');
      var s := RunSettings(inv, env, OverrideTemplates(inv.mod, env.read).value);
      var j :| 0 <= j < |types| && types[j] == t;
      if GenSpec(s, pkg.name, pkg.files, t).GenOk? {
        GenFoundIffDeclared(s, pkg.name, pkg.files, t);
      }
      NotFoundStopsLoop(types, GenerateIn(s, pkg), pkg.dir, inv.output, j);
    }
  }

  /** A run that succeeds writes one file per entry of `-out`, named by
      `OutputName`, holding the type's generated text repeated once per
      request of that type so far. */
  lemma CompleteRunWrites(inv: Invocation, pkg: Package, env: Env)
    requires RunSpec(inv, pkg, env).failure.None?
    ensures inv.outStruct != "" && OverrideTemplates(inv.mod, env.read).Ok?
    ensures var types := Split(inv.outStruct, ',');
      var gen := GenerateIn(RunSettings(inv, env, OverrideTemplates(inv.mod, env.read).value), pkg);
      var w := RunSpec(inv, pkg, env).writes;
      |w| == |types| && forall i :: 0 <= i < |types| ==> WriteFor(w[i], types, i, gen, pkg.dir, inv.output)
  {
    var s := RunSettings(inv, env, OverrideTemplates(inv.mod, env.read).value);
    CompleteLoopWrites(Split(inv.outStruct, ','), GenerateIn(s, pkg), pkg.dir, inv.output);
  }

  /** `main` from the split of `-out` on (main.go:61-106). */
  method Run(inv: Invocation, pkg: Package, env: Env) returns (writes: seq<Write>, failure: Option<Failure>)
    ensures RunResult(writes, failure) == RunSpec(inv, pkg, env)
  {
    if inv.outStruct == "" {
      return [], Some(UsageError);
    }
    var types := Split(inv.outStruct, ',');
    var autoFunc := Split(inv.outFun, ',');
    var g := new Generator(pkg.name, pkg.files);
    var custom := LoadCustomTemplates(inv.mod, env.read);
    if custom.Err? {
      return [], Some(custom.error);
    }
    var s := Settings(inv.args, autoFunc, GetTemplate(custom.value, env.defaults), env.render);
    assert s == RunSettings(inv, env, custom.value);
    ghost var gen := GenerateIn(s, pkg);
    writes := [];
    var i := 0;
    while i < |types|
      invariant 0 <= i <= |types|
      invariant g.pkgName == pkg.name && g.files == pkg.files
      invariant TypesLoop(types[..i], gen, pkg.dir, inv.output) == LoopState(g.buf, writes, None)
    {
      var typeName := types[i];
      assert types[..i + 1][..i] == types[..i] && types[..i + 1][i] == typeName;
      var f := g.Generate(typeName, s);
      if f.Some? {
        LoopFailureStays(types, gen, pkg.dir, inv.output, i + 1);
        return writes, f;
      }
      var outputName := OutputName(inv.output, pkg.dir, typeName);
      if typeName !in g.buf {
        LoopFailureStays(types, gen, pkg.dir, inv.output, i + 1);
        return writes, Some(MissingBuffer(typeName));
      }
      var src := g.buf[typeName];
      writes := writes + [Write(outputName, src)];
      i := i + 1;
    }
    assert types[..i] == types;
    failure := None;
  }
}
