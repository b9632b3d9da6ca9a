/**
 * The generator's output buffers and `generate` (main.go:148-164, 219-262).
 */
module Gen {
  import opened Wrappers
  import opened Decls
  import Parse
  import opened Render

  /** The text of buffer `k`; a buffer that does not exist reads as empty. */
  function Lookup(buf: map<string, string>, k: string): string
  {
    if k in buf then buf[k] else ""
  }

  /** Writing `text` to buffer `k`: the buffer is created on its first
      write, gains `text` at its end, and no other buffer changes. */
  function Append(buf: map<string, string>, k: string, text: string): (r: map<string, string>)
    ensures k in r && r[k] == Lookup(buf, k) + text
  {
    buf[k := Lookup(buf, k) + text]
  }

  /** A write to one buffer leaves every other buffer as it was. */
  lemma AppendLeavesOthers(buf: map<string, string>, k: string, text: string)
    ensures forall k' :: k' != k ==> (k' in Append(buf, k, text) <==> k' in buf)
    ensures forall k' :: k' != k && k' in buf ==> Append(buf, k, text)[k'] == buf[k']
  {
  }

  /** Two writes to one buffer are one write of both texts. */
  lemma AppendAppend(buf: map<string, string>, k: string, a: string, b: string)
    ensures Append(Append(buf, k, a), k, b) == Append(buf, k, a + b)
  {
    assert Lookup(buf, k) + a + b == Lookup(buf, k) + (a + b);
  }

  /** Writing nothing to an existing buffer changes nothing. */
  lemma AppendNothing(buf: map<string, string>, k: string)
    requires k in buf
    ensures Append(buf, k, "") == buf
  {
    assert buf[k] + "" == buf[k];
  }

  /** What `generate` reads besides the package: the echoed arguments
      (`os.Args[1:]` joined by spaces), the `-fun` list, the two templates
      and the template engine. */
  datatype Settings = Settings(args: string, autoFunc: seq<string>, tpts: Templates, render: Renderer)

  /** The first line of a struct's output (main.go:243). */
  function GeneratedLine(args: string): string
  {
    "// Code generated by \"sloth " + args + "\"; DO NOT EDIT.\n"
  }

  /** The package clause (main.go:245). */
  function PackageLine(pkgName: string): string
  {
    "package " + pkgName + "\n"
  }

  /** The four writes that open a struct's output (main.go:243-246). */
  function Header(args: string, pkgName: string): string
  {
    GeneratedLine(args) + "\n" + PackageLine(pkgName) + "\n"
  }

  /** What one entry of `-fun` writes for one field (main.go:249-254). */
  function OpText(s: Settings, structName: Ident, f: FieldInfo, op: string): string
  {
    if op == FunSetter then GenSetter(s.render, s.tpts.setter, structName, f.name, f.column, f.typ) + "\n"
    else if op == FunGetter then GenGetter(s.render, s.tpts.getter, structName, f.name, f.typ) + "\n"
    else ""
  }

  /** `set` writes the setter text of the field and a newline, `get` the
      getter text, which never sees the column, and a newline; any other
      entry writes nothing. */
  lemma OpTextPicksTemplate(s: Settings, structName: Ident, f: FieldInfo, op: string)
    ensures op == FunSetter ==>
      OpText(s, structName, f, op) == s.render(s.tpts.setter, SetterVars(structName, f.name, f.column, f.typ)) + "\n"
    ensures op == FunGetter ==>
      OpText(s, structName, f, op) == s.render(s.tpts.getter, SetterVars(structName, f.name, f.column, f.typ) - {"Column"}) + "\n"
    ensures op != FunSetter && op != FunGetter ==> OpText(s, structName, f, op) == ""
  {
    GenGetterSeesNoColumn(s.render, s.tpts.getter, structName, f.name, f.column, f.typ);
  }

  /** The texts that `part` gives for the elements of `xs`, one after
      another: what a loop writing `part(x)` for each `x` in turn appends. */
  function Concat<T>(part: T -> string, xs: seq<T>): string
    decreases |xs|
  {
    if |xs| == 0 then "" else Concat(part, xs[..|xs| - 1]) + part(xs[|xs| - 1])
  }

  lemma {:induction false} ConcatAppend<T>(part: T -> string, a: seq<T>, b: seq<T>)
    ensures Concat(part, a + b) == Concat(part, a) + Concat(part, b)
    decreases |b|
  {
    if |b| == 0 {
      assert a + b == a;
    } else {
      var ab := a + b;
      assert ab[..|ab| - 1] == a + b[..|b| - 1];
      assert ab[|ab| - 1] == b[|b| - 1];
      ConcatAppend(part, a, b[..|b| - 1]);
    }
  }

  /** What each entry of `-fun` writes for the field `f`. */
  function OpPart(s: Settings, structName: Ident, f: FieldInfo): string -> string
  {
    op => OpText(s, structName, f, op)
  }

  /** The inner loop of main.go:248-255 over the entries `ops`. */
  function OpsText(s: Settings, structName: Ident, f: FieldInfo, ops: seq<string>): string
  {
    Concat(OpPart(s, structName, f), ops)
  }

  /** What each field writes for the `-fun` list. */
  function FieldPart(s: Settings, structName: Ident): FieldInfo -> string
  {
    f => OpsText(s, structName, f, s.autoFunc)
  }

  /** The field loop of main.go:247-256. */
  function FieldsText(s: Settings, structName: Ident, infos: seq<FieldInfo>): string
  {
    Concat(FieldPart(s, structName), infos)
  }

  /** Everything written for a struct found in one file (main.go:243-256). */
  function StructText(s: Settings, pkgName: string, structName: Ident, infos: seq<FieldInfo>): string
  {
    Header(s.args, pkgName) + FieldsText(s, structName, infos)
  }

  /** `generate`'s outcome: whether the struct was found in some file and
      the text written for it, or the panic that stopped it. */
  datatype GenResult = GenOk(found: bool, text: string) | GenFailed(failure: Failure)

  /** The file loop of `generate` (main.go:222-260). */
  function GenSpec(s: Settings, pkgName: string, files: seq<SourceFile>, typeName: string): (r: GenResult)
    ensures r.GenOk? && !r.found ==> r.text == ""
    decreases |files|
  {
    if |files| == 0 then GenOk(false, "")
    else
      match GenSpec(s, pkgName, files[..|files| - 1], typeName)
      case GenFailed(e) => GenFailed(e)
      case GenOk(found, text) =>
        match Parse.ParseSpec(files[|files| - 1].specs)
        case Panicked(e) => GenFailed(e)
        case Parsed(m) =>
          if typeName in m then GenOk(true, text + StructText(s, pkgName, typeName, m[typeName]))
          else GenOk(found, text)
  }

  /** The buffers after a `generate` that did not fail. */
  function BufAfter(buf: map<string, string>, typeName: string, found: bool, text: string): map<string, string>
  {
    if found then Append(buf, typeName, text) else buf
  }

  lemma {:induction false} GenFailureStays(s: Settings, pkgName: string, files: seq<SourceFile>, typeName: string, i: nat)
    requires i <= |files| && GenSpec(s, pkgName, files[..i], typeName).GenFailed?
    ensures GenSpec(s, pkgName, files, typeName) == GenSpec(s, pkgName, files[..i], typeName)
    decreases |files|
  {
    if i < |files| {
      var init := files[..|files| - 1];
      assert init[..i] == files[..i];
      GenFailureStays(s, pkgName, init, typeName, i);
    } else {
      assert files[..i] == files;
    }
  }

  /** The entries of `-fun` that `generate` acts on. */
  function Requested(ops: seq<string>): (r: seq<string>)
    ensures forall k :: 0 <= k < |r| ==> r[k] == FunSetter || r[k] == FunGetter
    ensures AllRequested(ops) ==> r == ops
    ensures NoneRequested(ops) ==> r == []
    decreases |ops|
  {
    if |ops| == 0 then [] else Requested(ops[..|ops| - 1]) + Kept(ops[|ops| - 1])
  }

  /** Every entry of `ops` is `set` or `get`. */
  predicate AllRequested(ops: seq<string>)
  {
    forall k :: 0 <= k < |ops| ==> ops[k] == FunSetter || ops[k] == FunGetter
  }

  /** No entry of `ops` is `set` or `get`. */
  predicate NoneRequested(ops: seq<string>)
  {
    forall k :: 0 <= k < |ops| ==> ops[k] != FunSetter && ops[k] != FunGetter
  }

  /** One entry of `-fun` after the filter: itself if it is `set` or `get`. */
  function Kept(op: string): seq<string>
  {
    if op == FunSetter || op == FunGetter then [op] else []
  }

  /** The filter works entry by entry: filtering a concatenation is
      concatenating the filtered parts, so every `set` and `get` entry is
      kept, in order. */
  lemma {:induction false} RequestedConcat(a: seq<string>, b: seq<string>)
    ensures Requested(a + b) == Requested(a) + Requested(b)
    decreases |b|
  {
    if |b| == 0 {
      assert a + b == a;
    } else {
      var ab := a + b;
      assert ab[..|ab| - 1] == a + b[..|b| - 1];
      assert ab[|ab| - 1] == b[|b| - 1];
      calc {
        Requested(ab);
        Requested(a + b[..|b| - 1]) + Kept(b[|b| - 1]);
        { RequestedConcat(a, b[..|b| - 1]); }
        Requested(a) + Requested(b[..|b| - 1]) + Kept(b[|b| - 1]);
        Requested(a) + Requested(b);
      }
    }
  }

  /** Entries of `-fun` other than `set` and `get` write nothing. */
  lemma {:induction false} OpsTextIgnoresOtherEntries(s: Settings, structName: Ident, f: FieldInfo, ops: seq<string>)
    ensures OpsText(s, structName, f, ops) == OpsText(s, structName, f, Requested(ops))
    decreases |ops|
  {
    if |ops| > 0 {
      var init, op := ops[..|ops| - 1], ops[|ops| - 1];
      OpsTextIgnoresOtherEntries(s, structName, f, init);
      if op == FunSetter || op == FunGetter {
        var r := Requested(init) + [op];
        assert r[..|r| - 1] == Requested(init);
      } else {
        assert Requested(ops) == Requested(init);
      }
    }
  }

  /** Each entry of `-fun` writes its own fragment, in order: the text for
      two lists of entries is the text for the first followed by the text
      for the second. */
  lemma OpsTextConcat(s: Settings, structName: Ident, f: FieldInfo, a: seq<string>, b: seq<string>)
    ensures OpsText(s, structName, f, a + b) == OpsText(s, structName, f, a) + OpsText(s, structName, f, b)
  {
    ConcatAppend(OpPart(s, structName, f), a, b);
  }

  /** Fields are written one after another, in order. */
  lemma FieldsTextConcat(s: Settings, structName: Ident, a: seq<FieldInfo>, b: seq<FieldInfo>)
    ensures FieldsText(s, structName, a + b) == FieldsText(s, structName, a) + FieldsText(s, structName, b)
  {
    ConcatAppend(FieldPart(s, structName), a, b);
  }

  /** The output does not depend on the fields' access lists: two field
      lists that agree on names, types and columns give the same text. */
  lemma {:induction false} FieldsTextIgnoresAccess(s: Settings, structName: Ident, a: seq<FieldInfo>, b: seq<FieldInfo>)
    requires |a| == |b|
    requires forall k :: 0 <= k < |a| ==> a[k].name == b[k].name && a[k].typ == b[k].typ && a[k].column == b[k].column
    ensures FieldsText(s, structName, a) == FieldsText(s, structName, b)
    decreases |a|
  {
    if |a| > 0 {
      var n := |a| - 1;
      FieldsTextIgnoresAccess(s, structName, a[..n], b[..n]);
      OpsTextSameField(s, structName, a[n], b[n], s.autoFunc);
    }
  }

  lemma {:induction false} OpsTextSameField(s: Settings, structName: Ident, f: FieldInfo, g: FieldInfo, ops: seq<string>)
    requires f.name == g.name && f.typ == g.typ && f.column == g.column
    ensures OpsText(s, structName, f, ops) == OpsText(s, structName, g, ops)
    decreases |ops|
  {
    if |ops| > 0 {
      OpsTextSameField(s, structName, f, g, ops[..|ops| - 1]);
    }
  }

  /** File `i` parses and declares the struct `typeName`. */
  predicate FoundIn(files: seq<SourceFile>, i: int, typeName: string)
  {
    0 <= i < |files| && Parse.ParseSpec(files[i].specs).Parsed? && typeName in Parse.ParseSpec(files[i].specs).structs
  }

  /** `generate` fails exactly when some file panics. */
  lemma {:induction false} GenFailsIffSomeFilePanics(s: Settings, pkgName: string, files: seq<SourceFile>, typeName: string)
    ensures GenSpec(s, pkgName, files, typeName).GenFailed? <==>
              exists i :: 0 <= i < |files| && Parse.ParseSpec(files[i].specs).Panicked?
    decreases |files|
  {
    if |files| > 0 {
      var n := |files| - 1;
      var init := files[..n];
      GenFailsIffSomeFilePanics(s, pkgName, init, typeName);
      assert forall i :: 0 <= i < n ==> init[i] == files[i];
      var before, last := GenSpec(s, pkgName, init, typeName), Parse.ParseSpec(files[n].specs);
      if before.GenFailed? {
        var i :| 0 <= i < n && Parse.ParseSpec(init[i].specs).Panicked?;
        assert Parse.ParseSpec(files[i].specs).Panicked?;
      } else if last.Panicked? {
        assert GenSpec(s, pkgName, files, typeName).GenFailed?;
      } else {
        assert GenSpec(s, pkgName, files, typeName).GenOk?;
      }
    }
  }

  /** A `generate` that does not fail finds the struct exactly when some
      file declares it (and then writes its header). */
  lemma {:induction false} GenFoundIffDeclared(s: Settings, pkgName: string, files: seq<SourceFile>, typeName: string)
    requires GenSpec(s, pkgName, files, typeName).GenOk?
    ensures GenSpec(s, pkgName, files, typeName).found <==> exists i :: FoundIn(files, i, typeName)
    decreases |files|
  {
    if |files| > 0 {
      var n := |files| - 1;
      var init := files[..n];
      var before, last := GenSpec(s, pkgName, init, typeName), Parse.ParseSpec(files[n].specs);
      assert before.GenOk? && last.Parsed?;
      GenFoundIffDeclared(s, pkgName, init, typeName);
      assert forall i :: 0 <= i < n ==> init[i] == files[i];
      assert forall i :: FoundIn(init, i, typeName) ==> FoundIn(files, i, typeName);
      assert forall i :: FoundIn(files, i, typeName) && i < n ==> FoundIn(init, i, typeName);
      if typeName in last.structs {
        assert FoundIn(files, n, typeName);
      }
    }
  }

  class Generator {
    /** Accumulated output, one buffer per struct name. */
    var buf: map<string, string>
    /** The package being scanned: its name and its parsed files. */
    const pkgName: string
    const files: seq<SourceFile>

    constructor (pkgName: string, files: seq<SourceFile>)
      ensures buf == map[] && this.pkgName == pkgName && this.files == files
    {
      this.pkgName := pkgName;
      this.files := files;
      buf := map[];
    }

    /** `Printf` (main.go:157-164), with `text` the already formatted output. */
    method Printf(structName: string, text: string)
      modifies this
      ensures buf == Append(old(buf), structName, text)
    {
      if structName !in buf {
        buf := buf[structName := ""];
      }
      buf := buf[structName := buf[structName] + text];
    }

    /** One field's fragments, one per entry of `-fun` (main.go:248-255). */
    method EmitField(stName: Ident, field: FieldInfo, s: Settings)
      requires stName in buf
      modifies this
      ensures buf == Append(old(buf), stName, OpsText(s, stName, field, s.autoFunc))
    {
      var ops := s.autoFunc;
      var k := 0;
      assert ops[..0] == [];
      AppendNothing(old(buf), stName);
      while k < |ops|
        invariant 0 <= k <= |ops|
        invariant buf == Append(old(buf), stName, OpsText(s, stName, field, ops[..k]))
      {
        var access := ops[k];
        ghost var done := OpsText(s, stName, field, ops[..k]);
        ghost var frag := OpText(s, stName, field, access);
        assert OpsText(s, stName, field, ops[..k + 1]) == done + frag by {
          assert ops[..k + 1][..k] == ops[..k];
          assert ops[..k + 1][k] == access;
        }
        if access == FunSetter {
          Printf(stName, GenSetter(s.render, s.tpts.setter, stName, field.name, field.column, field.typ) + "\n");
        } else if access == FunGetter {
          Printf(stName, GenGetter(s.render, s.tpts.getter, stName, field.name, field.typ) + "\n");
        } else {
          assert frag == "";
          AppendNothing(buf, stName);
        }
        AppendAppend(old(buf), stName, done, frag);
        k := k + 1;
      }
      assert ops[..k] == ops;
    }

    /** The four writes that open a struct's output (main.go:243-246). */
    method EmitHeader(stName: Ident, args: string)
      modifies this
      ensures buf == Append(old(buf), stName, Header(args, pkgName))
    {
      var l1, l3 := GeneratedLine(args), PackageLine(pkgName);
      Printf(stName, l1);
      Printf(stName, "\n");
      AppendAppend(old(buf), stName, l1, "\n");
      Printf(stName, l3);
      AppendAppend(old(buf), stName, l1 + "\n", l3);
      Printf(stName, "\n");
      AppendAppend(old(buf), stName, l1 + "\n" + l3, "\n");
    }

    /** The field loop of main.go:247-256. */
    method EmitFields(stName: Ident, info: seq<FieldInfo>, s: Settings)
      requires stName in buf
      modifies this
      ensures buf == Append(old(buf), stName, FieldsText(s, stName, info))
    {
      assert info[..0] == [];
      AppendNothing(old(buf), stName);
      var j := 0;
      while j < |info|
        invariant 0 <= j <= |info|
        invariant buf == Append(old(buf), stName, FieldsText(s, stName, info[..j]))
      {
        ghost var done := FieldsText(s, stName, info[..j]);
        ghost var frag := OpsText(s, stName, info[j], s.autoFunc);
        assert FieldsText(s, stName, info[..j + 1]) == done + frag by {
          assert info[..j + 1][..j] == info[..j];
          assert info[..j + 1][j] == info[j];
        }
        EmitField(stName, info[j], s);
        AppendAppend(old(buf), stName, done, frag);
        j := j + 1;
      }
      assert info[..j] == info;
    }

    /** Everything written for a struct found in one file (main.go:243-256). */
    method EmitStruct(stName: Ident, info: seq<FieldInfo>, s: Settings)
      modifies this
      ensures buf == Append(old(buf), stName, StructText(s, pkgName, stName, info))
    {
      EmitHeader(stName, s.args);
      EmitFields(stName, info, s);
      AppendAppend(old(buf), stName, Header(s.args, pkgName), FieldsText(s, stName, info));
    }

    /** `generate` (main.go:220-262): the struct is written once for every
        file in which it is declared; a panic while parsing a file ends it. */
    method Generate(typeName: string, s: Settings) returns (failure: Option<Failure>)
      modifies this
      ensures match GenSpec(s, pkgName, files, typeName)
        case GenFailed(e) => failure == Some(e)
        case GenOk(found, text) => failure == None && buf == BufAfter(old(buf), typeName, found, text)
    {
      var i := 0;
      while i < |files|
        invariant 0 <= i <= |files|
        invariant GenSpec(s, pkgName, files[..i], typeName).GenOk?
        invariant buf == BufAfter(old(buf), typeName, GenSpec(s, pkgName, files[..i], typeName).found,
                                  GenSpec(s, pkgName, files[..i], typeName).text)
      {
        ghost var done := GenSpec(s, pkgName, files[..i], typeName);
        var structInfo := Parse.ParseStruct(files[i]);
        ghost var next := GenSpec(s, pkgName, files[..i + 1], typeName);
        assert files[..i + 1][..i] == files[..i] && files[..i + 1][i] == files[i];
        if structInfo.Panicked? {
          assert next == GenFailed(structInfo.failure);
          GenFailureStays(s, pkgName, files, typeName, i + 1);
          return Some(structInfo.failure);
        }
        if typeName in structInfo.structs {
          var info := structInfo.structs[typeName];
          ghost var st := StructText(s, pkgName, typeName, info);
          assert next == GenOk(true, done.text + st);
          EmitStruct(typeName, info, s);
          if done.found {
            AppendAppend(old(buf), typeName, done.text, st);
          } else {
            assert done.text + st == st;
          }
        } else {
          assert next == done;
        }
        i := i + 1;
      }
      assert files[..i] == files;
      failure := None;
    }
  }
}
