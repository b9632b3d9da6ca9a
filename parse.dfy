/**
 * `ParseStruct` (main.go:297-358): the field model of every struct type
 * declared in one file, keyed by struct name.
 */
module Parse {
  import opened Wrappers
  import opened GoStrings
  import opened Decls
  import Tags

  /** Access of an untagged field: getter and setter when upper-casing the
      first byte leaves it unchanged, the getter alone otherwise (main.go:342-347). */
  function InferAccess(name: Ident): (r: seq<string>)
    ensures IsAscii(name[0]) && !IsAsciiLower(name[0]) ==> r == [FunGetter, FunSetter]
    ensures !IsAscii(name[0]) || IsAsciiLower(name[0]) ==> r == [FunGetter]
  {
    if ToUpperByte(name[0]) == [name[0]] then [FunGetter, FunSetter] else [FunGetter]
  }

  /** What one field of a struct does to the field list being built. */
  datatype Step = Skip | Keep(info: FieldInfo) | Drop | Abort(field: Ident)

  /** main.go:314-349 for a single field. */
  function FieldStep(f: FieldDecl): Step
  {
    if |f.names| == 0 then Skip
    else if f.typeText.None? then Drop
    else
      match f.tag
      case Untagged => Keep(FieldInfo(f.names[0], f.typeText.value, InferAccess(f.names[0]), ""))
      case Unparsable => Drop
      case TagParsed(None) => Abort(f.names[0])
      case TagParsed(Some(v)) => Keep(FieldInfo(f.names[0], f.typeText.value, [], Tags.Column(v)))
  }

  predicate Survives(f: FieldDecl) { FieldStep(f).Skip? || FieldStep(f).Keep? }

  /** The outcome for one struct: its field list, dropped (the callback
      returns before storing it), or a panic at the named field. */
  datatype StructResult = Built(infos: seq<FieldInfo>) | Dropped | Aborted(field: Ident)

  /** The field loop of main.go:314-350 over `fs`, field by field. */
  function StructFields(fs: seq<FieldDecl>): StructResult
    decreases |fs|
  {
    if |fs| == 0 then Built([])
    else
      match StructFields(fs[..|fs| - 1])
      case Built(infos) =>
        (match FieldStep(fs[|fs| - 1])
         case Skip => Built(infos)
         case Keep(info) => Built(infos + [info])
         case Drop => Dropped
         case Abort(name) => Aborted(name))
      case other => other
  }

  datatype ParseResult = Parsed(structs: map<Ident, seq<FieldInfo>>) | Panicked(failure: Failure)

  /** `ast.Inspect` with `collectStructs` over the type specifications of a
      file, in visiting order (main.go:300-355). */
  function ParseSpec(specs: seq<TypeSpec>): ParseResult
    decreases |specs|
  {
    if |specs| == 0 then Parsed(map[])
    else
      var ts := specs[|specs| - 1];
      match ParseSpec(specs[..|specs| - 1])
      case Panicked(e) => Panicked(e)
      case Parsed(m) =>
        if ts.typ.OtherType? then Parsed(m)
        else
          match StructFields(ts.typ.fields)
          case Built(infos) => Parsed(m[ts.name := infos])
          case Dropped => Parsed(m)
          case Aborted(f) => Panicked(NilGormTag(ts.name, f))
  }

  /** Once a field has dropped the struct or panicked, later fields change nothing. */
  lemma {:induction false} StructFieldsFailureStays(fs: seq<FieldDecl>, j: nat)
    requires j <= |fs| && !StructFields(fs[..j]).Built?
    ensures StructFields(fs) == StructFields(fs[..j])
    decreases |fs|
  {
    if j < |fs| {
      var init := fs[..|fs| - 1];
      assert init[..j] == fs[..j];
      StructFieldsFailureStays(init, j);
    } else {
      assert fs[..j] == fs;
    }
  }

  /** Once a struct has panicked, later type specifications change nothing. */
  lemma {:induction false} ParsePanicStays(specs: seq<TypeSpec>, i: nat)
    requires i <= |specs| && ParseSpec(specs[..i]).Panicked?
    ensures ParseSpec(specs) == ParseSpec(specs[..i])
    decreases |specs|
  {
    if i < |specs| {
      var init := specs[..|specs| - 1];
      assert init[..i] == specs[..i];
      ParsePanicStays(init, i);
    } else {
      assert specs[..i] == specs;
    }
  }

  /** The per-struct field loop of main.go:313-350. */
  method CollectFields(fs: seq<FieldDecl>) returns (r: StructResult)
    ensures r == StructFields(fs)
  {
    var fileInfos: seq<FieldInfo> := [];
    var j := 0;
    while j < |fs|
      invariant 0 <= j <= |fs|
      invariant StructFields(fs[..j]) == Built(fileInfos)
    {
      var field := fs[j];
      assert fs[..j + 1][..j] == fs[..j];
      if |field.names| == 0 {
        j := j + 1;
        continue;
      }
      var name := field.names[0];
      if field.typeText.None? {
        StructFieldsFailureStays(fs, j + 1);
        return Dropped;
      }
      var info := FieldInfo(name, field.typeText.value, [], "");
      match field.tag {
        case Untagged =>
          info := info.(access := InferAccess(name));
        case Unparsable =>
          StructFieldsFailureStays(fs, j + 1);
          return Dropped;
        case TagParsed(gorm) =>
          if gorm.None? {
            StructFieldsFailureStays(fs, j + 1);
            return Aborted(name);
          }
          info := info.(column := Tags.Column(gorm.value));
      }
      fileInfos := fileInfos + [info];
      j := j + 1;
    }
    assert fs[..j] == fs;
    r := Built(fileInfos);
  }

  /** `ParseStruct` (main.go:297-358); the panic of main.go:336 ends the walk. */
  method ParseStruct(file: SourceFile) returns (r: ParseResult)
    ensures r == ParseSpec(file.specs)
  {
    var specs := file.specs;
    var structMap: map<Ident, seq<FieldInfo>> := map[];
    var i := 0;
    while i < |specs|
      invariant 0 <= i <= |specs|
      invariant ParseSpec(specs[..i]) == Parsed(structMap)
    {
      var ts := specs[i];
      assert specs[..i + 1][..i] == specs[..i];
      if ts.typ.StructType? {
        var res := CollectFields(ts.typ.fields);
        match res {
          case Built(fileInfos) =>
            structMap := structMap[ts.name := fileInfos];
          case Dropped =>
          case Aborted(f) =>
            ParsePanicStays(specs, i + 1);
            return Panicked(NilGormTag(ts.name, f));
        }
      }
      i := i + 1;
    }
    assert specs[..i] == specs;
    r := Parsed(structMap);
  }

  // ---------------------------------------------------------------------
  // Properties of the field model of one struct

  /** A struct is kept exactly when none of its fields fails. */
  lemma {:induction false} BuiltIffEveryFieldSurvives(fs: seq<FieldDecl>)
    ensures StructFields(fs).Built? <==> forall k :: 0 <= k < |fs| ==> Survives(fs[k])
    decreases |fs|
  {
    if |fs| > 0 {
      var init := fs[..|fs| - 1];
      BuiltIffEveryFieldSurvives(init);
      assert forall k :: 0 <= k < |init| ==> init[k] == fs[k];
    }
  }

  /** The first failing field decides: a printer or tag-parse failure drops
      the struct, a missing `gorm` key panics. */
  lemma {:induction false} FirstFailureDecides(fs: seq<FieldDecl>, k: nat)
    requires k < |fs| && !Survives(fs[k])
    requires forall i :: 0 <= i < k ==> Survives(fs[i])
    ensures FieldStep(fs[k]).Drop? ==> StructFields(fs) == Dropped
    ensures FieldStep(fs[k]).Abort? ==> StructFields(fs) == Aborted(FieldStep(fs[k]).field)
  {
    var pre := fs[..k + 1];
    assert StructFields(fs[..k]).Built? by {
      BuiltIffEveryFieldSurvives(fs[..k]);
      assert forall i :: 0 <= i < k ==> fs[..k][i] == fs[i];
    }
    assert pre[..|pre| - 1] == fs[..k];
    assert pre[|pre| - 1] == fs[k];
    var step := FieldStep(fs[k]);
    if step.Drop? {
      assert StructFields(pre) == Dropped;
    } else {
      assert StructFields(pre) == Aborted(step.field);
    }
    StructFieldsFailureStays(fs, k + 1);
  }

  /** The fields that have names, in declaration order. */
  function Named(fs: seq<FieldDecl>): (r: seq<FieldDecl>)
    ensures forall k :: 0 <= k < |r| ==> |r[k].names| > 0
    decreases |fs|
  {
    if |fs| == 0 then []
    else Named(fs[..|fs| - 1]) + (if |fs[|fs| - 1].names| > 0 then [fs[|fs| - 1]] else [])
  }

  /** `info` is the model of the named field `f`. */
  predicate Describes(info: FieldInfo, f: FieldDecl)
  {
    && |f.names| > 0
    && info.name == f.names[0]
    && f.typeText == Some(info.typ)
    && match f.tag
       case Untagged => info.access == InferAccess(f.names[0]) && info.column == ""
       case Unparsable => false
       case TagParsed(g) => g.Some? && info.access == [] && info.column == Tags.Column(g.value)
  }

  /** A kept struct has one entry per named field, in declaration order,
      named by the field's first identifier; embedded fields contribute
      nothing; a tagged field has no access list and the tag's column, an
      untagged one the inferred access and no column. */
  lemma {:induction false} BuiltFieldsFollowDeclarations(fs: seq<FieldDecl>)
    requires StructFields(fs).Built?
    ensures var infos := StructFields(fs).infos;
      |infos| == |Named(fs)| && forall k :: 0 <= k < |infos| ==> Describes(infos[k], Named(fs)[k])
    decreases |fs|
  {
    if |fs| > 0 {
      var init := fs[..|fs| - 1];
      BuiltFieldsFollowDeclarations(init);
    }
  }

  // ---------------------------------------------------------------------
  // Properties of the struct map of one file

  /** Specification `i` is a struct whose field model was built. */
  predicate BuiltAt(specs: seq<TypeSpec>, i: int)
  {
    0 <= i < |specs| && specs[i].typ.StructType? && StructFields(specs[i].typ.fields).Built?
  }

  /** Specification `i` is a struct whose fields panic. */
  predicate AbortsAt(specs: seq<TypeSpec>, i: int)
  {
    0 <= i < |specs| && specs[i].typ.StructType? && StructFields(specs[i].typ.fields).Aborted?
  }

  /** The walk panics exactly when some struct's first failing field is a
      tagged field without a `gorm` key. */
  lemma {:induction false} PanicIffSomeStructAborts(specs: seq<TypeSpec>)
    ensures ParseSpec(specs).Panicked? <==> exists i :: AbortsAt(specs, i)
    decreases |specs|
  {
    if |specs| > 0 {
      var init := specs[..|specs| - 1];
      PanicIffSomeStructAborts(init);
      assert forall i :: AbortsAt(init, i) ==> AbortsAt(specs, i);
      assert forall i :: AbortsAt(specs, i) && i < |init| ==> AbortsAt(init, i);
      if ParseSpec(init).Parsed? && AbortsAt(specs, |init|) {
        assert ParseSpec(specs).Panicked?;
      }
    }
  }

  /** The map holds exactly the names of the structs that were built. */
  lemma {:induction false} ParsedKeysAreBuilt(specs: seq<TypeSpec>)
    requires ParseSpec(specs).Parsed?
    ensures forall name: Ident :: name in ParseSpec(specs).structs <==> exists i :: BuiltAt(specs, i) && specs[i].name == name
    decreases |specs|
  {
    if |specs| > 0 {
      var n := |specs| - 1;
      var init := specs[..n];
      assert ParseSpec(init).Parsed?;
      ParsedKeysAreBuilt(init);
      assert forall i :: 0 <= i < n ==> (BuiltAt(init, i) <==> BuiltAt(specs, i)) && init[i] == specs[i];
    }
  }

  /** Specification `i` is the last struct built under its name. */
  predicate LastBuiltAt(specs: seq<TypeSpec>, i: int)
  {
    BuiltAt(specs, i) && forall j :: i < j < |specs| && BuiltAt(specs, j) ==> specs[j].name != specs[i].name
  }

  /** Each name maps to the fields of the last struct built under it. */
  lemma {:induction false} ParsedMapIsLastBuilt(specs: seq<TypeSpec>)
    requires ParseSpec(specs).Parsed?
    ensures forall i :: LastBuiltAt(specs, i) ==>
        specs[i].name in ParseSpec(specs).structs &&
        ParseSpec(specs).structs[specs[i].name] == StructFields(specs[i].typ.fields).infos
    decreases |specs|
  {
    if |specs| > 0 {
      var n := |specs| - 1;
      var init := specs[..n];
      assert ParseSpec(init).Parsed?;
      ParsedMapIsLastBuilt(init);
      forall i | LastBuiltAt(specs, i)
        ensures specs[i].name in ParseSpec(specs).structs
        ensures ParseSpec(specs).structs[specs[i].name] == StructFields(specs[i].typ.fields).infos
      {
        if i < n {
          assert init[i] == specs[i];
          assert LastBuiltAt(init, i) by {
            forall j | i < j < n && BuiltAt(init, j) ensures init[j].name != init[i].name {
              assert init[j] == specs[j] && BuiltAt(specs, j);
            }
          }
          if BuiltAt(specs, n) {
            assert specs[n].name != specs[i].name;
          }
        }
      }
    }
  }

  /** A struct that is dropped leaves the map as if it had not been declared. */
  lemma {:induction false} DroppedStructIsInvisible(before: seq<TypeSpec>, d: TypeSpec, after: seq<TypeSpec>)
    requires d.typ.StructType? ==> StructFields(d.typ.fields).Dropped?
    ensures ParseSpec(before + [d] + after) == ParseSpec(before + after)
    decreases |after|
  {
    if |after| == 0 {
      assert (before + [d])[..|before|] == before;
      assert before + [d] + after == before + [d];
      assert before + after == before;
    } else {
      var a := after[..|after| - 1];
      DroppedStructIsInvisible(before, d, a);
      var s1, s2 := before + [d] + after, before + after;
      assert s1[..|s1| - 1] == before + [d] + a;
      assert s2[..|s2| - 1] == before + a;
      assert s1[|s1| - 1] == s2[|s2| - 1];
    }
  }
}
