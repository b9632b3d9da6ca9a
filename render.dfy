/**
 * Template choice (main.go:111-137, 271-287) and the substitution maps
 * handed to `text/template` (main.go:360-381).
 *
 * `text/template` itself is not modelled: a `Renderer` stands for parsing a
 * template text and executing it with a map, and yields whatever text
 * `Execute` wrote (its error is ignored at main.go:362 and main.go:374).
 */
module Render {
  import opened Wrappers
  import opened GoStrings
  import opened Decls

  type Renderer = (string, map<string, string>) -> string

  /** The getter and setter template texts. */
  datatype Templates = Templates(getter: string, setter: string)

  const GetterFile: string := "sloth_getter.tmp"
  const SetterFile: string := "sloth_setter.tmp"

  datatype Slot = GetterSlot | SetterSlot

  /** A template file goes to the getter slot when its name contains `get`
      (main.go:131-135). */
  function SlotOf(fileName: string): (s: Slot)
    ensures s == GetterSlot <==> exists i :: OccursAt(fileName, FunGetter, i)
  {
    if Contains(fileName, FunGetter) then GetterSlot else SetterSlot
  }

  /** The two reserved file names land in their own slots. */
  lemma ReservedFileSlots()
    ensures SlotOf(GetterFile) == GetterSlot
    ensures SlotOf(SetterFile) == SetterSlot
  {
    assert OccursAt(GetterFile, FunGetter, 6);
    forall i ensures !OccursAt(SetterFile, FunGetter, i) {
      if 0 <= i && i + 3 <= |SetterFile| {
        assert SetterFile[i..i + 3][0] == SetterFile[i];
        assert SetterFile[i] != 'g';
      }
    }
  }

  /** The override texts the run ends up with: none without a directory;
      otherwise both reserved files must be readable, the getter file being
      read first. `read` gives the contents of a file of the directory. */
  function OverrideTemplates(mod: string, read: string -> Option<string>): Result<Templates, Failure>
  {
    if mod == "" then Ok(Templates("", ""))
    else if read(GetterFile).None? then Err(UnreadableTemplate(GetterFile))
    else if read(SetterFile).None? then Err(UnreadableTemplate(SetterFile))
    else Ok(Templates(read(GetterFile).value, read(SetterFile).value))
  }

  /** `isCustomTemplate` (main.go:111-137): the overrides start empty and
      each reserved file fills the slot its name selects. */
  method LoadCustomTemplates(mod: string, read: string -> Option<string>) returns (r: Result<Templates, Failure>)
    ensures r == OverrideTemplates(mod, read)
  {
    if mod == "" {
      return Ok(Templates("", ""));
    }
    ReservedFileSlots();
    var customGetter, customSetter := "", "";
    var tmps := [GetterFile, SetterFile];
    var k := 0;
    while k < |tmps|
      invariant 0 <= k <= |tmps|
      invariant k >= 1 ==> read(GetterFile).Some? && customGetter == read(GetterFile).value
      invariant k == 2 ==> read(SetterFile).Some? && customSetter == read(SetterFile).value
    {
      var tmp := tmps[k];
      var redr := read(tmp);
      if redr.None? {
        return Err(UnreadableTemplate(tmp));
      }
      var tp := redr.value;
      assert tmp == if k == 0 then GetterFile else SetterFile;
      if SlotOf(tmp) == GetterSlot {
        customGetter := tp;
      } else {
        customSetter := tp;
      }
      k := k + 1;
    }
    r := Ok(Templates(customGetter, customSetter));
  }

  /** `getTemplate` (main.go:271-287). Both slots take the override texts
      exactly when the setter override is non-empty: the getter slot is
      keyed on the setter override too. */
  function GetTemplate(custom: Templates, defaults: Templates): (r: Templates)
    ensures custom.setter != "" ==> r == custom
    ensures custom.setter == "" ==> r == defaults
  {
    Templates(if custom.setter != "" then custom.getter else defaults.getter,
              if custom.setter != "" then custom.setter else defaults.setter)
  }

  /** With readable override files, the getter file's text is used exactly
      when the setter file is non-empty, whatever the getter file holds. */
  lemma OverrideGetterNeedsSetterFile(mod: string, read: string -> Option<string>, defaults: Templates)
    requires mod != "" && read(GetterFile).Some? && read(SetterFile).Some?
    ensures OverrideTemplates(mod, read).Ok?
    ensures var tpts := GetTemplate(OverrideTemplates(mod, read).value, defaults);
      (read(SetterFile).value != "" ==> tpts == Templates(read(GetterFile).value, read(SetterFile).value)) &&
      (read(SetterFile).value == "" ==> tpts == defaults)
  {
  }

  /** The receiver name: `strings.ToLower` of the struct name's first byte
      (main.go:363, 375). */
  function Receiver(structName: Ident): string
  {
    ToLowerByte(structName[0])
  }

  /** The map given to the setter template (main.go:362-368). */
  function SetterVars(structName: Ident, fieldName: string, column: string, typeName: string): map<string, string>
  {
    map["Receiver" := Receiver(structName), "Struct" := structName, "Field" := fieldName,
        "Type" := typeName, "Column" := column]
  }

  /** The map given to the getter template (main.go:374-379). */
  function GetterVars(structName: Ident, fieldName: string, typeName: string): map<string, string>
  {
    map["Receiver" := Receiver(structName), "Struct" := structName, "Field" := fieldName,
        "Type" := typeName]
  }

  /** The setter template sees the receiver, the struct, the field, its
      type and its column, under those five names and no others. */
  lemma SetterVarsEntries(structName: Ident, fieldName: string, column: string, typeName: string)
    ensures var m := SetterVars(structName, fieldName, column, typeName);
      && m.Keys == {"Receiver", "Struct", "Field", "Type", "Column"}
      && m["Receiver"] == Receiver(structName) && m["Struct"] == structName
      && m["Field"] == fieldName && m["Type"] == typeName && m["Column"] == column
  {
  }

  /** The getter map is the setter map without its `Column` entry, so a
      getter never sees the field's column. */
  lemma GetterVarsOmitColumn(structName: Ident, fieldName: string, column: string, typeName: string)
    ensures GetterVars(structName, fieldName, typeName) == SetterVars(structName, fieldName, column, typeName) - {"Column"}
  {
    var g, s := GetterVars(structName, fieldName, typeName), SetterVars(structName, fieldName, column, typeName) - {"Column"};
    SetterVarsEntries(structName, fieldName, column, typeName);
    assert g.Keys == s.Keys;
  }

  /** The receiver is the struct name's first byte lower-cased the way
      `strings.ToLower` does it: an ASCII upper-case letter becomes its
      lower-case letter, any other ASCII byte stays, and a byte of 0x80 or
      more becomes U+FFFD. */
  lemma ReceiverLowersFirstByte(structName: Ident)
    ensures IsAsciiUpper(structName[0]) ==> Receiver(structName) == [(structName[0] as int + 32) as char]
    ensures IsAscii(structName[0]) && !IsAsciiUpper(structName[0]) ==> Receiver(structName) == [structName[0]]
    ensures !IsAscii(structName[0]) ==> Receiver(structName) == Replacement
  {
  }

  /** The setter text is the setter template executed on a map that holds
      exactly the receiver, struct, field, type and column. */
  lemma GenSetterSeesField(render: Renderer, tpt: string, structName: Ident, fieldName: string, column: string, typeName: string)
    ensures exists m: map<string, string> ::
      && GenSetter(render, tpt, structName, fieldName, column, typeName) == render(tpt, m)
      && m.Keys == {"Receiver", "Struct", "Field", "Type", "Column"}
      && m["Receiver"] == ToLowerByte(structName[0]) && m["Struct"] == structName
      && m["Field"] == fieldName && m["Type"] == typeName && m["Column"] == column
  {
    SetterVarsEntries(structName, fieldName, column, typeName);
    var m := SetterVars(structName, fieldName, column, typeName);
    assert GenSetter(render, tpt, structName, fieldName, column, typeName) == render(tpt, m);
  }

  /** The getter text is the getter template executed on the setter's map
      without its `Column` entry, whatever the field's column is. */
  lemma GenGetterSeesNoColumn(render: Renderer, tpt: string, structName: Ident, fieldName: string, column: string, typeName: string)
    ensures GenGetter(render, tpt, structName, fieldName, typeName) ==
      render(tpt, SetterVars(structName, fieldName, column, typeName) - {"Column"})
  {
    GetterVarsOmitColumn(structName, fieldName, column, typeName);
  }

  /** `genSetter` (main.go:360-370). */
  function GenSetter(render: Renderer, tpt: string, structName: Ident, fieldName: string, column: string, typeName: string): string
  {
    render(tpt, SetterVars(structName, fieldName, column, typeName))
  }

  /** `genGetter` (main.go:372-381). */
  function GenGetter(render: Renderer, tpt: string, structName: Ident, fieldName: string, typeName: string): string
  {
    render(tpt, GetterVars(structName, fieldName, typeName))
  }
}
