# sloth: a model of the accessor generator

sloth reads the struct types of a Go package and writes getter and setter
methods for their fields. The text of each method comes from a
`text/template`, either built in or overridden from a directory given with
`-mod`. This project models the core of `main.go`:

- **`ParseStruct`** builds, for one parsed file, a map from struct name to
  the ordered list of its field models (`StructFieldInfo`). Embedded fields
  are skipped. The first identifier of a field names it. A tagged field
  takes its column from the `gorm` tag. An untagged field gets an access
  list inferred from the case of its first byte.
- **The column pattern** `column:([\w]+);?` is modelled as a small
  leftmost-first matcher.
- **`Generator.Printf` and `generate`** append to one lazily created buffer
  per struct name. For every file that declares the requested struct,
  `generate` writes a four-line header and then one fragment per field and
  per `set`/`get` entry of `-fun`.
- **The smaller pieces:**
  - `isCustomTemplate` picks a slot for each template file by its name.
  - `getTemplate` chooses between the override templates and the built-in
    ones.
  - `genSetter` and `genGetter` build the substitution maps.
  - `main` splits `-out` and `-fun` on commas, names each output file and
    fails on a missing buffer.

The modules follow the program's structure:

| file | contents |
|---|---|
| `wrappers.dfy` | `Option`, `Result` |
| `gostrings.dfy` | the parts of Go's `strings` package that are used |
| `tags.dfy` | the column pattern |
| `decls.dfy` | parser output and field models |
| `parse.dfy` | `ParseStruct` |
| `render.dfy` | template choice and substitution maps |
| `generator.dfy` | the `Generator` class and `generate` |
| `run.dfy` | `main`'s loop over the requested types |

Each imperative part of the source is a Dafny method. `ParseStruct`, the
field loop inside it, `isCustomTemplate`, `generate` and `main`'s loop are
methods with loops. `Printf` is a method without a loop that updates the
generator's buffers. Each method is proved equal to a specification
function. The specification functions of the loops (`StructFields`,
`ParseSpec`, `Concat`, `GenSpec` and `TypesLoop`) are built by recursion on
the prefix that the loop has already handled. The others (`OverrideTemplates`
for `isCustomTemplate`, `Append` for `Printf`, `Header` and `StructText` for
the header and struct writes) are plain definitions. The lemmas state what
the source promises about these functions.

How the model represents its inputs:

- **Strings.** A Go string is a Dafny `string` with one char per byte.
  `strings.ToUpper` and `strings.ToLower` of one byte follow Go: a byte of
  0x80 or more is not valid UTF-8 on its own, so it becomes U+FFFD
  (`EF BF BD`).
- **Foreign parts.** `go/printer`, `structtag` and the package loader are
  inputs:
  - a field carries its printed type, or `None` if the printer fails;
  - a field's tag is one of: absent, unparsable, or parsed with or without
    a `gorm` value;
  - a file is its type specifications in the order `ast.Inspect` visits
    them.
- **Templates and files.** Template execution is a function parameter
  `render`. Reading the override directory is a function parameter `read`.
- **Failures.** Every panic and exit that the model keeps is a `Failure`
  value. Three are not modelled: `template.Must` panicking
  (main.go:274-283), `log.Fatalf` on a failed write (main.go:104) and the
  `filepath.Abs` panic (main.go:117).

Behaviour of `main.go` worth knowing, which the model follows:

- **A failing field affects only its own struct, or panics.**
  - If the type printer or `structtag.Parse` fails, only that struct is
    dropped (`return true` at main.go:325 and main.go:333). Other structs
    in the file are kept, and there is no error.
  - A tag without a `gorm` key panics. `tags.Get` returns a nil tag, which
    is then dereferenced at main.go:336. This is `NilGormTag`.
- **Access lists are never used.** A tagged field gets no access list. The
  access list is never consulted when output is written: the `-fun` list
  alone decides.
- **The getter slot follows the setter override.** It takes the override
  text only when the setter override is non-empty (main.go:273).
- **Repeated structs are concatenated, not overwritten.**
  - Suppose a struct is declared in several files. Then `generate` writes
    the header and fields once per file, into the same buffer.
  - Suppose a type appears twice in `-out`. Its buffer is not reset, so the
    second file written holds the text twice.
  - A later struct of the same name within one file does overwrite the
    earlier one (main.go:351).
- **Earlier output stays on disk.** Files already written when a later
  type fails are not removed. `Run` returns them together with the failure.

## Model

| member | source | states |
|---|---|---|
| GoStrings.ToUpperByte | main.go:342-343 | upper-casing one byte leaves it unchanged exactly when it is ASCII and not a lower-case letter; an ASCII byte stays one non-lower-case byte |
| GoStrings.ToLowerByte | main.go:363 | lower-casing one byte leaves it unchanged exactly when it is ASCII and not upper case; an ASCII byte gives one non-upper-case byte with the same upper case; any other byte gives U+FFFD |
| GoStrings.AsciiLower | main.go:95 | lower-casing keeps the length, turns each upper-case ASCII letter into its lower-case letter (32 higher) and keeps every other byte |
| GoStrings.Contains | main.go:131 | `strings.Contains` is true exactly when the substring occurs at some index |
| GoStrings.Split | main.go:61-62 | `strings.Split` yields at least one piece and no piece contains the separator |
| GoStrings.JoinSplit | main.go:61-62 | joining the pieces of a split with the separator gives back the original string |
| GoStrings.SplitJoin | main.go:61-62 | splitting a join of separator-free pieces gives back exactly those pieces |
| Tags.FindColumnFrom | main.go:33 | a capture found from an index is a non-empty run of word characters |
| Tags.Column | main.go:336-339 | the column is made of word characters only; `ColumnIsLeftmostCapture` says which run |
| Tags.WordRun | main.go:33 | the greedy group `[\w]+` captures a prefix made only of word characters that no further word character follows |
| Tags.FindColumnFromIsLeftmost | main.go:336 | the search from an index finds nothing exactly when no match starts there or later, and otherwise captures at the first match |
| Tags.ColumnIsLeftmostCapture | main.go:336-339 | the column is empty exactly when the pattern does not match, and otherwise is the maximal word run after the leftmost `column:` followed by a word character |
| Tags.LeftmostMatch | main.go:336 | when a match starts at or after an index, there is a first one |
| Tags.WordRunOfPrefix | main.go:33 | the capture stops exactly at the first non-word character |
| Tags.ColumnOfLeadingKey | main.go:336-339 | a value that starts with `column:`, then a non-empty word run, then a non-word character or nothing, gives exactly that word run |
| Tags.ColumnOfProvinceId | example/foo.go:16 | the full `gorm` value of that field, its comment written as its UTF-8 bytes, gives the column `province_id` |
| Tags.ColumnOfNoColumn | main.go:337-339 | every `gorm` value in which `column:` occurs nowhere leaves the column empty |
| Parse.InferAccess | main.go:341-347 | an untagged field whose first byte is ASCII and not a lower-case letter gets `[get, set]`; any other gets `[get]` |
| Parse.StructFieldsFailureStays | main.go:322-336 | once a field has dropped the struct or panicked, later fields change nothing |
| Parse.ParsePanicStays | main.go:335-336 | once a struct has panicked, later declarations change nothing |
| Parse.CollectFields | main.go:313-350 | the field loop returns exactly the field-by-field specification: the kept list, a drop, or the panicking field |
| Parse.ParseStruct | main.go:297-358 | the walk over a file's declarations returns exactly the declaration-by-declaration specification of the struct map |
| Parse.BuiltIffEveryFieldSurvives | main.go:314-349 | a struct is kept exactly when every one of its fields is embedded or parses |
| Parse.FirstFailureDecides | main.go:322-336 | the first failing field decides: a printer or tag-parse failure drops the struct, a missing `gorm` key panics at that field |
| Parse.BuiltFieldsFollowDeclarations | main.go:314-349 | a kept struct has one entry per named field, in declaration order, named by its first identifier; a tagged field has no access list and the tag's column, an untagged one the inferred access and no column |
| Parse.PanicIffSomeStructAborts | main.go:335-336 | parsing a file panics exactly when some struct's first failing field is a tagged field without a `gorm` key |
| Parse.ParsedKeysAreBuilt | main.go:351 | the map's keys are exactly the names of the kept structs |
| Parse.ParsedMapIsLastBuilt | main.go:351 | each kept struct that no later kept struct of the same name follows is in the map with its own fields: the last one wins |
| Parse.DroppedStructIsInvisible | main.go:322-334 | a dropped struct leaves the map as if it were not declared, so other structs are unaffected |
| Render.SlotOf | main.go:131-135 | a template file goes to the getter slot exactly when its name contains `get` |
| Render.ReservedFileSlots | main.go:121-135 | `sloth_getter.tmp` goes to the getter slot and `sloth_setter.tmp` to the setter slot |
| Render.LoadCustomTemplates | main.go:111-137 | loading gives no overrides without `-mod`; otherwise it fails on the first unreadable reserved file, and gives both files' contents when both are readable |
| Render.GetTemplate | main.go:271-287 | both slots take the override texts when the setter override is non-empty, and both take the defaults otherwise |
| Render.OverrideGetterNeedsSetterFile | main.go:271-287 | with readable override files, the getter override is used exactly when the setter file is non-empty, whatever the getter file holds |
| Render.ReceiverLowersFirstByte | main.go:363 | the receiver is the struct name's first byte lower-cased: an upper-case letter becomes its lower-case letter, another ASCII byte stays, a non-ASCII byte becomes U+FFFD |
| Render.SetterVarsEntries | main.go:362-368 | the setter map has the keys Receiver, Struct, Field, Type and Column, holding the receiver, struct name, field name, type and column |
| Render.GetterVarsOmitColumn | main.go:360-381 | the getter map is the setter map without its Column entry: the same receiver, struct, field and type, and no column |
| Render.GenSetterSeesField | main.go:360-370 | `genSetter` executes the template on a map with exactly the keys Receiver, Struct, Field, Type and Column, holding the lower-cased first byte, the struct name, the field name, its type and its column |
| Render.GenGetterSeesNoColumn | main.go:372-381 | `genGetter` executes the template on the setter's map without its Column entry |
| Gen.Append | main.go:157-164 | a write leaves the buffer holding its old text, or nothing if it was missing, followed by the new text |
| Gen.AppendLeavesOthers | main.go:157-164 | a write to one buffer creates or changes no other buffer |
| Gen.AppendAppend | main.go:163 | two writes to one buffer equal one write of both texts in order |
| Gen.AppendNothing | main.go:163 | writing nothing to an existing buffer changes nothing |
| Gen.GenSpec | main.go:222-260 | a `generate` that does not find the struct writes nothing |
| Gen.GenFailureStays | main.go:233 | once a file has panicked, later files change nothing |
| Gen.OpTextPicksTemplate | main.go:249-254 | a `set` entry writes the setter template's output and a newline, a `get` entry the getter's, and any other entry nothing |
| Gen.Requested | main.go:249-254 | the entries of `-fun` that are acted on are only `set` and `get`; a list of only those is kept whole, and a list with none of them gives nothing |
| Gen.RequestedConcat | main.go:248-255 | the filter works entry by entry: filtering a concatenation concatenates the filtered parts, so every `set` and `get` entry is kept, in order |
| Gen.OpsTextIgnoresOtherEntries | main.go:248-255 | entries of `-fun` other than `set` and `get` write nothing |
| Gen.OpsTextConcat | main.go:248-255 | each entry of `-fun` writes its own fragment, in order |
| Gen.FieldsTextConcat | main.go:247-256 | fields are written one after another, in order |
| Gen.FieldsTextIgnoresAccess | main.go:247-256 | the output does not depend on the fields' access lists |
| Gen.GenFailsIffSomeFilePanics | main.go:233 | `generate` fails exactly when some file of the package panics during parsing |
| Gen.GenFoundIffDeclared | main.go:239-246 | a `generate` that does not fail finds the struct exactly when some file declares it |
| Gen.Generator.constructor | main.go:73-77 | a new generator has no buffers |
| Gen.Generator.Printf | main.go:157-164 | `Printf` changes the buffers exactly as `Append` does |
| Gen.Generator.EmitField | main.go:248-255 | one field appends one fragment per `-fun` entry to the struct's buffer and changes nothing else |
| Gen.Generator.EmitHeader | main.go:243-246 | the four header writes append the generated-code line, a blank line, the package clause and a blank line |
| Gen.Generator.EmitFields | main.go:247-256 | the field loop appends each field's fragments in declaration order |
| Gen.Generator.EmitStruct | main.go:243-256 | a found struct appends the header, a blank line, the package clause, a blank line, then its fields' fragments |
| Gen.Generator.Generate | main.go:220-262 | `generate` either fails with the first file's panic, or appends the specified text once per declaring file; buffers stay unchanged if it is found nowhere |
| GoStrings.AsciiLowerKeepsSuffix | main.go:94-95 | lower-casing the base name leaves the `_sloth.go` suffix as it is |
| Sloth.OutputName | main.go:92-96 | with `-output` every type goes to that path; otherwise to `<lower-cased type>_sloth.go` in the input directory |
| Sloth.LoopFailureStays | main.go:97-100 | once a type has failed, later types neither write nor change the failure |
| Sloth.LoopBuffersAreFoundTypes | main.go:97-100 | a buffer exists only for a type that `generate` found |
| Sloth.LengthOfWrites | main.go:89-106 | at most one file is written per requested type |
| Sloth.NotFoundStopsLoop | main.go:97-100 | a requested type that `generate` does not find stops the run, at the latest when its turn comes, before its file is written |
| Sloth.StepAppends | main.go:90-102 | an iteration that does not fail found its type, appended the generated text to its buffer, and wrote that buffer |
| Sloth.AppendKeepsBuffers | main.go:97-101 | appending a found type's text once more to its buffer keeps every buffer equal to its text repeated once per request, now counting one more request of that type |
| Sloth.StepKeepsBuffers | main.go:90-102 | an iteration that does not fail keeps that invariant for the list extended by its type |
| Sloth.CompleteLoopBuffers | main.go:89-106 | after a run that does not fail, exactly the requested types have buffers, and each holds its type's text once per request of that type (buffers are never reset) |
| Sloth.CompleteLoopWrites | main.go:89-106 | a run that does not fail writes one file per requested type, in order, each named by `OutputName` and holding the text repeated once per request so far |
| Sloth.AbsentTypeIsFatal | main.go:97-100 | a requested type that no file parses and declares (a file that panics while parsing declares nothing) makes the run fail rather than write an empty file |
| Sloth.CompleteRunWrites | main.go:57-106 | a successful run had `-out` set and readable overrides, and wrote one file per `-out` entry, as `CompleteLoopWrites` describes |
| Sloth.Run | main.go:57-106 | `main` from the `-out` check onward writes exactly the files, and ends with exactly the failure, that the run specification gives |

## Left out

- Flag parsing, `Usage` and `os.Exit` (main.go:29-60): the four flags and the echoed `os.Args[1:]` are the fields of `Invocation`. Only the empty `-out` check is modelled, as `UsageError`.
- `isDirectory` and the choice of directory (main.go:78-82, 140-146): file-system queries. The directory is part of `Package`.
- `parsePackage` and `addPackage` (main.go:183-217): the loader and type checker are foreign code. Their output is `Package`, the package name plus the parsed files.
- `filepath.Abs` and the path rewriting in `isCustomTemplate` (main.go:115-123): path handling. `read` takes the reserved file name.
- `ioutil.ReadFile` and `ioutil.WriteFile` (main.go:102-105, 124): I/O. Reading is the parameter `read`; a write is a `Write` value returned in order. A failing write is not modelled.
- `filepath.Join` (main.go:95): path handling. `OutputPath.InDir` keeps the directory and the base name apart.
- `text/template` parsing and execution (main.go:271-287, 360-381): foreign code. `template.Must` panicking on a malformed template is not modelled. Execution is the parameter `render`, and its ignored error is not modelled.
- `fmt.Sprintf` formatting: the model writes already formatted text. The only format used on field fragments is `"%s\n"`.
- `go/printer` and `structtag`: foreign code. Only their outcomes are inputs.
- The `reflect.TypeOf(file).Kind()` test (main.go:315-316): `file` is a pointer, so the test never fires and only the empty name list matters.
- The error branch after `ParseStruct` (main.go:234-237): `ParseStruct` never returns an error, so the branch and its `fmt.Println` at main.go:235 cannot be reached.
- The message `fmt.Println` prints on a type-printer failure (main.go:324): standard output is not modelled. The field step only records the drop of the struct.
- The `walkMark`, `pkg.defs` and `File.typeName` fields: they are written but never read by the core.
- The `structInfo` field of `Generator`: it is never written. Its initialisation at main.go:75 is commented out, and the `structInfo` at main.go:233 is a local variable.
- Concurrency: there is none.
- Sloth.OutputName: lower-cases ASCII letters only. `strings.ToLower` decodes non-ASCII bytes as UTF-8, and its result for non-ASCII type names is not modelled.
- Sloth.AbsentTypeIsFatal: says only that the run fails. The failure is `MissingBuffer` unless an earlier type, or a panic while parsing, failed first.
