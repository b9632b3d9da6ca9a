/**
 * What the generator receives from Go's loader and parser, and the field
 * model it builds (main.go:289-295).
 *
 * `go/printer` and `structtag` are not modelled: a field carries the text
 * the printer would produce (or `None` when it fails) and the outcome of
 * parsing its tag.
 */
module Decls {
  import opened Wrappers

  /** A Go identifier as go/ast hands it over: never empty. */
  type Ident = s: string | |s| > 0 witness "_"

  /** The tag of a struct field. */
  datatype TagDecl =
    | Untagged                          // field.Tag == nil
    | Unparsable                        // structtag.Parse failed
    | TagParsed(gorm: Option<string>)   // Value() of the `gorm` key, None when tags.Get fails

  /** One line of a struct's field list: `a, b T `tag``. An embedded field has no names. */
  datatype FieldDecl = FieldDecl(names: seq<Ident>, typeText: Option<string>, tag: TagDecl)

  datatype TypeExpr = StructType(fields: seq<FieldDecl>) | OtherType

  /** A `type Name ...` specification. */
  datatype TypeSpec = TypeSpec(name: Ident, typ: TypeExpr)

  /** A parsed file: its type specifications in the order `ast.Inspect` visits them. */
  datatype SourceFile = SourceFile(specs: seq<TypeSpec>)

  /** `StructFieldInfo` (main.go:289-294). */
  datatype FieldInfo = FieldInfo(name: Ident, typ: string, access: seq<string>, column: string)

  /** Everything that ends a run of the generator. */
  datatype Failure =
    | UsageError                                     // -out not given (main.go:57-60)
    | UnreadableTemplate(file: string)               // panic in isCustomTemplate (main.go:124-127)
    | NilGormTag(structName: Ident, field: Ident)    // nil dereference at main.go:335-336
    | MissingBuffer(typeName: string)                // panic at main.go:97-100

  const FunGetter: string := "get"
  const FunSetter: string := "set"
}
