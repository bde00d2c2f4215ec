// A subset of the TypeScript syntax tree the bundler's visitors look at:
// declarations, imports and exports, blocks, returns and expression
// statements, without control-flow statements or default values.
// A file's content is a sequence of statements; parsing and printing are
// the boundary of the model. Printing is modelled only where the bundler
// reads a node's source text (`getText`): import declarations,
// import-equals declarations and the leading text of expressions.
module Ast {
  import opened Wrappers
  import opened Text

  datatype Modifier = Export | Default | Declare | Async | Abstract | ConstModifier

  datatype VarKind = Var | Let | Const

  /** A module specifier: a string literal with its quote character, or
      another expression given by its source text. */
  datatype Spec = StrSpec(text: string, quote: char) | OtherSpec(raw: string)

  datatype EntityName = Simple(id: string) | Qualified(left: EntityName, right: string)

  datatype Type = TypeRef(name: EntityName, args: seq<Type>) | Keyword(word: string)

  datatype Binding =
    | BindId(name: string)
    | BindObject(elems: seq<BindingElem>)
    | BindArray(elems: seq<BindingElem>)

  datatype BindingElem = BindingElem(propertyName: Option<string>, target: Binding)

  datatype Param = Param(name: Binding, ty: Option<Type>)

  datatype ImportSpec = ImportSpec(isTypeOnly: bool, propertyName: Option<string>, name: string)

  datatype NamedBindings = NamespaceImport(alias: string) | NamedImports(elems: seq<ImportSpec>)

  datatype ImportClause = ImportClause(isTypeOnly: bool, default: Option<string>, bindings: Option<NamedBindings>)

  datatype ModuleRef = External(spec: Spec) | EntityRef(entity: EntityName)

  datatype ExportSpec = ExportSpec(propertyName: Option<string>, name: string)

  datatype VarDecl = VarDecl(name: Binding, ty: Option<Type>, init: Option<Expr>)

  datatype PropSig = PropSig(name: string, ty: Type)

  datatype Stmt =
    | Import(clause: Option<ImportClause>, spec: Spec)
    | ImportEquals(isTypeOnly: bool, alias: string, ref: ModuleRef)
      /** `export { … } [from "m"]`, or `export * from "m"` when `elems` is None. */
    | ExportDecl(isTypeOnly: bool, elems: Option<seq<ExportSpec>>, from: Option<Spec>)
      /** `export default e`, or `export = e` when `isEquals`. */
    | ExportAssign(isEquals: bool, expr: Expr)
    | VarStmt(mods: seq<Modifier>, kind: VarKind, decls: seq<VarDecl>)
    | FuncDecl(mods: seq<Modifier>, fname: Option<string>, params: seq<Param>, ret: Option<Type>, body: seq<Stmt>)
    | ClassDecl(mods: seq<Modifier>, cname: Option<string>, members: seq<Member>)
    | InterfaceDecl(mods: seq<Modifier>, name: string, sigs: seq<PropSig>)
    | TypeAlias(mods: seq<Modifier>, name: string, ty: Type)
    | EnumDecl(mods: seq<Modifier>, name: string, enumMembers: seq<string>)
      /** `namespace N { … }` when `plain` (its flags are exactly Namespace);
          `module N`, `declare namespace N` and nested names otherwise. */
    | Namespace(mods: seq<Modifier>, plain: bool, name: string, body: seq<Stmt>)
    | ExprStmt(expr: Expr)
    | Block(body: seq<Stmt>)
    | Return(value: Option<Expr>)
    | Empty

  datatype Member =
    | Method(name: string, params: seq<Param>, body: seq<Stmt>)
    | Field(name: string, ty: Option<Type>, init: Option<Expr>)

  datatype Expr =
    | Id(name: string)
    | Str(text: string)
    | Num(text: string)
    | Call(callee: Expr, typeArgs: seq<Type>, args: seq<Expr>)
    | New(callee: Expr, typeArgs: seq<Type>, args: seq<Expr>)
    | Prop(obj: Expr, name: string)
    | Arrow(mods: seq<Modifier>, params: seq<Param>, ret: Option<Type>, body: ArrowBody)
    | FuncExpr(fname: Option<string>, params: seq<Param>, fbody: seq<Stmt>)
    | Obj(props: seq<ObjProp>)
    | Arr(elems: seq<Expr>)
    | Binary(op: string, left: Expr, right: Expr)

  datatype ArrowBody = ExprBody(expr: Expr) | BlockBody(stmts: seq<Stmt>)

  datatype PropKey = KeyId(id: string) | KeyStr(text: string)

  datatype ObjProp =
    | PropAssign(key: PropKey, value: Expr)
    | Shorthand(name: string)
    | MethodProp(name: string, params: seq<Param>, body: seq<Stmt>)
    | Spread(expr: Expr)

  // ------------------------------------------------------------ modifiers

  predicate HasMod(mods: seq<Modifier>, m: Modifier) { m in mods }

  /** The modifiers with `export` and `default` filtered out. */
  function DropExportDefault(mods: seq<Modifier>): (r: seq<Modifier>)
    ensures Export !in r && Default !in r
    ensures forall m :: m in r <==> m in mods && m != Export && m != Default
    ensures |r| == |mods| <==> (Export !in mods && Default !in mods)
    ensures |r| <= |mods|
  {
    if mods == [] then []
    else
      var rest := DropExportDefault(mods[1..]);
      if mods[0] == Export || mods[0] == Default then rest else [mods[0]] + rest
  }

  // ------------------------------------------------------------- printing

  /** The source text of a module specifier. */
  function SpecText(s: Spec): string {
    match s
    case StrSpec(t, q) => [q] + t + [q]
    case OtherSpec(raw) => raw
  }

  /** The specifier string `getModuleKeyFromSpecifier` starts from: a string
      literal's value, or the text with one leading and one trailing quote removed. */
  function SpecValue(s: Spec): string {
    match s
    case StrSpec(t, _) => t
    case OtherSpec(raw) => StripQuotes(raw)
  }

  predicate IsQuote(c: char) { c == '"' || c == '\'' }

  /** `raw.replace(/^['"]|['"]$/g, "")`. */
  function StripQuotes(raw: string): (r: string)
    ensures |r| <= |raw|
  {
    var a := if raw != [] && IsQuote(raw[0]) then raw[1..] else raw;
    if a != [] && IsQuote(a[|a| - 1]) then a[..|a| - 1] else a
  }

  function EntityText(e: EntityName): string {
    match e
    case Simple(id) => id
    case Qualified(l, r) => EntityText(l) + "." + r
  }

  function ImportSpecText(e: ImportSpec): string {
    (if e.isTypeOnly then "type " else "")
    + (match e.propertyName case Some(p) => p + " as " case None => "")
    + e.name
  }

  function ImportSpecTexts(es: seq<ImportSpec>): (r: seq<string>)
    ensures |r| == |es|
    ensures forall i :: 0 <= i < |es| ==> r[i] == ImportSpecText(es[i])
  {
    if es == [] then [] else [ImportSpecText(es[0])] + ImportSpecTexts(es[1..])
  }

  /** Named imports print on one line: `{ a, b as c }`, or `{}` when empty. */
  function BindingsText(b: NamedBindings): string {
    match b
    case NamespaceImport(n) => "* as " + n
    case NamedImports(es) => if es == [] then "{}" else "{ " + Join(ImportSpecTexts(es), ", ") + " }"
  }

  function ClauseText(c: ImportClause): string {
    (if c.isTypeOnly then "type " else "")
    + (match c.default case Some(d) => d case None => "")
    + (if c.default.Some? && c.bindings.Some? then ", " else "")
    + (match c.bindings case Some(b) => BindingsText(b) case None => "")
  }

  /** The printed text of an import declaration. */
  function ImportText(clause: Option<ImportClause>, spec: Spec): string {
    match clause
    case None => "import " + SpecText(spec) + ";"
    case Some(c) => "import " + ClauseText(c) + " from " + SpecText(spec) + ";"
  }

  /** The printed text of an import-equals declaration. */
  function ImportEqualsText(isTypeOnly: bool, alias: string, ref: ModuleRef): string {
    "import " + (if isTypeOnly then "type " else "") + alias + " = "
    + (match ref
       case External(s) => "require(" + SpecText(s) + ")"
       case EntityRef(e) => EntityText(e))
    + ";"
  }

  /** The source text of an expression, as far as a prefix test reads it:
      identifiers, literals, property chains, calls and `new` are spelled out;
      other forms are shown by their opening token. */
  function ExprText(e: Expr): string
    decreases e, 0
  {
    match e
    case Id(n) => n
    case Str(t) => "\"" + t + "\""
    case Num(t) => t
    case Call(c, _, _) => OperandText(c) + "(...)"
    case New(c, _, _) => "new " + OperandText(c) + "(...)"
    case Prop(o, n) => OperandText(o) + "." + n
    case Arrow(_, _, _, _) => "(...) => ..."
    case FuncExpr(_, _, _) => "function (...) {...}"
    case Obj(_) => "{...}"
    case Arr(_) => "[...]"
    case Binary(op, l, r) => ExprText(l) + " " + op + " " + ExprText(r)
  }

  /** An operand of `.`, a call or `new`: arrows and binary expressions sit in parentheses. */
  function OperandText(e: Expr): string
    decreases e, 1
  {
    if e.Arrow? || e.Binary? then "(" + ExprText(e) + ")" else ExprText(e)
  }

  // ----------------------------------------------------------- cleaning

  /** Deleting the lines that hold only `;` after printing removes the top-level
      empty statements: the printer writes each top-level statement on its own
      line at column 0, and nested ones indented. */
  function DropTopEmpty(m: seq<Stmt>): (r: seq<Stmt>)
    ensures Empty !in r
    ensures forall s :: s in r <==> s in m && s != Empty
    ensures |r| <= |m|
  {
    if m == [] then []
    else if m[0] == Empty then DropTopEmpty(m[1..])
    else [m[0]] + DropTopEmpty(m[1..])
  }

  lemma DropTopEmptyNoop(m: seq<Stmt>)
    requires Empty !in m
    ensures DropTopEmpty(m) == m
  {
  }
}
