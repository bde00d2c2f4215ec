// The helpers of src/utils.ts the bundler relies on: `isInsideNamespace`
// (a walk up the parent chain), `checkModuleType` (a flag-setting walk over
// a file that classifies it as ES module or CommonJS) and `findProperty`.
module Utils {
  import opened Wrappers
  import opened Text
  import opened Ast
  import opened Walk

  // ------------------------------------------------------ isInsideNamespace

  /** An ancestor of a node, as `isInsideNamespace` tells them apart: a
      module declaration, with whether its flags are exactly
      `NodeFlags.Namespace`, or any other node. */
  datatype Ancestor = ModuleDeclaration(exactlyNamespace: bool) | OtherNode

  predicate IsPlainNamespace(a: Ancestor) {
    a.ModuleDeclaration? && a.exactlyNamespace
  }

  ghost predicate SomePlainNamespace(parents: seq<Ancestor>) {
    exists i :: 0 <= i < |parents| && IsPlainNamespace(parents[i])
  }

  /** `isInsideNamespace(n)`: `parents` lists `n.parent`, its parent, and so
      on up to the source file. */
  method IsInsideNamespace(parents: seq<Ancestor>) returns (r: bool)
    ensures r <==> SomePlainNamespace(parents)
  {
    var i := 0;
    while i < |parents|
      invariant 0 <= i <= |parents|
      invariant forall j :: 0 <= j < i ==> !IsPlainNamespace(parents[j])
    {
      if IsPlainNamespace(parents[i]) {
        return true;
      }
      i := i + 1;
    }
    return false;
  }

  /** The flag a walk from the root carries down a path of ancestors, root
      first: set on entering a plain namespace, never cleared (the `inNs ||
      plain` step of the traversal). */
  function DescentFlag(path: seq<Ancestor>): bool
    decreases |path|
  {
    if path == [] then false
    else DescentFlag(path[..|path| - 1]) || IsPlainNamespace(path[|path| - 1])
  }

  function Reverse(s: seq<Ancestor>): (r: seq<Ancestor>)
    ensures |r| == |s|
    ensures forall i :: 0 <= i < |s| ==> r[i] == s[|s| - 1 - i]
  {
    if s == [] then [] else Reverse(s[1..]) + [s[0]]
  }

  /** The flag the traversal carries agrees with walking the parent chain
      upwards: the chain is the path reversed. */
  lemma {:induction false} DescentFlagIsInside(path: seq<Ancestor>)
    ensures DescentFlag(path) <==> SomePlainNamespace(Reverse(path))
    decreases |path|
  {
    if path != [] {
      var front := path[..|path| - 1];
      DescentFlagIsInside(front);
      var r := Reverse(path);
      if DescentFlag(path) {
        if IsPlainNamespace(path[|path| - 1]) {
          assert r[0] == path[|path| - 1];
        } else {
          var i :| 0 <= i < |front| && IsPlainNamespace(Reverse(front)[i]);
          assert r[i + 1] == Reverse(front)[i];
        }
      } else {
        forall i | 0 <= i < |r| ensures !IsPlainNamespace(r[i]) {
          if i > 0 {
            assert r[i] == Reverse(front)[i - 1];
          }
        }
      }
    }
  }

  // -------------------------------------------------------- checkModuleType

  /** The two flags of the walk. */
  datatype Syntax = Syntax(esm: bool, cjs: bool)

  /** The result object of `checkModuleType`. */
  datatype ModuleType = ModuleType(isCommonJs: bool, isEsm: bool)

  predicate ExportedDeclaration(s: Stmt) {
    match s
    case VarStmt(mods, _, _) => Export in mods
    case FuncDecl(mods, _, _, _, _) => Export in mods
    case InterfaceDecl(mods, _, _) => Export in mods
    case TypeAlias(mods, _, _) => Export in mods
    case EnumDecl(mods, _, _) => Export in mods
    case ClassDecl(mods, _, _) => Export in mods
    case _ => false
  }

  /** Import and export syntax at a statement; an export specifier only
      occurs inside an export declaration, which counts already. */
  predicate EsmStatement(s: Stmt) {
    s.Import? || s.ImportEquals? || s.ExportDecl? || s.ExportAssign? || ExportedDeclaration(s)
  }

  /** `require(…)` with an argument, or a property access whose text starts
      with `module.exports` or `exports.`. */
  predicate CjsExpression(e: Expr) {
    || (e.Call? && e.callee == Id("require") && |e.args| > 0)
    || (e.Prop? && (StartsWith(ExprText(e), "module.exports") || StartsWith(ExprText(e), "exports.")))
  }

  /** Flags only ever go from false to true. */
  function Grows(): (Syntax, Syntax) -> bool {
    (a: Syntax, b: Syntax) => (a.esm ==> b.esm) && (a.cjs ==> b.cjs)
  }

  function SyntaxHooks(): Hooks<Syntax> {
    Hooks((s, st: Syntax, inNs) => (Syntax(st.esm || EsmStatement(s), st.cjs), None),
          (e, st: Syntax) => (Syntax(st.esm, st.cjs || CjsExpression(e)), None),
          (t, st) => (st, None),
          (p, n, st) => (st, n))
  }

  lemma SyntaxKeeps()
    ensures Keeps(SyntaxHooks(), Grows())
  {
  }

  /** The walk over the whole file, from both flags false. */
  function SyntaxOf(content: seq<Stmt>): (r: Syntax) {
    SyntaxKeeps();
    Stmts(SyntaxHooks(), Grows(), content, Syntax(false, false), false).1
  }

  /** The counters and the returned object: mixed syntax counts as ES module. */
  function Classify(f: Syntax): (r: ModuleType)
    ensures r.isCommonJs <==> f.cjs && !f.esm
    ensures r.isEsm <==> f.esm
    ensures !(r.isCommonJs && r.isEsm)
  {
    var esmCount := if f.esm && !f.cjs then 1 else if f.cjs && !f.esm then 0 else if f.esm && f.cjs then 1 else 0;
    var cjsCount := if f.esm && !f.cjs then 0 else if f.cjs && !f.esm then 1 else 0;
    ModuleType(cjsCount > 0, esmCount > 0)
  }

  /** `checkModuleType(sourceFile, file)`. */
  function CheckModuleType(content: seq<Stmt>): ModuleType {
    Classify(SyntaxOf(content))
  }

  /** An import or export statement anywhere at the top level makes the
      file an ES module, whatever else it holds. */
  lemma TopLevelEsm(content: seq<Stmt>, i: nat)
    requires i < |content| && EsmStatement(content[i])
    ensures CheckModuleType(content).isEsm && !CheckModuleType(content).isCommonJs
  {
    var h, inv := SyntaxHooks(), Grows();
    SyntaxKeeps();
    var a, b := content[..i], content[i..];
    assert content == a + b;
    StmtsAppend(h, inv, a, b, Syntax(false, false), false);
    var ra := Stmts(h, inv, a, Syntax(false, false), false);
    assert b == [content[i]] + b[1..];
    var r1 := Stmt1(h, inv, content[i], ra.1, false);
    assert r1.1.esm;
    var rb := Stmts(h, inv, b[1..], r1.1, false);
    assert Stmts(h, inv, b, ra.1, false).1 == rb.1;
  }

  /** `const x = require("m")` alone: CommonJS. */
  lemma RequireIsCommonJs(x: string, m: string)
    ensures CheckModuleType([VarStmt([], Const, [VarDecl(BindId(x), None, Some(Call(Id("require"), [], [Str(m)])))])])
            == ModuleType(true, false)
  {
    var h, inv := SyntaxHooks(), Grows();
    SyntaxKeeps();
    var call := Call(Id("require"), [], [Str(m)]);
    var d := VarDecl(BindId(x), None, Some(call));
    var s := VarStmt([], Const, [d]);
    var none, required := Syntax(false, false), Syntax(false, true);
    StmtsOne(h, inv, s, none, false);
    assert !EsmStatement(s);
    assert h.stmt(s, none, false) == (none, None);
    assert Binding1(h, inv, VarName, BindId(x), none) == (BindId(x), none);
    assert Expr1(h, inv, Id("require"), required, false) == (Id("require"), required);
    assert Expr1(h, inv, Str(m), required, false) == (Str(m), required);
    assert Exprs(h, inv, [], required, false) == ([], required);
    assert Exprs(h, inv, [Str(m)], required, false) == ([Str(m)] + [], required);
    assert Expr1(h, inv, call, none, false).1 == required;
    assert Decl1(h, inv, d, none, false).1 == required;
    assert Decls(h, inv, [d], none, false).1 == required;
  }

  /** A file with neither kind of syntax is neither. */
  lemma EmptyFileIsNeither()
    ensures CheckModuleType([]) == ModuleType(false, false)
  {
  }

  // ----------------------------------------------------------- findProperty

  /** `findProperty(node)`: the base identifier of a property access, when
      the node itself is one; what the recursive calls find is dropped. */
  function FindProperty(e: Expr): (r: seq<string>)
    ensures |r| <= 1
    ensures r != [] <==> e.Prop? && e.obj.Id?
    ensures r != [] ==> r[0] == e.obj.name
  {
    if e.Prop? && e.obj.Id? then [e.obj.name] else []
  }

  /** Only the node's own base counts: `a.b.c` gives nothing, `a.b` gives `a`. */
  lemma FindPropertyOwnBaseOnly(a: string, b: string, c: string)
    ensures FindProperty(Prop(Prop(Id(a), b), c)) == []
    ensures FindProperty(Prop(Id(a), b)) == [a]
  {
  }
}
