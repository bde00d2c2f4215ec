// The import-stripping visitor of src/bundle/remove/importsAll.ts. Every
// import declaration is replaced by an empty statement and its text kept;
// `import x = require("m")` and `const x = require("m")` are turned into
// ES import strings; qualified type names are flattened in CommonJS files.
// The lists `properties`, `typeObj` and `typesNames` are module-level and
// grow across nodes and files.
module ImportsAll {
  import opened Wrappers
  import opened Text
  import opened Ast
  import opened Walk
  import opened Utils

  /** What the visitor accumulates: the module-level `properties`, `typeObj`
      and `typesNames`, and the caller's `removedStatements`. */
  datatype Acc = Acc(properties: seq<string>, typeObj: map<string, seq<string>>, typesNames: seq<string>, removed: seq<string>)

  /** Every list only grows; `typeObj` keeps its keys and extends their lists. */
  predicate Grown(a: Acc, b: Acc) {
    && a.properties <= b.properties
    && a.typesNames <= b.typesNames
    && a.removed <= b.removed
    && forall k :: k in a.typeObj ==> k in b.typeObj && a.typeObj[k] <= b.typeObj[k]
  }

  // ------------------------------------------------------------ the pre-scan

  /** A top-level `import type N = require("…")` with a string literal. */
  predicate TypeOnlyRequire(s: Stmt) {
    s.ImportEquals? && s.isTypeOnly && s.ref.External? && s.ref.spec.StrSpec?
  }

  /** The names the pre-scan collects. */
  function TypeOnlyAliases(content: seq<Stmt>): (r: set<string>)
    ensures forall n :: n in r <==> exists i :: 0 <= i < |content| && TypeOnlyRequire(content[i]) && content[i].alias == n
    decreases |content|
  {
    if content == [] then {}
    else
      var front := TypeOnlyAliases(content[..|content| - 1]);
      var s := content[|content| - 1];
      assert forall i :: 0 <= i < |content| - 1 ==> content[..|content| - 1][i] == content[i];
      if TypeOnlyRequire(s) then front + {s.alias} else front
  }

  /** The pre-scan loop over `sourceFile.statements`. */
  method PreScan(content: seq<Stmt>) returns (aliases: set<string>)
    ensures aliases == TypeOnlyAliases(content)
  {
    aliases := {};
    for i := 0 to |content|
      invariant aliases == TypeOnlyAliases(content[..i])
    {
      assert content[..i + 1][..i] == content[..i];
      if TypeOnlyRequire(content[i]) {
        aliases := aliases + {content[i].alias};
      }
    }
    assert content[..|content|] == content;
  }

  // ------------------------------------------------------- the import strings

  function Quoted(src: string): string { "\"" + src + "\"" }

  function NamespaceImport(n: string, src: string): string {
    "import * as " + n + " from " + Quoted(src) + ";"
  }

  function DefaultImport(n: string, src: string): string {
    "import " + n + " from " + Quoted(src) + ";"
  }

  function NamedImport(names: seq<string>, src: string): string {
    "import { " + Join(names, ", ") + " } from " + Quoted(src) + ";"
  }

  function TypeNamespaceImport(n: string, src: string): string {
    "import type * as " + n + " from " + Quoted(src) + ";"
  }

  function TypeNamedImport(names: string, src: string): string {
    "import type { " + names + " } from " + Quoted(src) + ";"
  }

  function TypeDefaultImport(n: string, src: string): string {
    "import type " + n + " from " + Quoted(src) + ";"
  }

  /** `typeObj[n]?.join(",")` in a template: "undefined" for a missing key. */
  function TypeMembers(typeObj: map<string, seq<string>>, n: string): string {
    if n in typeObj then Join(typeObj[n], ",") else "undefined"
  }

  /** The string an import-equals declaration becomes, with `aliases` from
      the pre-scan; None when its name is empty and nothing is emitted. */
  function ImportEqualsString(aliases: set<string>, st: Acc, isTypeOnly: bool, n: string, ref: ModuleRef): (r: Option<string>)
    ensures r.Some? <==> n != ""
  {
    var source := if ref.External? && ref.spec.StrSpec? then ref.spec.text else "";
    if n == "" then None
    else if isTypeOnly then
      if n in aliases then Some(TypeNamespaceImport(n, source))
      else if n in st.typesNames then Some(TypeNamedImport(TypeMembers(st.typeObj, n), source))
      else Some(TypeDefaultImport(n, source))
    else if n in st.properties && source != "" && source != "typescript" then Some(NamespaceImport(n, source))
    else Some(DefaultImport(n, source))
  }

  /** The identifier names of an object binding pattern's elements. */
  function BoundNames(es: seq<BindingElem>): (r: seq<string>)
    ensures |r| <= |es|
    ensures forall n :: n in r <==> exists i :: 0 <= i < |es| && es[i].target == BindId(n)
  {
    if es == [] then []
    else (if es[0].target.BindId? then [es[0].target.name] else []) + BoundNames(es[1..])
  }

  /** `x = require(…)`: the initializer of a require declarator. */
  predicate IsRequire(init: Option<Expr>) {
    init.Some? && init.value.Call? && init.value.callee == Id("require")
  }

  /** The string a one-declarator `require` statement becomes, if any. */
  function RequireString(st: Acc, d: VarDecl): (r: Option<string>)
    requires IsRequire(d.init)
  {
    var args := d.init.value.args;
    var source := if args != [] && args[0].Str? then args[0].text else "";
    match d.name
    case BindId(n) =>
      if n == "" then None
      else if n in st.properties then Some(NamespaceImport(n, source))
      else Some(DefaultImport(n, source))
    case BindObject(es) =>
      var names := BoundNames(es);
      if names != [] then Some(NamedImport(names, source)) else None
    case BindArray(_) => None
  }

  // ------------------------------------------------------------- the visitor

  function Removed(st: Acc, text: string): (r: (Acc, Option<seq<Stmt>>)) {
    (st.(removed := st.removed + [text]), Some([Empty]))
  }

  /** The visitor at a statement. */
  function ImportsStmt(aliases: set<string>, s: Stmt, st: Acc): (r: (Acc, Option<seq<Stmt>>))
    ensures r.1.Some? ==> r.1.value == [Empty] && r.0 == st.(removed := r.0.removed) && |r.0.removed| == |st.removed| + 1
    ensures r.1.None? ==> r.0 == st
    ensures st.removed <= r.0.removed
  {
    match s
    case Import(c, spec) => Removed(st, ImportText(c, spec))
    case ImportEquals(isTypeOnly, n, ref) =>
      (match ImportEqualsString(aliases, st, isTypeOnly, n, ref)
       case Some(t) => Removed(st, t)
       case None => (st, None))
    case VarStmt(_, _, decls) =>
      if |decls| == 1 && IsRequire(decls[0].init) then
        match RequireString(st, decls[0])
        case Some(t) => Removed(st, t)
        case None => (st, None)
      else (st, None)
    case _ => (st, None)
  }

  /** The visitor at an expression: `findProperty` feeds `properties`. */
  function ImportsExpr(e: Expr, st: Acc): (r: (Acc, Option<Expr>)) {
    (st.(properties := st.properties + FindProperty(e)), None)
  }

  /** The visitor at a type: a qualified `L.R` is recorded, and flattened to
      `R` (type arguments dropped) in a CommonJS file unless `L` is "ts" or a
      type-only alias. */
  function ImportsType(aliases: set<string>, isCommonJs: bool, t: Type, st: Acc): (r: (Acc, Option<Type>))
    ensures t.TypeRef? && t.name.Qualified? && t.name.left.Simple? ==>
      && r.0.typesNames == st.typesNames + [t.name.left.id]
      && r.0.typeObj == st.typeObj[t.name.left.id := (if t.name.left.id in st.typeObj then st.typeObj[t.name.left.id] else []) + [t.name.right]]
      && r.0.properties == st.properties && r.0.removed == st.removed
      && (r.1.Some? <==> isCommonJs && t.name.left.id != "ts" && t.name.left.id !in aliases)
      && (r.1.Some? ==> r.1.value == TypeRef(Simple(t.name.right), []))
    ensures !(t.TypeRef? && t.name.Qualified? && t.name.left.Simple?) ==> r == (st, None)
  {
    if t.TypeRef? && t.name.Qualified? && t.name.left.Simple? then
      var l, rt := t.name.left.id, t.name.right;
      var objs := if l in st.typeObj then st.typeObj[l] + [rt] else [rt];
      assert objs == (if l in st.typeObj then st.typeObj[l] else []) + [rt];
      var st1 := st.(typesNames := st.typesNames + [l], typeObj := st.typeObj[l := objs]);
      if isCommonJs && l != "ts" && l !in aliases then (st1, Some(TypeRef(Simple(rt), [])))
      else (st1, None)
    else (st, None)
  }

  function ImportsHooks(aliases: set<string>, isCommonJs: bool): Hooks<Acc> {
    Hooks((s, st, inNs) => ImportsStmt(aliases, s, st),
          (e, st) => ImportsExpr(e, st),
          (t, st) => ImportsType(aliases, isCommonJs, t, st),
          (p, n, st) => (st, n))
  }

  function GrownRel(): (Acc, Acc) -> bool {
    (a, b) => Grown(a, b)
  }

  lemma ImportsKeeps(aliases: set<string>, isCommonJs: bool)
    ensures Keeps(ImportsHooks(aliases, isCommonJs), GrownRel())
  {
    var h := ImportsHooks(aliases, isCommonJs);
    forall a: Acc ensures Grown(a, a) {
    }
    forall s, st, inNs ensures Grown(st, h.stmt(s, st, inNs).0) {
      var r := ImportsStmt(aliases, s, st);
      assert r.0 == st || r.0 == st.(removed := r.0.removed);
    }
    forall e, st ensures Grown(st, h.expr(e, st).0) {
    }
    forall p, n, st ensures Grown(st, h.id(p, n, st).0) {
    }
    forall t, st ensures Grown(st, h.ty(t, st).0) {
      TypeGrows(aliases, isCommonJs, t, st);
    }
    forall a: Acc, b: Acc, c: Acc | Grown(a, b) && Grown(b, c) ensures Grown(a, c) {
      GrownTrans(a, b, c);
    }
  }

  lemma TypeGrows(aliases: set<string>, isCommonJs: bool, t: Type, st: Acc)
    ensures Grown(st, ImportsType(aliases, isCommonJs, t, st).0)
  {
    var r := ImportsType(aliases, isCommonJs, t, st);
    if t.TypeRef? && t.name.Qualified? && t.name.left.Simple? {
      var l := t.name.left.id;
      forall k | k in st.typeObj ensures k in r.0.typeObj && st.typeObj[k] <= r.0.typeObj[k] {
        if k == l {
          assert r.0.typeObj[k] == st.typeObj[k] + [t.name.right];
        }
      }
    }
  }

  lemma GrownTrans(a: Acc, b: Acc, c: Acc)
    requires Grown(a, b) && Grown(b, c)
    ensures Grown(a, c)
  {
    forall k | k in a.typeObj ensures k in c.typeObj && a.typeObj[k] <= c.typeObj[k] {
      assert b.typeObj[k] <= c.typeObj[k];
    }
  }

  /** One file through the visitor: the pre-scan's aliases and the file's
      module type are computed from the file as it came in. */
  function ImportsAllFile(content: seq<Stmt>, st: Acc): (r: (seq<Stmt>, Acc))
    ensures Grown(st, r.1)
  {
    var aliases := TypeOnlyAliases(content);
    var isCommonJs := CheckModuleType(content).isCommonJs;
    ImportsKeeps(aliases, isCommonJs);
    Stmts(ImportsHooks(aliases, isCommonJs), GrownRel(), content, st, false)
  }

  /** The files in order through the visitor, each starting from the
      accumulators the previous one left. */
  function ImportsAllFiles(files: seq<seq<Stmt>>, st: Acc): (r: (seq<seq<Stmt>>, Acc))
    ensures |r.0| == |files|
    ensures Grown(st, r.1)
    decreases |files|
  {
    if files == [] then ([], st)
    else
      var init := ImportsAllFiles(files[..|files| - 1], st);
      var last := ImportsAllFile(files[|files| - 1], init.1);
      GrownTrans(st, init.1, last.1);
      (init.0 + [last.0], last.1)
  }

  /** File i comes out as the visitor makes it from the accumulators the
      files before it left. */
  lemma {:induction false} ImportsAllFilesAt(files: seq<seq<Stmt>>, st: Acc, i: nat)
    requires i < |files|
    ensures ImportsAllFiles(files, st).0[i] == ImportsAllFile(files[i], ImportsAllFiles(files[..i], st).1).0
    decreases |files|
  {
    var init := files[..|files| - 1];
    if i == |files| - 1 {
      assert init == files[..i];
    } else {
      ImportsAllFilesAt(init, st, i);
      assert init[..i] == files[..i] && init[i] == files[i];
    }
  }

  // ------------------------------------------------- the module-level state

  /** The module-level accumulators of importsAll.ts. */
  class ImportsAllState {
    var properties: seq<string>
    var typeObj: map<string, seq<string>>
    var typesNames: seq<string>

    constructor()
      ensures properties == [] && typeObj == map[] && typesNames == []
    {
      properties, typeObj, typesNames := [], map[], [];
    }

    /** `importsAllVisitor` applied to one file, pushing to the caller's
        `removedStatements`. */
    method VisitFile(content: seq<Stmt>, removedStatements: seq<string>) returns (out: seq<Stmt>, removed: seq<string>)
      modifies this
      ensures var r := ImportsAllFile(content, Acc(old(properties), old(typeObj), old(typesNames), removedStatements));
        && out == r.0 && removed == r.1.removed
        && properties == r.1.properties && typeObj == r.1.typeObj && typesNames == r.1.typesNames
      ensures old(properties) <= properties && old(typesNames) <= typesNames && removedStatements <= removed
    {
      var aliases := PreScan(content);
      var isCommonJs := CheckModuleType(content).isCommonJs;
      ImportsKeeps(aliases, isCommonJs);
      var r := Stmts(ImportsHooks(aliases, isCommonJs), GrownRel(),
                     content, Acc(properties, typeObj, typesNames, removedStatements), false);
      out, removed := r.0, r.1.removed;
      properties, typeObj, typesNames := r.1.properties, r.1.typeObj, r.1.typesNames;
    }

    /** The visitor mapped over the files in order; the accumulators carry
        over from file to file. */
    method VisitAll(files: seq<seq<Stmt>>, removedStatements: seq<string>) returns (outs: seq<seq<Stmt>>, removed: seq<string>)
      modifies this
      ensures var r := ImportsAllFiles(files, Acc(old(properties), old(typeObj), old(typesNames), removedStatements));
        && outs == r.0 && removed == r.1.removed
        && properties == r.1.properties && typeObj == r.1.typeObj && typesNames == r.1.typesNames
      ensures removedStatements <= removed
      ensures old(properties) <= properties && old(typesNames) <= typesNames
    {
      ghost var st0 := Acc(properties, typeObj, typesNames, removedStatements);
      outs, removed := [], removedStatements;
      for i := 0 to |files|
        invariant (outs, Acc(properties, typeObj, typesNames, removed)) == ImportsAllFiles(files[..i], st0)
      {
        assert files[..i + 1][..i] == files[..i];
        var out;
        out, removed := VisitFile(files[i], removed);
        outs := outs + [out];
      }
      assert files[..|files|] == files;
    }
  }

  // ------------------------------------------------------------- properties

  /** An import declaration becomes an empty statement and its text is kept. */
  lemma ImportRemoved(c: Option<ImportClause>, spec: Spec, st: Acc)
    ensures ImportsAllFile([Import(c, spec)], st) == ([Empty], st.(removed := st.removed + [ImportText(c, spec)]))
  {
    var content := [Import(c, spec)];
    var aliases, cjs := TypeOnlyAliases(content), CheckModuleType(content).isCommonJs;
    ImportsKeeps(aliases, cjs);
    StmtsOneHooked(ImportsHooks(aliases, cjs), GrownRel(), Import(c, spec), st, false);
  }

  /** `import type N = require("src")` alone in a file: the pre-scan has `N`,
      so the namespace type import is emitted. */
  lemma TypeOnlyImportEquals(n: string, src: string, q: char, st: Acc)
    requires n != ""
    ensures ImportsAllFile([ImportEquals(true, n, External(StrSpec(src, q)))], st)
            == ([Empty], st.(removed := st.removed + [TypeNamespaceImport(n, src)]))
  {
    var s := ImportEquals(true, n, External(StrSpec(src, q)));
    var aliases, cjs := TypeOnlyAliases([s]), CheckModuleType([s]).isCommonJs;
    assert n in aliases by { assert TypeOnlyRequire([s][0]); }
    ImportsKeeps(aliases, cjs);
    StmtsOneHooked(ImportsHooks(aliases, cjs), GrownRel(), s, st, false);
  }

  /** A value import-equals: a namespace import when its name was already
      seen as a property-access base and the source is neither empty nor
      "typescript", a default import otherwise. */
  lemma ValueImportEquals(aliases: set<string>, n: string, src: string, q: char, st: Acc)
    requires n != ""
    ensures ImportsStmt(aliases, ImportEquals(false, n, External(StrSpec(src, q))), st)
            == Removed(st, if n in st.properties && src != "" && src != "typescript"
                           then NamespaceImport(n, src) else DefaultImport(n, src))
  {
  }

  /** `const x = require("m")`: a namespace import when `x` was seen as a
      property-access base, a default import otherwise. */
  lemma RequireDefault(aliases: set<string>, mods: seq<Modifier>, k: VarKind, x: string, ty: Option<Type>, m: string, st: Acc)
    requires x != ""
    ensures ImportsStmt(aliases, VarStmt(mods, k, [VarDecl(BindId(x), ty, Some(Call(Id("require"), [], [Str(m)])))]), st)
            == Removed(st, if x in st.properties then NamespaceImport(x, m) else DefaultImport(x, m))
  {
  }

  /** `const { a, b } = require("m")` becomes `import { a, b } from "m";`. */
  lemma RequireNamed(aliases: set<string>, k: VarKind, a: string, b: string, m: string, st: Acc)
    ensures var pattern := BindObject([BindingElem(None, BindId(a)), BindingElem(None, BindId(b))]);
      ImportsStmt(aliases, VarStmt([], k, [VarDecl(pattern, None, Some(Call(Id("require"), [], [Str(m)])))]), st)
        == Removed(st, NamedImport([a, b], m))
    ensures NamedImport([a, b], m) == "import { " + (a + ", " + b) + " } from " + Quoted(m) + ";"
  {
    var es := [BindingElem(None, BindId(a)), BindingElem(None, BindId(b))];
    assert es[1..] == [BindingElem(None, BindId(b))];
    assert BoundNames(es) == [a, b];
    assert Join([a, b], ", ") == a + ", " + b by {
      assert [a, b] == [a] + [b];
      JoinSnoc([a], b, ", ");
    }
  }

  /** A require statement with more than one declarator is left to the walk. */
  lemma ManyDeclaratorsKept(aliases: set<string>, mods: seq<Modifier>, k: VarKind, decls: seq<VarDecl>, st: Acc)
    requires |decls| > 1
    ensures ImportsStmt(aliases, VarStmt(mods, k, decls), st) == (st, None)
  {
  }

  /** Over a list of files, the removed strings and the accumulators of one
      file are where the next file starts. */
  lemma ImportsAllTwoFiles(a: seq<Stmt>, b: seq<Stmt>, st: Acc)
    ensures Grown(st, ImportsAllFile(b, ImportsAllFile(a, st).1).1)
  {
    var s1 := ImportsAllFile(a, st).1;
    var s2 := ImportsAllFile(b, s1).1;
    assert Grown(st, s1) && Grown(s1, s2);
    forall k | k in st.typeObj ensures k in s2.typeObj && st.typeObj[k] <= s2.typeObj[k] {
      assert s1.typeObj[k] <= s2.typeObj[k];
    }
  }
}
