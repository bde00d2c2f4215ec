// Redirection of references to renamed declarations:
// src/lib/bundle/visitors/duplicateCallExpression.ts (calls, property bases,
// `new`), duplicateExportExpression.ts (export specifiers and
// `export default <identifier>`) and duplicateImportExpression.ts (import
// bindings). The name lists are `NamesSets`, searched first-match.
module DuplicateRefs {
  import opened Wrappers
  import opened Text
  import opened Ast
  import opened Records
  import opened Paths
  import opened Walk

  /** The name both call-like visitors choose for `base` in `file`: a
      `callNameMap` entry wins over an `importNameMap` entry, and an empty
      new name means no rewrite. */
  function Redirect(callMap: seq<NamesSet>, importMap: seq<NamesSet>, file: string, base: string): (r: Option<string>)
    ensures r.Some? ==> r.value != ""
    ensures FindBaseFile(callMap, base, file).Some? ==>
              r == (if FindBaseFile(callMap, base, file).value.newName != "" then Some(FindBaseFile(callMap, base, file).value.newName) else None)
    ensures FindBaseFile(callMap, base, file).None? && FindBaseFile(importMap, base, file).Some? ==>
              r == (if FindBaseFile(importMap, base, file).value.newName != "" then Some(FindBaseFile(importMap, base, file).value.newName) else None)
    ensures FindBaseFile(callMap, base, file).None? && FindBaseFile(importMap, base, file).None? ==> r.None?
  {
    var mapping := FindBaseFile(callMap, base, file);
    var importMapping := FindBaseFile(importMap, base, file);
    var newName :=
      if mapping.Some? then mapping.value.newName
      else if importMapping.Some? then importMapping.value.newName
      else "";
    if newName != "" then Some(newName) else None
  }

  /** Entries recorded for other files never change a redirect. */
  lemma {:induction false} RedirectIgnoresOtherFiles(callMap: seq<NamesSet>, importMap: seq<NamesSet>, extra: seq<NamesSet>, file: string, base: string)
    requires forall i :: 0 <= i < |extra| ==> extra[i].file != file
    ensures Redirect(callMap + extra, importMap, file, base) == Redirect(callMap, importMap, file, base)
    ensures Redirect(callMap, importMap + extra, file, base) == Redirect(callMap, importMap, file, base)
  {
    FindIgnoresOtherFiles(callMap, extra, file, base);
    FindIgnoresOtherFiles(importMap, extra, file, base);
  }

  lemma {:induction false} FindIgnoresOtherFiles(list: seq<NamesSet>, extra: seq<NamesSet>, file: string, base: string)
    requires forall i :: 0 <= i < |extra| ==> extra[i].file != file
    ensures FindBaseFile(list + extra, base, file) == FindBaseFile(list, base, file)
    decreases |list|
  {
    if list == [] {
      assert [] + extra == extra;
      assert FindBaseFile(extra, base, file).None?;
    } else if list[0].base == base && list[0].file == file {
    } else {
      assert (list + extra)[1..] == list[1..] + extra;
      FindIgnoresOtherFiles(list[1..], extra, file, base);
    }
  }

  // ------------------------------------------------- duplicateCallExpression

  /** The visitor at an expression: an identifier callee, property base or
      `new` callee with a redirect is replaced and the node is not visited
      further. */
  function CallHook(callMap: seq<NamesSet>, importMap: seq<NamesSet>, file: string, e: Expr): (r: Option<Expr>)
    ensures r.Some? ==> e.Call? || e.Prop? || e.New?
    ensures r.Some? && e.Call? ==> r.value.Call? && r.value.typeArgs == e.typeArgs && r.value.args == e.args
    ensures r.Some? && e.New? ==> r.value.New? && r.value.typeArgs == e.typeArgs && r.value.args == e.args
    ensures r.Some? && e.Prop? ==> r.value.Prop? && r.value.name == e.name
  {
    match e
    case Call(Id(b), ta, args) =>
      var n := Redirect(callMap, importMap, file, b);
      if n.Some? then Some(Call(Id(n.value), ta, args)) else None
    case Prop(Id(b), name) =>
      var n := Redirect(callMap, importMap, file, b);
      if n.Some? then Some(Prop(Id(n.value), name)) else None
    case New(Id(b), ta, args) =>
      var n := Redirect(callMap, importMap, file, b);
      if n.Some? then Some(New(Id(n.value), ta, args)) else None
    case _ => None
  }

  function CallHooks(callMap: seq<NamesSet>, importMap: seq<NamesSet>, file: string): Hooks<()> {
    Hooks((s, st, inNs) => (st, None),
          (e, st) => (st, CallHook(callMap, importMap, file, e)),
          (t, st) => (st, None),
          (p, n, st) => (st, n))
  }

  /** One file through the call visitor. Both maps are only read. */
  function CallFile(callMap: seq<NamesSet>, importMap: seq<NamesSet>, file: string, content: seq<Stmt>): seq<Stmt> {
    Stmts(CallHooks(callMap, importMap, file), Stateless(), content, (), false).0
  }

  /** A redirected call keeps its type arguments and arguments as they were:
      a matching identifier among the arguments stays. */
  lemma CallRedirected(callMap: seq<NamesSet>, importMap: seq<NamesSet>, file: string, b: string, arg: string)
    requires Redirect(callMap, importMap, file, b).Some?
    ensures CallFile(callMap, importMap, file, [ExprStmt(Call(Id(b), [], [Call(Id(b), [], [])]))])
            == [ExprStmt(Call(Id(Redirect(callMap, importMap, file, b).value), [], [Call(Id(b), [], [])]))]
  {
    var h := CallHooks(callMap, importMap, file);
    var e := Call(Id(b), [], [Call(Id(b), [], [])]);
    assert h.stmt(ExprStmt(e), (), false) == ((), None);
    StmtsOneExpr(h, Stateless(), e, (), false);
    assert h.expr(e, ()) == ((), CallHook(callMap, importMap, file, e));
  }

  /** An identifier without a redirect leaves the call as it is. */
  lemma CallKept(callMap: seq<NamesSet>, importMap: seq<NamesSet>, file: string, b: string)
    requires Redirect(callMap, importMap, file, b).None?
    ensures CallFile(callMap, importMap, file, [ExprStmt(Call(Id(b), [], []))]) == [ExprStmt(Call(Id(b), [], []))]
  {
    var h := CallHooks(callMap, importMap, file);
    var e := Call(Id(b), [], []);
    assert h.stmt(ExprStmt(e), (), false) == ((), None);
    StmtsOneExpr(h, Stateless(), e, (), false);
    assert h.expr(e, ()) == ((), None);
    assert h.expr(Id(b), ()) == ((), None);
    assert Expr1(h, Stateless(), Id(b), (), false) == (Id(b), ());
    assert Types(h, Stateless(), [], ()) == ([], ());
    assert Exprs(h, Stateless(), [], (), false) == ([], ());
  }

  /** A `callNameMap` entry takes precedence over an `importNameMap` entry. */
  lemma CallMapFirst(callMap: seq<NamesSet>, importMap: seq<NamesSet>, file: string, b: string)
    requires FindBaseFile(callMap, b, file).Some? && FindBaseFile(callMap, b, file).value.newName != ""
    ensures Redirect(callMap, importMap, file, b) == Some(FindBaseFile(callMap, b, file).value.newName)
  {
  }

  // ----------------------------------------------- duplicateExportExpression

  /** The export visitor's state: the list in its third slot (None when the
      caller passes nothing there) and whether a push to a missing list has
      thrown. */
  datatype EState = EState(exportMap: Option<seq<NamesSet>>, thrown: bool)

  /** One lookup of `base`: a `callNameMap` hit pushes {base, key, newName}
      before the rewrite; an `importNameMap` hit rewrites without recording. */
  function ExportLookup(callMap: seq<NamesSet>, importMap: seq<NamesSet>, file: string, base: string, st: EState): (r: (Option<string>, EState))
    ensures r.0 == Redirect(callMap, importMap, file, base)
    ensures FindBaseFile(callMap, base, file).None? ==> r.1 == st
    ensures FindBaseFile(callMap, base, file).Some? && st.exportMap.Some? ==>
              r.1 == EState(Some(st.exportMap.value + [NamesSet(base, FileKey(file), FindBaseFile(callMap, base, file).value.newName, false)]), st.thrown)
    ensures FindBaseFile(callMap, base, file).Some? && st.exportMap.None? ==> r.1 == EState(None, true)
  {
    var mapping := FindBaseFile(callMap, base, file);
    var st1 :=
      if mapping.None? then st
      else if st.exportMap.None? then EState(None, true)
      else EState(Some(st.exportMap.value + [NamesSet(base, FileKey(file), mapping.value.newName, false)]), st.thrown);
    (Redirect(callMap, importMap, file, base), st1)
  }

  function ExportSpecs(callMap: seq<NamesSet>, importMap: seq<NamesSet>, file: string, es: seq<ExportSpec>, st: EState): (r: (seq<ExportSpec>, EState))
    ensures |r.0| == |es|
    ensures forall i :: 0 <= i < |es| ==> r.0[i].propertyName == es[i].propertyName
    ensures forall i :: 0 <= i < |es| ==>
              r.0[i].name == Redirect(callMap, importMap, file, es[i].name).GetOr(es[i].name)
    decreases es
  {
    if es == [] then ([], st)
    else
      var (n, st1) := ExportLookup(callMap, importMap, file, es[0].name, st);
      var e := if n.Some? then ExportSpec(es[0].propertyName, n.value) else es[0];
      var (rest, st2) := ExportSpecs(callMap, importMap, file, es[1..], st1);
      var r := [e] + rest;
      assert forall i :: 1 <= i < |r| ==> r[i] == rest[i - 1];
      (r, st2)
  }

  function ExportHook(callMap: seq<NamesSet>, importMap: seq<NamesSet>, file: string, s: Stmt, st: EState): (r: (EState, Option<seq<Stmt>>))
  {
    match s
    case ExportDecl(typeOnly, Some(es), from) =>
      var (es2, st1) := ExportSpecs(callMap, importMap, file, es, st);
      (st1, Some([ExportDecl(typeOnly, Some(es2), from)]))
    case ExportAssign(isEq, Id(b)) =>
      var (n, st1) := ExportLookup(callMap, importMap, file, b, st);
      (st1, if n.Some? then Some([ExportAssign(isEq, Id(n.value))]) else None)
    case _ => (st, None)
  }

  function ExportHooks(callMap: seq<NamesSet>, importMap: seq<NamesSet>, file: string): Hooks<EState> {
    Hooks((s, st, inNs) => ExportHook(callMap, importMap, file, s, st),
          (e, st) => (st, None),
          (t, st) => (st, None),
          (p, n, st) => (st, n))
  }

  /** Any state change is a push to the list or a throw. */
  predicate Pushed(callMap: seq<NamesSet>, file: string, a: EState, b: EState) {
    && (a.thrown ==> b.thrown)
    && (a.exportMap.None? ==> b.exportMap.None?)
    && (a.exportMap.None? && !b.thrown ==> b == a)
    && (a.exportMap.Some? ==> b.exportMap.Some? && b.thrown == a.thrown)
    && (b.exportMap.Some? ==> a.exportMap.Some? && a.exportMap.value <= b.exportMap.value)
    && (b.exportMap.Some? ==>
          forall i :: |a.exportMap.value| <= i < |b.exportMap.value| ==> Recorded(callMap, file, b.exportMap.value[i]))
  }

  /** An entry the export visitor pushes: the file's key and a rename found
      in `callNameMap` for the raw path. */
  predicate Recorded(callMap: seq<NamesSet>, file: string, e: NamesSet) {
    && e.file == FileKey(file)
    && FindBaseFile(callMap, e.base, file).Some?
    && FindBaseFile(callMap, e.base, file).value.newName == e.newName
  }

  function PushedRel(callMap: seq<NamesSet>, file: string): (EState, EState) -> bool {
    (a, b) => Pushed(callMap, file, a, b)
  }

  lemma ExportSpecsPushed(callMap: seq<NamesSet>, importMap: seq<NamesSet>, file: string, es: seq<ExportSpec>, st: EState)
    ensures Pushed(callMap, file, st, ExportSpecs(callMap, importMap, file, es, st).1)
    decreases es
  {
    if es != [] {
      var (n, st1) := ExportLookup(callMap, importMap, file, es[0].name, st);
      ExportSpecsPushed(callMap, importMap, file, es[1..], st1);
      var st2 := ExportSpecs(callMap, importMap, file, es[1..], st1).1;
      assert Pushed(callMap, file, st, st1);
      PushedTrans(callMap, file, st, st1, st2);
    }
  }

  lemma PushedTrans(callMap: seq<NamesSet>, file: string, a: EState, b: EState, c: EState)
    requires Pushed(callMap, file, a, b) && Pushed(callMap, file, b, c)
    ensures Pushed(callMap, file, a, c)
  {
    if c.exportMap.Some? {
      forall i | |a.exportMap.value| <= i < |c.exportMap.value|
        ensures Recorded(callMap, file, c.exportMap.value[i])
      {
        if i < |b.exportMap.value| { assert c.exportMap.value[i] == b.exportMap.value[i]; }
      }
    }
  }

  lemma ExportKeeps(callMap: seq<NamesSet>, importMap: seq<NamesSet>, file: string)
    ensures Keeps(ExportHooks(callMap, importMap, file), PushedRel(callMap, file))
  {
    forall s, st, inNs ensures Pushed(callMap, file, st, ExportHooks(callMap, importMap, file).stmt(s, st, inNs).0) {
      match s
      case ExportDecl(typeOnly, Some(es), from) => ExportSpecsPushed(callMap, importMap, file, es, st);
      case _ =>
    }
    forall a, b, c | Pushed(callMap, file, a, b) && Pushed(callMap, file, b, c)
      ensures Pushed(callMap, file, a, c)
    {
      PushedTrans(callMap, file, a, b, c);
    }
  }

  /** One file through the export visitor, with its three slots. */
  function ExportFile(callMap: seq<NamesSet>, importMap: seq<NamesSet>, file: string, content: seq<Stmt>, st: EState): (r: (seq<Stmt>, EState))
    ensures Pushed(callMap, file, st, r.1)
  {
    ExportKeeps(callMap, importMap, file);
    Stmts(ExportHooks(callMap, importMap, file), PushedRel(callMap, file), content, st, false)
  }

  /** When neither list the visitor searches has an entry for the file, the
      visitor changes nothing. */
  lemma {:induction false} ExportSpecsIdle(callMap: seq<NamesSet>, importMap: seq<NamesSet>, file: string, es: seq<ExportSpec>, st: EState)
    requires forall i :: 0 <= i < |callMap| ==> callMap[i].file != file
    requires forall i :: 0 <= i < |importMap| ==> importMap[i].file != file
    ensures ExportSpecs(callMap, importMap, file, es, st) == (es, st)
    decreases es
  {
    if es != [] {
      ExportSpecsIdle(callMap, importMap, file, es[1..], st);
      assert [es[0]] + es[1..] == es;
    }
  }

  /** `export { b }` with a `callNameMap` entry for `b`: the exported name
      becomes the new one (the node is replaced, see `Walk.StmtsOneHooked`)
      and the rename is recorded under the file's key. */
  lemma ExportSpecRecorded(callMap: seq<NamesSet>, importMap: seq<NamesSet>, file: string, b: string, log: seq<NamesSet>)
    requires FindBaseFile(callMap, b, file).Some? && FindBaseFile(callMap, b, file).value.newName != ""
    ensures var n := FindBaseFile(callMap, b, file).value.newName;
      ExportHook(callMap, importMap, file, ExportDecl(false, Some([ExportSpec(None, b)]), None), EState(Some(log), false))
        == (EState(Some(log + [NamesSet(b, FileKey(file), n, false)]), false), Some([ExportDecl(false, Some([ExportSpec(None, n)]), None)]))
  {
    var st := EState(Some(log), false);
    var n := FindBaseFile(callMap, b, file).value.newName;
    var st1 := EState(Some(log + [NamesSet(b, FileKey(file), n, false)]), false);
    var es := [ExportSpec(None, b)];
    assert es[0] == ExportSpec(None, b) && es[1..] == [];
    assert ExportLookup(callMap, importMap, file, es[0].name, st) == (Some(n), st1);
    assert ExportSpecs(callMap, importMap, file, es[1..], st1) == ([], st1);
    assert [ExportSpec(None, n)] + [] == [ExportSpec(None, n)];
    assert ExportSpecs(callMap, importMap, file, [ExportSpec(None, b)], st) == ([ExportSpec(None, n)], st1);
  }

  /** `export default b` with a `callNameMap` entry for `b`: the same rule. */
  lemma ExportDefaultRecorded(callMap: seq<NamesSet>, importMap: seq<NamesSet>, file: string, b: string, log: seq<NamesSet>)
    requires FindBaseFile(callMap, b, file).Some? && FindBaseFile(callMap, b, file).value.newName != ""
    ensures var n := FindBaseFile(callMap, b, file).value.newName;
      ExportHook(callMap, importMap, file, ExportAssign(false, Id(b)), EState(Some(log), false))
        == (EState(Some(log + [NamesSet(b, FileKey(file), n, false)]), false), Some([ExportAssign(false, Id(n))]))
  {
    var st := EState(Some(log), false);
    var n := FindBaseFile(callMap, b, file).value.newName;
    assert ExportLookup(callMap, importMap, file, b, st) == (Some(n), EState(Some(log + [NamesSet(b, FileKey(file), n, false)]), false));
  }

  /** With no list in the third slot, a `callNameMap` hit throws. */
  lemma ExportThrowsWithoutList(callMap: seq<NamesSet>, importMap: seq<NamesSet>, file: string, b: string)
    requires FindBaseFile(callMap, b, file).Some?
    ensures ExportHook(callMap, importMap, file, ExportAssign(false, Id(b)), EState(None, false)).0.thrown
  {
  }

  // ----------------------------------------------- duplicateImportExpression

  /** The key `getModuleKeyFromSpecifier` computes for an import of `spec` in `file`. */
  function SpecKey(cwd: seq<string>, file: string, spec: Spec): string {
    ModuleKey(cwd, file, SpecValue(spec))
  }

  /** The local name an import element ends with. */
  function ImportedName(exportMap: seq<NamesSet>, key: string, name: string): string {
    var mapping := FindBaseFile(exportMap, Trim(name), key);
    if mapping.Some? then mapping.value.newName else name
  }

  function ImportElems(exportMap: seq<NamesSet>, file: string, key: string, es: seq<ImportSpec>, log: seq<NamesSet>): (r: (seq<ImportSpec>, seq<NamesSet>))
    ensures |r.0| == |es|
    ensures forall i :: 0 <= i < |es| ==>
              r.0[i] == ImportSpec(es[i].isTypeOnly, es[i].propertyName, ImportedName(exportMap, key, es[i].name))
    ensures log <= r.1
    decreases es
  {
    if es == [] then ([], log)
    else
      var mapping := FindBaseFile(exportMap, Trim(es[0].name), key);
      var e := ImportSpec(es[0].isTypeOnly, es[0].propertyName, ImportedName(exportMap, key, es[0].name));
      var log1 := if mapping.Some? then log + [NamesSet(mapping.value.base, file, mapping.value.newName, false)] else log;
      var (rest, log2) := ImportElems(exportMap, file, key, es[1..], log1);
      var r := [e] + rest;
      assert forall i :: 1 <= i < |r| ==> r[i] == rest[i - 1];
      (r, log2)
  }

  /** The visitor at an import declaration: a default binding found in the
      export list under the module's key is replaced and the declaration is
      returned at once; otherwise named elements are matched one by one. */
  function ImportHook(cwd: seq<string>, exportMap: seq<NamesSet>, file: string, s: Stmt, log: seq<NamesSet>): (r: (seq<NamesSet>, Option<seq<Stmt>>))
    ensures log <= r.0
  {
    match s
    case Import(Some(c), spec) =>
      var key := SpecKey(cwd, file, spec);
      var mapping := if c.default.Some? then FindBaseFile(exportMap, Trim(c.default.value), key) else None;
      if mapping.Some? then
        (log + [NamesSet(mapping.value.base, file, mapping.value.newName, false)],
         Some([Import(Some(ImportClause(c.isTypeOnly, Some(mapping.value.newName), c.bindings)), spec)]))
      else if c.bindings.Some? && c.bindings.value.NamedImports? && |c.bindings.value.elems| > 0 then
        var (es, log1) := ImportElems(exportMap, file, key, c.bindings.value.elems, log);
        (log1, Some([Import(Some(ImportClause(c.isTypeOnly, c.default, Some(NamedImports(es)))), spec)]))
      else (log, None)
    case _ => (log, None)
  }

  function ImportHooks(cwd: seq<string>, exportMap: seq<NamesSet>, file: string): Hooks<seq<NamesSet>> {
    Hooks((s, st, inNs) => ImportHook(cwd, exportMap, file, s, st),
          (e, st) => (st, None),
          (t, st) => (st, None),
          (p, n, st) => (st, n))
  }

  function Grows(): (seq<NamesSet>, seq<NamesSet>) -> bool {
    (a, b) => a <= b
  }

  /** One file through the import visitor: the export list is only read,
      the import list only grows. */
  function ImportFile(cwd: seq<string>, exportMap: seq<NamesSet>, file: string, content: seq<Stmt>, log: seq<NamesSet>): (r: (seq<Stmt>, seq<NamesSet>))
    ensures log <= r.1
  {
    Stmts(ImportHooks(cwd, exportMap, file), Grows(), content, log, false)
  }

  /** A matched default binding is replaced, named bindings are kept
      unexamined, and one entry under the importing file is recorded. */
  lemma DefaultImportRebound(cwd: seq<string>, exportMap: seq<NamesSet>, file: string, d: string, b: NamedBindings, spec: Spec, log: seq<NamesSet>)
    requires FindBaseFile(exportMap, Trim(d), SpecKey(cwd, file, spec)).Some?
    ensures var x := FindBaseFile(exportMap, Trim(d), SpecKey(cwd, file, spec)).value;
      ImportHook(cwd, exportMap, file, Import(Some(ImportClause(false, Some(d), Some(b))), spec), log)
        == (log + [NamesSet(x.base, file, x.newName, false)], Some([Import(Some(ImportClause(false, Some(x.newName), Some(b))), spec)]))
  {
  }

  /** A declaration with no match keeps its bindings and records nothing. */
  lemma UnmatchedImportKept(cwd: seq<string>, exportMap: seq<NamesSet>, file: string, c: ImportClause, spec: Spec, log: seq<NamesSet>)
    requires forall i :: 0 <= i < |exportMap| ==> exportMap[i].file != SpecKey(cwd, file, spec)
    ensures ImportFile(cwd, exportMap, file, [Import(Some(c), spec)], log) == ([Import(Some(c), spec)], log)
  {
    var h := ImportHooks(cwd, exportMap, file);
    var s := Import(Some(c), spec);
    UnmatchedImportHook(cwd, exportMap, file, c, spec, log);
    assert h.stmt(s, log, false) == ImportHook(cwd, exportMap, file, s, log);
    if h.stmt(s, log, false).1.Some? {
      StmtsOneHooked(h, Grows(), s, log, false);
    } else {
      StmtsOne(h, Grows(), s, log, false);
      ClauseNeutral(h, Grows(), Some(c), log);
    }
  }

  lemma UnmatchedImportHook(cwd: seq<string>, exportMap: seq<NamesSet>, file: string, c: ImportClause, spec: Spec, log: seq<NamesSet>)
    requires forall i :: 0 <= i < |exportMap| ==> exportMap[i].file != SpecKey(cwd, file, spec)
    ensures ImportHook(cwd, exportMap, file, Import(Some(c), spec), log) in {(log, None), (log, Some([Import(Some(c), spec)]))}
  {
    var key := SpecKey(cwd, file, spec);
    assert c.default.Some? ==> FindBaseFile(exportMap, Trim(c.default.value), key).None?;
    if c.bindings.Some? && c.bindings.value.NamedImports? && |c.bindings.value.elems| > 0 {
      var es := c.bindings.value.elems;
      ImportElemsIdle(exportMap, file, key, es, log);
      assert ImportClause(c.isTypeOnly, c.default, Some(NamedImports(es))) == c;
    }
  }

  lemma {:induction false} ImportElemsIdle(exportMap: seq<NamesSet>, file: string, key: string, es: seq<ImportSpec>, log: seq<NamesSet>)
    requires forall i :: 0 <= i < |exportMap| ==> exportMap[i].file != key
    ensures ImportElems(exportMap, file, key, es, log) == (es, log)
    decreases es
  {
    if es != [] {
      ImportElemsIdle(exportMap, file, key, es[1..], log);
      assert ImportedName(exportMap, key, es[0].name) == es[0].name;
      assert [es[0]] + es[1..] == es;
    }
  }
}
