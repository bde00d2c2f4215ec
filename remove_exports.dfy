// `removeExportsVisitor` (src/lib/bundle/visitors/removeExports.ts): strips
// `export` and `default` from declarations outside namespaces, turns every
// `export { … }` and every `export default <identifier>` into an empty
// statement, and leaves the rest of the file as it was.
module RemoveExports {
  import opened Wrappers
  import opened Ast
  import opened Walk

  /** The declaration kinds whose modifiers the visitor filters. */
  predicate Strippable(s: Stmt) {
    s.FuncDecl? || s.ClassDecl? || s.InterfaceDecl? || s.TypeAlias? || s.EnumDecl? || s.VarStmt?
  }

  function Mods(s: Stmt): seq<Modifier>
    requires Strippable(s)
  {
    s.mods
  }

  /** The declaration rebuilt with other modifiers and the same children. */
  function WithMods(s: Stmt, m: seq<Modifier>): (r: Stmt)
    requires Strippable(s)
    ensures Strippable(r) && Mods(r) == m
  {
    match s
    case FuncDecl(_, n, ps, rt, b) => FuncDecl(m, n, ps, rt, b)
    case ClassDecl(_, n, ms) => ClassDecl(m, n, ms)
    case InterfaceDecl(_, n, sigs) => InterfaceDecl(m, n, sigs)
    case TypeAlias(_, n, t) => TypeAlias(m, n, t)
    case EnumDecl(_, n, es) => EnumDecl(m, n, es)
    case VarStmt(_, k, ds) => VarStmt(m, k, ds)
  }

  predicate Exported(s: Stmt)
    requires Strippable(s)
  {
    Export in Mods(s) || Default in Mods(s)
  }

  /** The visitor at a statement; `inNs` is `isInsideNamespace(node)`. */
  function RemoveStmt(s: Stmt, inNs: bool): (r: Option<seq<Stmt>>) {
    if !inNs && Strippable(s) && Exported(s) then Some([WithMods(s, DropExportDefault(Mods(s)))])
    else if s.ExportDecl? then Some([Empty])
    else if s.ExportAssign? && s.expr.Id? then Some([Empty])
    else None
  }

  function RemoveHooks(): Hooks<()> {
    Hooks((s, st, inNs) => (st, RemoveStmt(s, inNs)),
          (e, st) => (st, None),
          (t, st) => (st, None),
          (p, n, st) => (st, n))
  }

  lemma RemoveKeeps()
    ensures Keeps(RemoveHooks(), Stateless())
  {
  }

  /** The visitor over a list of statements; `inNs` says whether they sit
      inside a namespace. */
  function RemoveWalk(ss: seq<Stmt>, inNs: bool): seq<Stmt> {
    RemoveKeeps();
    Stmts(RemoveHooks(), Stateless(), ss, (), inNs).0
  }

  function RemoveWalk1(s: Stmt, inNs: bool): seq<Stmt> {
    RemoveKeeps();
    Stmt1(RemoveHooks(), Stateless(), s, (), inNs).0
  }

  /** The visitor over one file's statements. */
  function RemoveExportsFile(content: seq<Stmt>): seq<Stmt> {
    RemoveWalk(content, false)
  }

  // ----------------------------------------------------- well-formed files

  /** Export syntax: what the visitor would act on outside a namespace. */
  predicate ExportSyntax(s: Stmt) {
    s.ExportDecl? || s.ExportAssign? || (Strippable(s) && Exported(s))
  }

  function NoExport(): Stmt -> bool {
    s => !ExportSyntax(s)
  }

  /** Export syntax occurs only at the top level of the file or of a
      namespace body, as the TypeScript grammar requires: nothing nested in a
      function, class, block or expression carries it. */
  ghost predicate ModuleBody(ss: seq<Stmt>)
    decreases ss
  {
    ss == [] || (ModuleStmt(ss[0]) && ModuleBody(ss[1..]))
  }

  ghost predicate ModuleStmt(s: Stmt)
    decreases s
  {
    if s.Namespace? then ModuleBody(s.body) else ChildrenWithin(NoExport(), s)
  }

  // ------------------------------------------------ reference definition

  /** What the visitor makes of one statement of a module body. */
  function RemoveOne(s: Stmt, inNs: bool): (r: Stmt)
    ensures s.ExportDecl? ==> r == Empty
    ensures s.ExportAssign? ==> r == (if s.expr.Id? then Empty else s)
    ensures Strippable(s) ==> Strippable(r) && WithMods(r, Mods(s)) == s
    ensures Strippable(s) && inNs ==> r == s
    ensures Strippable(s) && !inNs ==> forall m :: m in Mods(r) <==> m in Mods(s) && m != Export && m != Default
    ensures s.Namespace? ==> r.Namespace? && r.mods == s.mods && r.plain == s.plain && r.name == s.name
    ensures !s.Namespace? && !ExportSyntax(s) ==> r == s
    decreases s, 1
  {
    if s.Namespace? then Namespace(s.mods, s.plain, s.name, RemoveExportsAll(s.body, inNs || s.plain))
    else if !inNs && Strippable(s) && Exported(s) then WithMods(s, DropExportDefault(Mods(s)))
    else if s.ExportDecl? || (s.ExportAssign? && s.expr.Id?) then Empty
    else s
  }

  /** Every statement of a module body, one for one. */
  function RemoveExportsAll(ss: seq<Stmt>, inNs: bool): (r: seq<Stmt>)
    ensures |r| == |ss|
    ensures forall i :: 0 <= i < |ss| ==> r[i] == RemoveOne(ss[i], inNs)
    decreases ss, 0
  {
    if ss == [] then [] else [RemoveOne(ss[0], inNs)] + RemoveExportsAll(ss[1..], inNs)
  }

  // ---------------------------------------------------------- properties

  /** On a well-formed file the visitor is the reference definition. */
  lemma {:induction false} WalkIsReference(ss: seq<Stmt>, inNs: bool)
    requires ModuleBody(ss)
    ensures RemoveWalk(ss, inNs) == RemoveExportsAll(ss, inNs)
    decreases ss
  {
    RemoveKeeps();
    if ss != [] {
      StmtIsReference(ss[0], inNs);
      WalkIsReference(ss[1..], inNs);
      var h, inv := RemoveHooks(), Stateless();
      var r1 := Stmt1(h, inv, ss[0], (), inNs);
      assert r1.1 == ();
      assert Stmts(h, inv, ss, (), inNs).0 == r1.0 + Stmts(h, inv, ss[1..], (), inNs).0;
    }
  }

  lemma {:induction false} StmtIsReference(s: Stmt, inNs: bool)
    requires ModuleStmt(s)
    ensures RemoveWalk1(s, inNs) == [RemoveOne(s, inNs)]
    decreases s
  {
    RemoveKeeps();
    var h, inv := RemoveHooks(), Stateless();
    if s.Namespace? {
      assert h.stmt(s, (), inNs) == ((), None);
      WalkIsReference(s.body, inNs || s.plain);
      assert Children(h, inv, s, (), inNs).0 == Namespace(s.mods, s.plain, s.name, RemoveWalk(s.body, inNs || s.plain));
    } else if RemoveStmt(s, inNs).None? {
      assert IdleOn(h, NoExport());
      ChildrenWithinKept(h, inv, NoExport(), s, (), inNs);
    }
  }

  /** The result of a module body is a module body again. */
  lemma {:induction false} ReferenceKeepsModuleBody(ss: seq<Stmt>, inNs: bool)
    requires ModuleBody(ss)
    ensures ModuleBody(RemoveExportsAll(ss, inNs))
    decreases ss
  {
    if ss != [] {
      var s := ss[0];
      if s.Namespace? {
        ReferenceKeepsModuleBody(s.body, inNs || s.plain);
      }
      ReferenceKeepsModuleBody(ss[1..], inNs);
      assert RemoveExportsAll(ss, inNs)[1..] == RemoveExportsAll(ss[1..], inNs);
    }
  }

  /** A second application of the reference changes nothing. */
  lemma {:induction false} ReferenceIdempotent(ss: seq<Stmt>, inNs: bool)
    ensures RemoveExportsAll(RemoveExportsAll(ss, inNs), inNs) == RemoveExportsAll(ss, inNs)
    decreases ss
  {
    if ss != [] {
      var s := ss[0];
      if s.Namespace? {
        ReferenceIdempotent(s.body, inNs || s.plain);
      }
      ReferenceIdempotent(ss[1..], inNs);
      assert RemoveExportsAll(ss, inNs)[1..] == RemoveExportsAll(ss[1..], inNs);
    }
  }

  /** A second application of the visitor changes nothing beyond the first. */
  lemma RemoveExportsIdempotent(content: seq<Stmt>)
    requires ModuleBody(content)
    ensures RemoveExportsFile(RemoveExportsFile(content)) == RemoveExportsFile(content)
  {
    WalkIsReference(content, false);
    ReferenceKeepsModuleBody(content, false);
    WalkIsReference(RemoveExportsAll(content, false), false);
    ReferenceIdempotent(content, false);
  }

  /** After the visitor no top-level statement exports anything, except an
      `export default` of an expression that is not an identifier; every other
      modifier is kept, and the number of statements is unchanged. */
  lemma NothingExportedLeft(content: seq<Stmt>)
    requires ModuleBody(content)
    ensures var r := RemoveExportsFile(content);
      && |r| == |content|
      && (forall i :: 0 <= i < |r| ==> !r[i].ExportDecl?)
      && (forall i :: 0 <= i < |r| && r[i].ExportAssign? ==> !r[i].expr.Id? && r[i] == content[i])
      && (forall i :: 0 <= i < |r| && Strippable(r[i]) ==> !Exported(r[i]))
      && (forall i :: 0 <= i < |r| && Strippable(content[i]) ==>
            Strippable(r[i]) && forall m :: m in Mods(r[i]) <==> m in Mods(content[i]) && m != Export && m != Default)
  {
    WalkIsReference(content, false);
    var r := RemoveExportsAll(content, false);
    forall i | 0 <= i < |r| ensures !r[i].ExportDecl? && (Strippable(r[i]) ==> !Exported(r[i])) {
      var s := content[i];
      if s.Namespace? {
      } else if Strippable(s) {
        assert Strippable(r[i]);
      }
    }
  }

  /** Inside a namespace, declarations keep `export`, while `export { … }`
      and `export default <identifier>` still go. */
  lemma NamespaceKeepsModifiers(mods: seq<Modifier>, name: string, body: seq<Stmt>)
    requires ModuleBody(body)
    ensures var r := RemoveExportsFile([Namespace(mods, true, name, body)]);
      && |r| == 1 && r[0].Namespace? && |r[0].body| == |body|
      && (forall i :: 0 <= i < |body| && Strippable(body[i]) ==> r[0].body[i] == body[i])
      && (forall i :: 0 <= i < |body| && body[i].ExportDecl? ==> r[0].body[i] == Empty)
  {
    var s := Namespace(mods, true, name, body);
    assert ModuleBody([s]) by { assert [s][1..] == []; }
    WalkIsReference([s], false);
  }

  /** A declaration without `export` or `default` is passed on unchanged. */
  lemma UnexportedKept(s: Stmt, inNs: bool)
    requires Strippable(s) && !Exported(s)
    ensures RemoveStmt(s, inNs).None?
  {
  }
}
