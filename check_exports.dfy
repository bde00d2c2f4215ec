// `checkExports` of src/compiler/checkExports.ts: whether a file has named
// exports and whether it has a default export. The visitor sets two flags
// as `ts.visitEachChild` takes it through every node of the file; here the
// visitor's body is the method `ExportVisitor.Visit`, the flags are its
// fields, and the traversal is the walk of module Walk with the flags as
// its state. Parsing the text is the boundary of the model: the file comes
// in as statements.
module CheckExports {
  import opened Wrappers
  import opened Ast
  import opened Walk

  datatype Flags = Flags(nameExport: bool, defExport: bool)

  /** `pro.name && ts.isIdentifier(pro.name)`: a property named by an
      identifier (not a string, not a spread). */
  predicate IdentifierNamed(p: ObjProp) {
    match p
    case PropAssign(key, _) => key.KeyId?
    case Shorthand(_) => true
    case MethodProp(_, _, _) => true
    case Spread(_) => false
  }

  /** The nodes that set `defExport`: `export default <identifier>`, a
      function or class declared `export default`, and an export assignment
      of an object literal with an identifier-named property (with or
      without `=`). */
  predicate SetsDefault(s: Stmt) {
    match s
    case ExportAssign(isEquals, e) =>
      || (!isEquals && e.Id?)
      || (e.Obj? && exists i :: 0 <= i < |e.props| && IdentifierNamed(e.props[i]))
    case FuncDecl(mods, _, _, _, _) => Export in mods && Default in mods
    case ClassDecl(mods, _, _) => Export in mods && Default in mods
    case _ => false
  }

  /** The nodes that set `nameExport`: an export list, and an exported
      variable statement, interface or type alias outside a plain
      namespace. Functions and classes are caught by the earlier branch and
      never count here. */
  predicate SetsNamed(s: Stmt, inNs: bool) {
    match s
    case ExportDecl(_, elems, _) => elems.Some?
    case VarStmt(mods, _, _) => Export in mods && !inNs
    case InterfaceDecl(mods, _, _) => Export in mods && !inNs
    case TypeAlias(mods, _, _) => Export in mods && !inNs
    case _ => false
  }

  /** The flags after the visitor has seen `s`. */
  function Step(s: Stmt, inNs: bool, f: Flags): Flags {
    Flags(f.nameExport || SetsNamed(s, inNs), f.defExport || SetsDefault(s))
  }

  class ExportVisitor {
    var nameExport: bool
    var defExport: bool

    constructor()
      ensures !nameExport && !defExport
    {
      nameExport := false;
      defExport := false;
    }

    /** The visitor's body at one node; `inNs` is `isInsideNamespace(node)`. */
    method Visit(node: Stmt, inNs: bool)
      modifies this
      ensures Flags(nameExport, defExport) == Step(node, inNs, old(Flags(nameExport, defExport)))
    {
      if node.ExportAssign? && !node.isEquals && node.expr.Id? {
        defExport := true;
      } else if node.FuncDecl? || node.ClassDecl? {
        var exp := false;
        var def := false;
        for i := 0 to |node.mods|
          invariant exp <==> Export in node.mods[..i]
          invariant def <==> Default in node.mods[..i]
        {
          assert node.mods[..i + 1] == node.mods[..i] + [node.mods[i]];
          if node.mods[i] == Export {
            exp := true;
          }
          if node.mods[i] == Default {
            def := true;
          }
        }
        assert node.mods[..|node.mods|] == node.mods;
        if exp && def {
          defExport := true;
        }
      } else if node.ExportAssign? && node.expr.Obj? {
        var pros := node.expr.props;
        for i := 0 to |pros|
          invariant defExport == (old(defExport) || exists j :: 0 <= j < i && IdentifierNamed(pros[j]))
          invariant nameExport == old(nameExport)
        {
          if IdentifierNamed(pros[i]) {
            defExport := true;
          }
        }
      } else if node.ExportDecl? && node.elems.Some? {
        nameExport := true;
      } else if node.VarStmt? || node.FuncDecl? || node.InterfaceDecl? || node.TypeAlias? {
        for i := 0 to |node.mods|
          invariant nameExport == (old(nameExport) || (Export in node.mods[..i] && !inNs))
          invariant defExport == old(defExport)
        {
          assert node.mods[..i + 1] == node.mods[..i] + [node.mods[i]];
          if node.mods[i] == Export {
            if !inNs {
              nameExport := true;
            }
          }
        }
        assert node.mods[..|node.mods|] == node.mods;
      }
    }
  }

  /** Flags only ever go from false to true. */
  function Grows(): (Flags, Flags) -> bool {
    (a: Flags, b: Flags) => (a.nameExport ==> b.nameExport) && (a.defExport ==> b.defExport)
  }

  function ExportHooks(): Hooks<Flags> {
    Hooks((s, st: Flags, inNs) => (Step(s, inNs, st), None),
          (e, st: Flags) => (st, None),
          (t, st: Flags) => (st, None),
          (p, n, st: Flags) => (st, n))
  }

  lemma ExportHooksKeep()
    ensures Keeps(ExportHooks(), Grows())
  {
  }

  /** `checkExports(file, str)`: the flags after the walk over the whole
      file, from both false. */
  function CheckExports(content: seq<Stmt>): Flags {
    ExportHooksKeep();
    Stmts(ExportHooks(), Grows(), content, Flags(false, false), false).1
  }

  // ------------------------------------------------------------ properties

  /** A top-level node that sets a flag on its own sets it for the file,
      wherever it stands and whatever else the file holds. */
  lemma TopLevelSets(content: seq<Stmt>, i: nat)
    requires i < |content|
    ensures SetsDefault(content[i]) ==> CheckExports(content).defExport
    ensures SetsNamed(content[i], false) ==> CheckExports(content).nameExport
  {
    var h, inv := ExportHooks(), Grows();
    ExportHooksKeep();
    var none := Flags(false, false);
    var a, b := content[..i], content[i..];
    assert content == a + b;
    StmtsAppend(h, inv, a, b, none, false);
    var ra := Stmts(h, inv, a, none, false);
    assert b == [content[i]] + b[1..];
    var r1 := Stmt1(h, inv, content[i], ra.1, false);
    assert SetsDefault(content[i]) ==> r1.1.defExport;
    assert SetsNamed(content[i], false) ==> r1.1.nameExport;
    var rb := Stmts(h, inv, b[1..], r1.1, false);
    assert Stmts(h, inv, b, ra.1, false).1 == rb.1;
  }

  /** A node that sets neither flag wherever it stands. */
  predicate Quiet(s: Stmt) {
    !SetsDefault(s) && !SetsNamed(s, false)
  }

  function QuietNode(): Stmt -> bool {
    s => Quiet(s)
  }

  /** Only the nodes above set a flag: a file none of whose nodes, at any
      depth, is one of them has neither flag. */
  lemma QuietFile(content: seq<Stmt>)
    requires StmtsWithin(QuietNode(), content)
    ensures CheckExports(content) == Flags(false, false)
  {
    ExportHooksKeep();
    assert IdleOn(ExportHooks(), QuietNode());
    StmtsWithinKept(ExportHooks(), Grows(), QuietNode(), content, Flags(false, false), false);
  }

  /** `export function f() {}` and `export class C {}` are not named
      exports (they take the export-default branch and lack `default`);
      `export = x` is not a default export. */
  lemma NotCounted(f: Option<string>, params: seq<Param>, x: string)
    ensures CheckExports([FuncDecl([Export], f, params, None, [])]) == Flags(false, false)
    ensures CheckExports([ClassDecl([Export], f, [])]) == Flags(false, false)
    ensures CheckExports([ExportAssign(true, Id(x))]) == Flags(false, false)
  {
    assert StmtWithin(QuietNode(), FuncDecl([Export], f, params, None, []));
    assert StmtsWithin(QuietNode(), [FuncDecl([Export], f, params, None, [])]);
    QuietFile([FuncDecl([Export], f, params, None, [])]);
    assert StmtWithin(QuietNode(), ClassDecl([Export], f, []));
    assert StmtsWithin(QuietNode(), [ClassDecl([Export], f, [])]);
    QuietFile([ClassDecl([Export], f, [])]);
    assert StmtWithin(QuietNode(), ExportAssign(true, Id(x)));
    assert StmtsWithin(QuietNode(), [ExportAssign(true, Id(x))]);
    QuietFile([ExportAssign(true, Id(x))]);
  }

  /** An object literal with an identifier-named property counts as a
      default export whether it is written `export default {…}` or
      `export = {…}`; one whose only property has a string name does not. */
  lemma ObjectAssignmentIsDefault(isEquals: bool, x: string, v: Expr)
    ensures CheckExports([ExportAssign(isEquals, Obj([Shorthand(x)]))]).defExport
    ensures !SetsDefault(ExportAssign(isEquals, Obj([PropAssign(KeyStr(x), v)])))
  {
    var s := ExportAssign(isEquals, Obj([Shorthand(x)]));
    assert IdentifierNamed(s.expr.props[0]);
    TopLevelSets([s], 0);
  }

  /** `export const …` inside a plain namespace is not a named export of the
      file, while the same statement at the top level is. */
  lemma NamespacedExportNotNamed(n: string, kind: VarKind, decls: seq<VarDecl>)
    requires DeclsWithin(QuietNode(), decls)
    ensures CheckExports([Namespace([], true, n, [VarStmt([Export], kind, decls)])]) == Flags(false, false)
    ensures CheckExports([VarStmt([Export], kind, decls)]).nameExport
  {
    NamespacedExportQuiet(n, kind, decls);
    TopLevelSets([VarStmt([Export], kind, decls)], 0);
  }

  lemma NamespacedExportQuiet(n: string, kind: VarKind, decls: seq<VarDecl>)
    requires DeclsWithin(QuietNode(), decls)
    ensures CheckExports([Namespace([], true, n, [VarStmt([Export], kind, decls)])]) == Flags(false, false)
  {
    var h, inv := ExportHooks(), Grows();
    ExportHooksKeep();
    var none := Flags(false, false);
    var v := VarStmt([Export], kind, decls);
    var ns := Namespace([], true, n, [v]);
    NamespacedVarQuiet(kind, decls);
    assert h.stmt(ns, none, false) == (none, None);
    StmtsOne(h, inv, ns, none, false);
  }

  /** Inside a plain namespace the statement's declarations change nothing. */
  lemma NamespacedVarQuiet(kind: VarKind, decls: seq<VarDecl>)
    requires DeclsWithin(QuietNode(), decls)
    requires Keeps(ExportHooks(), Grows())
    ensures Stmts(ExportHooks(), Grows(), [VarStmt([Export], kind, decls)], Flags(false, false), true).1 == Flags(false, false)
  {
    var h, inv := ExportHooks(), Grows();
    ExportHooksKeep();
    var none := Flags(false, false);
    var v := VarStmt([Export], kind, decls);
    assert IdleOn(h, QuietNode());
    DeclsWithinKept(h, inv, QuietNode(), decls, none, true);
    assert h.stmt(v, none, true) == (none, None);
    StmtsOne(h, inv, v, none, true);
  }
}
