// `commonJsExportsVisitor` (src/bundle/remove/commonjsExports.ts): drops
// `module.exports = <identifier>` and `module.exports = { a, b }`, and turns
// `exports.name = { … }` into a variable declaration of `name`. Any binary
// operator counts, as the source tests only for a binary expression.
module CommonJsExports {
  import opened Wrappers
  import opened Ast
  import opened Walk

  /** `module.exports` on the left of a binary expression. */
  predicate IsModuleExports(e: Expr) {
    e.Prop? && e.obj == Id("module") && e.name == "exports"
  }

  /** `exports.<name>` on the left of a binary expression. */
  predicate IsExportsMember(e: Expr) {
    e.Prop? && e.obj == Id("exports")
  }

  predicate AllShorthand(props: seq<ObjProp>) {
    forall i :: 0 <= i < |props| ==> props[i].Shorthand?
  }

  /** The visitor at a statement. */
  function CjsStmt(s: Stmt): (r: Option<seq<Stmt>>) {
    if s.ExprStmt? && s.expr.Binary? && s.expr.left.Prop? then
      var left, right := s.expr.left, s.expr.right;
      if IsModuleExports(left) && (right.Id? || (right.Obj? && AllShorthand(right.props))) then Some([Empty])
      else if IsExportsMember(left) && right.Obj? then
        Some([VarStmt([], Var, [VarDecl(BindId(left.name), None, Some(right))])])
      else None
    else None
  }

  function CjsHooks(): Hooks<()> {
    Hooks((s, st, inNs) => (st, CjsStmt(s)),
          (e, st) => (st, None),
          (t, st) => (st, None),
          (p, n, st) => (st, n))
  }

  lemma CjsKeeps()
    ensures Keeps(CjsHooks(), Stateless())
  {
  }

  function CjsWalk(ss: seq<Stmt>): seq<Stmt> {
    CjsKeeps();
    Stmts(CjsHooks(), Stateless(), ss, (), false).0
  }

  function CjsWalk1(s: Stmt): seq<Stmt> {
    CjsKeeps();
    Stmt1(CjsHooks(), Stateless(), s, (), false).0
  }

  // ---------------------------------------------------------- the cases

  /** `module.exports = <identifier>` becomes an empty statement. */
  lemma ModuleExportsIdentifier(op: string, x: string)
    ensures CjsWalk1(ExprStmt(Binary(op, Prop(Id("module"), "exports"), Id(x)))) == [Empty]
  {
  }

  /** `module.exports = { … }` goes iff every property is shorthand. */
  lemma ModuleExportsObject(op: string, props: seq<ObjProp>)
    ensures CjsStmt(ExprStmt(Binary(op, Prop(Id("module"), "exports"), Obj(props)))).Some? <==> AllShorthand(props)
    ensures AllShorthand(props) ==> CjsWalk1(ExprStmt(Binary(op, Prop(Id("module"), "exports"), Obj(props)))) == [Empty]
  {
  }

  /** `exports.n = { … }` becomes `var n = { … }`. */
  lemma ExportsMemberObject(op: string, n: string, props: seq<ObjProp>)
    ensures CjsWalk1(ExprStmt(Binary(op, Prop(Id("exports"), n), Obj(props))))
            == [VarStmt([], Var, [VarDecl(BindId(n), None, Some(Obj(props)))])]
  {
  }

  /** `exports.n = <not an object>` is passed on to the walk. */
  lemma ExportsMemberOther(op: string, n: string, right: Expr)
    requires !right.Obj?
    ensures CjsStmt(ExprStmt(Binary(op, Prop(Id("exports"), n), right))) == None
  {
  }

  // ------------------------------------------------ reference definition

  /** The statement forms the visitor rewrites. */
  predicate CjsSyntax(s: Stmt) {
    CjsStmt(s).Some?
  }

  function NoCjs(): Stmt -> bool {
    s => !CjsSyntax(s)
  }

  /** What the visitor makes of a top-level statement. */
  function CjsOne(s: Stmt): (r: Stmt)
    ensures CjsSyntax(s) ==> r == Empty || (r.VarStmt? && r.mods == [] && |r.decls| == 1)
    ensures !CjsSyntax(s) ==> r == s
    ensures !CjsSyntax(r)
  {
    match CjsStmt(s)
    case Some(rs) => rs[0]
    case None => s
  }

  /** Every top-level statement, one for one. */
  function CjsAll(ss: seq<Stmt>): (r: seq<Stmt>)
    ensures |r| == |ss|
    ensures forall i :: 0 <= i < |ss| ==> r[i] == CjsOne(ss[i])
  {
    if ss == [] then [] else [CjsOne(ss[0])] + CjsAll(ss[1..])
  }

  /** The rewritten forms sit at the top level only: nothing nested in a
      top-level statement (or in the object a member export assigns) is one. */
  ghost predicate TopLevelOnly(ss: seq<Stmt>) {
    forall i :: 0 <= i < |ss| ==> ChildrenWithin(NoCjs(), ss[i]) && ChildrenWithin(NoCjs(), CjsOne(ss[i]))
  }

  /** On such a file the visitor is the reference definition. */
  lemma {:induction false} WalkIsReference(ss: seq<Stmt>)
    requires TopLevelOnly(ss)
    ensures CjsWalk(ss) == CjsAll(ss)
    decreases ss
  {
    CjsKeeps();
    if ss != [] {
      var h, inv := CjsHooks(), Stateless();
      if CjsStmt(ss[0]).None? {
        assert IdleOn(h, NoCjs());
        ChildrenWithinKept(h, inv, NoCjs(), ss[0], (), false);
      }
      assert Stmt1(h, inv, ss[0], (), false) == ([CjsOne(ss[0])], ());
      assert TopLevelOnly(ss[1..]) by {
        forall i | 0 <= i < |ss[1..]| ensures ChildrenWithin(NoCjs(), ss[1..][i]) && ChildrenWithin(NoCjs(), CjsOne(ss[1..][i])) {
          assert ss[1..][i] == ss[i + 1];
        }
      }
      WalkIsReference(ss[1..]);
      assert Stmts(h, inv, ss, (), false).0 == [CjsOne(ss[0])] + Stmts(h, inv, ss[1..], (), false).0;
    }
  }

  /** The reference leaves nothing for a second application. */
  lemma ReferenceIdempotent(ss: seq<Stmt>)
    ensures CjsAll(CjsAll(ss)) == CjsAll(ss)
  {
  }

  /** A second application of the visitor changes nothing. */
  lemma CjsIdempotent(ss: seq<Stmt>)
    requires TopLevelOnly(ss)
    ensures CjsWalk(CjsWalk(ss)) == CjsWalk(ss)
  {
    WalkIsReference(ss);
    var r := CjsAll(ss);
    forall i | 0 <= i < |r| ensures ChildrenWithin(NoCjs(), r[i]) && ChildrenWithin(NoCjs(), CjsOne(r[i])) {
      assert CjsOne(r[i]) == r[i];
    }
    WalkIsReference(r);
    ReferenceIdempotent(ss);
  }
}
