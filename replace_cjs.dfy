// `replaceInJs` and `replaceInTs` of src/compiler/replacecjs.ts: after a
// CommonJS build, `exports.default = x` becomes `module.exports = x` in the
// JavaScript output and `export default x` becomes `export = x` in the
// declaration output. Each is a visitor that replaces the node it matches
// and walks into every other node. Parsing and printing (the
// `transformFunction` call with the compiler options) are the boundary of
// the model: a file comes in and goes out as statements.
module ReplaceCjs {
  import opened Wrappers
  import opened Ast
  import opened Walk

  // ------------------------------------------------------------ replaceInJs

  /** `exports.default = <identifier>`. */
  predicate IsDefaultAssign(s: Stmt) {
    && s.ExprStmt? && s.expr.Binary? && s.expr.op == "="
    && s.expr.left == Prop(Id("exports"), "default")
    && s.expr.right.Id?
  }

  /** The statement with its left side rebuilt as `module.exports`; the
      operator and the right side are kept. */
  function ToModuleExports(s: Stmt): (r: Stmt)
    requires IsDefaultAssign(s)
    ensures !IsDefaultAssign(r)
  {
    ExprStmt(Binary(s.expr.op, Prop(Id("module"), "exports"), s.expr.right))
  }

  function JsStmt(s: Stmt): Option<seq<Stmt>> {
    if IsDefaultAssign(s) then Some([ToModuleExports(s)]) else None
  }

  function JsHooks(): Hooks<()> {
    Hooks((s, st, inNs) => (st, JsStmt(s)),
          (e, st) => (st, None),
          (t, st) => (st, None),
          (p, n, st) => (st, n))
  }

  lemma JsKeeps()
    ensures Keeps(JsHooks(), Stateless())
  {
  }

  function ReplaceInJs(content: seq<Stmt>): seq<Stmt> {
    JsKeeps();
    Stmts(JsHooks(), Stateless(), content, (), false).0
  }

  function NoDefaultAssign(): Stmt -> bool {
    s => !IsDefaultAssign(s)
  }

  /** Every `exports.default = x` of the file stands at its top level. */
  ghost predicate JsFlat(ss: seq<Stmt>) {
    forall i :: 0 <= i < |ss| ==> IsDefaultAssign(ss[i]) || StmtWithin(NoDefaultAssign(), ss[i])
  }

  /** Each statement rewritten where it matches, left as it was otherwise. */
  function JsRewritten(ss: seq<Stmt>): (r: seq<Stmt>)
    ensures |r| == |ss|
    ensures forall i :: 0 <= i < |ss| ==> r[i] == if IsDefaultAssign(ss[i]) then ToModuleExports(ss[i]) else ss[i]
  {
    if ss == [] then [] else [if IsDefaultAssign(ss[0]) then ToModuleExports(ss[0]) else ss[0]] + JsRewritten(ss[1..])
  }

  /** `exports.default = x` alone becomes `module.exports = x`. */
  lemma JsRewritesDefault(x: string)
    ensures ReplaceInJs([ExprStmt(Binary("=", Prop(Id("exports"), "default"), Id(x)))])
         == [ExprStmt(Binary("=", Prop(Id("module"), "exports"), Id(x)))]
  {
    JsKeeps();
    StmtsOneHooked(JsHooks(), Stateless(), ExprStmt(Binary("=", Prop(Id("exports"), "default"), Id(x))), (), false);
  }

  /** A file with no `exports.default = <identifier>` anywhere (a
      non-identifier right side, another operator, another object) comes
      back as it was. */
  lemma JsKeepsOthers(content: seq<Stmt>)
    requires StmtsWithin(NoDefaultAssign(), content)
    ensures ReplaceInJs(content) == content
  {
    JsKeeps();
    assert IdleOn(JsHooks(), NoDefaultAssign());
    StmtsWithinKept(JsHooks(), Stateless(), NoDefaultAssign(), content, (), false);
  }

  /** When the assignments stand at the top level, the visitor rewrites
      exactly those statements, in place. */
  lemma {:induction false} JsFlatRewritten(ss: seq<Stmt>)
    requires JsFlat(ss)
    ensures ReplaceInJs(ss) == JsRewritten(ss)
    decreases ss
  {
    JsKeeps();
    var h, inv := JsHooks(), Stateless();
    if ss != [] {
      var r1 := Stmt1(h, inv, ss[0], (), false);
      if IsDefaultAssign(ss[0]) {
        assert r1.0 == [ToModuleExports(ss[0])];
      } else {
        assert IdleOn(h, NoDefaultAssign());
        Stmt1WithinKept(h, inv, NoDefaultAssign(), ss[0], (), false);
      }
      assert JsFlat(ss[1..]) by {
        forall i | 0 <= i < |ss[1..]|
          ensures IsDefaultAssign(ss[1..][i]) || StmtWithin(NoDefaultAssign(), ss[1..][i])
        {
          assert ss[1..][i] == ss[i + 1];
        }
      }
      JsFlatRewritten(ss[1..]);
    }
  }

  /** Running `replaceInJs` again changes nothing. */
  lemma JsIdempotent(ss: seq<Stmt>)
    requires JsFlat(ss)
    ensures ReplaceInJs(ReplaceInJs(ss)) == ReplaceInJs(ss)
  {
    JsFlatRewritten(ss);
    var r := JsRewritten(ss);
    forall i | 0 <= i < |r| ensures StmtWithin(NoDefaultAssign(), r[i]) {
      if IsDefaultAssign(ss[i]) {
        RewrittenWithin(ss[i]);
      }
    }
    assert JsFlat(r);
    JsFlatRewritten(r);
    RewrittenAgain(r);
  }

  /** The rewritten statement holds no `exports.default = x` anywhere. */
  lemma RewrittenWithin(s: Stmt)
    requires IsDefaultAssign(s)
    ensures StmtWithin(NoDefaultAssign(), ToModuleExports(s))
  {
    var e := ToModuleExports(s).expr;
    assert ExprWithin(NoDefaultAssign(), e.left) && ExprWithin(NoDefaultAssign(), e.right);
  }

  lemma RewrittenAgain(r: seq<Stmt>)
    requires forall i :: 0 <= i < |r| ==> StmtWithin(NoDefaultAssign(), r[i])
    ensures JsRewritten(r) == r
  {
    forall i | 0 <= i < |r| ensures !IsDefaultAssign(r[i]) {
      WithinNotDefault(r[i]);
    }
  }

  lemma WithinNotDefault(s: Stmt)
    requires StmtWithin(NoDefaultAssign(), s)
    ensures !IsDefaultAssign(s)
  {
  }

  // ------------------------------------------------------------ replaceInTs

  /** `export default e` (no modifiers, not `export =`). */
  predicate IsExportDefault(s: Stmt) {
    s.ExportAssign? && !s.isEquals
  }

  function TsStmt(s: Stmt): Option<seq<Stmt>> {
    if IsExportDefault(s) then Some([ExportAssign(true, s.expr)]) else None
  }

  function TsHooks(): Hooks<()> {
    Hooks((s, st, inNs) => (st, TsStmt(s)),
          (e, st) => (st, None),
          (t, st) => (st, None),
          (p, n, st) => (st, n))
  }

  lemma TsKeeps()
    ensures Keeps(TsHooks(), Stateless())
  {
  }

  function ReplaceInTs(content: seq<Stmt>): seq<Stmt> {
    TsKeeps();
    Stmts(TsHooks(), Stateless(), content, (), false).0
  }

  function NoExportAssign(): Stmt -> bool {
    (s: Stmt) => !s.ExportAssign?
  }

  /** Export assignments stand only at the top level of a file, as the
      TypeScript grammar requires (not in a namespace, a function or a
      block). */
  ghost predicate TsFlat(ss: seq<Stmt>) {
    forall i :: 0 <= i < |ss| ==> ChildrenWithin(NoExportAssign(), ss[i]) && (ss[i].ExportAssign? || NoExportAssign()(ss[i]))
  }

  function TsRewritten(ss: seq<Stmt>): (r: seq<Stmt>)
    ensures |r| == |ss|
    ensures forall i :: 0 <= i < |ss| ==> r[i] == if IsExportDefault(ss[i]) then ExportAssign(true, ss[i].expr) else ss[i]
  {
    if ss == [] then [] else [if IsExportDefault(ss[0]) then ExportAssign(true, ss[0].expr) else ss[0]] + TsRewritten(ss[1..])
  }

  /** The visitor turns every `export default e` into `export = e` with the
      same expression, and leaves every other statement as it was. */
  lemma {:induction false} TsFlatRewritten(ss: seq<Stmt>)
    requires TsFlat(ss)
    ensures ReplaceInTs(ss) == TsRewritten(ss)
    decreases ss
  {
    TsKeeps();
    var h, inv := TsHooks(), Stateless();
    if ss != [] {
      var r1 := Stmt1(h, inv, ss[0], (), false);
      if IsExportDefault(ss[0]) {
        assert r1.0 == [ExportAssign(true, ss[0].expr)];
      } else if ss[0].ExportAssign? {
        assert h.stmt(ss[0], (), false) == ((), None);
        assert IdleOn(h, NoExportAssign());
        ChildrenWithinKept(h, inv, NoExportAssign(), ss[0], (), false);
      } else {
        assert IdleOn(h, NoExportAssign());
        assert StmtWithin(NoExportAssign(), ss[0]);
        Stmt1WithinKept(h, inv, NoExportAssign(), ss[0], (), false);
      }
      assert TsFlat(ss[1..]) by {
        forall i | 0 <= i < |ss[1..]|
          ensures ChildrenWithin(NoExportAssign(), ss[1..][i]) && (ss[1..][i].ExportAssign? || NoExportAssign()(ss[1..][i]))
        {
          assert ss[1..][i] == ss[i + 1];
        }
      }
      TsFlatRewritten(ss[1..]);
    }
  }

  /** `export = e` is left alone, so running `replaceInTs` again changes
      nothing. */
  lemma TsIdempotent(ss: seq<Stmt>)
    requires TsFlat(ss)
    ensures ReplaceInTs(ReplaceInTs(ss)) == ReplaceInTs(ss)
  {
    TsFlatRewritten(ss);
    var r := TsRewritten(ss);
    assert TsFlat(r);
    TsFlatRewritten(r);
    assert TsRewritten(r) == r;
  }
}
