// src/bundle.ts: the first bundler. The sorted dependency list ends with
// the entry file. Every file is re-printed by one visitor pass: import and
// import-equals declarations are taken out (their text collected); in the
// other files `export { … }` and `export default <identifier>` are taken
// out too, while in the entry they only raise two flags that the closure
// of one `bundle` call shares. When the entry raised both flags (and the
// output is not an ES module) a second pass takes the entry's export
// declarations out as well. The external imports are merged and put on top.
module LegacyBundle {
  import opened Wrappers
  import opened Text
  import opened Ast
  import opened Walk
  import opened BundleCreator
  import RI = RemoveImports
  import MI = MergeImports
  import Bundler

  /** A dependency: its path and its parsed content. */
  datatype Dep = Dep(filePath: string, content: seq<Stmt>)

  /** What the closure of one `bundle` call accumulates: the removed import
      texts and the two export flags. */
  datatype RState = RState(removed: seq<string>, nameExport: bool, defaultExport: bool)

  /** The result of `bundle`. */
  datatype Bundled = Bundled(code: string, dexport: bool)

  // --------------------------------------------------------------- visitor

  /** `export default x` or `export = x` with an identifier `x`. */
  predicate IsDefaultIdentifier(s: Stmt) {
    s.ExportAssign? && s.expr.Id?
  }

  /** The export nodes the visitor reacts to. */
  predicate IsExportNode(s: Stmt) {
    s.ExportDecl? || IsDefaultIdentifier(s)
  }

  /** A statement the visitor acts on. */
  predicate Touched(s: Stmt) {
    RI.IsImport(s) || IsExportNode(s)
  }

  /** The visitor at a statement; `exp` is false for the entry file. */
  function VisitStmt(exp: bool, s: Stmt, st: RState): (RState, Option<seq<Stmt>>) {
    if RI.IsImport(s) then (st.(removed := st.removed + [RI.TextOf(s)]), Some([Empty]))
    else if !IsExportNode(s) then (st, None)
    else if exp then (st, Some([Empty]))
    else (st.(nameExport := st.nameExport || s.ExportDecl?,
              defaultExport := st.defaultExport || IsDefaultIdentifier(s)), None)
  }

  function VisitHooks(exp: bool): Hooks<RState> {
    Hooks((s: Stmt, st: RState, inNs: bool) => VisitStmt(exp, s, st),
          (e, st) => (st, None),
          (t, st) => (st, None),
          (p, n, st) => (st, n))
  }

  /** The removed list only grows; a dependency leaves the flags alone and
      the entry can only raise them. */
  function Grows(exp: bool): (RState, RState) -> bool {
    (a: RState, b: RState) =>
      && a.removed <= b.removed
      && (if exp then a.nameExport == b.nameExport && a.defaultExport == b.defaultExport
          else (a.nameExport ==> b.nameExport) && (a.defaultExport ==> b.defaultExport))
  }

  lemma VisitKeeps(exp: bool)
    ensures Keeps(VisitHooks(exp), Grows(exp))
  {
  }

  /** The second visitor: every export declaration becomes empty. */
  function ReHooks(): Hooks<()> {
    Hooks((s: Stmt, st: (), inNs: bool) => (st, if s.ExportDecl? then Some([Empty]) else None),
          (e, st) => (st, None),
          (t, st) => (st, None),
          (p, n, st) => (st, n))
  }

  /** The statements of one file after the visitor and, when the flags call
      for it, the second visitor, with the closure state after them. */
  function Transformed(exp: bool, isESM: bool, ss: seq<Stmt>, st: RState): (r: (seq<Stmt>, RState))
    ensures st.removed <= r.1.removed
    ensures exp ==> r.1.nameExport == st.nameExport && r.1.defaultExport == st.defaultExport
    ensures (st.nameExport ==> r.1.nameExport) && (st.defaultExport ==> r.1.defaultExport)
  {
    VisitKeeps(exp);
    var w := Stmts(VisitHooks(exp), Grows(exp), ss, st, false);
    if w.1.nameExport && w.1.defaultExport && !isESM then
      (Stmts(ReHooks(), Stateless(), w.0, (), false).0, w.1)
    else w
  }

  /** `remove(dep, exp)`: the printed, cleaned text of one file. */
  function Removed(dep: Dep, exp: bool, isESM: bool, printer: seq<Stmt> -> string, st: RState): (r: (string, RState))
    ensures st.removed <= r.1.removed
    ensures exp ==> r.1.nameExport == st.nameExport && r.1.defaultExport == st.defaultExport
    ensures (st.nameExport ==> r.1.nameExport) && (st.defaultExport ==> r.1.defaultExport)
  {
    var t := Transformed(exp, isESM, dep.content, st);
    (Clean(printer(t.0)), t.1)
  }

  /** `deps.map((dep) => remove(dep, exp))`, in order, from the shared state. */
  function Pass(deps: seq<Dep>, exp: bool, isESM: bool, printer: seq<Stmt> -> string, st: RState): (r: (seq<string>, RState))
    ensures |r.0| == |deps|
    ensures st.removed <= r.1.removed
    ensures exp ==> r.1.nameExport == st.nameExport && r.1.defaultExport == st.defaultExport
    decreases |deps|
  {
    if deps == [] then ([], st)
    else
      var p := Pass(deps[..|deps| - 1], exp, isESM, printer, st);
      var x := Removed(deps[|deps| - 1], exp, isESM, printer, p.1);
      (p.0 + [x.0], x.1)
  }

  lemma PassStep(deps: seq<Dep>, i: nat, exp: bool, isESM: bool, printer: seq<Stmt> -> string, st: RState,
                 p: (seq<string>, RState), x: (string, RState))
    requires i < |deps|
    requires p == Pass(deps[..i], exp, isESM, printer, st)
    requires x == Removed(deps[i], exp, isESM, printer, p.1)
    ensures Pass(deps[..i + 1], exp, isESM, printer, st) == (p.0 + [x.0], x.1)
  {
    assert deps[..i + 1][..i] == deps[..i];
  }

  /** All files but the last are dependencies, the last is the entry; the
      texts in order, and the state after both passes. */
  function Processed(sorted: seq<Dep>, isESM: bool, printer: seq<Stmt> -> string): (r: (seq<string>, RState))
    ensures |r.0| == |sorted|
    ensures sorted == [] ==> r.1 == RState([], false, false)
  {
    var n := |sorted|;
    var deps := if n == 0 then [] else sorted[..n - 1];
    var entry := if n == 0 then [] else [sorted[n - 1]];
    var a := Pass(deps, true, isESM, printer, RState([], false, false));
    var b := Pass(entry, false, isESM, printer, a.1);
    (a.0 + b.0, b.1)
  }

  /** `bundle(entry, isESM)` on the sorted dependency list. */
  function BundleSpec(sorted: seq<Dep>, isESM: bool, printer: seq<Stmt> -> string): (r: Bundled)
    ensures r.dexport ==> sorted != []
  {
    var p := Processed(sorted, isESM, printer);
    var imports := MI.Merged(Bundler.External(p.1.removed));
    Bundled(Trim(Join(imports, "\n") + "\n" + Join(p.0, "\n") + "\n"), p.1.nameExport && p.1.defaultExport)
  }

  // --------------------------------------------------------------- methods

  /** The closure of one `bundle` call: the flags and the removed list. */
  class Bundling {
    var isNameExport: bool
    var isDefaultExport: bool
    var removedStatements: seq<string>

    function State(): RState
      reads this
    {
      RState(removedStatements, isNameExport, isDefaultExport)
    }

    constructor ()
      ensures State() == RState([], false, false)
    {
      isNameExport := false;
      isDefaultExport := false;
      removedStatements := [];
    }

    /** `remove(dep, exp)`: the file's text; the flags and the list updated. */
    method Remove(dep: Dep, exp: bool, isESM: bool, printer: seq<Stmt> -> string) returns (text: string)
      modifies this
      ensures (text, State()) == Removed(dep, exp, isESM, printer, old(State()))
    {
      var r := Removed(dep, exp, isESM, printer, State());
      text := r.0;
      removedStatements := r.1.removed;
      isNameExport := r.1.nameExport;
      isDefaultExport := r.1.defaultExport;
    }

    /** `deps.map((dep) => remove(dep, exp))`. */
    method RemoveAll(deps: seq<Dep>, exp: bool, isESM: bool, printer: seq<Stmt> -> string) returns (texts: seq<string>)
      modifies this
      ensures (texts, State()) == Pass(deps, exp, isESM, printer, old(State()))
    {
      ghost var start := State();
      texts := [];
      for i := 0 to |deps|
        invariant (texts, State()) == Pass(deps[..i], exp, isESM, printer, start)
      {
        ghost var p := (texts, State());
        var t := Remove(deps[i], exp, isESM, printer);
        PassStep(deps, i, exp, isESM, printer, start, p, (t, State()));
        texts := texts + [t];
      }
      assert deps[..|deps|] == deps;
    }
  }

  /** The two `map(remove)` calls: dependencies first, then the entry. */
  method ProcessAll(sorted: seq<Dep>, isESM: bool, printer: seq<Stmt> -> string) returns (contents: seq<string>, st: RState)
    ensures (contents, st) == Processed(sorted, isESM, printer)
  {
    var b := new Bundling();
    var n := |sorted|;
    var deps := if n == 0 then [] else sorted[..n - 1];
    var entry := if n == 0 then [] else [sorted[n - 1]];
    var depsContent := b.RemoveAll(deps, true, isESM, printer);
    var entryContent := b.RemoveAll(entry, false, isESM, printer);
    contents := depsContent + entryContent;
    st := b.State();
  }

  /** `bundle`: the processed texts under the merged external imports. */
  method Bundle(sorted: seq<Dep>, isESM: bool, printer: seq<Stmt> -> string) returns (code: string, dexport: bool)
    ensures Bundled(code, dexport) == BundleSpec(sorted, isESM, printer)
  {
    var contents, st := ProcessAll(sorted, isESM, printer);
    var kept := Bundler.FilterExternal(st.removed);
    var merged := MI.MergeImports(kept);
    code := Trim(Join(merged, "\n") + "\n" + Join(contents, "\n") + "\n");
    dexport := st.nameExport && st.defaultExport;
  }

  // ------------------------------------------------------------ properties

  /** Statements holding nothing the visitor acts on. */
  function Untouched(): Stmt -> bool {
    s => !Touched(s)
  }

  /** Each top-level statement is either one the visitor acts on or holds
      none at any depth: the usual shape of a module. */
  ghost predicate Flat(ss: seq<Stmt>) {
    forall i :: 0 <= i < |ss| ==> Touched(ss[i]) || StmtWithin(Untouched(), ss[i])
  }

  /** The statements satisfying `gone` replaced by empty statements, in place. */
  function Blanked(ss: seq<Stmt>, gone: Stmt -> bool): (r: seq<Stmt>)
    ensures |r| == |ss|
    ensures forall i :: 0 <= i < |ss| ==> r[i] == if gone(ss[i]) then Empty else ss[i]
  {
    if ss == [] then [] else [if gone(ss[0]) then Empty else ss[0]] + Blanked(ss[1..], gone)
  }

  /** What the visitor empties: imports everywhere, export nodes outside the entry. */
  function Gone(exp: bool): Stmt -> bool {
    s => RI.IsImport(s) || (exp && IsExportNode(s))
  }

  /** What the entry loses when both flags are raised: imports and export declarations. */
  function ImportOrExportDecl(): Stmt -> bool {
    s => RI.IsImport(s) || s.ExportDecl?
  }

  /** Some top-level statement is an export declaration. */
  predicate HasExportDecl(ss: seq<Stmt>)
    ensures HasExportDecl(ss) <==> exists i :: 0 <= i < |ss| && ss[i].ExportDecl?
  {
    ss != [] && (ss[0].ExportDecl? || HasExportDecl(ss[1..]))
  }

  /** Some top-level statement is `export default <identifier>` or `export = <identifier>`. */
  predicate HasDefaultIdentifier(ss: seq<Stmt>)
    ensures HasDefaultIdentifier(ss) <==> exists i :: 0 <= i < |ss| && IsDefaultIdentifier(ss[i])
  {
    ss != [] && (IsDefaultIdentifier(ss[0]) || HasDefaultIdentifier(ss[1..]))
  }

  /** The first visitor on a flat file: the statements it acts on become
      empty (export nodes only outside the entry), the import texts are
      appended in file order, and in the entry each flag is raised iff the
      file has such an export. */
  lemma FlatVisit(exp: bool, ss: seq<Stmt>, st: RState)
    requires Flat(ss)
    ensures Keeps(VisitHooks(exp), Grows(exp))
    ensures Stmts(VisitHooks(exp), Grows(exp), ss, st, false)
         == (Blanked(ss, Gone(exp)),
             RState(st.removed + RI.TopTexts(ss),
                    st.nameExport || (!exp && HasExportDecl(ss)),
                    st.defaultExport || (!exp && HasDefaultIdentifier(ss))))
  {
    VisitKeeps(exp);
    var h := VisitHooks(exp);
    forall i, st0 | 0 <= i < |ss| ensures Stmt1(h, Grows(exp), ss[i], st0, false) == FlatStep(exp)(ss[i], st0) {
      FlatVisitStep(exp, ss[i], st0);
    }
    StmtsEach(h, Grows(exp), ss, st, false, FlatStep(exp));
    FlatAll(exp, ss, st);
  }

  /** The first visitor's result at one top-level statement of a flat file. */
  function FlatStep(exp: bool): (Stmt, RState) -> (seq<Stmt>, RState) {
    (s, st: RState) => ([if Gone(exp)(s) then Empty else s],
                        RState(st.removed + (if RI.IsImport(s) then [RI.TextOf(s)] else []),
                               st.nameExport || (!exp && s.ExportDecl?),
                               st.defaultExport || (!exp && IsDefaultIdentifier(s))))
  }

  /** Those results, statement after statement. */
  lemma {:induction false} FlatAll(exp: bool, ss: seq<Stmt>, st: RState)
    ensures StepAll(FlatStep(exp), ss, st)
         == (Blanked(ss, Gone(exp)),
             RState(st.removed + RI.TopTexts(ss),
                    st.nameExport || (!exp && HasExportDecl(ss)),
                    st.defaultExport || (!exp && HasDefaultIdentifier(ss))))
    decreases ss
  {
    if ss == [] {
      assert st.removed + [] == st.removed;
    } else {
      var r1 := FlatStep(exp)(ss[0], st);
      FlatAll(exp, ss[1..], r1.1);
      FlatJoin(exp, ss, st, r1, StepAll(FlatStep(exp), ss[1..], r1.1));
    }
  }

  /** The head's result and the tail's result make the whole list's. */
  lemma FlatJoin(exp: bool, ss: seq<Stmt>, st: RState, r1: (seq<Stmt>, RState), r2: (seq<Stmt>, RState))
    requires ss != []
    requires r1 == ([if Gone(exp)(ss[0]) then Empty else ss[0]],
                    RState(st.removed + (if RI.IsImport(ss[0]) then [RI.TextOf(ss[0])] else []),
                           st.nameExport || (!exp && ss[0].ExportDecl?),
                           st.defaultExport || (!exp && IsDefaultIdentifier(ss[0]))))
    requires r2 == (Blanked(ss[1..], Gone(exp)),
                    RState(r1.1.removed + RI.TopTexts(ss[1..]),
                           r1.1.nameExport || (!exp && HasExportDecl(ss[1..])),
                           r1.1.defaultExport || (!exp && HasDefaultIdentifier(ss[1..]))))
    ensures (r1.0 + r2.0, r2.1)
         == (Blanked(ss, Gone(exp)),
             RState(st.removed + RI.TopTexts(ss),
                    st.nameExport || (!exp && HasExportDecl(ss)),
                    st.defaultExport || (!exp && HasDefaultIdentifier(ss))))
  {
    var t0 := if RI.IsImport(ss[0]) then [RI.TextOf(ss[0])] else [];
    assert RI.TopTexts(ss) == t0 + RI.TopTexts(ss[1..]);
    AppendAssoc(st.removed, t0, RI.TopTexts(ss[1..]));
  }

  /** The first visitor at one top-level statement of a flat file. */
  lemma FlatVisitStep(exp: bool, s: Stmt, st: RState)
    requires Touched(s) || StmtWithin(Untouched(), s)
    ensures Keeps(VisitHooks(exp), Grows(exp))
    ensures Stmt1(VisitHooks(exp), Grows(exp), s, st, false)
         == ([if Gone(exp)(s) then Empty else s],
             RState(st.removed + (if RI.IsImport(s) then [RI.TextOf(s)] else []),
                    st.nameExport || (!exp && s.ExportDecl?),
                    st.defaultExport || (!exp && IsDefaultIdentifier(s))))
  {
    VisitKeeps(exp);
    var h := VisitHooks(exp);
    var r1 := Stmt1(h, Grows(exp), s, st, false);
    if RI.IsImport(s) || (exp && IsExportNode(s)) {
      assert r1.0 == [Empty];
    } else if IsExportNode(s) {
      var st1 := h.stmt(s, st, false).0;
      assert h.stmt(s, st, false).1 == None;
      assert ChildrenWithin(Untouched(), s);
      ChildrenWithinKept(h, Grows(exp), Untouched(), s, st1, false);
      assert r1 == ([s], st1);
    } else {
      Stmt1WithinKept(h, Grows(exp), Untouched(), s, st, false);
    }
    assert r1.1 == RState(st.removed + (if RI.IsImport(s) then [RI.TextOf(s)] else []),
                          st.nameExport || (!exp && s.ExportDecl?),
                          st.defaultExport || (!exp && IsDefaultIdentifier(s)));
  }

  lemma AppendAssoc(a: seq<string>, b: seq<string>, c: seq<string>)
    ensures (a + b) + c == a + (b + c)
  {
  }

  /** The second visitor on a flat file after the first: the export
      declarations left in it become empty as well. */
  lemma FlatRevisit(ss: seq<Stmt>, gone: Stmt -> bool)
    requires Flat(ss)
    requires forall s :: RI.IsImport(s) ==> gone(s)
    ensures Stmts(ReHooks(), Stateless(), Blanked(ss, gone), (), false).0
         == Blanked(ss, s => gone(s) || s.ExportDecl?)
  {
    var bl := Blanked(ss, gone);
    forall i, st0: () | 0 <= i < |bl| ensures Stmt1(ReHooks(), Stateless(), bl[i], st0, false) == ReStep()(bl[i], st0) {
      assert Touched(ss[i]) || StmtWithin(Untouched(), ss[i]);
      assert RI.IsImport(ss[i]) ==> gone(ss[i]);
      assert bl[i] == if gone(ss[i]) then Empty else ss[i];
      assert st0 == ();
      FlatRevisitStep(ss[i], gone);
    }
    StmtsEach(ReHooks(), Stateless(), bl, (), false, ReStep());
    ReAll(ss, gone);
  }

  /** The second visitor's result at one statement left by the first. */
  function ReStep(): (Stmt, ()) -> (seq<Stmt>, ()) {
    (b: Stmt, u: ()) => ([if b.ExportDecl? then Empty else b], ())
  }

  /** The second visitor at one top-level statement of a flat file after the first. */
  lemma FlatRevisitStep(s: Stmt, gone: Stmt -> bool)
    requires Touched(s) || StmtWithin(Untouched(), s)
    requires RI.IsImport(s) ==> gone(s)
    ensures var b := if gone(s) then Empty else s;
            Stmt1(ReHooks(), Stateless(), b, (), false) == ReStep()(b, ())
  {
    var h := ReHooks();
    var b := if gone(s) then Empty else s;
    if !gone(s) && s.ExportDecl? {
      assert Stmt1(h, Stateless(), b, (), false).0 == [Empty];
    } else if !gone(s) && IsDefaultIdentifier(s) {
      assert ChildrenWithin(Untouched(), s);
      ChildrenWithinKept(h, Stateless(), Untouched(), s, (), false);
    } else {
      assert StmtWithin(Untouched(), b);
      Stmt1WithinKept(h, Stateless(), Untouched(), b, (), false);
    }
  }

  /** Those results, statement after statement. */
  lemma {:induction false} ReAll(ss: seq<Stmt>, gone: Stmt -> bool)
    ensures StepAll(ReStep(), Blanked(ss, gone), ()).0 == Blanked(ss, s => gone(s) || s.ExportDecl?)
    decreases ss
  {
    if ss != [] {
      ReAll(ss[1..], gone);
      assert Blanked(ss, gone)[1..] == Blanked(ss[1..], gone);
    }
  }

  /** Two emptying rules that agree on the file give the same result. */
  lemma BlankedSame(ss: seq<Stmt>, f: Stmt -> bool, g: Stmt -> bool)
    requires forall i :: 0 <= i < |ss| ==> f(ss[i]) == g(ss[i])
    ensures Blanked(ss, f) == Blanked(ss, g)
  {
  }

  /** A flat dependency file: imports and export nodes emptied, whatever the
      flags; the flags untouched. */
  lemma DependencyTransformed(isESM: bool, ss: seq<Stmt>, st: RState)
    requires Flat(ss)
    ensures Transformed(true, isESM, ss, st) == (Blanked(ss, Touched), st.(removed := st.removed + RI.TopTexts(ss)))
  {
    FlatVisit(true, ss, st);
    BlankedSame(ss, Gone(true), Touched);
    if st.nameExport && st.defaultExport && !isESM {
      FlatRevisit(ss, Gone(true));
      BlankedSame(ss, s => Gone(true)(s) || s.ExportDecl?, Touched);
    }
  }

  /** A flat entry file: imports emptied; the flags raised by its own export
      nodes; its export declarations emptied iff both flags end up raised
      and the output is not an ES module. */
  lemma EntryTransformed(isESM: bool, ss: seq<Stmt>, st: RState)
    requires Flat(ss)
    ensures var name := st.nameExport || HasExportDecl(ss);
            var def := st.defaultExport || HasDefaultIdentifier(ss);
            Transformed(false, isESM, ss, st) == (Blanked(ss, if name && def && !isESM then ImportOrExportDecl() else RI.IsImport),
                                                  RState(st.removed + RI.TopTexts(ss), name, def))
  {
    FlatVisit(false, ss, st);
    BlankedSame(ss, Gone(false), RI.IsImport);
    var name := st.nameExport || HasExportDecl(ss);
    var def := st.defaultExport || HasDefaultIdentifier(ss);
    if name && def && !isESM {
      FlatRevisit(ss, Gone(false));
      BlankedSame(ss, s => Gone(false)(s) || s.ExportDecl?, ImportOrExportDecl());
    }
  }

  /** The import texts of every file, in list order. */
  function AllTexts(deps: seq<Dep>): (r: seq<string>)
    decreases |deps|
  {
    if deps == [] then [] else AllTexts(deps[..|deps| - 1]) + RI.TopTexts(deps[|deps| - 1].content)
  }

  /** The text of a flat dependency file. */
  function DependencyText(printer: seq<Stmt> -> string, d: Dep): string {
    Clean(printer(Blanked(d.content, Touched)))
  }

  ghost predicate AllFlat(deps: seq<Dep>) {
    forall i :: 0 <= i < |deps| ==> Flat(deps[i].content)
  }

  /** One flat dependency file through `remove(dep, true)`. */
  lemma RemovedDependency(d: Dep, isESM: bool, printer: seq<Stmt> -> string, st: RState)
    requires Flat(d.content)
    ensures Removed(d, true, isESM, printer, st) == (DependencyText(printer, d), st.(removed := st.removed + RI.TopTexts(d.content)))
  {
    DependencyTransformed(isESM, d.content, st);
  }

  /** The dependency pass over flat files: each text is the file with its
      imports and export nodes emptied, the import texts are collected in
      order and the flags stay as they were. */
  lemma {:induction false} DependencyPass(deps: seq<Dep>, isESM: bool, printer: seq<Stmt> -> string, st: RState)
    requires AllFlat(deps)
    ensures forall i :: 0 <= i < |deps| ==> Pass(deps, true, isESM, printer, st).0[i] == DependencyText(printer, deps[i])
    ensures Pass(deps, true, isESM, printer, st).1 == st.(removed := st.removed + AllTexts(deps))
    decreases |deps|
  {
    if deps == [] {
      assert st.removed + [] == st.removed;
    } else {
      var n := |deps|;
      var init := deps[..n - 1];
      assert AllFlat(init) by {
        forall i | 0 <= i < |init| ensures Flat(init[i].content) {
          assert init[i] == deps[i];
        }
      }
      DependencyPass(init, isESM, printer, st);
      PassSnocDependency(deps, isESM, printer, st);
      DependencyStep(Pass(deps, true, isESM, printer, st), Pass(init, true, isESM, printer, st), deps, printer, st);
    }
  }

  /** The step of `DependencyPass`, over the two results alone. */
  lemma DependencyStep(r: (seq<string>, RState), p: (seq<string>, RState), deps: seq<Dep>, printer: seq<Stmt> -> string, st: RState)
    requires deps != []
    requires r == (p.0 + [DependencyText(printer, deps[|deps| - 1])],
                   p.1.(removed := p.1.removed + RI.TopTexts(deps[|deps| - 1].content)))
    requires |p.0| == |deps| - 1
    requires forall i :: 0 <= i < |deps| - 1 ==> p.0[i] == DependencyText(printer, deps[i])
    requires p.1 == st.(removed := st.removed + AllTexts(deps[..|deps| - 1]))
    ensures forall i :: 0 <= i < |deps| ==> r.0[i] == DependencyText(printer, deps[i])
    ensures r.1 == st.(removed := st.removed + AllTexts(deps))
  {
    var n := |deps|;
    TextsSnoc(p.0, DependencyText(printer, deps[n - 1]), deps, printer);
    assert AllTexts(deps) == AllTexts(deps[..n - 1]) + RI.TopTexts(deps[n - 1].content);
    AppendAssoc(st.removed, AllTexts(deps[..n - 1]), RI.TopTexts(deps[n - 1].content));
  }

  /** The dependency pass over a list is the pass over all but the last
      file, then the last flat file. */
  lemma PassSnocDependency(deps: seq<Dep>, isESM: bool, printer: seq<Stmt> -> string, st: RState)
    requires deps != [] && Flat(deps[|deps| - 1].content)
    ensures var p := Pass(deps[..|deps| - 1], true, isESM, printer, st);
      Pass(deps, true, isESM, printer, st)
        == (p.0 + [DependencyText(printer, deps[|deps| - 1])], p.1.(removed := p.1.removed + RI.TopTexts(deps[|deps| - 1].content)))
  {
    var p := Pass(deps[..|deps| - 1], true, isESM, printer, st);
    RemovedDependency(deps[|deps| - 1], isESM, printer, p.1);
  }

  /** The pass over all files but the entry, from the initial state. */
  lemma DependenciesFirst(sorted: seq<Dep>, isESM: bool, printer: seq<Stmt> -> string)
    requires sorted != [] && AllFlat(sorted)
    ensures var deps := sorted[..|sorted| - 1];
      var a := Pass(deps, true, isESM, printer, RState([], false, false));
      && (forall i :: 0 <= i < |deps| ==> a.0[i] == DependencyText(printer, deps[i]))
      && a.1 == RState(AllTexts(deps), false, false)
  {
    var deps := sorted[..|sorted| - 1];
    assert AllFlat(deps) by {
      forall i | 0 <= i < |deps| ensures Flat(deps[i].content) {
        assert deps[i] == sorted[i];
      }
    }
    DependencyPass(deps, isESM, printer, RState([], false, false));
    assert [] + AllTexts(deps) == AllTexts(deps);
  }

  /** The dependency texts stay in front of the entry's. */
  lemma DependencyTexts(a: seq<string>, b: seq<string>, sorted: seq<Dep>, printer: seq<Stmt> -> string)
    requires |a| + 1 == |sorted| && |b| == 1
    requires forall i :: 0 <= i < |a| ==> a[i] == DependencyText(printer, sorted[..|a|][i])
    ensures forall i :: 0 <= i < |a| ==> (a + b)[i] == DependencyText(printer, sorted[i])
    ensures (a + b)[|a|] == b[0]
  {
    forall i | 0 <= i < |a| ensures (a + b)[i] == DependencyText(printer, sorted[i]) {
      assert sorted[..|a|][i] == sorted[i];
    }
  }

  /** The texts of the first files and of the last one, together. */
  lemma TextsSnoc(texts: seq<string>, last: string, deps: seq<Dep>, printer: seq<Stmt> -> string)
    requires |deps| == |texts| + 1
    requires forall i :: 0 <= i < |texts| ==> texts[i] == DependencyText(printer, deps[i])
    requires last == DependencyText(printer, deps[|texts|])
    ensures forall i :: 0 <= i < |deps| ==> (texts + [last])[i] == DependencyText(printer, deps[i])
  {
  }

  /** The entry alone through `remove(dep, false)`, after flat dependencies. */
  lemma EntryPass(e: Dep, isESM: bool, printer: seq<Stmt> -> string, removed: seq<string>)
    requires Flat(e.content)
    ensures var both := HasExportDecl(e.content) && HasDefaultIdentifier(e.content);
            var gone := if both && !isESM then ImportOrExportDecl() else RI.IsImport;
            Pass([e], false, isESM, printer, RState(removed, false, false))
            == ([Clean(printer(Blanked(e.content, gone)))],
                RState(removed + RI.TopTexts(e.content), HasExportDecl(e.content), HasDefaultIdentifier(e.content)))
  {
    var st := RState(removed, false, false);
    assert [e][..0] == [];
    assert Pass([], false, isESM, printer, st) == ([], st);
    EntryTransformed(isESM, e.content, st);
    var x := Removed(e, false, isESM, printer, st);
    assert Pass([e], false, isESM, printer, st) == ([] + [x.0], x.1);
    assert [] + [x.0] == [x.0];
  }

  /** `bundle` on flat files: every file but the last loses its imports and
      export nodes; the last one, the entry, loses its imports, and its
      export declarations too when it has both an export declaration and an
      identifier default export and the output is not an ES module; the
      imports of all files are collected in order; `dexport` holds iff the
      entry has both kinds of export. */
  lemma LegacyBundleFlat(sorted: seq<Dep>, isESM: bool, printer: seq<Stmt> -> string)
    requires sorted != [] && AllFlat(sorted)
    ensures var n := |sorted|;
            var last := sorted[n - 1].content;
            var both := HasExportDecl(last) && HasDefaultIdentifier(last);
            && (forall i :: 0 <= i < n - 1 ==> Processed(sorted, isESM, printer).0[i] == DependencyText(printer, sorted[i]))
            && Processed(sorted, isESM, printer).0[n - 1]
               == Clean(printer(Blanked(last, if both && !isESM then ImportOrExportDecl() else RI.IsImport)))
            && Processed(sorted, isESM, printer).1 == RState(AllTexts(sorted), HasExportDecl(last), HasDefaultIdentifier(last))
  {
    var n := |sorted|;
    var deps := sorted[..n - 1];
    var start := RState([], false, false);
    DependenciesFirst(sorted, isESM, printer);
    var a := Pass(deps, true, isESM, printer, start);
    var entry := [sorted[n - 1]];
    EntryPass(sorted[n - 1], isESM, printer, AllTexts(deps));
    var b := Pass(entry, false, isESM, printer, a.1);
    ProcessedParts(sorted, isESM, printer);
    DependencyTexts(a.0, b.0, sorted, printer);
    assert AllTexts(sorted) == AllTexts(deps) + RI.TopTexts(sorted[n - 1].content);
  }

  /** `bundle` runs the dependency pass, then the entry pass from its state. */
  lemma ProcessedParts(sorted: seq<Dep>, isESM: bool, printer: seq<Stmt> -> string)
    requires sorted != []
    ensures var a := Pass(sorted[..|sorted| - 1], true, isESM, printer, RState([], false, false));
      var b := Pass([sorted[|sorted| - 1]], false, isESM, printer, a.1);
      Processed(sorted, isESM, printer) == (a.0 + b.0, b.1)
  {
  }
}
