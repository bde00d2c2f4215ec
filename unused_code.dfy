// `clearUnusedCode` of src/lib/bundle/unusedCode.ts: drop the imports,
// functions, classes and variable statements of one file whose names
// nothing in the file uses. A first pass walks every node and records the
// names each declaration defines (with a sticky "exported" mark) and every
// identifier that is not the name of a declaration; the unused names are
// the defined ones never used, exported ones aside when exports count as
// used; a second pass removes or trims the declarations of unused names.
// Parsing and printing are the boundary of the model; a statement replaced
// by `createNotEmittedStatement` prints nothing and is left out of the
// result.
module UnusedCode {
  import opened Wrappers
  import opened Ast
  import opened Walk

  /** `ClearUnusedOptions`; `treatExportsAsUsed` may be left out. */
  datatype Options = Options(treatExportsAsUsed: Option<bool>)

  /** The options default to `{ treatExportsAsUsed: true }` only when none
      are passed; an options object without the field counts as false. */
  function TreatsExportsAsUsed(options: Option<Options>): bool {
    match options
    case None => true
    case Some(o) => o.treatExportsAsUsed == Some(true)
  }

  // ------------------------------------------------------ defined names

  /** `collectBindingNames`: the identifiers a binding declares, left to
      right, through nested object and array patterns; property names of
      a pattern are not declared. */
  function BindingNames(b: Binding): seq<string>
    decreases b
  {
    match b
    case BindId(n) => [n]
    case BindObject(es) => ElemNames(es)
    case BindArray(es) => ElemNames(es)
  }

  function ElemNames(es: seq<BindingElem>): seq<string>
    decreases es
  {
    if es == [] then [] else ElemNames1(es[0]) + ElemNames(es[1..])
  }

  function ElemNames1(e: BindingElem): seq<string>
    decreases e
  {
    BindingNames(e.target)
  }

  /** The names declared by a list of variable declarations, in order. */
  function DeclNames(ds: seq<VarDecl>): seq<string> {
    if ds == [] then [] else DeclNames(ds[..|ds| - 1]) + BindingNames(ds[|ds| - 1].name)
  }

  /** The local names of named import elements, in order. */
  function SpecNames(es: seq<ImportSpec>): (r: seq<string>)
    ensures |r| == |es| && forall i :: 0 <= i < |es| ==> r[i] == es[i].name
  {
    if es == [] then [] else SpecNames(es[..|es| - 1]) + [es[|es| - 1].name]
  }

  /** The local names an import clause binds: the default name, then the
      named elements or the namespace alias. */
  function ClauseNames(c: ImportClause): seq<string> {
    (if c.default.Some? then [c.default.value] else [])
    + match c.bindings
      case None => []
      case Some(NamespaceImport(a)) => [a]
      case Some(NamedImports(es)) => SpecNames(es)
  }

  /** The names a statement defines in the first pass. */
  function Defines(s: Stmt): seq<string> {
    match s
    case Import(Some(c), _) => ClauseNames(c)
    case ImportEquals(_, alias, _) => [alias]
    case VarStmt(_, _, decls) => DeclNames(decls)
    case FuncDecl(_, Some(n), _, _, _) => [n]
    case ClassDecl(_, Some(n), _) => [n]
    case _ => []
  }

  /** Whether those names are marked exported: variable statements,
      functions and classes carrying `export`; imports never are. */
  predicate ExportedDecl(s: Stmt) {
    (s.VarStmt? || s.FuncDecl? || s.ClassDecl?) && Export in s.mods
  }

  /** `markDefined`. */
  function Mark(d: map<string, bool>, name: string, exported: bool): map<string, bool> {
    d[name := (name in d && d[name]) || exported]
  }

  /** `markDefined` on each name in turn. */
  function MarkAll(d: map<string, bool>, names: seq<string>, exported: bool): map<string, bool>
    decreases |names|
  {
    if names == [] then d
    else Mark(MarkAll(d, names[..|names| - 1], exported), names[|names| - 1], exported)
  }

  /** After `markDefined` on each name, the names have joined the map, and a
      name is exported iff it was before or the names were marked
      exported: the mark is sticky and the order does not matter. */
  lemma {:induction false} MarkAllMeaning(d: map<string, bool>, names: seq<string>, exported: bool)
    ensures forall k :: k in MarkAll(d, names, exported) <==> k in d || k in names
    ensures forall k :: k in MarkAll(d, names, exported) ==>
              MarkAll(d, names, exported)[k] == ((k in d && d[k]) || (exported && k in names))
    decreases |names|
  {
    if names != [] {
      var init := names[..|names| - 1];
      assert names == init + [names[|names| - 1]];
      MarkAllMeaning(d, init, exported);
    }
  }

  lemma MarkSnoc(d: map<string, bool>, names: seq<string>, n: string, exported: bool)
    ensures MarkAll(d, names + [n], exported) == Mark(MarkAll(d, names, exported), n, exported)
  {
    assert (names + [n])[..|names|] == names;
  }

  lemma MarkOne(d: map<string, bool>, n: string, exported: bool)
    ensures MarkAll(d, [n], exported) == Mark(d, n, exported)
  {
    MarkSnoc(d, [], n, exported);
    assert [] + [n] == [n];
  }

  /** What the first pass records: the defined names with their exported
      mark, and the used identifiers. */
  datatype Collected = Collected(defined: map<string, bool>, used: set<string>)

  /** The definitions half of `collect` at one statement. */
  function Define(s: Stmt, c: Collected): Collected {
    c.(defined := MarkAll(c.defined, Defines(s), ExportedDecl(s)))
  }

  /** A statement that declares nothing leaves the collected state alone. */
  lemma DefineNothing(s: Stmt, c: Collected)
    requires Defines(s) == []
    ensures Define(s, c) == c
  {
    assert MarkAll(c.defined, [], ExportedDecl(s)) == c.defined;
  }

  // ------------------------------------------------------------ used names

  /** An identifier that names the declaration it belongs to: a variable,
      function, class, import clause, import element, namespace import,
      binding element or parameter. `pos` is None for an identifier used as
      an expression. */
  predicate IsDeclarationName(pos: Option<IdPos>) {
    pos.Some? && pos.value in {VarName, FuncName, ClassName, ImportDefault, ImportName, NamespaceAlias, BindName, ParamName}
  }

  /** The usage half of `collect` at one identifier. */
  function Use(pos: Option<IdPos>, name: string, c: Collected): Collected {
    if IsDeclarationName(pos) then c else c.(used := c.used + {name})
  }

  // --------------------------------------------------------- first pass

  /** The state of `collect`: the `defined` map and the `used` set it
      fills while it walks the file. */
  class Collector {
    var defined: map<string, bool>
    var used: set<string>

    constructor()
      ensures defined == map[] && used == {}
    {
      defined := map[];
      used := {};
    }

    method MarkDefined(name: string, exported: bool)
      modifies this
      ensures defined == Mark(old(defined), name, exported) && used == old(used)
    {
      var prev: Option<bool> := if name in defined then Some(defined[name]) else None;
      defined := defined[name := (prev.Some? && prev.value) || exported];
    }

    /** The definitions half of `collect` at a statement. */
    method Definitions(node: Stmt)
      modifies this
      ensures Collected(defined, used) == Define(node, old(Collected(defined, used)))
    {
      if node.Import? && node.clause.Some? {
        DefineImport(node.clause.value);
      } else if node.ImportEquals? {
        MarkDefined(node.alias, false);
        MarkOne(old(defined), node.alias, false);
      } else if node.VarStmt? {
        var exported := Export in node.mods;
        DefineVars(node.decls, exported);
      } else if node.FuncDecl? && node.fname.Some? {
        var exported := Export in node.mods;
        MarkDefined(node.fname.value, exported);
        MarkOne(old(defined), node.fname.value, exported);
      } else if node.ClassDecl? && node.cname.Some? {
        var exported := Export in node.mods;
        MarkDefined(node.cname.value, exported);
        MarkOne(old(defined), node.cname.value, exported);
      }
    }

    /** An import clause's default name, then its named elements or its
        namespace alias, none of them exported. */
    method DefineImport(ic: ImportClause)
      modifies this
      ensures defined == MarkAll(old(defined), ClauseNames(ic), false) && used == old(used)
    {
      var defined0 := defined;
      var front: seq<string> := [];
      if ic.default.Some? {
        MarkDefined(ic.default.value, false);
        front := [ic.default.value];
        MarkOne(old(defined), ic.default.value, false);
      }
      if ic.bindings.Some? {
        match ic.bindings.value
        case NamedImports(es) =>
          MarkEach(defined0, front, SpecNames(es), false);
        case NamespaceImport(a) =>
          MarkDefined(a, false);
          MarkSnoc(old(defined), front, a, false);
      } else {
        assert front + [] == front;
      }
    }

    /** Every name each declaration binds, with the statement's exported
        mark. */
    method DefineVars(decls: seq<VarDecl>, exported: bool)
      modifies this
      ensures defined == MarkAll(old(defined), DeclNames(decls), exported) && used == old(used)
    {
      var defined0 := defined;
      for i := 0 to |decls|
        invariant defined == MarkAll(old(defined), DeclNames(decls[..i]), exported)
        invariant used == old(used)
      {
        var names := BindingNames(decls[i].name);
        MarkEach(defined0, DeclNames(decls[..i]), names, exported);
        assert decls[..i + 1][..i] == decls[..i];
      }
      assert decls[..|decls|] == decls;
    }

    /** `markDefined` on each of `names`, after `front` was marked on `base`. */
    method MarkEach(base: map<string, bool>, front: seq<string>, names: seq<string>, exported: bool)
      requires defined == MarkAll(base, front, exported)
      modifies this
      ensures defined == MarkAll(base, front + names, exported) && used == old(used)
    {
      assert front + names[..0] == front;
      for j := 0 to |names|
        invariant defined == MarkAll(base, front + names[..j], exported)
        invariant used == old(used)
      {
        assert front + names[..j + 1] == (front + names[..j]) + [names[j]];
        MarkDefined(names[j], exported);
        MarkSnoc(base, front + names[..j], names[j], exported);
      }
      assert names[..|names|] == names;
    }

    /** The usage half of `collect` at an identifier. */
    method Usage(pos: Option<IdPos>, name: string)
      modifies this
      ensures Collected(defined, used) == Use(pos, name, old(Collected(defined, used)))
    {
      var isDeclarationName :=
        || pos == Some(VarName) || pos == Some(FuncName) || pos == Some(ClassName)
        || pos == Some(ImportDefault) || pos == Some(ImportName) || pos == Some(NamespaceAlias)
        || pos == Some(BindName) || pos == Some(ParamName);
      if !isDeclarationName {
        used := used + {name};
      }
    }
  }

  /** The first pass only ever adds names and exported marks. */
  function Grows(): (Collected, Collected) -> bool {
    (a: Collected, b: Collected) =>
      && a.defined.Keys <= b.defined.Keys
      && (forall k :: k in a.defined && a.defined[k] ==> k in b.defined && b.defined[k])
      && a.used <= b.used
  }

  function CollectHooks(): Hooks<Collected> {
    Hooks((s, st: Collected, inNs) => (Define(s, st), None),
          (e: Expr, st: Collected) => (if e.Id? then Use(None, e.name, st) else st, None),
          (t, st: Collected) => (st, None),
          (p, n, st: Collected) => (Use(Some(p), n, st), n))
  }

  lemma CollectKeeps()
    ensures Keeps(CollectHooks(), Grows())
  {
    var h, inv := CollectHooks(), Grows();
    forall a: Collected ensures inv(a, a) {}
    forall a: Collected, b: Collected, c: Collected | inv(a, b) && inv(b, c) ensures inv(a, c) {}
    forall s, st: Collected, inNs: bool ensures inv(st, h.stmt(s, st, inNs).0) {
      DefineGrows(s, st);
    }
    forall e, st: Collected ensures inv(st, h.expr(e, st).0) {}
    forall t, st: Collected ensures inv(st, h.ty(t, st).0) {}
    forall p, n, st: Collected ensures inv(st, h.id(p, n, st).0) {}
  }

  lemma DefineGrows(s: Stmt, st: Collected)
    ensures Grows()(st, Define(s, st))
  {
    MarkAllMeaning(st.defined, Defines(s), ExportedDecl(s));
  }

  /** `collect(sourceFile)`: the whole file walked from an empty map and set. */
  function Collect(content: seq<Stmt>): Collected {
    Visited(content, Collected(map[], {}))
  }

  /** The first pass over statements from a given state, and over one. */
  function Visited(ss: seq<Stmt>, c: Collected): Collected {
    CollectKeeps();
    Stmts(CollectHooks(), Grows(), ss, c, false).1
  }

  function Visited1(s: Stmt, c: Collected): Collected {
    CollectKeeps();
    Stmt1(CollectHooks(), Grows(), s, c, false).1
  }

  /** The unused names: defined, never used, and not exported when exports
      count as used. */
  function Unused(c: Collected, treatExports: bool): set<string> {
    set n | n in c.defined && n !in c.used && !(treatExports && c.defined[n])
  }

  /** The `defined.forEach` loop that fills `unused`. */
  method UnusedNames(defined: map<string, bool>, used: set<string>, treatExports: bool)
    returns (unused: set<string>)
    ensures unused == Unused(Collected(defined, used), treatExports)
  {
    unused := {};
    var rest := defined.Keys;
    while rest != {}
      invariant rest <= defined.Keys
      invariant unused == set n | n in defined && n !in rest && n !in used && !(treatExports && defined[n])
      decreases rest
    {
      var name :| name in rest;
      rest := rest - {name};
      if name in used {
        continue;
      }
      if treatExports && defined[name] {
        continue;
      }
      unused := unused + {name};
    }
  }

  // -------------------------------------------------------- second pass

  /** The named import elements whose local name is still used, in order. */
  function KeptNamed(es: seq<ImportSpec>, unused: set<string>): (r: seq<ImportSpec>)
    ensures forall e :: e in r <==> e in es && e.name !in unused
    ensures |r| <= |es|
  {
    if es == [] then []
    else
      assert es == es[..|es| - 1] + [es[|es| - 1]];
      KeptNamed(es[..|es| - 1], unused) + (if es[|es| - 1].name in unused then [] else [es[|es| - 1]])
  }

  /** No element is dropped iff every local name is used, and then the
      elements are kept as they were. */
  lemma {:induction false} KeptNamedAll(es: seq<ImportSpec>, unused: set<string>)
    ensures |KeptNamed(es, unused)| == |es| <==> forall i :: 0 <= i < |es| ==> es[i].name !in unused
    ensures |KeptNamed(es, unused)| == |es| ==> KeptNamed(es, unused) == es
    decreases |es|
  {
    if es != [] {
      var init, last := es[..|es| - 1], es[|es| - 1];
      assert es == init + [last];
      KeptNamedAll(init, unused);
      assert forall i :: 0 <= i < |init| ==> init[i] == es[i];
    }
  }

  lemma {:induction false} KeptNamedNames(es: seq<ImportSpec>, unused: set<string>)
    ensures SpecNames(KeptNamed(es, unused)) == Filter(SpecNames(es), unused)
    decreases |es|
  {
    if es != [] {
      var init, last := es[..|es| - 1], es[|es| - 1];
      KeptNamedNames(init, unused);
      FilterSnoc(SpecNames(init), last.name, unused);
      var rest := KeptNamed(init, unused);
      if last.name !in unused {
        assert (rest + [last])[..|rest|] == rest;
      }
    }
  }

  /** The names not in `unused`, in order. */
  function Filter(ns: seq<string>, unused: set<string>): (r: seq<string>)
    ensures forall n :: n in r <==> n in ns && n !in unused
  {
    if ns == [] then [] else Filter(ns[..|ns| - 1], unused) + (if ns[|ns| - 1] in unused then [] else [ns[|ns| - 1]])
  }

  lemma FilterSnoc(ns: seq<string>, n: string, unused: set<string>)
    ensures Filter(ns + [n], unused) == Filter(ns, unused) + (if n in unused then [] else [n])
  {
    assert (ns + [n])[..|ns|] == ns;
  }

  lemma {:induction false} FilterAppend(a: seq<string>, b: seq<string>, unused: set<string>)
    ensures Filter(a + b, unused) == Filter(a, unused) + Filter(b, unused)
    decreases |b|
  {
    if b == [] {
      assert a + b == a;
    } else {
      var init, last := b[..|b| - 1], b[|b| - 1];
      assert a + b == (a + init) + [last];
      assert b == init + [last];
      FilterSnoc(a + init, last, unused);
      FilterSnoc(init, last, unused);
      FilterAppend(a, init, unused);
    }
  }

  lemma {:induction false} FilterAll(ns: seq<string>, unused: set<string>)
    requires forall n :: n in ns ==> n !in unused
    ensures Filter(ns, unused) == ns
    decreases |ns|
  {
    if ns != [] {
      assert ns == ns[..|ns| - 1] + [ns[|ns| - 1]];
      FilterAll(ns[..|ns| - 1], unused);
    }
  }

  /** The named elements of an import clause, and its namespace alias. */
  function NamedElems(ic: ImportClause): seq<ImportSpec> {
    if ic.bindings.Some? && ic.bindings.value.NamedImports? then ic.bindings.value.elems else []
  }

  function NamespaceName(ic: ImportClause): Option<string> {
    if ic.bindings.Some? && ic.bindings.value.NamespaceImport? then Some(ic.bindings.value.alias) else None
  }

  predicate DefaultUsed(ic: ImportClause, unused: set<string>) {
    ic.default.Some? && ic.default.value !in unused
  }

  predicate NamespaceUsed(ic: ImportClause, unused: set<string>) {
    NamespaceName(ic).Some? && NamespaceName(ic).value !in unused
  }

  /** `needChange`: a default or namespace name, or a named element, is
      unused. */
  predicate NeedChange(ic: ImportClause, unused: set<string>) {
    || (!DefaultUsed(ic, unused) && ic.default.Some?)
    || (NamespaceName(ic).Some? && !NamespaceUsed(ic, unused))
    || |KeptNamed(NamedElems(ic), unused)| != |NamedElems(ic)|
  }

  /** The new import clause: the used default name, then the kept named
      elements, or else the used namespace alias; never type-only. */
  function Rebuilt(ic: ImportClause, unused: set<string>): ImportClause {
    var keptNamed := KeptNamed(NamedElems(ic), unused);
    ImportClause(false, if DefaultUsed(ic, unused) then ic.default else None,
                 if |keptNamed| > 0 then Some(NamedImports(keptNamed))
                 else if NamespaceUsed(ic, unused) then Some(NamespaceImport(NamespaceName(ic).value))
                 else None)
  }

  /** The import visitor: the declaration gone when none of its names is
      used; otherwise rebuilt when one was dropped, or left as it was. */
  function ImportKept(ic: ImportClause, spec: Spec, unused: set<string>): seq<Stmt> {
    if !DefaultUsed(ic, unused) && !NamespaceUsed(ic, unused) && |KeptNamed(NamedElems(ic), unused)| == 0 then []
    else if NeedChange(ic, unused) then [Import(Some(Rebuilt(ic, unused)), spec)]
    else [Import(Some(ic), spec)]
  }

  /** The statements the removal visitor answers itself, without walking
      into them. */
  predicate Handled(s: Stmt) {
    || (s.Import? && s.clause.Some?)
    || (s.FuncDecl? && s.fname.Some?)
    || (s.ClassDecl? && s.cname.Some?)
    || s.VarStmt?
  }

  /** The removal visitor's answer at a handled statement. */
  function Kept(s: Stmt, unused: set<string>): seq<Stmt>
    requires Handled(s)
  {
    if s.Import? then ImportKept(s.clause.value, s.spec, unused)
    else if s.FuncDecl? then (if s.fname.value in unused then [] else [s])
    else if s.ClassDecl? then (if s.cname.value in unused then [] else [s])
    else if exists i :: 0 <= i < |DeclNames(s.decls)| && DeclNames(s.decls)[i] !in unused then [s]
    else []
  }

  function RemoveHooks(unused: set<string>): Hooks<()> {
    Hooks((s, st, inNs) => (st, if Handled(s) then Some(Kept(s, unused)) else None),
          (e, st) => (st, None),
          (t, st) => (st, None),
          (p, n, st) => (st, n))
  }

  lemma RemoveKeeps(unused: set<string>)
    ensures Keeps(RemoveHooks(unused), Stateless())
  {
  }

  /** The second pass over a file with a given set of unused names. */
  function Remove(content: seq<Stmt>, unused: set<string>): seq<Stmt> {
    RemoveKeeps(unused);
    Stmts(RemoveHooks(unused), Stateless(), content, (), false).0
  }

  /** `clearUnusedCode` on the parsed file. */
  function ClearUnused(content: seq<Stmt>, options: Option<Options>): seq<Stmt> {
    Remove(content, Unused(Collect(content), TreatsExportsAsUsed(options)))
  }

  /** The two passes in the source's order. */
  method ClearUnusedCode(content: seq<Stmt>, options: Option<Options>) returns (output: seq<Stmt>)
    ensures output == ClearUnused(content, options)
  {
    var c := Collect(content);
    var unused := UnusedNames(c.defined, c.used, TreatsExportsAsUsed(options));
    output := Remove(content, unused);
  }

  // ------------------------------------------------------------ properties

  /** What the first pass records at a top-level statement stays recorded
      to the end of the file. */
  lemma AtTopLevel(content: seq<Stmt>, i: nat)
    requires i < |content|
    ensures Grows()(Visited1(content[i], Visited(content[..i], Collected(map[], {}))), Collect(content))
  {
    var h, inv := CollectHooks(), Grows();
    CollectKeeps();
    StmtAtKeeps(h, inv, content, i, Collected(map[], {}), false);
  }

  /** A statement's own definitions are recorded before its children are
      walked, and stay. */
  lemma DefinedFirst(s: Stmt, c: Collected)
    ensures Grows()(Define(s, c), Visited1(s, c))
  {
    var h, inv := CollectHooks(), Grows();
    CollectKeeps();
    assert h.stmt(s, c, false) == (Define(s, c), None);
    Stmt1Unhooked(h, inv, s, c, false);
  }

  /** Every name a top-level statement defines is recorded, and marked
      exported when that statement exports it, whatever the rest of the
      file defines: the exported mark is never cleared. */
  lemma TopLevelDefined(content: seq<Stmt>, i: nat, n: string)
    requires i < |content| && n in Defines(content[i])
    ensures n in Collect(content).defined
    ensures ExportedDecl(content[i]) ==> Collect(content).defined[n]
  {
    var before := Visited(content[..i], Collected(map[], {}));
    MarkAllMeaning(before.defined, Defines(content[i]), ExportedDecl(content[i]));
    DefinedFirst(content[i], before);
    AtTopLevel(content, i);
  }

  /** The identifier a statement's expression is, or calls, is a use. */
  lemma ExprStmtUses(s: Stmt, c: Collected)
    requires s.ExprStmt? || s.ExportAssign?
    ensures s.expr.Id? ==> s.expr.name in Visited1(s, c).used
    ensures s.expr.Call? && s.expr.callee.Id? ==> s.expr.callee.name in Visited1(s, c).used
  {
    CollectKeeps();
    ExprStmtVisited(s, c);
    IdUsed(s.expr, c);
    CalleeUsed(s.expr, c);
  }

  /** Such a statement is collected as its expression. */
  lemma ExprStmtVisited(s: Stmt, c: Collected)
    requires s.ExprStmt? || s.ExportAssign?
    requires Keeps(CollectHooks(), Grows())
    ensures Visited1(s, c) == Expr1(CollectHooks(), Grows(), s.expr, c, false).1
  {
    var h, inv := CollectHooks(), Grows();
    assert h.stmt(s, c, false) == (c, None) by {
      DefineNothing(s, c);
    }
    ExprStmtState(h, inv, s, c, false);
  }

  /** An identifier expression is a use. */
  lemma IdUsed(e: Expr, c: Collected)
    requires Keeps(CollectHooks(), Grows())
    ensures e.Id? ==> e.name in Expr1(CollectHooks(), Grows(), e, c, false).1.used
  {
  }

  /** A call's callee, when an identifier, is a use, and later uses only add. */
  lemma CalleeUsed(e: Expr, c: Collected)
    requires Keeps(CollectHooks(), Grows())
    ensures e.Call? && e.callee.Id? ==> e.callee.name in Expr1(CollectHooks(), Grows(), e, c, false).1.used
  {
    var h, inv := CollectHooks(), Grows();
    if e.Call? && e.callee.Id? {
      assert h.expr(e, c) == (c, None);
      CalleeFirst(h, inv, e, c, false);
      IdUsed(e.callee, c);
    }
  }

  /** The expression of a top-level expression statement or export
      assignment is a use: a bare identifier, or the identifier called. */
  lemma TopLevelUsed(content: seq<Stmt>, i: nat)
    requires i < |content| && (content[i].ExprStmt? || content[i].ExportAssign?)
    ensures content[i].expr.Id? ==> content[i].expr.name in Collect(content).used
    ensures content[i].expr.Call? && content[i].expr.callee.Id? ==> content[i].expr.callee.name in Collect(content).used
  {
    ExprStmtUses(content[i], Visited(content[..i], Collected(map[], {})));
    AtTopLevel(content, i);
  }

  /** The import's names after the second pass: gone when none is used,
      exactly the used ones in their order otherwise (so `import {} from
      "m"`, which binds nothing, goes too); an import that binds names and
      loses none is left as it was, and one that is rebuilt is no longer
      type-only. */
  lemma ImportKeptNames(ic: ImportClause, spec: Spec, unused: set<string>)
    ensures var r := ImportKept(ic, spec, unused);
            && (r == [] <==> forall n :: n in ClauseNames(ic) ==> n in unused)
            && (r != [] ==> && |r| == 1 && r[0].Import? && r[0].spec == spec && r[0].clause.Some?
                            && ClauseNames(r[0].clause.value) == Filter(ClauseNames(ic), unused))
            && (ClauseNames(ic) != [] && (forall n :: n in ClauseNames(ic) ==> n !in unused) ==> r == [Import(Some(ic), spec)])
            && (r != [] && r[0] != Import(Some(ic), spec) ==> !r[0].clause.value.isTypeOnly)
  {
    ImportDropped(ic, spec, unused);
    if !NeedChange(ic, unused) {
      NoChangeAllUsed(ic, unused);
      FilterAll(ClauseNames(ic), unused);
    } else {
      RebuiltNames(ic, unused);
    }
    if forall n :: n in ClauseNames(ic) ==> n !in unused {
      AllUsedNoChange(ic, unused);
    }
  }

  function DefaultNames(ic: ImportClause): seq<string> {
    if ic.default.Some? then [ic.default.value] else []
  }

  function BoundNames(ic: ImportClause): seq<string> {
    match ic.bindings
    case None => []
    case Some(NamespaceImport(a)) => [a]
    case Some(NamedImports(es)) => SpecNames(es)
  }

  lemma ImportDropped(ic: ImportClause, spec: Spec, unused: set<string>)
    ensures ImportKept(ic, spec, unused) == [] <==> forall n :: n in ClauseNames(ic) ==> n in unused
  {
    assert ClauseNames(ic) == DefaultNames(ic) + BoundNames(ic);
    if ic.bindings.Some? && ic.bindings.value.NamedImports? {
      var es := ic.bindings.value.elems;
      var kept := KeptNamed(es, unused);
      assert kept == [] <==> forall n :: n in SpecNames(es) ==> n in unused by {
        if kept != [] {
          assert kept[0] in es && kept[0].name !in unused;
          var i :| 0 <= i < |es| && es[i] == kept[0];
          assert SpecNames(es)[i] == kept[0].name;
        }
        if exists n :: n in SpecNames(es) && n !in unused {
          var n :| n in SpecNames(es) && n !in unused;
          var i :| 0 <= i < |es| && SpecNames(es)[i] == n;
          assert es[i] in kept;
        }
      }
    }
  }

  /** With every name used nothing needs a change. */
  lemma AllUsedNoChange(ic: ImportClause, unused: set<string>)
    requires forall n :: n in ClauseNames(ic) ==> n !in unused
    ensures !NeedChange(ic, unused)
  {
    assert ClauseNames(ic) == DefaultNames(ic) + BoundNames(ic);
    if ic.default.Some? {
      assert ic.default.value in ClauseNames(ic);
    }
    if NamespaceName(ic).Some? {
      assert BoundNames(ic) == [NamespaceName(ic).value];
      assert NamespaceName(ic).value in ClauseNames(ic);
    }
    var es := NamedElems(ic);
    KeptNamedAll(es, unused);
    if ic.bindings.Some? && ic.bindings.value.NamedImports? {
      forall i | 0 <= i < |es| ensures es[i].name !in unused {
        assert SpecNames(es)[i] == es[i].name;
        assert es[i].name in BoundNames(ic);
      }
    }
  }

  /** And nothing needs a change only when every name is used. */
  lemma NoChangeAllUsed(ic: ImportClause, unused: set<string>)
    requires !NeedChange(ic, unused)
    ensures forall n :: n in ClauseNames(ic) ==> n !in unused
  {
    assert ClauseNames(ic) == DefaultNames(ic) + BoundNames(ic);
    var es := NamedElems(ic);
    KeptNamedAll(es, unused);
    if ic.bindings.Some? && ic.bindings.value.NamedImports? {
      forall n | n in SpecNames(es) ensures n !in unused {
        var i :| 0 <= i < |es| && SpecNames(es)[i] == n;
      }
    }
  }

  /** The rebuilt clause binds exactly the used names, in their order. */
  lemma RebuiltNames(ic: ImportClause, unused: set<string>)
    ensures ClauseNames(Rebuilt(ic, unused)) == Filter(ClauseNames(ic), unused)
  {
    var rb := Rebuilt(ic, unused);
    assert ClauseNames(ic) == DefaultNames(ic) + BoundNames(ic);
    assert ClauseNames(rb) == DefaultNames(rb) + BoundNames(rb);
    FilterAppend(DefaultNames(ic), BoundNames(ic), unused);
    assert DefaultNames(rb) == Filter(DefaultNames(ic), unused) by {
      if ic.default.Some? {
        FilterSnoc([], ic.default.value, unused);
        assert [] + [ic.default.value] == DefaultNames(ic);
      }
    }
    var es := NamedElems(ic);
    KeptNamedNames(es, unused);
    assert BoundNames(rb) == Filter(BoundNames(ic), unused) by {
      if ic.bindings.Some? && ic.bindings.value.NamespaceImport? {
        FilterSnoc([], ic.bindings.value.alias, unused);
        assert [] + [ic.bindings.value.alias] == BoundNames(ic);
      }
    }
  }

  /** The statements no removal reaches: none of them is handled, at any
      depth. */
  function Unhandled(): Stmt -> bool {
    (s: Stmt) => !Handled(s)
  }

  /** Every import, named function or class and variable statement of the
      file stands at its top level. */
  ghost predicate Flat(ss: seq<Stmt>) {
    forall i :: 0 <= i < |ss| ==> Handled(ss[i]) || StmtWithin(Unhandled(), ss[i])
  }

  /** The second pass statement by statement. */
  function Cleared(ss: seq<Stmt>, unused: set<string>): seq<Stmt> {
    if ss == [] then []
    else (if Handled(ss[0]) then Kept(ss[0], unused) else [ss[0]]) + Cleared(ss[1..], unused)
  }

  /** On a flat file the second pass answers each top-level statement on its
      own and keeps the others. */
  lemma {:induction false} FlatRemove(ss: seq<Stmt>, unused: set<string>)
    requires Flat(ss)
    ensures Remove(ss, unused) == Cleared(ss, unused)
    decreases ss
  {
    RemoveKeeps(unused);
    var h, inv := RemoveHooks(unused), Stateless();
    if ss != [] {
      var r1 := Stmt1(h, inv, ss[0], (), false);
      if Handled(ss[0]) {
        assert r1.0 == Kept(ss[0], unused);
      } else {
        assert IdleOn(h, Unhandled());
        Stmt1WithinKept(h, inv, Unhandled(), ss[0], (), false);
      }
      assert Flat(ss[1..]) by {
        forall i | 0 <= i < |ss[1..]|
          ensures Handled(ss[1..][i]) || StmtWithin(Unhandled(), ss[1..][i])
        {
          assert ss[1..][i] == ss[i + 1];
        }
      }
      FlatRemove(ss[1..], unused);
    }
  }

  /** On a flat file a named function or class survives iff its name is
      not unused, and a variable statement survives iff one of its names is
      not unused. */
  lemma {:induction false} DeclarationSurvives(ss: seq<Stmt>, unused: set<string>, s: Stmt)
    requires (s.FuncDecl? && s.fname.Some?) || (s.ClassDecl? && s.cname.Some?) || s.VarStmt?
    ensures s in Cleared(ss, unused) <==> s in ss && (exists n :: n in Defines(s) && n !in unused)
    decreases ss
  {
    if ss != [] {
      DeclarationSurvives(ss[1..], unused, s);
      var r0 := if Handled(ss[0]) then Kept(ss[0], unused) else [ss[0]];
      assert Cleared(ss, unused) == r0 + Cleared(ss[1..], unused);
      assert s in ss <==> s == ss[0] || s in ss[1..];
      if s == ss[0] {
        if s.VarStmt? {
          var ns := DeclNames(s.decls);
          if exists n :: n in ns && n !in unused {
            var n :| n in ns && n !in unused;
            var i :| 0 <= i < |ns| && ns[i] == n;
          }
        }
      } else if ss[0].Import? && ss[0].clause.Some? {
        ImportKeptNames(ss[0].clause.value, ss[0].spec, unused);
      }
    }
  }

  /** A function declared alone is not a use of its own name: it is removed
      unless it is exported and exports count as used. */
  lemma LoneFunction(mods: seq<Modifier>, f: string, options: Option<Options>)
    ensures Collect([FuncDecl(mods, Some(f), [], None, [])]) == Collected(map[f := Export in mods], {})
    ensures ClearUnused([FuncDecl(mods, Some(f), [], None, [])], options)
            == if Export in mods && TreatsExportsAsUsed(options) then [FuncDecl(mods, Some(f), [], None, [])] else []
  {
    LoneFunctionCollected(mods, f);
    LoneFunctionRemoved(mods, f, Unused(Collected(map[f := Export in mods], {}), TreatsExportsAsUsed(options)));
  }

  lemma LoneFunctionCollected(mods: seq<Modifier>, f: string)
    ensures Collect([FuncDecl(mods, Some(f), [], None, [])]) == Collected(map[f := Export in mods], {})
  {
    var s := FuncDecl(mods, Some(f), [], None, []);
    var none := Collected(map[], {});
    CollectKeeps();
    DefineFunction(mods, f, [], none);
    FuncWalk(mods, f, [], none);
    StmtsOne(CollectHooks(), Grows(), s, none, false);
  }

  lemma LoneFunctionRemoved(mods: seq<Modifier>, f: string, u: set<string>)
    ensures Remove([FuncDecl(mods, Some(f), [], None, [])], u) == if f in u then [] else [FuncDecl(mods, Some(f), [], None, [])]
  {
    var s := FuncDecl(mods, Some(f), [], None, []);
    assert Flat([s]);
    FlatRemove([s], u);
    assert Cleared([s], u) == Kept(s, u) + [];
  }

  lemma DefineFunction(mods: seq<Modifier>, f: string, body: seq<Stmt>, c: Collected)
    ensures Define(FuncDecl(mods, Some(f), [], None, body), c) == c.(defined := Mark(c.defined, f, Export in mods))
  {
    MarkOne(c.defined, f, Export in mods);
  }

  /** The first pass over a function without parameters: its name is
      defined, not used, and its body is walked. */
  lemma FuncWalk(mods: seq<Modifier>, f: string, body: seq<Stmt>, c: Collected)
    ensures Visited1(FuncDecl(mods, Some(f), [], None, body), c)
            == Visited(body, Define(FuncDecl(mods, Some(f), [], None, body), c))
  {
    var s := FuncDecl(mods, Some(f), [], None, body);
    var h, inv := CollectHooks(), Grows();
    CollectKeeps();
    var d := Define(s, c);
    assert h.stmt(s, c, false) == (d, None);
    assert IdOpt(h, inv, FuncName, Some(f), d) == (Some(f), d);
    assert Params(h, inv, [], d) == ([], d);
    assert TypeOpt(h, inv, None, d) == (None, d);
    var rb := Stmts(h, inv, body, d, false);
    assert Children(h, inv, s, d, false) == (FuncDecl(mods, Some(f), [], None, rb.0), rb.1);
  }

  /** A call of `g` with no arguments as a statement: `g` is used. */
  lemma CallWalk(g: string, c: Collected)
    ensures Visited([ExprStmt(Call(Id(g), [], []))], c) == c.(used := c.used + {g})
  {
    CollectKeeps();
    CallWalked(g, c);
  }

  lemma CallWalked(g: string, c: Collected)
    requires Keeps(CollectHooks(), Grows())
    ensures Stmts(CollectHooks(), Grows(), [ExprStmt(Call(Id(g), [], []))], c, false).1 == c.(used := c.used + {g})
  {
    var h, inv := CollectHooks(), Grows();
    var call := ExprStmt(Call(Id(g), [], []));
    DefineNothing(call, c);
    assert h.stmt(call, c, false) == (c, None);
    assert h.expr(Call(Id(g), [], []), c) == (c, None);
    BareCallStmt(h, inv, Id(g), c, false);
  }

  /** One pass, no fixpoint: a function used only by an unused function
      survives the call that removes its user, and goes on the next call. */
  lemma NotAFixpoint(f: string, g: string, options: Option<Options>)
    requires f != g
    ensures var gd := FuncDecl([], Some(g), [], None, []);
            var fd := FuncDecl([], Some(f), [], None, [ExprStmt(Call(Id(g), [], []))]);
            && ClearUnused([gd, fd], options) == [gd]
            && ClearUnused(ClearUnused([gd, fd], options), options) == []
  {
    var gd := FuncDecl([], Some(g), [], None, []);
    var call := ExprStmt(Call(Id(g), [], []));
    var fd := FuncDecl([], Some(f), [], None, [call]);
    assert Collect([gd, fd]) == Collected(map[g := false, f := false], {g}) by {
      FirstPass(f, g);
    }
    var treat := TreatsExportsAsUsed(options);
    assert Unused(Collected(map[g := false, f := false], {g}), treat) == {f};
    assert Flat([gd, fd]) by {
      assert Handled(gd) && Handled(fd);
    }
    FlatRemove([gd, fd], {f});
    assert Cleared([gd, fd], {f}) == [gd] by {
      assert Cleared([gd, fd], {f}) == Kept(gd, {f}) + Cleared([fd], {f});
      assert Cleared([fd], {f}) == Kept(fd, {f}) + Cleared([], {f});
    }
    LoneFunction([], g, options);
  }

  lemma FirstPass(f: string, g: string)
    ensures Collect([FuncDecl([], Some(g), [], None, []), FuncDecl([], Some(f), [], None, [ExprStmt(Call(Id(g), [], []))])])
            == Collected(map[g := false, f := false], {g})
  {
    var gd := FuncDecl([], Some(g), [], None, []);
    var fd := FuncDecl([], Some(f), [], None, [ExprStmt(Call(Id(g), [], []))]);
    CollectKeeps();
    StmtsTwo(CollectHooks(), Grows(), gd, fd, Collected(map[], {}), false);
    assert Collect([gd, fd]) == Visited1(fd, Visited1(gd, Collected(map[], {})));
    FirstPassG(g);
    FirstPassF(f, g);
  }

  lemma FirstPassG(g: string)
    ensures Visited1(FuncDecl([], Some(g), [], None, []), Collected(map[], {})) == Collected(map[g := false], {})
  {
    DefineFunction([], g, [], Collected(map[], {}));
    FuncWalk([], g, [], Collected(map[], {}));
  }

  lemma FirstPassF(f: string, g: string)
    ensures Visited1(FuncDecl([], Some(f), [], None, [ExprStmt(Call(Id(g), [], []))]), Collected(map[g := false], {}))
            == Collected(map[g := false, f := false], {g})
  {
    var c1 := Collected(map[g := false], {});
    DefineFunction([], f, [ExprStmt(Call(Id(g), [], []))], c1);
    FuncWalk([], f, [ExprStmt(Call(Id(g), [], []))], c1);
    CallWalk(g, Collected(map[g := false, f := false], {}));
  }

  /** `import { a as b }`: the property name `a` is a use and `b` is
      defined, so the import is removed unless both are the same name. */
  lemma RenamedImport(a: string, b: string, spec: Spec, options: Option<Options>)
    ensures var s := Import(Some(ImportClause(false, None, Some(NamedImports([ImportSpec(false, Some(a), b)])))), spec);
            && Collect([s]) == Collected(map[b := false], {a})
            && (ClearUnused([s], options) == [] <==> a != b)
  {
    var c := ImportClause(false, None, Some(NamedImports([ImportSpec(false, Some(a), b)])));
    var s := Import(Some(c), spec);
    RenamedImportCollect(a, b, spec);
    var unused := Unused(Collected(map[b := false], {a}), TreatsExportsAsUsed(options));
    assert unused == if a == b then {} else {b};
    assert Flat([s]);
    FlatRemove([s], unused);
    assert Cleared([s], unused) == Kept(s, unused) + [];
    assert ClauseNames(c) == [b] by {
      assert SpecNames([ImportSpec(false, Some(a), b)]) == SpecNames([]) + [b];
    }
    ImportKeptNames(c, spec, unused);
  }

  lemma RenamedImportCollect(a: string, b: string, spec: Spec)
    ensures Collect([Import(Some(ImportClause(false, None, Some(NamedImports([ImportSpec(false, Some(a), b)])))), spec)])
            == Collected(map[b := false], {a})
  {
    var e := ImportSpec(false, Some(a), b);
    var c := ImportClause(false, None, Some(NamedImports([e])));
    var s := Import(Some(c), spec);
    var h, inv := CollectHooks(), Grows();
    CollectKeeps();
    var none := Collected(map[], {});
    var d := Define(s, none);
    assert ClauseNames(c) == [b] by {
      assert SpecNames([e]) == SpecNames([]) + [b];
    }
    assert d == Collected(map[b := false], {}) by {
      MarkOne(map[], b, false);
    }
    var u := Collected(map[b := false], {a});
    RenamedSpecWalk(a, b, d);
    assert d.used + {a} == {a};
    assert d.(used := d.used + {a}) == u;
    assert IdOpt(h, inv, ImportDefault, None, d) == (None, d);
    assert ImportSpecs(h, inv, [e], d) == ([e], u);
    assert Clause(h, inv, Some(c), d) == (Some(c), u);
    assert Children(h, inv, s, d, false) == (s, u);
    StmtsOne(h, inv, s, none, false);
  }

  lemma RenamedSpecWalk(a: string, b: string, d: Collected)
    requires Keeps(CollectHooks(), Grows())
    ensures ImportSpecs(CollectHooks(), Grows(), [ImportSpec(false, Some(a), b)], d)
            == ([ImportSpec(false, Some(a), b)], d.(used := d.used + {a}))
  {
    var e := ImportSpec(false, Some(a), b);
    var h, inv := CollectHooks(), Grows();
    CollectKeeps();
    PropertyNameUsed(a, d);
    LocalNameDeclares(b, d.(used := d.used + {a}));
    ImportSpecsOne(h, inv, e, d);
  }

  /** The imported name of `{ a as b }` is a use. */
  lemma PropertyNameUsed(a: string, d: Collected)
    requires Keeps(CollectHooks(), Grows())
    ensures IdOpt(CollectHooks(), Grows(), ImportProp, Some(a), d) == (Some(a), d.(used := d.used + {a}))
  {
    assert !IsDeclarationName(Some(ImportProp));
  }

  /** The local name of an import element declares, and is not a use. */
  lemma LocalNameDeclares(b: string, u: Collected)
    requires Keeps(CollectHooks(), Grows())
    ensures Id1(CollectHooks(), Grows(), ImportName, b, u) == (b, u)
  {
    assert IsDeclarationName(Some(ImportName));
  }
}
