// The plan-based renamer of src/lib/bundle/duplicatesNew.ts: a per-base
// name generator, the rename plan built from the collected names (name ->
// file key -> new name), and the two rewrites that apply it: declarations
// first, then references, the latter run twice.
module DuplicatePlan {
  import opened Wrappers
  import opened Text
  import opened Ast
  import opened Records
  import opened Paths
  import opened UniqueNames
  import opened DuplicateCollect
  import opened Walk

  // ------------------------------------------------ makeUniqueNameGenerator

  /** The closure `makeUniqueNameGenerator` returns, with its `counters` map. */
  class NameGenerator {
    const prefix: string
    var counters: map<string, nat>

    constructor (prefix: string)
      ensures this.prefix == prefix && counters == map[]
    {
      this.prefix := prefix;
      counters := map[];
    }

    /** One call: the base's counter goes up by one and names the result. */
    method Next(base: string) returns (name: string)
      modifies this
      ensures (name, counters) == NextPerBase(old(counters), prefix, base)
    {
      var count := (if base in counters then counters[base] else 0) + 1;
      counters := counters[base := count];
      name := prefix + base + "_" + NatToString(count);
    }
  }

  // -------------------------------------------------------- createRenamePlan

  /** name -> file key -> new name. */
  type Plan = map<string, map<string, string>>

  /** The position of the last occurrence of `f`. */
  function LastIndex(files: seq<string>, f: string): (i: nat)
    requires f in files
    ensures i < |files| && files[i] == f
    ensures forall j :: i < j < |files| ==> files[j] != f
  {
    if files[|files| - 1] == f then |files| - 1 else LastIndex(files[..|files| - 1], f)
  }

  /** The inner map of one name: the k-th occurrence draws the k-th name for
      the base, and a file key that occurs again is overwritten, so it keeps
      the name drawn at its last occurrence. */
  function InnerPlan(prefix: string, name: string, files: seq<string>): map<string, string> {
    map f | f in files :: CounterName(prefix, name, LastIndex(files, f) + 1)
  }

  /** The plan as a closed form: every name declared more than once, with the
      inner map of its occurrences. */
  function PlanOf(dupes: NamesMap, prefix: string): Plan {
    map n | n in Names(dupes) && Size(dupes, n) > 1 :: InnerPlan(prefix, n, Files(dupes, n))
  }

  /** `createRenamePlan`. A JavaScript `Map` holds each name once. */
  method CreateRenamePlan(dupes: NamesMap, prefix: Option<string>) returns (plan: Plan)
    requires KeysDistinct(dupes)
    ensures plan == PlanOf(dupes, prefix.GetOr("__dup__"))
  {
    var p := prefix.GetOr("__dup__");
    var uniq := new NameGenerator(p);
    plan := map[];
    var i := 0;
    while i < |dupes|
      invariant 0 <= i <= |dupes|
      invariant plan == PlanOf(dupes[..i], p)
      invariant uniq.prefix == p
      invariant forall n :: n in uniq.counters ==> n in Names(dupes[..i])
    {
      var e := dupes[i];
      NameIsNew(dupes, i);
      PlanOfSnoc(dupes[..i], e, p);
      NamesSnoc(dupes[..i], e);
      assert dupes[..i + 1] == dupes[..i] + [e];
      if |e.files| > 1 {
        var inner := DrawNames(uniq, e.name, e.files);
        plan := plan[e.name := inner];
      }
      i := i + 1;
    }
    assert dupes[..i] == dupes;
  }

  /** The inner `for` loop: one name drawn per occurrence, keyed by file. */
  method DrawNames(uniq: NameGenerator, name: string, files: seq<string>) returns (inner: map<string, string>)
    requires name !in uniq.counters
    modifies uniq
    ensures inner == InnerPlan(uniq.prefix, name, files)
    ensures uniq.counters == if files == [] then old(uniq.counters) else old(uniq.counters)[name := |files|]
  {
    inner := map[];
    var k := 0;
    while k < |files|
      invariant 0 <= k <= |files|
      invariant inner == InnerPlan(uniq.prefix, name, files[..k])
      invariant uniq.counters == if k == 0 then old(uniq.counters) else old(uniq.counters)[name := k]
    {
      NextDrawn(old(uniq.counters), uniq.prefix, name, k);
      var nm := uniq.Next(name);
      InnerPlanStep(uniq.prefix, name, files, k);
      inner := inner[files[k] := nm];
      k := k + 1;
    }
    assert files[..k] == files;
  }

  lemma {:induction false} NamesSnoc(m: NamesMap, e: Entry)
    ensures Names(m + [e]) == Names(m) + [e.name]
  {
    if m != [] {
      assert (m + [e])[1..] == m[1..] + [e];
      NamesSnoc(m[1..], e);
    }
  }

  lemma {:induction false} FilesSnoc(m: NamesMap, e: Entry, n: string)
    ensures Files(m + [e], n) == if n in Names(m) then Files(m, n) else if n == e.name then e.files else []
  {
    if m == [] {
      assert (m + [e])[1..] == [];
    } else {
      assert (m + [e])[1..] == m[1..] + [e];
      FilesSnoc(m[1..], e, n);
      assert Names(m) == [m[0].name] + Names(m[1..]);
    }
  }

  /** With distinct keys, the entry at `i` is not among the earlier ones. */
  lemma NameIsNew(dupes: NamesMap, i: nat)
    requires KeysDistinct(dupes) && i < |dupes|
    ensures dupes[i].name !in Names(dupes[..i])
  {
    forall j | 0 <= j < i ensures Names(dupes[..i])[j] != dupes[i].name {
      assert dupes[..i][j] == dupes[j];
    }
  }

  lemma PlanOfSnoc(m: NamesMap, e: Entry, p: string)
    requires e.name !in Names(m)
    ensures PlanOf(m + [e], p) == if |e.files| > 1 then PlanOf(m, p)[e.name := InnerPlan(p, e.name, e.files)] else PlanOf(m, p)
  {
    var a := PlanOf(m + [e], p);
    var b := if |e.files| > 1 then PlanOf(m, p)[e.name := InnerPlan(p, e.name, e.files)] else PlanOf(m, p);
    forall n ensures (n in a <==> n in b) && (n in a ==> a[n] == b[n]) {
      PlanOfKey(m, e, p, n);
    }
    SameMaps(a, b);
  }

  lemma SameMaps(a: Plan, b: Plan)
    requires forall n :: (n in a <==> n in b) && (n in a ==> a[n] == b[n])
    ensures a == b
  {
  }

  /** One key of `PlanOfSnoc`: the new entry only adds its own name. */
  lemma PlanOfKey(m: NamesMap, e: Entry, p: string, n: string)
    requires e.name !in Names(m)
    ensures n in PlanOf(m + [e], p) <==> n in PlanOf(m, p) || (n == e.name && |e.files| > 1)
    ensures n in PlanOf(m + [e], p) ==> PlanOf(m + [e], p)[n] == if n == e.name then InnerPlan(p, e.name, e.files) else PlanOf(m, p)[n]
  {
    NamesSnoc(m, e);
    FilesSnoc(m, e, n);
    assert n in Names(m + [e]) <==> n in Names(m) || n == e.name;
  }

  lemma InnerPlanSnoc(p: string, name: string, fs: seq<string>, f: string)
    ensures InnerPlan(p, name, fs + [f]) == InnerPlan(p, name, fs)[f := CounterName(p, name, |fs| + 1)]
  {
    var g := fs + [f];
    assert g[..|g| - 1] == fs;
    forall x | x in fs && x != f ensures LastIndex(g, x) == LastIndex(fs, x) { }
  }

  /** The `k + 1`-th name drawn for a base the generator had not seen. */
  lemma NextDrawn(counters: map<string, nat>, prefix: string, name: string, k: nat)
    requires name !in counters
    ensures NextPerBase(if k == 0 then counters else counters[name := k], prefix, name)
            == (CounterName(prefix, name, k + 1), counters[name := k + 1])
  {
    var c := if k == 0 then counters else counters[name := k];
    NextAt(c, prefix, name, k);
    UpdateAgain(counters, name, k);
  }

  lemma UpdateAgain(counters: map<string, nat>, name: string, k: nat)
    ensures (if k == 0 then counters else counters[name := k])[name := k + 1] == counters[name := k + 1]
  {
    if k > 0 {
      assert counters[name := k][name := k + 1] == counters[name := k + 1];
    }
  }

  lemma NextAt(c: map<string, nat>, prefix: string, name: string, k: nat)
    requires (if name in c then c[name] else 0) == k
    ensures NextPerBase(c, prefix, name) == (CounterName(prefix, name, k + 1), c[name := k + 1])
  {
  }

  lemma InnerPlanStep(p: string, name: string, files: seq<string>, k: nat)
    requires k < |files|
    ensures InnerPlan(p, name, files[..k + 1]) == InnerPlan(p, name, files[..k])[files[k] := CounterName(p, name, k + 1)]
  {
    TakeSnoc(files, k);
    InnerPlanSnoc(p, name, files[..k], files[k]);
  }

  // ------------------------------------------------------ plan properties

  /** Exactly the names declared more than once are planned, and each maps
      every file key it was declared under. */
  lemma PlanDomain(dupes: NamesMap, p: string, n: string)
    ensures n in PlanOf(dupes, p) <==> Size(dupes, n) > 1
    ensures n in PlanOf(dupes, p) ==> forall f :: f in PlanOf(dupes, p)[n] <==> f in Files(dupes, n)
  {
  }

  /** The names planned for one base differ between file keys. */
  lemma InnerPlanDistinct(p: string, name: string, files: seq<string>, f: string, g: string)
    requires f in files && g in files && f != g
    ensures InnerPlan(p, name, files)[f] != InnerPlan(p, name, files)[g]
  {
    CounterNamesDistinct(p, name, LastIndex(files, f) + 1, p, name, LastIndex(files, g) + 1);
  }

  /** No two planned (name, file key) pairs share a new name. */
  lemma PlanInjective(dupes: NamesMap, p: string, n1: string, f1: string, n2: string, f2: string)
    requires n1 in PlanOf(dupes, p) && f1 in PlanOf(dupes, p)[n1]
    requires n2 in PlanOf(dupes, p) && f2 in PlanOf(dupes, p)[n2]
    requires (n1, f1) != (n2, f2)
    ensures PlanOf(dupes, p)[n1][f1] != PlanOf(dupes, p)[n2][f2]
  {
    if n1 == n2 {
      InnerPlanDistinct(p, n1, Files(dupes, n1), f1, f2);
    } else {
      var k1 := PlanAt(dupes, p, n1, f1);
      var k2 := PlanAt(dupes, p, n2, f2);
      if k1 != k2 {
        CounterNamesDistinct(p, n1, k1, p, n2, k2);
      } else {
        SameCounterSameInput(p, n1, n2, k1);
      }
    }
  }

  /** A planned name is the counter name of the file's last occurrence. */
  lemma PlanAt(dupes: NamesMap, p: string, n: string, f: string) returns (k: nat)
    requires n in PlanOf(dupes, p) && f in PlanOf(dupes, p)[n]
    ensures PlanOf(dupes, p)[n][f] == CounterName(p, n, k)
  {
    assert f in Files(dupes, n);
    k := LastIndex(Files(dupes, n), f) + 1;
  }

  /** With one prefix and one counter, the name determines the base. */
  lemma SameCounterSameInput(p: string, a: string, b: string, k: nat)
    requires a != b
    ensures CounterName(p, a, k) != CounterName(p, b, k)
  {
    var d := "_" + NatToString(k);
    assert CounterName(p, a, k) == p + a + d;
    assert CounterName(p, b, k) == p + b + d;
    if |a| != |b| {
      assert |p + a + d| != |p + b + d|;
    } else {
      var i :| 0 <= i < |a| && a[i] != b[i];
      assert (p + a + d)[|p| + i] == a[i];
      assert (p + b + d)[|p| + i] == b[i];
    }
  }

  /** A file key declared twice under one name keeps the later name. */
  lemma RepeatKeepsLast(p: string, n: string, f: string, g: string)
    requires f != g
    ensures InnerPlan(p, n, [f, g, f])[f] == CounterName(p, n, 3)
    ensures InnerPlan(p, n, [f, g, f])[g] == CounterName(p, n, 2)
  {
    assert LastIndex([f, g, f], f) == 2;
    assert [f, g, f][..2] == [f, g];
    assert LastIndex([f, g, f], g) == 1;
  }

  // ------------------------------------------------------ renameDeclarations

  /** `plan.get(base)?.get(fileKey)`. */
  function Planned(plan: Plan, fileKey: string, base: string): Option<string> {
    if base in plan && fileKey in plan[base] then Some(plan[base][fileKey]) else None
  }

  predicate PlansNothingFor(plan: Plan, fileKey: string) {
    forall b :: b in plan ==> fileKey !in plan[b]
  }

  function RenameDecl(plan: Plan, fileKey: string, d: VarDecl): VarDecl {
    if d.name.BindId? && Planned(plan, fileKey, d.name.name).Some? then
      VarDecl(BindId(Planned(plan, fileKey, d.name.name).value), d.ty, d.init)
    else d
  }

  /** The visitor of the first pass. A variable statement is rebuilt and not
      visited further; a planned function or class is renamed and not visited
      further; everything else is visited. */
  function RenameStmt(plan: Plan, fileKey: string, s: Stmt): Option<seq<Stmt>> {
    match s
    case VarStmt(mods, kind, ds) =>
      Some([VarStmt(mods, kind, seq(|ds|, i requires 0 <= i < |ds| => RenameDecl(plan, fileKey, ds[i])))])
    case FuncDecl(mods, Some(n), ps, ret, body) =>
      if Planned(plan, fileKey, n).Some? then Some([FuncDecl(mods, Some(Planned(plan, fileKey, n).value), ps, ret, body)]) else None
    case ClassDecl(mods, Some(n), ms) =>
      if Planned(plan, fileKey, n).Some? then Some([ClassDecl(mods, Some(Planned(plan, fileKey, n).value), ms)]) else None
    case _ => None
  }

  function RenameHooks(plan: Plan, fileKey: string): Hooks<()> {
    Hooks((s, st, inNs) => (st, RenameStmt(plan, fileKey, s)),
          (e, st) => (st, None),
          (t, st) => (st, None),
          (p, n, st) => (st, n))
  }

  /** One file through `renameDeclarations`, keyed by its normalised path. */
  function RenameFile(plan: Plan, file: string, content: seq<Stmt>): seq<Stmt> {
    Stmts(RenameHooks(plan, FileKey(file)), Stateless(), content, (), false).0
  }

  /** A variable statement keeps its modifiers, kind, types and initialisers;
      a declarator is renamed iff it is an identifier the plan lists for
      this file, and then to the planned name. */
  lemma VarStmtPlanned(plan: Plan, file: string, mods: seq<Modifier>, kind: VarKind, ds: seq<VarDecl>)
    ensures var out := RenameFile(plan, file, [VarStmt(mods, kind, ds)]);
      && |out| == 1 && out[0].VarStmt? && out[0].mods == mods && out[0].kind == kind && |out[0].decls| == |ds|
      && forall i :: 0 <= i < |ds| ==>
           && out[0].decls[i].ty == ds[i].ty && out[0].decls[i].init == ds[i].init
           && (out[0].decls[i] != ds[i] <==> ds[i].name.BindId? && Planned(plan, FileKey(file), ds[i].name.name).Some?
                                               && Planned(plan, FileKey(file), ds[i].name.name).value != ds[i].name.name)
           && (ds[i].name.BindId? && Planned(plan, FileKey(file), ds[i].name.name).Some? ==>
                 out[0].decls[i].name == BindId(Planned(plan, FileKey(file), ds[i].name.name).value))
  {
    var h := RenameHooks(plan, FileKey(file));
    StmtsOneHooked(h, Stateless(), VarStmt(mods, kind, ds), (), false);
  }

  /** A named function is renamed iff the plan lists it for this file; a
      renamed function keeps its parameters and body. */
  lemma FuncPlanned(plan: Plan, file: string, mods: seq<Modifier>, n: string, ps: seq<Param>, body: seq<Stmt>)
    ensures var out := RenameFile(plan, file, [FuncDecl(mods, Some(n), ps, None, body)]);
      && |out| == 1 && out[0].FuncDecl? && out[0].mods == mods
      && (Planned(plan, FileKey(file), n).Some? ==>
            out[0] == FuncDecl(mods, Some(Planned(plan, FileKey(file), n).value), ps, None, body))
      && (Planned(plan, FileKey(file), n).None? ==> out[0].fname == Some(n))
  {
    if Planned(plan, FileKey(file), n).Some? {
      FuncRenamed(plan, file, mods, n, ps, body);
    } else {
      FuncKept(plan, file, mods, n, ps, body);
    }
  }

  lemma FuncRenamed(plan: Plan, file: string, mods: seq<Modifier>, n: string, ps: seq<Param>, body: seq<Stmt>)
    requires Planned(plan, FileKey(file), n).Some?
    ensures RenameFile(plan, file, [FuncDecl(mods, Some(n), ps, None, body)])
         == [FuncDecl(mods, Some(Planned(plan, FileKey(file), n).value), ps, None, body)]
  {
    var s := FuncDecl(mods, Some(n), ps, None, body);
    assert RenameStmt(plan, FileKey(file), s) == Some([FuncDecl(mods, Some(Planned(plan, FileKey(file), n).value), ps, None, body)]);
    StmtsOneHooked(RenameHooks(plan, FileKey(file)), Stateless(), s, (), false);
  }

  lemma FuncKept(plan: Plan, file: string, mods: seq<Modifier>, n: string, ps: seq<Param>, body: seq<Stmt>)
    requires Planned(plan, FileKey(file), n).None?
    ensures exists ps2, rt, b :: RenameFile(plan, file, [FuncDecl(mods, Some(n), ps, None, body)]) == [FuncDecl(mods, Some(n), ps2, rt, b)]
  {
    var h := RenameHooks(plan, FileKey(file));
    var s := FuncDecl(mods, Some(n), ps, None, body);
    StmtsOneUnhooked(h, Stateless(), s, (), false);
    var c := Children(h, Stateless(), s, (), false).0;
    assert c == FuncDecl(mods, Some(n), c.params, c.ret, c.body);
  }

  /** A named class is renamed iff the plan lists it for this file. */
  lemma ClassPlanned(plan: Plan, file: string, mods: seq<Modifier>, n: string, ms: seq<Member>)
    ensures var out := RenameFile(plan, file, [ClassDecl(mods, Some(n), ms)]);
      && |out| == 1 && out[0].ClassDecl? && out[0].mods == mods
      && (Planned(plan, FileKey(file), n).Some? ==>
            out[0] == ClassDecl(mods, Some(Planned(plan, FileKey(file), n).value), ms))
      && (Planned(plan, FileKey(file), n).None? ==> out[0].cname == Some(n))
  {
    if Planned(plan, FileKey(file), n).Some? {
      ClassRenamed(plan, file, mods, n, ms);
    } else {
      ClassKept(plan, file, mods, n, ms);
    }
  }

  lemma ClassRenamed(plan: Plan, file: string, mods: seq<Modifier>, n: string, ms: seq<Member>)
    requires Planned(plan, FileKey(file), n).Some?
    ensures RenameFile(plan, file, [ClassDecl(mods, Some(n), ms)]) == [ClassDecl(mods, Some(Planned(plan, FileKey(file), n).value), ms)]
  {
    var s := ClassDecl(mods, Some(n), ms);
    assert RenameStmt(plan, FileKey(file), s) == Some([ClassDecl(mods, Some(Planned(plan, FileKey(file), n).value), ms)]);
    StmtsOneHooked(RenameHooks(plan, FileKey(file)), Stateless(), s, (), false);
  }

  lemma ClassKept(plan: Plan, file: string, mods: seq<Modifier>, n: string, ms: seq<Member>)
    requires Planned(plan, FileKey(file), n).None?
    ensures exists ms2 :: RenameFile(plan, file, [ClassDecl(mods, Some(n), ms)]) == [ClassDecl(mods, Some(n), ms2)]
  {
    var h := RenameHooks(plan, FileKey(file));
    var s := ClassDecl(mods, Some(n), ms);
    assert RenameStmt(plan, FileKey(file), s) == None;
    StmtsOneUnhooked(h, Stateless(), s, (), false);
    assert IdOpt(h, Stateless(), ClassName, Some(n), ()) == (Some(n), ());
    var c := Children(h, Stateless(), s, (), false).0;
    assert c == ClassDecl(mods, Some(n), c.members);
  }

  /** A file the plan lists nothing for comes out as it went in. */
  lemma RenameUnplannedFile(plan: Plan, file: string, content: seq<Stmt>)
    requires PlansNothingFor(plan, FileKey(file))
    ensures RenameFile(plan, file, content) == content
  {
    var key := FileKey(file);
    var h := RenameHooks(plan, key);
    forall s, st: (), inNs: bool ensures h.stmt(s, st, inNs).0 == st && h.stmt(s, st, inNs).1 in {None, Some([s])} {
      RenameStmtUnplanned(plan, key, s);
    }
    StmtsIdle(h, Stateless(), content, (), false);
  }

  lemma RenameStmtUnplanned(plan: Plan, key: string, s: Stmt)
    requires PlansNothingFor(plan, key)
    ensures RenameStmt(plan, key, s) in {None, Some([s])}
  {
    if s.VarStmt? {
      var ds := s.decls;
      assert seq(|ds|, i requires 0 <= i < |ds| => RenameDecl(plan, key, ds[i])) == ds;
    }
  }

  // -------------------------------------------------------- updateReferences

  /** The names this file's own declarations were renamed to. */
  function LocalMap(plan: Plan, fileKey: string): map<string, string> {
    map b | b in plan && fileKey in plan[b] :: plan[b][fileKey]
  }

  /** `importMap`: imported base -> new name, filled while the file is walked. */
  type ImportMap = map<string, string>

  /** The key an import is looked up under: a string literal's value, resolved
      and normalised when relative or absolute; "" for any other specifier. */
  function RefKey(cwd: seq<string>, file: string, spec: Spec): string {
    ModuleKey(cwd, file, if spec.StrSpec? then spec.text else "")
  }

  /** `localMap.get(base) ?? importMap.get(base)`, used only when it is a
      non-empty string. */
  function Replacement(local: map<string, string>, imports: ImportMap, base: string): Option<string> {
    var r := if base in local then Some(local[base]) else if base in imports then Some(imports[base]) else None;
    if r.Some? && r.value != "" then r else None
  }

  /** The rule for a bare identifier: an imported name is replaced. */
  function ImportRule(imports: ImportMap, n: string): string {
    if n in imports then imports[n] else n
  }

  /** The local name an import element or default binding ends with: the
      planned name for its trimmed text, or itself. */
  function PlannedName(plan: Plan, key: string, n: string): string {
    var planned := Planned(plan, key, Trim(n));
    if planned.Some? then planned.value else n
  }

  /** Named import elements: each element whose trimmed local name the plan
      lists under the module's key gets the new local name... */
  function PlanElems(plan: Plan, key: string, es: seq<ImportSpec>): (r: seq<ImportSpec>) {
    seq(|es|, i requires 0 <= i < |es| => ImportSpec(es[i].isTypeOnly, es[i].propertyName, PlannedName(plan, key, es[i].name)))
  }

  /** ... and is recorded in `importMap`, element by element. */
  function RecordPlanned(plan: Plan, key: string, es: seq<ImportSpec>, imports: ImportMap): (r: ImportMap)
    ensures imports.Keys <= r.Keys
    decreases |es|
  {
    if es == [] then imports
    else
      var n := Trim(es[0].name);
      var planned := Planned(plan, key, n);
      RecordPlanned(plan, key, es[1..], if planned.Some? then imports[n := planned.value] else imports)
  }

  /** An import declaration with a clause: named bindings are answered
      element by element and the declaration is returned; otherwise a
      planned default binding is rebound; otherwise it is visited. */
  function UpdateImport(plan: Plan, key: string, c: ImportClause, spec: Spec, imports: ImportMap): (r: (ImportMap, Option<seq<Stmt>>))
    ensures imports.Keys <= r.0.Keys
  {
    if c.bindings.Some? && c.bindings.value.NamedImports? then
      var es := c.bindings.value.elems;
      (RecordPlanned(plan, key, es, imports),
       Some([Import(Some(ImportClause(c.isTypeOnly, c.default, Some(NamedImports(PlanElems(plan, key, es))))), spec)]))
    else if c.default.Some? && Planned(plan, key, Trim(c.default.value)).Some? then
      var n := Trim(c.default.value);
      var nn := Planned(plan, key, n).value;
      (imports[n := nn], Some([Import(Some(ImportClause(c.isTypeOnly, Some(nn), c.bindings)), spec)]))
    else (imports, None)
  }

  /** An export specifier: a local rename applies to its exported name and
      ends the visit; otherwise both of its identifiers meet the bare rule. */
  function ExportSpecRef(local: map<string, string>, imports: ImportMap, x: ExportSpec): ExportSpec {
    if x.name in local then ExportSpec(x.propertyName, local[x.name])
    else ExportSpec(if x.propertyName.Some? then Some(ImportRule(imports, x.propertyName.value)) else None, ImportRule(imports, x.name))
  }

  /** The statement-level cases of the second-pass visitor. */
  function UpdateStmt(plan: Plan, cwd: seq<string>, file: string, s: Stmt, imports: ImportMap): (r: (ImportMap, Option<seq<Stmt>>))
    ensures imports.Keys <= r.0.Keys
  {
    match s
    case Import(Some(c), spec) => UpdateImport(plan, RefKey(cwd, file, spec), c, spec, imports)
    case ExportDecl(t, Some(es), from) =>
      var local := LocalMap(plan, FileKey(file));
      (imports, Some([ExportDecl(t, Some(seq(|es|, i requires 0 <= i < |es| => ExportSpecRef(local, imports, es[i]))), from)]))
    case ExportAssign(isEq, Id(b)) =>
      var local := LocalMap(plan, FileKey(file));
      if b in local then (imports, Some([ExportAssign(isEq, Id(local[b]))])) else (imports, None)
    case _ => (imports, None)
  }

  /** The expression-level cases: an identifier callee, property base or
      `new` callee with a replacement is rewritten and not visited further;
      an identifier expression meets the bare rule. */
  function UpdateExpr(local: map<string, string>, e: Expr, imports: ImportMap): Option<Expr> {
    match e
    case Call(Id(b), ta, args) =>
      var r := Replacement(local, imports, b);
      if r.Some? then Some(Call(Id(r.value), ta, args)) else None
    case Prop(Id(b), n) =>
      var r := Replacement(local, imports, b);
      if r.Some? then Some(Prop(Id(r.value), n)) else None
    case New(Id(b), ta, args) =>
      var r := Replacement(local, imports, b);
      if r.Some? then Some(New(Id(r.value), ta, args)) else None
    case Id(n) => if n in imports then Some(Id(imports[n])) else None
    case _ => None
  }

  /** The bare rule applies to every identifier the walk reaches, wherever it sits. */
  function UpdateHooks(plan: Plan, cwd: seq<string>, file: string): Hooks<ImportMap> {
    Hooks((s, st, inNs) => UpdateStmt(plan, cwd, file, s, st),
          (e, st) => (st, UpdateExpr(LocalMap(plan, FileKey(file)), e, st)),
          (t, st) => (st, None),
          (p, n, st) => (st, ImportRule(st, n)))
  }

  function KeysGrow(): (ImportMap, ImportMap) -> bool {
    (a: ImportMap, b: ImportMap) => a.Keys <= b.Keys
  }

  /** One file through `updateReferences`, starting with an empty `importMap`. */
  function UpdateRefsFile(plan: Plan, cwd: seq<string>, file: string, content: seq<Stmt>): seq<Stmt> {
    Stmts(UpdateHooks(plan, cwd, file), KeysGrow(), content, map[], false).0
  }

  /** A call whose callee the file itself renamed goes to the local name,
      even when an import of the same base was recorded. */
  lemma LocalBeforeImport(plan: Plan, file: string, b: string, ta: seq<Type>, args: seq<Expr>, imports: ImportMap)
    requires b in LocalMap(plan, FileKey(file)) && LocalMap(plan, FileKey(file))[b] != ""
    ensures UpdateExpr(LocalMap(plan, FileKey(file)), Call(Id(b), ta, args), imports)
              == Some(Call(Id(plan[b][FileKey(file)]), ta, args))
  {
  }

  /** An import of a planned name from a file the plan lists, then a call of
      that name: the import takes the new local name and the call follows it. */
  lemma ImportThenCall(plan: Plan, cwd: seq<string>, file: string, n: string, text: string, q: char)
    requires Trim(n) !in LocalMap(plan, FileKey(file))
    requires Planned(plan, RefKey(cwd, file, StrSpec(text, q)), Trim(n)).Some?
    requires Planned(plan, RefKey(cwd, file, StrSpec(text, q)), Trim(n)).value != ""
    ensures var nn := Planned(plan, RefKey(cwd, file, StrSpec(text, q)), Trim(n)).value;
      UpdateRefsFile(plan, cwd, file,
        [Import(Some(ImportClause(false, None, Some(NamedImports([ImportSpec(false, None, n)])))), StrSpec(text, q)),
         ExprStmt(Call(Id(Trim(n)), [], []))])
      == [Import(Some(ImportClause(false, None, Some(NamedImports([ImportSpec(false, None, nn)])))), StrSpec(text, q)),
          ExprStmt(Call(Id(nn), [], []))]
  {
    var spec := StrSpec(text, q);
    var key := RefKey(cwd, file, spec);
    var m := Trim(n);
    var nn := Planned(plan, key, m).value;
    var h := UpdateHooks(plan, cwd, file);
    var imp := Import(Some(ImportClause(false, None, Some(NamedImports([ImportSpec(false, None, n)])))), spec);
    var imp2 := Import(Some(ImportClause(false, None, Some(NamedImports([ImportSpec(false, None, nn)])))), spec);
    var st1: ImportMap := map[m := nn];
    ImportStmtStep(plan, cwd, file, n, spec);
    var call := Call(Id(m), [], []);
    CallStmtStep(plan, cwd, file, m, nn);
    StmtsTwo(h, KeysGrow(), imp, ExprStmt(call), map[], false);
    assert [imp2] + [ExprStmt(Call(Id(nn), [], []))]
        == [imp2, ExprStmt(Call(Id(nn), [], []))];
  }

  lemma ImportStmtStep(plan: Plan, cwd: seq<string>, file: string, n: string, spec: Spec)
    requires Planned(plan, RefKey(cwd, file, spec), Trim(n)).Some?
    ensures var nn := Planned(plan, RefKey(cwd, file, spec), Trim(n)).value;
      Stmt1(UpdateHooks(plan, cwd, file), KeysGrow(),
            Import(Some(ImportClause(false, None, Some(NamedImports([ImportSpec(false, None, n)])))), spec), map[], false)
      == ([Import(Some(ImportClause(false, None, Some(NamedImports([ImportSpec(false, None, nn)])))), spec)],
          map[Trim(n) := nn])
  {
    var key := RefKey(cwd, file, spec);
    var nn := Planned(plan, key, Trim(n)).value;
    var h := UpdateHooks(plan, cwd, file);
    var imp := Import(Some(ImportClause(false, None, Some(NamedImports([ImportSpec(false, None, n)])))), spec);
    var imp2 := Import(Some(ImportClause(false, None, Some(NamedImports([ImportSpec(false, None, nn)])))), spec);
    ImportOneElem(plan, key, n, spec);
    assert h.stmt(imp, map[], false) == UpdateStmt(plan, cwd, file, imp, map[]) == (map[Trim(n) := nn], Some([imp2]));
  }

  lemma CallStmtStep(plan: Plan, cwd: seq<string>, file: string, m: string, nn: string)
    requires m !in LocalMap(plan, FileKey(file)) && nn != ""
    ensures Stmt1(UpdateHooks(plan, cwd, file), KeysGrow(), ExprStmt(Call(Id(m), [], [])), map[m := nn], false)
         == ([ExprStmt(Call(Id(nn), [], []))], map[m := nn])
  {
    var h := UpdateHooks(plan, cwd, file);
    CallFollowsImport(plan, cwd, file, m, nn);
    assert Expr1(h, KeysGrow(), Call(Id(m), [], []), map[m := nn], false) == (Call(Id(nn), [], []), map[m := nn]);
  }

  lemma CallFollowsImport(plan: Plan, cwd: seq<string>, file: string, m: string, nn: string)
    requires m !in LocalMap(plan, FileKey(file)) && nn != ""
    ensures UpdateHooks(plan, cwd, file).stmt(ExprStmt(Call(Id(m), [], [])), map[m := nn], false) == (map[m := nn], None)
    ensures UpdateHooks(plan, cwd, file).expr(Call(Id(m), [], []), map[m := nn]) == (map[m := nn], Some(Call(Id(nn), [], [])))
  {
  }

  lemma ImportOneElem(plan: Plan, key: string, n: string, spec: Spec)
    requires Planned(plan, key, Trim(n)).Some?
    ensures var nn := Planned(plan, key, Trim(n)).value;
      UpdateImport(plan, key, ImportClause(false, None, Some(NamedImports([ImportSpec(false, None, n)]))), spec, map[])
        == (map[Trim(n) := nn], Some([Import(Some(ImportClause(false, None, Some(NamedImports([ImportSpec(false, None, nn)])))), spec)]))
  {
    var x := ImportSpec(false, None, n);
    assert [x][1..] == [];
    assert PlanElems(plan, key, [x]) == [ImportSpec(false, None, Planned(plan, key, Trim(n)).value)];
    assert RecordPlanned(plan, key, [x], map[]) == map[Trim(n) := Planned(plan, key, Trim(n)).value];
  }

  /** After the import, a bare use of the imported name follows it too. */
  lemma ImportedUseRenamed(plan: Plan, file: string, n: string, imports: ImportMap)
    requires n in imports
    ensures Expr1(UpdateHooks(plan, [], file), KeysGrow(), Id(n), imports, false) == (Id(imports[n]), imports)
  {
  }

  /** The bare rule also reaches a property name after '.': an unrelated
      object's member that shares the imported name is renamed. */
  lemma PropertyNameFollowsImport(plan: Plan, file: string, o: string, n: string, imports: ImportMap)
    requires o !in LocalMap(plan, FileKey(file)) && o !in imports && n in imports
    ensures Expr1(UpdateHooks(plan, [], file), KeysGrow(), Prop(Id(o), n), imports, false) == (Prop(Id(o), imports[n]), imports)
  {
    var h := UpdateHooks(plan, [], file);
    assert h.expr(Prop(Id(o), n), imports) == (imports, None);
    assert Expr1(h, KeysGrow(), Id(o), imports, false) == (Id(o), imports);
  }

  /** An import with named bindings is answered by its elements alone: a
      planned default binding beside them keeps its name. */
  lemma NamedBindingsHideDefault(plan: Plan, key: string, d: string, es: seq<ImportSpec>, spec: Spec, imports: ImportMap)
    ensures var r := UpdateImport(plan, key, ImportClause(false, Some(d), Some(NamedImports(es))), spec, imports);
      r.1.Some? && |r.1.value| == 1 && r.1.value[0].clause.value.default == Some(d)
  {
  }

  /** A planned default binding with no named bindings is rebound and recorded. */
  lemma DefaultPlanned(plan: Plan, key: string, d: string, spec: Spec, imports: ImportMap)
    requires Planned(plan, key, Trim(d)).Some?
    ensures var nn := Planned(plan, key, Trim(d)).value;
      UpdateImport(plan, key, ImportClause(false, Some(d), None), spec, imports)
        == (imports[Trim(d) := nn], Some([Import(Some(ImportClause(false, Some(nn), None)), spec)]))
  {
  }

  /** An export specifier naming a local rename exports the new name under
      the same property name; export assignments follow local renames too. */
  lemma ExportFollowsLocal(plan: Plan, cwd: seq<string>, file: string, p: Option<string>, b: string, from: Option<Spec>, imports: ImportMap)
    requires b in LocalMap(plan, FileKey(file))
    ensures UpdateStmt(plan, cwd, file, ExportDecl(false, Some([ExportSpec(p, b)]), from), imports)
              == (imports, Some([ExportDecl(false, Some([ExportSpec(p, plan[b][FileKey(file)])]), from)]))
    ensures UpdateStmt(plan, cwd, file, ExportAssign(false, Id(b)), imports)
              == (imports, Some([ExportAssign(false, Id(plan[b][FileKey(file)]))]))
  {
    ExportSpecFollowsLocal(plan, cwd, file, p, b, from, imports);
    ExportAssignFollowsLocal(plan, cwd, file, b, imports);
  }

  lemma ExportSpecFollowsLocal(plan: Plan, cwd: seq<string>, file: string, p: Option<string>, b: string, from: Option<Spec>, imports: ImportMap)
    requires b in LocalMap(plan, FileKey(file))
    ensures UpdateStmt(plan, cwd, file, ExportDecl(false, Some([ExportSpec(p, b)]), from), imports)
              == (imports, Some([ExportDecl(false, Some([ExportSpec(p, plan[b][FileKey(file)])]), from)]))
  {
    var local := LocalMap(plan, FileKey(file));
    assert local[b] == plan[b][FileKey(file)];
    assert seq(1, i requires 0 <= i < 1 => ExportSpecRef(local, imports, [ExportSpec(p, b)][i])) == [ExportSpec(p, plan[b][FileKey(file)])];
  }

  lemma ExportAssignFollowsLocal(plan: Plan, cwd: seq<string>, file: string, b: string, imports: ImportMap)
    requires b in LocalMap(plan, FileKey(file))
    ensures UpdateStmt(plan, cwd, file, ExportAssign(false, Id(b)), imports)
              == (imports, Some([ExportAssign(false, Id(plan[b][FileKey(file)]))]))
  {
    assert LocalMap(plan, FileKey(file))[b] == plan[b][FileKey(file)];
  }

  // --------------------------------------------------------- the pipeline

  datatype Stage = RenameStage | UpdateStage

  /** One stage on one file: the content is rewritten, the rest kept. */
  function StageFile(plan: Plan, cwd: seq<string>, stage: Stage, d: DepsFile): (r: DepsFile)
    ensures r.file == d.file && r.rest == d.rest
  {
    var content := match stage
      case RenameStage => RenameFile(plan, d.file, d.content)
      case UpdateStage => UpdateRefsFile(plan, cwd, d.file, d.content);
    DepsFile(d.file, content, d.rest)
  }

  /** The stages, applied in order to one file's content. */
  function RunStages(plan: Plan, cwd: seq<string>, stages: seq<Stage>, d: DepsFile): (r: DepsFile)
    ensures r.file == d.file && r.rest == d.rest
    decreases |stages|
  {
    if stages == [] then d
    else StageFile(plan, cwd, stages[|stages| - 1], RunStages(plan, cwd, stages[..|stages| - 1], d))
  }

  /** `applyRenamePlan`: `deps = deps.map(fn)` for rename, update, update. */
  method ApplyRenamePlan(cwd: seq<string>, deps: seq<DepsFile>, plan: Plan) returns (r: seq<DepsFile>)
    ensures |r| == |deps|
    ensures forall i :: 0 <= i < |deps| ==> r[i] == RunStages(plan, cwd, [RenameStage, UpdateStage, UpdateStage], deps[i])
  {
    var fns := [RenameStage, UpdateStage, UpdateStage];
    r := deps;
    for k := 0 to |fns|
      invariant |r| == |deps|
      invariant forall i :: 0 <= i < |deps| ==> r[i] == RunStages(plan, cwd, fns[..k], deps[i])
    {
      assert fns[..k + 1][..k] == fns[..k];
      r := seq(|r|, i requires 0 <= i < |r| => StageFile(plan, cwd, fns[k], r[i]));
    }
    assert fns[..3] == fns;
  }

  /** After the three stages each file's content is the two updates applied
      to the renamed content, with its path and other fields kept. */
  lemma AllStagesApplied(plan: Plan, cwd: seq<string>, deps: seq<DepsFile>, r: seq<DepsFile>)
    requires |r| == |deps|
    requires forall i :: 0 <= i < |deps| ==> r[i] == RunStages(plan, cwd, [RenameStage, UpdateStage, UpdateStage], deps[i])
    ensures forall i :: 0 <= i < |deps| ==>
              && r[i].file == deps[i].file && r[i].rest == deps[i].rest
              && r[i].content == UpdateRefsFile(plan, cwd, deps[i].file,
                                   UpdateRefsFile(plan, cwd, deps[i].file,
                                     RenameFile(plan, deps[i].file, deps[i].content)))
  {
    forall i | 0 <= i < |deps| {
      RenameThenUpdateTwice(plan, cwd, deps[i]);
    }
  }

  /** The three stages of `applyRenamePlan`, in their order. */
  lemma RenameThenUpdateTwice(plan: Plan, cwd: seq<string>, d: DepsFile)
    ensures RunStages(plan, cwd, [RenameStage, UpdateStage, UpdateStage], d).content
              == UpdateRefsFile(plan, cwd, d.file, UpdateRefsFile(plan, cwd, d.file, RenameFile(plan, d.file, d.content)))
  {
    var fns := [RenameStage, UpdateStage, UpdateStage];
    assert fns[..2] == [RenameStage, UpdateStage];
    assert fns[..2][..1] == [RenameStage];
    assert fns[..2][..1][..0] == [];
    var d1 := RunStages(plan, cwd, [RenameStage], d);
    assert d1 == StageFile(plan, cwd, RenameStage, d);
    var d2 := RunStages(plan, cwd, [RenameStage, UpdateStage], d);
    assert d2 == StageFile(plan, cwd, UpdateStage, d1);
    assert RunStages(plan, cwd, fns, d) == StageFile(plan, cwd, UpdateStage, d2);
  }

  /** With an empty plan the first pass changes no file. */
  lemma EmptyPlanRenamesNothing(file: string, content: seq<Stmt>)
    ensures RenameFile(map[], file, content) == content
  {
    RenameUnplannedFile(map[], file, content);
  }
}
