// Renaming of duplicated declarations
// (src/lib/bundle/visitors/duplicateUpdate.ts): a variable declarator,
// function or class whose name `namesMap` holds with more than one
// occurrence gets the next `d_<base>_<k>` name, and the rename is appended
// to `callNameMap` as {base, file, newName}. The counter `k` belongs to the
// module-level name source with prefix "d_" and is threaded here as a state.
module DuplicateUpdate {
  import opened Wrappers
  import opened Ast
  import opened Records
  import opened UniqueNames
  import opened DuplicateCollect
  import opened Walk

  /** The counter of the "d_" name source (how many names it has issued)
      and the entries appended to `callNameMap` so far. */
  datatype UState = UState(count: nat, log: seq<NamesSet>)

  predicate IsDup(m: NamesMap, n: string) {
    Size(m, n) > 1
  }

  /** `dupName.getName(base)` and the `callNameMap.push`. */
  function Issue(file: string, base: string, st: UState): (r: (string, UState))
    ensures r.0 == CounterName("d_", base, st.count + 1)
    ensures r.1 == UState(st.count + 1, st.log + [NamesSet(base, file, r.0, false)])
  {
    var newName := CounterName("d_", base, st.count + 1);
    (newName, UState(st.count + 1, st.log + [NamesSet(base, file, newName, false)]))
  }

  /** `st2` extends `st1` by consecutive renames of duplicated names in `file`. */
  predicate Issued(m: NamesMap, file: string, st1: UState, st2: UState) {
    && st1.log <= st2.log
    && st2.count == st1.count + (|st2.log| - |st1.log|)
    && forall i :: |st1.log| <= i < |st2.log| ==>
         && st2.log[i].file == file
         && IsDup(m, st2.log[i].base)
         && st2.log[i].newName == CounterName("d_", st2.log[i].base, st1.count + (i - |st1.log|) + 1)
         && !st2.log[i].isEd
  }

  lemma IssuedRefl(m: NamesMap, file: string, st: UState)
    ensures Issued(m, file, st, st)
  {
  }

  lemma IssuedTrans(m: NamesMap, file: string, a: UState, b: UState, c: UState)
    requires Issued(m, file, a, b) && Issued(m, file, b, c)
    ensures Issued(m, file, a, c)
  {
    forall i | |a.log| <= i < |c.log|
      ensures c.log[i].newName == CounterName("d_", c.log[i].base, a.count + (i - |a.log|) + 1)
    {
      if i < |b.log| { assert c.log[i] == b.log[i]; }
    }
  }

  /** One declarator: renamed when it is an identifier declared in more
      than one file. */
  function RenameDecl(m: NamesMap, file: string, d: VarDecl, st: UState): (r: (VarDecl, UState))
    ensures Issued(m, file, st, r.1)
    ensures r.0.ty == d.ty && r.0.init == d.init
    ensures r.0 == d <==> !(d.name.BindId? && IsDup(m, d.name.name))
  {
    if d.name.BindId? && IsDup(m, d.name.name) then
      var (n, s1) := Issue(file, d.name.name, st);
      CounterNameLonger("d_", d.name.name, st.count + 1);
      (VarDecl(BindId(n), d.ty, d.init), s1)
    else (d, st)
  }

  /** The declarators of one variable statement, renamed in order. */
  function RenameDecls(m: NamesMap, file: string, ds: seq<VarDecl>, st: UState): (r: (seq<VarDecl>, UState))
    ensures Issued(m, file, st, r.1)
    ensures |r.0| == |ds|
    ensures forall i :: 0 <= i < |ds| ==> r.0[i].ty == ds[i].ty && r.0[i].init == ds[i].init
    ensures forall i :: 0 <= i < |ds| ==>
              (r.0[i] == ds[i] <==> !(ds[i].name.BindId? && IsDup(m, ds[i].name.name)))
    decreases ds
  {
    if ds == [] then ([], st)
    else
      var (d2, st1) := RenameDecl(m, file, ds[0], st);
      var (rest, st2) := RenameDecls(m, file, ds[1..], st1);
      IssuedTrans(m, file, st, st1, st2);
      DeclsCons(m, ds, d2, rest);
      ([d2] + rest, st2)
  }

  lemma DeclsCons(m: NamesMap, ds: seq<VarDecl>, d2: VarDecl, rest: seq<VarDecl>)
    requires ds != [] && |rest| == |ds| - 1
    requires d2.ty == ds[0].ty && d2.init == ds[0].init
    requires d2 == ds[0] <==> !(ds[0].name.BindId? && IsDup(m, ds[0].name.name))
    requires forall i :: 0 <= i < |ds[1..]| ==> rest[i].ty == ds[1..][i].ty && rest[i].init == ds[1..][i].init
    requires forall i :: 0 <= i < |ds[1..]| ==>
               (rest[i] == ds[1..][i] <==> !(ds[1..][i].name.BindId? && IsDup(m, ds[1..][i].name.name)))
    ensures var r := [d2] + rest;
            && (forall i :: 0 <= i < |ds| ==> r[i].ty == ds[i].ty && r[i].init == ds[i].init)
            && (forall i :: 0 <= i < |ds| ==> (r[i] == ds[i] <==> !(ds[i].name.BindId? && IsDup(m, ds[i].name.name))))
  {
    var r := [d2] + rest;
    forall i | 1 <= i < |ds| ensures r[i] == rest[i - 1] && ds[i] == ds[1..][i - 1] {
    }
  }

  /** A generated name is never the base it was made from. */
  lemma CounterNameLonger(prefix: string, base: string, k: nat)
    requires prefix != ""
    ensures CounterName(prefix, base, k) != base
  {
    assert |CounterName(prefix, base, k)| > |base|;
  }

  /** The visitor at a statement: variable statements are rebuilt from their
      renamed declarators and not visited further; a renamed function or
      class is returned without visiting its children; everything else goes
      on to `visitEachChild`. */
  function UpdateStmt(m: NamesMap, file: string, s: Stmt, st: UState): (r: (UState, Option<seq<Stmt>>))
    ensures Issued(m, file, st, r.0)
  {
    match s
    case VarStmt(mods, kind, decls) =>
      var (ds, st1) := RenameDecls(m, file, decls, st);
      (st1, Some([VarStmt(mods, kind, ds)]))
    case FuncDecl(mods, Some(n), params, ret, body) =>
      if IsDup(m, n) then
        var (n2, st1) := Issue(file, n, st);
        (st1, Some([FuncDecl(mods, Some(n2), params, ret, body)]))
      else (st, None)
    case ClassDecl(mods, Some(n), members) =>
      if IsDup(m, n) then
        var (n2, st1) := Issue(file, n, st);
        (st1, Some([ClassDecl(mods, Some(n2), members)]))
      else (st, None)
    case _ => (st, None)
  }

  function UpdateHooks(m: NamesMap, file: string): Hooks<UState> {
    Hooks((s, st, inNs) => UpdateStmt(m, file, s, st),
          (e, st) => (st, None),
          (t, st) => (st, None),
          (p, n, st) => (st, n))
  }

  function IssuedRel(m: NamesMap, file: string): (UState, UState) -> bool {
    (a, b) => Issued(m, file, a, b)
  }

  lemma UpdateKeeps(m: NamesMap, file: string)
    ensures Keeps(UpdateHooks(m, file), IssuedRel(m, file))
  {
    forall a, b, c | Issued(m, file, a, b) && Issued(m, file, b, c)
      ensures Issued(m, file, a, c)
    {
      IssuedTrans(m, file, a, b, c);
    }
  }

  /** One file through the visitor: the new statements and the new state. */
  function UpdateFile(m: NamesMap, file: string, content: seq<Stmt>, st: UState): (r: (seq<Stmt>, UState))
    ensures Issued(m, file, st, r.1)
  {
    UpdateKeeps(m, file);
    Stmts(UpdateHooks(m, file), IssuedRel(m, file), content, st, false)
  }

  // ----------------------------------------------------------- properties

  /** A one-statement file goes through the visitor once. */
  lemma UpdateOne(m: NamesMap, file: string, s: Stmt, st: UState)
    ensures Keeps(UpdateHooks(m, file), IssuedRel(m, file))
    ensures UpdateFile(m, file, [s], st) == Stmt1(UpdateHooks(m, file), IssuedRel(m, file), s, st, false)
    ensures UpdateHooks(m, file).stmt(s, st, false) == UpdateStmt(m, file, s, st)
  {
    UpdateKeeps(m, file);
    StmtsOne(UpdateHooks(m, file), IssuedRel(m, file), s, st, false);
  }

  /** A top-level variable statement keeps its modifiers, kind, types and
      initialisers, and a declarator changes iff its name is duplicated. */
  lemma VarStmtRenamed(m: NamesMap, file: string, mods: seq<Modifier>, kind: VarKind, ds: seq<VarDecl>, st: UState)
    ensures var (out, st2) := UpdateFile(m, file, [VarStmt(mods, kind, ds)], st);
      && |out| == 1 && out[0].VarStmt? && out[0].mods == mods && out[0].kind == kind
      && |out[0].decls| == |ds|
      && (forall i :: 0 <= i < |ds| ==> out[0].decls[i].init == ds[i].init)
      && (forall i :: 0 <= i < |ds| ==>
            (out[0].decls[i] == ds[i] <==> !(ds[i].name.BindId? && IsDup(m, ds[i].name.name))))
      && Issued(m, file, st, st2)
  {
    UpdateOne(m, file, VarStmt(mods, kind, ds), st);
  }

  /** A named function is renamed iff its name is duplicated; a renamed
      function keeps its body as it was. */
  lemma FuncRenamed(m: NamesMap, file: string, mods: seq<Modifier>, n: string, ps: seq<Param>, body: seq<Stmt>, st: UState)
    ensures var (out, st2) := UpdateFile(m, file, [FuncDecl(mods, Some(n), ps, None, body)], st);
      && |out| == 1 && out[0].FuncDecl? && out[0].mods == mods
      && (out[0].fname == Some(n) <==> !IsDup(m, n))
      && (IsDup(m, n) ==> out[0].fname == Some(CounterName("d_", n, st.count + 1)) && out[0].body == body
                          && st2.log == st.log + [NamesSet(n, file, CounterName("d_", n, st.count + 1), false)])
  {
    UpdateOne(m, file, FuncDecl(mods, Some(n), ps, None, body), st);
    if IsDup(m, n) { CounterNameLonger("d_", n, st.count + 1); }
  }

  /** A named class is renamed iff its name is duplicated. */
  lemma ClassRenamed(m: NamesMap, file: string, mods: seq<Modifier>, n: string, members: seq<Member>, st: UState)
    ensures var (out, st2) := UpdateFile(m, file, [ClassDecl(mods, Some(n), members)], st);
      && |out| == 1 && out[0].ClassDecl? && out[0].mods == mods
      && (out[0].cname == Some(n) <==> !IsDup(m, n))
      && (IsDup(m, n) ==> out[0].cname == Some(CounterName("d_", n, st.count + 1)) && out[0].members == members)
  {
    UpdateOne(m, file, ClassDecl(mods, Some(n), members), st);
    if IsDup(m, n) { CounterNameLonger("d_", n, st.count + 1); }
  }

  /** Enums, interfaces and type aliases keep their names even when the
      name is duplicated, and nothing is recorded for them. */
  lemma TypeDeclsKept(m: NamesMap, file: string, mods: seq<Modifier>, n: string, members: seq<string>, st: UState)
    ensures UpdateFile(m, file, [EnumDecl(mods, n, members)], st) == ([EnumDecl(mods, n, members)], st)
    ensures UpdateFile(m, file, [TypeAlias(mods, n, Keyword("string"))], st) == ([TypeAlias(mods, n, Keyword("string"))], st)
  {
    UpdateOne(m, file, EnumDecl(mods, n, members), st);
    IdsNeutral(UpdateHooks(m, file), IssuedRel(m, file), EnumMemberName, members, st);
    UpdateOne(m, file, TypeAlias(mods, n, Keyword("string")), st);
  }

  /** The walk goes on into an unrenamed function: a local variable with a
      duplicated name is renamed too. */
  lemma NestedDeclRenamed(m: NamesMap, file: string, f: string, x: string, st: UState)
    requires !IsDup(m, f) && IsDup(m, x)
    ensures var inner := VarStmt([], Const, [VarDecl(BindId(x), None, None)]);
      UpdateFile(m, file, [FuncDecl([], Some(f), [], None, [inner])], st).0
        == [FuncDecl([], Some(f), [], None, [VarStmt([], Const, [VarDecl(BindId(CounterName("d_", x, st.count + 1)), None, None)])])]
  {
    var inner := VarStmt([], Const, [VarDecl(BindId(x), None, None)]);
    var s := FuncDecl([], Some(f), [], None, [inner]);
    UpdateOne(m, file, s, st);
    UpdateKeeps(m, file);
    var h, inv := UpdateHooks(m, file), IssuedRel(m, file);
    StmtsOne(h, inv, inner, st, false);
    assert [VarDecl(BindId(x), None, None)][1..] == [];
    var ds := RenameDecls(m, file, [VarDecl(BindId(x), None, None)], st);
    assert ds.0 == [VarDecl(BindId(CounterName("d_", x, st.count + 1)), None, None)];
    assert Stmt1(h, inv, inner, st, false).0 == [VarStmt([], Const, ds.0)];
    assert Params(h, inv, [], st) == ([], st);
    assert TypeOpt(h, inv, None, st) == (None, st);
    assert Children(h, inv, s, st, false).0 == FuncDecl([], Some(f), [], None, [VarStmt([], Const, ds.0)]);
  }
}
