// Naming of anonymous default exports and the redirection of their imports:
// src/lib/bundle/visitors/anonymousExport.ts, anonymousImport.ts and
// anonymousCallExpression.ts (the visitors the bundler runs through
// bundleCreator) and src/lib/bundle/anonymous.ts (the same three steps as
// handlers over module-level lists and a name source of its own).
//
// An anonymous `export default` in file `<dir>/<base>.<ext>` gets the next
// name `<prefix><base>_<k>` and {base: name, file: <base>, newName: name}
// is pushed to the export list. A default import whose lookup key equals
// such an entry's file is rebound to the name and {local, importer,
// newName} is pushed to the import list. Calls, property bases, `new` and
// export specifiers that use the local name in the importer are then
// redirected to the name.
module Anonymous {
  import opened Wrappers
  import opened Text
  import opened Ast
  import opened Records
  import opened Paths
  import opened UniqueNames
  import opened Walk
  import DuplicateRefs

  /** The key anonymous.ts registers its name source under, and its prefix. */
  const NameKey := "AnonymousName"
  const HandlerPrefix := "__anonymous__"
  /** The prefix of the visitors' name source. */
  const VisitorPrefix := "a_"

  // ------------------------------------------------------------- file keys

  /** `path.basename(file).split(".")[0]`. */
  function FileBase(file: string): (r: string)
    ensures '.' !in r
  {
    Split(Basename(file), '.')[0]
  }

  /** The import lookup key as written: the basename of the specifier's
      SOURCE TEXT, quotes included, up to its first '.', trimmed. */
  function QuotedImportKey(spec: Spec): string {
    Trim(Split(Basename(SpecText(spec)), '.')[0])
  }

  /** The import lookup key the rest of this model uses: the same cut made on
      the specifier's value, so that it can equal an exporter's `FileBase`. */
  function ImportKey(spec: Spec): string {
    Trim(Split(Basename(SpecValue(spec)), '.')[0])
  }

  /** A module's own name: a plain segment other than `index`, not starting
      or ending with white space. */
  predicate ModuleName(n: string) {
    PlainName(n) && n != "index" && !IsJsSpace(n[0]) && !IsJsSpace(n[|n| - 1])
  }

  lemma SplitHead(p: string, c: char, rest: string)
    requires c !in p
    ensures Split(p + [c] + rest, c)[0] == p
  {
    IndexOfPrefix(p, c, rest);
    assert (p + [c] + rest)[..|p|] == p;
  }

  lemma SplitNone(p: string, c: char)
    requires c !in p
    ensures Split(p, c) == [p]
  {
  }

  /** The base of `<dir>/<n>.ts` is `n`. */
  lemma FileBaseOfTs(dir: seq<string>, n: string)
    requires ValidSegs(dir) && ModuleName(n)
    ensures FileBase(Format(Path(true, dir + [n + ".ts"]))) == n
  {
    ParseFormat(Path(true, dir + [n + ".ts"]));
    assert Basename(Format(Path(true, dir + [n + ".ts"]))) == n + ".ts";
    assert n + ".ts" == n + ['.'] + "ts";
    SplitHead(n, '.', "ts");
  }

  /** The basename of `<q>./<tail>` is `<tail>` when `tail` holds no '/'. */
  lemma BasenameDotSlash(head: string, tail: string)
    requires head != "" && '/' !in head && '/' !in tail && tail != ""
    ensures Basename(head + "/" + tail) == tail
  {
    var s := head + "/" + tail;
    assert s == head + ['/'] + tail;
    IndexOfPrefix(head, '/', tail);
    assert s[..|head|] == head;
    assert s[|head| + 1..] == tail;
    SplitNone(tail, '/');
    assert Split(s, '/') == [head, tail];
    assert NonEmpty([head, tail]) == [head, tail];
  }

  /** Finding: as written, `./<n>` is looked up as `<n><q>`, which is no
      file's base. */
  lemma QuotedKeyKeepsQuote(n: string, q: char)
    requires ModuleName(n) && IsQuote(q)
    ensures QuotedImportKey(StrSpec("./" + n, q)) == n + [q]
  {
    assert SpecText(StrSpec("./" + n, q)) == [q, '.'] + "/" + (n + [q]);
    BasenameDotSlash([q, '.'], n + [q]);
    SplitNone(n + [q], '.');
    TrimOfTrimmed(n + [q]);
  }

  /** With an extension, the quote is cut off with it: `./<n>.js` is looked
      up as `<n>`. */
  lemma QuotedKeyWithExtension(n: string, q: char)
    requires ModuleName(n) && IsQuote(q)
    ensures QuotedImportKey(StrSpec("./" + n + ".js", q)) == n
  {
    var tail := n + ".js" + [q];
    assert SpecText(StrSpec("./" + n + ".js", q)) == [q, '.'] + "/" + tail;
    BasenameDotSlash([q, '.'], tail);
    assert tail == n + ['.'] + ("js" + [q]);
    SplitHead(n, '.', "js" + [q]);
    TrimOfTrimmed(n);
  }

  /** The key the model uses finds the exporter with and without an extension. */
  lemma ImportKeyOfSibling(dir: seq<string>, n: string, q: char)
    requires ValidSegs(dir) && ModuleName(n)
    ensures ImportKey(StrSpec("./" + n, q)) == FileBase(Format(Path(true, dir + [n + ".ts"])))
    ensures ImportKey(StrSpec("./" + n + ".js", q)) == FileBase(Format(Path(true, dir + [n + ".ts"])))
  {
    FileBaseOfTs(dir, n);
    BasenameDotSlash(".", n);
    assert "./" + n == "." + "/" + n;
    SplitNone(n, '.');
    TrimOfTrimmed(n);
    assert "./" + n + ".js" == "." + "/" + (n + ".js");
    BasenameDotSlash(".", n + ".js");
    assert n + ".js" == n + ['.'] + "js";
    SplitHead(n, '.', "js");
  }

  // ------------------------------------------------ anonymousExport visitor

  /** The name source's counter and the entries pushed to
      `exportDefaultExportNameMap`. */
  datatype XState = XState(count: nat, exported: seq<NamesSet>)

  /** The entry recorded for the k-th name issued while naming in `base`. */
  function Recorded(prefix: string, base: string, k: nat): NamesSet {
    var n := CounterName(prefix, base, k);
    NamesSet(n, base, n, true)
  }

  /** `genName.getName(base)` followed by the push. */
  function Issue(prefix: string, base: string, st: XState): (r: (string, XState))
    ensures r.0 == CounterName(prefix, base, st.count + 1)
    ensures r.1 == XState(st.count + 1, st.exported + [Recorded(prefix, base, st.count + 1)])
  {
    var n := CounterName(prefix, base, st.count + 1);
    (n, XState(st.count + 1, st.exported + [Recorded(prefix, base, st.count + 1)]))
  }

  /** `b` extends `a` by names issued one after the other in `base`: each push
      comes with exactly one step of the counter. */
  predicate Named(prefix: string, base: string, a: XState, b: XState) {
    && a.exported <= b.exported
    && b.count == a.count + (|b.exported| - |a.exported|)
    && forall i :: |a.exported| <= i < |b.exported| ==>
         b.exported[i] == Recorded(prefix, base, a.count + (i - |a.exported|) + 1)
  }

  lemma NamedTrans(prefix: string, base: string, a: XState, b: XState, c: XState)
    requires Named(prefix, base, a, b) && Named(prefix, base, b, c)
    ensures Named(prefix, base, a, c)
  {
    forall i | |a.exported| <= i < |c.exported|
      ensures c.exported[i] == Recorded(prefix, base, a.count + (i - |a.exported|) + 1)
    {
      if i < |b.exported| { assert c.exported[i] == b.exported[i]; }
    }
  }

  /** Export-default expressions that get a name. */
  predicate Nameable(e: Expr) {
    e.Arrow? || e.Obj? || e.Arr? || e.Str? || e.Num?
  }

  /** `const <name> = <e>;`. An arrow lends the statement its modifiers and
      the declaration its return type annotation. */
  function Declared(name: string, e: Expr): (r: Stmt)
    ensures r.VarStmt? && r.kind == Const && |r.decls| == 1
    ensures r.decls[0] == VarDecl(BindId(name), if e.Arrow? then e.ret else None, Some(e))
    ensures r.mods == (if e.Arrow? then e.mods else [])
  {
    match e
    case Arrow(mods, _, ret, _) => VarStmt(mods, Const, [VarDecl(BindId(name), ret, Some(e))])
    case _ => VarStmt([], Const, [VarDecl(BindId(name), None, Some(e))])
  }

  /** The export visitor at a statement. */
  function ExportStmt(prefix: string, base: string, s: Stmt, st: XState): (r: (XState, Option<seq<Stmt>>))
    ensures Named(prefix, base, st, r.0)
    ensures r.1.Some? <==> r.0 != st
  {
    match s
    case FuncDecl(mods, None, ps, ret, body) =>
      if Export in mods && Default in mods then
        var (n, st1) := Issue(prefix, base, st);
        (st1, Some([FuncDecl(mods, Some(n), ps, ret, body)]))
      else (st, None)
    case ClassDecl(mods, None, members) =>
      if Export in mods && Default in mods then
        var (n, st1) := Issue(prefix, base, st);
        (st1, Some([ClassDecl(mods, Some(n), members)]))
      else (st, None)
    case ExportAssign(false, e) =>
      if Nameable(e) then
        var (n, st1) := Issue(prefix, base, st);
        (st1, Some([Declared(n, e), ExportAssign(false, Id(n))]))
      else (st, None)
    case _ => (st, None)
  }

  function ExportHooks(prefix: string, base: string): Hooks<XState> {
    Hooks((s, st, inNs) => ExportStmt(prefix, base, s, st),
          (e, st) => (st, None),
          (t, st) => (st, None),
          (p, n, st) => (st, n))
  }

  function NamedRel(prefix: string, base: string): (XState, XState) -> bool {
    (a, b) => Named(prefix, base, a, b)
  }

  lemma ExportKeeps(prefix: string, base: string)
    ensures Keeps(ExportHooks(prefix, base), NamedRel(prefix, base))
  {
    forall a, b, c | Named(prefix, base, a, b) && Named(prefix, base, b, c)
      ensures Named(prefix, base, a, c)
    {
      NamedTrans(prefix, base, a, b, c);
    }
  }

  /** One file through the export visitor, naming in the file's base. */
  function ExportFile(prefix: string, file: string, content: seq<Stmt>, st: XState): (r: (seq<Stmt>, XState))
    ensures Named(prefix, FileBase(file), st, r.1)
  {
    ExportKeeps(prefix, FileBase(file));
    Stmts(ExportHooks(prefix, FileBase(file)), NamedRel(prefix, FileBase(file)), content, st, false)
  }

  lemma ExportOne(prefix: string, file: string, s: Stmt, st: XState)
    ensures Keeps(ExportHooks(prefix, FileBase(file)), NamedRel(prefix, FileBase(file)))
    ensures ExportFile(prefix, file, [s], st)
            == Stmt1(ExportHooks(prefix, FileBase(file)), NamedRel(prefix, FileBase(file)), s, st, false)
  {
    ExportKeeps(prefix, FileBase(file));
    StmtsOne(ExportHooks(prefix, FileBase(file)), NamedRel(prefix, FileBase(file)), s, st, false);
  }

  /** A nameless function carrying both `export` and `default` gets the next
      name and one entry is recorded; with either modifier missing it keeps
      no name and nothing is recorded for it. */
  lemma NamelessFunctionNamed(prefix: string, file: string, mods: seq<Modifier>, ps: seq<Param>, body: seq<Stmt>, st: XState)
    ensures var (out, st2) := ExportFile(prefix, file, [FuncDecl(mods, None, ps, None, body)], st);
      && |out| == 1 && out[0].FuncDecl? && out[0].mods == mods
      && (out[0].fname.Some? <==> Export in mods && Default in mods)
      && (Export in mods && Default in mods ==>
            && out[0] == FuncDecl(mods, Some(CounterName(prefix, FileBase(file), st.count + 1)), ps, None, body)
            && st2 == XState(st.count + 1, st.exported + [Recorded(prefix, FileBase(file), st.count + 1)]))
  {
    ExportOne(prefix, file, FuncDecl(mods, None, ps, None, body), st);
  }

  /** The same for a nameless class. */
  lemma NamelessClassNamed(prefix: string, file: string, mods: seq<Modifier>, members: seq<Member>, st: XState)
    ensures var (out, st2) := ExportFile(prefix, file, [ClassDecl(mods, None, members)], st);
      && |out| == 1 && out[0].ClassDecl? && out[0].mods == mods
      && (out[0].cname.Some? <==> Export in mods && Default in mods)
      && (Export in mods && Default in mods ==>
            && out[0] == ClassDecl(mods, Some(CounterName(prefix, FileBase(file), st.count + 1)), members)
            && st2 == XState(st.count + 1, st.exported + [Recorded(prefix, FileBase(file), st.count + 1)]))
  {
    ExportOne(prefix, file, ClassDecl(mods, None, members), st);
  }

  /** `export default <arrow | object | array | string | number>` becomes
      `const <name> = <e>; export default <name>;`. */
  lemma DefaultExpressionSplit(prefix: string, file: string, e: Expr, st: XState)
    requires Nameable(e)
    ensures var n := CounterName(prefix, FileBase(file), st.count + 1);
      ExportFile(prefix, file, [ExportAssign(false, e)], st)
        == ([Declared(n, e), ExportAssign(false, Id(n))],
            XState(st.count + 1, st.exported + [Recorded(prefix, FileBase(file), st.count + 1)]))
  {
    ExportOne(prefix, file, ExportAssign(false, e), st);
  }

  /** `export = <literal>` is left alone. */
  lemma ExportEqualsKept(prefix: string, file: string, t: string, st: XState)
    ensures ExportFile(prefix, file, [ExportAssign(true, Str(t))], st) == ([ExportAssign(true, Str(t))], st)
  {
    var h, inv := ExportHooks(prefix, FileBase(file)), NamedRel(prefix, FileBase(file));
    ExportOne(prefix, file, ExportAssign(true, Str(t)), st);
    assert h.stmt(ExportAssign(true, Str(t)), st, false) == (st, None);
    assert Expr1(h, inv, Str(t), st, false) == (Str(t), st);
  }

  /** `export default <identifier>` is left alone. */
  lemma ExportIdentifierKept(prefix: string, file: string, x: string, isEquals: bool, st: XState)
    ensures ExportFile(prefix, file, [ExportAssign(isEquals, Id(x))], st) == ([ExportAssign(isEquals, Id(x))], st)
  {
    var h, inv := ExportHooks(prefix, FileBase(file)), NamedRel(prefix, FileBase(file));
    ExportOne(prefix, file, ExportAssign(isEquals, Id(x)), st);
    assert h.stmt(ExportAssign(isEquals, Id(x)), st, false) == (st, None);
    assert Expr1(h, inv, Id(x), st, false) == (Id(x), st);
  }

  /** `export default <call>` is left alone. */
  lemma ExportCallKept(prefix: string, file: string, x: string, isEquals: bool, st: XState)
    ensures ExportFile(prefix, file, [ExportAssign(isEquals, Call(Id(x), [], []))], st)
            == ([ExportAssign(isEquals, Call(Id(x), [], []))], st)
  {
    var h, inv := ExportHooks(prefix, FileBase(file)), NamedRel(prefix, FileBase(file));
    var e := Call(Id(x), [], []);
    ExportOne(prefix, file, ExportAssign(isEquals, e), st);
    assert h.stmt(ExportAssign(isEquals, e), st, false) == (st, None);
    assert Expr1(h, inv, Id(x), st, false) == (Id(x), st);
    assert Types(h, inv, [], st) == ([], st);
    assert Exprs(h, inv, [], st, false) == ([], st);
    assert Expr1(h, inv, e, st, false) == (e, st);
  }

  /** The counter and the export list agree: the i-th entry carries the
      (i+1)-th name, whatever file it was issued in. */
  ghost predicate Consistent(prefix: string, st: XState) {
    && |st.exported| == st.count
    && forall i :: 0 <= i < |st.exported| ==> st.exported[i] == Recorded(prefix, st.exported[i].file, i + 1)
  }

  lemma NamedConsistent(prefix: string, base: string, a: XState, b: XState)
    requires Named(prefix, base, a, b)
    ensures Consistent(prefix, a) ==> Consistent(prefix, b)
  {
    if Consistent(prefix, a) {
      NamedKeepsConsistent(prefix, base, a, b);
    }
  }

  lemma NamedKeepsConsistent(prefix: string, base: string, a: XState, b: XState)
    requires Consistent(prefix, a) && Named(prefix, base, a, b)
    ensures Consistent(prefix, b)
  {
    forall i | 0 <= i < |b.exported|
      ensures b.exported[i] == Recorded(prefix, b.exported[i].file, i + 1)
    {
      if i < |a.exported| { assert b.exported[i] == a.exported[i]; }
    }
  }

  /** Because the counter is shared by every file, no two recorded entries
      carry the same name. */
  lemma ConsistentDistinct(prefix: string, st: XState, i: nat, j: nat)
    requires Consistent(prefix, st)
    requires i < j < |st.exported|
    ensures st.exported[i].newName != st.exported[j].newName
  {
    CounterNamesDistinct(prefix, st.exported[i].file, i + 1, prefix, st.exported[j].file, j + 1);
  }

  // ------------------------------------------------ anonymousImport visitor

  /** The visitor at an import with a default binding: the first export entry
      whose file is the specifier's key supplies the new name. */
  function ImportStmt(exported: seq<NamesSet>, file: string, s: Stmt, st: seq<NamesSet>): (r: (seq<NamesSet>, Option<seq<Stmt>>))
    ensures st <= r.0 && |r.0| <= |st| + 1
    ensures r.1.Some? <==> |r.0| == |st| + 1
  {
    match s
    case Import(Some(c), spec) =>
      if c.default.Some? then
        match FindFile(exported, ImportKey(spec))
        case Some(m) =>
          (st + [NamesSet(c.default.value, file, m.newName, true)],
           Some([Import(Some(ImportClause(c.isTypeOnly, Some(m.newName), c.bindings)), spec)]))
        case None => (st, None)
      else (st, None)
    case _ => (st, None)
  }

  /** `b` extends `a` by entries for `file`, each naming an exported name. */
  predicate Rebound(exported: seq<NamesSet>, file: string, a: seq<NamesSet>, b: seq<NamesSet>) {
    && a <= b
    && forall i :: |a| <= i < |b| ==> b[i].file == file && b[i].isEd && Exports(exported, b[i].newName)
  }

  predicate Exports(exported: seq<NamesSet>, n: string) {
    exists j :: 0 <= j < |exported| && exported[j].newName == n
  }

  lemma ImportStmtRebound(exported: seq<NamesSet>, file: string, s: Stmt, st: seq<NamesSet>)
    ensures Rebound(exported, file, st, ImportStmt(exported, file, s, st).0)
  {
    var r := ImportStmt(exported, file, s, st).0;
    if r != st {
      var c := s.clause.value;
      var m := FindFile(exported, ImportKey(s.spec)).value;
      assert r == st + [NamesSet(c.default.value, file, m.newName, true)];
      assert m in exported;
      var j :| 0 <= j < |exported| && exported[j] == m;
      assert Exports(exported, m.newName);
    }
  }

  function ImportHooks(exported: seq<NamesSet>, file: string): Hooks<seq<NamesSet>> {
    Hooks((s, st, inNs) => ImportStmt(exported, file, s, st),
          (e, st) => (st, None),
          (t, st) => (st, None),
          (p, n, st) => (st, n))
  }

  function ReboundRel(exported: seq<NamesSet>, file: string): (seq<NamesSet>, seq<NamesSet>) -> bool {
    (a, b) => Rebound(exported, file, a, b)
  }

  lemma ImportKeeps(exported: seq<NamesSet>, file: string)
    ensures Keeps(ImportHooks(exported, file), ReboundRel(exported, file))
  {
    forall s, st, inNs ensures Rebound(exported, file, st, ImportHooks(exported, file).stmt(s, st, inNs).0) {
      ImportStmtRebound(exported, file, s, st);
    }
    forall a: seq<NamesSet>, b: seq<NamesSet>, c: seq<NamesSet> | Rebound(exported, file, a, b) && Rebound(exported, file, b, c)
      ensures Rebound(exported, file, a, c)
    {
      forall i | |a| <= i < |c| ensures c[i].file == file && c[i].isEd && Exports(exported, c[i].newName) {
        if i < |b| { assert c[i] == b[i]; }
      }
    }
  }

  /** One file through the import visitor. `exported` is only read. */
  function ImportFile(exported: seq<NamesSet>, file: string, content: seq<Stmt>, st: seq<NamesSet>): (r: (seq<Stmt>, seq<NamesSet>))
    ensures Rebound(exported, file, st, r.1)
  {
    ImportKeeps(exported, file);
    Stmts(ImportHooks(exported, file), ReboundRel(exported, file), content, st, false)
  }

  /** A default import is rebound to the first matching export entry's name,
      keeping its named bindings, and one entry is recorded. */
  lemma DefaultImportRebound(exported: seq<NamesSet>, file: string, c: ImportClause, spec: Spec, st: seq<NamesSet>)
    requires c.default.Some? && FindFile(exported, ImportKey(spec)).Some?
    ensures var m := FindFile(exported, ImportKey(spec)).value;
      ImportFile(exported, file, [Import(Some(c), spec)], st)
        == ([Import(Some(ImportClause(c.isTypeOnly, Some(m.newName), c.bindings)), spec)],
            st + [NamesSet(c.default.value, file, m.newName, true)])
  {
    var h, inv := ImportHooks(exported, file), ReboundRel(exported, file);
    ImportKeeps(exported, file);
    StmtsOneHooked(h, inv, Import(Some(c), spec), st, false);
  }

  /** With no export entry for the key, the declaration and the list stay as
      they were. */
  lemma UnmatchedImportKept(exported: seq<NamesSet>, file: string, c: ImportClause, spec: Spec, st: seq<NamesSet>)
    requires FindFile(exported, ImportKey(spec)).None?
    ensures ImportFile(exported, file, [Import(Some(c), spec)], st) == ([Import(Some(c), spec)], st)
  {
    var h, inv := ImportHooks(exported, file), ReboundRel(exported, file);
    ImportKeeps(exported, file);
    StmtsOne(h, inv, Import(Some(c), spec), st, false);
    assert h.stmt(Import(Some(c), spec), st, false) == (st, None);
    ClauseNeutral(h, inv, Some(c), st);
  }

  /** Only default bindings are considered: an import without one is kept. */
  lemma NoDefaultKept(exported: seq<NamesSet>, file: string, c: ImportClause, spec: Spec, st: seq<NamesSet>)
    requires c.default.None?
    ensures ImportFile(exported, file, [Import(Some(c), spec)], st) == ([Import(Some(c), spec)], st)
  {
    var h, inv := ImportHooks(exported, file), ReboundRel(exported, file);
    ImportKeeps(exported, file);
    StmtsOne(h, inv, Import(Some(c), spec), st, false);
    assert h.stmt(Import(Some(c), spec), st, false) == (st, None);
    ClauseNeutral(h, inv, Some(c), st);
  }

  /** The first export entry for the key decides, whatever its base. */
  lemma FirstEntryDecides(e1: NamesSet, e2: NamesSet, file: string, c: ImportClause, spec: Spec, st: seq<NamesSet>)
    requires c.default.Some? && e1.file == ImportKey(spec)
    ensures ImportFile([e1, e2], file, [Import(Some(c), spec)], st).0
            == [Import(Some(ImportClause(c.isTypeOnly, Some(e1.newName), c.bindings)), spec)]
  {
    DefaultImportRebound([e1, e2], file, c, spec, st);
  }

  // ---------------------------------------- anonymousCallExpression visitor

  /** The entry for `base` in `file`, if any, names the replacement; an entry
      counts whatever its new name. */
  function Target(imported: seq<NamesSet>, file: string, base: string): (r: Option<string>)
    ensures r.Some? <==> FindBaseFile(imported, base, file).Some?
    ensures r.Some? ==> r.value == FindBaseFile(imported, base, file).value.newName
  {
    match FindBaseFile(imported, base, file)
    case Some(m) => Some(m.newName)
    case None => None
  }

  function CallExpr(imported: seq<NamesSet>, file: string, e: Expr): (r: Option<Expr>)
    ensures r.Some? ==> e.Call? || e.Prop? || e.New?
  {
    match e
    case Call(Id(b), ta, args) =>
      (match Target(imported, file, b) case Some(n) => Some(Call(Id(n), ta, args)) case None => None)
    case Prop(Id(b), name) =>
      (match Target(imported, file, b) case Some(n) => Some(Prop(Id(n), name)) case None => None)
    case New(Id(b), ta, args) =>
      (match Target(imported, file, b) case Some(n) => Some(New(Id(n), ta, args)) case None => None)
    case _ => None
  }

  /** Export specifiers are matched and rewritten on `name`. */
  function CallId(imported: seq<NamesSet>, file: string, p: IdPos, n: string): string {
    if p == ExportName then Target(imported, file, n).GetOr(n) else n
  }

  function CallHooks(imported: seq<NamesSet>, file: string): Hooks<()> {
    Hooks((s, st, inNs) => (st, None),
          (e, st) => (st, CallExpr(imported, file, e)),
          (t, st) => (st, None),
          (p, n, st) => (st, CallId(imported, file, p, n)))
  }

  /** One file through the call visitor. The list is only read. */
  function CallFile(imported: seq<NamesSet>, file: string, content: seq<Stmt>): seq<Stmt> {
    Stmts(CallHooks(imported, file), Stateless(), content, (), false).0
  }

  /** A call, property base and `new` on a rebound name are redirected; the
      redirected call's arguments are not visited. */
  lemma CallRedirected(imported: seq<NamesSet>, file: string, b: string, x: string)
    requires Target(imported, file, b).Some?
    ensures var n := Target(imported, file, b).value;
      && CallFile(imported, file, [ExprStmt(Call(Id(b), [], [Id(b)]))]) == [ExprStmt(Call(Id(n), [], [Id(b)]))]
      && CallFile(imported, file, [ExprStmt(Prop(Id(b), x))]) == [ExprStmt(Prop(Id(n), x))]
      && CallFile(imported, file, [ExprStmt(New(Id(b), [], []))]) == [ExprStmt(New(Id(n), [], []))]
  {
    var h := CallHooks(imported, file);
    StmtsOneExpr(h, Stateless(), Call(Id(b), [], [Id(b)]), (), false);
    StmtsOneExpr(h, Stateless(), Prop(Id(b), x), (), false);
    StmtsOneExpr(h, Stateless(), New(Id(b), [], []), (), false);
  }

  /** An export specifier is rewritten on `name`, keeping `propertyName`. */
  lemma ExportSpecRedirected(imported: seq<NamesSet>, file: string, p: Option<string>, b: string)
    ensures CallFile(imported, file, [ExportDecl(false, Some([ExportSpec(p, b)]), None)])
            == [ExportDecl(false, Some([ExportSpec(p, Target(imported, file, b).GetOr(b))]), None)]
  {
    var h, inv := CallHooks(imported, file), Stateless();
    var s := ExportDecl(false, Some([ExportSpec(p, b)]), None);
    var n := Target(imported, file, b).GetOr(b);
    assert h.stmt(s, (), false) == ((), None);
    assert IdOpt(h, inv, ExportProp, p, ()) == (p, ());
    assert Id1(h, inv, ExportName, b, ()) == (n, ());
    ExportDeclOne(h, inv, false, ExportSpec(p, b), None, (), false);
  }

  /** Entries recorded for other files never change the redirection. */
  lemma CallIgnoresOtherFiles(imported: seq<NamesSet>, extra: seq<NamesSet>, file: string, base: string)
    requires forall i :: 0 <= i < |extra| ==> extra[i].file != file
    ensures Target(imported + extra, file, base) == Target(imported, file, base)
  {
    DuplicateRefs.FindIgnoresOtherFiles(imported, extra, file, base);
  }

  // ---------------------------------------------- anonymous.ts, file by file

  /** The export handler over the files in order, sharing one counter. */
  function ExportPass(prefix: string, deps: seq<DepsFile>, st: XState): (r: (seq<DepsFile>, XState))
    ensures |r.0| == |deps|
    ensures forall i :: 0 <= i < |deps| ==> r.0[i].file == deps[i].file && r.0[i].rest == deps[i].rest
    ensures st.exported <= r.1.exported
    ensures Consistent(prefix, st) ==> Consistent(prefix, r.1)
    decreases |deps|
  {
    if deps == [] then ([], st)
    else
      var (front, st1) := ExportPass(prefix, deps[..|deps| - 1], st);
      var d := deps[|deps| - 1];
      var (c, st2) := ExportFile(prefix, d.file, d.content, st1);
      NamedConsistent(prefix, FileBase(d.file), st1, st2);
      (front + [DepsFile(d.file, c, d.rest)], st2)
  }

  /** The import handler over the files in order. */
  function ImportPass(exported: seq<NamesSet>, deps: seq<DepsFile>, st: seq<NamesSet>): (r: (seq<DepsFile>, seq<NamesSet>))
    ensures |r.0| == |deps|
    ensures forall i :: 0 <= i < |deps| ==> r.0[i].file == deps[i].file && r.0[i].rest == deps[i].rest
    ensures st <= r.1
    ensures forall i :: |st| <= i < |r.1| ==> r.1[i].isEd && Exports(exported, r.1[i].newName)
    decreases |deps|
  {
    if deps == [] then ([], st)
    else
      var (front, st1) := ImportPass(exported, deps[..|deps| - 1], st);
      var d := deps[|deps| - 1];
      var (c, st2) := ImportFile(exported, d.file, d.content, st1);
      (front + [DepsFile(d.file, c, d.rest)], st2)
  }

  /** The call handler over the files. */
  function CallPass(imported: seq<NamesSet>, deps: seq<DepsFile>): (r: seq<DepsFile>)
    ensures |r| == |deps|
    ensures forall i :: 0 <= i < |deps| ==>
              r[i] == DepsFile(deps[i].file, CallFile(imported, deps[i].file, deps[i].content), deps[i].rest)
    decreases |deps|
  {
    if deps == [] then []
    else
      var d := deps[|deps| - 1];
      CallPass(imported, deps[..|deps| - 1]) + [DepsFile(d.file, CallFile(imported, d.file, d.content), d.rest)]
  }

  /** The module-level state of anonymous.ts: the two lists and the counter
      of the name source registered under "AnonymousName". None of it is
      ever cleared, so it carries over from call to call. */
  class AnonymousNames {
    var exported: seq<NamesSet>
    var imported: seq<NamesSet>
    var count: nat

    ghost predicate Valid()
      reads this
    {
      Consistent(HandlerPrefix, XState(count, exported))
      && forall i :: 0 <= i < |imported| ==> imported[i].isEd && Exports(exported, imported[i].newName)
    }

    constructor()
      ensures exported == [] && imported == [] && count == 0
      ensures Valid()
    {
      exported, imported, count := [], [], 0;
    }

    /** `anonymousExportHandler` mapped over the files. */
    method ExportHandler(deps: seq<DepsFile>) returns (out: seq<DepsFile>)
      requires Valid()
      modifies this
      ensures Valid()
      ensures (out, XState(count, exported)) == ExportPass(HandlerPrefix, deps, XState(old(count), old(exported)))
      ensures imported == old(imported)
    {
      var st := XState(count, exported);
      ghost var st0 := st;
      out := [];
      var i := 0;
      while i < |deps|
        invariant 0 <= i <= |deps|
        invariant (out, st) == ExportPass(HandlerPrefix, deps[..i], st0)
      {
        assert deps[..i + 1][..i] == deps[..i];
        var d := deps[i];
        var (c, st1) := ExportFile(HandlerPrefix, d.file, d.content, st);
        out := out + [DepsFile(d.file, c, d.rest)];
        st := st1;
        i := i + 1;
      }
      assert deps[..i] == deps;
      forall k | 0 <= k < |imported| ensures Exports(st.exported, imported[k].newName) {
        var j :| 0 <= j < |exported| && exported[j].newName == imported[k].newName;
        assert st.exported[j] == exported[j];
      }
      count, exported := st.count, st.exported;
    }

    /** `anonymousImportHandler` mapped over the files. */
    method ImportHandler(deps: seq<DepsFile>) returns (out: seq<DepsFile>)
      requires Valid()
      modifies this
      ensures Valid()
      ensures (out, imported) == ImportPass(exported, deps, old(imported))
      ensures exported == old(exported) && count == old(count)
    {
      var st := imported;
      ghost var st0 := st;
      out := [];
      var i := 0;
      while i < |deps|
        invariant 0 <= i <= |deps|
        invariant (out, st) == ImportPass(exported, deps[..i], st0)
      {
        assert deps[..i + 1][..i] == deps[..i];
        var d := deps[i];
        var (c, st1) := ImportFile(exported, d.file, d.content, st);
        out := out + [DepsFile(d.file, c, d.rest)];
        st := st1;
        i := i + 1;
      }
      assert deps[..i] == deps;
      imported := st;
    }

    /** `anonymousCallExpressionHandler` mapped over the files. */
    method CallHandler(deps: seq<DepsFile>) returns (out: seq<DepsFile>)
      ensures out == CallPass(imported, deps)
    {
      out := [];
      var i := 0;
      while i < |deps|
        invariant 0 <= i <= |deps|
        invariant out == CallPass(imported, deps[..i])
      {
        assert deps[..i + 1][..i] == deps[..i];
        var d := deps[i];
        out := out + [DepsFile(d.file, CallFile(imported, d.file, d.content), d.rest)];
        i := i + 1;
      }
      assert deps[..i] == deps;
    }

    /** `anonymousHandler`: export, then import, then call, each over every file. */
    method Handle(deps: seq<DepsFile>) returns (out: seq<DepsFile>)
      requires Valid()
      modifies this
      ensures Valid()
      ensures var (d1, x) := ExportPass(HandlerPrefix, deps, XState(old(count), old(exported)));
        var (d2, im) := ImportPass(x.exported, d1, old(imported));
        && exported == x.exported && count == x.count && imported == im
        && out == CallPass(im, d2)
    {
      var d1 := ExportHandler(deps);
      var d2 := ImportHandler(d1);
      out := CallHandler(d2);
    }
  }

  // ------------------------------------------------------------ end to end

  lemma ExportPassOne(prefix: string, d0: DepsFile, st: XState)
    ensures var r0 := ExportFile(prefix, d0.file, d0.content, st);
      ExportPass(prefix, [d0], st) == ([DepsFile(d0.file, r0.0, d0.rest)], r0.1)
  {
    var r0 := ExportFile(prefix, d0.file, d0.content, st);
    var e0 := DepsFile(d0.file, r0.0, d0.rest);
    assert [d0][..0] == [];
    assert ExportPass(prefix, [d0], st) == ([] + [e0], r0.1);
    assert [] + [e0] == [e0];
  }

  lemma ExportPassTwo(prefix: string, d0: DepsFile, d1: DepsFile, st: XState)
    ensures var r0 := ExportFile(prefix, d0.file, d0.content, st);
      var r1 := ExportFile(prefix, d1.file, d1.content, r0.1);
      ExportPass(prefix, [d0, d1], st) == ([DepsFile(d0.file, r0.0, d0.rest), DepsFile(d1.file, r1.0, d1.rest)], r1.1)
  {
    var r0 := ExportFile(prefix, d0.file, d0.content, st);
    var r1 := ExportFile(prefix, d1.file, d1.content, r0.1);
    var e0, e1 := DepsFile(d0.file, r0.0, d0.rest), DepsFile(d1.file, r1.0, d1.rest);
    ExportPassOne(prefix, d0, st);
    ExportPassSnoc(prefix, [d0], d1, st);
    assert [d0] + [d1] == [d0, d1];
    assert [e0] + [e1] == [e0, e1];
  }

  /** One more file: the pass so far, then that file in the state it left. */
  lemma ExportPassSnoc(prefix: string, ds: seq<DepsFile>, d: DepsFile, st: XState)
    ensures var r := ExportFile(prefix, d.file, d.content, ExportPass(prefix, ds, st).1);
      ExportPass(prefix, ds + [d], st) == (ExportPass(prefix, ds, st).0 + [DepsFile(d.file, r.0, d.rest)], r.1)
  {
    assert (ds + [d])[..|ds|] == ds;
  }

  lemma ImportPassTwo(exported: seq<NamesSet>, d0: DepsFile, d1: DepsFile, st: seq<NamesSet>)
    ensures var r0 := ImportFile(exported, d0.file, d0.content, st);
      var r1 := ImportFile(exported, d1.file, d1.content, r0.1);
      ImportPass(exported, [d0, d1], st) == ([DepsFile(d0.file, r0.0, d0.rest), DepsFile(d1.file, r1.0, d1.rest)], r1.1)
  {
    var r0 := ImportFile(exported, d0.file, d0.content, st);
    var r1 := ImportFile(exported, d1.file, d1.content, r0.1);
    var e0, e1 := DepsFile(d0.file, r0.0, d0.rest), DepsFile(d1.file, r1.0, d1.rest);
    ImportPassOne(exported, d0, st);
    assert [d0, d1][..1] == [d0];
    assert ImportPass(exported, [d0, d1], st) == ([e0] + [e1], r1.1);
    assert [e0] + [e1] == [e0, e1];
  }

  lemma ImportPassOne(exported: seq<NamesSet>, d0: DepsFile, st: seq<NamesSet>)
    ensures var r0 := ImportFile(exported, d0.file, d0.content, st);
      ImportPass(exported, [d0], st) == ([DepsFile(d0.file, r0.0, d0.rest)], r0.1)
  {
    var r0 := ImportFile(exported, d0.file, d0.content, st);
    var e0 := DepsFile(d0.file, r0.0, d0.rest);
    assert [d0][..0] == [];
    assert ImportPass(exported, [d0], st) == ([] + [e0], r0.1);
    assert [] + [e0] == [e0];
  }

  /** The importing file as the export handler sees it: nothing to name. */
  lemma UseNotNamed(prefix: string, file: string, c: ImportClause, spec: Spec, f: string, st: XState)
    ensures ExportFile(prefix, file, [Import(Some(c), spec), ExprStmt(Call(Id(f), [], []))], st)
            == ([Import(Some(c), spec), ExprStmt(Call(Id(f), [], []))], st)
  {
    var h, inv := ExportHooks(prefix, FileBase(file)), NamedRel(prefix, FileBase(file));
    ExportKeeps(prefix, FileBase(file));
    var a, b := Import(Some(c), spec), ExprStmt(Call(Id(f), [], []));
    StmtsTwo(h, inv, a, b, st, false);
    assert h.stmt(a, st, false) == (st, None);
    ClauseNeutral(h, inv, Some(c), st);
    assert Stmt1(h, inv, a, st, false) == ([a], st);
    assert h.stmt(b, st, false) == (st, None);
    assert Expr1(h, inv, Id(f), st, false) == (Id(f), st);
    assert Types(h, inv, [], st) == ([], st);
    assert Exprs(h, inv, [], st, false) == ([], st);
    assert Expr1(h, inv, Call(Id(f), [], []), st, false) == (Call(Id(f), [], []), st);
    assert Stmt1(h, inv, b, st, false) == ([b], st);
    assert [a] + [b] == [a, b];
  }

  /** The importing file as the import handler sees it: the default binding is
      rebound and the call is left for the call handler. */
  lemma UseRebound(exported: seq<NamesSet>, file: string, c: ImportClause, spec: Spec, f: string, st: seq<NamesSet>)
    requires c.default == Some(f) && FindFile(exported, ImportKey(spec)).Some?
    ensures var m := FindFile(exported, ImportKey(spec)).value;
      ImportFile(exported, file, [Import(Some(c), spec), ExprStmt(Call(Id(f), [], []))], st)
        == ([Import(Some(ImportClause(c.isTypeOnly, Some(m.newName), c.bindings)), spec), ExprStmt(Call(Id(f), [], []))],
            st + [NamesSet(f, file, m.newName, true)])
  {
    var h, inv := ImportHooks(exported, file), ReboundRel(exported, file);
    ImportKeeps(exported, file);
    var m := FindFile(exported, ImportKey(spec)).value;
    var s1 := st + [NamesSet(f, file, m.newName, true)];
    var a, b := Import(Some(c), spec), ExprStmt(Call(Id(f), [], []));
    var a' := Import(Some(ImportClause(c.isTypeOnly, Some(m.newName), c.bindings)), spec);
    StmtsTwo(h, inv, a, b, st, false);
    ReboundImportStep(exported, file, c, spec, f, st);
    ReboundCallStep(exported, file, f, s1);
    assert [a'] + [b] == [a', b];
  }

  /** The two steps of that walk: the import is rebound, */
  lemma ReboundImportStep(exported: seq<NamesSet>, file: string, c: ImportClause, spec: Spec, f: string, st: seq<NamesSet>)
    requires c.default == Some(f) && FindFile(exported, ImportKey(spec)).Some?
    requires Keeps(ImportHooks(exported, file), ReboundRel(exported, file))
    ensures var m := FindFile(exported, ImportKey(spec)).value;
      Stmt1(ImportHooks(exported, file), ReboundRel(exported, file), Import(Some(c), spec), st, false)
        == ([Import(Some(ImportClause(c.isTypeOnly, Some(m.newName), c.bindings)), spec)], st + [NamesSet(f, file, m.newName, true)])
  {
    var h := ImportHooks(exported, file);
    var m := FindFile(exported, ImportKey(spec)).value;
    assert h.stmt(Import(Some(c), spec), st, false)
        == (st + [NamesSet(f, file, m.newName, true)], Some([Import(Some(ImportClause(c.isTypeOnly, Some(m.newName), c.bindings)), spec)]));
  }

  /** and the call is left alone. */
  lemma ReboundCallStep(exported: seq<NamesSet>, file: string, f: string, s1: seq<NamesSet>)
    requires Keeps(ImportHooks(exported, file), ReboundRel(exported, file))
    ensures Stmt1(ImportHooks(exported, file), ReboundRel(exported, file), ExprStmt(Call(Id(f), [], [])), s1, false)
        == ([ExprStmt(Call(Id(f), [], []))], s1)
  {
    var h, inv := ImportHooks(exported, file), ReboundRel(exported, file);
    assert h.stmt(ExprStmt(Call(Id(f), [], [])), s1, false) == (s1, None);
    assert Expr1(h, inv, Id(f), s1, false) == (Id(f), s1);
    assert Types(h, inv, [], s1) == ([], s1);
    assert Exprs(h, inv, [], s1, false) == ([], s1);
    assert Expr1(h, inv, Call(Id(f), [], []), s1, false) == (Call(Id(f), [], []), s1);
  }

  /** The importing file as the call handler sees it. */
  lemma UseRedirected(imported: seq<NamesSet>, file: string, c: ImportClause, spec: Spec, f: string)
    requires c.bindings.None? && Target(imported, file, f).Some?
    ensures CallFile(imported, file, [Import(Some(c), spec), ExprStmt(Call(Id(f), [], []))])
            == [Import(Some(c), spec), ExprStmt(Call(Id(Target(imported, file, f).value), [], []))]
  {
    var h, inv := CallHooks(imported, file), Stateless();
    var a, b := Import(Some(c), spec), ExprStmt(Call(Id(f), [], []));
    var b' := ExprStmt(Call(Id(Target(imported, file, f).value), [], []));
    StmtsTwo(h, inv, a, b, (), false);
    DefaultImportUncalled(imported, file, c, spec);
    CallStmtRedirected(imported, file, f);
    assert [a] + [b'] == [a, b'];
  }

  lemma DefaultImportUncalled(imported: seq<NamesSet>, file: string, c: ImportClause, spec: Spec)
    requires c.bindings.None?
    requires Keeps(CallHooks(imported, file), Stateless())
    ensures Stmt1(CallHooks(imported, file), Stateless(), Import(Some(c), spec), (), false) == ([Import(Some(c), spec)], ())
  {
    var h, inv := CallHooks(imported, file), Stateless();
    assert IdOpt(h, inv, ImportDefault, c.default, ()) == (c.default, ());
    assert Clause(h, inv, Some(c), ()) == (Some(c), ());
  }

  lemma CallStmtRedirected(imported: seq<NamesSet>, file: string, f: string)
    requires Target(imported, file, f).Some?
    requires Keeps(CallHooks(imported, file), Stateless())
    ensures Stmt1(CallHooks(imported, file), Stateless(), ExprStmt(Call(Id(f), [], [])), (), false)
            == ([ExprStmt(Call(Id(Target(imported, file, f).value), [], []))], ())
  {
    var h, inv := CallHooks(imported, file), Stateless();
    StmtsOneExpr(h, inv, Call(Id(f), [], []), (), false);
  }

  /** Export phase of the two-file example: the exporter's default
      expression takes the first name, the importer is untouched. */
  lemma ExportPhase(exporter: string, e: Expr, importer: string, c: ImportClause, spec: Spec, f: string)
    requires Nameable(e)
    ensures var nm := CounterName(HandlerPrefix, FileBase(exporter), 1);
      var use := [Import(Some(c), spec), ExprStmt(Call(Id(f), [], []))];
      ExportPass(HandlerPrefix, [DepsFile(exporter, [ExportAssign(false, e)], map[]), DepsFile(importer, use, map[])], XState(0, []))
        == ([DepsFile(exporter, [Declared(nm, e), ExportAssign(false, Id(nm))], map[]), DepsFile(importer, use, map[])],
            XState(1, [Recorded(HandlerPrefix, FileBase(exporter), 1)]))
  {
    var use := [Import(Some(c), spec), ExprStmt(Call(Id(f), [], []))];
    var e0, e1 := DepsFile(exporter, [ExportAssign(false, e)], map[]), DepsFile(importer, use, map[]);
    var nm := CounterName(HandlerPrefix, FileBase(exporter), 1);
    var st1 := XState(1, [Recorded(HandlerPrefix, FileBase(exporter), 1)]);
    ExportPassTwo(HandlerPrefix, e0, e1, XState(0, []));
    DefaultExpressionSplit(HandlerPrefix, exporter, e, XState(0, []));
    assert [] + [Recorded(HandlerPrefix, FileBase(exporter), 1)] == [Recorded(HandlerPrefix, FileBase(exporter), 1)];
    var r0 := ExportFile(HandlerPrefix, exporter, [ExportAssign(false, e)], XState(0, []));
    assert r0 == ([Declared(nm, e), ExportAssign(false, Id(nm))], st1);
    UseNotNamed(HandlerPrefix, importer, c, spec, f, st1);
    var r1 := ExportFile(HandlerPrefix, importer, use, r0.1);
    assert r1 == (use, st1);
  }

  /** Import phase: the importer's default binding `f` takes the recorded
      name; what the exporter's own file adds is recorded under the exporter. */
  lemma ImportPhase(x: NamesSet, exporter: string, content: seq<Stmt>, importer: string, c: ImportClause, spec: Spec, f: string)
      returns (s0: seq<NamesSet>)
    requires c.default == Some(f) && x.file == ImportKey(spec)
    ensures forall i :: 0 <= i < |s0| ==> s0[i].file == exporter
    ensures var use := [Import(Some(c), spec), ExprStmt(Call(Id(f), [], []))];
      var r := ImportPass([x], [DepsFile(exporter, content, map[]), DepsFile(importer, use, map[])], []);
      && r.1 == s0 + [NamesSet(f, importer, x.newName, true)]
      && r.0[1] == DepsFile(importer, [Import(Some(ImportClause(c.isTypeOnly, Some(x.newName), c.bindings)), spec),
                                       ExprStmt(Call(Id(f), [], []))], map[])
  {
    var use := [Import(Some(c), spec), ExprStmt(Call(Id(f), [], []))];
    var e0, e1 := DepsFile(exporter, content, map[]), DepsFile(importer, use, map[]);
    assert FindFile([x], ImportKey(spec)) == Some(x);
    ImportPassTwo([x], e0, e1, []);
    s0 := ImportFile([x], exporter, content, []).1;
    assert Rebound([x], exporter, [], s0);
    UseRebound([x], importer, c, spec, f, s0);
  }

  /** Call phase: with the importer's entry last, the call is redirected. */
  lemma CallPhase(s0: seq<NamesSet>, importer: string, c: ImportClause, spec: Spec, f: string, n: string)
    requires forall i :: 0 <= i < |s0| ==> s0[i].file != importer
    requires c.bindings.None?
    ensures CallFile(s0 + [NamesSet(f, importer, n, true)], importer, [Import(Some(c), spec), ExprStmt(Call(Id(f), [], []))])
            == [Import(Some(c), spec), ExprStmt(Call(Id(n), [], []))]
  {
    var entry := NamesSet(f, importer, n, true);
    DuplicateRefs.FindIgnoresOtherFiles([], s0, importer, f);
    assert [] + s0 == s0;
    FindAfterMisses(s0, entry, f, importer);
    assert Target(s0 + [entry], importer, f) == Some(n);
    UseRedirected(s0 + [entry], importer, c, spec, f);
  }

  /** A file `<dir>/<n>.ts` holding `export default () => 1` and a file
      importing it as `f` from "./<n>" and calling `f()`: after the three
      handlers, starting from empty lists, the import and the call both use
      `__anonymous__<n>_1`. */
  lemma ExportImportCall(dir: seq<string>, n: string, importer: string)
    requires ValidSegs(dir) && ModuleName(n) && importer != Format(Path(true, dir + [n + ".ts"]))
    ensures var exporter := Format(Path(true, dir + [n + ".ts"]));
      var arrow := Arrow([], [], None, ExprBody(Num("1")));
      var use := [Import(Some(ImportClause(false, Some("f"), None)), StrSpec("./" + n, '"')),
                  ExprStmt(Call(Id("f"), [], []))];
      var deps := [DepsFile(exporter, [ExportAssign(false, arrow)], map[]), DepsFile(importer, use, map[])];
      var x := ExportPass(HandlerPrefix, deps, XState(0, []));
      var y := ImportPass(x.1.exported, x.0, []);
      var name := CounterName(HandlerPrefix, n, 1);
      CallPass(y.1, y.0)[1].content
        == [Import(Some(ImportClause(false, Some(name), None)), StrSpec("./" + n, '"')),
            ExprStmt(Call(Id(name), [], []))]
  {
    var exporter := Format(Path(true, dir + [n + ".ts"]));
    var arrow := Arrow([], [], None, ExprBody(Num("1")));
    var spec := StrSpec("./" + n, '"');
    var clause := ImportClause(false, Some("f"), None);
    var use := [Import(Some(clause), spec), ExprStmt(Call(Id("f"), [], []))];
    var deps := [DepsFile(exporter, [ExportAssign(false, arrow)], map[]), DepsFile(importer, use, map[])];
    var name := CounterName(HandlerPrefix, n, 1);
    FileBaseOfTs(dir, n);
    ImportKeyOfSibling(dir, n, '"');
    ExportPhase(exporter, arrow, importer, clause, spec, "f");
    var x := ExportPass(HandlerPrefix, deps, XState(0, []));
    var rec := Recorded(HandlerPrefix, n, 1);
    assert x.1.exported == [rec];
    var s0 := ImportPhase(rec, exporter, x.0[0].content, importer, clause, spec, "f");
    assert x.0 == [DepsFile(exporter, x.0[0].content, map[]), DepsFile(importer, use, map[])];
    var y := ImportPass(x.1.exported, x.0, []);
    var rebound := ImportClause(false, Some(name), None);
    assert y.0[1] == DepsFile(importer, [Import(Some(rebound), spec), ExprStmt(Call(Id("f"), [], []))], map[]);
    CallPhase(s0, importer, rebound, spec, "f", name);
  }

  /** An entry after a list with no match for (base, file) is the match. */
  lemma {:induction false} FindAfterMisses(list: seq<NamesSet>, e: NamesSet, base: string, file: string)
    requires FindBaseFile(list, base, file).None?
    requires e.base == base && e.file == file
    ensures FindBaseFile(list + [e], base, file) == Some(e)
    decreases |list|
  {
    if list != [] {
      assert (list + [e])[1..] == list[1..] + [e];
      FindAfterMisses(list[1..], e, base, file);
    }
  }
}
