// Collection of top-level declared names into `namesMap`
// (src/lib/bundle/visitors/duplicateCollection.ts) and the stand-alone
// collector of src/lib/bundle/duplicatesNew.ts.
module DuplicateCollect {
  import opened Wrappers
  import opened Ast

  // ------------------------------------------------------------ the names map

  /** One key of `namesMap` and the files of its `Set<{file}>`. Every record
      adds a fresh object, so `files` holds one entry per occurrence. */
  datatype Entry = Entry(name: string, files: seq<string>)

  /** A JavaScript `Map` in insertion order. */
  type NamesMap = seq<Entry>

  predicate KeysDistinct(m: NamesMap) {
    forall i, j :: 0 <= i < j < |m| ==> m[i].name != m[j].name
  }

  function Names(m: NamesMap): (r: seq<string>)
    ensures |r| == |m| && forall i :: 0 <= i < |m| ==> r[i] == m[i].name
  {
    if m == [] then [] else [m[0].name] + Names(m[1..])
  }

  /** `namesMap.get(name)`, with the empty list for an absent key. */
  function Files(m: NamesMap, name: string): (r: seq<string>)
    ensures name !in Names(m) ==> r == []
  {
    if m == [] then []
    else if m[0].name == name then m[0].files
    else Files(m[1..], name)
  }

  /** `namesMap.get(name).size`, 0 for an absent key. */
  function Size(m: NamesMap, name: string): nat {
    |Files(m, name)|
  }

  /** The `has`/`set`/`add` step that records one occurrence of `name` in `file`. */
  function Record(m: NamesMap, name: string, file: string): (r: NamesMap)
    ensures Files(r, name) == Files(m, name) + [file]
    ensures forall n :: n != name ==> Files(r, n) == Files(m, n)
  {
    if m == [] then [Entry(name, [file])]
    else if m[0].name == name then [Entry(name, m[0].files + [file])] + m[1..]
    else [m[0]] + Record(m[1..], name, file)
  }

  /** A new key goes to the end of the iteration order. */
  lemma {:induction false} RecordNames(m: NamesMap, name: string, file: string)
    ensures Names(Record(m, name, file)) == if name in Names(m) then Names(m) else Names(m) + [name]
  {
    if m != [] && m[0].name != name {
      RecordNames(m[1..], name, file);
      assert Names(m) == [m[0].name] + Names(m[1..]);
      var rest := Record(m[1..], name, file);
      assert Names([m[0]] + rest) == [m[0].name] + Names(rest) by {
        assert ([m[0]] + rest)[1..] == rest;
      }
    }
  }

  /** Keys stay distinct. */
  lemma RecordKeysDistinct(m: NamesMap, name: string, file: string)
    requires KeysDistinct(m)
    ensures KeysDistinct(Record(m, name, file))
  {
    var r := Record(m, name, file);
    RecordNames(m, name, file);
    var nm, nr := Names(m), Names(r);
    assert |nr| == |r|;
    forall i, j | 0 <= i < j < |r| ensures r[i].name != r[j].name {
      assert nr[i] == r[i].name && nr[j] == r[j].name;
      if name in nm {
        assert nr == nm;
        assert nm[i] == m[i].name && nm[j] == m[j].name;
      } else if j < |m| {
        assert nr[i] == nm[i] && nr[j] == nm[j];
        assert nm[i] == m[i].name && nm[j] == m[j].name;
      } else {
        assert nr[j] == name && nr[i] == nm[i];
      }
    }
  }

  /** The records of one file, in visiting order. */
  function RecordAll(m: NamesMap, names: seq<string>, file: string): (r: NamesMap)
    decreases |names|
  {
    if names == [] then m else RecordAll(Record(m, names[0], file), names[1..], file)
  }

  /** Recording a file's names adds one entry per occurrence to each set. */
  lemma {:induction false} RecordAllFiles(m: NamesMap, names: seq<string>, file: string, n: string)
    ensures Files(RecordAll(m, names, file), n) == Files(m, n) + Repeat(file, Count(names, n))
    decreases |names|
  {
    if names != [] {
      RecordAllFiles(Record(m, names[0], file), names[1..], file, n);
      if names[0] == n {
        assert Repeat(file, Count(names, n)) == [file] + Repeat(file, Count(names[1..], n));
      }
    }
  }

  function Count(s: seq<string>, x: string): nat {
    if s == [] then 0 else (if s[0] == x then 1 else 0) + Count(s[1..], x)
  }

  function Repeat(x: string, n: nat): (r: seq<string>)
    ensures |r| == n && forall i :: 0 <= i < n ==> r[i] == x
  {
    if n == 0 then [] else [x] + Repeat(x, n - 1)
  }

  // ------------------------------------------ the scope-tracking walk, as written

  /** Identifier-named declarators of a variable statement; binding patterns
      are skipped. */
  function DeclaredVars(decls: seq<VarDecl>): (r: seq<string>)
    ensures forall n :: n in r <==> exists i :: 0 <= i < |decls| && decls[i].name == BindId(n)
  {
    if decls == [] then []
    else
      (if decls[0].name.BindId? then [decls[0].name.name] else []) + DeclaredVars(decls[1..])
  }

  /** What the visitor records at one node in global scope. */
  function Declared(s: Stmt): seq<string> {
    match s
    case VarStmt(_, _, decls) => DeclaredVars(decls)
    case FuncDecl(_, n, _, _, _) => if n.Some? && n.value != "" then [n.value] else []
    case ClassDecl(_, n, _) => if n.Some? && n.value != "" then [n.value] else []
    case EnumDecl(_, n, _) => if n != "" then [n] else []
    case InterfaceDecl(_, n, _) => if n != "" then [n] else []
    case TypeAlias(_, n, _) => if n != "" then [n] else []
    case _ => []
  }

  /** Blocks, function declarations and classes open a local scope (function
      expressions, arrows and methods are the expression-level cases). */
  predicate OpensScope(s: Stmt) {
    s.Block? || s.FuncDecl? || s.ClassDecl?
  }

  /** `visit(node, isGlobalScope)` over a statement list: the names recorded,
      in order. Nothing is recorded out of global scope. */
  function WalkStmts(ss: seq<Stmt>, global: bool): (r: seq<string>)
    ensures !global ==> r == []
    decreases ss
  {
    if ss == [] then [] else WalkStmt(ss[0], global) + WalkStmts(ss[1..], global)
  }

  function WalkStmt(s: Stmt, global: bool): (r: seq<string>)
    ensures !global ==> r == []
    ensures global && !s.Namespace? ==> r == Declared(s)
    ensures global && s.Namespace? ==> r == WalkStmts(s.body, true)
    decreases s, 1
  {
    (if global then Declared(s) else []) + WalkChildren(s, global && !OpensScope(s))
  }

  function WalkChildren(s: Stmt, global: bool): (r: seq<string>)
    ensures !global ==> r == []
    ensures !(s.Namespace? || OpensScope(s)) ==> r == []
    decreases s, 0
  {
    match s
    case VarStmt(_, _, decls) => WalkDecls(decls, global)
    case FuncDecl(_, _, _, _, body) => WalkStmts(body, global)
    case ClassDecl(_, _, members) => WalkMembers(members)
    case Namespace(_, _, _, body) => WalkStmts(body, global)
    case ExprStmt(e) => WalkExpr(e, global)
    case ExportAssign(_, e) => WalkExpr(e, global)
    case Block(body) => WalkStmts(body, global)
    case Return(v) => if v.Some? then WalkExpr(v.value, global) else []
    case _ => []
  }

  /** Initialisers are expressions: nothing is recorded in them. */
  function WalkDecls(ds: seq<VarDecl>, global: bool): (r: seq<string>)
    ensures r == []
    decreases ds
  {
    if ds == [] then []
    else WalkDecl(ds[0], global) + WalkDecls(ds[1..], global)
  }

  function WalkDecl(d: VarDecl, global: bool): (r: seq<string>)
    ensures r == []
    decreases d
  {
    if d.init.Some? then WalkExpr(d.init.value, global) else []
  }

  /** Class members are only ever visited in local scope. */
  function WalkMembers(ms: seq<Member>): (r: seq<string>)
    ensures r == []
    decreases ms
  {
    if ms == [] then []
    else
      (match ms[0]
       case Method(_, _, body) => WalkStmts(body, false)
       case Field(_, _, init) => if init.Some? then WalkExpr(init.value, false) else [])
      + WalkMembers(ms[1..])
  }

  /** Expressions reach statements only through function expressions,
      arrows and methods, which are local: nothing inside is recorded. */
  function WalkExpr(e: Expr, global: bool): (r: seq<string>)
    ensures r == []
    decreases e
  {
    match e
    case Call(c, _, args) => WalkExpr(c, global) + WalkExprs(args, global)
    case New(c, _, args) => WalkExpr(c, global) + WalkExprs(args, global)
    case Prop(o, _) => WalkExpr(o, global)
    case Arrow(_, _, _, body) =>
      (match body
       case ExprBody(x) => WalkExpr(x, false)
       case BlockBody(b) => WalkStmts(b, false))
    case FuncExpr(_, _, body) => WalkStmts(body, false)
    case Obj(props) => WalkProps(props, global)
    case Arr(es) => WalkExprs(es, global)
    case Binary(_, l, r) => WalkExpr(l, global) + WalkExpr(r, global)
    case _ => []
  }

  function WalkExprs(es: seq<Expr>, global: bool): (r: seq<string>)
    ensures r == []
    decreases es
  {
    if es == [] then [] else WalkExpr(es[0], global) + WalkExprs(es[1..], global)
  }

  function WalkProps(ps: seq<ObjProp>, global: bool): (r: seq<string>)
    ensures r == []
    decreases ps
  {
    if ps == [] then []
    else WalkProp(ps[0], global) + WalkProps(ps[1..], global)
  }

  function WalkProp(p: ObjProp, global: bool): (r: seq<string>)
    ensures r == []
    decreases p
  {
    match p
    case PropAssign(_, v) => WalkExpr(v, global)
    case MethodProp(_, _, body) => WalkStmts(body, false)
    case Spread(x) => WalkExpr(x, global)
    case Shorthand(_) => []
  }

  // ------------------------------------------------ the reference definition

  /** The declarations of a module's top level, namespace bodies included. */
  function TopLevelNames(ss: seq<Stmt>): seq<string>
    decreases ss
  {
    if ss == [] then []
    else
      var s := ss[0];
      (if s.Namespace? then TopLevelNames(s.body) else Declared(s)) + TopLevelNames(ss[1..])
  }

  /** The walk in global scope records exactly the top-level declarations:
      local scopes contribute nothing and namespace bodies stay global. */
  lemma {:induction false} WalkIsTopLevel(ss: seq<Stmt>)
    ensures WalkStmts(ss, true) == TopLevelNames(ss)
    decreases ss
  {
    if ss != [] {
      WalkIsTopLevel(ss[1..]);
      if ss[0].Namespace? { WalkIsTopLevel(ss[0].body); }
    }
  }

  /** The names one file contributes (`visit(sourceFile)`). */
  function FileNames(content: seq<Stmt>): seq<string> {
    WalkStmts(content, true)
  }

  // ---------------------------------------------- duplicatesNew.collectDuplicates

  /** The walk of `collectDuplicates` as written: `return ts.forEachChild(...)`
      stops at the first truthy callback result, and `visit` returns the node
      for every scope-opening node. The flag tells whether the walk stopped. */
  function StopStmts(ss: seq<Stmt>): (r: (seq<string>, bool))
    decreases ss
  {
    if ss == [] then ([], false)
    else
      var (a, stop) := StopStmt(ss[0]);
      if stop then (a, true)
      else
        var (b, stop2) := StopStmts(ss[1..]);
        (a + b, stop2)
  }

  function StopStmt(s: Stmt): (r: (seq<string>, bool))
    decreases s
  {
    match s
    case Namespace(_, _, _, body) => StopStmts(body)
    case VarStmt(_, _, decls) => (Declared(s), exists i :: 0 <= i < |decls| && DeclStops(decls[i]))
    case FuncDecl(_, _, _, _, _) => (Declared(s), true)
    case ClassDecl(_, _, _) => (Declared(s), true)
    case Block(_) => ([], true)
    case ExprStmt(e) => ([], ExprStops(e))
    case ExportAssign(_, e) => ([], ExprStops(e))
    case Return(v) => ([], v.Some? && ExprStops(v.value))
    case _ => (Declared(s), false)
  }

  predicate DeclStops(d: VarDecl) {
    d.init.Some? && ExprStops(d.init.value)
  }

  /** Whether an expression, walked in global scope, reaches a function
      expression, an arrow or a method. */
  predicate ExprStops(e: Expr)
    decreases e
  {
    match e
    case Call(c, _, args) => ExprStops(c) || exists i :: 0 <= i < |args| && ExprStops(args[i])
    case New(c, _, args) => ExprStops(c) || exists i :: 0 <= i < |args| && ExprStops(args[i])
    case Prop(o, _) => ExprStops(o)
    case Arrow(_, _, _, _) => true
    case FuncExpr(_, _, _) => true
    case Obj(props) => exists i :: 0 <= i < |props| && PropStops(props[i])
    case Arr(es) => exists i :: 0 <= i < |es| && ExprStops(es[i])
    case Binary(_, l, r) => ExprStops(l) || ExprStops(r)
    case _ => false
  }

  predicate PropStops(p: ObjProp)
    decreases p
  {
    match p
    case PropAssign(_, v) => ExprStops(v)
    case MethodProp(_, _, _) => true
    case Spread(x) => ExprStops(x)
    case Shorthand(_) => false
  }

  /** As written, a module whose first statement is a function declaration
      contributes that function's name and nothing after it. */
  lemma StopsAfterFirstFunction(f: string, g: string)
    requires f != "" && g != ""
    ensures StopStmts([FuncDecl([], Some(f), [], None, []), VarStmt([], Const, [VarDecl(BindId(g), None, None)])]).0 == [f]
    ensures FileNames([FuncDecl([], Some(f), [], None, []), VarStmt([], Const, [VarDecl(BindId(g), None, None)])]) == [f, g]
  {
    var s1 := FuncDecl([], Some(f), [], None, []);
    var s2 := VarStmt([], Const, [VarDecl(BindId(g), None, None)]);
    assert [s1, s2][1..] == [s2];
    WalkIsTopLevel([s1, s2]);
    assert TopLevelNames([s2]) == [g] by {
      assert [s2][1..] == [];
      assert DeclaredVars([VarDecl(BindId(g), None, None)]) == [g] by {
        assert [VarDecl(BindId(g), None, None)][1..] == [];
      }
    }
  }

  /** Whatever the walk returns, it is a prefix of the full collection: the
      early stop only loses names. */
  lemma {:induction false} StopIsPrefix(ss: seq<Stmt>)
    ensures StopStmts(ss).0 <= TopLevelNames(ss)
    ensures !StopStmts(ss).1 ==> StopStmts(ss).0 == TopLevelNames(ss)
    decreases ss
  {
    if ss != [] {
      var s := ss[0];
      if s.Namespace? { StopIsPrefix(s.body); }
      var (a, stop) := StopStmt(s);
      assert a <= (if s.Namespace? then TopLevelNames(s.body) else Declared(s));
      assert !stop ==> a == (if s.Namespace? then TopLevelNames(s.body) else Declared(s));
      if !stop { StopIsPrefix(ss[1..]); }
    }
  }

  /** The collector as intended: every file, keyed by its normalised path,
      adds one occurrence per top-level declaration. */
  function CollectKeyed(m: NamesMap, files: seq<(string, seq<Stmt>)>): NamesMap
    decreases |files|
  {
    if files == [] then m
    else
      var last := files[|files| - 1];
      RecordAll(CollectKeyed(m, files[..|files| - 1]), TopLevelNames(last.1), last.0)
  }

  /** The collector as written: each file contributes only what the walk
      records before it stops. */
  function CollectKeyedAsWritten(m: NamesMap, files: seq<(string, seq<Stmt>)>): (r: NamesMap)
    decreases |files|
  {
    if files == [] then m
    else
      var last := files[|files| - 1];
      RecordAll(CollectKeyedAsWritten(m, files[..|files| - 1]), StopStmts(last.1).0, last.0)
  }

  /** With the intended walk, the last file adds one occurrence of its key
      per top-level declaration of each name. */
  lemma CollectKeyedLast(m: NamesMap, files: seq<(string, seq<Stmt>)>, key: string, content: seq<Stmt>, n: string)
    ensures Files(CollectKeyed(m, files + [(key, content)]), n)
         == Files(CollectKeyed(m, files), n) + Repeat(key, Count(TopLevelNames(content), n))
  {
    assert (files + [(key, content)])[..|files|] == files;
    RecordAllFiles(CollectKeyed(m, files), TopLevelNames(content), key, n);
  }

  /** As written, a variable declared after a top-level function is never
      recorded; the intended collector records it. */
  lemma CollectAsWrittenMisses(key: string, f: string, g: string)
    requires f != "" && g != "" && f != g
    ensures var file := [FuncDecl([], Some(f), [], None, []), VarStmt([], Const, [VarDecl(BindId(g), None, None)])];
            && Files(CollectKeyedAsWritten([], [(key, file)]), g) == []
            && Files(CollectKeyed([], [(key, file)]), g) == [key]
  {
    var file := [FuncDecl([], Some(f), [], None, []), VarStmt([], Const, [VarDecl(BindId(g), None, None)])];
    StopsAfterFirstFunction(f, g);
    WalkIsTopLevel(file);
    assert [(key, file)][..0] == [];
    RecordAllFiles([], [f], key, g);
    RecordAllFiles([], [f, g], key, g);
    assert [f, g][1..] == [g];
    assert [g][1..] == [];
  }
}
