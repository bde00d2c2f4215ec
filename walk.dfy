// The traversal protocol of `ts.visitEachChild` as the bundler's visitors
// use it: a visitor sees a node first; it either returns a replacement,
// which is not visited further, or lets the walk rebuild the node from its
// visited children, in source order. Identifiers that are not expressions
// (declaration names, property names, names in types) are children too;
// the visitor sees each with its position. Visitors that accumulate (push
// to a list, bump a counter, set a flag) thread a state value through the
// walk in visiting order. `inNs` tells whether an enclosing declaration is
// a plain `namespace` (what `isInsideNamespace` in src/utils.ts looks for).
module Walk {
  import opened Wrappers
  import opened Ast

  /** Where an identifier that is not an expression sits, named after its
      parent node kind. */
  datatype IdPos =
    | VarName | FuncName | ClassName | InterfaceName | TypeAliasName | EnumName
    | EnumMemberName | NamespaceName | ImportEqualsName | FuncExprName
    | MethodName | FieldName | PropSigName
    | ImportDefault | ImportProp | ImportName | NamespaceAlias
    | ExportProp | ExportName
    | BindProp | BindName | ParamName
    | PropAccessName | PropKeyName | ShorthandName
    | TypeRefName | QualifiedName | EntityRefName

  /** A visitor: for each statement, expression and type node the new state
      and, when it replaces the node, the replacement; for each identifier
      the new state and its new text. */
  datatype Hooks<!S> = Hooks(
    stmt: (Stmt, S, bool) -> (S, Option<seq<Stmt>>),
    expr: (Expr, S) -> (S, Option<Expr>),
    ty: (Type, S) -> (S, Option<Type>),
    id: (IdPos, string, S) -> (S, string))

  /** The relation for visitors that carry no state. */
  function Stateless(): ((), ()) -> bool {
    (a, b) => true
  }

  /** `inv` relates the state before a visit to the state after it: it holds
      for every hook call and chains, so it holds across a whole walk. */
  ghost predicate Keeps<S(!new)>(h: Hooks<S>, inv: (S, S) -> bool) {
    && (forall a :: inv(a, a))
    && (forall a, b, c :: inv(a, b) && inv(b, c) ==> inv(a, c))
    && (forall s, st, inNs :: inv(st, h.stmt(s, st, inNs).0))
    && (forall e, st :: inv(st, h.expr(e, st).0))
    && (forall t, st :: inv(st, h.ty(t, st).0))
    && (forall p, n, st :: inv(st, h.id(p, n, st).0))
  }

  function Id1<S(!new)>(h: Hooks<S>, inv: (S, S) -> bool, p: IdPos, n: string, st: S): (r: (string, S))
    requires Keeps(h, inv)
    ensures inv(st, r.1)
  {
    var (st1, n2) := h.id(p, n, st);
    (n2, st1)
  }

  function IdOpt<S(!new)>(h: Hooks<S>, inv: (S, S) -> bool, p: IdPos, n: Option<string>, st: S): (r: (Option<string>, S))
    requires Keeps(h, inv)
    ensures inv(st, r.1)
  {
    match n
    case None => (None, st)
    case Some(x) => var (y, st1) := Id1(h, inv, p, x, st); (Some(y), st1)
  }

  function Ids<S(!new)>(h: Hooks<S>, inv: (S, S) -> bool, p: IdPos, ns: seq<string>, st: S): (r: (seq<string>, S))
    requires Keeps(h, inv)
    ensures inv(st, r.1)
    decreases ns
  {
    if ns == [] then ([], st)
    else
      var (a, st1) := Id1(h, inv, p, ns[0], st);
      var (rest, st2) := Ids(h, inv, p, ns[1..], st1);
      ([a] + rest, st2)
  }

  function Stmts<S(!new)>(h: Hooks<S>, inv: (S, S) -> bool, ss: seq<Stmt>, st: S, inNs: bool): (r: (seq<Stmt>, S))
    requires Keeps(h, inv)
    ensures inv(st, r.1)
    decreases ss
  {
    if ss == [] then ([], st)
    else
      var (a, st1) := Stmt1(h, inv, ss[0], st, inNs);
      var (b, st2) := Stmts(h, inv, ss[1..], st1, inNs);
      (a + b, st2)
  }

  function Stmt1<S(!new)>(h: Hooks<S>, inv: (S, S) -> bool, s: Stmt, st: S, inNs: bool): (r: (seq<Stmt>, S))
    requires Keeps(h, inv)
    ensures inv(st, r.1)
    decreases s
  {
    var (st1, r) := h.stmt(s, st, inNs);
    if r.Some? then (r.value, st1)
    else
      var (s2, st2) := Children(h, inv, s, st1, inNs);
      ([s2], st2)
  }

  /** The node rebuilt from its visited children. */
  function Children<S(!new)>(h: Hooks<S>, inv: (S, S) -> bool, s: Stmt, st: S, inNs: bool): (r: (Stmt, S))
    requires Keeps(h, inv)
    ensures inv(st, r.1)
    decreases s, 0
  {
    match s
    case Import(clause, spec) =>
      var (c, st1) := Clause(h, inv, clause, st);
      (Import(c, spec), st1)
    case ImportEquals(typeOnly, alias, ref) =>
      var (a, st1) := Id1(h, inv, ImportEqualsName, alias, st);
      var (r2, st2) := match ref
        case External(spec) => (ref, st1)
        case EntityRef(e) => var (e2, sx) := Entity(h, inv, EntityRefName, e, st1); (EntityRef(e2), sx);
      (ImportEquals(typeOnly, a, r2), st2)
    case ExportDecl(typeOnly, elems, from) =>
      var (es, st1) := match elems
        case None => (None, st)
        case Some(es) => var (es2, sx) := ExportSpecs(h, inv, es, st); (Some(es2), sx);
      (ExportDecl(typeOnly, es, from), st1)
    case VarStmt(mods, kind, decls) =>
      var (ds, st1) := Decls(h, inv, decls, st, inNs);
      (VarStmt(mods, kind, ds), st1)
    case FuncDecl(mods, name, params, ret, body) =>
      var (n, st1) := IdOpt(h, inv, FuncName, name, st);
      var (ps, st2) := Params(h, inv, params, st1);
      var (rt, st3) := TypeOpt(h, inv, ret, st2);
      var (b, st4) := Stmts(h, inv, body, st3, inNs);
      (FuncDecl(mods, n, ps, rt, b), st4)
    case ClassDecl(mods, name, members) =>
      var (n, st1) := IdOpt(h, inv, ClassName, name, st);
      var (ms, st2) := Members(h, inv, members, st1, inNs);
      (ClassDecl(mods, n, ms), st2)
    case InterfaceDecl(mods, name, sigs) =>
      var (n, st1) := Id1(h, inv, InterfaceName, name, st);
      var (ss, st2) := Sigs(h, inv, sigs, st1);
      (InterfaceDecl(mods, n, ss), st2)
    case TypeAlias(mods, name, ty) =>
      var (n, st1) := Id1(h, inv, TypeAliasName, name, st);
      var (t, st2) := Type1(h, inv, ty, st1);
      (TypeAlias(mods, n, t), st2)
    case EnumDecl(mods, name, members) =>
      var (n, st1) := Id1(h, inv, EnumName, name, st);
      var (ms, st2) := Ids(h, inv, EnumMemberName, members, st1);
      (EnumDecl(mods, n, ms), st2)
    case Namespace(mods, plain, name, body) =>
      var (n, st1) := Id1(h, inv, NamespaceName, name, st);
      var (b, st2) := Stmts(h, inv, body, st1, inNs || plain);
      (Namespace(mods, plain, n, b), st2)
    case ExprStmt(e) =>
      var (e2, st1) := Expr1(h, inv, e, st, inNs);
      (ExprStmt(e2), st1)
    case ExportAssign(isEq, e) =>
      var (e2, st1) := Expr1(h, inv, e, st, inNs);
      (ExportAssign(isEq, e2), st1)
    case Block(body) =>
      var (b, st1) := Stmts(h, inv, body, st, inNs);
      (Block(b), st1)
    case Return(v) =>
      var (v2, st1) := ExprOpt(h, inv, v, st, inNs);
      (Return(v2), st1)
    case Empty => (s, st)
  }

  function Clause<S(!new)>(h: Hooks<S>, inv: (S, S) -> bool, c: Option<ImportClause>, st: S): (r: (Option<ImportClause>, S))
    requires Keeps(h, inv)
    ensures inv(st, r.1)
  {
    match c
    case None => (None, st)
    case Some(ImportClause(typeOnly, d, b)) =>
      var (d2, st1) := IdOpt(h, inv, ImportDefault, d, st);
      var (b2, st2) := match b
        case None => (None, st1)
        case Some(NamespaceImport(a)) => var (a2, sx) := Id1(h, inv, NamespaceAlias, a, st1); (Some(NamespaceImport(a2)), sx)
        case Some(NamedImports(es)) => var (es2, sx) := ImportSpecs(h, inv, es, st1); (Some(NamedImports(es2)), sx);
      (Some(ImportClause(typeOnly, d2, b2)), st2)
  }

  function ImportSpecs<S(!new)>(h: Hooks<S>, inv: (S, S) -> bool, es: seq<ImportSpec>, st: S): (r: (seq<ImportSpec>, S))
    requires Keeps(h, inv)
    ensures inv(st, r.1)
    decreases es
  {
    if es == [] then ([], st)
    else
      var (p, st1) := IdOpt(h, inv, ImportProp, es[0].propertyName, st);
      var (n, st2) := Id1(h, inv, ImportName, es[0].name, st1);
      var (rest, st3) := ImportSpecs(h, inv, es[1..], st2);
      ([ImportSpec(es[0].isTypeOnly, p, n)] + rest, st3)
  }

  function ExportSpecs<S(!new)>(h: Hooks<S>, inv: (S, S) -> bool, es: seq<ExportSpec>, st: S): (r: (seq<ExportSpec>, S))
    requires Keeps(h, inv)
    ensures inv(st, r.1)
    decreases es
  {
    if es == [] then ([], st)
    else
      var (p, st1) := IdOpt(h, inv, ExportProp, es[0].propertyName, st);
      var (n, st2) := Id1(h, inv, ExportName, es[0].name, st1);
      var (rest, st3) := ExportSpecs(h, inv, es[1..], st2);
      ([ExportSpec(p, n)] + rest, st3)
  }

  /** An entity name in a type or an import-equals reference. */
  function Entity<S(!new)>(h: Hooks<S>, inv: (S, S) -> bool, p: IdPos, e: EntityName, st: S): (r: (EntityName, S))
    requires Keeps(h, inv)
    ensures inv(st, r.1)
    decreases e
  {
    match e
    case Simple(n) => var (n2, st1) := Id1(h, inv, p, n, st); (Simple(n2), st1)
    case Qualified(l, n) =>
      var (l2, st1) := Entity(h, inv, QualifiedName, l, st);
      var (n2, st2) := Id1(h, inv, QualifiedName, n, st1);
      (Qualified(l2, n2), st2)
  }

  /** A binding name; `p` is the position of a plain identifier, which
      depends on the parent (a variable declaration, a parameter or a
      binding element). */
  function Binding1<S(!new)>(h: Hooks<S>, inv: (S, S) -> bool, p: IdPos, b: Binding, st: S): (r: (Binding, S))
    requires Keeps(h, inv)
    ensures inv(st, r.1)
    decreases b
  {
    match b
    case BindId(n) => var (n2, st1) := Id1(h, inv, p, n, st); (BindId(n2), st1)
    case BindObject(es) => var (es2, st1) := BindingElems(h, inv, es, st); (BindObject(es2), st1)
    case BindArray(es) => var (es2, st1) := BindingElems(h, inv, es, st); (BindArray(es2), st1)
  }

  function BindingElems<S(!new)>(h: Hooks<S>, inv: (S, S) -> bool, es: seq<BindingElem>, st: S): (r: (seq<BindingElem>, S))
    requires Keeps(h, inv)
    ensures inv(st, r.1)
    decreases es
  {
    if es == [] then ([], st)
    else
      var (e, st1) := BindingElem1(h, inv, es[0], st);
      var (rest, st2) := BindingElems(h, inv, es[1..], st1);
      ([e] + rest, st2)
  }

  function BindingElem1<S(!new)>(h: Hooks<S>, inv: (S, S) -> bool, e: BindingElem, st: S): (r: (BindingElem, S))
    requires Keeps(h, inv)
    ensures inv(st, r.1)
    decreases e
  {
    var (p, st1) := IdOpt(h, inv, BindProp, e.propertyName, st);
    var (t, st2) := Binding1(h, inv, BindName, e.target, st1);
    (BindingElem(p, t), st2)
  }

  function Decls<S(!new)>(h: Hooks<S>, inv: (S, S) -> bool, ds: seq<VarDecl>, st: S, inNs: bool): (r: (seq<VarDecl>, S))
    requires Keeps(h, inv)
    ensures inv(st, r.1)
    decreases ds
  {
    if ds == [] then ([], st)
    else
      var (d, st1) := Decl1(h, inv, ds[0], st, inNs);
      var (rest, st2) := Decls(h, inv, ds[1..], st1, inNs);
      ([d] + rest, st2)
  }

  function Decl1<S(!new)>(h: Hooks<S>, inv: (S, S) -> bool, d: VarDecl, st: S, inNs: bool): (r: (VarDecl, S))
    requires Keeps(h, inv)
    ensures inv(st, r.1)
    decreases d
  {
    var (n, st1) := Binding1(h, inv, VarName, d.name, st);
    var (t, st2) := TypeOpt(h, inv, d.ty, st1);
    var (i, st3) := ExprOpt(h, inv, d.init, st2, inNs);
    (VarDecl(n, t, i), st3)
  }

  function Params<S(!new)>(h: Hooks<S>, inv: (S, S) -> bool, ps: seq<Param>, st: S): (r: (seq<Param>, S))
    requires Keeps(h, inv)
    ensures inv(st, r.1)
    decreases ps
  {
    if ps == [] then ([], st)
    else
      var (n, st1) := Binding1(h, inv, ParamName, ps[0].name, st);
      var (t, st2) := TypeOpt(h, inv, ps[0].ty, st1);
      var (rest, st3) := Params(h, inv, ps[1..], st2);
      ([Param(n, t)] + rest, st3)
  }

  function Members<S(!new)>(h: Hooks<S>, inv: (S, S) -> bool, ms: seq<Member>, st: S, inNs: bool): (r: (seq<Member>, S))
    requires Keeps(h, inv)
    ensures inv(st, r.1)
    decreases ms
  {
    if ms == [] then ([], st)
    else
      var (m, st1) := Member1(h, inv, ms[0], st, inNs);
      var (rest, st2) := Members(h, inv, ms[1..], st1, inNs);
      ([m] + rest, st2)
  }

  function Member1<S(!new)>(h: Hooks<S>, inv: (S, S) -> bool, m: Member, st: S, inNs: bool): (r: (Member, S))
    requires Keeps(h, inv)
    ensures inv(st, r.1)
    decreases m
  {
    match m
    case Method(n, ps, body) =>
      var (n2, sa) := Id1(h, inv, MethodName, n, st);
      var (ps2, sb) := Params(h, inv, ps, sa);
      var (b, sc) := Stmts(h, inv, body, sb, inNs);
      (Method(n2, ps2, b), sc)
    case Field(n, ty, init) =>
      var (n2, sa) := Id1(h, inv, FieldName, n, st);
      var (t, sb) := TypeOpt(h, inv, ty, sa);
      var (i, sc) := ExprOpt(h, inv, init, sb, inNs);
      (Field(n2, t, i), sc)
  }

  function Sigs<S(!new)>(h: Hooks<S>, inv: (S, S) -> bool, sigs: seq<PropSig>, st: S): (r: (seq<PropSig>, S))
    requires Keeps(h, inv)
    ensures inv(st, r.1)
    decreases sigs
  {
    if sigs == [] then ([], st)
    else
      var (n, st1) := Id1(h, inv, PropSigName, sigs[0].name, st);
      var (t, st2) := Type1(h, inv, sigs[0].ty, st1);
      var (rest, st3) := Sigs(h, inv, sigs[1..], st2);
      ([PropSig(n, t)] + rest, st3)
  }

  function TypeOpt<S(!new)>(h: Hooks<S>, inv: (S, S) -> bool, t: Option<Type>, st: S): (r: (Option<Type>, S))
    requires Keeps(h, inv)
    ensures inv(st, r.1)
    decreases t
  {
    match t
    case None => (None, st)
    case Some(x) => var (y, st1) := Type1(h, inv, x, st); (Some(y), st1)
  }

  function Type1<S(!new)>(h: Hooks<S>, inv: (S, S) -> bool, t: Type, st: S): (r: (Type, S))
    requires Keeps(h, inv)
    ensures inv(st, r.1)
    decreases t
  {
    var (st1, r) := h.ty(t, st);
    if r.Some? then (r.value, st1)
    else
      match t
      case TypeRef(n, args) =>
        var (n2, st2) := Entity(h, inv, TypeRefName, n, st1);
        var (as2, st3) := Types(h, inv, args, st2);
        (TypeRef(n2, as2), st3)
      case Keyword(_) => (t, st1)
  }

  function Types<S(!new)>(h: Hooks<S>, inv: (S, S) -> bool, ts: seq<Type>, st: S): (r: (seq<Type>, S))
    requires Keeps(h, inv)
    ensures inv(st, r.1)
    decreases ts
  {
    if ts == [] then ([], st)
    else
      var (a, st1) := Type1(h, inv, ts[0], st);
      var (rest, st2) := Types(h, inv, ts[1..], st1);
      ([a] + rest, st2)
  }

  function ExprOpt<S(!new)>(h: Hooks<S>, inv: (S, S) -> bool, e: Option<Expr>, st: S, inNs: bool): (r: (Option<Expr>, S))
    requires Keeps(h, inv)
    ensures inv(st, r.1)
    decreases e
  {
    match e
    case None => (None, st)
    case Some(x) => var (y, st1) := Expr1(h, inv, x, st, inNs); (Some(y), st1)
  }

  function Expr1<S(!new)>(h: Hooks<S>, inv: (S, S) -> bool, e: Expr, st: S, inNs: bool): (r: (Expr, S))
    requires Keeps(h, inv)
    ensures inv(st, r.1)
    decreases e
  {
    var (st1, r) := h.expr(e, st);
    if r.Some? then (r.value, st1)
    else ExprChildren(h, inv, e, st1, inNs)
  }

  function ExprChildren<S(!new)>(h: Hooks<S>, inv: (S, S) -> bool, e: Expr, st: S, inNs: bool): (r: (Expr, S))
    requires Keeps(h, inv)
    ensures inv(st, r.1)
    decreases e, 0
  {
    match e
    case Call(c, targs, args) =>
      var (c2, s1) := Expr1(h, inv, c, st, inNs);
      var (t2, s2) := Types(h, inv, targs, s1);
      var (a2, s3) := Exprs(h, inv, args, s2, inNs);
      (Call(c2, t2, a2), s3)
    case New(c, targs, args) =>
      var (c2, s1) := Expr1(h, inv, c, st, inNs);
      var (t2, s2) := Types(h, inv, targs, s1);
      var (a2, s3) := Exprs(h, inv, args, s2, inNs);
      (New(c2, t2, a2), s3)
    case Prop(o, n) =>
      var (o2, s1) := Expr1(h, inv, o, st, inNs);
      var (n2, s2) := Id1(h, inv, PropAccessName, n, s1);
      (Prop(o2, n2), s2)
    case Arrow(mods, ps, ret, body) =>
      var (ps2, s1) := Params(h, inv, ps, st);
      var (r2, s2) := TypeOpt(h, inv, ret, s1);
      var (b2, s3) := match body
        case ExprBody(x) => var (x2, sx) := Expr1(h, inv, x, s2, inNs); (ExprBody(x2), sx)
        case BlockBody(b) => var (b3, sb) := Stmts(h, inv, b, s2, inNs); (BlockBody(b3), sb);
      (Arrow(mods, ps2, r2, b2), s3)
    case FuncExpr(name, ps, body) =>
      var (n2, s1) := IdOpt(h, inv, FuncExprName, name, st);
      var (ps2, s2) := Params(h, inv, ps, s1);
      var (b2, s3) := Stmts(h, inv, body, s2, inNs);
      (FuncExpr(n2, ps2, b2), s3)
    case Obj(props) =>
      var (p2, s1) := Props(h, inv, props, st, inNs);
      (Obj(p2), s1)
    case Arr(es) =>
      var (es2, s1) := Exprs(h, inv, es, st, inNs);
      (Arr(es2), s1)
    case Binary(op, l, r) =>
      var (l2, s1) := Expr1(h, inv, l, st, inNs);
      var (r2, s2) := Expr1(h, inv, r, s1, inNs);
      (Binary(op, l2, r2), s2)
    case _ => (e, st)
  }

  function Exprs<S(!new)>(h: Hooks<S>, inv: (S, S) -> bool, es: seq<Expr>, st: S, inNs: bool): (r: (seq<Expr>, S))
    requires Keeps(h, inv)
    ensures inv(st, r.1)
    decreases es
  {
    if es == [] then ([], st)
    else
      var (a, st1) := Expr1(h, inv, es[0], st, inNs);
      var (rest, st2) := Exprs(h, inv, es[1..], st1, inNs);
      ([a] + rest, st2)
  }

  function Props<S(!new)>(h: Hooks<S>, inv: (S, S) -> bool, ps: seq<ObjProp>, st: S, inNs: bool): (r: (seq<ObjProp>, S))
    requires Keeps(h, inv)
    ensures inv(st, r.1)
    decreases ps
  {
    if ps == [] then ([], st)
    else
      var (p, st1) := Prop1(h, inv, ps[0], st, inNs);
      var (rest, st2) := Props(h, inv, ps[1..], st1, inNs);
      ([p] + rest, st2)
  }

  function Prop1<S(!new)>(h: Hooks<S>, inv: (S, S) -> bool, p: ObjProp, st: S, inNs: bool): (r: (ObjProp, S))
    requires Keeps(h, inv)
    ensures inv(st, r.1)
    decreases p
  {
    match p
    case PropAssign(k, v) =>
      var (k2, sa) := match k
        case KeyId(n) => var (n2, sx) := Id1(h, inv, PropKeyName, n, st); (KeyId(n2), sx)
        case KeyStr(_) => (k, st);
      var (v2, sb) := Expr1(h, inv, v, sa, inNs);
      (PropAssign(k2, v2), sb)
    case Shorthand(n) => var (n2, sa) := Id1(h, inv, ShorthandName, n, st); (Shorthand(n2), sa)
    case MethodProp(n, params, body) =>
      var (n2, sa) := Id1(h, inv, MethodName, n, st);
      var (ps2, sb) := Params(h, inv, params, sa);
      var (b, sc) := Stmts(h, inv, body, sb, inNs);
      (MethodProp(n2, ps2, b), sc)
    case Spread(x) => var (x2, sa) := Expr1(h, inv, x, st, inNs); (Spread(x2), sa)
  }

  // ------------------------------------------------------------- unfolding

  /** A one-statement list is walked as that statement. */
  lemma StmtsOne<S(!new)>(h: Hooks<S>, inv: (S, S) -> bool, s: Stmt, st: S, inNs: bool)
    requires Keeps(h, inv)
    ensures Stmts(h, inv, [s], st, inNs) == Stmt1(h, inv, s, st, inNs)
  {
    assert [s][1..] == [];
    var r := Stmt1(h, inv, s, st, inNs);
    assert r.0 + [] == r.0;
  }

  /** A list walked with a given result for each of its statements. */
  function StepAll<S>(step: (Stmt, S) -> (seq<Stmt>, S), ss: seq<Stmt>, st: S): (seq<Stmt>, S)
    decreases ss
  {
    if ss == [] then ([], st)
    else
      var r1 := step(ss[0], st);
      var r2 := StepAll(step, ss[1..], r1.1);
      (r1.0 + r2.0, r2.1)
  }

  /** When the walk of each statement of a list is known, from any state,
      so is the walk of the list. */
  lemma {:induction false} StmtsEach<S(!new)>(h: Hooks<S>, inv: (S, S) -> bool, ss: seq<Stmt>, st: S, inNs: bool, step: (Stmt, S) -> (seq<Stmt>, S))
    requires Keeps(h, inv)
    requires forall i, st0 :: 0 <= i < |ss| ==> Stmt1(h, inv, ss[i], st0, inNs) == step(ss[i], st0)
    ensures Stmts(h, inv, ss, st, inNs) == StepAll(step, ss, st)
    decreases ss
  {
    if ss != [] {
      var r1 := Stmt1(h, inv, ss[0], st, inNs);
      assert r1 == step(ss[0], st);
      forall i, st0 | 0 <= i < |ss[1..]| ensures Stmt1(h, inv, ss[1..][i], st0, inNs) == step(ss[1..][i], st0) {
        assert ss[1..][i] == ss[i + 1];
      }
      StmtsEach(h, inv, ss[1..], r1.1, inNs, step);
    }
  }

  /** An `export { … }` with one specifier the statement hook lets through:
      its property name, then its name. */
  lemma ExportDeclOne<S(!new)>(h: Hooks<S>, inv: (S, S) -> bool, typeOnly: bool, e: ExportSpec, from: Option<Spec>, st: S, inNs: bool)
    requires Keeps(h, inv)
    requires h.stmt(ExportDecl(typeOnly, Some([e]), from), st, inNs) == (st, None)
    ensures var (p, st1) := IdOpt(h, inv, ExportProp, e.propertyName, st);
            var (n, st2) := Id1(h, inv, ExportName, e.name, st1);
            Stmts(h, inv, [ExportDecl(typeOnly, Some([e]), from)], st, inNs) == ([ExportDecl(typeOnly, Some([ExportSpec(p, n)]), from)], st2)
  {
    var s := ExportDecl(typeOnly, Some([e]), from);
    StmtsOne(h, inv, s, st, inNs);
    Stmt1Unhooked(h, inv, s, st, inNs);
    assert [e][0] == e && [e][1..] == [];
    var (p, st1) := IdOpt(h, inv, ExportProp, e.propertyName, st);
    var (n, st2) := Id1(h, inv, ExportName, e.name, st1);
    assert [ExportSpec(p, n)] + [] == [ExportSpec(p, n)];
    assert ExportSpecs(h, inv, [e], st) == ([ExportSpec(p, n)], st2);
  }

  /** A one-element import list: its property name, then its local name. */
  lemma ImportSpecsOne<S(!new)>(h: Hooks<S>, inv: (S, S) -> bool, e: ImportSpec, st: S)
    requires Keeps(h, inv)
    ensures var (p, st1) := IdOpt(h, inv, ImportProp, e.propertyName, st);
            var (n, st2) := Id1(h, inv, ImportName, e.name, st1);
            ImportSpecs(h, inv, [e], st) == ([ImportSpec(e.isTypeOnly, p, n)], st2)
  {
    assert [e][0] == e && [e][1..] == [];
    var (p, st1) := IdOpt(h, inv, ImportProp, e.propertyName, st);
    var (n, st2) := Id1(h, inv, ImportName, e.name, st1);
    assert [ImportSpec(e.isTypeOnly, p, n)] + [] == [ImportSpec(e.isTypeOnly, p, n)];
  }

  /** A statement the visitor replaces: the replacement and the hook's state. */
  lemma StmtsOneHooked<S(!new)>(h: Hooks<S>, inv: (S, S) -> bool, s: Stmt, st: S, inNs: bool)
    requires Keeps(h, inv)
    requires h.stmt(s, st, inNs).1.Some?
    ensures Stmts(h, inv, [s], st, inNs) == (h.stmt(s, st, inNs).1.value, h.stmt(s, st, inNs).0)
  {
    StmtsOne(h, inv, s, st, inNs);
  }

  /** A statement the visitor lets through: its children are walked. */
  lemma StmtsOneUnhooked<S(!new)>(h: Hooks<S>, inv: (S, S) -> bool, s: Stmt, st: S, inNs: bool)
    requires Keeps(h, inv)
    requires h.stmt(s, st, inNs).1.None?
    ensures Stmts(h, inv, [s], st, inNs).0 == [Children(h, inv, s, h.stmt(s, st, inNs).0, inNs).0]
  {
    StmtsOne(h, inv, s, st, inNs);
  }

  /** A statement the hook lets through is rebuilt from its children. */
  lemma Stmt1Unhooked<S(!new)>(h: Hooks<S>, inv: (S, S) -> bool, s: Stmt, st: S, inNs: bool)
    requires Keeps(h, inv)
    requires h.stmt(s, st, inNs).1.None?
    ensures var c := Children(h, inv, s, h.stmt(s, st, inNs).0, inNs);
            Stmt1(h, inv, s, st, inNs) == ([c.0], c.1)
  {
  }

  /** The children of an expression statement or export assignment: its expression. */
  lemma ChildrenOfExpr<S(!new)>(h: Hooks<S>, inv: (S, S) -> bool, s: Stmt, st: S, inNs: bool)
    requires Keeps(h, inv)
    requires s.ExprStmt? || s.ExportAssign?
    ensures Children(h, inv, s, st, inNs).1 == Expr1(h, inv, s.expr, st, inNs).1
  {
    match s
    case ExprStmt(e) =>
    case ExportAssign(isEq, e) =>
  }

  /** An expression statement or export assignment the statement hook lets
      through leaves the state its expression's walk leaves. */
  lemma ExprStmtState<S(!new)>(h: Hooks<S>, inv: (S, S) -> bool, s: Stmt, st: S, inNs: bool)
    requires Keeps(h, inv)
    requires s.ExprStmt? || s.ExportAssign?
    requires h.stmt(s, st, inNs) == (st, None)
    ensures Stmt1(h, inv, s, st, inNs).1 == Expr1(h, inv, s.expr, st, inNs).1
  {
    Stmt1Unhooked(h, inv, s, st, inNs);
    ChildrenOfExpr(h, inv, s, st, inNs);
  }

  /** A call the expression hook lets through walks its callee first: what
      the state is after the callee, the invariant carries to the end. */
  lemma CalleeFirst<S(!new)>(h: Hooks<S>, inv: (S, S) -> bool, e: Expr, st: S, inNs: bool)
    requires Keeps(h, inv)
    requires e.Call? && h.expr(e, st).1.None?
    ensures inv(Expr1(h, inv, e.callee, h.expr(e, st).0, inNs).1, Expr1(h, inv, e, st, inNs).1)
  {
    var s1 := Expr1(h, inv, e.callee, h.expr(e, st).0, inNs).1;
    var s2 := Types(h, inv, e.typeArgs, s1).1;
    var s3 := Exprs(h, inv, e.args, s2, inNs).1;
    assert Expr1(h, inv, e, st, inNs).1 == s3;
    assert inv(s1, s2) && inv(s2, s3);
  }

  /** A call with no type arguments and no arguments that the expression
      hook lets through is its callee's walk. */
  lemma BareCall<S(!new)>(h: Hooks<S>, inv: (S, S) -> bool, f: Expr, st: S, inNs: bool)
    requires Keeps(h, inv)
    requires h.expr(Call(f, [], []), st) == (st, None)
    ensures var r := Expr1(h, inv, f, st, inNs);
            Expr1(h, inv, Call(f, [], []), st, inNs) == (Call(r.0, [], []), r.1)
  {
    var r := Expr1(h, inv, f, st, inNs);
    assert Types(h, inv, [], r.1) == ([], r.1);
    assert Exprs(h, inv, [], r.1, inNs) == ([], r.1);
  }

  /** A statement that is such a call leaves the state its callee's walk leaves. */
  lemma BareCallStmt<S(!new)>(h: Hooks<S>, inv: (S, S) -> bool, f: Expr, st: S, inNs: bool)
    requires Keeps(h, inv)
    requires h.stmt(ExprStmt(Call(f, [], [])), st, inNs) == (st, None)
    requires h.expr(Call(f, [], []), st) == (st, None)
    ensures Stmts(h, inv, [ExprStmt(Call(f, [], []))], st, inNs).1 == Expr1(h, inv, f, st, inNs).1
  {
    BareCall(h, inv, f, st, inNs);
    ExprStmtState(h, inv, ExprStmt(Call(f, [], [])), st, inNs);
    StmtsOne(h, inv, ExprStmt(Call(f, [], [])), st, inNs);
  }

  /** An expression statement the statement hook lets through: its expression is walked. */
  lemma StmtsOneExpr<S(!new)>(h: Hooks<S>, inv: (S, S) -> bool, e: Expr, st: S, inNs: bool)
    requires Keeps(h, inv)
    requires h.stmt(ExprStmt(e), st, inNs) == (st, None)
    ensures Stmts(h, inv, [ExprStmt(e)], st, inNs) == ([ExprStmt(Expr1(h, inv, e, st, inNs).0)], Expr1(h, inv, e, st, inNs).1)
  {
    StmtsOne(h, inv, ExprStmt(e), st, inNs);
  }

  /** The visitor leaves identifiers alone. */
  ghost predicate IdsKept<S(!new)>(h: Hooks<S>) {
    forall p, n, st :: h.id(p, n, st) == (st, n)
  }

  lemma {:induction false} IdsNeutral<S(!new)>(h: Hooks<S>, inv: (S, S) -> bool, p: IdPos, ns: seq<string>, st: S)
    requires Keeps(h, inv) && IdsKept(h)
    ensures Ids(h, inv, p, ns, st) == (ns, st)
    decreases ns
  {
    if ns != [] {
      IdsNeutral(h, inv, p, ns[1..], st);
      assert [ns[0]] + ns[1..] == ns;
    }
  }

  lemma {:induction false} ImportSpecsNeutral<S(!new)>(h: Hooks<S>, inv: (S, S) -> bool, es: seq<ImportSpec>, st: S)
    requires Keeps(h, inv) && IdsKept(h)
    ensures ImportSpecs(h, inv, es, st) == (es, st)
    decreases es
  {
    if es != [] {
      ImportSpecsNeutral(h, inv, es[1..], st);
      assert [es[0]] + es[1..] == es;
    }
  }

  /** An import clause is rebuilt as it was when identifiers are left alone. */
  lemma ClauseNeutral<S(!new)>(h: Hooks<S>, inv: (S, S) -> bool, c: Option<ImportClause>, st: S)
    requires Keeps(h, inv) && IdsKept(h)
    ensures Clause(h, inv, c, st) == (c, st)
  {
    if c.Some? && c.value.bindings.Some? && c.value.bindings.value.NamedImports? {
      ImportSpecsNeutral(h, inv, c.value.bindings.value.elems, st);
    }
  }

  /** Two statements are walked one after the other. */
  lemma StmtsTwo<S(!new)>(h: Hooks<S>, inv: (S, S) -> bool, a: Stmt, b: Stmt, st: S, inNs: bool)
    requires Keeps(h, inv)
    ensures var r1 := Stmt1(h, inv, a, st, inNs);
      var r2 := Stmt1(h, inv, b, r1.1, inNs);
      Stmts(h, inv, [a, b], st, inNs) == (r1.0 + r2.0, r2.1)
  {
    assert [a, b][1..] == [b];
    StmtsOne(h, inv, b, Stmt1(h, inv, a, st, inNs).1, inNs);
  }

  /** What the walk holds after statement i, the invariant carries to the
      end of the list. */
  lemma StmtAtKeeps<S(!new)>(h: Hooks<S>, inv: (S, S) -> bool, ss: seq<Stmt>, i: nat, st: S, inNs: bool)
    requires Keeps(h, inv)
    requires i < |ss|
    ensures inv(Stmt1(h, inv, ss[i], Stmts(h, inv, ss[..i], st, inNs).1, inNs).1, Stmts(h, inv, ss, st, inNs).1)
  {
    var a, b := ss[..i], ss[i..];
    assert ss == a + b;
    StmtsAppend(h, inv, a, b, st, inNs);
    var ra := Stmts(h, inv, a, st, inNs);
    assert b[0] == ss[i];
    var r1 := Stmt1(h, inv, b[0], ra.1, inNs);
    assert Stmts(h, inv, b, ra.1, inNs).1 == Stmts(h, inv, b[1..], r1.1, inNs).1;
  }

  /** Walking a concatenation walks the first part, then the second from
      the state the first left. */
  lemma {:induction false} StmtsAppend<S(!new)>(h: Hooks<S>, inv: (S, S) -> bool, a: seq<Stmt>, b: seq<Stmt>, st: S, inNs: bool)
    requires Keeps(h, inv)
    ensures var ra := Stmts(h, inv, a, st, inNs);
      var rb := Stmts(h, inv, b, ra.1, inNs);
      Stmts(h, inv, a + b, st, inNs) == (ra.0 + rb.0, rb.1)
    decreases |a|
  {
    if a == [] {
      assert a + b == b;
      assert Stmts(h, inv, a, st, inNs) == ([], st);
      assert [] + Stmts(h, inv, b, st, inNs).0 == Stmts(h, inv, b, st, inNs).0;
    } else {
      var r1 := Stmt1(h, inv, a[0], st, inNs);
      assert (a + b)[1..] == a[1..] + b;
      StmtsAppend(h, inv, a[1..], b, r1.1, inNs);
      var ra := Stmts(h, inv, a[1..], r1.1, inNs);
      var rb := Stmts(h, inv, b, ra.1, inNs);
      assert (a + b)[0] == a[0] && a + b != [];
      assert Stmts(h, inv, a + b, st, inNs) == (r1.0 + Stmts(h, inv, a[1..] + b, r1.1, inNs).0, rb.1);
      assert Stmts(h, inv, a, st, inNs) == (r1.0 + ra.0, ra.1);
      assert r1.0 + (ra.0 + rb.0) == (r1.0 + ra.0) + rb.0;
    }
  }

  // ------------------------------------------------------- idle visitors

  /** A visitor that changes nothing: every hook keeps the state and either
      passes the node on or hands it back as it was. */
  ghost predicate Idle<S(!new)>(h: Hooks<S>) {
    && (forall s, st, inNs :: h.stmt(s, st, inNs).0 == st && h.stmt(s, st, inNs).1 in {None, Some([s])})
    && ExprsKept(h)
    && TypesKept(h)
  }

  /** The visitor leaves every expression as it was. */
  ghost predicate ExprsKept<S(!new)>(h: Hooks<S>) {
    forall e, st :: h.expr(e, st).0 == st && h.expr(e, st).1 in {None, Some(e)}
  }

  /** The visitor leaves every type and identifier as it was. */
  ghost predicate TypesKept<S(!new)>(h: Hooks<S>) {
    && (forall t, st :: h.ty(t, st).0 == st && h.ty(t, st).1 in {None, Some(t)})
    && IdsKept(h)
  }

  /** An idle visitor returns every file and its state as they were. */
  lemma {:induction false} StmtsIdle<S(!new)>(h: Hooks<S>, inv: (S, S) -> bool, ss: seq<Stmt>, st: S, inNs: bool)
    requires Keeps(h, inv) && Idle(h)
    ensures Stmts(h, inv, ss, st, inNs) == (ss, st)
    decreases ss
  {
    if ss != [] {
      Stmt1Idle(h, inv, ss[0], st, inNs);
      StmtsIdle(h, inv, ss[1..], st, inNs);
      assert [ss[0]] + ss[1..] == ss;
    }
  }

  lemma {:induction false} Stmt1Idle<S(!new)>(h: Hooks<S>, inv: (S, S) -> bool, s: Stmt, st: S, inNs: bool)
    requires Keeps(h, inv) && Idle(h)
    ensures Stmt1(h, inv, s, st, inNs) == ([s], st)
    decreases s
  {
    if h.stmt(s, st, inNs).1.None? {
      ChildrenIdle(h, inv, s, st, inNs);
    }
  }

  lemma {:induction false} ChildrenIdle<S(!new)>(h: Hooks<S>, inv: (S, S) -> bool, s: Stmt, st: S, inNs: bool)
    requires Keeps(h, inv) && Idle(h)
    ensures Children(h, inv, s, st, inNs) == (s, st)
    decreases s, 1
  {
    if s.Import? || s.ImportEquals? || s.ExportDecl? {
      ImportChildrenIdle(h, inv, s, st, inNs);
    } else if s.VarStmt? || s.FuncDecl? || s.ClassDecl? {
      DeclChildrenIdle(h, inv, s, st, inNs);
    } else {
      OtherChildrenIdle(h, inv, s, st, inNs);
    }
  }

  lemma {:induction false} ImportChildrenIdle<S(!new)>(h: Hooks<S>, inv: (S, S) -> bool, s: Stmt, st: S, inNs: bool)
    requires Keeps(h, inv) && Idle(h)
    requires s.Import? || s.ImportEquals? || s.ExportDecl?
    ensures Children(h, inv, s, st, inNs) == (s, st)
    decreases s, 0
  {
    match s
    case Import(clause, spec) => ClauseNeutral(h, inv, clause, st);
    case ImportEquals(typeOnly, alias, ref) =>
      if ref.EntityRef? { EntityIdle(h, inv, EntityRefName, ref.entity, st); }
    case ExportDecl(typeOnly, elems, from) =>
      if elems.Some? { ExportSpecsIdle(h, inv, elems.value, st); }
  }

  lemma {:induction false} DeclChildrenIdle<S(!new)>(h: Hooks<S>, inv: (S, S) -> bool, s: Stmt, st: S, inNs: bool)
    requires Keeps(h, inv) && Idle(h)
    requires s.VarStmt? || s.FuncDecl? || s.ClassDecl?
    ensures Children(h, inv, s, st, inNs) == (s, st)
    decreases s, 0
  {
    match s
    case VarStmt(mods, kind, decls) => DeclsIdle(h, inv, decls, st, inNs);
    case FuncDecl(mods, name, params, ret, body) =>
      ParamsIdle(h, inv, params, st);
      TypeOptIdle(h, inv, ret, st);
      StmtsIdle(h, inv, body, st, inNs);
    case ClassDecl(mods, name, members) => MembersIdle(h, inv, members, st, inNs);
  }

  lemma {:induction false} OtherChildrenIdle<S(!new)>(h: Hooks<S>, inv: (S, S) -> bool, s: Stmt, st: S, inNs: bool)
    requires Keeps(h, inv) && Idle(h)
    requires !(s.Import? || s.ImportEquals? || s.ExportDecl? || s.VarStmt? || s.FuncDecl? || s.ClassDecl?)
    ensures Children(h, inv, s, st, inNs) == (s, st)
    decreases s, 0
  {
    match s
    case InterfaceDecl(mods, name, sigs) => SigsIdle(h, inv, sigs, st);
    case TypeAlias(mods, name, ty) => Type1Idle(h, inv, ty, st);
    case EnumDecl(mods, name, members) => IdsNeutral(h, inv, EnumMemberName, members, st);
    case Namespace(mods, plain, name, body) => StmtsIdle(h, inv, body, st, inNs || plain);
    case ExprStmt(e) => Expr1Idle(h, inv, e, st, inNs);
    case ExportAssign(isEq, e) => Expr1Idle(h, inv, e, st, inNs);
    case Block(body) => StmtsIdle(h, inv, body, st, inNs);
    case Return(v) => ExprOptIdle(h, inv, v, st, inNs);
    case Empty =>
  }

  lemma {:induction false} ExportSpecsIdle<S(!new)>(h: Hooks<S>, inv: (S, S) -> bool, es: seq<ExportSpec>, st: S)
    requires Keeps(h, inv) && IdsKept(h)
    ensures ExportSpecs(h, inv, es, st) == (es, st)
    decreases es
  {
    if es != [] {
      ExportSpecsIdle(h, inv, es[1..], st);
      assert [es[0]] + es[1..] == es;
    }
  }

  lemma {:induction false} EntityIdle<S(!new)>(h: Hooks<S>, inv: (S, S) -> bool, p: IdPos, e: EntityName, st: S)
    requires Keeps(h, inv) && IdsKept(h)
    ensures Entity(h, inv, p, e, st) == (e, st)
    decreases e
  {
    if e.Qualified? { EntityIdle(h, inv, QualifiedName, e.left, st); }
  }

  lemma {:induction false} Binding1Idle<S(!new)>(h: Hooks<S>, inv: (S, S) -> bool, p: IdPos, b: Binding, st: S)
    requires Keeps(h, inv) && IdsKept(h)
    ensures Binding1(h, inv, p, b, st) == (b, st)
    decreases b
  {
    match b
    case BindId(n) =>
    case BindObject(es) => BindingElemsIdle(h, inv, es, st);
    case BindArray(es) => BindingElemsIdle(h, inv, es, st);
  }

  lemma {:induction false} BindingElemsIdle<S(!new)>(h: Hooks<S>, inv: (S, S) -> bool, es: seq<BindingElem>, st: S)
    requires Keeps(h, inv) && IdsKept(h)
    ensures BindingElems(h, inv, es, st) == (es, st)
    decreases es
  {
    if es != [] {
      BindingElem1Idle(h, inv, es[0], st);
      BindingElemsIdle(h, inv, es[1..], st);
      assert [es[0]] + es[1..] == es;
    }
  }

  lemma {:induction false} BindingElem1Idle<S(!new)>(h: Hooks<S>, inv: (S, S) -> bool, e: BindingElem, st: S)
    requires Keeps(h, inv) && IdsKept(h)
    ensures BindingElem1(h, inv, e, st) == (e, st)
    decreases e
  {
    Binding1Idle(h, inv, BindName, e.target, st);
  }

  lemma {:induction false} DeclsIdle<S(!new)>(h: Hooks<S>, inv: (S, S) -> bool, ds: seq<VarDecl>, st: S, inNs: bool)
    requires Keeps(h, inv) && Idle(h)
    ensures Decls(h, inv, ds, st, inNs) == (ds, st)
    decreases ds
  {
    if ds != [] {
      Decl1Idle(h, inv, ds[0], st, inNs);
      DeclsIdle(h, inv, ds[1..], st, inNs);
      assert [ds[0]] + ds[1..] == ds;
    }
  }

  lemma {:induction false} Decl1Idle<S(!new)>(h: Hooks<S>, inv: (S, S) -> bool, d: VarDecl, st: S, inNs: bool)
    requires Keeps(h, inv) && Idle(h)
    ensures Decl1(h, inv, d, st, inNs) == (d, st)
    decreases d
  {
    Binding1Idle(h, inv, VarName, d.name, st);
    TypeOptIdle(h, inv, d.ty, st);
    ExprOptIdle(h, inv, d.init, st, inNs);
  }

  lemma {:induction false} ParamsIdle<S(!new)>(h: Hooks<S>, inv: (S, S) -> bool, ps: seq<Param>, st: S)
    requires Keeps(h, inv) && TypesKept(h)
    ensures Params(h, inv, ps, st) == (ps, st)
    decreases ps
  {
    if ps != [] {
      Binding1Idle(h, inv, ParamName, ps[0].name, st);
      TypeOptIdle(h, inv, ps[0].ty, st);
      ParamsIdle(h, inv, ps[1..], st);
      assert [ps[0]] + ps[1..] == ps;
    }
  }

  lemma {:induction false} MembersIdle<S(!new)>(h: Hooks<S>, inv: (S, S) -> bool, ms: seq<Member>, st: S, inNs: bool)
    requires Keeps(h, inv) && Idle(h)
    ensures Members(h, inv, ms, st, inNs) == (ms, st)
    decreases ms
  {
    if ms != [] {
      Member1Idle(h, inv, ms[0], st, inNs);
      MembersIdle(h, inv, ms[1..], st, inNs);
      assert [ms[0]] + ms[1..] == ms;
    }
  }

  lemma {:induction false} Member1Idle<S(!new)>(h: Hooks<S>, inv: (S, S) -> bool, m: Member, st: S, inNs: bool)
    requires Keeps(h, inv) && Idle(h)
    ensures Member1(h, inv, m, st, inNs) == (m, st)
    decreases m
  {
    match m
    case Method(n, ps, body) =>
      ParamsIdle(h, inv, ps, st);
      StmtsIdle(h, inv, body, st, inNs);
    case Field(n, ty, init) =>
      TypeOptIdle(h, inv, ty, st);
      ExprOptIdle(h, inv, init, st, inNs);
  }

  lemma {:induction false} SigsIdle<S(!new)>(h: Hooks<S>, inv: (S, S) -> bool, sigs: seq<PropSig>, st: S)
    requires Keeps(h, inv) && TypesKept(h)
    ensures Sigs(h, inv, sigs, st) == (sigs, st)
    decreases sigs
  {
    if sigs != [] {
      Type1Idle(h, inv, sigs[0].ty, st);
      SigsIdle(h, inv, sigs[1..], st);
      assert [sigs[0]] + sigs[1..] == sigs;
    }
  }

  lemma {:induction false} TypeOptIdle<S(!new)>(h: Hooks<S>, inv: (S, S) -> bool, t: Option<Type>, st: S)
    requires Keeps(h, inv) && TypesKept(h)
    ensures TypeOpt(h, inv, t, st) == (t, st)
    decreases t
  {
    if t.Some? { Type1Idle(h, inv, t.value, st); }
  }

  lemma {:induction false} Type1Idle<S(!new)>(h: Hooks<S>, inv: (S, S) -> bool, t: Type, st: S)
    requires Keeps(h, inv) && TypesKept(h)
    ensures Type1(h, inv, t, st) == (t, st)
    decreases t
  {
    if h.ty(t, st).1.None? && t.TypeRef? {
      EntityIdle(h, inv, TypeRefName, t.name, st);
      TypesIdle(h, inv, t.args, st);
    }
  }

  lemma {:induction false} TypesIdle<S(!new)>(h: Hooks<S>, inv: (S, S) -> bool, ts: seq<Type>, st: S)
    requires Keeps(h, inv) && TypesKept(h)
    ensures Types(h, inv, ts, st) == (ts, st)
    decreases ts
  {
    if ts != [] {
      Type1Idle(h, inv, ts[0], st);
      TypesIdle(h, inv, ts[1..], st);
      assert [ts[0]] + ts[1..] == ts;
    }
  }

  lemma {:induction false} ExprOptIdle<S(!new)>(h: Hooks<S>, inv: (S, S) -> bool, e: Option<Expr>, st: S, inNs: bool)
    requires Keeps(h, inv) && Idle(h)
    ensures ExprOpt(h, inv, e, st, inNs) == (e, st)
    decreases e
  {
    if e.Some? { Expr1Idle(h, inv, e.value, st, inNs); }
  }

  lemma {:induction false} Expr1Idle<S(!new)>(h: Hooks<S>, inv: (S, S) -> bool, e: Expr, st: S, inNs: bool)
    requires Keeps(h, inv) && Idle(h)
    ensures Expr1(h, inv, e, st, inNs) == (e, st)
    decreases e, 2
  {
    if h.expr(e, st).1.None? {
      ExprChildrenIdle(h, inv, e, st, inNs);
    }
  }

  lemma {:induction false} ExprChildrenIdle<S(!new)>(h: Hooks<S>, inv: (S, S) -> bool, e: Expr, st: S, inNs: bool)
    requires Keeps(h, inv) && Idle(h)
    ensures ExprChildren(h, inv, e, st, inNs) == (e, st)
    decreases e, 1
  {
    if e.Call? || e.New? || e.Prop? || e.Binary? {
      OperandsIdle(h, inv, e, st, inNs);
    } else {
      NestedIdle(h, inv, e, st, inNs);
    }
  }

  /** Calls, `new`, property accesses and binary expressions. */
  lemma {:induction false} OperandsIdle<S(!new)>(h: Hooks<S>, inv: (S, S) -> bool, e: Expr, st: S, inNs: bool)
    requires Keeps(h, inv) && Idle(h)
    requires e.Call? || e.New? || e.Prop? || e.Binary?
    ensures ExprChildren(h, inv, e, st, inNs) == (e, st)
    decreases e, 0
  {
    match e
    case Call(c, targs, args) =>
      Expr1Idle(h, inv, c, st, inNs);
      TypesIdle(h, inv, targs, st);
      ExprsIdle(h, inv, args, st, inNs);
    case New(c, targs, args) =>
      Expr1Idle(h, inv, c, st, inNs);
      TypesIdle(h, inv, targs, st);
      ExprsIdle(h, inv, args, st, inNs);
    case Prop(o, n) => Expr1Idle(h, inv, o, st, inNs);
    case Binary(op, l, r) =>
      Expr1Idle(h, inv, l, st, inNs);
      Expr1Idle(h, inv, r, st, inNs);
  }

  /** Functions, object and array literals, and the leaves. */
  lemma {:induction false} NestedIdle<S(!new)>(h: Hooks<S>, inv: (S, S) -> bool, e: Expr, st: S, inNs: bool)
    requires Keeps(h, inv) && Idle(h)
    requires !(e.Call? || e.New? || e.Prop? || e.Binary?)
    ensures ExprChildren(h, inv, e, st, inNs) == (e, st)
    decreases e, 0
  {
    match e
    case Arrow(mods, ps, ret, body) =>
      ParamsIdle(h, inv, ps, st);
      TypeOptIdle(h, inv, ret, st);
      if body.ExprBody? {
        Expr1Idle(h, inv, body.expr, st, inNs);
      } else {
        StmtsIdle(h, inv, body.stmts, st, inNs);
      }
    case FuncExpr(name, ps, body) =>
      ParamsIdle(h, inv, ps, st);
      StmtsIdle(h, inv, body, st, inNs);
    case Obj(props) => PropsIdle(h, inv, props, st, inNs);
    case Arr(es) => ExprsIdle(h, inv, es, st, inNs);
    case _ =>
  }

  lemma {:induction false} ExprsIdle<S(!new)>(h: Hooks<S>, inv: (S, S) -> bool, es: seq<Expr>, st: S, inNs: bool)
    requires Keeps(h, inv) && Idle(h)
    ensures Exprs(h, inv, es, st, inNs) == (es, st)
    decreases es
  {
    if es != [] {
      Expr1Idle(h, inv, es[0], st, inNs);
      ExprsIdle(h, inv, es[1..], st, inNs);
      assert [es[0]] + es[1..] == es;
    }
  }

  lemma {:induction false} PropsIdle<S(!new)>(h: Hooks<S>, inv: (S, S) -> bool, ps: seq<ObjProp>, st: S, inNs: bool)
    requires Keeps(h, inv) && Idle(h)
    ensures Props(h, inv, ps, st, inNs) == (ps, st)
    decreases ps
  {
    if ps != [] {
      Prop1Idle(h, inv, ps[0], st, inNs);
      PropsIdle(h, inv, ps[1..], st, inNs);
      assert [ps[0]] + ps[1..] == ps;
    }
  }

  lemma {:induction false} Prop1Idle<S(!new)>(h: Hooks<S>, inv: (S, S) -> bool, p: ObjProp, st: S, inNs: bool)
    requires Keeps(h, inv) && Idle(h)
    ensures Prop1(h, inv, p, st, inNs) == (p, st)
    decreases p
  {
    match p
    case PropAssign(k, v) => Expr1Idle(h, inv, v, st, inNs);
    case Shorthand(n) =>
    case MethodProp(n, params, body) =>
      ParamsIdle(h, inv, params, st);
      StmtsIdle(h, inv, body, st, inNs);
    case Spread(x) => Expr1Idle(h, inv, x, st, inNs);
  }

  // ------------------------------------------ visitors idle on a region

  /** Every statement in `ss`, at any depth, satisfies `P`. */
  ghost predicate StmtsWithin(P: Stmt -> bool, ss: seq<Stmt>)
    decreases ss
  {
    ss == [] || (StmtWithin(P, ss[0]) && StmtsWithin(P, ss[1..]))
  }

  ghost predicate StmtWithin(P: Stmt -> bool, s: Stmt)
    decreases s, 1
  {
    P(s) && ChildrenWithin(P, s)
  }

  /** The statements nested in `s` (not `s` itself) satisfy `P`. */
  ghost predicate ChildrenWithin(P: Stmt -> bool, s: Stmt)
    decreases s, 0
  {
    match s
    case VarStmt(_, _, decls) => DeclsWithin(P, decls)
    case FuncDecl(_, _, _, _, body) => StmtsWithin(P, body)
    case ClassDecl(_, _, members) => MembersWithin(P, members)
    case Namespace(_, _, _, body) => StmtsWithin(P, body)
    case ExprStmt(e) => ExprWithin(P, e)
    case ExportAssign(_, e) => ExprWithin(P, e)
    case Block(body) => StmtsWithin(P, body)
    case Return(v) => v.None? || ExprWithin(P, v.value)
    case _ => true
  }

  ghost predicate DeclsWithin(P: Stmt -> bool, ds: seq<VarDecl>)
    decreases ds
  {
    ds == [] || (DeclWithin(P, ds[0]) && DeclsWithin(P, ds[1..]))
  }

  ghost predicate DeclWithin(P: Stmt -> bool, d: VarDecl)
    decreases d
  {
    d.init.None? || ExprWithin(P, d.init.value)
  }

  ghost predicate MembersWithin(P: Stmt -> bool, ms: seq<Member>)
    decreases ms
  {
    ms == [] || (MemberWithin(P, ms[0]) && MembersWithin(P, ms[1..]))
  }

  ghost predicate MemberWithin(P: Stmt -> bool, m: Member)
    decreases m
  {
    match m
    case Method(_, _, body) => StmtsWithin(P, body)
    case Field(_, _, init) => init.None? || ExprWithin(P, init.value)
  }

  ghost predicate ExprWithin(P: Stmt -> bool, e: Expr)
    decreases e
  {
    match e
    case Call(c, _, args) => ExprWithin(P, c) && ExprsWithin(P, args)
    case New(c, _, args) => ExprWithin(P, c) && ExprsWithin(P, args)
    case Prop(o, _) => ExprWithin(P, o)
    case Arrow(_, _, _, body) =>
      (match body
       case ExprBody(x) => ExprWithin(P, x)
       case BlockBody(b) => StmtsWithin(P, b))
    case FuncExpr(_, _, body) => StmtsWithin(P, body)
    case Obj(props) => PropsWithin(P, props)
    case Arr(es) => ExprsWithin(P, es)
    case Binary(_, l, r) => ExprWithin(P, l) && ExprWithin(P, r)
    case _ => true
  }

  ghost predicate ExprsWithin(P: Stmt -> bool, es: seq<Expr>)
    decreases es
  {
    es == [] || (ExprWithin(P, es[0]) && ExprsWithin(P, es[1..]))
  }

  ghost predicate PropsWithin(P: Stmt -> bool, ps: seq<ObjProp>)
    decreases ps
  {
    ps == [] || (PropWithin(P, ps[0]) && PropsWithin(P, ps[1..]))
  }

  ghost predicate PropWithin(P: Stmt -> bool, p: ObjProp)
    decreases p
  {
    match p
    case PropAssign(_, v) => ExprWithin(P, v)
    case Shorthand(_) => true
    case MethodProp(_, _, body) => StmtsWithin(P, body)
    case Spread(x) => ExprWithin(P, x)
  }

  /** The visitor passes on every statement satisfying `P` and leaves all
      expressions, types and identifiers as they were. */
  ghost predicate IdleOn<S(!new)>(h: Hooks<S>, P: Stmt -> bool) {
    && (forall s, st, inNs :: P(s) ==> h.stmt(s, st, inNs) == (st, None))
    && ExprsKept(h)
    && TypesKept(h)
  }

  /** A visitor idle on the statements satisfying `P` returns a list all of
      whose statements satisfy `P` as it was. */
  lemma {:induction false} StmtsWithinKept<S(!new)>(h: Hooks<S>, inv: (S, S) -> bool, P: Stmt -> bool, ss: seq<Stmt>, st: S, inNs: bool)
    requires Keeps(h, inv) && IdleOn(h, P) && StmtsWithin(P, ss)
    ensures Stmts(h, inv, ss, st, inNs) == (ss, st)
    decreases ss
  {
    if ss != [] {
      Stmt1WithinKept(h, inv, P, ss[0], st, inNs);
      StmtsWithinKept(h, inv, P, ss[1..], st, inNs);
      assert [ss[0]] + ss[1..] == ss;
    }
  }

  lemma {:induction false} Stmt1WithinKept<S(!new)>(h: Hooks<S>, inv: (S, S) -> bool, P: Stmt -> bool, s: Stmt, st: S, inNs: bool)
    requires Keeps(h, inv) && IdleOn(h, P) && StmtWithin(P, s)
    ensures Stmt1(h, inv, s, st, inNs) == ([s], st)
    decreases s, 2
  {
    assert h.stmt(s, st, inNs) == (st, None);
    ChildrenWithinKept(h, inv, P, s, st, inNs);
  }

  lemma {:induction false} ChildrenWithinKept<S(!new)>(h: Hooks<S>, inv: (S, S) -> bool, P: Stmt -> bool, s: Stmt, st: S, inNs: bool)
    requires Keeps(h, inv) && IdleOn(h, P) && ChildrenWithin(P, s)
    ensures Children(h, inv, s, st, inNs) == (s, st)
    decreases s, 1
  {
    if s.Import? || s.ImportEquals? || s.ExportDecl? {
      ImportChildrenWithinKept(h, inv, P, s, st, inNs);
    } else if s.VarStmt? || s.FuncDecl? || s.ClassDecl? {
      DeclChildrenWithinKept(h, inv, P, s, st, inNs);
    } else {
      OtherChildrenWithinKept(h, inv, P, s, st, inNs);
    }
  }

  lemma {:induction false} ImportChildrenWithinKept<S(!new)>(h: Hooks<S>, inv: (S, S) -> bool, P: Stmt -> bool, s: Stmt, st: S, inNs: bool)
    requires Keeps(h, inv) && IdleOn(h, P) && ChildrenWithin(P, s)
    requires s.Import? || s.ImportEquals? || s.ExportDecl?
    ensures Children(h, inv, s, st, inNs) == (s, st)
    decreases s, 0
  {
    match s
    case Import(clause, spec) => ClauseNeutral(h, inv, clause, st);
    case ImportEquals(typeOnly, alias, ref) =>
      if ref.EntityRef? { EntityIdle(h, inv, EntityRefName, ref.entity, st); }
    case ExportDecl(typeOnly, elems, from) =>
      if elems.Some? { ExportSpecsIdle(h, inv, elems.value, st); }
  }

  lemma {:induction false} DeclChildrenWithinKept<S(!new)>(h: Hooks<S>, inv: (S, S) -> bool, P: Stmt -> bool, s: Stmt, st: S, inNs: bool)
    requires Keeps(h, inv) && IdleOn(h, P) && ChildrenWithin(P, s)
    requires s.VarStmt? || s.FuncDecl? || s.ClassDecl?
    ensures Children(h, inv, s, st, inNs) == (s, st)
    decreases s, 0
  {
    match s
    case VarStmt(mods, kind, decls) => DeclsWithinKept(h, inv, P, decls, st, inNs);
    case FuncDecl(mods, name, params, ret, body) =>
      ParamsIdle(h, inv, params, st);
      TypeOptIdle(h, inv, ret, st);
      StmtsWithinKept(h, inv, P, body, st, inNs);
    case ClassDecl(mods, name, members) => MembersWithinKept(h, inv, P, members, st, inNs);
  }

  lemma {:induction false} OtherChildrenWithinKept<S(!new)>(h: Hooks<S>, inv: (S, S) -> bool, P: Stmt -> bool, s: Stmt, st: S, inNs: bool)
    requires Keeps(h, inv) && IdleOn(h, P) && ChildrenWithin(P, s)
    requires !(s.Import? || s.ImportEquals? || s.ExportDecl? || s.VarStmt? || s.FuncDecl? || s.ClassDecl?)
    ensures Children(h, inv, s, st, inNs) == (s, st)
    decreases s, 0
  {
    match s
    case InterfaceDecl(mods, name, sigs) => SigsIdle(h, inv, sigs, st);
    case TypeAlias(mods, name, ty) => Type1Idle(h, inv, ty, st);
    case EnumDecl(mods, name, members) => IdsNeutral(h, inv, EnumMemberName, members, st);
    case Namespace(mods, plain, name, body) => StmtsWithinKept(h, inv, P, body, st, inNs || plain);
    case ExprStmt(e) => Expr1WithinKept(h, inv, P, e, st, inNs);
    case ExportAssign(isEq, e) => Expr1WithinKept(h, inv, P, e, st, inNs);
    case Block(body) => StmtsWithinKept(h, inv, P, body, st, inNs);
    case Return(v) => if v.Some? { Expr1WithinKept(h, inv, P, v.value, st, inNs); }
    case Empty =>
  }

  lemma {:induction false} DeclsWithinKept<S(!new)>(h: Hooks<S>, inv: (S, S) -> bool, P: Stmt -> bool, ds: seq<VarDecl>, st: S, inNs: bool)
    requires Keeps(h, inv) && IdleOn(h, P) && DeclsWithin(P, ds)
    ensures Decls(h, inv, ds, st, inNs) == (ds, st)
    decreases ds
  {
    if ds != [] {
      Decl1WithinKept(h, inv, P, ds[0], st, inNs);
      DeclsWithinKept(h, inv, P, ds[1..], st, inNs);
      assert [ds[0]] + ds[1..] == ds;
    }
  }

  lemma {:induction false} Decl1WithinKept<S(!new)>(h: Hooks<S>, inv: (S, S) -> bool, P: Stmt -> bool, d: VarDecl, st: S, inNs: bool)
    requires Keeps(h, inv) && IdleOn(h, P) && DeclWithin(P, d)
    ensures Decl1(h, inv, d, st, inNs) == (d, st)
    decreases d
  {
    Binding1Idle(h, inv, VarName, d.name, st);
    TypeOptIdle(h, inv, d.ty, st);
    if d.init.Some? { Expr1WithinKept(h, inv, P, d.init.value, st, inNs); }
  }

  lemma {:induction false} MembersWithinKept<S(!new)>(h: Hooks<S>, inv: (S, S) -> bool, P: Stmt -> bool, ms: seq<Member>, st: S, inNs: bool)
    requires Keeps(h, inv) && IdleOn(h, P) && MembersWithin(P, ms)
    ensures Members(h, inv, ms, st, inNs) == (ms, st)
    decreases ms
  {
    if ms != [] {
      Member1WithinKept(h, inv, P, ms[0], st, inNs);
      MembersWithinKept(h, inv, P, ms[1..], st, inNs);
      assert [ms[0]] + ms[1..] == ms;
    }
  }

  lemma {:induction false} Member1WithinKept<S(!new)>(h: Hooks<S>, inv: (S, S) -> bool, P: Stmt -> bool, m: Member, st: S, inNs: bool)
    requires Keeps(h, inv) && IdleOn(h, P) && MemberWithin(P, m)
    ensures Member1(h, inv, m, st, inNs) == (m, st)
    decreases m
  {
    match m
    case Method(n, ps, body) =>
      ParamsIdle(h, inv, ps, st);
      StmtsWithinKept(h, inv, P, body, st, inNs);
    case Field(n, ty, init) =>
      TypeOptIdle(h, inv, ty, st);
      if init.Some? { Expr1WithinKept(h, inv, P, init.value, st, inNs); }
  }

  lemma {:induction false} Expr1WithinKept<S(!new)>(h: Hooks<S>, inv: (S, S) -> bool, P: Stmt -> bool, e: Expr, st: S, inNs: bool)
    requires Keeps(h, inv) && IdleOn(h, P) && ExprWithin(P, e)
    ensures Expr1(h, inv, e, st, inNs) == (e, st)
    decreases e, 2
  {
    if h.expr(e, st).1.None? {
      ExprChildrenWithinKept(h, inv, P, e, st, inNs);
    }
  }

  lemma {:induction false} ExprChildrenWithinKept<S(!new)>(h: Hooks<S>, inv: (S, S) -> bool, P: Stmt -> bool, e: Expr, st: S, inNs: bool)
    requires Keeps(h, inv) && IdleOn(h, P) && ExprWithin(P, e)
    ensures ExprChildren(h, inv, e, st, inNs) == (e, st)
    decreases e, 1
  {
    if e.Call? || e.New? || e.Prop? || e.Binary? {
      OperandsWithinKept(h, inv, P, e, st, inNs);
    } else {
      NestedWithinKept(h, inv, P, e, st, inNs);
    }
  }

  lemma {:induction false} OperandsWithinKept<S(!new)>(h: Hooks<S>, inv: (S, S) -> bool, P: Stmt -> bool, e: Expr, st: S, inNs: bool)
    requires Keeps(h, inv) && IdleOn(h, P) && ExprWithin(P, e)
    requires e.Call? || e.New? || e.Prop? || e.Binary?
    ensures ExprChildren(h, inv, e, st, inNs) == (e, st)
    decreases e, 0
  {
    match e
    case Call(c, targs, args) =>
      Expr1WithinKept(h, inv, P, c, st, inNs);
      TypesIdle(h, inv, targs, st);
      ExprsWithinKept(h, inv, P, args, st, inNs);
    case New(c, targs, args) =>
      Expr1WithinKept(h, inv, P, c, st, inNs);
      TypesIdle(h, inv, targs, st);
      ExprsWithinKept(h, inv, P, args, st, inNs);
    case Prop(o, n) => Expr1WithinKept(h, inv, P, o, st, inNs);
    case Binary(op, l, r) =>
      Expr1WithinKept(h, inv, P, l, st, inNs);
      Expr1WithinKept(h, inv, P, r, st, inNs);
  }

  lemma {:induction false} NestedWithinKept<S(!new)>(h: Hooks<S>, inv: (S, S) -> bool, P: Stmt -> bool, e: Expr, st: S, inNs: bool)
    requires Keeps(h, inv) && IdleOn(h, P) && ExprWithin(P, e)
    requires !(e.Call? || e.New? || e.Prop? || e.Binary?)
    ensures ExprChildren(h, inv, e, st, inNs) == (e, st)
    decreases e, 0
  {
    match e
    case Arrow(mods, ps, ret, body) =>
      ParamsIdle(h, inv, ps, st);
      TypeOptIdle(h, inv, ret, st);
      match body {
        case ExprBody(x) => Expr1WithinKept(h, inv, P, x, st, inNs);
        case BlockBody(b) => StmtsWithinKept(h, inv, P, b, st, inNs);
      }
    case FuncExpr(name, ps, body) =>
      ParamsIdle(h, inv, ps, st);
      StmtsWithinKept(h, inv, P, body, st, inNs);
    case Obj(props) => PropsWithinKept(h, inv, P, props, st, inNs);
    case Arr(es) => ExprsWithinKept(h, inv, P, es, st, inNs);
    case _ =>
  }

  lemma {:induction false} ExprsWithinKept<S(!new)>(h: Hooks<S>, inv: (S, S) -> bool, P: Stmt -> bool, es: seq<Expr>, st: S, inNs: bool)
    requires Keeps(h, inv) && IdleOn(h, P) && ExprsWithin(P, es)
    ensures Exprs(h, inv, es, st, inNs) == (es, st)
    decreases es
  {
    if es != [] {
      Expr1WithinKept(h, inv, P, es[0], st, inNs);
      ExprsWithinKept(h, inv, P, es[1..], st, inNs);
      assert [es[0]] + es[1..] == es;
    }
  }

  lemma {:induction false} PropsWithinKept<S(!new)>(h: Hooks<S>, inv: (S, S) -> bool, P: Stmt -> bool, ps: seq<ObjProp>, st: S, inNs: bool)
    requires Keeps(h, inv) && IdleOn(h, P) && PropsWithin(P, ps)
    ensures Props(h, inv, ps, st, inNs) == (ps, st)
    decreases ps
  {
    if ps != [] {
      Prop1WithinKept(h, inv, P, ps[0], st, inNs);
      PropsWithinKept(h, inv, P, ps[1..], st, inNs);
      assert [ps[0]] + ps[1..] == ps;
    }
  }

  lemma {:induction false} Prop1WithinKept<S(!new)>(h: Hooks<S>, inv: (S, S) -> bool, P: Stmt -> bool, p: ObjProp, st: S, inNs: bool)
    requires Keeps(h, inv) && IdleOn(h, P) && PropWithin(P, p)
    ensures Prop1(h, inv, p, st, inNs) == (p, st)
    decreases p
  {
    match p
    case PropAssign(k, v) => Expr1WithinKept(h, inv, P, v, st, inNs);
    case Shorthand(n) =>
    case MethodProp(n, params, body) =>
      ParamsIdle(h, inv, params, st);
      StmtsWithinKept(h, inv, P, body, st, inNs);
    case Spread(x) => Expr1WithinKept(h, inv, P, x, st, inNs);
  }
}
