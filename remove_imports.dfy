// `removeImportExpressionHandler` of dist/index.mjs: the stage that takes
// every import declaration and import-equals declaration out of a file, at
// any depth, and appends its source text to the bundle's shared
// `removedStatements` list; the file is then cleaned like every other stage
// (src/lib/bundle/bundleCreator.ts).
module RemoveImports {
  import opened Wrappers
  import opened Ast
  import opened Walk
  import opened Records
  import opened BundleCreator

  /** The two kinds of statement the visitor takes out. */
  predicate IsImport(s: Stmt) {
    s.Import? || s.ImportEquals?
  }

  /** `node.getText()` of an import: the printed declaration. */
  function TextOf(s: Stmt): string
    requires IsImport(s)
  {
    match s
    case Import(c, spec) => ImportText(c, spec)
    case ImportEquals(isTypeOnly, n, ref) => ImportEqualsText(isTypeOnly, n, ref)
  }

  /** The visitor at a statement: an import is pushed and replaced by an
      empty statement; anything else is walked into. */
  function RemoveStmt(s: Stmt, removed: seq<string>): (r: (seq<string>, Option<seq<Stmt>>))
    ensures r.1.Some? <==> IsImport(s)
    ensures IsImport(s) ==> r.0 == removed + [TextOf(s)] && r.1.value == [Empty]
    ensures !IsImport(s) ==> r.0 == removed
  {
    if IsImport(s) then (removed + [TextOf(s)], Some([Empty])) else (removed, None)
  }

  function RemoveHooks(): Hooks<seq<string>> {
    Hooks((s, st, inNs) => RemoveStmt(s, st),
          (e, st) => (st, None),
          (t, st) => (st, None),
          (p, n, st) => (st, n))
  }

  /** The list only grows: every walk extends what it was given. */
  function Extends(): (seq<string>, seq<string>) -> bool {
    (a, b) => a <= b
  }

  lemma RemoveKeeps()
    ensures Keeps(RemoveHooks(), Extends())
  {
  }

  /** The visitor over one file's statements, from the shared list. */
  function RemoveWalk(content: seq<Stmt>, removed: seq<string>): (r: (seq<Stmt>, seq<string>))
    ensures removed <= r.1
  {
    RemoveKeeps();
    Stmts(RemoveHooks(), Extends(), content, removed, false)
  }

  /** The handler: the record with its content walked and cleaned, and the
      shared list with the file's import texts appended. */
  function RemoveImportsFile(d: DepsFile, removed: seq<string>): (r: (DepsFile, seq<string>))
    ensures r.0.file == d.file && r.0.rest == d.rest
    ensures removed <= r.1
    ensures Empty !in r.0.content
  {
    var w := RemoveWalk(d.content, removed);
    (Created(d, w.0), w.1)
  }

  // ------------------------------------------------------------- properties

  function NotImport(): Stmt -> bool {
    s => !IsImport(s)
  }

  /** A file with no import anywhere in it: the walk changes nothing and
      nothing is appended. */
  lemma ImportFreeKept(d: DepsFile, removed: seq<string>)
    requires StmtsWithin(NotImport(), d.content)
    ensures RemoveWalk(d.content, removed) == (d.content, removed)
    ensures RemoveImportsFile(d, removed) == (Created(d, d.content), removed)
  {
    RemoveKeeps();
    StmtsWithinKept(RemoveHooks(), Extends(), NotImport(), d.content, removed, false);
  }

  /** A top-level statement is either an import or holds no import at any depth. */
  ghost predicate Flat(ss: seq<Stmt>) {
    forall i :: 0 <= i < |ss| ==> IsImport(ss[i]) || StmtWithin(NotImport(), ss[i])
  }

  /** Every import replaced by an empty statement, in place. */
  function Blanked(ss: seq<Stmt>): (r: seq<Stmt>)
    ensures |r| == |ss|
    ensures forall i :: 0 <= i < |ss| ==> r[i] == if IsImport(ss[i]) then Empty else ss[i]
  {
    if ss == [] then [] else [if IsImport(ss[0]) then Empty else ss[0]] + Blanked(ss[1..])
  }

  /** The texts of the top-level imports, in file order. */
  function TopTexts(ss: seq<Stmt>): (r: seq<string>)
    ensures |r| <= |ss|
  {
    if ss == [] then []
    else (if IsImport(ss[0]) then [TextOf(ss[0])] else []) + TopTexts(ss[1..])
  }

  /** In a file whose imports all sit at the top level, the walk blanks
      exactly those imports and appends their texts in file order. */
  lemma {:induction false} FlatRemoved(ss: seq<Stmt>, removed: seq<string>)
    requires Flat(ss)
    ensures RemoveWalk(ss, removed) == (Blanked(ss), removed + TopTexts(ss))
    decreases ss
  {
    if ss == [] {
      assert removed + [] == removed;
    } else {
      var t0 := if IsImport(ss[0]) then [TextOf(ss[0])] else [];
      FlatTail(ss);
      FlatRemoved(ss[1..], removed + t0);
      FlatStep(ss, removed);
      FlatCombine(RemoveWalk(ss, removed), RemoveWalk(ss[1..], removed + t0), ss, removed);
    }
  }

  /** The walk over a flat list: its first statement, then the rest from the state it left. */
  lemma FlatStep(ss: seq<Stmt>, removed: seq<string>)
    requires ss != [] && (IsImport(ss[0]) || StmtWithin(NotImport(), ss[0]))
    ensures var t0 := if IsImport(ss[0]) then [TextOf(ss[0])] else [];
      RemoveWalk(ss, removed)
        == ([if IsImport(ss[0]) then Empty else ss[0]] + RemoveWalk(ss[1..], removed + t0).0, RemoveWalk(ss[1..], removed + t0).1)
  {
    FlatHead(ss[0], removed);
  }

  lemma FlatCombine(w: (seq<Stmt>, seq<string>), w1: (seq<Stmt>, seq<string>), ss: seq<Stmt>, removed: seq<string>)
    requires ss != []
    requires var t0 := if IsImport(ss[0]) then [TextOf(ss[0])] else [];
      && w == ([if IsImport(ss[0]) then Empty else ss[0]] + w1.0, w1.1)
      && w1 == (Blanked(ss[1..]), (removed + t0) + TopTexts(ss[1..]))
    ensures w == (Blanked(ss), removed + TopTexts(ss))
  {
    var t0 := if IsImport(ss[0]) then [TextOf(ss[0])] else [];
    assert (removed + t0) + TopTexts(ss[1..]) == removed + TopTexts(ss);
  }

  /** One top-level statement of a flat file: an import is blanked and its
      text appended, anything else is kept. */
  lemma FlatHead(s: Stmt, removed: seq<string>)
    requires IsImport(s) || StmtWithin(NotImport(), s)
    ensures (RemoveKeeps();
      Stmt1(RemoveHooks(), Extends(), s, removed, false)
        == ([if IsImport(s) then Empty else s], removed + if IsImport(s) then [TextOf(s)] else []))
  {
    RemoveKeeps();
    if !IsImport(s) {
      Stmt1WithinKept(RemoveHooks(), Extends(), NotImport(), s, removed, false);
      assert removed + [] == removed;
    }
  }

  lemma FlatTail(ss: seq<Stmt>)
    requires ss != [] && Flat(ss)
    ensures Flat(ss[1..])
  {
    forall i | 0 <= i < |ss[1..]|
      ensures IsImport(ss[1..][i]) || StmtWithin(NotImport(), ss[1..][i])
    {
      assert ss[1..][i] == ss[i + 1];
    }
  }

  /** The cleaned content of such a file: what was not an import and not
      already an empty statement, in order. */
  lemma FlatFile(d: DepsFile, removed: seq<string>)
    requires Flat(d.content)
    ensures RemoveImportsFile(d, removed).1 == removed + TopTexts(d.content)
    ensures forall s :: s in RemoveImportsFile(d, removed).0.content <==> s in d.content && !IsImport(s) && s != Empty
  {
    FlatRemoved(d.content, removed);
    var b := Blanked(d.content);
    forall s ensures s in b && s != Empty <==> s in d.content && !IsImport(s) && s != Empty {
      if s in b && s != Empty {
        var i :| 0 <= i < |b| && b[i] == s;
      }
      if s in d.content && !IsImport(s) && s != Empty {
        var i :| 0 <= i < |d.content| && d.content[i] == s;
        assert b[i] == s;
      }
    }
  }

  /** One import alone in a file: the file becomes empty and its text is
      the one thing appended. */
  lemma SingleImport(d: DepsFile, removed: seq<string>)
    requires |d.content| == 1 && IsImport(d.content[0])
    ensures RemoveImportsFile(d, removed) == (DepsFile(d.file, [], d.rest), removed + [TextOf(d.content[0])])
  {
    assert Flat(d.content);
    FlatRemoved(d.content, removed);
    assert Blanked(d.content) == [Empty];
    assert TopTexts(d.content) == [TextOf(d.content[0])] + TopTexts([]);
    assert [TextOf(d.content[0])] + [] == [TextOf(d.content[0])];
    assert [Empty][1..] == [];
    assert DropTopEmpty([Empty]) == [];
  }
}
