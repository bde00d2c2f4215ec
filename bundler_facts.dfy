// What the stage sequence of src/lib/bundle/index.ts guarantees: when the
// duplicate check stops the run, when a visitor changes nothing, what the
// as-written wiring of two stage groups amounts to, which removed imports
// survive the filter, and the shape of the assembled text.
module BundlerFacts {
  import opened Wrappers
  import opened Text
  import opened Ast
  import opened Records
  import opened Walk
  import opened BundleCreator
  import opened Bundler
  import DC = DuplicateCollect
  import DU = DuplicateUpdate
  import DR = DuplicateRefs
  import AN = Anonymous
  import RE = RemoveExports
  import Paths

  // ------------------------------------------------ the duplicate check

  /** The files that declare `n` at top level, once per declaration. */
  function Occurrences(deps: seq<DepsFile>, n: string): (r: seq<string>)
    decreases |deps|
  {
    if deps == [] then []
    else
      var d := deps[|deps| - 1];
      Occurrences(deps[..|deps| - 1], n) + DC.Repeat(d.file, DC.Count(DC.FileNames(d.content), n))
  }

  /** The collector records every top-level declaration under its file. */
  lemma {:induction false} CollectFiles(m: DC.NamesMap, deps: seq<DepsFile>, n: string)
    ensures DC.Files(CollectPass(m, deps).1, n) == DC.Files(m, n) + Occurrences(deps, n)
    decreases |deps|
  {
    if deps != [] {
      var d := deps[|deps| - 1];
      CollectFiles(m, deps[..|deps| - 1], n);
      DC.RecordAllFiles(CollectPass(m, deps[..|deps| - 1]).1, DC.FileNames(d.content), d.file, n);
    }
  }

  lemma {:induction false} RecordAllKeysDistinct(m: DC.NamesMap, names: seq<string>, file: string)
    requires DC.KeysDistinct(m)
    ensures DC.KeysDistinct(DC.RecordAll(m, names, file))
    decreases |names|
  {
    if names != [] {
      DC.RecordKeysDistinct(m, names[0], file);
      RecordAllKeysDistinct(DC.Record(m, names[0], file), names[1..], file);
    }
  }

  lemma {:induction false} CollectKeysDistinct(m: DC.NamesMap, deps: seq<DepsFile>)
    requires DC.KeysDistinct(m)
    ensures DC.KeysDistinct(CollectPass(m, deps).1)
    decreases |deps|
  {
    if deps != [] {
      var d := deps[|deps| - 1];
      CollectKeysDistinct(m, deps[..|deps| - 1]);
      RecordAllKeysDistinct(CollectPass(m, deps[..|deps| - 1]).1, DC.FileNames(d.content), d.file);
    }
  }

  /** In a map with distinct keys, an entry's files are what `get` returns. */
  lemma {:induction false} FilesOfEntry(m: DC.NamesMap, i: nat)
    requires DC.KeysDistinct(m) && i < |m|
    ensures DC.Files(m, m[i].name) == m[i].files
    decreases |m|
  {
    if i > 0 {
      assert m[1..][i - 1] == m[i];
      assert DC.KeysDistinct(m[1..]) by {
        forall a, b | 0 <= a < b < |m[1..]| ensures m[1..][a].name != m[1..][b].name {
          assert m[1..][a] == m[a + 1] && m[1..][b] == m[b + 1];
        }
      }
      FilesOfEntry(m[1..], i - 1);
    }
  }

  lemma HasDuplicateBySize(m: DC.NamesMap)
    requires DC.KeysDistinct(m)
    ensures HasDuplicate(m) <==> exists n :: DC.Size(m, n) > 1
  {
    if HasDuplicate(m) {
      var i :| 0 <= i < |m| && |m[i].files| > 1;
      FilesOfEntry(m, i);
      assert DC.Size(m, m[i].name) > 1;
    }
    if exists n :: DC.Size(m, n) > 1 {
      var n :| DC.Size(m, n) > 1;
      assert n in DC.Names(m);
      var i :| 0 <= i < |m| && DC.Names(m)[i] == n;
      FilesOfEntry(m, i);
    }
  }

  /** The collector's map has a name with two or more files exactly when
      some name is declared at top level more than once across the files. */
  lemma CollectedDuplicate(deps: seq<DepsFile>)
    ensures HasDuplicate(CollectPass([], deps).1) <==> exists n :: |Occurrences(deps, n)| > 1
  {
    var m := CollectPass([], deps).1;
    CollectKeysDistinct([], deps);
    HasDuplicateBySize(m);
    if HasDuplicate(m) {
      var n :| DC.Size(m, n) > 1;
      CollectFiles([], deps, n);
      assert |Occurrences(deps, n)| > 1;
    }
    if exists n :: |Occurrences(deps, n)| > 1 {
      var n :| |Occurrences(deps, n)| > 1;
      CollectFiles([], deps, n);
      assert DC.Size(m, n) > 1;
    }
  }

  // --------------------------------------------------- idle visitors

  lemma CleanedTwice(deps: seq<DepsFile>)
    ensures Cleaned(Cleaned(deps)) == Cleaned(deps)
  {
    var c := Cleaned(deps);
    forall i | 0 <= i < |deps| ensures Cleaned(c)[i] == c[i] {
      DropTopEmptyNoop(c[i].content);
    }
  }

  lemma FirstIssued(m: DC.NamesMap, file: string, a: DU.UState, b: DU.UState)
    requires DU.Issued(m, file, a, b) && |b.log| > |a.log|
    ensures DU.IsDup(m, b.log[|a.log|].base)
  {
  }

  lemma IssuedNothing(m: DC.NamesMap, file: string, a: DU.UState, b: DU.UState)
    requires forall n :: !DU.IsDup(m, n)
    requires DU.Issued(m, file, a, b)
    ensures b == a
  {
    if |b.log| > |a.log| {
      FirstIssued(m, file, a, b);
      assert false;
    }
    assert b.log == a.log;
  }

  /** With no duplicated name, `duplicateUpdateVisitor` changes nothing. */
  lemma UpdateIdle(m: DC.NamesMap, file: string)
    requires forall n :: !DU.IsDup(m, n)
    ensures Idle(DU.UpdateHooks(m, file))
  {
    var h := DU.UpdateHooks(m, file);
    forall s, st, inNs ensures h.stmt(s, st, inNs).0 == st && h.stmt(s, st, inNs).1 in {None, Some([s])} {
      var r := DU.UpdateStmt(m, file, s, st);
      assert h.stmt(s, st, inNs) == r;
      IssuedNothing(m, file, st, r.0);
      if s.VarStmt? {
        var ds := DU.RenameDecls(m, file, s.decls, st).0;
        assert ds == s.decls;
      }
    }
  }

  /** With both lists empty, the call and export visitors change nothing. */
  lemma RefsIdle(file: string)
    ensures Idle(DR.CallHooks([], [], file))
    ensures Idle(DR.ExportHooks([], [], file))
  {
    var h := DR.ExportHooks([], [], file);
    forall s, st, inNs ensures h.stmt(s, st, inNs).0 == st && h.stmt(s, st, inNs).1 in {None, Some([s])} {
      if s.ExportDecl? && s.elems.Some? {
        DR.ExportSpecsIdle([], [], file, s.elems.value, st);
      }
    }
  }

  /** With an empty export list, the import visitor changes nothing. */
  lemma RefImportIdle(cwd: seq<string>, file: string)
    ensures Idle(DR.ImportHooks(cwd, [], file))
  {
    var h := DR.ImportHooks(cwd, [], file);
    forall s, st, inNs ensures h.stmt(s, st, inNs).0 == st && h.stmt(s, st, inNs).1 in {None, Some([s])} {
      if s.Import? && s.clause.Some? {
        DR.UnmatchedImportHook(cwd, [], file, s.clause.value, s.spec, st);
      }
    }
  }

  /** With empty lists, the anonymous import and call visitors change nothing. */
  lemma AnonIdle(file: string)
    ensures Idle(AN.ImportHooks([], file))
    ensures Idle(AN.CallHooks([], file))
  {
  }

  // ------------------------------------------------ idle passes

  lemma {:induction false} UpdatePassIdle(m: DC.NamesMap, deps: seq<DepsFile>, st: DU.UState)
    requires forall n :: !DU.IsDup(m, n)
    ensures UpdatePass(m, deps, st) == (Cleaned(deps), st)
    decreases |deps|
  {
    if deps != [] {
      var d := deps[|deps| - 1];
      UpdatePassIdle(m, deps[..|deps| - 1], st);
      UpdateIdle(m, d.file);
      DU.UpdateKeeps(m, d.file);
      StmtsIdle(DU.UpdateHooks(m, d.file), DU.IssuedRel(m, d.file), d.content, st, false);
    }
  }

  lemma {:induction false} CallPassIdle(deps: seq<DepsFile>)
    ensures CallPass([], [], deps) == Cleaned(deps)
    decreases |deps|
  {
    if deps != [] {
      var d := deps[|deps| - 1];
      CallPassIdle(deps[..|deps| - 1]);
      RefsIdle(d.file);
      StmtsIdle(DR.CallHooks([], [], d.file), Stateless(), d.content, (), false);
    }
  }

  lemma {:induction false} ExportPassIdle(deps: seq<DepsFile>, st: DR.EState)
    ensures ExportPass([], [], deps, st) == (Cleaned(deps), st)
    decreases |deps|
  {
    if deps != [] {
      var d := deps[|deps| - 1];
      ExportPassIdle(deps[..|deps| - 1], st);
      RefsIdle(d.file);
      DR.ExportKeeps([], [], d.file);
      StmtsIdle(DR.ExportHooks([], [], d.file), DR.PushedRel([], d.file), d.content, st, false);
    }
  }

  lemma {:induction false} ImportPassIdle(cwd: seq<string>, deps: seq<DepsFile>, log: seq<NamesSet>)
    ensures ImportPass(cwd, [], deps, log) == (Cleaned(deps), log)
    decreases |deps|
  {
    if deps != [] {
      var d := deps[|deps| - 1];
      ImportPassIdle(cwd, deps[..|deps| - 1], log);
      RefImportIdle(cwd, d.file);
      StmtsIdle(DR.ImportHooks(cwd, [], d.file), DR.Grows(), d.content, log, false);
    }
  }

  lemma {:induction false} AnonImportPassIdle(deps: seq<DepsFile>, st: seq<NamesSet>)
    ensures AnonImportPass([], deps, st) == (Cleaned(deps), st)
    decreases |deps|
  {
    if deps != [] {
      var d := deps[|deps| - 1];
      AnonImportPassIdle(deps[..|deps| - 1], st);
      AnonIdle(d.file);
      AN.ImportKeeps([], d.file);
      StmtsIdle(AN.ImportHooks([], d.file), AN.ReboundRel([], d.file), d.content, st, false);
    }
  }

  lemma {:induction false} AnonCallPassIdle(deps: seq<DepsFile>)
    ensures AnonCallPass([], deps) == Cleaned(deps)
    decreases |deps|
  {
    if deps != [] {
      var d := deps[|deps| - 1];
      AnonCallPassIdle(deps[..|deps| - 1]);
      AnonIdle(d.file);
      StmtsIdle(AN.CallHooks([], d.file), Stateless(), d.content, (), false);
    }
  }

  // ------------------------------------------------ stage groups

  /** Rename mode on files that declare no name twice: every file is only
      re-printed and cleaned, and no "d_" name is issued. */
  lemma RenameWithoutDuplicates(cwd: seq<string>, deps: seq<DepsFile>, dup: nat)
    requires forall n :: |Occurrences(deps, n)| <= 1
    ensures RenameStages(cwd, deps, dup) == (Cleaned(deps), dup)
  {
    var c := CollectPass([], deps);
    forall n ensures !DU.IsDup(c.1, n) {
      CollectFiles([], deps, n);
    }
    CleanedTwice(deps);
    UpdatePassIdle(c.1, c.0, DU.UState(dup, []));
    CallPassIdle(c.0);
    ExportPassIdle(c.0, DR.EState(Some([]), false));
    ImportPassIdle(cwd, c.0, []);
  }

  lemma TidyCleaned(deps: seq<DepsFile>)
    requires Tidy(deps)
    ensures Cleaned(deps) == deps
  {
    forall i | 0 <= i < |deps| ensures Cleaned(deps)[i] == deps[i] {
      DropTopEmptyNoop(deps[i].content);
    }
  }

  /** As src/lib/bundle/index.ts wires rename mode, the stages after `call`
      change nothing: the export visitor searches two empty lists, so
      `exportNameMap` stays empty and the import visitor finds nothing. */
  lemma ExportWiringAsWritten(cwd: seq<string>, deps: seq<DepsFile>, dup: nat)
    ensures RenameStagesAsWritten(cwd, deps, dup) == Success((ThroughCall(deps, dup).0, ThroughCall(deps, dup).1.count))
  {
    var t := ThroughCall(deps, dup);
    TidyCleaned(t.0);
    ExportPassIdle(t.0, DR.EState(None, false));
    ImportPassIdle(cwd, t.0, []);
  }

  /** The export stage as its parameters intend it: `export { b }` in a file
      whose `b` was renamed exports the new name, and the rename is recorded
      in `exportNameMap` under the file's key. */
  lemma ExportStageRenames(calls: seq<NamesSet>, file: string, b: string, rest: map<string, string>, log: seq<NamesSet>)
    requires FindBaseFile(calls, b, file).Some? && FindBaseFile(calls, b, file).value.newName != ""
    ensures var n := FindBaseFile(calls, b, file).value.newName;
            ExportPass(calls, [], [DepsFile(file, [ExportDecl(false, Some([ExportSpec(None, b)]), None)], rest)], DR.EState(Some(log), false))
            == ([DepsFile(file, [ExportDecl(false, Some([ExportSpec(None, n)]), None)], rest)],
                DR.EState(Some(log + [NamesSet(b, Paths.FileKey(file), n, false)]), false))
  {
    var n := FindBaseFile(calls, b, file).value.newName;
    var s := ExportDecl(false, Some([ExportSpec(None, b)]), None);
    var s2 := ExportDecl(false, Some([ExportSpec(None, n)]), None);
    var st := DR.EState(Some(log), false);
    var st2 := DR.EState(Some(log + [NamesSet(b, Paths.FileKey(file), n, false)]), false);
    var h := DR.ExportHooks(calls, [], file);
    DR.ExportKeeps(calls, [], file);
    DR.ExportSpecRecorded(calls, [], file, b, log);
    assert h.stmt(s, st, false) == (st2, Some([s2]));
    StmtsOneHooked(h, DR.PushedRel(calls, file), s, st, false);
    assert DR.ExportFile(calls, [], file, [s], st) == ([s2], st2);
    var d := DepsFile(file, [s], rest);
    assert [d][..0] == [];
    DropTopEmptyNoop([s2]);
    assert Created(d, [s2]) == DepsFile(file, [s2], rest);
    assert ExportPass(calls, [], [d], st) == ([] + [Created(d, [s2])], st2);
    assert [] + [Created(d, [s2])] == [DepsFile(file, [s2], rest)];
  }

  /** As src/lib/bundle/index.ts wires anonymous naming, the import visitor
      searches the (empty) list it is also filling, so neither it nor the call
      visitor after it changes anything: only the export stage acts. */
  lemma AnonymousWiringAsWritten(deps: seq<DepsFile>, anon: nat)
    ensures var x := AnonExportPass(deps, AN.XState(anon, []));
            AnonymousStagesAsWritten(deps, anon) == (x.0, x.1.count)
  {
    var x := AnonExportPass(deps, AN.XState(anon, []));
    TidyCleaned(x.0);
    AnonImportPassIdle(x.0, []);
    AnonCallPassIdle(x.0);
  }

  /** The import stage as its parameters intend it: a default import of a
      module whose anonymous default export was named takes that name, and
      the rebinding is recorded for the call stage. */
  lemma AnonymousImportRebinds(exported: seq<NamesSet>, file: string, c: ImportClause, spec: Spec, rest: map<string, string>)
    requires c.default.Some? && FindFile(exported, AN.ImportKey(spec)).Some?
    ensures var m := FindFile(exported, AN.ImportKey(spec)).value;
            AnonImportPass(exported, [DepsFile(file, [Import(Some(c), spec)], rest)], [])
            == ([DepsFile(file, [Import(Some(ImportClause(c.isTypeOnly, Some(m.newName), c.bindings)), spec)], rest)],
                [NamesSet(c.default.value, file, m.newName, true)])
  {
    var m := FindFile(exported, AN.ImportKey(spec)).value;
    var s2 := Import(Some(ImportClause(c.isTypeOnly, Some(m.newName), c.bindings)), spec);
    var e := NamesSet(c.default.value, file, m.newName, true);
    AN.DefaultImportRebound(exported, file, c, spec, []);
    assert AN.ImportFile(exported, file, [Import(Some(c), spec)], []) == ([s2], [] + [e]);
    assert [] + [e] == [e];
    var d := DepsFile(file, [Import(Some(c), spec)], rest);
    assert [d][..0] == [];
    DropTopEmptyNoop([s2]);
    assert Created(d, [s2]) == DepsFile(file, [s2], rest);
    assert AnonImportPass(exported, [d], []) == ([] + [Created(d, [s2])], [e]);
    assert [] + [Created(d, [s2])] == [DepsFile(file, [s2], rest)];
  }

  // ------------------------------------------- the filter of removed imports

  /** A prefix without quotes sees through a closing quote. */
  lemma StartsWithBeforeQuote(m: string, q: char, post: string, pfx: string)
    requires IsQuoteChar(q) && NoQuote(pfx)
    ensures StartsWith(m + [q] + post, pfx) <==> StartsWith(m, pfx)
  {
    var s := m + [q] + post;
    if |m| < |pfx| {
      if |pfx| <= |s| {
        assert s[..|pfx|][|m|] == q;
        assert !IsQuoteChar(pfx[|m|]);
      }
    } else {
      assert s[..|pfx|] == m[..|pfx|];
    }
  }

  /** A text with exactly two quotes passes the filter exactly when the
      quoted part is not empty and does not start with ./ or ../. */
  lemma ExternalIff(pre: string, q1: char, m: string, q2: char, post: string)
    requires NoQuote(pre) && NoQuote(m) && NoQuote(post)
    requires IsQuoteChar(q1) && IsQuoteChar(q2)
    ensures IsExternal(pre + [q1] + m + [q2] + post) <==> m != [] && !StartsWith(m, "./") && !StartsWith(m, "../")
  {
    var s := pre + [q1] + m + [q2] + post;
    var p, p2 := |pre|, |pre| + 1 + |m|;
    assert s[p] == q1 && s[p2] == q2;
    assert forall k :: 0 <= k < |s| && k != p && k != p2 ==> !IsQuoteChar(s[k]) by {
      forall k | 0 <= k < |s| && k != p && k != p2 ensures !IsQuoteChar(s[k]) {
        if k < p { assert s[k] == pre[k]; }
        else if k < p2 { assert s[k] == m[k - p - 1]; }
        else { assert s[k] == post[k - p2 - 1]; }
      }
    }
    assert s[p + 1..] == m + [q2] + post;
    StartsWithBeforeQuote(m, q2, post, "./");
    StartsWithBeforeQuote(m, q2, post, "../");
    if m != [] && !StartsWith(m, "./") && !StartsWith(m, "../") {
      assert ClosesAt(s, p, p2);
      assert MatchesAt(s, p);
    }
    if IsExternal(s) {
      var i :| 0 <= i < |s| && MatchesAt(s, i);
      var j :| i + 1 < j < |s| && ClosesAt(s, i, j);
      assert i == p || i == p2;
      assert j == p || j == p2;
      if i == p2 {
        assert false;
      }
      assert j == p2;
    }
  }

  /** The printed import of a bare specifier is kept by the filter, that of a
      relative one (./, ../) or of an empty one is dropped. */
  lemma ImportTextExternal(clause: Option<ImportClause>, t: string, q: char)
    requires IsQuoteChar(q) && NoQuote(t)
    requires clause.Some? ==> NoQuote(ClauseText(clause.value))
    ensures IsExternal(ImportText(clause, StrSpec(t, q))) <==> t != [] && !StartsWith(t, "./") && !StartsWith(t, "../")
  {
    var pre := ImportHead(clause);
    ImportHeadNoQuote(clause);
    ImportTextSplit(clause, t, q);
    assert NoQuote(";");
    ExternalIff(pre, q, t, q, ";");
  }

  /** The text of an import before its specifier. */
  function ImportHead(clause: Option<ImportClause>): string {
    if clause.Some? then "import " + ClauseText(clause.value) + " from " else "import "
  }

  lemma ImportTextSplit(clause: Option<ImportClause>, t: string, q: char)
    ensures ImportText(clause, StrSpec(t, q)) == ImportHead(clause) + [q] + t + [q] + ";"
  {
    assert SpecText(StrSpec(t, q)) == [q] + t + [q];
  }

  lemma ImportHeadNoQuote(clause: Option<ImportClause>)
    requires clause.Some? ==> NoQuote(ClauseText(clause.value))
    ensures NoQuote(ImportHead(clause))
  {
    var pre := ImportHead(clause);
    if clause.Some? {
      var ct := ClauseText(clause.value);
      assert pre == "import " + ct + " from ";
      forall k | 0 <= k < |pre| ensures !IsQuoteChar(pre[k]) {
        if 7 <= k < 7 + |ct| { assert pre[k] == ct[k - 7]; }
      }
    }
  }

  // ---------------------------------------------------- entry and assembly

  /** Exports are taken out of every file but the last; the entry file goes
      through untouched and last. */
  lemma EntryKeepsExports(deps: seq<DepsFile>)
    requires deps != []
    ensures SplitEntry(deps).1 == [deps[|deps| - 1]]
    ensures |SplitEntry(deps).0| == |deps| - 1
    ensures forall i :: 0 <= i < |deps| - 1 ==>
              SplitEntry(deps).0[i] == Created(deps[i], RE.RemoveExportsFile(deps[i].content))
  {
  }

  /** A dependency file whose declarations sit at the top level carries no
      export syntax after the stage. */
  lemma DependencyExportsGone(deps: seq<DepsFile>, i: nat)
    requires i < |deps| - 1 && RE.ModuleBody(deps[i].content)
    ensures forall s :: s in SplitEntry(deps).0[i].content ==>
              && !s.ExportDecl?
              && (s.ExportAssign? ==> !s.expr.Id?)
              && (RE.Strippable(s) ==> !RE.Exported(s))
  {
    var r := RE.RemoveExportsFile(deps[i].content);
    RE.NothingExportedLeft(deps[i].content);
    forall s | s in SplitEntry(deps).0[i].content
      ensures && !s.ExportDecl? && (s.ExportAssign? ==> !s.expr.Id?) && (RE.Strippable(s) ==> !RE.Exported(s))
    {
      assert s in r;
      var k :| 0 <= k < |r| && r[k] == s;
    }
  }

  /** The parts of one section begin and end with a non-space character. */
  predicate EdgesTrimmed(parts: seq<string>) {
    && parts != [] && parts[0] != [] && parts[|parts| - 1] != []
    && !IsJsSpace(parts[0][0]) && !IsJsSpace(parts[|parts| - 1][|parts[|parts| - 1]| - 1])
  }

  /** The imports, the dependency blocks and the entry blocks, each section
      joined by newlines and the three sections on their own lines: trimming
      removes nothing when each section begins and ends with a non-space. */
  lemma AssembleShape(imports: seq<string>, deps: seq<string>, entry: seq<string>)
    requires EdgesTrimmed(imports) && EdgesTrimmed(deps) && EdgesTrimmed(entry)
    ensures Assemble(imports, deps, entry)
         == Join(imports, "\n") + "\n" + Join(deps, "\n") + "\n" + Join(entry, "\n")
  {
    SectionUntrimmed(imports);
    SectionUntrimmed(deps);
    SectionUntrimmed(entry);
  }

  lemma SectionUntrimmed(parts: seq<string>)
    requires EdgesTrimmed(parts)
    ensures Trim(Join(parts, "\n")) == Join(parts, "\n")
  {
    JoinFirst(parts, "\n");
    JoinLast(parts, "\n");
    TrimOfTrimmed(Join(parts, "\n"));
  }
}
