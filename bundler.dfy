// src/lib/bundle/index.ts: `bundler`, the fixed sequence of stages that
// turns one entry point's dependency files (entry file last) into a single
// text, and `bundle`, which runs it for every point of the configuration in
// order. Every stage maps a per-file handler over all files before the next
// stage starts; the handler re-prints the file and drops its `;` lines
// (BundleCreator). The name lists the stages share are local to one call;
// the two name sources ("d_" for duplicates, "a_" for anonymous defaults)
// live at module level and keep counting from call to call.
module Bundler {
  import opened Wrappers
  import opened Text
  import opened Ast
  import opened Records
  import opened Walk
  import opened BundleCreator
  import Paths
  import DC = DuplicateCollect
  import DU = DuplicateUpdate
  import DR = DuplicateRefs
  import AN = Anonymous
  import RI = RemoveImports
  import RE = RemoveExports
  import MI = MergeImports

  // --------------------------------------------------------------- inputs

  /** A plugin of the point: a dependency plugin rewrites the file records
      before the stages, a pre-process plugin rewrites the bundled text;
      other kinds act elsewhere. */
  datatype Plugin =
    | DependencyPlugin(onFiles: seq<DepsFile> -> seq<DepsFile>)
    | PreProcessPlugin(onText: string -> string)
    | OtherPlugin

  /** The fields of a collated point that `bundler` reads. */
  datatype Point = Point(depFiles: seq<DepsFile>, rename: bool, plugins: seq<Plugin>)

  /** One point's result: the bundled text, or the exit the duplicate check
      forces, with the warnings printed before it. */
  datatype Outcome = Bundled(content: string) | Exit(code: int, warnings: seq<string>)

  /** How many names each module-level name source has issued. */
  datatype Counters = Counters(dup: nat, anon: nat)

  /** `process.cwd()`: the absolute path of the working directory. */
  function CwdText(cwd: seq<string>): string {
    Paths.Format(Paths.Path(true, cwd))
  }

  // -------------------------------------------------------------- plugins

  /** The dependency plugins, in list order. */
  function DependencyPlugins(ps: seq<Plugin>, deps: seq<DepsFile>): seq<DepsFile>
    decreases |ps|
  {
    if ps == [] then deps
    else
      var d := DependencyPlugins(ps[..|ps| - 1], deps);
      match ps[|ps| - 1]
      case DependencyPlugin(f) => f(d)
      case _ => d
  }

  /** The pre-process plugins, in list order. */
  function PreProcess(ps: seq<Plugin>, content: string): string
    decreases |ps|
  {
    if ps == [] then content
    else
      var c := PreProcess(ps[..|ps| - 1], content);
      match ps[|ps| - 1]
      case PreProcessPlugin(f) => f(c)
      case _ => c
  }

  // ------------------------------------------------------ one stage per file

  /** Every file re-printed and cleaned without a visitor change. */
  function Cleaned(deps: seq<DepsFile>): (r: seq<DepsFile>)
    ensures |r| == |deps|
    ensures forall i :: 0 <= i < |deps| ==> r[i] == Created(deps[i], deps[i].content)
    decreases |deps|
  {
    if deps == [] then []
    else
      var d := deps[|deps| - 1];
      Cleaned(deps[..|deps| - 1]) + [Created(d, d.content)]
  }

  /** Every file as a stage leaves it: no top-level empty statement. */
  predicate Tidy(deps: seq<DepsFile>) {
    forall i :: 0 <= i < |deps| ==> Empty !in deps[i].content
  }

  /** `duplicateCollectionVisitor`: each file's top-level names are added
      to `namesMap` under the file's path. */
  function CollectPass(m: DC.NamesMap, deps: seq<DepsFile>): (r: (seq<DepsFile>, DC.NamesMap))
    ensures r.0 == Cleaned(deps)
    decreases |deps|
  {
    if deps == [] then ([], m)
    else
      var d := deps[|deps| - 1];
      var front := CollectPass(m, deps[..|deps| - 1]);
      (front.0 + [Created(d, d.content)], DC.RecordAll(front.1, DC.FileNames(d.content), d.file))
  }

  /** `duplicateUpdateVisitor`: duplicated declarations renamed, with the
      shared counter and `callNameMap` threaded from file to file. */
  function UpdatePass(m: DC.NamesMap, deps: seq<DepsFile>, st: DU.UState): (r: (seq<DepsFile>, DU.UState))
    ensures |r.0| == |deps|
    ensures st.log <= r.1.log && st.count <= r.1.count
    decreases |deps|
  {
    if deps == [] then ([], st)
    else
      var d := deps[|deps| - 1];
      var front := UpdatePass(m, deps[..|deps| - 1], st);
      var u := DU.UpdateFile(m, d.file, d.content, front.1);
      (front.0 + [Created(d, u.0)], u.1)
  }

  /** `duplicateCallExpressionVisitor` with (`callNameMap`, `importNameMap`). */
  function CallPass(calls: seq<NamesSet>, imports: seq<NamesSet>, deps: seq<DepsFile>): (r: seq<DepsFile>)
    ensures |r| == |deps|
    ensures Tidy(r)
    decreases |deps|
  {
    if deps == [] then []
    else
      var d := deps[|deps| - 1];
      CallPass(calls, imports, deps[..|deps| - 1]) + [Created(d, DR.CallFile(calls, imports, d.file, d.content))]
  }

  /** `duplicateExportExpressionVisitor` with its three list slots. */
  function ExportPass(calls: seq<NamesSet>, imports: seq<NamesSet>, deps: seq<DepsFile>, st: DR.EState): (r: (seq<DepsFile>, DR.EState))
    ensures |r.0| == |deps|
    ensures st.exportMap.Some? ==> r.1.exportMap.Some? && r.1.thrown == st.thrown && st.exportMap.value <= r.1.exportMap.value
    ensures st.exportMap.None? ==> r.1.exportMap.None?
    decreases |deps|
  {
    if deps == [] then ([], st)
    else
      var d := deps[|deps| - 1];
      var front := ExportPass(calls, imports, deps[..|deps| - 1], st);
      var x := DR.ExportFile(calls, imports, d.file, d.content, front.1);
      (front.0 + [Created(d, x.0)], x.1)
  }

  /** `duplicateImportExpressionVisitor` with (`exportNameMap`, `importNameMap`). */
  function ImportPass(cwd: seq<string>, exports: seq<NamesSet>, deps: seq<DepsFile>, log: seq<NamesSet>): (r: (seq<DepsFile>, seq<NamesSet>))
    ensures |r.0| == |deps|
    ensures log <= r.1
    decreases |deps|
  {
    if deps == [] then ([], log)
    else
      var d := deps[|deps| - 1];
      var front := ImportPass(cwd, exports, deps[..|deps| - 1], log);
      var x := DR.ImportFile(cwd, exports, d.file, d.content, front.1);
      (front.0 + [Created(d, x.0)], x.1)
  }

  /** `anonymousExportVisitor` with `exportDefaultExportNameMap`. */
  function AnonExportPass(deps: seq<DepsFile>, st: AN.XState): (r: (seq<DepsFile>, AN.XState))
    ensures |r.0| == |deps|
    ensures Tidy(r.0)
    decreases |deps|
  {
    if deps == [] then ([], st)
    else
      var d := deps[|deps| - 1];
      var front := AnonExportPass(deps[..|deps| - 1], st);
      var x := AN.ExportFile(AN.VisitorPrefix, d.file, d.content, front.1);
      (front.0 + [Created(d, x.0)], x.1)
  }

  /** `anonymousImportVisitor` reading `exported` and appending to its
      second list. */
  function AnonImportPass(exported: seq<NamesSet>, deps: seq<DepsFile>, st: seq<NamesSet>): (r: (seq<DepsFile>, seq<NamesSet>))
    ensures |r.0| == |deps|
    decreases |deps|
  {
    if deps == [] then ([], st)
    else
      var d := deps[|deps| - 1];
      var front := AnonImportPass(exported, deps[..|deps| - 1], st);
      var x := AN.ImportFile(exported, d.file, d.content, front.1);
      (front.0 + [Created(d, x.0)], x.1)
  }

  /** `anonymousCallExpressionVisitor` with `exportDefaultImportNameMap`. */
  function AnonCallPass(imported: seq<NamesSet>, deps: seq<DepsFile>): (r: seq<DepsFile>)
    ensures |r| == |deps|
    decreases |deps|
  {
    if deps == [] then []
    else
      var d := deps[|deps| - 1];
      AnonCallPass(imported, deps[..|deps| - 1]) + [Created(d, AN.CallFile(imported, d.file, d.content))]
  }

  /** The import-removing handler, appending to `removedStatements`. */
  function RemoveImportsPass(deps: seq<DepsFile>, removed: seq<string>): (r: (seq<DepsFile>, seq<string>))
    ensures |r.0| == |deps|
    ensures removed <= r.1
    decreases |deps|
  {
    if deps == [] then ([], removed)
    else
      var d := deps[|deps| - 1];
      var front := RemoveImportsPass(deps[..|deps| - 1], removed);
      var x := RI.RemoveImportsFile(d, front.1);
      (front.0 + [x.0], x.1)
  }

  /** `removeExportsVisitor` over some files. */
  function RemoveExportsEach(deps: seq<DepsFile>): (r: seq<DepsFile>)
    ensures |r| == |deps|
    ensures forall i :: 0 <= i < |deps| ==> r[i] == Created(deps[i], RE.RemoveExportsFile(deps[i].content))
    decreases |deps|
  {
    if deps == [] then []
    else
      var d := deps[|deps| - 1];
      RemoveExportsEach(deps[..|deps| - 1]) + [Created(d, RE.RemoveExportsFile(d.content))]
  }

  /** `depsFiles.slice(0, -1).map(removeExport)` and `depsFiles.slice(-1)`. */
  function SplitEntry(deps: seq<DepsFile>): (r: (seq<DepsFile>, seq<DepsFile>))
  {
    if deps == [] then ([], [])
    else (RemoveExportsEach(deps[..|deps| - 1]), [deps[|deps| - 1]])
  }

  // ------------------------------------------------------- the stage groups

  /** Rename mode up to and including the call stage: collect, update,
      call. Returns the files and the update visitor's state (the "d_"
      counter and `callNameMap`). */
  function ThroughCall(deps: seq<DepsFile>, dup: nat): (r: (seq<DepsFile>, DU.UState))
    ensures |r.0| == |deps|
    ensures dup <= r.1.count
  {
    var c := CollectPass([], deps);
    var u := UpdatePass(c.1, c.0, DU.UState(dup, []));
    (CallPass(u.1.log, [], u.0), u.1)
  }

  /** Rename mode: collect, update, call, export, import, export, export,
      each over every file. The lists go where each visitor's parameters
      say: the export visitor gets (`callNameMap`, `importNameMap`,
      `exportNameMap`). Returns the files and the "d_" counter. */
  function RenameStages(cwd: seq<string>, deps: seq<DepsFile>, dup: nat): (r: (seq<DepsFile>, nat))
    ensures |r.0| == |deps|
    ensures dup <= r.1
  {
    var t := ThroughCall(deps, dup);
    var calls := t.1.log;
    var e1 := ExportPass(calls, [], t.0, DR.EState(Some([]), false));
    var i := ImportPass(cwd, e1.1.exportMap.value, e1.0, []);
    var e2 := ExportPass(calls, i.1, i.0, e1.1);
    var e3 := ExportPass(calls, i.1, e2.0, e2.1);
    (e3.0, t.1.count)
  }

  /** Rename mode as src/lib/bundle/index.ts:82-113 wires it: the export
      visitor gets (`importNameMap`, `exportNameMap`) in its call and import
      slots and nothing in its third, so a hit would throw. */
  function RenameStagesAsWritten(cwd: seq<string>, deps: seq<DepsFile>, dup: nat): (r: Result<(seq<DepsFile>, nat), string>)
  {
    var t := ThroughCall(deps, dup);
    var importNameMap: seq<NamesSet> := [];
    var exportNameMap: seq<NamesSet> := [];
    var e1 := ExportPass(importNameMap, exportNameMap, t.0, DR.EState(None, false));
    var i := ImportPass(cwd, exportNameMap, e1.0, importNameMap);
    var e2 := ExportPass(i.1, exportNameMap, i.0, e1.1);
    var e3 := ExportPass(i.1, exportNameMap, e2.0, e2.1);
    if e3.1.thrown then Failure("push to an undefined exportNameMap") else Success((e3.0, t.1.count))
  }

  /** One warning block per name with more than one declaring file. */
  function EntryWarnings(e: DC.Entry): (r: seq<string>)
    ensures |e.files| > 1 <==> r != []
  {
    if |e.files| > 1 then ["Name -> " + e.name + " declared in multiple files :"] + FileLines(e.files) else []
  }

  function FileLines(files: seq<string>): (r: seq<string>)
    ensures |r| == |files|
    ensures forall i :: 0 <= i < |files| ==> r[i] == "  - " + files[i]
  {
    if files == [] then [] else ["  - " + files[0]] + FileLines(files[1..])
  }

  /** `namesMap.forEach`, in insertion order. */
  function Warnings(m: DC.NamesMap): seq<string>
    decreases |m|
  {
    if m == [] then [] else Warnings(m[..|m| - 1]) + EntryWarnings(m[|m| - 1])
  }

  predicate HasDuplicate(m: DC.NamesMap) {
    exists i :: 0 <= i < |m| && |m[i].files| > 1
  }

  /** No-rename mode: the collector's output is discarded; what it recorded
      decides whether the process exits. */
  function NoRenameWarnings(deps: seq<DepsFile>): seq<string> {
    Warnings(CollectPass([], deps).1)
  }

  /** Anonymous naming: export, import, call. The import visitor reads the
      export visitor's list, as its parameters say. Returns the files and the
      "a_" counter. */
  function AnonymousStages(deps: seq<DepsFile>, anon: nat): (r: (seq<DepsFile>, nat))
    ensures |r.0| == |deps|
  {
    var x := AnonExportPass(deps, AN.XState(anon, []));
    var i := AnonImportPass(x.1.exported, x.0, []);
    (AnonCallPass(i.1, i.0), x.1.count)
  }

  /** Anonymous naming as src/lib/bundle/index.ts:168-174 wires it: the
      import visitor gets `exportDefaultImportNameMap` in both slots. */
  function AnonymousStagesAsWritten(deps: seq<DepsFile>, anon: nat): (r: (seq<DepsFile>, nat))
    ensures |r.0| == |deps|
  {
    var x := AnonExportPass(deps, AN.XState(anon, []));
    var i := AnonImportPass([], x.0, []);
    (AnonCallPass(i.1, i.0), x.1.count)
  }

  // ------------------------------------------- the filter of removed imports

  predicate IsQuoteChar(c: char) {
    c == '"' || c == '\''
  }

  predicate NoQuote(s: string) {
    forall k :: 0 <= k < |s| ==> !IsQuoteChar(s[k])
  }

  /** A run of non-quote characters from i + 1 is closed by a quote at j. */
  predicate ClosesAt(s: string, i: int, j: int) {
    0 <= i && i + 1 < j < |s| && IsQuoteChar(s[j]) && forall k :: i < k < j ==> !IsQuoteChar(s[k])
  }

  /** /["']((?!\.\/|\.\.\/)[^"']+)["']/ matches from position i. */
  predicate MatchesAt(s: string, i: int) {
    && 0 <= i < |s| && IsQuoteChar(s[i])
    && !StartsWith(s[i + 1..], "./") && !StartsWith(s[i + 1..], "../")
    && exists j :: i + 1 < j < |s| && ClosesAt(s, i, j)
  }

  /** `regexp.test(i)`: a quoted string that does not start with ./ or ../. */
  predicate IsExternal(s: string) {
    exists i :: 0 <= i < |s| && MatchesAt(s, i)
  }

  function External(removed: seq<string>): (r: seq<string>)
    ensures |r| <= |removed|
    ensures forall x :: x in r <==> x in removed && IsExternal(x)
    decreases |removed|
  {
    if removed == [] then []
    else
      var x := removed[|removed| - 1];
      External(removed[..|removed| - 1]) + (if IsExternal(x) then [x] else [])
  }

  // -------------------------------------------------------------- assembly

  /** `//<path relative to cwd>` and the file's text. */
  function Block(cwd: seq<string>, printer: seq<Stmt> -> string, d: DepsFile): string {
    "//" + Paths.Relative(cwd, CwdText(cwd), d.file) + "\n" + Clean(printer(d.content))
  }

  function Blocks(cwd: seq<string>, printer: seq<Stmt> -> string, deps: seq<DepsFile>): (r: seq<string>)
    ensures |r| == |deps|
    ensures forall i :: 0 <= i < |deps| ==> r[i] == Block(cwd, printer, deps[i])
  {
    if deps == [] then [] else [Block(cwd, printer, deps[0])] + Blocks(cwd, printer, deps[1..])
  }

  /** Imports, dependencies, entry: each trimmed, separated by newlines. */
  function Assemble(imports: seq<string>, deps: seq<string>, entry: seq<string>): string {
    Trim(Join(imports, "\n")) + "\n" + Trim(Join(deps, "\n")) + "\n" + Trim(Join(entry, "\n"))
  }

  // ---------------------------------------------------------------- bundler

  /** The stages after anonymous naming: imports taken out, exports taken
      out of every file but the entry, the external imports merged, the
      text assembled and handed to the pre-process plugins. */
  function Finish(cwd: seq<string>, printer: seq<Stmt> -> string, plugins: seq<Plugin>, deps: seq<DepsFile>): string {
    var d := RemoveImportsPass(deps, []);
    var split := SplitEntry(d.0);
    var imports := MI.Merged(External(d.1));
    PreProcess(plugins, Assemble(imports, Blocks(cwd, printer, split.0), Blocks(cwd, printer, split.1)))
  }

  /** `bundler(point)`: the outcome and the name sources' counters after it.
      `printer` is the TypeScript printer; `cwd` the working directory. */
  function BundleSpec(cwd: seq<string>, printer: seq<Stmt> -> string, point: Point, c: Counters): (r: (Outcome, Counters))
    ensures r.0.Exit? ==> r.1 == c && r.0.code == 1 && !point.rename
    ensures !point.rename ==> (r.0.Exit? <==> HasDuplicate(CollectPass([], DependencyPlugins(point.plugins, point.depFiles)).1))
  {
    var d0 := DependencyPlugins(point.plugins, point.depFiles);
    var w := NoRenameWarnings(d0);
    WarningsIffDuplicate(CollectPass([], d0).1);
    if !point.rename && w != [] then (Exit(1, w), c)
    else
      var d1 := if point.rename then RenameStages(cwd, d0, c.dup) else (d0, c.dup);
      var d2 := AnonymousStages(d1.0, c.anon);
      (Bundled(Finish(cwd, printer, point.plugins, d2.0)), Counters(d1.1, d2.1))
  }

  /** One point's step of `bundle`. */
  function Step(cwd: seq<string>, printer: seq<Stmt> -> string): (Point, Counters) -> (Outcome, Counters) {
    (p, c) => BundleSpec(cwd, printer, p, c)
  }

  /** The points in order, each from the counters the previous one left;
      an exit ends the run. */
  function Sequenced(step: (Point, Counters) -> (Outcome, Counters), points: seq<Point>, c: Counters): (r: (seq<Outcome>, Counters))
    ensures |r.0| <= |points|
    ensures forall i :: 0 <= i < |r.0| - 1 ==> !r.0[i].Exit?
    ensures |r.0| < |points| ==> r.0 != [] && r.0[|r.0| - 1].Exit?
    ensures points != [] ==> r.0 != []
    decreases |points|
  {
    if points == [] then ([], c)
    else
      var first := step(points[0], c);
      if first.0.Exit? then ([first.0], first.1)
      else
        var rest := Sequenced(step, points[1..], first.1);
        ([first.0] + rest.0, rest.1)
  }

  /** `bundle`: the points in configuration order, the counters carried from
      one to the next; an exit ends the run. */
  function BundleAll(cwd: seq<string>, printer: seq<Stmt> -> string, points: seq<Point>, c: Counters): (r: (seq<Outcome>, Counters)) {
    Sequenced(Step(cwd, printer), points, c)
  }

  // ------------------------------------------------------- the loops, as run

  method RunDependencyPlugins(ps: seq<Plugin>, deps: seq<DepsFile>) returns (out: seq<DepsFile>)
    ensures out == DependencyPlugins(ps, deps)
  {
    out := deps;
    for i := 0 to |ps|
      invariant out == DependencyPlugins(ps[..i], deps)
    {
      assert ps[..i + 1][..i] == ps[..i];
      match ps[i]
      case DependencyPlugin(f) => out := f(out);
      case _ =>
    }
    assert ps[..|ps|] == ps;
  }

  method RunPreProcess(ps: seq<Plugin>, content: string) returns (out: string)
    ensures out == PreProcess(ps, content)
  {
    out := content;
    for i := 0 to |ps|
      invariant out == PreProcess(ps[..i], content)
    {
      assert ps[..i + 1][..i] == ps[..i];
      match ps[i]
      case PreProcessPlugin(f) => out := f(out);
      case _ =>
    }
    assert ps[..|ps|] == ps;
  }

  method RunCollect(deps: seq<DepsFile>) returns (out: seq<DepsFile>, namesMap: DC.NamesMap)
    ensures (out, namesMap) == CollectPass([], deps)
  {
    out, namesMap := [], [];
    for i := 0 to |deps|
      invariant (out, namesMap) == CollectPass([], deps[..i])
    {
      assert deps[..i + 1][..i] == deps[..i];
      var d := deps[i];
      out := out + [Created(d, d.content)];
      namesMap := DC.RecordAll(namesMap, DC.FileNames(d.content), d.file);
    }
    assert deps[..|deps|] == deps;
  }

  method RunUpdate(m: DC.NamesMap, deps: seq<DepsFile>, dup: nat) returns (out: seq<DepsFile>, count: nat, callNameMap: seq<NamesSet>)
    ensures (out, DU.UState(count, callNameMap)) == UpdatePass(m, deps, DU.UState(dup, []))
  {
    out := [];
    var st := DU.UState(dup, []);
    for i := 0 to |deps|
      invariant (out, st) == UpdatePass(m, deps[..i], DU.UState(dup, []))
    {
      assert deps[..i + 1][..i] == deps[..i];
      var d := deps[i];
      var u := DU.UpdateFile(m, d.file, d.content, st);
      out, st := out + [Created(d, u.0)], u.1;
    }
    assert deps[..|deps|] == deps;
    count, callNameMap := st.count, st.log;
  }

  method RunCall(calls: seq<NamesSet>, imports: seq<NamesSet>, deps: seq<DepsFile>) returns (out: seq<DepsFile>)
    ensures out == CallPass(calls, imports, deps)
  {
    out := [];
    for i := 0 to |deps|
      invariant out == CallPass(calls, imports, deps[..i])
    {
      assert deps[..i + 1][..i] == deps[..i];
      var d := deps[i];
      out := out + [Created(d, DR.CallFile(calls, imports, d.file, d.content))];
    }
    assert deps[..|deps|] == deps;
  }

  method RunExport(calls: seq<NamesSet>, imports: seq<NamesSet>, deps: seq<DepsFile>, exportNameMap: seq<NamesSet>)
    returns (out: seq<DepsFile>, exportMap: seq<NamesSet>)
    ensures (out, DR.EState(Some(exportMap), false)) == ExportPass(calls, imports, deps, DR.EState(Some(exportNameMap), false))
  {
    out := [];
    var st := DR.EState(Some(exportNameMap), false);
    for i := 0 to |deps|
      invariant (out, st) == ExportPass(calls, imports, deps[..i], DR.EState(Some(exportNameMap), false))
      invariant st.exportMap.Some? && !st.thrown
    {
      assert deps[..i + 1][..i] == deps[..i];
      var d := deps[i];
      var x := DR.ExportFile(calls, imports, d.file, d.content, st);
      out, st := out + [Created(d, x.0)], x.1;
    }
    assert deps[..|deps|] == deps;
    exportMap := st.exportMap.value;
  }

  method RunImport(cwd: seq<string>, exports: seq<NamesSet>, deps: seq<DepsFile>, importNameMap: seq<NamesSet>)
    returns (out: seq<DepsFile>, importMap: seq<NamesSet>)
    ensures (out, importMap) == ImportPass(cwd, exports, deps, importNameMap)
  {
    out, importMap := [], importNameMap;
    for i := 0 to |deps|
      invariant (out, importMap) == ImportPass(cwd, exports, deps[..i], importNameMap)
    {
      assert deps[..i + 1][..i] == deps[..i];
      var d := deps[i];
      var x := DR.ImportFile(cwd, exports, d.file, d.content, importMap);
      out, importMap := out + [Created(d, x.0)], x.1;
    }
    assert deps[..|deps|] == deps;
  }

  method RunAnonExport(deps: seq<DepsFile>, anon: nat) returns (out: seq<DepsFile>, st: AN.XState)
    ensures (out, st) == AnonExportPass(deps, AN.XState(anon, []))
  {
    out, st := [], AN.XState(anon, []);
    for i := 0 to |deps|
      invariant (out, st) == AnonExportPass(deps[..i], AN.XState(anon, []))
    {
      assert deps[..i + 1][..i] == deps[..i];
      var d := deps[i];
      var x := AN.ExportFile(AN.VisitorPrefix, d.file, d.content, st);
      out, st := out + [Created(d, x.0)], x.1;
    }
    assert deps[..|deps|] == deps;
  }

  method RunAnonImport(exported: seq<NamesSet>, deps: seq<DepsFile>) returns (out: seq<DepsFile>, imported: seq<NamesSet>)
    ensures (out, imported) == AnonImportPass(exported, deps, [])
  {
    out, imported := [], [];
    for i := 0 to |deps|
      invariant (out, imported) == AnonImportPass(exported, deps[..i], [])
    {
      assert deps[..i + 1][..i] == deps[..i];
      var d := deps[i];
      var x := AN.ImportFile(exported, d.file, d.content, imported);
      out, imported := out + [Created(d, x.0)], x.1;
    }
    assert deps[..|deps|] == deps;
  }

  method RunAnonCall(imported: seq<NamesSet>, deps: seq<DepsFile>) returns (out: seq<DepsFile>)
    ensures out == AnonCallPass(imported, deps)
  {
    out := [];
    for i := 0 to |deps|
      invariant out == AnonCallPass(imported, deps[..i])
    {
      assert deps[..i + 1][..i] == deps[..i];
      var d := deps[i];
      out := out + [Created(d, AN.CallFile(imported, d.file, d.content))];
    }
    assert deps[..|deps|] == deps;
  }

  method RunRemoveImports(deps: seq<DepsFile>) returns (out: seq<DepsFile>, removedStatements: seq<string>)
    ensures (out, removedStatements) == RemoveImportsPass(deps, [])
  {
    out, removedStatements := [], [];
    for i := 0 to |deps|
      invariant (out, removedStatements) == RemoveImportsPass(deps[..i], [])
    {
      assert deps[..i + 1][..i] == deps[..i];
      var x := RI.RemoveImportsFile(deps[i], removedStatements);
      out, removedStatements := out + [x.0], x.1;
    }
    assert deps[..|deps|] == deps;
  }

  method RunRemoveExports(deps: seq<DepsFile>) returns (out: seq<DepsFile>)
    ensures out == RemoveExportsEach(deps)
  {
    out := [];
    for i := 0 to |deps|
      invariant out == RemoveExportsEach(deps[..i])
    {
      assert deps[..i + 1][..i] == deps[..i];
      out := out + [Created(deps[i], RE.RemoveExportsFile(deps[i].content))];
    }
    assert deps[..|deps|] == deps;
  }

  method FilterExternal(removed: seq<string>) returns (kept: seq<string>)
    ensures kept == External(removed)
  {
    kept := [];
    for i := 0 to |removed|
      invariant kept == External(removed[..i])
    {
      assert removed[..i + 1][..i] == removed[..i];
      if IsExternal(removed[i]) {
        kept := kept + [removed[i]];
      }
    }
    assert removed[..|removed|] == removed;
  }

  /** The warning lines of one entry of `namesMap`. */
  method WarnEntry(e: DC.Entry) returns (lines: seq<string>)
    ensures lines == EntryWarnings(e)
  {
    lines := [];
    if |e.files| > 1 {
      lines := ["Name -> " + e.name + " declared in multiple files :"];
      for j := 0 to |e.files|
        invariant lines == ["Name -> " + e.name + " declared in multiple files :"] + FileLines(e.files[..j])
      {
        FileLinesSnoc(e.files[..j], e.files[j]);
        assert e.files[..j + 1] == e.files[..j] + [e.files[j]];
        lines := lines + ["  - " + e.files[j]];
      }
      assert e.files[..|e.files|] == e.files;
    }
  }

  /** The `namesMap.forEach` loop of no-rename mode: the warnings and the
      `_err` flag. */
  method ReportDuplicates(m: DC.NamesMap) returns (warnings: seq<string>, err: bool)
    ensures warnings == Warnings(m)
    ensures err == HasDuplicate(m)
  {
    warnings, err := [], false;
    for i := 0 to |m|
      invariant warnings == Warnings(m[..i])
      invariant err == HasDuplicate(m[..i])
    {
      assert m[..i + 1] == m[..i] + [m[i]];
      DuplicateSnoc(m[..i], m[i]);
      var lines := WarnEntry(m[i]);
      warnings := warnings + lines;
      err := err || |m[i].files| > 1;
    }
    assert m[..|m|] == m;
  }

  // ------------------------------------------------------------ properties

  /** No-rename mode prints nothing and goes on exactly when no name has
      more than one declaring file. */
  lemma FileLinesSnoc(files: seq<string>, f: string)
    ensures FileLines(files + [f]) == FileLines(files) + ["  - " + f]
  {
  }

  lemma DuplicateSnoc(m: DC.NamesMap, e: DC.Entry)
    ensures HasDuplicate(m + [e]) <==> HasDuplicate(m) || |e.files| > 1
  {
    if HasDuplicate(m) {
      var i :| 0 <= i < |m| && |m[i].files| > 1;
      assert (m + [e])[i] == m[i];
    }
    if |e.files| > 1 {
      assert (m + [e])[|m|] == e;
    }
  }

  /** No-rename mode prints nothing and goes on exactly when no name has
      more than one declaring file. */
  lemma {:induction false} WarningsIffDuplicate(m: DC.NamesMap)
    ensures Warnings(m) == [] <==> !HasDuplicate(m)
    decreases |m|
  {
    if m != [] {
      var front := m[..|m| - 1];
      WarningsIffDuplicate(front);
      assert front + [m[|m| - 1]] == m;
      DuplicateSnoc(front, m[|m| - 1]);
    }
  }

  /** Rename mode, with its name lists as locals. */
  method RunRename(cwd: seq<string>, deps: seq<DepsFile>, dup: nat) returns (out: seq<DepsFile>, count: nat)
    ensures (out, count) == RenameStages(cwd, deps, dup)
  {
    var namesMap;
    out, namesMap := RunCollect(deps);
    var callNameMap;
    out, count, callNameMap := RunUpdate(namesMap, out, dup);
    var importNameMap: seq<NamesSet> := [];
    var exportNameMap: seq<NamesSet> := [];
    out := RunCall(callNameMap, importNameMap, out);
    out, exportNameMap := RunExport(callNameMap, importNameMap, out, exportNameMap);
    out, importNameMap := RunImport(cwd, exportNameMap, out, importNameMap);
    out, exportNameMap := RunExport(callNameMap, importNameMap, out, exportNameMap);
    out, exportNameMap := RunExport(callNameMap, importNameMap, out, exportNameMap);
  }

  /** The anonymous-naming stages, with their two lists as locals. */
  method RunAnonymous(deps: seq<DepsFile>, anon: nat) returns (out: seq<DepsFile>, count: nat)
    ensures (out, count) == AnonymousStages(deps, anon)
  {
    var st, imported;
    out, st := RunAnonExport(deps, anon);
    out, imported := RunAnonImport(st.exported, out);
    out := RunAnonCall(imported, out);
    count := st.count;
  }

  /** Removal, filtering, merging, assembly and the pre-process plugins. */
  method RunFinish(cwd: seq<string>, printer: seq<Stmt> -> string, plugins: seq<Plugin>, deps: seq<DepsFile>) returns (content: string)
    ensures content == Finish(cwd, printer, plugins, deps)
  {
    var depsFiles, removedStatements := RunRemoveImports(deps);
    var rest, entry := [], [];
    if depsFiles != [] {
      rest := RunRemoveExports(depsFiles[..|depsFiles| - 1]);
      entry := [depsFiles[|depsFiles| - 1]];
    }
    var external := FilterExternal(removedStatements);
    var imports := MI.MergeImports(external);
    content := Assemble(imports, Blocks(cwd, printer, rest), Blocks(cwd, printer, entry));
    content := RunPreProcess(plugins, content);
  }

  /** The loop of `bundle` after `rs` and before point i, one point further. */
  lemma SequencedStep(step: (Point, Counters) -> (Outcome, Counters), points: seq<Point>, i: nat, c: Counters, all: (seq<Outcome>, Counters), rs: seq<Outcome>)
    requires i < |points|
    requires all == (rs + Sequenced(step, points[i..], c).0, Sequenced(step, points[i..], c).1)
    ensures var first := step(points[i], c);
            if first.0.Exit? then all == (rs + [first.0], first.1)
            else all == ((rs + [first.0]) + Sequenced(step, points[i + 1..], first.1).0, Sequenced(step, points[i + 1..], first.1).1)
  {
    assert points[i..][0] == points[i];
    assert points[i..][1..] == points[i + 1..];
    var first := step(points[i], c);
    var rest := Sequenced(step, points[i + 1..], first.1);
    assert rs + ([first.0] + rest.0) == (rs + [first.0]) + rest.0;
  }

  /** The body of `bundler(point)`, from the counters `c` it starts with. */
  method RunPoint(cwd: seq<string>, printer: seq<Stmt> -> string, point: Point, c: Counters) returns (r: Outcome, after: Counters)
    ensures (r, after) == BundleSpec(cwd, printer, point, c)
  {
    var depsFiles := RunDependencyPlugins(point.plugins, point.depFiles);
    var dup := c.dup;
    if point.rename {
      depsFiles, dup := RunRename(cwd, depsFiles, dup);
    } else {
      var collected, namesMap := RunCollect(depsFiles);
      var warnings, err := ReportDuplicates(namesMap);
      WarningsIffDuplicate(namesMap);
      if err {
        return Exit(1, warnings), c;
      }
    }
    ghost var d1 := (depsFiles, dup);
    var anon;
    depsFiles, anon := RunAnonymous(depsFiles, c.anon);
    var content := RunFinish(cwd, printer, point.plugins, depsFiles);
    r, after := Bundled(content), Counters(dup, anon);
    SpecOfStages(cwd, printer, point, c, DependencyPlugins(point.plugins, point.depFiles), d1, (depsFiles, anon));
  }

  /** `BundleSpec` once the stages' results are known and no duplicate stops the run. */
  lemma SpecOfStages(cwd: seq<string>, printer: seq<Stmt> -> string, point: Point, c: Counters,
                     d0: seq<DepsFile>, d1: (seq<DepsFile>, nat), d2: (seq<DepsFile>, nat))
    requires d0 == DependencyPlugins(point.plugins, point.depFiles)
    requires point.rename || !HasDuplicate(CollectPass([], d0).1)
    requires d1 == if point.rename then RenameStages(cwd, d0, c.dup) else (d0, c.dup)
    requires d2 == AnonymousStages(d1.0, c.anon)
    ensures BundleSpec(cwd, printer, point, c) == (Bundled(Finish(cwd, printer, point.plugins, d2.0)), Counters(d1.1, d2.1))
  {
    WarningsIffDuplicate(CollectPass([], d0).1);
  }

  /** The module-level name sources of the visitors the bundler uses. */
  class NameSources {
    var dup: nat
    var anon: nat

    constructor()
      ensures dup == 0 && anon == 0
    {
      dup, anon := 0, 0;
    }

    /** `bundler(point)`. */
    method BundlePoint(cwd: seq<string>, printer: seq<Stmt> -> string, point: Point) returns (r: Outcome)
      modifies this
      ensures (r, Counters(dup, anon)) == BundleSpec(cwd, printer, point, Counters(old(dup), old(anon)))
    {
      var c;
      r, c := RunPoint(cwd, printer, point, Counters(dup, anon));
      dup, anon := c.dup, c.anon;
    }

    /** `bundle(object)`: the points one at a time, in order. */
    method Bundle(cwd: seq<string>, printer: seq<Stmt> -> string, points: seq<Point>) returns (rs: seq<Outcome>)
      modifies this
      ensures (rs, Counters(dup, anon)) == BundleAll(cwd, printer, points, Counters(old(dup), old(anon)))
    {
      rs := [];
      ghost var step := Step(cwd, printer);
      ghost var all := Sequenced(step, points, Counters(dup, anon));
      assert points[0..] == points;
      assert [] + all.0 == all.0;
      var i := 0;
      while i < |points|
        invariant 0 <= i <= |points|
        invariant all == (rs + Sequenced(step, points[i..], Counters(dup, anon)).0, Sequenced(step, points[i..], Counters(dup, anon)).1)
        decreases |points| - i
      {
        ghost var c := Counters(dup, anon);
        SequencedStep(step, points, i, c, all, rs);
        var o := BundlePoint(cwd, printer, points[i]);
        assert (o, Counters(dup, anon)) == step(points[i], c);
        rs := rs + [o];
        if o.Exit? {
          return;
        }
        i := i + 1;
      }
      assert points[i..] == [];
      assert rs + [] == rs;
    }
  }
}
