// `checkEntries` and the defaults of `getConfig` in src/lib/init/config.ts.
// Loading the configuration file is outside the model: the loaded
// configuration is a parameter, and whether an entry file exists on disk is
// the parameter `fileExists`. A failed check logs a message and exits the
// process with code 1; that is `Some(message)` from the check and
// `Failure(message)` from `getConfig`.
module Config {
  import opened Wrappers
  import opened Text

  datatype Format = CommonJs | Esm | Both

  /** A plugin is carried through unchanged. */
  datatype Plugin = Plugin(name: string)

  /** An entry as written in the configuration file: unset fields are `None`. */
  datatype EntryPoint = EntryPoint(entry: string, exportPath: string, format: Option<Format>,
                                   tsconfigFilePath: Option<string>, renameDuplicates: Option<bool>)

  datatype SuseeConfig = SuseeConfig(entryPoints: seq<EntryPoint>, outDir: Option<string>,
                                     plugins: Option<seq<Plugin>>, allowUpdatePackageJson: Option<bool>)

  /** An entry with its defaults applied. */
  datatype Point = Point(entry: string, exportPath: string, format: Format,
                         tsconfigFilePath: Option<string>, renameDuplicates: bool, outDir: string)

  datatype ConfigReturns = ConfigReturns(points: seq<Point>, plugins: seq<Plugin>, allowUpdatePackageJson: bool)

  // -------------------------------------------------------------- messages

  const NoEntryMessage := "No entry found in susee.config file, at least one entry required"

  function Quoted(v: string): string {
    "\"" + v + "\""
  }

  function DuplicateMessage(dups: seq<string>): string {
    "Duplicate export paths/path (" + Join(dups, ",") + ") found in your susee.config file , that will error for bundled output"
  }

  function MissingMessage(entry: string): string {
    "Entry file " + entry + " dose not exists."
  }

  // ------------------------------------------------------------ duplicates

  /** `duplicateExportPaths` after the loop: every value already stored in
      `objectStore` when it is met again, quoted, in order. */
  function Repeats(paths: seq<string>): (r: seq<string>)
    decreases |paths|
  {
    if paths == [] then []
    else
      var init := paths[..|paths| - 1];
      var v := paths[|paths| - 1];
      Repeats(init) + (if v in init then [Quoted(v)] else [])
  }

  lemma RepeatsSnoc(paths: seq<string>, v: string)
    ensures Repeats(paths + [v]) == Repeats(paths) + (if v in paths then [Quoted(v)] else [])
  {
    assert (paths + [v])[..|paths|] == paths;
  }

  function Elems(paths: seq<string>): set<string> {
    set v | v in paths
  }

  /** No repeat is reported exactly when the paths are pairwise distinct. */
  lemma {:induction false} RepeatsEmptyIff(paths: seq<string>)
    ensures Repeats(paths) == [] <==> Distinct(paths)
    decreases |paths|
  {
    if paths != [] {
      var init := paths[..|paths| - 1];
      var v := paths[|paths| - 1];
      RepeatsEmptyIff(init);
      if Distinct(paths) {
        assert forall i, j :: 0 <= i < j < |init| ==> init[i] == paths[i] && init[j] == paths[j];
        assert v !in init by {
          forall k | 0 <= k < |init| ensures init[k] != v {
            assert init[k] == paths[k];
          }
        }
      } else if v !in init && Distinct(init) {
        forall i, j | 0 <= i < j < |paths| ensures paths[i] != paths[j] {
          if j == |paths| - 1 {
            assert paths[i] == init[i];
          } else {
            assert paths[i] == init[i] && paths[j] == init[j];
          }
        }
        assert false;
      }
    }
  }

  /** Each path is either new or reported: the number of repeats is the
      number of entries minus the number of distinct paths. */
  lemma {:induction false} RepeatsCount(paths: seq<string>)
    ensures |Repeats(paths)| + |Elems(paths)| == |paths|
    decreases |paths|
  {
    if paths != [] {
      var init := paths[..|paths| - 1];
      var v := paths[|paths| - 1];
      RepeatsCount(init);
      assert paths == init + [v];
      assert Elems(paths) == Elems(init) + {v};
      if v in init {
        assert v in Elems(init);
        assert Elems(paths) == Elems(init);
      } else {
        assert v !in Elems(init);
      }
    }
  }

  /** A quoted path is reported exactly when the path occurs at least twice. */
  lemma {:induction false} RepeatsMembers(paths: seq<string>, v: string)
    ensures Quoted(v) in Repeats(paths) <==> multiset(paths)[v] >= 2
    decreases |paths|
  {
    if paths != [] {
      var init := paths[..|paths| - 1];
      var w := paths[|paths| - 1];
      RepeatsMembers(init, v);
      assert paths == init + [w];
      assert multiset(paths) == multiset(init) + multiset{w};
      QuotedInjective(v, w);
      if v == w {
        assert v in init <==> multiset(init)[v] >= 1;
      }
    }
  }

  lemma QuotedInjective(a: string, b: string)
    ensures Quoted(a) == Quoted(b) <==> a == b
  {
    if Quoted(a) == Quoted(b) {
      assert a == Quoted(a)[1..|Quoted(a)| - 1];
      assert b == Quoted(b)[1..|Quoted(b)| - 1];
    }
  }

  // ----------------------------------------------------------- existence

  /** The message for the first entry file that does not exist, if any. */
  function FirstMissing(files: seq<string>, fileExists: string -> bool): (r: Option<string>)
    ensures r.None? <==> forall i :: 0 <= i < |files| ==> fileExists(files[i])
    ensures r.Some? ==> exists i :: 0 <= i < |files| && !fileExists(files[i]) && r.value == MissingMessage(files[i])
                                    && forall j :: 0 <= j < i ==> fileExists(files[j])
  {
    if files == [] then None
    else if !fileExists(files[0]) then Some(MissingMessage(files[0]))
    else
      var r := FirstMissing(files[1..], fileExists);
      assert forall j :: 1 <= j < |files| ==> files[j] == files[1..][j - 1];
      r
  }

  /** The existence loop, shared by both versions of `checkEntries`. */
  method CheckExist(files: seq<string>, fileExists: string -> bool) returns (r: Option<string>)
    ensures r == FirstMissing(files, fileExists)
  {
    for i := 0 to |files|
      invariant FirstMissing(files, fileExists) == FirstMissing(files[i..], fileExists)
    {
      assert files[i..][1..] == files[i + 1..];
      if !fileExists(files[i]) {
        return Some(MissingMessage(files[i]));
      }
    }
    assert files[|files|..] == [];
    r := None;
  }

  // --------------------------------------------------------- checkEntries

  function ExportPaths(entries: seq<EntryPoint>): (r: seq<string>)
    ensures |r| == |entries| && forall i :: 0 <= i < |entries| ==> r[i] == entries[i].exportPath
  {
    seq(|entries|, i requires 0 <= i < |entries| => entries[i].exportPath)
  }

  function EntryFiles(entries: seq<EntryPoint>): (r: seq<string>)
    ensures |r| == |entries| && forall i :: 0 <= i < |entries| ==> r[i] == entries[i].entry
  {
    seq(|entries|, i requires 0 <= i < |entries| => entries[i].entry)
  }

  /** `checkEntries`: no entries, then repeated export paths, then the first
      missing entry file; `None` when every check passes. */
  function EntriesCheck(entries: seq<EntryPoint>, fileExists: string -> bool): (r: Option<string>)
    ensures r.None? <==> && entries != []
                         && Distinct(ExportPaths(entries))
                         && forall i :: 0 <= i < |entries| ==> fileExists(entries[i].entry)
    ensures entries == [] ==> r == Some(NoEntryMessage)
    ensures entries != [] && !Distinct(ExportPaths(entries))
            ==> r == Some(DuplicateMessage(Repeats(ExportPaths(entries))))
  {
    RepeatsEmptyIff(ExportPaths(entries));
    if entries == [] then Some(NoEntryMessage)
    else if Repeats(ExportPaths(entries)) != [] then Some(DuplicateMessage(Repeats(ExportPaths(entries))))
    else FirstMissing(EntryFiles(entries), fileExists)
  }

  method CheckEntries(entries: seq<EntryPoint>, fileExists: string -> bool) returns (r: Option<string>)
    ensures r == EntriesCheck(entries, fileExists)
  {
    if |entries| < 1 {
      return Some(NoEntryMessage);
    }
    var objectStore: set<string> := {};
    var duplicateExportPaths: seq<string> := [];
    ghost var paths := ExportPaths(entries);
    for i := 0 to |entries|
      invariant forall v :: v in objectStore <==> v in paths[..i]
      invariant duplicateExportPaths == Repeats(paths[..i])
    {
      assert paths[..i + 1] == paths[..i] + [paths[i]];
      var value := entries[i].exportPath;
      RepeatsSnoc(paths[..i], value);
      if value in objectStore {
        duplicateExportPaths := duplicateExportPaths + [Quoted(value)];
      } else {
        objectStore := objectStore + {value};
      }
    }
    assert paths[..|entries|] == paths;
    if |duplicateExportPaths| > 0 {
      return Some(DuplicateMessage(duplicateExportPaths));
    }
    r := CheckExist(EntryFiles(entries), fileExists);
  }

  // ------------------------------------------------------------ getConfig

  function PointOf(ent: EntryPoint, outDir: Option<string>): Point {
    Point(ent.entry, ent.exportPath, ent.format.GetOr(Esm), ent.tsconfigFilePath,
          ent.renameDuplicates.GetOr(true), outDir.GetOr("dist"))
  }

  function Points(entries: seq<EntryPoint>, outDir: Option<string>): (r: seq<Point>)
    ensures |r| == |entries|
    ensures forall i :: 0 <= i < |entries| ==> r[i] == PointOf(entries[i], outDir)
  {
    seq(|entries|, i requires 0 <= i < |entries| => PointOf(entries[i], outDir))
  }

  /** `getConfig` after the configuration is loaded. */
  function Loaded(config: SuseeConfig, fileExists: string -> bool): (r: Result<ConfigReturns, string>)
    ensures r.Success? <==> EntriesCheck(config.entryPoints, fileExists).None?
    ensures r.Failure? ==> EntriesCheck(config.entryPoints, fileExists) == Some(r.error)
  {
    match EntriesCheck(config.entryPoints, fileExists)
    case Some(message) => Failure(message)
    case None => Success(ConfigReturns(Points(config.entryPoints, config.outDir),
                                       config.plugins.GetOr([]),
                                       config.allowUpdatePackageJson.GetOr(true)))
  }

  method GetConfig(config: SuseeConfig, fileExists: string -> bool) returns (r: Result<ConfigReturns, string>)
    ensures r == Loaded(config, fileExists)
  {
    var check := CheckEntries(config.entryPoints, fileExists);
    if check.Some? {
      return Failure(check.value);
    }
    var points: seq<Point> := [];
    for i := 0 to |config.entryPoints|
      invariant points == Points(config.entryPoints[..i], config.outDir)
    {
      var ent := config.entryPoints[i];
      var point := Point(ent.entry, ent.exportPath, ent.format.GetOr(Esm), ent.tsconfigFilePath,
                         ent.renameDuplicates.GetOr(true), config.outDir.GetOr("dist"));
      points := points + [point];
    }
    assert config.entryPoints[..|config.entryPoints|] == config.entryPoints;
    r := Success(ConfigReturns(points, config.plugins.GetOr([]), config.allowUpdatePackageJson.GetOr(true)));
  }

  // ------------------------------------------------------------ properties

  /** Written back as an entry, a point carries every field explicitly. */
  function EntryOf(p: Point): EntryPoint {
    EntryPoint(p.entry, p.exportPath, Some(p.format), p.tsconfigFilePath, Some(p.renameDuplicates))
  }

  /** One point per entry, in order: entry and export path are copied, a set
      field wins over its default, and the defaults are "esm", true and "dist".
      Applying the defaults twice changes nothing. */
  lemma PointsFollowEntries(entries: seq<EntryPoint>, outDir: Option<string>)
    requires entries != []
    ensures var ps := Points(entries, outDir);
            && |ps| == |entries|
            && (forall i :: 0 <= i < |ps| ==> (&& ps[i].entry == entries[i].entry
                                               && ps[i].exportPath == entries[i].exportPath
                                               && ps[i].tsconfigFilePath == entries[i].tsconfigFilePath))
            && (forall i :: 0 <= i < |ps| ==> ps[i].format == if entries[i].format.Some? then entries[i].format.value else Esm)
            && (forall i :: 0 <= i < |ps| ==> ps[i].renameDuplicates == (entries[i].renameDuplicates != Some(false)))
            && (forall i :: 0 <= i < |ps| ==> ps[i].outDir == if outDir.Some? then outDir.value else "dist")
            && Points(seq(|ps|, i requires 0 <= i < |ps| => EntryOf(ps[i])), Some(ps[0].outDir)) == ps
  {
  }

  /** `getConfig` succeeds exactly when there is an entry, the export paths are
      distinct and every entry file exists; it then returns one point per
      entry, no plugins unless given, and package.json updates allowed unless
      switched off. */
  lemma LoadedIff(config: SuseeConfig, fileExists: string -> bool)
    ensures Loaded(config, fileExists).Success?
        <==> && config.entryPoints != []
             && Distinct(ExportPaths(config.entryPoints))
             && forall i :: 0 <= i < |config.entryPoints| ==> fileExists(config.entryPoints[i].entry)
    ensures Loaded(config, fileExists).Success? ==>
              && |Loaded(config, fileExists).value.points| == |config.entryPoints|
              && (config.plugins.None? ==> Loaded(config, fileExists).value.plugins == [])
              && Loaded(config, fileExists).value.allowUpdatePackageJson == (config.allowUpdatePackageJson != Some(false))
  {
  }

  /** The duplicate message for two entries exported as ".". */
  lemma DuplicateDotMessage(a: EntryPoint, b: EntryPoint, fileExists: string -> bool)
    requires a.exportPath == "." && b.exportPath == "."
    ensures EntriesCheck([a, b], fileExists) == Some(DuplicateMessage(["\".\""]))
  {
    var paths := ExportPaths([a, b]);
    assert paths == [".", "."];
    assert paths[..1] == ["."];
    assert Repeats(paths[..1]) == [] by {
      assert paths[..1][..0] == [];
    }
    assert Repeats(paths) == [Quoted(".")];
    assert Quoted(".") == "\".\"";
    assert Join([Quoted(".")], ",") == "\".\"";
    assert !Distinct(paths) by {
      assert paths[0] == paths[1];
    }
  }
}
