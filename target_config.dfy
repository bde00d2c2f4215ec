// `checkEntries` and the entry normalisation of `getConfig` in
// src/init/config.ts, where each entry names an output target. Only
// node targets have an export path, so only they take part in the
// duplicate check. Messages, the existence check and the exit-as-message
// convention are those of module Config.
module TargetConfig {
  import opened Wrappers
  import opened Text
  import Config

  datatype Output =
    | NodeJs(exportPath: string, format: Option<Config.Format>, allowUpdatePackageJson: Option<bool>)
    | Web(outFile: string, htmlTemplate: string)

  datatype EntryPoint = EntryPoint(entry: string, output: Output, renameDuplicates: Option<bool>,
                                   tsconfigFilePath: Option<string>)

  datatype SuseeConfig = SuseeConfig(entryPoints: seq<EntryPoint>, plugins: Option<seq<Config.Plugin>>)

  /** The export paths of the node targets, in entry order. */
  function NodePaths(entries: seq<EntryPoint>): (r: seq<string>)
    ensures |r| <= |entries|
    ensures forall v :: v in r <==> exists i :: 0 <= i < |entries| && entries[i].output.NodeJs? && entries[i].output.exportPath == v
    decreases |entries|
  {
    if entries == [] then []
    else
      var init := entries[..|entries| - 1];
      var e := entries[|entries| - 1];
      assert forall i :: 0 <= i < |init| ==> init[i] == entries[i];
      NodePaths(init) + (if e.output.NodeJs? then [e.output.exportPath] else [])
  }

  function EntryFiles(entries: seq<EntryPoint>): (r: seq<string>)
    ensures |r| == |entries| && forall i :: 0 <= i < |entries| ==> r[i] == entries[i].entry
  {
    seq(|entries|, i requires 0 <= i < |entries| => entries[i].entry)
  }

  /** `checkEntries`: no entries, then repeated node export paths, then the
      first missing entry file. */
  function EntriesCheck(entries: seq<EntryPoint>, fileExists: string -> bool): (r: Option<string>)
    ensures r.None? <==> && entries != []
                         && Distinct(NodePaths(entries))
                         && forall i :: 0 <= i < |entries| ==> fileExists(entries[i].entry)
    ensures entries == [] ==> r == Some(Config.NoEntryMessage)
    ensures entries != [] && !Distinct(NodePaths(entries))
            ==> r == Some(Config.DuplicateMessage(Config.Repeats(NodePaths(entries))))
  {
    Config.RepeatsEmptyIff(NodePaths(entries));
    if entries == [] then Some(Config.NoEntryMessage)
    else if Config.Repeats(NodePaths(entries)) != [] then Some(Config.DuplicateMessage(Config.Repeats(NodePaths(entries))))
    else Config.FirstMissing(EntryFiles(entries), fileExists)
  }

  method CheckEntries(entries: seq<EntryPoint>, fileExists: string -> bool) returns (r: Option<string>)
    ensures r == EntriesCheck(entries, fileExists)
  {
    if |entries| < 1 {
      return Some(Config.NoEntryMessage);
    }
    var objectStore: set<string> := {};
    var duplicateExportPaths: seq<string> := [];
    for i := 0 to |entries|
      invariant forall v :: v in objectStore <==> v in NodePaths(entries[..i])
      invariant duplicateExportPaths == Config.Repeats(NodePaths(entries[..i]))
    {
      NodePathsSnoc(entries, i);
      if entries[i].output.NodeJs? {
        var value := entries[i].output.exportPath;
        Config.RepeatsSnoc(NodePaths(entries[..i]), value);
        if value in objectStore {
          duplicateExportPaths := duplicateExportPaths + [Config.Quoted(value)];
        } else {
          objectStore := objectStore + {value};
        }
      } else {
        assert NodePaths(entries[..i]) + [] == NodePaths(entries[..i]);
      }
    }
    assert entries[..|entries|] == entries;
    if |duplicateExportPaths| > 0 {
      return Some(Config.DuplicateMessage(duplicateExportPaths));
    }
    r := Config.CheckExist(EntryFiles(entries), fileExists);
  }

  lemma NodePathsSnoc(entries: seq<EntryPoint>, i: nat)
    requires i < |entries|
    ensures NodePaths(entries[..i + 1])
         == NodePaths(entries[..i]) + (if entries[i].output.NodeJs? then [entries[i].output.exportPath] else [])
  {
    assert entries[..i + 1][..i] == entries[..i];
  }

  /** An entry as `getConfig` returns it: a node target with its format
      ("esm") and package.json permission (true) filled in, a web target with
      only its output file and template, and `renameDuplicates` defaulting
      to true. */
  function Normalised(ent: EntryPoint): EntryPoint {
    var output := match ent.output
      case NodeJs(p, format, allow) => NodeJs(p, Some(format.GetOr(Config.Esm)), Some(allow.GetOr(true)))
      case Web(outFile, htmlTemplate) => Web(outFile, htmlTemplate);
    EntryPoint(ent.entry, output, Some(ent.renameDuplicates.GetOr(true)), ent.tsconfigFilePath)
  }

  function AllNormalised(entries: seq<EntryPoint>): (r: seq<EntryPoint>)
    ensures |r| == |entries| && forall i :: 0 <= i < |entries| ==> r[i] == Normalised(entries[i])
  {
    seq(|entries|, i requires 0 <= i < |entries| => Normalised(entries[i]))
  }

  function Loaded(config: SuseeConfig, fileExists: string -> bool): (r: Result<SuseeConfig, string>)
    ensures r.Success? <==> EntriesCheck(config.entryPoints, fileExists).None?
    ensures r.Failure? ==> EntriesCheck(config.entryPoints, fileExists) == Some(r.error)
  {
    match EntriesCheck(config.entryPoints, fileExists)
    case Some(message) => Failure(message)
    case None => Success(SuseeConfig(AllNormalised(config.entryPoints), Some(config.plugins.GetOr([]))))
  }

  lemma AllNormalisedSnoc(entries: seq<EntryPoint>, i: nat)
    requires i < |entries|
    ensures AllNormalised(entries[..i + 1]) == AllNormalised(entries[..i]) + [Normalised(entries[i])]
  {
    var a, b := AllNormalised(entries[..i + 1]), AllNormalised(entries[..i]) + [Normalised(entries[i])];
    assert |a| == |b|;
    forall k | 0 <= k < |a| ensures a[k] == b[k] {
      assert entries[..i + 1][k] == entries[k];
    }
  }

  method GetConfig(config: SuseeConfig, fileExists: string -> bool) returns (r: Result<SuseeConfig, string>)
    ensures r == Loaded(config, fileExists)
  {
    var check := CheckEntries(config.entryPoints, fileExists);
    if check.Some? {
      return Failure(check.value);
    }
    var entries: seq<EntryPoint> := [];
    for i := 0 to |config.entryPoints|
      invariant entries == AllNormalised(config.entryPoints[..i])
    {
      var ent := NormaliseEntry(config.entryPoints[i]);
      AllNormalisedSnoc(config.entryPoints, i);
      entries := entries + [ent];
    }
    assert config.entryPoints[..|config.entryPoints|] == config.entryPoints;
    r := Success(SuseeConfig(entries, Some(config.plugins.GetOr([]))));
  }

  /** One entry of the `getConfig` loop, defaults filled in. */
  method NormaliseEntry(ent: EntryPoint) returns (n: EntryPoint)
    ensures n == Normalised(ent)
  {
    if ent.output.NodeJs? {
      n := EntryPoint(ent.entry,
                      NodeJs(ent.output.exportPath, Some(ent.output.format.GetOr(Config.Esm)),
                             Some(ent.output.allowUpdatePackageJson.GetOr(true))),
                      Some(ent.renameDuplicates.GetOr(true)), ent.tsconfigFilePath);
    } else {
      n := EntryPoint(ent.entry, Web(ent.output.outFile, ent.output.htmlTemplate),
                      Some(ent.renameDuplicates.GetOr(true)), ent.tsconfigFilePath);
    }
  }

  // ------------------------------------------------------------ properties

  /** Normalisation keeps each entry's file, target kind, export path and
      explicit settings, fills every default, and is idempotent. */
  lemma NormalisedKeeps(ent: EntryPoint)
    ensures var n := Normalised(ent);
            && n.entry == ent.entry && n.tsconfigFilePath == ent.tsconfigFilePath
            && n.output.NodeJs? == ent.output.NodeJs?
            && (ent.output.NodeJs? ==> && n.output.exportPath == ent.output.exportPath
                                       && n.output.format.Some? && n.output.allowUpdatePackageJson.Some?
                                       && (ent.output.format.Some? ==> n.output.format == ent.output.format)
                                       && (ent.output.format.None? ==> n.output.format == Some(Config.Esm))
                                       && n.output.allowUpdatePackageJson.value == (ent.output.allowUpdatePackageJson != Some(false)))
            && (ent.output.Web? ==> n.output == ent.output)
            && n.renameDuplicates == Some(ent.renameDuplicates != Some(false))
            && Normalised(n) == n
  {
    match ent.renameDuplicates
    case Some(b) =>
    case None =>
  }

  /** Web targets never take part in the duplicate check: adding one changes
      the checked paths not at all. */
  lemma WebEntryIgnored(entries: seq<EntryPoint>, web: EntryPoint)
    requires web.output.Web?
    ensures NodePaths(entries + [web]) == NodePaths(entries)
    ensures NodePaths([web] + entries) == NodePaths(entries)
  {
    assert (entries + [web])[..|entries|] == entries;
    WebPrefixIgnored(entries, web);
  }

  lemma {:induction false} WebPrefixIgnored(entries: seq<EntryPoint>, web: EntryPoint)
    requires web.output.Web?
    ensures NodePaths([web] + entries) == NodePaths(entries)
    decreases |entries|
  {
    if entries == [] {
      assert [web] + entries == [web];
      assert [web][..0] == [];
    } else {
      var init := entries[..|entries| - 1];
      WebPrefixIgnored(init, web);
      assert ([web] + entries)[..|entries|] == [web] + init;
    }
  }

  /** Two node targets sharing an export path stop the configuration, while
      a web target may share its entry with anything. */
  lemma SharedNodePathExits(entries: seq<EntryPoint>, fileExists: string -> bool, i: nat, j: nat)
    requires i < j < |entries|
    requires entries[i].output.NodeJs? && entries[j].output.NodeJs?
    requires entries[i].output.exportPath == entries[j].output.exportPath
    ensures Loaded(SuseeConfig(entries, None), fileExists).Failure?
    ensures Loaded(SuseeConfig(entries, None), fileExists).error
         == Config.DuplicateMessage(Config.Repeats(NodePaths(entries)))
  {
    var paths := NodePaths(entries);
    NodePathsIndex(entries, i);
    NodePathsIndex(entries, j);
    var k1 := NodePathsPos(entries, i);
    var k2 := NodePathsPos(entries, j);
    NodePathsMonotone(entries, i, j);
    assert paths[k1] == paths[k2];
    assert !Distinct(paths);
  }

  /** Where entry `i`'s path sits among the node paths. */
  function NodePathsPos(entries: seq<EntryPoint>, i: nat): nat
    requires i < |entries|
  {
    |NodePaths(entries[..i])|
  }

  lemma {:induction false} NodePathsPrefix(entries: seq<EntryPoint>, n: nat)
    requires n <= |entries|
    ensures |NodePaths(entries[..n])| <= |NodePaths(entries)|
    ensures NodePaths(entries)[..|NodePaths(entries[..n])|] == NodePaths(entries[..n])
    decreases |entries|
  {
    if n < |entries| {
      var init := entries[..|entries| - 1];
      assert init[..n] == entries[..n];
      NodePathsPrefix(init, n);
    } else {
      assert entries[..n] == entries;
    }
  }

  lemma NodePathsIndex(entries: seq<EntryPoint>, i: nat)
    requires i < |entries| && entries[i].output.NodeJs?
    ensures NodePathsPos(entries, i) < |NodePaths(entries)|
    ensures NodePaths(entries)[NodePathsPos(entries, i)] == entries[i].output.exportPath
  {
    assert entries[..i + 1][..i] == entries[..i];
    assert NodePaths(entries[..i + 1]) == NodePaths(entries[..i]) + [entries[i].output.exportPath];
    NodePathsPrefix(entries, i + 1);
  }

  lemma NodePathsMonotone(entries: seq<EntryPoint>, i: nat, j: nat)
    requires i < j < |entries| && entries[i].output.NodeJs?
    ensures NodePathsPos(entries, i) < NodePathsPos(entries, j)
  {
    assert entries[..j][..i + 1] == entries[..i + 1];
    NodePathsPrefix(entries[..j], i + 1);
    assert entries[..i + 1][..i] == entries[..i];
    assert NodePaths(entries[..i + 1]) == NodePaths(entries[..i]) + [entries[i].output.exportPath];
  }
}
