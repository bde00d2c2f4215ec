// `GetOptions` of src/lib/init/tsCompilerOptions.ts: the TypeScript compiler
// options for one bundle point. Reading the tsconfig file is done by an
// external library; the options it reads are a constructor parameter here.
// Options the code does not touch are carried in `rest` unchanged.
module CompilerOptions {
  import opened Wrappers
  import opened Text
  import Config

  /** `ts.ModuleKind.CommonJS`, `ts.ModuleKind.ES2020` and
      `ts.ModuleResolutionKind.NodeNext`. */
  const CommonJsKind: int := 1
  const Es2020Kind: int := 6
  const NodeNext: int := 99

  datatype Options = Options(rootDir: Option<string>, moduleKind: Option<int>, moduleResolution: Option<int>,
                             outDir: Option<string>, types: Option<seq<string>>, lib: Option<seq<string>>,
                             rest: map<string, string>)

  const NoOptions := Options(None, None, None, None, None, None, map[])

  /** JavaScript's `s.slice(2)`. */
  function Slice2(s: string): string {
    if |s| >= 2 then s[2..] else ""
  }

  /** The output directory of a point: its `outDir` for the main export,
      otherwise `outDir` joined with the export path after its "./". */
  function OutDir(point: Config.Point): string {
    if point.exportPath == "." then point.outDir else point.outDir + "/" + Slice2(point.exportPath)
  }

  /** `__init`: `rootDir` and `module` removed, node resolution and the
      point's output directory set. */
  function Edited(tsconfig: Options, outDir: string): (r: Options)
    ensures r.rootDir.None? && r.moduleKind.None?
    ensures r.moduleResolution == Some(NodeNext) && r.outDir == Some(outDir)
    ensures r.types == tsconfig.types && r.lib == tsconfig.lib && r.rest == tsconfig.rest
  {
    tsconfig.(rootDir := None, moduleKind := None, moduleResolution := Some(NodeNext), outDir := Some(outDir))
  }

  /** `types` with "node" in front when it is missing, or just "node". */
  function Types(types: Option<seq<string>>): seq<string> {
    match types
    case Some(ts) => if "node" in ts then ts else ["node"] + ts
    case None => ["node"]
  }

  /** `lib` behind "ESNext", duplicates removed keeping first occurrences. */
  function Lib(lib: Option<seq<string>>): seq<string> {
    match lib
    case Some(l) => Dedup(["ESNext"] + l)
    case None => ["ESNext"]
  }

  /** `__init2` after `__init`. */
  function Normalised(o: Options): (r: Options)
    ensures r.(types := o.types, lib := o.lib) == o
  {
    o.(types := Some(Types(o.types)), lib := Some(Lib(o.lib)))
  }

  class GetOptions {
    const point: Config.Point
    /** The options read from `point.tsconfigFilePath`. */
    const tsconfig: Options
    var options: Options

    constructor(point: Config.Point, tsconfig: Options)
      ensures this.point == point && this.tsconfig == tsconfig && options == NoOptions
    {
      this.point := point;
      this.tsconfig := tsconfig;
      options := NoOptions;
    }

    method Init()
      modifies this
      ensures options == Edited(tsconfig, OutDir(point))
    {
      var outDir := if point.exportPath == "." then point.outDir else point.outDir + "/" + Slice2(point.exportPath);
      var opts := tsconfig.(rootDir := None, moduleKind := None);
      opts := opts.(moduleResolution := Some(NodeNext), outDir := Some(outDir));
      options := opts;
    }

    method Init2() returns (o: Options)
      modifies this
      ensures options == Edited(tsconfig, OutDir(point))
      ensures o == Normalised(options)
    {
      Init();
      var types := options.types;
      if types.Some? {
        if "node" !in types.value {
          types := Some(["node"] + types.value);
        }
      } else {
        types := Some(["node"]);
      }
      var lib := options.lib;
      if lib.Some? {
        lib := Some(Dedup(["ESNext"] + lib.value));
      } else {
        lib := Some(["ESNext"]);
      }
      o := options.(types := types, lib := lib);
    }

    /** The `commonjs` getter. */
    method CommonJs() returns (o: Options)
      modifies this
      ensures options == Edited(tsconfig, OutDir(point))
      ensures o == Normalised(options).(moduleKind := Some(CommonJsKind))
    {
      var opts := Init2();
      o := opts.(moduleKind := Some(CommonJsKind));
    }

    /** The `esm` getter. */
    method Esm() returns (o: Options)
      modifies this
      ensures options == Edited(tsconfig, OutDir(point))
      ensures o == Normalised(options).(moduleKind := Some(Es2020Kind))
    {
      var opts := Init2();
      o := opts.(moduleKind := Some(Es2020Kind));
    }

    /** The `default` getter. */
    method Default() returns (o: Options)
      modifies this
      ensures options == Edited(tsconfig, OutDir(point))
      ensures o == Normalised(options)
    {
      o := Init2();
    }
  }

  // ------------------------------------------------------------ properties

  /** What a getter hands the compiler: the module kind asked for, no
      `rootDir`, node resolution, the point's output directory, "node" among
      the types, "ESNext" first among the libraries, every other option as
      the tsconfig file has it. */
  lemma GetterOptions(tsconfig: Options, point: Config.Point, kind: int)
    ensures var o := Normalised(Edited(tsconfig, OutDir(point))).(moduleKind := Some(kind));
            && o.moduleKind == Some(kind) && o.rootDir.None?
            && o.moduleResolution == Some(NodeNext)
            && o.outDir == Some(OutDir(point))
            && o.types.Some? && "node" in o.types.value
            && o.lib.Some? && o.lib.value != [] && o.lib.value[0] == "ESNext" && Distinct(o.lib.value)
            && o.rest == tsconfig.rest
  {
    LibShape(tsconfig.lib);
  }

  /** A sub-path export "./<s>" builds into `<outDir>/<s>`; the main one into
      `outDir` itself. */
  lemma OutDirOfExportPath(point: Config.Point, s: string)
    ensures point.exportPath == "./" + s ==> OutDir(point) == point.outDir + "/" + s
    ensures point.exportPath == "." ==> OutDir(point) == point.outDir
  {
    if point.exportPath == "./" + s {
      assert Slice2(point.exportPath) == s;
    }
  }

  /** The second point of the compiler-options test: export path "./mod"
      under "dist" builds into "dist/mod". */
  lemma ModBuildsIntoDistMod(point: Config.Point)
    requires point.exportPath == "./mod" && point.outDir == "dist"
    ensures OutDir(point) == "dist/mod"
  {
    OutDirOfExportPath(point, "mod");
  }

  /** `types` always holds "node", keeps every type already given in its
      order, adds at most "node", and is left alone on a second pass. */
  lemma TypesShape(types: Option<seq<string>>)
    ensures "node" in Types(types)
    ensures types.Some? ==> exists k :: 0 <= k <= 1 && Types(types)[k..] == types.value
    ensures types.Some? && "node" in types.value ==> Types(types) == types.value
    ensures Types(Some(Types(types))) == Types(types)
  {
    if types.Some? {
      if "node" in types.value {
        assert Types(types)[0..] == types.value;
      } else {
        assert Types(types)[1..] == types.value;
      }
    }
  }

  /** `lib` starts with "ESNext", has no repeats and holds exactly "ESNext"
      and the given libraries. */
  lemma LibShape(lib: Option<seq<string>>)
    ensures Lib(lib) != [] && Lib(lib)[0] == "ESNext"
    ensures Distinct(Lib(lib))
    ensures forall x :: x in Lib(lib) <==> x == "ESNext" || (lib.Some? && x in lib.value)
  {
    if lib.Some? {
      DedupHead(["ESNext"] + lib.value);
    }
  }

  /** A second pass leaves `lib` alone. */
  lemma LibIdempotent(lib: Option<seq<string>>)
    ensures Lib(Some(Lib(lib))) == Lib(lib)
  {
    var l := Lib(lib);
    LibShape(lib);
    assert ["ESNext"] + l == ["ESNext"] + [l[0]] + l[1..];
    DedupRepeatedHead("ESNext", l);
    DedupDistinct(l);
  }

  /** A given list with no repeats and no "ESNext" just gets "ESNext" in
      front: the order of the libraries is kept. */
  lemma LibKeepsOrder(l: seq<string>)
    requires Distinct(l) && "ESNext" !in l
    ensures Lib(Some(l)) == ["ESNext"] + l
  {
    var xs := ["ESNext"] + l;
    forall i, j | 0 <= i < j < |xs| ensures xs[i] != xs[j] {
      if i > 0 {
        assert xs[i] == l[i - 1];
      }
      assert xs[j] == l[j - 1];
    }
    DedupDistinct(xs);
  }

  lemma {:induction false} DedupHead(xs: seq<string>)
    requires xs != []
    ensures Dedup(xs) != [] && Dedup(xs)[0] == xs[0]
    decreases |xs|
  {
    if |xs| > 1 {
      var init := xs[..|xs| - 1];
      DedupHead(init);
    } else {
      assert xs[..0] == [];
    }
  }

  lemma {:induction false} DedupDistinct(xs: seq<string>)
    requires Distinct(xs)
    ensures Dedup(xs) == xs
    decreases |xs|
  {
    if xs != [] {
      var init := xs[..|xs| - 1];
      assert Distinct(init) by {
        forall i, j | 0 <= i < j < |init| ensures init[i] != init[j] {
          assert init[i] == xs[i] && init[j] == xs[j];
        }
      }
      DedupDistinct(init);
      assert xs[|xs| - 1] !in init by {
        forall k | 0 <= k < |init| ensures init[k] != xs[|xs| - 1] {
          assert init[k] == xs[k];
        }
      }
      assert init + [xs[|xs| - 1]] == xs;
    }
  }

  /** A value repeated right after itself at the front is dropped. */
  lemma {:induction false} DedupRepeatedHead(x: string, ys: seq<string>)
    requires ys != [] && ys[0] == x
    ensures Dedup([x] + ys) == Dedup(ys)
    decreases |ys|
  {
    if |ys| == 1 {
      assert [x] + ys == [x, x];
      assert [x, x][..1] == [x];
      assert [x][..0] == [];
      assert ys == [x];
    } else {
      var init := ys[..|ys| - 1];
      var last := ys[|ys| - 1];
      DedupRepeatedHead(x, init);
      assert Dedup([x] + ys) == AddUnique(Dedup([x] + init), last) by {
        assert ([x] + ys)[..|ys|] == [x] + init;
        assert ([x] + ys)[|ys|] == last;
      }
      assert Dedup(ys) == AddUnique(Dedup(init), last);
    }
  }
}
