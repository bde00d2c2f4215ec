// `writePackage` of src/package.ts, the older package.json rewrite: the
// export key comes from the output directory, paths are written as given,
// and `type` follows the ES build. Reading and writing the file, the waits,
// the timer and `JSON.stringify` are left out: the parsed object is a
// parameter and the object written (or the error thrown) is the result.
module Package {
  import opened Wrappers
  import opened Text
  import opened JsObject
  import opened PackageJson

  const SubDirMessage := "If it is not main export,required out-dir and sub-dir like `foo/bar`"

  /** `path.sep`, taken as the POSIX separator. */
  const Sep: char := '/'

  /** A file name written with a leading "./". */
  function Dotted(): string -> string {
    p => "./" + p
  }

  /** The key of the entry: "." for the main export, otherwise "./" and the
      last segment of the output directory. */
  function ExportKey(isMain: bool, outDir: Option<string>): string {
    if isMain then "."
    else
      var parts := Split(outDir.GetOr(""), Sep);
      "./" + parts[|parts| - 1]
  }

  /** `getExports`: a sub-path export needs an output directory of at least
      two segments. */
  function GetExports(files: OutFiles, isMain: bool, outDir: Option<string>): (r: Result<seq<Field>, string>)
    ensures r.Success? ==> |r.value| <= 1 && (r.value != [] ==> r.value[0].key == ExportKey(isMain, outDir))
  {
    if !isMain && (outDir.None? || outDir.value == "" || |Split(outDir.value, Sep)| < 2) then
      Failure(SubDirMessage)
    else
      Success(ExportsMap(files, ExportKey(isMain, outDir), Dotted()))
  }

  /** `type`: recomputed from the ES build for the main export, kept
      otherwise. */
  function TypeOf(files: OutFiles, isMain: bool, pkg: seq<Field>): Value {
    if isMain then Str(if IsEsm(files) then "module" else "commonjs") else Get(pkg, "type")
  }

  /** `_main`, `_module` and `_types`: the output file as given for the main
      export, the old truthy value for a sub-path. */
  function Part(key: string, isMain: bool, file: Option<string>, pkg: seq<Field>): (r: seq<Field>)
    ensures |r| <= 1 && (r != [] ==> r[0].key == key)
  {
    if isMain then IfGiven(key, file, p => p) else IfTruthy(key, Get(pkg, key))
  }

  /** What a sub-path build merges into: the fields of a plain object, any
      other truthy value (an array, a string) as the "." entry, nothing for
      a falsy one. */
  function Normalized(exports: Value): seq<Field> {
    if exports.Obj? then exports.fields
    else if Truthy(exports) then [Field(".", exports)]
    else []
  }

  function ExportsOf(isMain: bool, pkg: seq<Field>, entry: seq<Field>): Value {
    if isMain then Obj(Spread([], entry)) else Obj(Spread(Spread([], Normalized(Get(pkg, "exports"))), entry))
  }

  /** The object `writePackage` writes for the parsed `pkg`, or the message
      of the error it throws. */
  function Written(files: OutFiles, isMain: bool, outDir: Option<string>, pkg: seq<Field>): Result<seq<Field>, string> {
    match GetExports(files, isMain, outDir)
    case Failure(e) => Failure(e)
    case Success(entry) =>
      Success(Assembled(pkg, TypeOf(files, isMain, pkg), Part("main", isMain, files.main, pkg),
                        Part("types", isMain, files.types, pkg), Part("module", isMain, files.moduleFile, pkg),
                        ExportsOf(isMain, pkg, entry)))
  }

  lemma NormalizedTruthy(v: Value)
    ensures Normalized(v) == if Truthy(v) && v.Obj? then v.fields else if Truthy(v) then [Field(".", v)] else []
  {
  }

  lemma WrittenOf(files: OutFiles, isMain: bool, outDir: Option<string>, pkg: seq<Field>, entry: seq<Field>)
    requires GetExports(files, isMain, outDir) == Success(entry)
    ensures Written(files, isMain, outDir, pkg)
         == Success(Assembled(pkg, TypeOf(files, isMain, pkg), Part("main", isMain, files.main, pkg),
                              Part("types", isMain, files.types, pkg), Part("module", isMain, files.moduleFile, pkg),
                              ExportsOf(isMain, pkg, entry)))
  {
  }

  method WritePackage(files: OutFiles, isMain: bool, outDir: Option<string>, pkg: seq<Field>)
    returns (r: Result<seq<Field>, string>)
    ensures r == Written(files, isMain, outDir, pkg)
  {
    var typ := Get(pkg, "type");
    if isMain {
      typ := Str(if IsEsm(files) then "module" else "commonjs");
    }
    var main: seq<Field> := [];
    var moduleField: seq<Field> := [];
    var types: seq<Field> := [];
    var exports: Value := Obj([]);
    if isMain {
      main := if Given(files.main) then [Field("main", Str(files.main.value))] else [];
      moduleField := if Given(files.moduleFile) then [Field("module", Str(files.moduleFile.value))] else [];
      types := if Given(files.types) then [Field("types", Str(files.types.value))] else [];
      var entry := GetExports(files, isMain, outDir);
      exports := Obj(Spread([], entry.value));
      assert exports == ExportsOf(isMain, pkg, entry.value);
      WrittenOf(files, isMain, outDir, pkg, entry.value);
    } else {
      main := if Truthy(Get(pkg, "main")) then [Field("main", Get(pkg, "main"))] else [];
      moduleField := if Truthy(Get(pkg, "module")) then [Field("module", Get(pkg, "module"))] else [];
      types := if Truthy(Get(pkg, "types")) then [Field("types", Get(pkg, "types"))] else [];
      var old_ := Get(pkg, "exports");
      var normalizedExports := if Truthy(old_) && old_.Obj? then old_.fields
                               else if Truthy(old_) then [Field(".", old_)]
                               else [];
      var entry := GetExports(files, isMain, outDir);
      if entry.Failure? {
        return Failure(entry.error);
      }
      exports := Obj(Spread(Spread([], normalizedExports), entry.value));
      NormalizedTruthy(old_);
      assert exports == ExportsOf(isMain, pkg, entry.value);
      WrittenOf(files, isMain, outDir, pkg, entry.value);
    }
    assert typ == TypeOf(files, isMain, pkg);
    assert main == Part("main", isMain, files.main, pkg);
    assert types == Part("types", isMain, files.types, pkg);
    assert moduleField == Part("module", isMain, files.moduleFile, pkg);
    r := Success(Assembled(pkg, typ, main, types, moduleField, exports));
  }

  // ------------------------------------------------------------ properties

  /** The error is thrown exactly for a sub-path export whose output
      directory is missing or has no separator; the main export never
      throws. */
  lemma GetExportsFails(files: OutFiles, isMain: bool, outDir: Option<string>)
    ensures GetExports(files, isMain, outDir).Failure?
            <==> !isMain && (outDir.None? || Sep !in outDir.value)
    ensures GetExports(files, isMain, outDir).Failure? ==> GetExports(files, isMain, outDir).error == SubDirMessage
  {
    if outDir.Some? {
      SplitLength(outDir.value, Sep);
    }
  }

  lemma SplitLength(s: string, c: char)
    ensures |Split(s, c)| >= 2 <==> c in s
  {
    if c in s {
      assert IndexOf(s, c) != -1;
    }
  }

  /** A sub-path export in `a/.../b` is written under "./b", with its
      entries pointing at "./" and the file names as given. */
  lemma SubPathKey(files: OutFiles, parts: seq<string>)
    requires |parts| >= 2
    requires forall i :: 0 <= i < |parts| ==> Sep !in parts[i]
    ensures GetExports(files, false, Some(Join(parts, [Sep])))
         == Success(ExportsMap(files, "./" + parts[|parts| - 1], Dotted()))
  {
    var d := Join(parts, [Sep]);
    SplitJoin(parts, Sep);
    assert d != "" by {
      assert Split("", Sep) == [""];
    }
    assert ExportKey(false, Some(d)) == "./" + parts[|parts| - 1];
  }

  /** The main export: `type` is "module" when the ES build is complete and
      "commonjs" otherwise, main, module and types are the output file names
      that are given, and exports holds just the new entry under ".". */
  lemma MainExportWritten(files: OutFiles, outDir: Option<string>, pkg: seq<Field>)
    requires DistinctKeys(pkg)
    ensures Written(files, true, outDir, pkg).Success?
    ensures var w := Written(files, true, outDir, pkg).value;
            && Get(w, "type") == Str(if IsEsm(files) then "module" else "commonjs")
            && Get(w, "main") == (if Given(files.main) then Str(files.main.value) else Undefined)
            && Get(w, "module") == (if Given(files.moduleFile) then Str(files.moduleFile.value) else Undefined)
            && Get(w, "types") == (if Given(files.types) then Str(files.types.value) else Undefined)
            && Get(w, "exports") == Obj(ExportsMap(files, ".", Dotted()))
  {
    var entry := ExportsMap(files, ".", Dotted());
    SpreadDisjoint([], entry);
    assert [] + entry == entry;
    AssembledGet(pkg, TypeOf(files, true, pkg), Part("main", true, files.main, pkg), Part("types", true, files.types, pkg),
                 Part("module", true, files.moduleFile, pkg), ExportsOf(true, pkg, entry));
  }

  /** A sub-path export keeps the old `type`, main, module and types (when
      truthy), and merges the new entry over the old exports, the new entry
      winning. */
  lemma SubPathWritten(files: OutFiles, outDir: Option<string>, pkg: seq<Field>, k: string)
    requires DistinctKeys(pkg)
    requires Get(pkg, "exports").Obj? ==> DistinctKeys(Get(pkg, "exports").fields)
    requires Written(files, false, outDir, pkg).Success?
    ensures var w := Written(files, false, outDir, pkg).value;
            var entry := GetExports(files, false, outDir).value;
            && Get(w, "type") == Get(pkg, "type")
            && Get(w, "main") == (if Truthy(Get(pkg, "main")) then Get(pkg, "main") else Undefined)
            && Get(w, "module") == (if Truthy(Get(pkg, "module")) then Get(pkg, "module") else Undefined)
            && Get(w, "types") == (if Truthy(Get(pkg, "types")) then Get(pkg, "types") else Undefined)
            && Get(w, "exports").Obj?
            && Get(Get(w, "exports").fields, k)
               == if k in Keys(entry) then Get(entry, k) else Get(Normalized(Get(pkg, "exports")), k)
  {
    var entry := GetExports(files, false, outDir).value;
    var old_ := Normalized(Get(pkg, "exports"));
    SpreadDisjoint([], old_);
    assert [] + old_ == old_;
    SpreadGet(old_, entry, k);
    AssembledGet(pkg, TypeOf(files, false, pkg), Part("main", false, files.main, pkg),
                 Part("types", false, files.types, pkg), Part("module", false, files.moduleFile, pkg),
                 ExportsOf(false, pkg, entry));
  }

  /** Unlike the compile-time writer, an old `exports` that is truthy but not
      a plain object (an array, a string) survives a sub-path build under
      ".". */
  lemma SubPathKeepsNonObjectExports(files: OutFiles, outDir: Option<string>, pkg: seq<Field>)
    requires DistinctKeys(pkg)
    requires Written(files, false, outDir, pkg).Success?
    requires Truthy(Get(pkg, "exports")) && !Get(pkg, "exports").Obj?
    ensures Get(Written(files, false, outDir, pkg).value, "exports").Obj?
    ensures Get(Get(Written(files, false, outDir, pkg).value, "exports").fields, ".") == Get(pkg, "exports")
  {
    SubPathEntryNotDot(files, outDir);
    SubPathWritten(files, outDir, pkg, ".");
  }

  lemma SubPathEntryNotDot(files: OutFiles, outDir: Option<string>)
    requires GetExports(files, false, outDir).Success?
    ensures "." !in Keys(GetExports(files, false, outDir).value)
  {
    var entry := GetExports(files, false, outDir).value;
    if entry != [] {
      assert |ExportKey(false, outDir)| >= 2;
      assert Keys(entry) == [ExportKey(false, outDir)];
    }
  }

  /** Key order and the untouched fields, as for every write. */
  lemma WrittenLayout(files: OutFiles, isMain: bool, outDir: Option<string>, pkg: seq<Field>, k: string)
    requires DistinctKeys(pkg)
    requires Written(files, isMain, outDir, pkg).Success?
    ensures var w := Written(files, isMain, outDir, pkg).value;
            && |w| >= 5 + |Without(pkg, Named)| && Keys(w)[..4] == ["name", "version", "description", "type"]
            && w[|w| - |Without(pkg, Named)|..] == Without(pkg, Named)
            && (k !in Named ==> Get(w, k) == Get(pkg, k))
  {
    var typ := TypeOf(files, isMain, pkg);
    var main := Part("main", isMain, files.main, pkg);
    var types := Part("types", isMain, files.types, pkg);
    var moduleField := Part("module", isMain, files.moduleFile, pkg);
    var exports := ExportsOf(isMain, pkg, GetExports(files, isMain, outDir).value);
    AssembledOrder(pkg, typ, main, types, moduleField, exports);
    var front := Front(pkg, typ, main, types, moduleField, exports);
    var w := Written(files, isMain, outDir, pkg).value;
    assert w == front + Without(pkg, Named);
    assert |front| >= 5;
    KeysConcat(front, Without(pkg, Named));
    if k !in Named {
      AssembledKeeps(pkg, typ, main, types, moduleField, exports, k);
    }
  }
}
