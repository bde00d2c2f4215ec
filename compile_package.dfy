// `writePackage` of src/lib/compile/package.ts: the package.json rewrite
// after a compile. Reading and writing the file, the waits and
// `JSON.stringify` are left out: the parsed object is a parameter and the
// object written is the result. `path.relative(process.cwd(), f)` is the
// parameter `relative`.
module CompilePackage {
  import opened Wrappers
  import opened JsObject
  import opened PackageJson

  /** A path relative to the working directory, written with a leading "./". */
  function Dotted(relative: string -> string): string -> string {
    p => "./" + relative(p)
  }

  /** `getExports`: the exports entry under `exportPath`, its files made
      relative to the working directory. */
  function GetExports(files: OutFiles, exportPath: string, relative: string -> string): (r: seq<Field>)
    ensures |r| <= 1 && (r != [] ==> r[0].key == exportPath)
  {
    ExportsMap(files, exportPath, Dotted(relative))
  }

  /** The own properties of an old `exports` value that a sub-path build
      merges into: those of a plain object; nothing for an array or any
      other value. */
  function Normalized(exports: Value): seq<Field> {
    if exports.Obj? then exports.fields else []
  }

  /** `_main`, `_module` and `_types`: for the main export the output file
      relative to the working directory when there is one; for a sub-path
      export the old value when it is truthy. */
  function Part(key: string, isMain: bool, file: Option<string>, pkg: seq<Field>, relative: string -> string)
    : (r: seq<Field>)
    ensures |r| <= 1 && (r != [] ==> r[0].key == key)
  {
    if isMain then IfGiven(key, file, relative) else IfTruthy(key, Get(pkg, key))
  }

  /** The new `exports` value: the new entry alone for the main export, the
      new entry spread over the old plain-object value for a sub-path. */
  function ExportsOf(files: OutFiles, exportPath: string, pkg: seq<Field>, relative: string -> string): Value {
    if exportPath == "." then Obj(Spread([], GetExports(files, exportPath, relative)))
    else Obj(Spread(Spread([], Normalized(Get(pkg, "exports"))), GetExports(files, exportPath, relative)))
  }

  /** The object `writePackage` writes for the parsed `pkg`. */
  function Written(files: OutFiles, exportPath: string, pkg: seq<Field>, relative: string -> string): seq<Field> {
    var isMain := exportPath == ".";
    Assembled(pkg, Str("module"), Part("main", isMain, files.main, pkg, relative),
              Part("types", isMain, files.types, pkg, relative), Part("module", isMain, files.moduleFile, pkg, relative),
              ExportsOf(files, exportPath, pkg, relative))
  }

  lemma NormalizedTruthy(v: Value)
    ensures Normalized(v) == if Truthy(v) && v.Obj? then v.fields else []
  {
  }

  method WritePackage(files: OutFiles, exportPath: string, pkg: seq<Field>, relative: string -> string)
    returns (pkgJson: seq<Field>)
    ensures pkgJson == Written(files, exportPath, pkg, relative)
  {
    var isMain := true;
    if exportPath != "." {
      isMain := false;
    }
    var typ := Str("module");
    var main: seq<Field> := [];
    var moduleField: seq<Field> := [];
    var types: seq<Field> := [];
    var exports: Value := Obj([]);
    if isMain {
      main := if Given(files.main) then [Field("main", Str(relative(files.main.value)))] else [];
      moduleField := if Given(files.moduleFile) then [Field("module", Str(relative(files.moduleFile.value)))] else [];
      types := if Given(files.types) then [Field("types", Str(relative(files.types.value)))] else [];
      exports := Obj(Spread([], GetExports(files, exportPath, relative)));
      assert main == Part("main", isMain, files.main, pkg, relative);
      assert types == Part("types", isMain, files.types, pkg, relative);
      assert moduleField == Part("module", isMain, files.moduleFile, pkg, relative);
    } else {
      var old_ := Get(pkg, "exports");
      main := if Truthy(Get(pkg, "main")) then [Field("main", Get(pkg, "main"))] else [];
      moduleField := if Truthy(Get(pkg, "module")) then [Field("module", Get(pkg, "module"))] else [];
      types := if Truthy(Get(pkg, "types")) then [Field("types", Get(pkg, "types"))] else [];
      var normalizedExports := if Truthy(old_) && old_.Obj? then old_.fields else [];
      exports := Obj(Spread(Spread([], normalizedExports), GetExports(files, exportPath, relative)));
      NormalizedTruthy(old_);
      assert main == Part("main", isMain, files.main, pkg, relative);
      assert types == Part("types", isMain, files.types, pkg, relative);
      assert moduleField == Part("module", isMain, files.moduleFile, pkg, relative);
    }
    assert exports == ExportsOf(files, exportPath, pkg, relative);
    pkgJson := Assembled(pkg, typ, main, types, moduleField, exports);
  }

  // ------------------------------------------------------------ properties

  /** The exports entry has `import` iff the ES build and its types exist and
      `require` iff the CommonJS ones do, each pointing at "./" and the file
      relative to the working directory; it is empty when neither build is
      complete. */
  lemma GetExportsTargets(files: OutFiles, exportPath: string, relative: string -> string)
    ensures var r := GetExports(files, exportPath, relative);
            && (r == [] <==> !IsCjs(files) && !IsEsm(files))
            && (r != [] ==> && r[0].value.Obj?
                            && ("import" in Keys(r[0].value.fields) <==> IsEsm(files))
                            && ("require" in Keys(r[0].value.fields) <==> IsCjs(files))
                            && (IsEsm(files) ==> Get(r[0].value.fields, "import")
                                                 == Target("./" + relative(files.esm.value),
                                                           "./" + relative(files.esmTypes.value)))
                            && (IsCjs(files) ==> Get(r[0].value.fields, "require")
                                                 == Target("./" + relative(files.commonjs.value),
                                                           "./" + relative(files.commonjsTypes.value))))
  {
    ExportsMapShape(files, exportPath, Dotted(relative));
  }

  /** The main export: the type becomes "module", main, module and types come
      from the output files that exist (relative to the working directory,
      absent otherwise), the old exports are replaced by the new entry, and
      name, version and description are kept. */
  lemma MainExportWritten(files: OutFiles, pkg: seq<Field>, relative: string -> string)
    requires DistinctKeys(pkg)
    ensures var w := Written(files, ".", pkg, relative);
            && Get(w, "type") == Str("module")
            && Get(w, "main") == (if Given(files.main) then Str(relative(files.main.value)) else Undefined)
            && Get(w, "module") == (if Given(files.moduleFile) then Str(relative(files.moduleFile.value)) else Undefined)
            && Get(w, "types") == (if Given(files.types) then Str(relative(files.types.value)) else Undefined)
            && Get(w, "exports") == Obj(GetExports(files, ".", relative))
            && Get(w, "name") == Get(pkg, "name") && Get(w, "version") == Get(pkg, "version")
            && Get(w, "description") == Get(pkg, "description")
  {
    var ex := GetExports(files, ".", relative);
    SpreadDisjoint([], ex);
    assert [] + ex == ex;
    AssembledGet(pkg, Str("module"), Part("main", true, files.main, pkg, relative),
                 Part("types", true, files.types, pkg, relative), Part("module", true, files.moduleFile, pkg, relative),
                 ExportsOf(files, ".", pkg, relative));
  }

  /** A sub-path export: the type still becomes "module", main, module and
      types keep their old values when set (and are dropped when not), and
      the old exports of a plain object are merged with the new entry, the
      new entry winning. */
  lemma SubPathWritten(files: OutFiles, exportPath: string, pkg: seq<Field>, relative: string -> string, k: string)
    requires exportPath != "."
    requires DistinctKeys(pkg)
    requires Get(pkg, "exports").Obj? ==> DistinctKeys(Get(pkg, "exports").fields)
    ensures var w := Written(files, exportPath, pkg, relative);
            && Get(w, "type") == Str("module")
            && Get(w, "main") == (if Truthy(Get(pkg, "main")) then Get(pkg, "main") else Undefined)
            && Get(w, "module") == (if Truthy(Get(pkg, "module")) then Get(pkg, "module") else Undefined)
            && Get(w, "types") == (if Truthy(Get(pkg, "types")) then Get(pkg, "types") else Undefined)
            && Get(w, "exports").Obj?
            && Get(Get(w, "exports").fields, k)
               == if k in Keys(GetExports(files, exportPath, relative)) then Get(GetExports(files, exportPath, relative), k)
                  else Get(Normalized(Get(pkg, "exports")), k)
  {
    var ex := GetExports(files, exportPath, relative);
    var old_ := Normalized(Get(pkg, "exports"));
    var merged := Spread(Spread([], old_), ex);
    SpreadDisjoint([], old_);
    assert [] + old_ == old_;
    SpreadGet(old_, ex, k);
    AssembledGet(pkg, Str("module"), Part("main", false, files.main, pkg, relative),
                 Part("types", false, files.types, pkg, relative), Part("module", false, files.moduleFile, pkg, relative),
                 ExportsOf(files, exportPath, pkg, relative));
  }

  /** A sub-path build drops an old `exports` that is not a plain object
      (an array, a string): only the new entry is written. */
  lemma SubPathDropsNonObjectExports(files: OutFiles, exportPath: string, pkg: seq<Field>, relative: string -> string)
    requires exportPath != "."
    requires DistinctKeys(pkg)
    requires !Get(pkg, "exports").Obj?
    ensures Get(Written(files, exportPath, pkg, relative), "exports") == Obj(GetExports(files, exportPath, relative))
  {
    var ex := GetExports(files, exportPath, relative);
    SpreadDisjoint([], ex);
    assert [] + ex == ex;
    AssembledGet(pkg, Str("module"), Part("main", false, files.main, pkg, relative),
                 Part("types", false, files.types, pkg, relative), Part("module", false, files.moduleFile, pkg, relative),
                 ExportsOf(files, exportPath, pkg, relative));
  }

  /** Key order and the untouched fields: name, version, description, type,
      then main, types, module where present, exports, and every other field
      of the old file with its value and in its old order. */
  lemma WrittenLayout(files: OutFiles, exportPath: string, pkg: seq<Field>, relative: string -> string, k: string)
    requires DistinctKeys(pkg)
    ensures var w := Written(files, exportPath, pkg, relative);
            && |w| >= 5 + |Without(pkg, Named)| && Keys(w)[..4] == ["name", "version", "description", "type"]
            && w[|w| - |Without(pkg, Named)|..] == Without(pkg, Named)
            && (k !in Named ==> Get(w, k) == Get(pkg, k))
  {
    var isMain := exportPath == ".";
    var main := Part("main", isMain, files.main, pkg, relative);
    var types := Part("types", isMain, files.types, pkg, relative);
    var moduleField := Part("module", isMain, files.moduleFile, pkg, relative);
    var exports := ExportsOf(files, exportPath, pkg, relative);
    AssembledOrder(pkg, Str("module"), main, types, moduleField, exports);
    var front := Front(pkg, Str("module"), main, types, moduleField, exports);
    var w := Written(files, exportPath, pkg, relative);
    assert w == front + Without(pkg, Named);
    assert |front| >= 5;
    KeysConcat(front, Without(pkg, Named));
    if k !in Named {
      AssembledKeeps(pkg, Str("module"), main, types, moduleField, exports, k);
    }
  }
}
