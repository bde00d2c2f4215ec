// What both package.json writers share (src/lib/compile/package.ts and
// src/package.ts): the output files, the `exports` entry built from them,
// and the final object `{name, version, description, type, ..._main,
// ..._types, ..._module, ..._exports, ...rest}`.
module PackageJson {
  import opened Wrappers
  import opened JsObject

  /** The files a build produced; `None` is `undefined`. */
  datatype OutFiles = OutFiles(commonjs: Option<string>, commonjsTypes: Option<string>,
                               esm: Option<string>, esmTypes: Option<string>,
                               main: Option<string>, moduleFile: Option<string>, types: Option<string>)

  /** A file name that is set and not empty (JavaScript truthiness). */
  predicate Given(f: Option<string>) {
    f.Some? && f.value != ""
  }

  predicate IsCjs(files: OutFiles) {
    Given(files.commonjs) && Given(files.commonjsTypes)
  }

  predicate IsEsm(files: OutFiles) {
    Given(files.esm) && Given(files.esmTypes)
  }

  function Target(default: string, types: string): Value {
    Obj([Field("default", Str(default)), Field("types", Str(types))])
  }

  /** `getExports`: under `key`, an `import` target when the ES build and its
      types exist and a `require` target when the CommonJS ones do (import
      first); nothing when neither does. `pathOf` turns a file name into the
      path written. */
  function ExportsMap(files: OutFiles, key: string, pathOf: string -> string): (r: seq<Field>)
  {
    if IsCjs(files) && IsEsm(files) then
      [Field(key, Obj([Field("import", Target(pathOf(files.esm.value), pathOf(files.esmTypes.value))),
                       Field("require", Target(pathOf(files.commonjs.value), pathOf(files.commonjsTypes.value)))]))]
    else if IsCjs(files) && !IsEsm(files) then
      [Field(key, Obj([Field("require", Target(pathOf(files.commonjs.value), pathOf(files.commonjsTypes.value)))]))]
    else if !IsCjs(files) && IsEsm(files) then
      [Field(key, Obj([Field("import", Target(pathOf(files.esm.value), pathOf(files.esmTypes.value)))]))]
    else []
  }

  /** The keys the writers take out of the parsed package.json. */
  const Named: set<string> := {"name", "version", "description", "main", "module", "type", "types", "exports"}

  /** `x ? {key: x} : {}`. */
  function IfTruthy(key: string, v: Value): (r: seq<Field>)
    ensures |r| <= 1 && (r != [] ==> r[0].key == key)
  {
    if Truthy(v) then [Field(key, v)] else []
  }

  /** `x ? {key: x} : {}` for an output file name. */
  function IfGiven(key: string, f: Option<string>, pathOf: string -> string): (r: seq<Field>)
    ensures |r| <= 1 && (r != [] ==> r[0].key == key)
  {
    if Given(f) then [Field(key, Str(pathOf(f.value)))] else []
  }

  /** The four fields written first. */
  function Head(pkg: seq<Field>, typ: Value): seq<Field> {
    [Field("name", Get(pkg, "name")), Field("version", Get(pkg, "version")),
     Field("description", Get(pkg, "description")), Field("type", typ)]
  }

  /** The object written back. */
  function Assembled(pkg: seq<Field>, typ: Value, main: seq<Field>, types: seq<Field>, moduleField: seq<Field>,
                     exports: Value): seq<Field>
  {
    Spread(Spread(Spread(Spread(Spread(Head(pkg, typ), main), types), moduleField), [Field("exports", exports)]),
           Without(pkg, Named))
  }

  /** The written object up to `exports`, in key order. */
  function Front(pkg: seq<Field>, typ: Value, main: seq<Field>, types: seq<Field>, moduleField: seq<Field>,
                 exports: Value): seq<Field>
  {
    Head(pkg, typ) + main + types + moduleField + [Field("exports", exports)]
  }

  // ------------------------------------------------------------ properties

  /** The `exports` entry has one key, `key`, exactly when some build is
      complete; its target has `import` iff the ES build is complete and
      `require` iff the CommonJS one is, each pointing at the two files. */
  lemma ExportsMapShape(files: OutFiles, key: string, pathOf: string -> string)
    ensures var r := ExportsMap(files, key, pathOf);
            && (r == [] <==> !IsCjs(files) && !IsEsm(files))
            && (r != [] ==> && |r| == 1 && r[0].key == key && r[0].value.Obj?
                            && DistinctKeys(r[0].value.fields)
                            && ("import" in Keys(r[0].value.fields) <==> IsEsm(files))
                            && ("require" in Keys(r[0].value.fields) <==> IsCjs(files))
                            && (IsEsm(files) ==> Get(r[0].value.fields, "import")
                                                 == Target(pathOf(files.esm.value), pathOf(files.esmTypes.value)))
                            && (IsCjs(files) ==> Get(r[0].value.fields, "require")
                                                 == Target(pathOf(files.commonjs.value), pathOf(files.commonjsTypes.value))))
  {
    var r := ExportsMap(files, key, pathOf);
    if r != [] {
      var fs := r[0].value.fields;
      if IsCjs(files) && IsEsm(files) {
        assert Keys(fs) == ["import", "require"];
      } else if IsCjs(files) {
        assert Keys(fs) == ["require"];
      } else {
        assert Keys(fs) == ["import"];
      }
    }
  }

  /** Key order of the written object: name, version, description, type,
      then main, types and module where present, exports, and the remaining
      fields in their old order. */
  lemma AssembledOrder(pkg: seq<Field>, typ: Value, main: seq<Field>, types: seq<Field>, moduleField: seq<Field>,
                       exports: Value)
    requires |main| <= 1 && (main != [] ==> main[0].key == "main")
    requires |types| <= 1 && (types != [] ==> types[0].key == "types")
    requires |moduleField| <= 1 && (moduleField != [] ==> moduleField[0].key == "module")
    requires DistinctKeys(pkg)
    ensures Assembled(pkg, typ, main, types, moduleField, exports)
         == Front(pkg, typ, main, types, moduleField, exports) + Without(pkg, Named)
    ensures Keys(Front(pkg, typ, main, types, moduleField, exports))[..4] == ["name", "version", "description", "type"]
  {
    FrontSpread(pkg, typ, main, types, moduleField, exports);
    var front := Front(pkg, typ, main, types, moduleField, exports);
    var rest := Without(pkg, Named);
    WithoutDistinct(pkg, Named);
    forall k | k in Keys(rest) ensures k !in Keys(front) {
    }
    SpreadDisjoint(front, rest);
  }

  lemma FrontSpread(pkg: seq<Field>, typ: Value, main: seq<Field>, types: seq<Field>, moduleField: seq<Field>,
                    exports: Value)
    requires |main| <= 1 && (main != [] ==> main[0].key == "main")
    requires |types| <= 1 && (types != [] ==> types[0].key == "types")
    requires |moduleField| <= 1 && (moduleField != [] ==> moduleField[0].key == "module")
    ensures Spread(Spread(Spread(Spread(Head(pkg, typ), main), types), moduleField), [Field("exports", exports)])
         == Front(pkg, typ, main, types, moduleField, exports)
    ensures forall k :: k in Keys(Front(pkg, typ, main, types, moduleField, exports)) ==> k in Named
    ensures Keys(Front(pkg, typ, main, types, moduleField, exports))[..4] == ["name", "version", "description", "type"]
  {
    var head := Head(pkg, typ);
    FrontKeys(head, main, types, moduleField, exports);
    assert Spread(head, main) == head + main by {
      AppendOne(head, main, "main");
    }
    assert Spread(head + main, types) == head + main + types by {
      AppendOne(head + main, types, "types");
    }
    assert Spread(head + main + types, moduleField) == head + main + types + moduleField by {
      AppendOne(head + main + types, moduleField, "module");
    }
    assert Spread(head + main + types + moduleField, [Field("exports", exports)])
        == head + main + types + moduleField + [Field("exports", exports)] by {
      AppendOne(head + main + types + moduleField, [Field("exports", exports)], "exports");
    }
  }

  lemma FrontKeys(head: seq<Field>, main: seq<Field>, types: seq<Field>, moduleField: seq<Field>, exports: Value)
    requires Keys(head) == ["name", "version", "description", "type"]
    requires |main| <= 1 && (main != [] ==> main[0].key == "main")
    requires |types| <= 1 && (types != [] ==> types[0].key == "types")
    requires |moduleField| <= 1 && (moduleField != [] ==> moduleField[0].key == "module")
    ensures "main" !in Keys(head)
    ensures "types" !in Keys(head + main)
    ensures "module" !in Keys(head + main + types)
    ensures "exports" !in Keys(head + main + types + moduleField)
    ensures forall k :: k in Keys(head + main + types + moduleField + [Field("exports", exports)]) ==> k in Named
    ensures Keys(head + main + types + moduleField + [Field("exports", exports)])[..4] == Keys(head)
  {
    KeysConcat(head, main);
    KeysConcat(head + main, types);
    KeysConcat(head + main + types, moduleField);
    KeysConcat(head + main + types + moduleField, [Field("exports", exports)]);
  }

  /** Every field the writers do not name keeps its value. */
  lemma AssembledKeeps(pkg: seq<Field>, typ: Value, main: seq<Field>, types: seq<Field>, moduleField: seq<Field>,
                       exports: Value, k: string)
    requires |main| <= 1 && (main != [] ==> main[0].key == "main")
    requires |types| <= 1 && (types != [] ==> types[0].key == "types")
    requires |moduleField| <= 1 && (moduleField != [] ==> moduleField[0].key == "module")
    requires DistinctKeys(pkg)
    requires k !in Named
    ensures Get(Assembled(pkg, typ, main, types, moduleField, exports), k) == Get(pkg, k)
  {
    AssembledOrder(pkg, typ, main, types, moduleField, exports);
    FrontSpread(pkg, typ, main, types, moduleField, exports);
    GetConcat(Front(pkg, typ, main, types, moduleField, exports), Without(pkg, Named), k);
    WithoutGet(pkg, Named, k);
  }

  /** The value a part of at most one field gives its key. */
  function Lone(part: seq<Field>): Value {
    if part == [] then Undefined else part[0].value
  }

  /** What the written object holds under each key the writers name: name,
      version and description as read, the type given, main, types and
      module where their part is present, and the new exports value. */
  lemma AssembledGet(pkg: seq<Field>, typ: Value, main: seq<Field>, types: seq<Field>, moduleField: seq<Field>,
                     exports: Value)
    requires |main| <= 1 && (main != [] ==> main[0].key == "main")
    requires |types| <= 1 && (types != [] ==> types[0].key == "types")
    requires |moduleField| <= 1 && (moduleField != [] ==> moduleField[0].key == "module")
    requires DistinctKeys(pkg)
    ensures var w := Assembled(pkg, typ, main, types, moduleField, exports);
            && Get(w, "name") == Get(pkg, "name") && Get(w, "version") == Get(pkg, "version")
            && Get(w, "description") == Get(pkg, "description") && Get(w, "type") == typ
            && Get(w, "main") == Lone(main) && Get(w, "types") == Lone(types)
            && Get(w, "module") == Lone(moduleField) && Get(w, "exports") == exports
  {
    var w := Assembled(pkg, typ, main, types, moduleField, exports);
    var head := Head(pkg, typ);
    HeadGet(pkg, typ);
    assert Get(w, "name") == Get(head, "name") by {
      AssembledGetKey(pkg, typ, main, types, moduleField, exports, "name");
    }
    assert Get(w, "version") == Get(head, "version") by {
      AssembledGetKey(pkg, typ, main, types, moduleField, exports, "version");
    }
    assert Get(w, "description") == Get(head, "description") by {
      AssembledGetKey(pkg, typ, main, types, moduleField, exports, "description");
    }
    assert Get(w, "type") == Get(head, "type") by {
      AssembledGetKey(pkg, typ, main, types, moduleField, exports, "type");
    }
    assert Get(w, "main") == Lone(main) by {
      AssembledGetKey(pkg, typ, main, types, moduleField, exports, "main");
    }
    assert Get(w, "types") == Lone(types) by {
      AssembledGetKey(pkg, typ, main, types, moduleField, exports, "types");
    }
    assert Get(w, "module") == Lone(moduleField) by {
      AssembledGetKey(pkg, typ, main, types, moduleField, exports, "module");
    }
    assert Get(w, "exports") == exports by {
      AssembledGetKey(pkg, typ, main, types, moduleField, exports, "exports");
    }
  }

  lemma HeadGet(pkg: seq<Field>, typ: Value)
    ensures Get(Head(pkg, typ), "name") == Get(pkg, "name")
    ensures Get(Head(pkg, typ), "version") == Get(pkg, "version")
    ensures Get(Head(pkg, typ), "description") == Get(pkg, "description")
    ensures Get(Head(pkg, typ), "type") == typ
  {
    var head := Head(pkg, typ);
    var tail := [Field("description", Get(pkg, "description")), Field("type", typ)];
    assert head[1..][1..] == tail;
    assert Get(tail, "description") == Get(pkg, "description");
    assert tail[1..] == [Field("type", typ)];
    assert Get(tail, "type") == typ;
  }

  lemma AssembledGetKey(pkg: seq<Field>, typ: Value, main: seq<Field>, types: seq<Field>, moduleField: seq<Field>,
                        exports: Value, k: string)
    requires |main| <= 1 && (main != [] ==> main[0].key == "main")
    requires |types| <= 1 && (types != [] ==> types[0].key == "types")
    requires |moduleField| <= 1 && (moduleField != [] ==> moduleField[0].key == "module")
    requires DistinctKeys(pkg)
    requires k in Named
    ensures Get(Assembled(pkg, typ, main, types, moduleField, exports), k)
         == if k == "exports" then exports
            else if k == "module" then Lone(moduleField)
            else if k == "types" then Lone(types)
            else if k == "main" then Lone(main)
            else Get(Head(pkg, typ), k)
  {
    AssembledOrder(pkg, typ, main, types, moduleField, exports);
    var front := Front(pkg, typ, main, types, moduleField, exports);
    GetConcat(front, Without(pkg, Named), k);
    WithoutGet(pkg, Named, k);
    FrontGet(Head(pkg, typ), main, types, moduleField, exports, k);
  }

  lemma FrontGet(head: seq<Field>, main: seq<Field>, types: seq<Field>, moduleField: seq<Field>, exports: Value,
                 k: string)
    requires Keys(head) == ["name", "version", "description", "type"]
    requires |main| <= 1 && (main != [] ==> main[0].key == "main")
    requires |types| <= 1 && (types != [] ==> types[0].key == "types")
    requires |moduleField| <= 1 && (moduleField != [] ==> moduleField[0].key == "module")
    ensures Get(head + main + types + moduleField + [Field("exports", exports)], k)
         == if k == "exports" then exports
            else if k == "module" then Lone(moduleField)
            else if k == "types" then Lone(types)
            else if k == "main" then Lone(main)
            else Get(head, k)
  {
    FrontKeys(head, main, types, moduleField, exports);
    GetOne(head + main + types + moduleField, [Field("exports", exports)], "exports", k);
    GetOne(head + main + types, moduleField, "module", k);
    GetOne(head + main, types, "types", k);
    GetOne(head, main, "main", k);
  }

  /** Reading an object with a part of at most one field appended under a
      new key. */
  lemma GetOne(a: seq<Field>, part: seq<Field>, key: string, k: string)
    requires |part| <= 1 && (part != [] ==> part[0].key == key)
    requires key !in Keys(a)
    ensures Get(a + part, k) == if k == key then Lone(part) else Get(a, k)
  {
    GetConcat(a, part, k);
    if part != [] && k != key {
      assert Keys(part) == [key];
    }
  }

  /** Spreading a part of at most one field under a key the object lacks
      appends it. */
  lemma AppendOne(a: seq<Field>, part: seq<Field>, key: string)
    requires |part| <= 1 && (part != [] ==> part[0].key == key)
    requires key !in Keys(a)
    ensures Spread(a, part) == a + part
    ensures Keys(a + part) == Keys(a) + Keys(part)
  {
    SpreadDisjoint(a, part);
  }

  lemma {:induction false} WithoutDistinct(fs: seq<Field>, names: set<string>)
    requires DistinctKeys(fs)
    ensures DistinctKeys(Without(fs, names))
    ensures forall k :: k in Keys(Without(fs, names)) ==> k !in names
    decreases |fs|
  {
    var r := Without(fs, names);
    if fs != [] {
      TailDistinct(fs);
      WithoutDistinct(fs[1..], names);
      if fs[0].key !in names {
        HeadApart(fs, Without(fs[1..], names));
        ConsDistinct(fs[0], Without(fs[1..], names));
      }
    }
    KeysAvoid(r, names);
  }

  lemma TailDistinct(fs: seq<Field>)
    requires DistinctKeys(fs) && fs != []
    ensures DistinctKeys(fs[1..])
  {
    forall i, j | 0 <= i < j < |fs[1..]| ensures fs[1..][i].key != fs[1..][j].key {
      assert fs[1..][i] == fs[i + 1] && fs[1..][j] == fs[j + 1];
    }
  }

  /** No field taken from the tail shares the head's key. */
  lemma HeadApart(fs: seq<Field>, rest: seq<Field>)
    requires DistinctKeys(fs) && fs != []
    requires forall f :: f in rest ==> f in fs[1..]
    ensures forall f :: f in rest ==> f.key != fs[0].key
  {
    forall f | f in rest ensures f.key != fs[0].key {
      var m :| 0 <= m < |fs[1..]| && fs[1..][m] == f;
      assert fs[m + 1] == f;
    }
  }

  lemma ConsDistinct(f: Field, rest: seq<Field>)
    requires DistinctKeys(rest)
    requires forall g :: g in rest ==> g.key != f.key
    ensures DistinctKeys([f] + rest)
  {
    var r := [f] + rest;
    forall i, j | 0 <= i < j < |r| ensures r[i].key != r[j].key {
      assert r[j] == rest[j - 1];
      if i == 0 {
        assert rest[j - 1] in rest;
      } else {
        assert r[i] == rest[i - 1];
      }
    }
  }

  lemma KeysAvoid(r: seq<Field>, names: set<string>)
    requires forall f :: f in r ==> f.key !in names
    ensures forall k :: k in Keys(r) ==> k !in names
  {
    forall k | k in Keys(r) ensures k !in names {
      var m :| 0 <= m < |r| && Keys(r)[m] == k;
      assert r[m] in r;
    }
  }
}
