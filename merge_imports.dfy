// `mergeImports` (dist/index.mjs:97-194): the hoisted import texts are read
// with two regular expressions and sorted into five insertion-ordered maps of
// insertion-ordered sets (regular and type-only named imports, regular and
// type-only default imports, namespace imports); one statement per module
// and kind is then written out, and the list of statements is sorted.
module MergeImports {
  import opened Wrappers
  import opened Text
  import opened ImportRegex
  import IA = ImportsAll

  // ------------------------------------------------------------ the tables

  /** A JavaScript `Map` from module path to a `Set` of names: the keys in
      insertion order, each set as its insertion order. */
  datatype Table = Table(keys: seq<string>, sets: map<string, seq<string>>)

  const NoTable := Table([], map[])

  ghost predicate ValidTable(t: Table) {
    Distinct(t.keys)
    && (forall k :: k in t.sets <==> k in t.keys)
    && (forall k :: k in t.sets ==> Distinct(t.sets[k]))
  }

  /** `map.get(k) || new Set()`. */
  function Get(t: Table, k: string): seq<string> {
    if k in t.sets then t.sets[k] else []
  }

  /** Adding names one at a time to an insertion-ordered set. */
  function AddAll(s: seq<string>, ns: seq<string>): (r: seq<string>)
    ensures forall y :: y in r <==> y in s || y in ns
    ensures Distinct(s) ==> Distinct(r)
    decreases |ns|
  {
    if ns == [] then s else AddUnique(AddAll(s, ns[..|ns| - 1]), ns[|ns| - 1])
  }

  /** `if (!m.has(k)) m.set(k, new Set())`, then every name added to `m.get(k)`. */
  function Put(t: Table, k: string, ns: seq<string>): (r: Table)
    ensures ValidTable(t) ==> ValidTable(r)
    ensures forall j :: j in r.sets <==> j in t.sets || j == k
    ensures forall j :: j != k ==> Get(r, j) == Get(t, j)
    ensures forall y :: y in Get(r, k) <==> y in Get(t, k) || y in ns
    ensures Get(r, k) == AddAll(Get(t, k), ns)
  {
    Table(if k in t.sets then t.keys else t.keys + [k], t.sets[k := AddAll(Get(t, k), ns)])
  }

  // ---------------------------------------------------- reading one text

  /** What one hoisted text contributes. */
  datatype Hoisted =
    | Skipped
    | Named(isType: bool, path: string, names: seq<string>)
    | Default(isType: bool, path: string, name: string)
    | Star(path: string, name: string)

  predicate IsBrace(c: char) { c == '{' || c == '}' }

  /** `x.replace(/[{}]/g, "")`. */
  function DropBraces(x: string): string {
    if x == [] then [] else (if IsBrace(x[0]) then [] else [x[0]]) + DropBraces(x[1..])
  }

  function TrimEach(ps: seq<string>): (r: seq<string>)
    ensures |r| == |ps| && forall i :: 0 <= i < |ps| ==> r[i] == Trim(ps[i])
  {
    if ps == [] then [] else [Trim(ps[0])] + TrimEach(ps[1..])
  }

  /** `.filter(Boolean)` on strings: the empty ones go, the order stays. */
  function NonEmpty(ps: seq<string>): (r: seq<string>)
    ensures forall y :: y in r <==> y in ps && y != []
    ensures (forall i :: 0 <= i < |ps| ==> ps[i] != []) ==> r == ps
  {
    if ps == [] then [] else (if ps[0] == [] then [] else [ps[0]]) + NonEmpty(ps[1..])
  }

  /** The names of a `{ … }` clause:
      `clause.replace(/[{}]/g, "").split(",").map(s => s.trim()).filter(Boolean)`. */
  function ClauseNames(clause: string): (r: seq<string>)
    ensures forall y :: y in r ==> y != [] && ',' !in y
  {
    var pieces := Split(DropBraces(clause), ',');
    forall i | 0 <= i < |pieces| ensures ',' !in Trim(pieces[i]) {
      TrimWithin(pieces[i]);
    }
    NonEmpty(TrimEach(pieces))
  }

  /** Every character of a trimmed string comes from the string. */
  lemma TrimWithin(s: string)
    ensures forall c :: c in Trim(s) ==> c in s
  {
    TrimStartSuffix(s);
    TrimEndPrefix(TrimStart(s));
    forall c | c in Trim(s) ensures c in s {
      var t := TrimStart(s);
      var i :| 0 <= i < |Trim(s)| && Trim(s)[i] == c;
      assert t[i] == c;
      assert s[|s| - |t| + i] == c;
    }
  }

  /** The reading of one text once the import pattern has matched; `isType`
      is how the text is told to be type-only. */
  function ClassifyWith(s: string, cap: Capture, isType: bool): (r: Hoisted)
    ensures r.Named? ==> r.isType == isType && r.path == cap.path
    ensures r.Default? ==> r.isType == isType && r.path == cap.path
    ensures r.Star? ==> r.path == cap.path
    ensures r.Named? <==> cap.clause.Some? && cap.clause.value != [] && StartsWith(cap.clause.value, "{")
  {
    if cap.clause.None? || cap.clause.value == [] then
      match DefaultMatch(s)
      case None => Skipped
      case Some(n) => Default(isType, cap.path, n)
    else
      var cl := cap.clause.value;
      if StartsWith(cl, "{") then Named(isType, cap.path, ClauseNames(cl))
      else if StartsWith(cl, "* as") then
        match NamespaceMatch(cl)
        case None => Skipped
        case Some(n) => Star(cap.path, n)
      else Default(isType, cap.path, Trim(cl))
  }

  /** As written: a text is type-only iff it contains "import type". */
  function ClassifyAsWritten(s: string): (r: Hoisted)
    ensures ImportMatch(s).None? ==> r == Skipped
    ensures (r.Named? || r.Default?) ==> r.isType == Contains(s, "import type")
  {
    match ImportMatch(s)
    case None => Skipped
    case Some(cap) => ClassifyWith(s, cap, Contains(s, "import type"))
  }

  /** Corrected: a text is type-only iff the pattern's own `type\s+` took
      part in the match. */
  function Classify(s: string): (r: Hoisted)
    ensures ImportMatch(s).None? ==> r == Skipped
    ensures (r.Named? || r.Default?) ==> r.isType == ImportMatch(s).value.typed
    ensures r != Skipped ==> PathText(r.path)
  {
    match ImportMatch(s)
    case None => Skipped
    case Some(cap) => ClassifyWith(s, cap, cap.typed)
  }

  function Classified(imports: seq<string>): (r: seq<Hoisted>)
    ensures |r| == |imports| && forall i :: 0 <= i < |imports| ==> r[i] == Classify(imports[i])
  {
    if imports == [] then [] else [Classify(imports[0])] + Classified(imports[1..])
  }

  function ClassifiedAsWritten(imports: seq<string>): (r: seq<Hoisted>)
    ensures |r| == |imports| && forall i :: 0 <= i < |imports| ==> r[i] == ClassifyAsWritten(imports[i])
  {
    if imports == [] then [] else [ClassifyAsWritten(imports[0])] + ClassifiedAsWritten(imports[1..])
  }

  // -------------------------------------------------------- filling the maps

  datatype Tables = Tables(named: Table, typeNamed: Table, defaults: Table, typeDefaults: Table, namespaces: Table)

  const NoTables := Tables(NoTable, NoTable, NoTable, NoTable, NoTable)

  /** One text recorded in the map its kind selects. */
  function Record(t: Tables, h: Hoisted): Tables {
    match h
    case Skipped => t
    case Named(isType, p, ns) =>
      if isType then t.(typeNamed := Put(t.typeNamed, p, ns)) else t.(named := Put(t.named, p, ns))
    case Default(isType, p, n) =>
      if isType then t.(typeDefaults := Put(t.typeDefaults, p, [n])) else t.(defaults := Put(t.defaults, p, [n]))
    case Star(p, n) => t.(namespaces := Put(t.namespaces, p, [n]))
  }

  function Collect(hs: seq<Hoisted>): Tables
    decreases |hs|
  {
    if hs == [] then NoTables else Record(Collect(hs[..|hs| - 1]), hs[|hs| - 1])
  }

  // ---------------------------------------------------- writing statements

  /** The five output loops. */
  datatype Part = NamedPart | TypeNamedPart | DefaultPart | TypeDefaultPart | StarPart

  function Of(t: Tables, p: Part): Table {
    match p
    case NamedPart => t.named
    case TypeNamedPart => t.typeNamed
    case DefaultPart => t.defaults
    case TypeDefaultPart => t.typeDefaults
    case StarPart => t.namespaces
  }

  /** The statement one module contributes to one loop, if any. Named lists
      are sorted; default and namespace lists keep insertion order; a
      type-only list is written only when the module has no regular one. */
  function LineFor(t: Tables, p: Part, k: string): Option<string> {
    match p
    case NamedPart =>
      var f := AddAll(Get(t.named, k), Get(t.typeNamed, k));
      if f != [] then Some(IA.NamedImport(Sort(f), k)) else None
    case TypeNamedPart =>
      if k !in t.named.sets && Get(t.typeNamed, k) != [] then
        Some(IA.TypeNamedImport(Join(Sort(Get(t.typeNamed, k)), ", "), k))
      else None
    case DefaultPart =>
      var f := AddAll(Get(t.defaults, k), Get(t.typeDefaults, k));
      if f != [] then Some(IA.DefaultImport(Join(f, ", "), k)) else None
    case TypeDefaultPart =>
      if k !in t.defaults.sets && Get(t.typeDefaults, k) != [] then
        Some(IA.TypeDefaultImport(Join(Get(t.typeDefaults, k), ", "), k))
      else None
    case StarPart =>
      var f := Get(t.namespaces, k);
      if f != [] then Some(IA.NamespaceImport(Join(f, ", "), k)) else None
  }

  /** The present values of a list of options, in order. */
  function Somes(xs: seq<Option<string>>): (r: seq<string>)
    decreases |xs|
  {
    if xs == [] then []
    else Somes(xs[..|xs| - 1]) + (if xs[|xs| - 1].Some? then [xs[|xs| - 1].value] else [])
  }

  /** What each key contributes to one loop. */
  function Outcomes(t: Tables, p: Part, keys: seq<string>): (r: seq<Option<string>>)
    decreases |keys|
  {
    if keys == [] then [] else Outcomes(t, p, keys[..|keys| - 1]) + [LineFor(t, p, keys[|keys| - 1])]
  }

  /** The statements of one loop over the given keys, in their order. */
  function Lines(t: Tables, p: Part, keys: seq<string>): seq<string> {
    Somes(Outcomes(t, p, keys))
  }

  function Emit(t: Tables): seq<string> {
    Lines(t, NamedPart, t.named.keys) + Lines(t, TypeNamedPart, t.typeNamed.keys)
    + Lines(t, DefaultPart, t.defaults.keys) + Lines(t, TypeDefaultPart, t.typeDefaults.keys)
    + Lines(t, StarPart, t.namespaces.keys)
  }

  /** The sorted statements for texts already read. */
  function MergeHoisted(hs: seq<Hoisted>): (r: seq<string>)
    ensures Sorted(r)
    ensures multiset(r) == multiset(Emit(Collect(hs)))
  {
    Sort(Emit(Collect(hs)))
  }

  function Merged(imports: seq<string>): seq<string> {
    MergeHoisted(Classified(imports))
  }

  function MergedAsWritten(imports: seq<string>): seq<string> {
    MergeHoisted(ClassifiedAsWritten(imports))
  }

  // ------------------------------------------------- what the maps hold

  /** Whether a reading feeds the map of loop `p` under module `k`. */
  predicate Feeds(h: Hoisted, p: Part, k: string) {
    match h
    case Skipped => false
    case Named(isType, path, _) => path == k && p == (if isType then TypeNamedPart else NamedPart)
    case Default(isType, path, _) => path == k && p == (if isType then TypeDefaultPart else DefaultPart)
    case Star(path, _) => path == k && p == StarPart
  }

  function NamesOf(h: Hoisted): seq<string> {
    match h
    case Skipped => []
    case Named(_, _, ns) => ns
    case Default(_, _, n) => [n]
    case Star(_, n) => [n]
  }

  /** Every name the texts give loop `p` for module `k`, in text order. */
  function Given(hs: seq<Hoisted>, p: Part, k: string): seq<string>
    decreases |hs|
  {
    if hs == [] then []
    else Given(hs[..|hs| - 1], p, k) + (if Feeds(hs[|hs| - 1], p, k) then NamesOf(hs[|hs| - 1]) else [])
  }

  /** Adding names one by one to a set built from `a` is building it from `a + b`. */
  lemma {:induction false} AddAllDedup(a: seq<string>, b: seq<string>)
    ensures AddAll(Dedup(a), b) == Dedup(a + b)
    decreases |b|
  {
    if b == [] {
      assert a + b == a;
    } else {
      AddAllDedup(a, b[..|b| - 1]);
      assert (a + b)[..|a + b| - 1] == a + b[..|b| - 1];
    }
  }

  lemma OfRecord(t: Tables, h: Hoisted, p: Part)
    ensures h != Skipped && Feeds(h, p, h.path) ==> Of(Record(t, h), p) == Put(Of(t, p), h.path, NamesOf(h))
    ensures !(h != Skipped && Feeds(h, p, h.path)) ==> Of(Record(t, h), p) == Of(t, p)
  {
  }

  /** Each map has distinct keys, its keys are its domain, and each set has
      distinct names. */
  lemma {:induction false} CollectValid(hs: seq<Hoisted>, p: Part)
    ensures ValidTable(Of(Collect(hs), p))
    decreases |hs|
  {
    if hs != [] {
      CollectValid(hs[..|hs| - 1], p);
      OfRecord(Collect(hs[..|hs| - 1]), hs[|hs| - 1], p);
    }
  }

  /** A module is a key of a map iff some text feeds that map under it. */
  lemma {:induction false} CollectKeys(hs: seq<Hoisted>, p: Part, k: string)
    ensures k in Of(Collect(hs), p).sets <==> exists i :: 0 <= i < |hs| && Feeds(hs[i], p, k)
    decreases |hs|
  {
    if hs != [] {
      var front, h := hs[..|hs| - 1], hs[|hs| - 1];
      CollectKeys(front, p, k);
      OfRecord(Collect(front), h, p);
      assert forall i :: 0 <= i < |front| ==> front[i] == hs[i];
      if Feeds(h, p, k) {
        assert h != Skipped && Feeds(h, p, h.path) && h.path == k;
      }
      if exists i :: 0 <= i < |hs| && Feeds(hs[i], p, k) {
        var i :| 0 <= i < |hs| && Feeds(hs[i], p, k);
        if i < |front| {
          assert Feeds(front[i], p, k);
        }
      }
    }
  }

  /** The names a map holds for a module are those the texts give it, first
      occurrences kept, in text order. */
  lemma {:induction false} CollectNames(hs: seq<Hoisted>, p: Part, k: string)
    ensures Get(Of(Collect(hs), p), k) == Dedup(Given(hs, p, k))
    decreases |hs|
  {
    if hs != [] {
      var front, h := hs[..|hs| - 1], hs[|hs| - 1];
      CollectNames(front, p, k);
      OfRecord(Collect(front), h, p);
      if h != Skipped && Feeds(h, p, h.path) && h.path == k {
        AddAllDedup(Given(front, p, k), NamesOf(h));
        assert Feeds(h, p, k);
        assert Given(hs, p, k) == Given(front, p, k) + NamesOf(h);
        assert Of(Collect(hs), p) == Put(Of(Collect(front), p), k, NamesOf(h));
      } else {
        assert !Feeds(h, p, k);
        assert Given(hs, p, k) == Given(front, p, k) + [] == Given(front, p, k);
        assert Get(Of(Collect(hs), p), k) == Get(Of(Collect(front), p), k);
      }
    }
  }

  /** Some text feeds the map of loop `p` under module `k`. */
  ghost predicate Fed(hs: seq<Hoisted>, p: Part, k: string) {
    exists i :: 0 <= i < |hs| && Feeds(hs[i], p, k)
  }

  /** A name is given to loop `p` for module `k` iff a text feeding that
      map under `k` carries it. */
  lemma {:induction false} GivenMembers(hs: seq<Hoisted>, p: Part, k: string, y: string)
    ensures y in Given(hs, p, k) <==> exists i :: 0 <= i < |hs| && Feeds(hs[i], p, k) && y in NamesOf(hs[i])
    decreases |hs|
  {
    if hs != [] {
      var front := hs[..|hs| - 1];
      GivenMembers(front, p, k, y);
      assert forall i :: 0 <= i < |front| ==> front[i] == hs[i];
      if y in Given(hs, p, k) && y !in Given(front, p, k) {
        assert Feeds(hs[|hs| - 1], p, k) && y in NamesOf(hs[|hs| - 1]);
      }
    }
  }

  /** Building a set from a list with repeats dropped is building it from the list. */
  lemma {:induction false} AddAllOfDedup(x: seq<string>, b: seq<string>)
    ensures AddAll(x, Dedup(b)) == AddAll(x, b)
    decreases |b|
  {
    if b != [] {
      var front, y := b[..|b| - 1], b[|b| - 1];
      AddAllOfDedup(x, front);
      if y !in front {
        assert Dedup(b) == Dedup(front) + [y];
        assert (Dedup(front) + [y])[..|Dedup(front)|] == Dedup(front);
      }
    }
  }

  /** A default or namespace text always carries its one name. */
  lemma FedGives(hs: seq<Hoisted>, p: Part, k: string)
    requires p != NamedPart && p != TypeNamedPart && Fed(hs, p, k)
    ensures Given(hs, p, k) != []
  {
    var i :| 0 <= i < |hs| && Feeds(hs[i], p, k);
    GivenMembers(hs, p, k, NamesOf(hs[i])[0]);
  }

  /** A module with a regular named import gets one named statement, listing
      the sorted union of its regular and type-only names, and no type-only
      named statement. */
  lemma NamedStatement(hs: seq<Hoisted>, k: string)
    requires Fed(hs, NamedPart, k)
    ensures var u := Dedup(Given(hs, NamedPart, k) + Given(hs, TypeNamedPart, k));
      LineFor(Collect(hs), NamedPart, k) == (if u != [] then Some(IA.NamedImport(Sort(u), k)) else None)
    ensures LineFor(Collect(hs), TypeNamedPart, k) == None
  {
    CollectKeys(hs, NamedPart, k);
    CollectNames(hs, NamedPart, k);
    CollectNames(hs, TypeNamedPart, k);
    AddAllOfDedup(Dedup(Given(hs, NamedPart, k)), Given(hs, TypeNamedPart, k));
    AddAllDedup(Given(hs, NamedPart, k), Given(hs, TypeNamedPart, k));
  }

  /** A module with only type-only named imports gets one `import type { … }`
      statement listing its names sorted. */
  lemma TypeNamedStatement(hs: seq<Hoisted>, k: string)
    requires !Fed(hs, NamedPart, k)
    ensures var u := Dedup(Given(hs, TypeNamedPart, k));
      LineFor(Collect(hs), TypeNamedPart, k) == (if u != [] then Some(IA.TypeNamedImport(Join(Sort(u), ", "), k)) else None)
  {
    CollectKeys(hs, NamedPart, k);
    CollectNames(hs, TypeNamedPart, k);
  }

  /** A module with a regular default import gets one default statement,
      joining its regular and then its type-only default names in text
      order, and no type-only default statement. */
  lemma DefaultStatement(hs: seq<Hoisted>, k: string)
    requires Fed(hs, DefaultPart, k)
    ensures LineFor(Collect(hs), DefaultPart, k)
            == Some(IA.DefaultImport(Join(Dedup(Given(hs, DefaultPart, k) + Given(hs, TypeDefaultPart, k)), ", "), k))
    ensures LineFor(Collect(hs), TypeDefaultPart, k) == None
  {
    var t := Collect(hs);
    CollectKeys(hs, DefaultPart, k);
    assert k in t.defaults.sets;
    DefaultNames(hs, k);
  }

  lemma DefaultNames(hs: seq<Hoisted>, k: string)
    requires Fed(hs, DefaultPart, k)
    ensures var t := Collect(hs);
      AddAll(Get(t.defaults, k), Get(t.typeDefaults, k)) == Dedup(Given(hs, DefaultPart, k) + Given(hs, TypeDefaultPart, k)) != []
  {
    var a, b := Given(hs, DefaultPart, k), Given(hs, TypeDefaultPart, k);
    CollectNames(hs, DefaultPart, k);
    CollectNames(hs, TypeDefaultPart, k);
    FedGives(hs, DefaultPart, k);
    AddAllOfDedup(Dedup(a), b);
    AddAllDedup(a, b);
    assert a[0] in Dedup(a + b);
  }

  /** A module with only type-only default imports gets one `import type X`
      statement joining its names in text order. */
  lemma TypeDefaultStatement(hs: seq<Hoisted>, k: string)
    requires !Fed(hs, DefaultPart, k) && Fed(hs, TypeDefaultPart, k)
    ensures LineFor(Collect(hs), TypeDefaultPart, k)
            == Some(IA.TypeDefaultImport(Join(Dedup(Given(hs, TypeDefaultPart, k)), ", "), k))
  {
    CollectKeys(hs, DefaultPart, k);
    CollectNames(hs, TypeDefaultPart, k);
    FedGives(hs, TypeDefaultPart, k);
  }

  /** A module with namespace imports gets one namespace statement joining
      its aliases in text order. */
  lemma StarStatement(hs: seq<Hoisted>, k: string)
    requires Fed(hs, StarPart, k)
    ensures LineFor(Collect(hs), StarPart, k)
            == Some(IA.NamespaceImport(Join(Dedup(Given(hs, StarPart, k)), ", "), k))
  {
    CollectNames(hs, StarPart, k);
    FedGives(hs, StarPart, k);
  }

  lemma {:induction false} SomesMembers(xs: seq<Option<string>>, line: string)
    ensures line in Somes(xs) <==> Some(line) in xs
    decreases |xs|
  {
    if xs != [] {
      SomesMembers(xs[..|xs| - 1], line);
      assert xs == xs[..|xs| - 1] + [xs[|xs| - 1]];
    }
  }

  lemma {:induction false} OutcomesAt(t: Tables, p: Part, keys: seq<string>)
    ensures |Outcomes(t, p, keys)| == |keys|
    ensures forall i :: 0 <= i < |keys| ==> Outcomes(t, p, keys)[i] == LineFor(t, p, keys[i])
    decreases |keys|
  {
    if keys != [] {
      var init := keys[..|keys| - 1];
      OutcomesAt(t, p, init);
      var o := Outcomes(t, p, init);
      assert Outcomes(t, p, keys) == o + [LineFor(t, p, keys[|keys| - 1])];
      forall i | 0 <= i < |keys| ensures Outcomes(t, p, keys)[i] == LineFor(t, p, keys[i]) {
        if i < |keys| - 1 {
          assert init[i] == keys[i];
        }
      }
    }
  }

  lemma LinesMembers(t: Tables, p: Part, keys: seq<string>, line: string)
    ensures line in Lines(t, p, keys) <==> exists i :: 0 <= i < |keys| && LineFor(t, p, keys[i]) == Some(line)
  {
    SomesMembers(Outcomes(t, p, keys), line);
    OutcomesAt(t, p, keys);
    if Some(line) in Outcomes(t, p, keys) {
      var i :| 0 <= i < |keys| && Outcomes(t, p, keys)[i] == Some(line);
      assert LineFor(t, p, keys[i]) == Some(line);
    }
  }

  /** The statements of one loop are those of the modules fed to its map. */
  lemma PartLines(hs: seq<Hoisted>, p: Part, line: string)
    ensures line in Lines(Collect(hs), p, Of(Collect(hs), p).keys)
            <==> exists k :: Fed(hs, p, k) && LineFor(Collect(hs), p, k) == Some(line)
  {
    var t := Collect(hs);
    LinesMembers(t, p, Of(t, p).keys, line);
    CollectValid(hs, p);
    forall k ensures k in Of(t, p).keys <==> Fed(hs, p, k) {
      CollectKeys(hs, p, k);
    }
  }

  lemma EmitMembers(t: Tables, line: string)
    ensures line in Emit(t) <==> exists p :: line in Lines(t, p, Of(t, p).keys)
  {
    if exists p :: line in Lines(t, p, Of(t, p).keys) {
      var p :| line in Lines(t, p, Of(t, p).keys);
      match p {
        case NamedPart =>
        case TypeNamedPart =>
        case DefaultPart =>
        case TypeDefaultPart =>
        case StarPart =>
      }
    }
    if line in Emit(t) {
      if line in Lines(t, NamedPart, t.named.keys) {
        assert line in Lines(t, NamedPart, Of(t, NamedPart).keys);
      } else if line in Lines(t, TypeNamedPart, t.typeNamed.keys) {
        assert line in Lines(t, TypeNamedPart, Of(t, TypeNamedPart).keys);
      } else if line in Lines(t, DefaultPart, t.defaults.keys) {
        assert line in Lines(t, DefaultPart, Of(t, DefaultPart).keys);
      } else if line in Lines(t, TypeDefaultPart, t.typeDefaults.keys) {
        assert line in Lines(t, TypeDefaultPart, Of(t, TypeDefaultPart).keys);
      } else {
        assert line in Lines(t, StarPart, Of(t, StarPart).keys);
      }
    }
  }

  /** The statements written for texts already read are exactly those of
      the modules fed to each of the five maps. */
  lemma MergeHoistedStatements(hs: seq<Hoisted>, line: string)
    ensures line in MergeHoisted(hs) <==> exists p, k :: Fed(hs, p, k) && LineFor(Collect(hs), p, k) == Some(line)
  {
    var t := Collect(hs);
    assert line in MergeHoisted(hs) <==> line in multiset(Emit(t));
    EmitMembers(t, line);
    forall p ensures line in Lines(t, p, Of(t, p).keys) <==> exists k :: Fed(hs, p, k) && LineFor(t, p, k) == Some(line) {
      PartLines(hs, p, line);
    }
    if exists p, k :: Fed(hs, p, k) && LineFor(t, p, k) == Some(line) {
      var p, k :| Fed(hs, p, k) && LineFor(t, p, k) == Some(line);
      assert line in Lines(t, p, Of(t, p).keys);
    }
  }

  /** The merged list holds exactly the statements of the modules fed to
      each of the five maps, and it is sorted. */
  lemma MergedStatements(imports: seq<string>, line: string)
    ensures Sorted(Merged(imports))
    ensures line in Merged(imports)
            <==> exists p, k :: Fed(Classified(imports), p, k) && LineFor(Collect(Classified(imports)), p, k) == Some(line)
  {
    assert Merged(imports) == MergeHoisted(Classified(imports));
    MergeHoistedStatements(Classified(imports), line);
  }

  // ------------------------------------------- reading back what is written

  /** Identifiers as the statement builders list them. */
  predicate Word(n: string) {
    n != [] && forall j :: 0 <= j < |n| ==> IsWordChar(n[j])
  }

  predicate WordNames(names: seq<string>) {
    names != [] && forall i :: 0 <= i < |names| ==> Word(names[i])
  }

  lemma {:induction false} JoinedWords(names: seq<string>)
    requires forall i :: 0 <= i < |names| ==> Word(names[i])
    ensures forall j :: 0 <= j < |Join(names, ", ")| ==> IsWordChar(Join(names, ", ")[j]) || Join(names, ", ")[j] in ", "
    decreases |names|
  {
    if |names| > 1 {
      JoinedWords(names[1..]);
      var rest := Join(names[1..], ", ");
      assert Join(names, ", ") == names[0] + ", " + rest;
      forall j | 0 <= j < |Join(names, ", ")|
        ensures IsWordChar(Join(names, ", ")[j]) || Join(names, ", ")[j] in ", "
      {
        if j >= |names[0]| + 2 {
          assert Join(names, ", ")[j] == rest[j - |names[0]| - 2];
        }
      }
    }
  }

  lemma {:induction false} DropBracesConcat(a: string, b: string)
    ensures DropBraces(a + b) == DropBraces(a) + DropBraces(b)
    decreases |a|
  {
    if a != [] {
      assert (a + b)[0] == a[0];
      assert (a + b)[1..] == a[1..] + b;
      DropBracesConcat(a[1..], b);
      var h := if IsBrace(a[0]) then [] else [a[0]];
      assert DropBraces(a + b) == h + DropBraces(a[1..] + b);
      assert DropBraces(a) == h + DropBraces(a[1..]);
      assert h + (DropBraces(a[1..]) + DropBraces(b)) == (h + DropBraces(a[1..])) + DropBraces(b);
    } else {
      assert a + b == b;
    }
  }

  lemma {:induction false} DropBracesNone(a: string)
    requires forall j :: 0 <= j < |a| ==> !IsBrace(a[j])
    ensures DropBraces(a) == a
    decreases |a|
  {
    if a != [] {
      DropBracesNone(a[1..]);
    }
  }

  /** A word with one space before (and possibly after) it trims to itself. */
  lemma TrimPadded(n: string, after: bool)
    requires Word(n)
    ensures Trim(" " + n + (if after then " " else "")) == n
  {
    var x := " " + n + (if after then " " else "");
    assert x[1..] == n + (if after then " " else "");
    assert TrimStart(x) == TrimStart(x[1..]);
    assert TrimStart(x) == x[1..];
    if after {
      assert x[1..][..|n|] == n;
      assert TrimEnd(x[1..]) == TrimEnd(n);
    }
  }

  /** Splitting a padded `a, b, c` on commas and trimming the pieces gives the names. */
  lemma {:induction false} SplitPadded(names: seq<string>)
    requires WordNames(names)
    ensures TrimEach(Split(" " + Join(names, ", ") + " ", ',')) == names
    decreases |names|
  {
    var x := " " + Join(names, ", ") + " ";
    JoinedWords(names);
    if |names| == 1 {
      assert x == " " + names[0] + " ";
      assert ',' !in x;
      TrimPadded(names[0], true);
    } else {
      var rest := " " + Join(names[1..], ", ") + " ";
      var head := " " + names[0];
      assert x == head + [','] + rest;
      assert ',' !in head;
      IndexOfPrefix(head, ',', rest);
      assert x[..|head|] == head;
      assert x[|head| + 1..] == rest;
      assert Split(x, ',') == [head] + Split(rest, ',');
      SplitPadded(names[1..]);
      TrimPadded(names[0], false);
      assert head == " " + names[0] + "";
      assert TrimEach(Split(x, ',')) == [names[0]] + TrimEach(Split(rest, ','));
      assert names == [names[0]] + names[1..];
    }
  }

  lemma DropBracesOfList(names: seq<string>)
    requires WordNames(names)
    ensures DropBraces("{ " + Join(names, ", ") + " }") == " " + Join(names, ", ") + " "
  {
    var j := Join(names, ", ");
    JoinedWords(names);
    DropBracesConcat("{ " + j, " }");
    DropBracesConcat("{ ", j);
    DropBracesNone(j);
    assert DropBraces("{ ") == " ";
    assert DropBraces(" }") == " ";
  }

  /** The clause the named builders write reads back as the names. */
  lemma ClauseNamesOfList(names: seq<string>)
    requires WordNames(names)
    ensures ClauseNames("{ " + Join(names, ", ") + " }") == names
  {
    DropBracesOfList(names);
    SplitPadded(names);
    var ps := TrimEach(Split(" " + Join(names, ", ") + " ", ','));
    assert ps == names;
    assert forall i :: 0 <= i < |ps| ==> ps[i] != [];
  }

  lemma BracedClause(names: seq<string>)
    requires WordNames(names)
    ensures ClauseText("{ " + Join(names, ", ") + " }") && !TypeLed("{ " + Join(names, ", ") + " }")
    ensures StartsWith("{ " + Join(names, ", ") + " }", "{")
  {
    var c := "{ " + Join(names, ", ") + " }";
    JoinedWords(names);
    forall i | 0 <= i < |c| ensures !IsQuote(c[i]) && !IsLineTerminator(c[i]) {
      if 2 <= i < |c| - 2 {
        assert c[i] == Join(names, ", ")[i - 2];
      }
    }
  }

  lemma NamedLayout(names: seq<string>, m: string)
    ensures IA.NamedImport(names, m) == ImportHead(false) + ("{ " + Join(names, ", ") + " }") + " from " + ['"'] + m + ['"'] + ";"
  {
  }

  lemma TypeNamedLayout(names: seq<string>, m: string)
    ensures IA.TypeNamedImport(Join(names, ", "), m) == ImportHead(true) + ("{ " + Join(names, ", ") + " }") + " from " + ['"'] + m + ['"'] + ";"
  {
  }

  /** `import { a, b } from "m";` reads as the regular named import of a, b from m. */
  lemma ClassifyNamedImport(names: seq<string>, m: string)
    requires WordNames(names) && PathText(m)
    ensures Classify(IA.NamedImport(names, m)) == Named(false, m, names)
  {
    var c := "{ " + Join(names, ", ") + " }";
    var s := IA.NamedImport(names, m);
    var cap := Capture(false, Some(c), m);
    BracedClause(names);
    assert ImportMatch(s) == Some(cap) by {
      NamedLayout(names, m);
      ClauseMatch(s, false, c, '"', m, '"', ";");
    }
    assert ClauseNames(c) == names by {
      ClauseNamesOfList(names);
    }
    assert ClassifyWith(s, cap, false) == Named(false, m, names);
  }

  /** `import type { a, b } from "m";` reads as the type-only named import of a, b from m. */
  lemma ClassifyTypeNamedImport(names: seq<string>, m: string)
    requires WordNames(names) && PathText(m)
    ensures Classify(IA.TypeNamedImport(Join(names, ", "), m)) == Named(true, m, names)
  {
    var c := "{ " + Join(names, ", ") + " }";
    var s := IA.TypeNamedImport(Join(names, ", "), m);
    var cap := Capture(true, Some(c), m);
    BracedClause(names);
    assert ImportMatch(s) == Some(cap) by {
      TypeNamedLayout(names, m);
      ClauseMatch(s, true, c, '"', m, '"', ";");
    }
    assert ClauseNames(c) == names by {
      ClauseNamesOfList(names);
    }
    assert ClassifyWith(s, cap, true) == Named(true, m, names);
  }

  lemma WordClause(n: string)
    requires Word(n)
    ensures ClauseText(n) && Trim(n) == n
    ensures !StartsWith(n, "{") && !StartsWith(n, "* as")
  {
    TrimOfTrimmed(n);
  }

  /** `import D from "m";` reads as the regular default import of D from m,
      unless D is the keyword `type` itself. */
  lemma ClassifyDefaultImport(n: string, m: string)
    requires Word(n) && !TypeLed(n) && PathText(m)
    ensures Classify(IA.DefaultImport(n, m)) == Default(false, m, n)
  {
    var s := IA.DefaultImport(n, m);
    assert s == ImportHead(false) + n + " from " + ['"'] + m + ['"'] + ";";
    WordClause(n);
    ClauseMatch(s, false, n, '"', m, '"', ";");
  }

  /** `import type D from "m";` reads as the type-only default import of D from m. */
  lemma ClassifyTypeDefaultImport(n: string, m: string)
    requires Word(n) && PathText(m)
    ensures Classify(IA.TypeDefaultImport(n, m)) == Default(true, m, n)
  {
    var s := IA.TypeDefaultImport(n, m);
    assert s == ImportHead(true) + n + " from " + ['"'] + m + ['"'] + ";";
    WordClause(n);
    ClauseMatch(s, true, n, '"', m, '"', ";");
  }

  lemma StarClause(n: string)
    requires Word(n)
    ensures ClauseText("* as " + n) && !TypeLed("* as " + n)
    ensures !StartsWith("* as " + n, "{") && StartsWith("* as " + n, "* as")
    ensures NamespaceMatch("* as " + n) == Some(n)
  {
    NamespaceClause(n);
  }

  /** `import * as N from "m";` reads as the namespace import N of m. */
  lemma ClassifyNamespaceImport(n: string, m: string)
    requires Word(n) && PathText(m)
    ensures Classify(IA.NamespaceImport(n, m)) == Star(m, n)
  {
    var s := IA.NamespaceImport(n, m);
    assert s == ImportHead(false) + ("* as " + n) + " from " + ['"'] + m + ['"'] + ";";
    StarClause(n);
    ClauseMatch(s, false, "* as " + n, '"', m, '"', ";");
  }

  /** `import type * as N from "m";` reads as the namespace import N of m:
      namespace imports are not told apart by type-ness. */
  lemma ClassifyTypeNamespaceImport(n: string, m: string)
    requires Word(n) && PathText(m)
    ensures Classify(IA.TypeNamespaceImport(n, m)) == Star(m, n)
  {
    var s := IA.TypeNamespaceImport(n, m);
    assert s == ImportHead(true) + ("* as " + n) + " from " + ['"'] + m + ['"'] + ";";
    StarClause(n);
    ClauseMatch(s, true, "* as " + n, '"', m, '"', ";");
  }

  /** A side-effect import (`import "m";`) names nothing and is dropped. */
  lemma ClassifySideEffect(q1: char, m: string, q2: char, tail: string)
    requires IsQuote(q1) && IsQuote(q2) && PathText(m)
    requires forall i :: 0 <= i < |m| ==> !IsJsSpace(m[i])
    requires forall i :: 0 <= i < |tail| ==> !IsJsSpace(tail[i])
    ensures Classify(SideEffectText(q1, m, q2, tail)) == Skipped
  {
    SideEffectMatch(q1, m, q2, tail);
    SideEffectNoName(q1, m, q2, tail);
  }

  /** An `import x = require("m");` text does not match and is dropped. */
  lemma ClassifyImportEquals(x: string, q1: char, m: string, q2: char)
    requires IsQuote(q1) && IsQuote(q2)
    requires forall i :: 0 <= i < |x| ==> !IsQuote(x[i])
    requires forall i :: 0 <= i < |m| ==> !IsJsSpace(m[i]) && !IsQuote(m[i])
    ensures Classify("import " + x + " = require(" + [q1] + m + [q2] + ");") == Skipped
  {
    ImportEqualsNoMatch(x, q1, m, q2);
  }

  // ---------------------------------------------------------- whole merges

  /** A text that reads as nothing leaves the merged list unchanged. */
  lemma SkippedIgnored(imports: seq<string>, s: string)
    requires Classify(s) == Skipped
    ensures Merged(imports + [s]) == Merged(imports)
  {
    var hs := Classified(imports);
    assert Classified(imports + [s]) == hs + [Skipped];
    assert (hs + [Skipped])[..|hs|] == hs;
    assert Collect(hs + [Skipped]) == Collect(hs);
    assert Merged(imports + [s]) == MergeHoisted(Classified(imports + [s]));
    assert Merged(imports) == MergeHoisted(Classified(imports));
  }

  /** Side-effect imports are dropped from the merged list. */
  lemma SideEffectIgnored(imports: seq<string>, q1: char, m: string, q2: char, tail: string)
    requires IsQuote(q1) && IsQuote(q2) && PathText(m)
    requires forall i :: 0 <= i < |m| ==> !IsJsSpace(m[i])
    requires forall i :: 0 <= i < |tail| ==> !IsJsSpace(tail[i])
    ensures Merged(imports + [SideEffectText(q1, m, q2, tail)]) == Merged(imports)
  {
    ClassifySideEffect(q1, m, q2, tail);
    SkippedIgnored(imports, SideEffectText(q1, m, q2, tail));
  }

  /** `import x = require("m")` texts are dropped from the merged list. */
  lemma ImportEqualsIgnored(imports: seq<string>, x: string, q1: char, m: string, q2: char)
    requires IsQuote(q1) && IsQuote(q2)
    requires forall i :: 0 <= i < |x| ==> !IsQuote(x[i])
    requires forall i :: 0 <= i < |m| ==> !IsJsSpace(m[i]) && !IsQuote(m[i])
    ensures Merged(imports + ["import " + x + " = require(" + [q1] + m + [q2] + ");"]) == Merged(imports)
  {
    ClassifyImportEquals(x, q1, m, q2);
    SkippedIgnored(imports, "import " + x + " = require(" + [q1] + m + [q2] + ");");
  }

  lemma SortOne(x: string)
    ensures Sort([x]) == [x]
  {
    assert [x][1..] == [];
  }

  lemma CollectTwo(h1: Hoisted, h2: Hoisted)
    ensures Collect([h1]) == Record(NoTables, h1)
    ensures Collect([h1, h2]) == Record(Record(NoTables, h1), h2)
  {
    assert [h1][..0] == [];
    assert [h1, h2][..1] == [h1];
  }

  lemma LinesOne(t: Tables, p: Part, k: string, line: string)
    requires LineFor(t, p, k) == Some(line)
    ensures Lines(t, p, [k]) == [line]
  {
    assert [k][..0] == [];
    assert Outcomes(t, p, [k]) == [Some(line)];
    assert [Some(line)][..0] == [];
    assert Somes([Some(line)]) == [] + [line] == [line];
  }

  lemma PutFresh(m: string, a: seq<string>)
    ensures Put(NoTable, m, a) == Table([m], map[m := Dedup(a)])
  {
    assert Get(NoTable, m) == [] == Dedup([]);
    AddAllDedup([], a);
    assert [] + a == a;
  }

  lemma PutAgain(m: string, a: seq<string>, b: seq<string>)
    ensures Put(Table([m], map[m := Dedup(a)]), m, b) == Table([m], map[m := Dedup(a + b)])
  {
    var t1 := Table([m], map[m := Dedup(a)]);
    var u := AddAll(Get(t1, m), b);
    assert u == Dedup(a + b) by {
      assert Get(t1, m) == Dedup(a);
      AddAllDedup(a, b);
    }
    assert t1.sets[m := u] == map[m := u];
  }

  lemma PutTwice(m: string, a: seq<string>, b: seq<string>)
    ensures Put(Put(NoTable, m, a), m, b) == Table([m], map[m := Dedup(a + b)])
  {
    PutFresh(m, a);
    PutAgain(m, a, b);
  }

  lemma NamedPairTables(m: string, a: seq<string>, b: seq<string>)
    ensures Collect([Named(false, m, a), Named(false, m, b)]) == NoTables.(named := Table([m], map[m := Dedup(a + b)]))
  {
    CollectTwo(Named(false, m, a), Named(false, m, b));
    PutTwice(m, a, b);
  }

  lemma NamedPair(m: string, a: seq<string>, b: seq<string>)
    requires a != []
    ensures MergeHoisted([Named(false, m, a), Named(false, m, b)]) == [IA.NamedImport(Sort(Dedup(a + b)), m)]
  {
    var u := Dedup(a + b);
    var t := NoTables.(named := Table([m], map[m := u]));
    NamedPairTables(m, a, b);
    var line := IA.NamedImport(Sort(u), m);
    assert LineFor(t, NamedPart, m) == Some(line) by {
      assert a[0] in u;
      assert AddAll(u, []) == u;
    }
    LinesOne(t, NamedPart, m, line);
    assert Emit(t) == [line];
    SortOne(line);
  }

  lemma ClassifiedTwo(s1: string, s2: string)
    ensures Classified([s1, s2]) == [Classify(s1), Classify(s2)]
  {
    assert [s1, s2][1..] == [s2];
    assert [s2][1..] == [];
  }

  /** Two named imports of the same module merge into one statement listing
      the sorted union of their names. */
  lemma MergeTwoNamed(a: seq<string>, b: seq<string>, m: string)
    requires WordNames(a) && WordNames(b) && PathText(m)
    ensures Merged([IA.NamedImport(a, m), IA.NamedImport(b, m)]) == [IA.NamedImport(Sort(Dedup(a + b)), m)]
  {
    assert Merged([IA.NamedImport(a, m), IA.NamedImport(b, m)])
           == MergeHoisted(Classified([IA.NamedImport(a, m), IA.NamedImport(b, m)]));
    ClassifiedTwo(IA.NamedImport(a, m), IA.NamedImport(b, m));
    ClassifyNamedImport(a, m);
    ClassifyNamedImport(b, m);
    NamedPair(m, a, b);
  }

  lemma DefaultOne(isType: bool, m: string, n: string)
    ensures MergeHoisted([Default(isType, m, n)])
            == [if isType then IA.TypeDefaultImport(n, m) else IA.DefaultImport(n, m)]
  {
    var one := Table([m], map[m := [n]]);
    var t := if isType then NoTables.(typeDefaults := one) else NoTables.(defaults := one);
    var line := if isType then IA.TypeDefaultImport(n, m) else IA.DefaultImport(n, m);
    CollectOneDefault(isType, m, n);
    EmitOneDefault(isType, m, n);
    SortOne(line);
  }

  lemma CollectOneDefault(isType: bool, m: string, n: string)
    ensures var one := Table([m], map[m := [n]]);
      Collect([Default(isType, m, n)]) == if isType then NoTables.(typeDefaults := one) else NoTables.(defaults := one)
  {
    CollectTwo(Default(isType, m, n), Skipped);
    assert AddAll([], [n]) == [n] by {
      assert [n][..0] == [];
    }
    assert Put(NoTable, m, [n]) == Table([m], map[m := [n]]);
  }

  lemma EmitOneDefault(isType: bool, m: string, n: string)
    ensures var one := Table([m], map[m := [n]]);
      Emit(if isType then NoTables.(typeDefaults := one) else NoTables.(defaults := one))
        == [if isType then IA.TypeDefaultImport(n, m) else IA.DefaultImport(n, m)]
  {
    var one := Table([m], map[m := [n]]);
    var t := if isType then NoTables.(typeDefaults := one) else NoTables.(defaults := one);
    var line := if isType then IA.TypeDefaultImport(n, m) else IA.DefaultImport(n, m);
    if isType {
      assert LineFor(t, TypeDefaultPart, m) == Some(line);
      LinesOne(t, TypeDefaultPart, m, line);
    } else {
      assert AddAll([n], []) == [n];
      assert LineFor(t, DefaultPart, m) == Some(line);
      LinesOne(t, DefaultPart, m, line);
    }
  }

  /** A lone default import survives the merge unchanged: `import D from "m";`
      stays a value import for every identifier D other than `type`, however
      it begins. */
  lemma MergeOneDefault(n: string, m: string)
    requires Word(n) && !TypeLed(n) && PathText(m)
    ensures Merged([IA.DefaultImport(n, m)]) == [IA.DefaultImport(n, m)]
  {
    ClassifyDefaultImport(n, m);
    assert Classified([IA.DefaultImport(n, m)]) == [Default(false, m, n)];
    assert Merged([IA.DefaultImport(n, m)]) == MergeHoisted(Classified([IA.DefaultImport(n, m)]));
    DefaultOne(false, m, n);
  }

  /** As written, `import typeorm from "typeorm";` is taken for a type-only
      import, because its text contains "import type", and comes out as
      `import type typeorm from "typeorm";`, which erases the runtime import. */
  lemma TypePrefixedDefaultMisread()
    ensures ClassifyAsWritten(IA.DefaultImport("typeorm", "typeorm")) == Default(true, "typeorm", "typeorm")
    ensures MergedAsWritten([IA.DefaultImport("typeorm", "typeorm")]) == [IA.TypeDefaultImport("typeorm", "typeorm")]
  {
    var s := IA.DefaultImport("typeorm", "typeorm");
    assert OccursAt(s, "import type", 0) by {
      assert s[0..11] == "import type";
    }
    var cap := Capture(false, Some("typeorm"), "typeorm");
    assert ImportMatch(s) == Some(cap) by {
      assert Word("typeorm") && !TypeLed("typeorm");
      WordClause("typeorm");
      assert s == ImportHead(false) + "typeorm" + " from " + ['"'] + "typeorm" + ['"'] + ";";
      ClauseMatch(s, false, "typeorm", '"', "typeorm", '"', ";");
    }
    WordClause("typeorm");
    assert ClassifyWith(s, cap, true) == Default(true, "typeorm", "typeorm");
    assert ClassifiedAsWritten([s]) == [Default(true, "typeorm", "typeorm")];
    DefaultOne(true, "typeorm", "typeorm");
  }

  // -------------------------------------------------------------- the method

  /** `mergeImports(imports)`, with type-only texts told apart by the match. */
  method MergeImports(imports: seq<string>) returns (merged: seq<string>)
    ensures merged == Merged(imports)
    ensures Sorted(merged)
  {
    var t := ReadImports(imports);
    var mergedImports := WriteImports(t);
    merged := Sort(mergedImports);
  }

  /** One more text read is one more text recorded. */
  lemma ReadStep(imports: seq<string>, i: nat)
    requires i < |imports|
    ensures Collect(Classified(imports)[..i + 1]) == Record(Collect(Classified(imports)[..i]), Classify(imports[i]))
  {
    assert Classified(imports)[..i + 1][..i] == Classified(imports)[..i];
  }

  /** The first loop of `mergeImports`: every text read into the five maps. */
  method ReadImports(imports: seq<string>) returns (t: Tables)
    ensures t == Collect(Classified(imports))
  {
    var importMap, typeImportMap, defaultImports, typeDefaultImports, namespaceImports
      := NoTable, NoTable, NoTable, NoTable, NoTable;
    for i := 0 to |imports|
      invariant Tables(importMap, typeImportMap, defaultImports, typeDefaultImports, namespaceImports)
                == Collect(Classified(imports)[..i])
    {
      var importStr := imports[i];
      ghost var before := Tables(importMap, typeImportMap, defaultImports, typeDefaultImports, namespaceImports);
      match ImportMatch(importStr) {
        case None =>
        case Some(cap) =>
          var isTypeImport := cap.typed;
          var modulePath := cap.path;
          if cap.clause.None? || cap.clause.value == [] {
            match DefaultMatch(importStr) {
              case None =>
              case Some(importName) =>
                if isTypeImport {
                  typeDefaultImports := Put(typeDefaultImports, modulePath, [importName]);
                } else {
                  defaultImports := Put(defaultImports, modulePath, [importName]);
                }
            }
          } else {
            var importClause := cap.clause.value;
            if StartsWith(importClause, "{") {
              var names := ClauseNames(importClause);
              if isTypeImport {
                typeImportMap := Put(typeImportMap, modulePath, names);
              } else {
                importMap := Put(importMap, modulePath, names);
              }
            } else if StartsWith(importClause, "* as") {
              match NamespaceMatch(importClause) {
                case None =>
                case Some(namespaceName) =>
                  namespaceImports := Put(namespaceImports, modulePath, [namespaceName]);
              }
            } else {
              if isTypeImport {
                typeDefaultImports := Put(typeDefaultImports, modulePath, [Trim(importClause)]);
              } else {
                defaultImports := Put(defaultImports, modulePath, [Trim(importClause)]);
              }
            }
          }
      }
      assert Tables(importMap, typeImportMap, defaultImports, typeDefaultImports, namespaceImports)
             == Record(before, Classify(importStr));
      ReadStep(imports, i);
    }
    assert Classified(imports)[..|imports|] == Classified(imports);
    t := Tables(importMap, typeImportMap, defaultImports, typeDefaultImports, namespaceImports);
  }

  /** The five output loops of `mergeImports`, before the final sort; each
      loop pushes onto the same list, so their outputs follow one another. */
  method WriteImports(t: Tables) returns (mergedImports: seq<string>)
    ensures mergedImports == Emit(t)
  {
    var named := WriteNamed(t);
    var typeNamed := WriteTypeNamed(t);
    var defaults := WriteDefaults(t);
    var typeDefaults := WriteTypeDefaults(t);
    var namespaces := WriteNamespaces(t);
    mergedImports := named + typeNamed + defaults + typeDefaults + namespaces;
  }

  /** One named statement per module of the regular map, the module's
      type-only names joined in and the list sorted. */
  method WriteNamed(t: Tables) returns (lines: seq<string>)
    ensures lines == Lines(t, NamedPart, t.named.keys)
  {
    var importMap, typeImportMap := t.named, t.typeNamed;
    lines := [];
    for j := 0 to |importMap.keys|
      invariant lines == Lines(t, NamedPart, importMap.keys[..j])
    {
      var modulePath := importMap.keys[j];
      var regularNames := Get(importMap, modulePath);
      var typeNames := Get(typeImportMap, modulePath);
      var finalNames := AddMissing(regularNames, typeNames);
      if |finalNames| > 0 {
        lines := lines + [IA.NamedImport(Sort(finalNames), modulePath)];
      }
      assert importMap.keys[..j + 1][..j] == importMap.keys[..j];
    }
    assert importMap.keys[..|importMap.keys|] == importMap.keys;
  }

  /** One `import type { … }` statement per module that has no regular
      named import. */
  method WriteTypeNamed(t: Tables) returns (lines: seq<string>)
    ensures lines == Lines(t, TypeNamedPart, t.typeNamed.keys)
  {
    var importMap, typeImportMap := t.named, t.typeNamed;
    lines := [];
    for j := 0 to |typeImportMap.keys|
      invariant lines == Lines(t, TypeNamedPart, typeImportMap.keys[..j])
    {
      var modulePath := typeImportMap.keys[j];
      var typeNames := Get(typeImportMap, modulePath);
      if modulePath !in importMap.sets && |typeNames| > 0 {
        lines := lines + [IA.TypeNamedImport(Join(Sort(typeNames), ", "), modulePath)];
      }
      assert typeImportMap.keys[..j + 1][..j] == typeImportMap.keys[..j];
    }
    assert typeImportMap.keys[..|typeImportMap.keys|] == typeImportMap.keys;
  }

  /** One default statement per module of the regular default map, the
      type-only default names joined in, in insertion order. */
  method WriteDefaults(t: Tables) returns (lines: seq<string>)
    ensures lines == Lines(t, DefaultPart, t.defaults.keys)
  {
    var defaultImports, typeDefaultImports := t.defaults, t.typeDefaults;
    lines := [];
    for j := 0 to |defaultImports.keys|
      invariant lines == Lines(t, DefaultPart, defaultImports.keys[..j])
    {
      var modulePath := defaultImports.keys[j];
      var regularDefaultNames := Get(defaultImports, modulePath);
      var typeDefaultNames := Get(typeDefaultImports, modulePath);
      var finalNames := AddMissing(regularDefaultNames, typeDefaultNames);
      if |finalNames| > 0 {
        lines := lines + [IA.DefaultImport(Join(finalNames, ", "), modulePath)];
      }
      assert defaultImports.keys[..j + 1][..j] == defaultImports.keys[..j];
    }
    assert defaultImports.keys[..|defaultImports.keys|] == defaultImports.keys;
  }

  /** One `import type X` statement per module that has no regular default
      import. */
  method WriteTypeDefaults(t: Tables) returns (lines: seq<string>)
    ensures lines == Lines(t, TypeDefaultPart, t.typeDefaults.keys)
  {
    var defaultImports, typeDefaultImports := t.defaults, t.typeDefaults;
    lines := [];
    for j := 0 to |typeDefaultImports.keys|
      invariant lines == Lines(t, TypeDefaultPart, typeDefaultImports.keys[..j])
    {
      var modulePath := typeDefaultImports.keys[j];
      var typeDefaultNames := Get(typeDefaultImports, modulePath);
      if modulePath !in defaultImports.sets && |typeDefaultNames| > 0 {
        lines := lines + [IA.TypeDefaultImport(Join(typeDefaultNames, ", "), modulePath)];
      }
      assert typeDefaultImports.keys[..j + 1][..j] == typeDefaultImports.keys[..j];
    }
    assert typeDefaultImports.keys[..|typeDefaultImports.keys|] == typeDefaultImports.keys;
  }

  /** One namespace statement per module, its aliases joined in insertion order. */
  method WriteNamespaces(t: Tables) returns (lines: seq<string>)
    ensures lines == Lines(t, StarPart, t.namespaces.keys)
  {
    var namespaceImports := t.namespaces;
    lines := [];
    for j := 0 to |namespaceImports.keys|
      invariant lines == Lines(t, StarPart, namespaceImports.keys[..j])
    {
      var modulePath := namespaceImports.keys[j];
      var names := Get(namespaceImports, modulePath);
      if |names| > 0 {
        lines := lines + [IA.NamespaceImport(Join(names, ", "), modulePath)];
      }
      assert namespaceImports.keys[..j + 1][..j] == namespaceImports.keys[..j];
    }
    assert namespaceImports.keys[..|namespaceImports.keys|] == namespaceImports.keys;
  }

  /** `const finalNames = new Set(regular)`, then every extra name the
      regular set lacks added in order. */
  method AddMissing(regular: seq<string>, extra: seq<string>) returns (finalNames: seq<string>)
    ensures finalNames == AddAll(regular, extra)
  {
    finalNames := regular;
    for l := 0 to |extra|
      invariant finalNames == AddAll(regular, extra[..l])
    {
      if extra[l] !in regular {
        finalNames := AddUnique(finalNames, extra[l]);
      }
      assert extra[..l + 1][..l] == extra[..l];
    }
    assert extra[..|extra|] == extra;
  }
}
