// `depsCheck` of src/init/checks.ts: the checks run on an entry's
// dependency files before bundling. A failing check prints a message and
// exits the process with code 1; that exit is the `Exited` outcome here,
// and the first check to exit ends `make`. The type check itself is
// TypeScript's diagnostics: it is a parameter (`noCheck`, and the text of
// the diagnostics when there are any).
module InitChecks {
  import opened Wrappers
  import opened Ast
  import opened Records
  import Paths
  import Utils

  /** What a check returns when it does not exit: `true`, or nothing. */
  datatype Value = True | Undefined

  datatype Outcome<T> = Returned(value: T) | Exited(message: string)

  // ------------------------------------------------------------------- ext

  const TsExtensions: set<string> := {".ts", ".mts", ".cts", ".tsx"}

  predicate HasTsExtension(file: string) {
    Paths.Extname(file) in TsExtensions
  }

  function ExtMessage(file: string): string {
    file + " has no valid TypeScript extension"
  }

  /** `depsCheck.ext`: true when every file has a TypeScript extension;
      otherwise the first file without one is reported. */
  function ExtSpec(deps: seq<DepsFile>): (r: Outcome<Value>)
    ensures r == Returned(True) <==> forall i :: 0 <= i < |deps| ==> HasTsExtension(deps[i].file)
    ensures r.Returned? ==> r.value == True
    ensures r.Exited? ==> exists i :: 0 <= i < |deps| && !HasTsExtension(deps[i].file) && r.message == ExtMessage(deps[i].file)
                                     && forall j :: 0 <= j < i ==> HasTsExtension(deps[j].file)
  {
    if deps == [] then Returned(True)
    else if !HasTsExtension(deps[0].file) then Exited(ExtMessage(deps[0].file))
    else
      var r := ExtSpec(deps[1..]);
      ExtTail(deps, r);
      r
  }

  /** What `ExtSpec` promises of the tail, it promises of the whole list
      when the head has a TypeScript extension. */
  lemma ExtTail(deps: seq<DepsFile>, r: Outcome<Value>)
    requires deps != [] && HasTsExtension(deps[0].file)
    requires r == Returned(True) <==> forall i :: 0 <= i < |deps[1..]| ==> HasTsExtension(deps[1..][i].file)
    requires r.Exited? ==> exists i :: 0 <= i < |deps[1..]| && !HasTsExtension(deps[1..][i].file) && r.message == ExtMessage(deps[1..][i].file)
                                       && forall j :: 0 <= j < i ==> HasTsExtension(deps[1..][j].file)
    ensures r == Returned(True) <==> forall i :: 0 <= i < |deps| ==> HasTsExtension(deps[i].file)
    ensures r.Exited? ==> exists i :: 0 <= i < |deps| && !HasTsExtension(deps[i].file) && r.message == ExtMessage(deps[i].file)
                                     && forall j :: 0 <= j < i ==> HasTsExtension(deps[j].file)
  {
    AllTsShift(deps);
    if r.Exited? {
      var i :| 0 <= i < |deps[1..]| && !HasTsExtension(deps[1..][i].file) && r.message == ExtMessage(deps[1..][i].file)
               && forall j :: 0 <= j < i ==> HasTsExtension(deps[1..][j].file);
      FirstMissShift(deps, i);
    }
  }

  lemma AllTsShift(deps: seq<DepsFile>)
    requires deps != [] && HasTsExtension(deps[0].file)
    ensures (forall i :: 0 <= i < |deps| ==> HasTsExtension(deps[i].file))
        <==> (forall i :: 0 <= i < |deps[1..]| ==> HasTsExtension(deps[1..][i].file))
  {
    assert forall j :: 1 <= j < |deps| ==> deps[j] == deps[1..][j - 1];
  }

  lemma FirstMissShift(deps: seq<DepsFile>, i: nat)
    requires deps != [] && HasTsExtension(deps[0].file)
    requires i < |deps[1..]| && forall j :: 0 <= j < i ==> HasTsExtension(deps[1..][j].file)
    ensures deps[i + 1] == deps[1..][i]
    ensures forall j :: 0 <= j < i + 1 ==> HasTsExtension(deps[j].file)
  {
    forall j | 0 <= j < i + 1 ensures HasTsExtension(deps[j].file) {
      if j > 0 {
        assert deps[j] == deps[1..][j - 1];
      }
    }
  }

  method Ext(deps: seq<DepsFile>) returns (r: Outcome<Value>)
    ensures r == ExtSpec(deps)
  {
    for i := 0 to |deps|
      invariant ExtSpec(deps) == ExtSpec(deps[i..])
    {
      assert deps[i..][1..] == deps[i + 1..];
      if !HasTsExtension(deps[i].file) {
        return Exited(ExtMessage(deps[i].file));
      }
    }
    assert deps[|deps|..] == [];
    r := Returned(True);
  }

  // ------------------------------------------------------------ moduleType

  const CjsMessage := "The package detects CommonJs format  in the dependencies tree, that unsupported."

  /** The file's syntax flags, by the same walk as `checkModuleType`. */
  function SyntaxOf(d: DepsFile): Utils.Syntax {
    Utils.SyntaxOf(d.content)
  }

  predicate CommonJsOnly(d: DepsFile) {
    SyntaxOf(d).cjs && !SyntaxOf(d).esm
  }

  predicate EsmSyntax(d: DepsFile) {
    SyntaxOf(d).esm
  }

  /** `_esmCount` and `cjsCount` after the loop over the files in order. */
  function Counts(deps: seq<DepsFile>): (nat, nat)
    decreases |deps|
  {
    if deps == [] then (0, 0)
    else Tally(Counts(deps[..|deps| - 1]), SyntaxOf(deps[|deps| - 1]))
  }

  /** A file with ES syntax counts as ES (mixed ones too), one with only
      CommonJS syntax as CommonJS, one with neither nowhere. */
  lemma {:induction false} CountsMeaning(deps: seq<DepsFile>)
    ensures Counts(deps).0 + Counts(deps).1 <= |deps|
    ensures Counts(deps).0 > 0 <==> exists i :: 0 <= i < |deps| && EsmSyntax(deps[i])
    ensures Counts(deps).1 > 0 <==> exists i :: 0 <= i < |deps| && CommonJsOnly(deps[i])
    ensures Counts(deps).0 + Counts(deps).1 == |deps| <==> forall i :: 0 <= i < |deps| ==> SyntaxOf(deps[i]).esm || SyntaxOf(deps[i]).cjs
    decreases |deps|
  {
    CountsBound(deps);
    CountsEsm(deps);
    CountsCjs(deps);
    CountsAll(deps);
  }

  lemma {:induction false} CountsBound(deps: seq<DepsFile>)
    ensures Counts(deps).0 + Counts(deps).1 <= |deps|
    decreases |deps|
  {
    if deps != [] {
      var init := deps[..|deps| - 1];
      CountsBound(init);
      assert forall i :: 0 <= i < |init| ==> init[i] == deps[i];
    }
  }

  lemma {:induction false} CountsEsm(deps: seq<DepsFile>)
    ensures Counts(deps).0 > 0 <==> exists i :: 0 <= i < |deps| && EsmSyntax(deps[i])
    decreases |deps|
  {
    if deps != [] {
      var init := deps[..|deps| - 1];
      CountsEsm(init);
      assert forall i :: 0 <= i < |init| ==> init[i] == deps[i];
    }
  }

  lemma {:induction false} CountsCjs(deps: seq<DepsFile>)
    ensures Counts(deps).1 > 0 <==> exists i :: 0 <= i < |deps| && CommonJsOnly(deps[i])
    decreases |deps|
  {
    if deps != [] {
      var init := deps[..|deps| - 1];
      CountsCjs(init);
      assert forall i :: 0 <= i < |init| ==> init[i] == deps[i];
    }
  }

  lemma {:induction false} CountsAll(deps: seq<DepsFile>)
    ensures Counts(deps).0 + Counts(deps).1 == |deps| <==> forall i :: 0 <= i < |deps| ==> SyntaxOf(deps[i]).esm || SyntaxOf(deps[i]).cjs
    decreases |deps|
  {
    if deps != [] {
      var init := deps[..|deps| - 1];
      CountsAll(init);
      CountsBound(init);
      assert forall i :: 0 <= i < |init| ==> init[i] == deps[i];
    }
  }

  /** The counters after one more file. */
  lemma CountsStep(deps: seq<DepsFile>, i: nat)
    requires i < |deps|
    ensures Counts(deps[..i + 1]) == Tally(Counts(deps[..i]), SyntaxOf(deps[i]))
  {
    assert deps[..i + 1][..i] == deps[..i];
  }

  /** One file's contribution to the two counters. */
  function Tally(c: (nat, nat), f: Utils.Syntax): (r: (nat, nat)) {
    if f.esm && !f.cjs then (c.0 + 1, c.1)
    else if f.cjs && !f.esm then (c.0, c.1 + 1)
    else if f.esm && f.cjs then (c.0 + 1, c.1)
    else (c.0, c.1)
  }

  /** `depsCheck.moduleType`. */
  function ModuleTypeSpec(deps: seq<DepsFile>): (r: Outcome<Value>)
    ensures r.Exited? <==> exists i :: 0 <= i < |deps| && CommonJsOnly(deps[i])
    ensures r.Exited? ==> r.message == CjsMessage
    ensures r.Returned? ==> r.value == True
  {
    CountsMeaning(deps);
    if Counts(deps).1 > 0 then Exited(CjsMessage) else Returned(True)
  }

  method ModuleType(deps: seq<DepsFile>) returns (r: Outcome<Value>)
    ensures r == ModuleTypeSpec(deps)
  {
    var esmCount: nat := 0;
    var cjsCount: nat := 0;
    for i := 0 to |deps|
      invariant (esmCount, cjsCount) == Counts(deps[..i])
    {
      CountsStep(deps, i);
      var f := Utils.SyntaxOf(deps[i].content);
      if f.esm && !f.cjs {
        esmCount := esmCount + 1;
      } else if f.cjs && !f.esm {
        cjsCount := cjsCount + 1;
      } else if f.esm && f.cjs {
        esmCount := esmCount + 1;
      }
      assert (esmCount, cjsCount) == Tally(Counts(deps[..i]), SyntaxOf(deps[i]));
    }
    assert deps[..|deps|] == deps;
    if cjsCount > 0 {
      return Exited(CjsMessage);
    }
    r := Returned(True);
  }

  // ------------------------------------------------------ nodeCheck, types

  /** `depsCheck.nodeCheck`: node modules are refused outside a node target
      (the message printed is empty). */
  function NodeCheck(nodeEnv: bool, nodeModules: bool): Outcome<Value> {
    if !nodeEnv && nodeModules then Exited("") else Returned(True)
  }

  /** `depsCheck.types`: nothing when `noCheck` is set; otherwise true, or
      the diagnostics printed and an exit. */
  function Types(noCheck: bool, diagnostics: Option<string>): Outcome<Value> {
    if noCheck then Returned(Undefined)
    else match diagnostics
      case Some(text) => Exited(text)
      case None => Returned(True)
  }

  // ------------------------------------------------------------------ make

  /** The checks in the order `make` lists them. */
  function Results(deps: seq<DepsFile>, nodeModules: bool, nodeEnv: bool, noCheck: bool, diagnostics: Option<string>): seq<Outcome<Value>> {
    [ExtSpec(deps), ModuleTypeSpec(deps), NodeCheck(nodeEnv, nodeModules), Types(noCheck, diagnostics)]
  }

  /** The first exit among the results, or whether every result is `true`. */
  function Combined(rs: seq<Outcome<Value>>): (r: Outcome<bool>)
    ensures r.Exited? <==> exists i :: 0 <= i < |rs| && rs[i].Exited?
    ensures r.Returned? ==> (r.value <==> forall i :: 0 <= i < |rs| ==> rs[i] == Returned(True))
  {
    if rs == [] then Returned(true)
    else if rs[0].Exited? then Exited(rs[0].message)
    else
      var r := Combined(rs[1..]);
      assert forall i :: 1 <= i < |rs| ==> rs[i] == rs[1..][i - 1];
      if r.Exited? then r else Returned(rs[0] == Returned(True) && r.value)
  }

  function MakeSpec(deps: seq<DepsFile>, nodeModules: bool, nodeEnv: bool, noCheck: bool, diagnostics: Option<string>): Outcome<bool> {
    Combined(Results(deps, nodeModules, nodeEnv, noCheck, diagnostics))
  }

  /** `depsCheck.make`: the checks in order, the first exit ending it;
      otherwise whether every check returned exactly `true`. */
  method Make(deps: seq<DepsFile>, nodeModules: bool, nodeEnv: bool, noCheck: bool, diagnostics: Option<string>) returns (r: Outcome<bool>)
    ensures r == MakeSpec(deps, nodeModules, nodeEnv, noCheck, diagnostics)
  {
    CombinedFour(ExtSpec(deps), ModuleTypeSpec(deps), NodeCheck(nodeEnv, nodeModules), Types(noCheck, diagnostics));
    var ext := Ext(deps);
    if ext.Exited? {
      return Exited(ext.message);
    }
    var mt := ModuleType(deps);
    if mt.Exited? {
      return Exited(mt.message);
    }
    var node := NodeCheck(nodeEnv, nodeModules);
    if node.Exited? {
      return Exited(node.message);
    }
    var types := Types(noCheck, diagnostics);
    if types.Exited? {
      return Exited(types.message);
    }
    r := Returned(ext == Returned(True) && mt == Returned(True) && node == Returned(True) && types == Returned(True));
  }

  /** `Combined` on four results, written out. */
  lemma CombinedFour(a: Outcome<Value>, b: Outcome<Value>, c: Outcome<Value>, d: Outcome<Value>)
    ensures Combined([a, b, c, d])
         == if a.Exited? then Exited(a.message)
            else if b.Exited? then Exited(b.message)
            else if c.Exited? then Exited(c.message)
            else if d.Exited? then Exited(d.message)
            else Returned(a == Returned(True) && b == Returned(True) && c == Returned(True) && d == Returned(True))
  {
    assert [a, b, c, d][1..] == [b, c, d];
    assert [b, c, d][1..] == [c, d];
    assert [c, d][1..] == [d];
    assert [d][1..] == [];
    assert Combined([d]) == if d.Exited? then Exited(d.message) else Returned(d == Returned(True));
    assert Combined([c, d]) == if c.Exited? then Exited(c.message) else if d.Exited? then Exited(d.message)
                               else Returned(c == Returned(True) && d == Returned(True));
    assert Combined([b, c, d]) == if b.Exited? then Exited(b.message) else if c.Exited? then Exited(c.message)
                                  else if d.Exited? then Exited(d.message)
                                  else Returned(b == Returned(True) && c == Returned(True) && d == Returned(True));
  }

  // ------------------------------------------------------------ properties

  /** `make` is true exactly when every file has a TypeScript extension, no
      file is CommonJS only, node modules are allowed, type checking is on
      and finds nothing. */
  lemma MakeTrueIff(deps: seq<DepsFile>, nodeModules: bool, nodeEnv: bool, noCheck: bool, diagnostics: Option<string>)
    ensures MakeSpec(deps, nodeModules, nodeEnv, noCheck, diagnostics) == Returned(true)
        <==> && (forall i :: 0 <= i < |deps| ==> HasTsExtension(deps[i].file))
             && (forall i :: 0 <= i < |deps| ==> !CommonJsOnly(deps[i]))
             && !(!nodeEnv && nodeModules)
             && !noCheck && diagnostics.None?
  {
    var rs := Results(deps, nodeModules, nodeEnv, noCheck, diagnostics);
    assert rs[0] == ExtSpec(deps) && rs[1] == ModuleTypeSpec(deps);
    assert rs[2] == NodeCheck(nodeEnv, nodeModules) && rs[3] == Types(noCheck, diagnostics);
  }

  /** With `noCheck` set, `make` never returns true: the type check returns nothing. */
  lemma NoCheckIsFalse(deps: seq<DepsFile>, nodeModules: bool, nodeEnv: bool, diagnostics: Option<string>)
    ensures MakeSpec(deps, nodeModules, nodeEnv, true, diagnostics) != Returned(true)
    ensures (forall i :: 0 <= i < |deps| ==> HasTsExtension(deps[i].file) && !CommonJsOnly(deps[i])) && !(!nodeEnv && nodeModules)
            ==> MakeSpec(deps, nodeModules, nodeEnv, true, diagnostics) == Returned(false)
  {
    var rs := Results(deps, nodeModules, nodeEnv, true, diagnostics);
    assert rs[3] == Returned(Undefined);
    assert rs[0] == ExtSpec(deps) && rs[1] == ModuleTypeSpec(deps) && rs[2] == NodeCheck(nodeEnv, nodeModules);
  }

  /** A failing extension check wins over every later check. */
  lemma ExtExitsFirst(deps: seq<DepsFile>, nodeModules: bool, nodeEnv: bool, noCheck: bool, diagnostics: Option<string>, i: nat)
    requires i < |deps| && !HasTsExtension(deps[i].file)
    ensures MakeSpec(deps, nodeModules, nodeEnv, noCheck, diagnostics).Exited?
    ensures MakeSpec(deps, nodeModules, nodeEnv, noCheck, diagnostics).message == ExtSpec(deps).message
  {
    var e := ExtSpec(deps);
    assert e.Exited? by {
      assert e != Returned(True);
    }
    CombinedFour(e, ModuleTypeSpec(deps), NodeCheck(nodeEnv, nodeModules), Types(noCheck, diagnostics));
  }
}
