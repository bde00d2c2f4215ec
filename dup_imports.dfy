// `duplicates` in src/lib/bundle/duplicate.ts: inside one file, import
// bindings that share a local name are told apart. The first binding of a
// name keeps it, every later one gets a fresh `__dup__<name>__<k>`, and the
// identifier uses of the name are pointed at the name of the second binding.
module DuplicateImports {
  import opened Wrappers
  import opened Text
  import opened Ast
  import opened UniqueNames
  import opened Walk

  // --------------------------------------------------------------- bindings

  /** Which binding of an import clause. */
  datatype Slot = DefaultSlot | NamespaceSlot | ElemSlot(j: nat)

  /** Where a binding sits: the index of its top-level statement and its
      slot. It stands for the node position (`node.pos`) the source keys its
      renames by: distinct bindings have distinct positions. */
  datatype Pos = Pos(stmt: nat, slot: Slot)

  /** `{ name, node }`. */
  datatype ImportBinding = ImportBinding(name: string, pos: Pos)

  /** The local name the scan records in `slot` of `s`: the default binding;
      the namespace alias or a named element only when the clause has no
      default binding. Nothing for other statements. */
  function SlotName(s: Stmt, slot: Slot): Option<string> {
    match s
    case Import(Some(c), _) =>
      (match slot
       case DefaultSlot => c.default
       case NamespaceSlot =>
         if c.default.None? && c.bindings.Some? && c.bindings.value.NamespaceImport?
         then Some(c.bindings.value.alias) else None
       case ElemSlot(j) =>
         if c.default.None? && c.bindings.Some? && c.bindings.value.NamedImports? && j < |c.bindings.value.elems|
         then Some(c.bindings.value.elems[j].name) else None)
    case _ => None
  }

  /** The name recorded at a position of a file, if any. */
  function BindingAt(content: seq<Stmt>, p: Pos): Option<string> {
    if p.stmt < |content| then SlotName(content[p.stmt], p.slot) else None
  }

  function ElemBindings(i: nat, es: seq<ImportSpec>): seq<ImportBinding> {
    seq(|es|, j requires 0 <= j < |es| => ImportBinding(es[j].name, Pos(i, ElemSlot(j))))
  }

  /** The bindings top-level statement `i` contributes, in scan order. */
  function StmtBindings(i: nat, s: Stmt): seq<ImportBinding> {
    match s
    case Import(Some(c), _) =>
      if c.default.Some? then [ImportBinding(c.default.value, Pos(i, DefaultSlot))]
      else if c.bindings.Some? && c.bindings.value.NamespaceImport? then
        [ImportBinding(c.bindings.value.alias, Pos(i, NamespaceSlot))]
      else if c.bindings.Some? then ElemBindings(i, c.bindings.value.elems)
      else []
    case _ => []
  }

  /** Every binding of the file's top-level imports, in scan order. */
  function AllBindings(content: seq<Stmt>): seq<ImportBinding>
    decreases |content|
  {
    if content == [] then []
    else AllBindings(content[..|content| - 1]) + StmtBindings(|content| - 1, content[|content| - 1])
  }

  ghost predicate PosDistinct(bs: seq<ImportBinding>) {
    forall i, j :: 0 <= i < j < |bs| ==> bs[i].pos != bs[j].pos
  }

  lemma StmtBindingsAt(i: nat, s: Stmt, b: ImportBinding)
    ensures b in StmtBindings(i, s) <==> b.pos.stmt == i && SlotName(s, b.pos.slot) == Some(b.name)
  {
    if s.Import? && s.clause.Some? {
      var c := s.clause.value;
      if c.default.None? && c.bindings.Some? && c.bindings.value.NamedImports? {
        var es := c.bindings.value.elems;
        var bs := ElemBindings(i, es);
        if b in bs {
          var j :| 0 <= j < |bs| && bs[j] == b;
        }
        if b.pos.stmt == i && SlotName(s, b.pos.slot) == Some(b.name) {
          assert bs[b.pos.slot.j] == b;
        }
      }
    }
  }

  lemma StmtBindingsDistinct(i: nat, s: Stmt)
    ensures PosDistinct(StmtBindings(i, s))
  {
  }

  /** A binding is scanned iff it sits in a slot of a top-level import that
      records it: only top-level imports with a clause take part, and a
      default binding hides the namespace alias and the named elements. */
  lemma {:induction false} AllBindingsAt(content: seq<Stmt>, b: ImportBinding)
    ensures b in AllBindings(content) <==> BindingAt(content, b.pos) == Some(b.name)
    decreases |content|
  {
    if content != [] {
      var k := |content| - 1;
      var init := content[..k];
      AllBindingsAt(init, b);
      StmtBindingsAt(k, content[k], b);
      if b.pos.stmt < k {
        assert content[b.pos.stmt] == init[b.pos.stmt];
      }
    }
  }

  /** No two scanned bindings share a position. */
  lemma {:induction false} AllBindingsDistinct(content: seq<Stmt>)
    ensures PosDistinct(AllBindings(content))
    decreases |content|
  {
    if content != [] {
      var k := |content| - 1;
      var init := content[..k];
      var a := AllBindings(init);
      var s := StmtBindings(k, content[k]);
      AllBindingsDistinct(init);
      StmtBindingsDistinct(k, content[k]);
      forall x, y | 0 <= x < |a| && 0 <= y < |s| ensures a[x].pos != s[y].pos {
        AllBindingsAt(init, a[x]);
        StmtBindingsAt(k, content[k], s[y]);
      }
      assert AllBindings(content) == a + s;
    }
  }

  // ------------------------------------------------------- the bindings map

  /** One entry of `bindings`: a local name and the positions of its
      bindings in scan order. */
  datatype Group = Group(name: string, occs: seq<Pos>)

  /** `bindings.get(n) || []`. */
  function OccsOf(gs: seq<Group>, n: string): seq<Pos>
    decreases |gs|
  {
    if gs == [] then []
    else if gs[0].name == n then gs[0].occs
    else OccsOf(gs[1..], n)
  }

  /** `bindings.set(n, (bindings.get(n) || []).concat(b))`: a known name
      keeps its place in the map's insertion order. */
  function Add(gs: seq<Group>, b: ImportBinding): seq<Group>
    decreases |gs|
  {
    if gs == [] then [Group(b.name, [b.pos])]
    else if gs[0].name == b.name then [Group(b.name, gs[0].occs + [b.pos])] + gs[1..]
    else [gs[0]] + Add(gs[1..], b)
  }

  /** The map after recording `bs` one after the other. */
  function GroupAll(bs: seq<ImportBinding>): seq<Group>
    decreases |bs|
  {
    if bs == [] then [] else Add(GroupAll(bs[..|bs| - 1]), bs[|bs| - 1])
  }

  /** The positions of the bindings named `n`, in scan order. */
  function Filter(bs: seq<ImportBinding>, n: string): seq<Pos>
    decreases |bs|
  {
    if bs == [] then []
    else Filter(bs[..|bs| - 1], n) + (if bs[|bs| - 1].name == n then [bs[|bs| - 1].pos] else [])
  }

  /** Map entries have distinct names and none is empty. */
  ghost predicate Grouped(gs: seq<Group>) {
    && (forall i, j :: 0 <= i < j < |gs| ==> gs[i].name != gs[j].name)
    && (forall i :: 0 <= i < |gs| ==> gs[i].occs != [])
  }

  lemma {:induction false} AddOccs(gs: seq<Group>, b: ImportBinding, n: string)
    ensures OccsOf(Add(gs, b), n) == OccsOf(gs, n) + (if b.name == n then [b.pos] else [])
    decreases |gs|
  {
    if gs != [] && gs[0].name != b.name {
      AddOccs(gs[1..], b, n);
      assert (([gs[0]] + Add(gs[1..], b))[1..]) == Add(gs[1..], b);
    }
  }

  function NameSet(gs: seq<Group>): set<string> {
    set g | g in gs :: g.name
  }

  lemma {:induction false} AddNames(gs: seq<Group>, b: ImportBinding)
    ensures NameSet(Add(gs, b)) == NameSet(gs) + {b.name}
    decreases |gs|
  {
    if gs != [] {
      if gs[0].name == b.name {
        var r := Add(gs, b);
        assert r[0].name == b.name;
        assert r[1..] == gs[1..];
        forall x | x in NameSet(gs) ensures x in NameSet(r) {
          var g :| g in gs && g.name == x;
          if g != gs[0] {
            var i :| 0 <= i < |gs| && gs[i] == g;
            assert r[i] == g;
          } else {
            assert r[0] in r;
          }
        }
        forall x | x in NameSet(r) ensures x in NameSet(gs) {
          var g :| g in r && g.name == x;
          var i :| 0 <= i < |r| && r[i] == g;
          assert gs[i].name == x;
        }
      } else {
        var rest := Add(gs[1..], b);
        AddNames(gs[1..], b);
        assert Add(gs, b) == [gs[0]] + rest;
        assert gs == [gs[0]] + gs[1..];
        assert NameSet([gs[0]] + rest) == {gs[0].name} + NameSet(rest);
        assert NameSet([gs[0]] + gs[1..]) == {gs[0].name} + NameSet(gs[1..]);
      }
    }
  }

  lemma {:induction false} AddGrouped(gs: seq<Group>, b: ImportBinding)
    requires Grouped(gs)
    ensures Grouped(Add(gs, b))
    decreases |gs|
  {
    if gs != [] && gs[0].name != b.name {
      var rest := gs[1..];
      assert Grouped(rest) by {
        forall i, j | 0 <= i < j < |rest| ensures rest[i].name != rest[j].name {
          assert rest[i] == gs[i + 1] && rest[j] == gs[j + 1];
        }
      }
      AddGrouped(rest, b);
      var r := Add(rest, b);
      AddNames(rest, b);
      assert gs[0].name !in NameSet(rest) by {
        forall g | g in rest ensures g.name != gs[0].name {
          var i :| 0 <= i < |rest| && rest[i] == g;
          assert gs[i + 1] == g;
        }
      }
      forall j | 0 <= j < |r| ensures r[j].name != gs[0].name {
        assert r[j] in r;
        assert r[j].name in NameSet(r);
      }
      assert Add(gs, b) == [gs[0]] + r;
    }
  }

  /** The collected map lists each name once, with the positions of its
      bindings in scan order. */
  lemma {:induction false} GroupAllSpec(bs: seq<ImportBinding>)
    ensures Grouped(GroupAll(bs))
    ensures forall n :: OccsOf(GroupAll(bs), n) == Filter(bs, n)
    decreases |bs|
  {
    if bs != [] {
      var init := bs[..|bs| - 1];
      GroupAllSpec(init);
      AddGrouped(GroupAll(init), bs[|bs| - 1]);
      forall n ensures OccsOf(GroupAll(bs), n) == Filter(bs, n) {
        AddOccs(GroupAll(init), bs[|bs| - 1], n);
      }
    }
  }

  lemma {:induction false} FilterIn(bs: seq<ImportBinding>, n: string, p: Pos)
    ensures p in Filter(bs, n) <==> ImportBinding(n, p) in bs
    decreases |bs|
  {
    if bs != [] {
      var init := bs[..|bs| - 1];
      FilterIn(init, n, p);
      assert bs == init + [bs[|bs| - 1]];
    }
  }

  lemma {:induction false} FilterDistinct(bs: seq<ImportBinding>, n: string)
    requires PosDistinct(bs)
    ensures Distinct(Filter(bs, n))
    decreases |bs|
  {
    if bs != [] {
      var k := |bs| - 1;
      var init := bs[..k];
      FilterDistinct(init, n);
      var f := Filter(init, n);
      if bs[k].name == n {
        forall i | 0 <= i < |f| ensures f[i] != bs[k].pos {
          FilterIn(init, n, f[i]);
          var x :| 0 <= x < |init| && init[x] == ImportBinding(n, f[i]);
          assert bs[x] == init[x];
        }
      }
    }
  }

  lemma {:induction false} OccsOfMember(gs: seq<Group>, i: nat)
    requires Grouped(gs) && i < |gs|
    ensures OccsOf(gs, gs[i].name) == gs[i].occs
    decreases |gs|
  {
    if i > 0 {
      var rest := gs[1..];
      assert Grouped(rest) by {
        forall x, y | 0 <= x < y < |rest| ensures rest[x].name != rest[y].name {
          assert rest[x] == gs[x + 1] && rest[y] == gs[y + 1];
        }
      }
      assert rest[i - 1] == gs[i];
      OccsOfMember(rest, i - 1);
    }
  }

  /** A name with bindings has an entry in the map. */
  lemma {:induction false} OccsOfEntry(gs: seq<Group>, n: string) returns (i: nat)
    requires OccsOf(gs, n) != []
    ensures i < |gs| && gs[i].name == n && gs[i].occs == OccsOf(gs, n)
    decreases |gs|
  {
    if gs[0].name == n {
      i := 0;
    } else {
      var j := OccsOfEntry(gs[1..], n);
      i := j + 1;
    }
  }

  /** The map is grouped, and no position is listed twice, under one name
      or under two. */
  ghost predicate Separate(gs: seq<Group>) {
    && Grouped(gs)
    && (forall i :: 0 <= i < |gs| ==> Distinct(gs[i].occs))
    && (forall i, j, p :: 0 <= i < |gs| && 0 <= j < |gs| && i != j && p in gs[i].occs ==> p !in gs[j].occs)
  }

  /** The bindings map of a file. */
  function Collected(content: seq<Stmt>): seq<Group> {
    GroupAll(AllBindings(content))
  }

  /** The collected map describes the file's bindings: the positions listed
      under `n` are exactly the bindings of `n`. */
  lemma CollectedOccs(content: seq<Stmt>, n: string, p: Pos)
    ensures p in OccsOf(Collected(content), n) <==> BindingAt(content, p) == Some(n)
  {
    var bs := AllBindings(content);
    GroupAllSpec(bs);
    FilterIn(bs, n, p);
    AllBindingsAt(content, ImportBinding(n, p));
  }

  /** The collected map lists each name once, and no position twice, under
      one name or under two. */
  lemma CollectedSeparate(content: seq<Stmt>)
    ensures Separate(Collected(content))
  {
    var bs := AllBindings(content);
    var gs := GroupAll(bs);
    GroupAllSpec(bs);
    AllBindingsDistinct(content);
    forall i | 0 <= i < |gs| ensures Distinct(gs[i].occs) {
      OccsOfMember(gs, i);
      FilterDistinct(bs, gs[i].name);
    }
    forall i, j, p | 0 <= i < |gs| && 0 <= j < |gs| && i != j && p in gs[i].occs ensures p !in gs[j].occs {
      OccsOfMember(gs, i);
      OccsOfMember(gs, j);
      CollectedOccs(content, gs[i].name, p);
      CollectedOccs(content, gs[j].name, p);
      assert gs[i].name != gs[j].name;
    }
  }

  /** The first loop of `duplicates`: the `bindings` map built over the
      top-level statements. */
  method CollectBindings(content: seq<Stmt>) returns (bindings: seq<Group>)
    ensures bindings == GroupAll(AllBindings(content))
  {
    bindings := [];
    for i := 0 to |content|
      invariant bindings == GroupAll(AllBindings(content[..i]))
    {
      assert content[..i + 1][..i] == content[..i];
      assert AllBindings(content[..i + 1]) == AllBindings(content[..i]) + StmtBindings(i, content[i]);
      bindings := CollectStmt(bindings, AllBindings(content[..i]), i, content[i]);
    }
    assert content[..|content|] == content;
  }

  /** One statement of the first loop: a default binding; else a namespace
      alias; else each named element. */
  method CollectStmt(bindings: seq<Group>, before: seq<ImportBinding>, i: nat, s: Stmt) returns (r: seq<Group>)
    requires bindings == GroupAll(before)
    ensures r == GroupAll(before + StmtBindings(i, s))
  {
    r := bindings;
    if s.Import? && s.clause.Some? {
      var c := s.clause.value;
      if c.default.Some? {
        r := Add(r, ImportBinding(c.default.value, Pos(i, DefaultSlot)));
        assert (before + [ImportBinding(c.default.value, Pos(i, DefaultSlot))])[..|before|] == before;
      } else if c.bindings.Some? && c.bindings.value.NamespaceImport? {
        r := Add(r, ImportBinding(c.bindings.value.alias, Pos(i, NamespaceSlot)));
        assert (before + [ImportBinding(c.bindings.value.alias, Pos(i, NamespaceSlot))])[..|before|] == before;
      } else if c.bindings.Some? {
        r := CollectElems(r, before, i, c.bindings.value.elems);
      } else {
        assert before + [] == before;
      }
    } else {
      assert before + [] == before;
    }
  }

  /** The loop over the elements of a named import. */
  method CollectElems(bindings: seq<Group>, before: seq<ImportBinding>, i: nat, es: seq<ImportSpec>) returns (r: seq<Group>)
    requires bindings == GroupAll(before)
    ensures r == GroupAll(before + ElemBindings(i, es))
  {
    r := bindings;
    assert before + ElemBindings(i, es)[..0] == before;
    for j := 0 to |es|
      invariant r == GroupAll(before + ElemBindings(i, es)[..j])
    {
      ghost var pre := before + ElemBindings(i, es)[..j];
      var b := ImportBinding(es[j].name, Pos(i, ElemSlot(j)));
      assert before + ElemBindings(i, es)[..j + 1] == pre + [b];
      GroupAllSnoc(pre, b);
      r := Add(r, b);
    }
    assert ElemBindings(i, es)[..|es|] == ElemBindings(i, es);
  }

  lemma GroupAllSnoc(bs: seq<ImportBinding>, b: ImportBinding)
    ensures GroupAll(bs + [b]) == Add(GroupAll(bs), b)
  {
    assert (bs + [b])[..|bs|] == bs;
  }

  // -------------------------------------------------------- generated names

  const DupKey := "DuplicateImport"
  const DupPrefix := "__dup__"

  /** The generator's table after `setPrefix` and `n` calls under its key. */
  function DupStore(n: nat): map<string, (string, nat)> {
    map[DupKey := (DupPrefix, n)]
  }

  /** One generated name: the one for the `i`-th later binding of `name`,
      which sits at `pos`. */
  datatype Renamed = Renamed(name: string, i: nat, pos: Pos, newName: string)

  /** How many names an entry of `bindings` draws. */
  function Extra(g: Group): nat {
    if |g.occs| > 1 then |g.occs| - 1 else 0
  }

  /** How many names the entries `gs` draw together. */
  function Total(gs: seq<Group>): nat
    decreases |gs|
  {
    if gs == [] then 0 else Total(gs[..|gs| - 1]) + Extra(gs[|gs| - 1])
  }

  /** The names one entry draws when `base` names were drawn before it. */
  function GroupRenames(g: Group, base: nat): seq<Renamed> {
    if |g.occs| > 1 then
      seq(|g.occs| - 1, k requires 0 <= k < |g.occs| - 1 =>
        Renamed(g.name, k + 1, g.occs[k + 1], CounterName(DupPrefix, g.name + "_", base + k + 1)))
    else []
  }

  /** Every name drawn, in drawing order. */
  function Renames(gs: seq<Group>): seq<Renamed>
    decreases |gs|
  {
    if gs == [] then []
    else Renames(gs[..|gs| - 1]) + GroupRenames(gs[|gs| - 1], Total(gs[..|gs| - 1]))
  }

  /** `renameMap`. The source sets `name::i` and `name::occurrence_i` together
      to the same name, so the one key (name, i) stands for both. */
  function KeyMap(rs: seq<Renamed>): map<(string, nat), string>
    decreases |rs|
  {
    if rs == [] then map[]
    else KeyMap(rs[..|rs| - 1])[(rs[|rs| - 1].name, rs[|rs| - 1].i) := rs[|rs| - 1].newName]
  }

  /** `nodeRenameByPos`. */
  function PosMap(rs: seq<Renamed>): map<Pos, string>
    decreases |rs|
  {
    if rs == [] then map[]
    else PosMap(rs[..|rs| - 1])[rs[|rs| - 1].pos := rs[|rs| - 1].newName]
  }

  /** The second loop of `duplicates`: one generator whose prefix for the
      key "DuplicateImport" is "__dup__"; for each name bound more than once,
      a name for each binding after the first. */
  method BuildRenameMap(bindings: seq<Group>) returns (renameMap: map<(string, nat), string>)
    ensures renameMap == KeyMap(Renames(bindings))
  {
    var gen := new KeyedNames("$nyein");
    var registered := gen.SetPrefix(DupKey, DupPrefix);
    renameMap := map[];
    for g := 0 to |bindings|
      invariant gen.stored == DupStore(Total(bindings[..g]))
      invariant renameMap == KeyMap(Renames(bindings[..g]))
    {
      TotalStep(bindings, g);
      RenamesStep(bindings, g);
      renameMap := DrawGroup(gen, renameMap, bindings[g], Renames(bindings[..g]), Total(bindings[..g]),
                             Renames(bindings[..g + 1]), Total(bindings[..g + 1]));
    }
    assert bindings[..|bindings|] == bindings;
  }

  /** The inner loop: `getName("DuplicateImport", name + "_")` for i = 1 … len-1. */
  method DrawGroup(gen: KeyedNames, renameMap: map<(string, nat), string>, g: Group,
                   done: seq<Renamed>, base: nat, after: seq<Renamed>, next: nat)
      returns (r: map<(string, nat), string>)
    requires gen.stored == DupStore(base)
    requires renameMap == KeyMap(done)
    requires after == done + GroupRenames(g, base) && next == base + Extra(g)
    modifies gen
    ensures gen.stored == DupStore(next)
    ensures r == KeyMap(after)
  {
    r := renameMap;
    if |g.occs| > 1 {
      var rs := GroupRenames(g, base);
      assert done + rs[..0] == done;
      for i := 1 to |g.occs|
        invariant gen.stored == DupStore(base + i - 1)
        invariant r == KeyMap(done + rs[..i - 1])
      {
        r := DrawOne(gen, r, g, done, base, i);
      }
      assert rs[..|g.occs| - 1] == rs;
    } else {
      assert done + [] == done;
    }
  }

  /** One turn of the inner loop. */
  method DrawOne(gen: KeyedNames, r0: map<(string, nat), string>, g: Group, done: seq<Renamed>, base: nat, i: nat)
      returns (r: map<(string, nat), string>)
    requires 1 <= i < |g.occs|
    requires gen.stored == DupStore(base + i - 1)
    requires r0 == KeyMap(done + GroupRenames(g, base)[..i - 1])
    modifies gen
    ensures gen.stored == DupStore(base + i)
    ensures r == KeyMap(done + GroupRenames(g, base)[..i])
  {
    DupStored(base + i - 1, gen.fallback);
    var newName := gen.GetName(DupKey, g.name + "_");
    DrawStep(done, g, base, i);
    r := r0[(g.name, i) := newName];
  }

  /** The generator's only key keeps the "__dup__" prefix and counts up by one. */
  lemma DupStored(n: nat, fallback: string)
    ensures PrefixFor(DupStore(n), DupKey, fallback) == DupPrefix
    ensures CountOf(DupStore(n), DupKey) == n
    ensures AfterGetName(DupStore(n), DupKey, fallback) == DupStore(n + 1)
  {
  }

  /** The names drawn for the first g + 1 entries, counted. */
  lemma TotalStep(gs: seq<Group>, g: nat)
    requires g < |gs|
    ensures Total(gs[..g + 1]) == Total(gs[..g]) + Extra(gs[g])
  {
    assert gs[..g + 1][..g] == gs[..g];
  }

  /** One turn of the inner loop adds the i-th drawn name under (name, i). */
  lemma DrawStep(done: seq<Renamed>, g: Group, base: nat, i: nat)
    requires 1 <= i < |g.occs|
    ensures KeyMap(done + GroupRenames(g, base)[..i])
         == KeyMap(done + GroupRenames(g, base)[..i - 1])[(g.name, i) := CounterName(DupPrefix, g.name + "_", base + i)]
  {
    var rs := GroupRenames(g, base);
    assert (done + rs[..i])[..|done| + i - 1] == done + rs[..i - 1];
    assert rs[i - 1] == Renamed(g.name, i, g.occs[i], CounterName(DupPrefix, g.name + "_", base + i));
  }

  // ----------------------------------------------- what the two maps hold

  lemma {:induction false} KeyMapKeys(rs: seq<Renamed>)
    ensures KeyMap(rs).Keys == set r | r in rs :: (r.name, r.i)
    decreases |rs|
  {
    if rs != [] {
      KeyMapKeys(rs[..|rs| - 1]);
      assert rs == rs[..|rs| - 1] + [rs[|rs| - 1]];
    }
  }

  lemma {:induction false} PosMapKeys(rs: seq<Renamed>)
    ensures PosMap(rs).Keys == set r | r in rs :: r.pos
    decreases |rs|
  {
    if rs != [] {
      PosMapKeys(rs[..|rs| - 1]);
      assert rs == rs[..|rs| - 1] + [rs[|rs| - 1]];
    }
  }

  lemma {:induction false} KeyMapHas(rs: seq<Renamed>, e: nat)
    requires e < |rs|
    requires forall x, y :: 0 <= x < y < |rs| ==> (rs[x].name, rs[x].i) != (rs[y].name, rs[y].i)
    ensures (rs[e].name, rs[e].i) in KeyMap(rs) && KeyMap(rs)[(rs[e].name, rs[e].i)] == rs[e].newName
    decreases |rs|
  {
    if e < |rs| - 1 {
      KeyMapHas(rs[..|rs| - 1], e);
    }
  }

  lemma {:induction false} PosMapHas(rs: seq<Renamed>, e: nat)
    requires e < |rs|
    requires forall x, y :: 0 <= x < y < |rs| ==> rs[x].pos != rs[y].pos
    ensures rs[e].pos in PosMap(rs) && PosMap(rs)[rs[e].pos] == rs[e].newName
    decreases |rs|
  {
    if e < |rs| - 1 {
      PosMapHas(rs[..|rs| - 1], e);
    }
  }

  lemma ChunkAt(g: Group, base: nat, x: nat)
    requires x < |GroupRenames(g, base)|
    ensures |g.occs| > 1 && x + 1 < |g.occs|
    ensures GroupRenames(g, base)[x] == Renamed(g.name, x + 1, g.occs[x + 1], CounterName(DupPrefix, g.name + "_", base + x + 1))
  {
  }

  lemma RenamesSnoc(gs: seq<Group>)
    requires gs != []
    ensures Renames(gs) == Renames(gs[..|gs| - 1]) + GroupRenames(gs[|gs| - 1], Total(gs[..|gs| - 1]))
  {
  }

  /** The names drawn for the first g + 1 entries. */
  lemma RenamesStep(gs: seq<Group>, g: nat)
    requires g < |gs|
    ensures Renames(gs[..g + 1]) == Renames(gs[..g]) + GroupRenames(gs[g], Total(gs[..g]))
  {
    assert gs[..g + 1][..g] == gs[..g];
  }

  /** One name is drawn for every binding after the first of its name. */
  lemma {:induction false} RenamesLength(gs: seq<Group>)
    ensures |Renames(gs)| == Total(gs)
    decreases |gs|
  {
    if gs != [] {
      RenamesLength(gs[..|gs| - 1]);
    }
  }

  /** The name drawn x-th belongs to the k-th later binding of entry `gi`,
      and its counter is x + 1: the generator hands out 1, 2, 3, ... */
  lemma {:induction false} RenamesOrigin(gs: seq<Group>, x: nat) returns (gi: nat, k: nat)
    requires x < |Renames(gs)|
    ensures gi < |gs| && 1 <= k < |gs[gi].occs| && x == Total(gs[..gi]) + k - 1
    ensures Renames(gs)[x] == Renamed(gs[gi].name, k, gs[gi].occs[k], CounterName(DupPrefix, gs[gi].name + "_", x + 1))
    decreases |gs|, 1
  {
    RenamesSnoc(gs);
    if x < |Renames(gs[..|gs| - 1])| {
      gi, k := RenamesOriginEarlier(gs, x);
    } else {
      gi, k := RenamesOriginLast(gs, x);
    }
  }

  lemma RenamesOriginEarlier(gs: seq<Group>, x: nat) returns (gi: nat, k: nat)
    requires gs != [] && x < |Renames(gs[..|gs| - 1])|
    ensures gi < |gs| && 1 <= k < |gs[gi].occs| && x == Total(gs[..gi]) + k - 1
    ensures Renames(gs)[x] == Renamed(gs[gi].name, k, gs[gi].occs[k], CounterName(DupPrefix, gs[gi].name + "_", x + 1))
    decreases |gs|, 0
  {
    var init := gs[..|gs| - 1];
    RenamesSnoc(gs);
    gi, k := RenamesOrigin(init, x);
    assert init[gi] == gs[gi] && init[..gi] == gs[..gi];
    assert Renames(gs)[x] == Renames(init)[x];
  }

  lemma RenamesOriginLast(gs: seq<Group>, x: nat) returns (gi: nat, k: nat)
    requires gs != [] && |Renames(gs[..|gs| - 1])| <= x < |Renames(gs)|
    ensures gi < |gs| && 1 <= k < |gs[gi].occs| && x == Total(gs[..gi]) + k - 1
    ensures Renames(gs)[x] == Renamed(gs[gi].name, k, gs[gi].occs[k], CounterName(DupPrefix, gs[gi].name + "_", x + 1))
  {
    var last := |gs| - 1;
    var init := gs[..last];
    var done := Renames(init);
    RenamesSnoc(gs);
    var y := x - |done|;
    RenamesLength(init);
    ChunkAt(gs[last], Total(init), y);
    assert Renames(gs)[x] == GroupRenames(gs[last], Total(init))[y];
    gi, k := last, y + 1;
  }

  /** The converse: the k-th later binding of entry `gi` draws the name
      numbered (names drawn for earlier entries) + k. */
  lemma {:induction false} RenamesAt(gs: seq<Group>, gi: nat, k: nat)
    requires gi < |gs| && 1 <= k < |gs[gi].occs|
    ensures Total(gs[..gi]) + k - 1 < |Renames(gs)|
    ensures Renames(gs)[Total(gs[..gi]) + k - 1]
         == Renamed(gs[gi].name, k, gs[gi].occs[k], CounterName(DupPrefix, gs[gi].name + "_", Total(gs[..gi]) + k))
    decreases |gs|, 1
  {
    if gi == |gs| - 1 {
      RenamesAtLast(gs, k);
    } else {
      RenamesAtEarlier(gs, gi, k);
    }
  }

  lemma RenamesAtLast(gs: seq<Group>, k: nat)
    requires gs != [] && 1 <= k < |gs[|gs| - 1].occs|
    ensures Total(gs[..|gs| - 1]) + k - 1 < |Renames(gs)|
    ensures Renames(gs)[Total(gs[..|gs| - 1]) + k - 1]
         == Renamed(gs[|gs| - 1].name, k, gs[|gs| - 1].occs[k], CounterName(DupPrefix, gs[|gs| - 1].name + "_", Total(gs[..|gs| - 1]) + k))
  {
    var last := |gs| - 1;
    var init := gs[..last];
    ChunkAt(gs[last], Total(init), k - 1);
    RenamesLength(init);
    RenamesLast(gs, k - 1);
  }

  lemma {:induction false} RenamesAtEarlier(gs: seq<Group>, gi: nat, k: nat)
    requires gi < |gs| - 1 && 1 <= k < |gs[gi].occs|
    ensures Total(gs[..gi]) + k - 1 < |Renames(gs)|
    ensures Renames(gs)[Total(gs[..gi]) + k - 1]
         == Renamed(gs[gi].name, k, gs[gi].occs[k], CounterName(DupPrefix, gs[gi].name + "_", Total(gs[..gi]) + k))
    decreases |gs|, 0
  {
    var init := gs[..|gs| - 1];
    assert init[gi] == gs[gi] && init[..gi] == gs[..gi];
    RenamesAt(init, gi, k);
    RenamesPrefix(gs, Total(gs[..gi]) + k - 1);
  }

  lemma RenamesPrefix(gs: seq<Group>, e: nat)
    requires gs != [] && e < |Renames(gs[..|gs| - 1])|
    ensures e < |Renames(gs)| && Renames(gs)[e] == Renames(gs[..|gs| - 1])[e]
  {
    RenamesSnoc(gs);
  }

  lemma RenamesLast(gs: seq<Group>, x: nat)
    requires gs != [] && x < |GroupRenames(gs[|gs| - 1], Total(gs[..|gs| - 1]))|
    ensures |Renames(gs[..|gs| - 1])| + x < |Renames(gs)|
    ensures Renames(gs)[|Renames(gs[..|gs| - 1])| + x] == GroupRenames(gs[|gs| - 1], Total(gs[..|gs| - 1]))[x]
  {
    RenamesSnoc(gs);
  }

  /** Every key of `nodeRenameByPos` is the position of a drawn name. */
  lemma {:induction false} PosMapIndex(rs: seq<Renamed>, p: Pos) returns (x: nat)
    requires p in PosMap(rs)
    ensures x < |rs| && rs[x].pos == p
    decreases |rs|
  {
    if rs[|rs| - 1].pos == p {
      x := |rs| - 1;
    } else {
      x := PosMapIndex(rs[..|rs| - 1], p);
    }
  }

  /** Two names drawn at different steps come from different bindings. */
  lemma RenamesApart(gs: seq<Group>, x: nat, y: nat) returns (g1: nat, k1: nat, g2: nat, k2: nat)
    requires x < |Renames(gs)| && y < |Renames(gs)| && x != y
    ensures g1 < |gs| && 1 <= k1 < |gs[g1].occs| && g2 < |gs| && 1 <= k2 < |gs[g2].occs|
    ensures (g1, k1) != (g2, k2)
    ensures Renames(gs)[x] == Renamed(gs[g1].name, k1, gs[g1].occs[k1], CounterName(DupPrefix, gs[g1].name + "_", x + 1))
    ensures Renames(gs)[y] == Renamed(gs[g2].name, k2, gs[g2].occs[k2], CounterName(DupPrefix, gs[g2].name + "_", y + 1))
  {
    g1, k1 := RenamesOrigin(gs, x);
    g2, k2 := RenamesOrigin(gs, y);
  }

  /** With distinct names in the map, the keys of `renameMap` never clash. */
  lemma RenamesKeysDistinct(gs: seq<Group>)
    requires Grouped(gs)
    ensures forall x, y :: 0 <= x < y < |Renames(gs)| ==>
      (Renames(gs)[x].name, Renames(gs)[x].i) != (Renames(gs)[y].name, Renames(gs)[y].i)
  {
    forall x, y | 0 <= x < y < |Renames(gs)|
      ensures (Renames(gs)[x].name, Renames(gs)[x].i) != (Renames(gs)[y].name, Renames(gs)[y].i)
    {
      KeysApart(gs, x, y);
    }
  }

  lemma KeysApart(gs: seq<Group>, x: nat, y: nat)
    requires Grouped(gs) && x < y < |Renames(gs)|
    ensures (Renames(gs)[x].name, Renames(gs)[x].i) != (Renames(gs)[y].name, Renames(gs)[y].i)
  {
    var g1, k1, g2, k2 := RenamesApart(gs, x, y);
    if g1 != g2 {
      assert gs[g1].name != gs[g2].name;
    }
  }

  /** With no position listed twice, the keys of `nodeRenameByPos` never
      clash. */
  lemma RenamesPositionsDistinct(gs: seq<Group>)
    requires Separate(gs)
    ensures forall x, y :: 0 <= x < y < |Renames(gs)| ==> Renames(gs)[x].pos != Renames(gs)[y].pos
  {
    forall x, y | 0 <= x < y < |Renames(gs)| ensures Renames(gs)[x].pos != Renames(gs)[y].pos {
      PositionsApart(gs, x, y);
    }
  }

  lemma PositionsApart(gs: seq<Group>, x: nat, y: nat)
    requires Separate(gs) && x < y < |Renames(gs)|
    ensures Renames(gs)[x].pos != Renames(gs)[y].pos
  {
    var g1, k1, g2, k2 := RenamesApart(gs, x, y);
    OccsApart(gs, g1, k1, g2, k2);
  }

  /** Two different (entry, binding) pairs of separate groups sit at different positions. */
  lemma OccsApart(gs: seq<Group>, g1: nat, k1: nat, g2: nat, k2: nat)
    requires Separate(gs)
    requires g1 < |gs| && k1 < |gs[g1].occs| && g2 < |gs| && k2 < |gs[g2].occs| && (g1, k1) != (g2, k2)
    ensures gs[g1].occs[k1] != gs[g2].occs[k2]
  {
    if g1 == g2 {
      assert Distinct(gs[g1].occs);
    } else {
      assert gs[g1].occs[k1] in gs[g1].occs;
    }
  }

  /** The k-th later binding of entry `gi` is keyed `name::k` in `renameMap`;
      its name carries counter (names drawn for earlier entries) + k. */
  lemma KeyMapAt(gs: seq<Group>, gi: nat, k: nat)
    requires Grouped(gs) && gi < |gs| && 1 <= k < |gs[gi].occs|
    ensures (gs[gi].name, k) in KeyMap(Renames(gs))
    ensures KeyMap(Renames(gs))[(gs[gi].name, k)] == CounterName(DupPrefix, gs[gi].name + "_", Total(gs[..gi]) + k)
  {
    var rs, e := Renames(gs), Total(gs[..gi]) + k - 1;
    assert e < |rs| && (rs[e].name, rs[e].i) == (gs[gi].name, k)
        && rs[e].newName == CounterName(DupPrefix, gs[gi].name + "_", Total(gs[..gi]) + k) by {
      RenamesAt(gs, gi, k);
    }
    assert (rs[e].name, rs[e].i) in KeyMap(rs) && KeyMap(rs)[(rs[e].name, rs[e].i)] == rs[e].newName by {
      RenamesKeysDistinct(gs);
      KeyMapHas(rs, e);
    }
  }

  /** `renameMap` holds, under `name::k`, the name an entry drawn after
      `base` others draws for its k-th later binding. */
  ghost predicate KeysFor(renameMap: map<(string, nat), string>, g: Group, base: nat) {
    forall k :: 1 <= k < |g.occs| ==>
      (g.name, k) in renameMap && renameMap[(g.name, k)] == CounterName(DupPrefix, g.name + "_", base + k)
  }

  /** Every later binding of entry `gi` has its key in `renameMap`. */
  lemma KeyMapGroup(gs: seq<Group>, gi: nat)
    requires Grouped(gs) && gi < |gs|
    ensures KeysFor(KeyMap(Renames(gs)), gs[gi], Total(gs[..gi]))
  {
    KeyMapEvery(gs, gi);
  }

  lemma KeyMapEvery(gs: seq<Group>, gi: nat)
    requires Grouped(gs) && gi < |gs|
    ensures forall k :: 1 <= k < |gs[gi].occs| ==>
      (gs[gi].name, k) in KeyMap(Renames(gs)) && KeyMap(Renames(gs))[(gs[gi].name, k)] == CounterName(DupPrefix, gs[gi].name + "_", Total(gs[..gi]) + k)
  {
    forall k | 1 <= k < |gs[gi].occs|
      ensures (gs[gi].name, k) in KeyMap(Renames(gs)) && KeyMap(Renames(gs))[(gs[gi].name, k)] == CounterName(DupPrefix, gs[gi].name + "_", Total(gs[..gi]) + k)
    {
      KeyMapAt(gs, gi, k);
    }
  }

  /** The k-th later binding of entry `gi` is renamed by position to the
      name `renameMap` holds for it. */
  lemma PosMapAt(gs: seq<Group>, gi: nat, k: nat)
    requires Separate(gs) && gi < |gs| && 1 <= k < |gs[gi].occs|
    ensures gs[gi].occs[k] in PosMap(Renames(gs))
    ensures PosMap(Renames(gs))[gs[gi].occs[k]] == CounterName(DupPrefix, gs[gi].name + "_", Total(gs[..gi]) + k)
    ensures var n := CounterName(DupPrefix, gs[gi].name + "_", Total(gs[..gi]) + k);
            NewName(PosMap(Renames(gs)), gs[gi].occs[k], gs[gi].name) == n && n != gs[gi].name
  {
    var rs, e := Renames(gs), Total(gs[..gi]) + k - 1;
    assert e < |rs| && rs[e].pos == gs[gi].occs[k]
        && rs[e].newName == CounterName(DupPrefix, gs[gi].name + "_", Total(gs[..gi]) + k) by {
      RenamesAt(gs, gi, k);
    }
    assert rs[e].pos in PosMap(rs) && PosMap(rs)[rs[e].pos] == rs[e].newName by {
      RenamesPositionsDistinct(gs);
      PosMapHas(rs, e);
    }
    CounterNameLonger(gs[gi].name, Total(gs[..gi]) + k);
    NewNameHit(PosMap(rs), rs[e].pos, gs[gi].name, rs[e].newName);
  }

  /** The first binding of every name keeps it: its position is not renamed. */
  lemma FirstBindingKept(gs: seq<Group>, gi: nat)
    requires Separate(gs) && gi < |gs|
    ensures gs[gi].occs[0] !in PosMap(Renames(gs))
  {
    var rs := Renames(gs);
    PosMapKeys(rs);
    forall x | 0 <= x < |rs| ensures rs[x].pos != gs[gi].occs[0] {
      var gj, k := RenamesOrigin(gs, x);
      if gj == gi {
        assert Distinct(gs[gi].occs);
      } else {
        assert gs[gi].occs[0] in gs[gi].occs;
      }
    }
  }

  /** Bindings at different positions never get the same name: every name
      draws a fresh counter. */
  lemma RenamedDistinct(gs: seq<Group>, p1: Pos, p2: Pos)
    requires Separate(gs)
    requires p1 in PosMap(Renames(gs)) && p2 in PosMap(Renames(gs)) && p1 != p2
    ensures PosMap(Renames(gs))[p1] != PosMap(Renames(gs))[p2]
  {
    var rs := Renames(gs);
    RenamesPositionsDistinct(gs);
    var x := PosMapIndex(rs, p1);
    var y := PosMapIndex(rs, p2);
    PosMapHas(rs, x);
    PosMapHas(rs, y);
    var g1, k1 := RenamesOrigin(gs, x);
    var g2, k2 := RenamesOrigin(gs, y);
    CounterNamesDistinct(DupPrefix, gs[g1].name + "_", x + 1, DupPrefix, gs[g2].name + "_", y + 1);
  }

  // ------------------------------------------------ the third loop, by position

  /** The source's third loop: `nodeRenameByPos` filled from `renameMap`,
      the position of the k-th later binding of each name mapped to the
      name kept under `name::k`. */
  method PositionRenames(bindings: seq<Group>, renameMap: map<(string, nat), string>) returns (byPos: map<Pos, string>)
    requires Grouped(bindings)
    requires renameMap == KeyMap(Renames(bindings))
    ensures byPos == PosMap(Renames(bindings))
  {
    byPos := map[];
    for g := 0 to |bindings|
      invariant byPos == PosMap(Renames(bindings[..g]))
    {
      RenamesStep(bindings, g);
      KeyMapGroup(bindings, g);
      byPos := PlaceGroup(renameMap, byPos, bindings[g], Total(bindings[..g]), Renames(bindings[..g]));
    }
    assert bindings[..|bindings|] == bindings;
  }

  /** The inner loop of the third loop, for an entry `g` whose names were
      drawn after `base` others. */
  method PlaceGroup(renameMap: map<(string, nat), string>, byPos: map<Pos, string>, g: Group, base: nat, done: seq<Renamed>)
      returns (r: map<Pos, string>)
    requires KeysFor(renameMap, g, base)
    requires byPos == PosMap(done)
    ensures r == PosMap(done + GroupRenames(g, base))
  {
    r := byPos;
    if |g.occs| > 1 {
      var rs := GroupRenames(g, base);
      assert done + rs[..0] == done;
      for i := 1 to |g.occs|
        invariant r == PosMap(done + rs[..i - 1])
      {
        PlaceStep(renameMap, g, base, done, i);
        r := r[g.occs[i] := renameMap[(g.name, i)]];
      }
      assert rs[..|g.occs| - 1] == rs;
    } else {
      assert done + [] == done;
    }
  }

  /** One turn of that loop adds the i-th binding's position with its drawn name. */
  lemma PlaceStep(renameMap: map<(string, nat), string>, g: Group, base: nat, done: seq<Renamed>, i: nat)
    requires KeysFor(renameMap, g, base) && 1 <= i < |g.occs|
    ensures (g.name, i) in renameMap
    ensures PosMap(done + GroupRenames(g, base)[..i])
         == PosMap(done + GroupRenames(g, base)[..i - 1])[g.occs[i] := renameMap[(g.name, i)]]
  {
    var rs := GroupRenames(g, base);
    ChunkAt(g, base, i - 1);
    assert (done + rs[..i])[..|done| + i - 1] == done + rs[..i - 1];
  }

  // --------------------------------------------------------------- the visitor

  /** The identifier positions `isDeclarationName` answers true for: the
      parent is an import specifier, a namespace import, an import clause,
      a variable, function, class, interface, type alias or enum
      declaration, a parameter, a property or method declaration, or a
      binding element. */
  predicate IsDeclarationPos(p: IdPos) {
    p in {ImportProp, ImportName, NamespaceAlias, ImportDefault, VarName, FuncName, ClassName,
          InterfaceName, TypeAliasName, EnumName, ParamName, FieldName, MethodName, BindProp, BindName}
  }

  /** The first non-empty name kept under `(n, i)` for i = from, …, len-1. */
  function FirstGenerated(renameMap: map<(string, nat), string>, n: string, from: nat, len: nat): Option<string>
    decreases len - from
  {
    if from >= len then None
    else if (n, from) in renameMap && renameMap[(n, from)] != "" then Some(renameMap[(n, from)])
    else FirstGenerated(renameMap, n, from + 1, len)
  }

  /** What an identifier use of `n` becomes: when `n` is bound more than
      once, the first generated name found for it. */
  function UseRename(bindings: seq<Group>, renameMap: map<(string, nat), string>, n: string): Option<string> {
    var len := |OccsOf(bindings, n)|;
    if len > 1 then FirstGenerated(renameMap, n, 1, len) else None
  }

  /** The loop of the identifier branch, as written: it stops at the first
      index with a generated name. */
  method FindUseRename(bindings: seq<Group>, renameMap: map<(string, nat), string>, txt: string) returns (r: Option<string>)
    ensures r == UseRename(bindings, renameMap, txt)
  {
    var arr := OccsOf(bindings, txt);
    r := None;
    if |arr| > 1 {
      var i := 1;
      while i < |arr|
        invariant 1 <= i <= |arr|
        invariant FirstGenerated(renameMap, txt, 1, |arr|) == FirstGenerated(renameMap, txt, i, |arr|)
      {
        if (txt, i) in renameMap && renameMap[(txt, i)] != "" {
          return Some(renameMap[(txt, i)]);
        }
        i := i + 1;
      }
    }
  }

  /** An identifier that is not an expression: declaration names and the
      name after `.` are kept, every other one follows `UseRename`. */
  function IdUse(bindings: seq<Group>, renameMap: map<(string, nat), string>, p: IdPos, n: string): string {
    if IsDeclarationPos(p) || p == PropAccessName then n
    else match UseRename(bindings, renameMap, n)
      case Some(x) => x
      case None => n
  }

  /** An identifier expression: never a declaration name, so it follows
      `UseRename`. */
  function ExprUse(bindings: seq<Group>, renameMap: map<(string, nat), string>, e: Expr): Option<Expr> {
    if e.Id? && UseRename(bindings, renameMap, e.name).Some? then Some(Id(UseRename(bindings, renameMap, e.name).value))
    else None
  }

  /** The visitor below the top-level statements. Imports nested in a
      namespace are never among the recorded bindings, so it lets every
      statement through. */
  function UseHooks(bindings: seq<Group>, renameMap: map<(string, nat), string>): Hooks<()> {
    Hooks((s, st, inNs) => (st, None),
          (e, st) => (st, ExprUse(bindings, renameMap, e)),
          (t, st) => (st, None),
          (p, n, st) => (st, IdUse(bindings, renameMap, p, n)))
  }

  // ------------------------------------------------------- rebuilt imports

  /** `nodeRenameByPos.get(pos)` is a non-empty name. */
  predicate Hit(byPos: map<Pos, string>, p: Pos) {
    p in byPos && byPos[p] != ""
  }

  /** The name in a slot after the update. */
  function NewName(byPos: map<Pos, string>, p: Pos, name: string): string {
    if Hit(byPos, p) then byPos[p] else name
  }

  /** The local name in a slot of a clause, whether or not the scan
      recorded it. */
  function ClauseSlot(c: ImportClause, slot: Slot): Option<string> {
    match slot
    case DefaultSlot => c.default
    case NamespaceSlot => if c.bindings.Some? && c.bindings.value.NamespaceImport? then Some(c.bindings.value.alias) else None
    case ElemSlot(j) =>
      if c.bindings.Some? && c.bindings.value.NamedImports? && j < |c.bindings.value.elems|
      then Some(c.bindings.value.elems[j].name) else None
  }

  /** Two clauses that differ at most in their local names. */
  predicate SameShape(a: ImportClause, b: ImportClause) {
    && a.isTypeOnly == b.isTypeOnly
    && a.default.Some? == b.default.Some?
    && a.bindings.Some? == b.bindings.Some?
    && (a.bindings.Some? ==> a.bindings.value.NamespaceImport? == b.bindings.value.NamespaceImport?)
    && (a.bindings.Some? && a.bindings.value.NamedImports? ==>
          && |a.bindings.value.elems| == |b.bindings.value.elems|
          && forall j :: 0 <= j < |a.bindings.value.elems| ==>
               a.bindings.value.elems[j].isTypeOnly == b.bindings.value.elems[j].isTypeOnly
               && a.bindings.value.elems[j].propertyName == b.bindings.value.elems[j].propertyName)
  }

  function RenameElems(byPos: map<Pos, string>, i: nat, es: seq<ImportSpec>): seq<ImportSpec> {
    seq(|es|, j requires 0 <= j < |es| =>
      if Hit(byPos, Pos(i, ElemSlot(j))) then ImportSpec(es[j].isTypeOnly, es[j].propertyName, byPos[Pos(i, ElemSlot(j))])
      else es[j])
  }

  /** The import branch of the visitor on the clause of top-level statement
      `i`: each of its slots whose position has a name takes it, and the
      flag `changed` says whether any did. */
  function RenameClause(byPos: map<Pos, string>, i: nat, c: ImportClause): (r: (ImportClause, bool))
    ensures SameShape(c, r.0)
    ensures forall slot :: ClauseSlot(r.0, slot) == (match ClauseSlot(c, slot) case Some(x) => Some(NewName(byPos, Pos(i, slot), x)) case None => None)
    ensures r.1 <==> exists slot :: ClauseSlot(c, slot).Some? && Hit(byPos, Pos(i, slot))
  {
    var defaultHit := c.default.Some? && Hit(byPos, Pos(i, DefaultSlot));
    var d := if defaultHit then Some(byPos[Pos(i, DefaultSlot)]) else c.default;
    match c.bindings
    case None => (ImportClause(c.isTypeOnly, d, None), defaultHit)
    case Some(NamespaceImport(a)) =>
      var hit := Hit(byPos, Pos(i, NamespaceSlot));
      (ImportClause(c.isTypeOnly, d, Some(NamespaceImport(if hit then byPos[Pos(i, NamespaceSlot)] else a))), defaultHit || hit)
    case Some(NamedImports(es)) => RenameNamedClause(byPos, i, c)
  }

  /** The named-imports case of `RenameClause`. */
  function RenameNamedClause(byPos: map<Pos, string>, i: nat, c: ImportClause): (r: (ImportClause, bool))
    requires c.bindings.Some? && c.bindings.value.NamedImports?
    ensures SameShape(c, r.0)
    ensures forall slot :: ClauseSlot(r.0, slot) == (match ClauseSlot(c, slot) case Some(x) => Some(NewName(byPos, Pos(i, slot), x)) case None => None)
    ensures r.1 <==> exists slot :: ClauseSlot(c, slot).Some? && Hit(byPos, Pos(i, slot))
  {
    var es := c.bindings.value.elems;
    var defaultHit := c.default.Some? && Hit(byPos, Pos(i, DefaultSlot));
    var d := if defaultHit then Some(byPos[Pos(i, DefaultSlot)]) else c.default;
    var hit := exists j | 0 <= j < |es| :: Hit(byPos, Pos(i, ElemSlot(j)));
    (ImportClause(c.isTypeOnly, d, Some(NamedImports(RenameElems(byPos, i, es)))), defaultHit || hit)
  }

  /** The visitor on top-level statement `i`: an import with a renamed slot
      is rebuilt and not visited further; any other statement is rebuilt
      from its visited children. */
  function TopStmt(bindings: seq<Group>, renameMap: map<(string, nat), string>, byPos: map<Pos, string>, i: nat, s: Stmt): Stmt {
    match s
    case Import(Some(c), spec) =>
      var (c2, changed) := RenameClause(byPos, i, c);
      if changed then Import(Some(c2), spec)
      else Children(UseHooks(bindings, renameMap), Stateless(), s, (), false).0
    case _ => Children(UseHooks(bindings, renameMap), Stateless(), s, (), false).0
  }

  function Transform(content: seq<Stmt>, bindings: seq<Group>, renameMap: map<(string, nat), string>, byPos: map<Pos, string>): seq<Stmt> {
    seq(|content|, i requires 0 <= i < |content| => TopStmt(bindings, renameMap, byPos, i, content[i]))
  }

  /** `duplicates(content)` on the parsed file. */
  function DuplicatesOf(content: seq<Stmt>): seq<Stmt> {
    var rs := Renames(Collected(content));
    Transform(content, Collected(content), KeyMap(rs), PosMap(rs))
  }

  /** `duplicates`: collect, draw, index by position, transform. */
  method Duplicates(content: seq<Stmt>) returns (out: seq<Stmt>)
    ensures out == DuplicatesOf(content)
  {
    var bindings := CollectBindings(content);
    var renameMap := BuildRenameMap(bindings);
    GroupAllSpec(AllBindings(content));
    var byPos := PositionRenames(bindings, renameMap);
    out := Transform(content, bindings, renameMap, byPos);
  }

  // ------------------------------------------------------- what it produces

  /** A recorded name after the update of its slot. */
  function Updated(byPos: map<Pos, string>, p: Pos, o: Option<string>): Option<string> {
    match o
    case Some(x) => Some(NewName(byPos, p, x))
    case None => None
  }

  lemma {:induction false} UseSpecsKept(bindings: seq<Group>, renameMap: map<(string, nat), string>, es: seq<ImportSpec>)
    ensures ImportSpecs(UseHooks(bindings, renameMap), Stateless(), es, ()) == (es, ())
    decreases es
  {
    if es != [] {
      UseSpecsKept(bindings, renameMap, es[1..]);
      assert [es[0]] + es[1..] == es;
    }
  }

  /** An import the visitor walks into keeps its local names: they are all
      declaration names. */
  lemma UseClauseKept(bindings: seq<Group>, renameMap: map<(string, nat), string>, c: Option<ImportClause>)
    ensures Clause(UseHooks(bindings, renameMap), Stateless(), c, ()) == (c, ())
  {
    if c.Some? && c.value.bindings.Some? && c.value.bindings.value.NamedImports? {
      UseSpecsKept(bindings, renameMap, c.value.bindings.value.elems);
    }
  }

  /** After the visitor, each recorded slot of top-level statement `i`
      holds the name kept for its position, if any, and its old name
      otherwise; a slot the scan does not record stays unrecorded. */
  lemma TopSlot(bindings: seq<Group>, renameMap: map<(string, nat), string>, byPos: map<Pos, string>, i: nat, s: Stmt, slot: Slot)
    ensures SlotName(TopStmt(bindings, renameMap, byPos, i, s), slot) == Updated(byPos, Pos(i, slot), SlotName(s, slot))
  {
    var h := UseHooks(bindings, renameMap);
    if s.Import? && s.clause.Some? {
      var c := s.clause.value;
      var r := RenameClause(byPos, i, c);
      if !r.1 {
        UseClauseKept(bindings, renameMap, s.clause);
        assert TopStmt(bindings, renameMap, byPos, i, s) == s;
        assert ClauseSlot(c, slot).Some? ==> !Hit(byPos, Pos(i, slot));
      } else {
        assert ClauseSlot(r.0, slot) == Updated(byPos, Pos(i, slot), ClauseSlot(c, slot));
      }
    } else if s.Import? {
      assert Children(h, Stateless(), s, (), false).0 == s;
    }
  }

  /** What `duplicates` does to the file's import bindings: every recorded
      binding keeps its slot and takes the name kept for its position. */
  lemma DuplicatesBindingAt(content: seq<Stmt>, p: Pos)
    ensures var G := Collected(content);
      BindingAt(DuplicatesOf(content), p) == Updated(PosMap(Renames(G)), p, BindingAt(content, p))
  {
    var G := Collected(content);
    var rs := Renames(G);
    if p.stmt < |content| {
      TopSlot(G, KeyMap(rs), PosMap(rs), p.stmt, content[p.stmt], p.slot);
    }
  }

  /** A generated name is never the name it was generated for, nor empty. */
  lemma CounterNameLonger(n: string, k: nat)
    ensures |CounterName(DupPrefix, n + "_", k)| > |n| + 1
  {
  }

  /** In a separate map, the k-th binding of entry `gi` keeps its name iff
      it is the first; a later one takes the name numbered (names drawn for
      earlier entries) + k. */
  lemma NewNameAt(gs: seq<Group>, gi: nat, k: nat)
    requires Separate(gs) && gi < |gs| && k < |gs[gi].occs|
    ensures NewName(PosMap(Renames(gs)), gs[gi].occs[k], gs[gi].name) == gs[gi].name <==> k == 0
    ensures k > 0 ==>
      NewName(PosMap(Renames(gs)), gs[gi].occs[k], gs[gi].name) == CounterName(DupPrefix, gs[gi].name + "_", Total(gs[..gi]) + k)
  {
    if k == 0 {
      FirstBindingKept(gs, gi);
    } else {
      PosMapAt(gs, gi, k);
    }
  }

  lemma NewNameHit(byPos: map<Pos, string>, p: Pos, name: string, n: string)
    requires p in byPos && byPos[p] == n && |n| > |name| + 1
    ensures NewName(byPos, p, name) == n && n != name
  {
  }

  /** The binding at `p` is the first binding of its name in scan order. */
  predicate FirstBinding(content: seq<Stmt>, p: Pos) {
    BindingAt(content, p).Some? &&
    var occs := OccsOf(Collected(content), BindingAt(content, p).value);
    occs != [] && occs[0] == p
  }

  /** Where a recorded binding sits in the map: entry `gi`, k-th binding. */
  lemma Locate(content: seq<Stmt>, p: Pos) returns (gi: nat, k: nat)
    requires BindingAt(content, p).Some?
    ensures var G := Collected(content);
      && Separate(G) && gi < |G| && k < |G[gi].occs| && G[gi].occs[k] == p
      && G[gi].name == BindingAt(content, p).value
      && G[gi].occs == OccsOf(G, G[gi].name)
      && (k == 0 <==> FirstBinding(content, p))
  {
    var G := Collected(content);
    var n := BindingAt(content, p).value;
    CollectedSeparate(content);
    CollectedOccs(content, n, p);
    gi := OccsOfEntry(G, n);
    k :| 0 <= k < |G[gi].occs| && G[gi].occs[k] == p;
    assert Distinct(G[gi].occs);
  }

  /** The first binding of each name keeps the name; every later binding of
      it is given another. */
  lemma FirstKeepsName(content: seq<Stmt>, p: Pos)
    requires BindingAt(content, p).Some?
    ensures BindingAt(DuplicatesOf(content), p) == BindingAt(content, p) <==> FirstBinding(content, p)
  {
    var gi, k := Locate(content, p);
    NewNameAt(Collected(content), gi, k);
    DuplicatesBindingAt(content, p);
  }

  /** Two different later bindings, of one name or of two, never end up
      with the same name. */
  lemma LaterNamesDistinct(content: seq<Stmt>, p1: Pos, p2: Pos)
    requires BindingAt(content, p1).Some? && BindingAt(content, p2).Some? && p1 != p2
    requires !FirstBinding(content, p1) && !FirstBinding(content, p2)
    ensures BindingAt(DuplicatesOf(content), p1) != BindingAt(DuplicatesOf(content), p2)
  {
    var G := Collected(content);
    var g1, k1 := Locate(content, p1);
    var g2, k2 := Locate(content, p2);
    PosMapAt(G, g1, k1);
    PosMapAt(G, g2, k2);
    RenamedDistinct(G, p1, p2);
    NewNameAt(G, g1, k1);
    NewNameAt(G, g2, k2);
    DuplicatesBindingAt(content, p1);
    DuplicatesBindingAt(content, p2);
  }

  /** Uses of entry `gi`'s name are pointed at the name numbered (names
      drawn for earlier entries) + 1, when it is bound more than once. */
  lemma UseRenameAt(gs: seq<Group>, gi: nat)
    requires Grouped(gs) && gi < |gs|
    ensures UseRename(gs, KeyMap(Renames(gs)), gs[gi].name).Some? <==> |gs[gi].occs| > 1
    ensures |gs[gi].occs| > 1 ==>
      UseRename(gs, KeyMap(Renames(gs)), gs[gi].name) == Some(CounterName(DupPrefix, gs[gi].name + "_", Total(gs[..gi]) + 1))
  {
    var km := KeyMap(Renames(gs));
    var n := gs[gi].name;
    OccsOfMember(gs, gi);
    if |gs[gi].occs| > 1 {
      KeyMapAt(gs, gi, 1);
      CounterNameLonger(n, Total(gs[..gi]) + 1);
      FirstAtOne(km, n, |gs[gi].occs|);
    }
  }

  lemma FirstAtOne(km: map<(string, nat), string>, n: string, len: nat)
    requires len > 1 && (n, 1) in km && km[(n, 1)] != ""
    ensures FirstGenerated(km, n, 1, len) == Some(km[(n, 1)])
  {
  }

  /** An identifier use of a name bound more than once is pointed at the
      name its second binding gets; uses of other names are left alone. */
  lemma UsesFollowSecond(content: seq<Stmt>, n: string)
    ensures var G := Collected(content);
      UseRename(G, KeyMap(Renames(G)), n).Some? <==> |OccsOf(G, n)| > 1
    ensures var G := Collected(content);
      |OccsOf(G, n)| > 1 ==> UseRename(G, KeyMap(Renames(G)), n) == BindingAt(DuplicatesOf(content), OccsOf(G, n)[1])
  {
    var G := Collected(content);
    var occs := OccsOf(G, n);
    if occs != [] {
      CollectedSeparate(content);
      var gi := OccsOfEntry(G, n);
      UseRenameAt(G, gi);
      if |occs| > 1 {
        CollectedOccs(content, n, occs[1]);
        NewNameAt(G, gi, 1);
        DuplicatesBindingAt(content, occs[1]);
      }
    }
  }

  /** The first two elements of a sequence without repeats are two of its
      elements that differ. */
  lemma FirstTwo<T>(s: seq<T>)
    requires |s| >= 2 && Distinct(s)
    ensures s[0] in s && s[1] in s && s[0] != s[1]
  {
  }

  lemma {:induction false} TotalZero(gs: seq<Group>)
    requires forall i :: 0 <= i < |gs| ==> |gs[i].occs| <= 1
    ensures Total(gs) == 0
    decreases |gs|
  {
    if gs != [] {
      var init := gs[..|gs| - 1];
      assert forall i :: 0 <= i < |init| ==> init[i] == gs[i];
      TotalZero(init);
    }
  }

  /** A file whose top-level imports bind every local name once comes out
      as it went in. */
  lemma NoDuplicatesUnchanged(content: seq<Stmt>)
    requires forall p1, p2 :: BindingAt(content, p1).Some? && BindingAt(content, p1) == BindingAt(content, p2) ==> p1 == p2
    ensures DuplicatesOf(content) == content
  {
    var G := Collected(content);
    SingleBindings(content);
    NoRenamesDrawn(G);
    TransformIdle(content, G);
  }

  /** Each collected name has at most one binding. */
  lemma SingleBindings(content: seq<Stmt>)
    requires forall p1, p2 :: BindingAt(content, p1).Some? && BindingAt(content, p1) == BindingAt(content, p2) ==> p1 == p2
    ensures forall i :: 0 <= i < |Collected(content)| ==> |Collected(content)[i].occs| <= 1
  {
    var G := Collected(content);
    CollectedSeparate(content);
    forall i | 0 <= i < |G| ensures |G[i].occs| <= 1 {
      var occs := G[i].occs;
      forall q | q in occs ensures BindingAt(content, q) == Some(G[i].name) {
        OccsOfMember(G, i);
        CollectedOccs(content, G[i].name, q);
      }
      if |occs| >= 2 {
        FirstTwo(occs);
        assert false;
      }
    }
  }

  /** With no name bound twice, nothing is drawn and no use is renamed. */
  lemma NoRenamesDrawn(G: seq<Group>)
    requires forall i :: 0 <= i < |G| ==> |G[i].occs| <= 1
    ensures Renames(G) == []
    ensures forall n :: UseRename(G, map[], n).None?
  {
    TotalZero(G);
    RenamesLength(G);
    forall n ensures UseRename(G, map[], n).None? {
      if OccsOf(G, n) != [] {
        var gi := OccsOfEntry(G, n);
      }
    }
  }

  /** A visitor that renames no use leaves every top-level statement as it was. */
  lemma TransformIdle(content: seq<Stmt>, G: seq<Group>)
    requires forall n :: UseRename(G, map[], n).None?
    ensures Transform(content, G, map[], map[]) == content
  {
    var h := UseHooks(G, map[]);
    assert Idle(h);
    forall i | 0 <= i < |content| ensures TopStmt(G, map[], map[], i, content[i]) == content[i] {
      ChildrenIdle(h, Stateless(), content[i], (), false);
    }
  }

  // --------------------------------------- which identifiers are declarations

  /** The parent of an identifier, as far as `isDeclarationName` and the
      property-access test tell parents apart. */
  datatype ParentKind =
    | ImportSpecifierKind | NamespaceImportKind | ImportClauseKind | VariableDeclarationKind
    | FunctionDeclarationKind | ClassDeclarationKind | InterfaceDeclarationKind | TypeAliasDeclarationKind
    | EnumDeclarationKind | ParameterKind | PropertyDeclarationKind | MethodDeclarationKind
    | BindingElementKind | PropertyAccessKind | OtherKind

  /** Where an identifier sits: the kind of its parent, and whether it is
      an expression child of that parent (an initializer, an operand)
      rather than one of its names. */
  datatype IdContext = IdContext(parent: ParentKind, isExpr: bool)

  /** The parent kinds `isDeclarationName` lists. */
  predicate DeclarationKind(k: ParentKind) {
    k in {ImportSpecifierKind, NamespaceImportKind, ImportClauseKind, VariableDeclarationKind,
          FunctionDeclarationKind, ClassDeclarationKind, InterfaceDeclarationKind, TypeAliasDeclarationKind,
          EnumDeclarationKind, ParameterKind, PropertyDeclarationKind, MethodDeclarationKind, BindingElementKind}
  }

  /** The identifier branch of the visitor as written: an identifier is
      skipped when its parent has a declaration kind, whatever child of it
      the identifier is. */
  function IdentifierAsWritten(bindings: seq<Group>, renameMap: map<(string, nat), string>, ctx: IdContext, n: string): Option<string> {
    if DeclarationKind(ctx.parent) then None
    else if ctx.parent == PropertyAccessKind && !ctx.isExpr then None
    else UseRename(bindings, renameMap, n)
  }

  /** The branch as its comment describes it: only the declared names
      themselves are skipped; an initializer of a declaration is a use. */
  function IdentifierIntended(bindings: seq<Group>, renameMap: map<(string, nat), string>, ctx: IdContext, n: string): Option<string> {
    if DeclarationKind(ctx.parent) && !ctx.isExpr then None
    else if ctx.parent == PropertyAccessKind && !ctx.isExpr then None
    else UseRename(bindings, renameMap, n)
  }

  /** The parent kind of each non-expression identifier position. */
  function ParentOf(p: IdPos): ParentKind {
    match p
    case ImportProp => ImportSpecifierKind
    case ImportName => ImportSpecifierKind
    case NamespaceAlias => NamespaceImportKind
    case ImportDefault => ImportClauseKind
    case VarName => VariableDeclarationKind
    case FuncName => FunctionDeclarationKind
    case ClassName => ClassDeclarationKind
    case InterfaceName => InterfaceDeclarationKind
    case TypeAliasName => TypeAliasDeclarationKind
    case EnumName => EnumDeclarationKind
    case ParamName => ParameterKind
    case FieldName => PropertyDeclarationKind
    case MethodName => MethodDeclarationKind
    case BindProp => BindingElementKind
    case BindName => BindingElementKind
    case PropAccessName => PropertyAccessKind
    case _ => OtherKind
  }

  /** The two readings differ exactly on identifiers that are expression
      children of a declaration (`const v = a`, a field initializer) and
      whose name is bound more than once. */
  lemma AsWrittenDiffers(bindings: seq<Group>, renameMap: map<(string, nat), string>, ctx: IdContext, n: string)
    ensures IdentifierAsWritten(bindings, renameMap, ctx, n) != IdentifierIntended(bindings, renameMap, ctx, n)
        <==> DeclarationKind(ctx.parent) && ctx.isExpr && UseRename(bindings, renameMap, n).Some?
    ensures IdentifierAsWritten(bindings, renameMap, ctx, n).Some? ==>
        IdentifierAsWritten(bindings, renameMap, ctx, n) == IdentifierIntended(bindings, renameMap, ctx, n)
  {
  }

  /** The input that shows it: `import a from "./x"; import a from "./y";
      const v = a;` leaves the initializer `a` pointing at the first import
      while every other use of `a` moves to `__dup__a__1`. */
  lemma InitializerKeptAsWritten()
    ensures var G := [Group("a", [Pos(0, DefaultSlot), Pos(1, DefaultSlot)])];
      && IdentifierAsWritten(G, KeyMap(Renames(G)), IdContext(VariableDeclarationKind, true), "a") == None
      && IdentifierIntended(G, KeyMap(Renames(G)), IdContext(VariableDeclarationKind, true), "a") == Some("__dup__a__1")
      && IdentifierAsWritten(G, KeyMap(Renames(G)), IdContext(OtherKind, true), "a") == Some("__dup__a__1")
  {
    var G := [Group("a", [Pos(0, DefaultSlot), Pos(1, DefaultSlot)])];
    UseRenameAt(G, 0);
    assert G[..0] == [];
    assert Total(G[..0]) == 0;
    assert NatToString(1) == "1";
    assert CounterName(DupPrefix, "a" + "_", 1) == "__dup__a__1";
  }

  /** The visitor of this model follows the intended reading on every
      non-expression identifier... */
  lemma IdUseIntended(bindings: seq<Group>, renameMap: map<(string, nat), string>, p: IdPos, n: string)
    ensures IdUse(bindings, renameMap, p, n)
         == match IdentifierIntended(bindings, renameMap, IdContext(ParentOf(p), false), n) case Some(x) => x case None => n
  {
  }

  /** ... and on every identifier expression, whatever its parent. */
  lemma ExprUseIntended(bindings: seq<Group>, renameMap: map<(string, nat), string>, k: ParentKind, n: string)
    ensures ExprUse(bindings, renameMap, Id(n))
         == match IdentifierIntended(bindings, renameMap, IdContext(k, true), n) case Some(x) => Some(Id(x)) case None => None
  {
  }
}
