// Name generators: the per-key counters of src/lib/bundle/uniqueName.ts
// (and its twin anonymousName.ts, which differs only in its fallback prefix),
// the prefix objects of `uniqueName` in visitorHelpers.ts, and the per-base
// counter of `makeUniqueNameGenerator` in duplicatesNew.ts.
module UniqueNames {
  import opened Text
  import opened Wrappers

  /** `${prefix}${input}_${k}`. */
  function CounterName(prefix: string, input: string, k: nat): string {
    prefix + input + "_" + NatToString(k)
  }

  /** The text after the last '_' of a string (all of it when there is none). */
  function AfterLastUnderscore(s: string): (r: string)
    ensures |r| <= |s| && r == s[|s| - |r|..]
    ensures '_' !in r
    decreases |s|
  {
    if s == [] then []
    else if s[|s| - 1] == '_' then []
    else
      var r := AfterLastUnderscore(s[..|s| - 1]);
      assert s[..|s| - 1][|s| - 1 - |r|..] == s[|s| - 1 - |r|..|s| - 1];
      r + [s[|s| - 1]]
  }

  predicate NoUnderscore(d: string) {
    forall i :: 0 <= i < |d| ==> d[i] != '_'
  }

  lemma {:induction false} AfterLastUnderscoreOfSuffix(p: string, d: string)
    requires NoUnderscore(d)
    ensures AfterLastUnderscore(p + "_" + d) == d
    decreases |d|
  {
    var s := p + "_" + d;
    if d == [] {
      assert s[|s| - 1] == '_';
    } else {
      var init := d[..|d| - 1];
      assert s[..|s| - 1] == p + "_" + init;
      assert s[|s| - 1] == d[|d| - 1];
      AfterLastUnderscoreOfSuffix(p, init);
      assert d == init + [d[|d| - 1]];
    }
  }

  lemma CounterSuffix(prefix: string, input: string, k: nat)
    ensures AfterLastUnderscore(CounterName(prefix, input, k)) == NatToString(k)
  {
    var d := NatToString(k);
    assert NoUnderscore(d);
    assert CounterName(prefix, input, k) == (prefix + input) + "_" + d;
    AfterLastUnderscoreOfSuffix(prefix + input, d);
  }

  /** Names with different counters differ, whatever their prefixes and inputs. */
  lemma CounterNamesDistinct(p1: string, i1: string, k1: nat, p2: string, i2: string, k2: nat)
    requires k1 != k2
    ensures CounterName(p1, i1, k1) != CounterName(p2, i2, k2)
  {
    CounterSuffix(p1, i1, k1);
    CounterSuffix(p2, i2, k2);
    if NatToString(k1) == NatToString(k2) {
      NatToStringInjective(k1, k2);
    }
  }

  // ------------------------------------------------------- uniqueName.ts

  /** The prefix a name under `key` is built with: the stored prefix when it is
      a non-empty string, the fallback otherwise. */
  function PrefixFor(stored: map<string, (string, nat)>, key: string, fallback: string): string {
    if key in stored && stored[key].0 != "" then stored[key].0 else fallback
  }

  function CountOf(stored: map<string, (string, nat)>, key: string): nat {
    if key in stored then stored[key].1 else 0
  }

  /** The state after `getName(key, _)`: the key's count goes up by one and an
      unknown key is registered with the fallback prefix. */
  function AfterGetName(stored: map<string, (string, nat)>, key: string, fallback: string): map<string, (string, nat)> {
    stored[key := (if key in stored then stored[key].0 else fallback, CountOf(stored, key) + 1)]
  }

  /** A call changes neither the prefix names are built with nor anything but
      its key's count, which goes up by one. */
  lemma AfterGetNameAdvances(stored: map<string, (string, nat)>, key: string, fallback: string)
    ensures PrefixFor(AfterGetName(stored, key, fallback), key, fallback) == PrefixFor(stored, key, fallback)
    ensures CountOf(AfterGetName(stored, key, fallback), key) == CountOf(stored, key) + 1
    ensures forall k :: k != key ==> CountOf(AfterGetName(stored, key, fallback), k) == CountOf(stored, k)
  {
  }

  /** The names successive calls under one key return, starting from `count`
      earlier calls: `getName(key, inputs[0]), getName(key, inputs[1]), …`. */
  function NamesFrom(prefix: string, count: nat, inputs: seq<string>): (r: seq<string>)
    ensures |r| == |inputs|
    ensures forall i :: 0 <= i < |r| ==> r[i] == CounterName(prefix, inputs[i], count + i + 1)
    decreases |inputs|
  {
    if inputs == [] then []
    else [CounterName(prefix, inputs[0], count + 1)] + NamesFrom(prefix, count + 1, inputs[1..])
  }

  /** Successive `getName` calls under one key never return the same name. */
  lemma NamesFromDistinct(prefix: string, count: nat, inputs: seq<string>)
    ensures Distinct(NamesFrom(prefix, count, inputs))
  {
    var r := NamesFrom(prefix, count, inputs);
    forall i, j | 0 <= i < j < |r| ensures r[i] != r[j] {
      CounterNamesDistinct(prefix, inputs[i], count + i + 1, prefix, inputs[j], count + j + 1);
    }
  }

  /** The object `uniqueName()` returns. `fallback` is "$nyein" in uniqueName.ts
      and "$ss" in anonymousName.ts. */
  class KeyedNames {
    const fallback: string
    var stored: map<string, (string, nat)>

    constructor(fallback: string)
      ensures this.fallback == fallback && stored == map[]
    {
      this.fallback := fallback;
      stored := map[];
    }

    /** `setPrefix({key, value})`: an error for a registered key, otherwise the
        key starts with count 0. */
    method SetPrefix(key: string, value: string) returns (r: Result<(), string>)
      modifies this
      ensures key in old(stored) ==> r == Failure(key + " already exist") && stored == old(stored)
      ensures key !in old(stored) ==> r.Success? && stored == old(stored)[key := (value, 0)]
    {
      if key in stored {
        r := Failure(key + " already exist");
      } else {
        stored := stored[key := (value, 0)];
        r := Success(());
      }
    }

    /** `getName(key, input)`. */
    method GetName(key: string, input: string) returns (name: string)
      modifies this
      ensures name == CounterName(PrefixFor(old(stored), key, fallback), input, CountOf(old(stored), key) + 1)
      ensures stored == AfterGetName(old(stored), key, fallback)
    {
      var prefix: string;
      var count: nat;
      if key in stored {
        prefix, count := stored[key].0, stored[key].1;
      } else {
        prefix, count := fallback, 0;
      }
      name := CounterName(if prefix != "" then prefix else fallback, input, count + 1);
      stored := stored[key := (prefix, count + 1)];
    }

    /** `getPrefix(key)`: the stored prefix, undefined for an unknown key. */
    function GetPrefix(key: string): (r: Option<string>)
      reads this
      ensures r.Some? <==> key in stored
      ensures r.Some? ==> r.value == stored[key].0
    {
      if key in stored then Some(stored[key].0) else None
    }
  }

  // ----------------------------------------- uniqueName in visitorHelpers.ts

  /** The `{ getName }` object `setPrefix` returns: one list of issued names
      shared by every input. */
  class PrefixedNames {
    const fix: string
    var names: seq<string>

    /** Every issued name ends in `_<its position + 1>`. */
    ghost predicate Valid()
      reads this
    {
      Numbered(names)
    }

    constructor(fix: string)
      ensures this.fix == fix && names == [] && Valid()
    {
      this.fix := fix;
      names := [];
    }

    /** `getName(input)`: an empty prefix falls back to "$nyein". */
    method GetName(input: string) returns (name: string)
      requires Valid()
      modifies this
      ensures Valid()
      ensures name == CounterName(if fix != "" then fix else "$nyein", input, |old(names)| + 1)
      ensures names == old(names) + [name]
    {
      name := CounterName(if fix != "" then fix else "$nyein", input, |names| + 1);
      CounterSuffix(if fix != "" then fix else "$nyein", input, |names| + 1);
      assert (names + [name])[..|names|] == names;
      names := names + [name];
    }
  }

  /** The i-th name of the list ends in `_<i + 1>`, for every i. */
  ghost predicate Numbered(names: seq<string>)
    decreases |names|
  {
    names == [] || (Numbered(names[..|names| - 1]) && AfterLastUnderscore(names[|names| - 1]) == NatToString(|names|))
  }

  lemma {:induction false} NumberedAt(names: seq<string>, i: nat)
    requires Numbered(names) && i < |names|
    ensures AfterLastUnderscore(names[i]) == NatToString(i + 1)
    decreases |names|
  {
    if i < |names| - 1 {
      NumberedAt(names[..|names| - 1], i);
    }
  }

  lemma ValidNamesDistinct(names: seq<string>)
    requires Numbered(names)
    ensures Distinct(names)
  {
    forall i, j | 0 <= i < j < |names| ensures names[i] != names[j] {
      NumberedAt(names, i);
      NumberedAt(names, j);
      if names[i] == names[j] { NatToStringInjective(i + 1, j + 1); }
    }
  }

  /** The registry `uniqueName()` returns in visitorHelpers.ts. */
  class PrefixRegistry {
    var storedPrefix: map<string, string>

    constructor()
      ensures storedPrefix == map[]
    {
      storedPrefix := map[];
    }

    /** `setPrefix({key, value})`: an error for a registered key; otherwise a
        fresh name source with prefix `value`. */
    method SetPrefix(key: string, value: string) returns (r: Result<PrefixedNames, string>)
      modifies this
      ensures key in old(storedPrefix) ==> r == Failure(key + " already exist") && storedPrefix == old(storedPrefix)
      ensures key !in old(storedPrefix) ==> r.Success? && storedPrefix == old(storedPrefix)[key := value]
      ensures r.Success? ==> fresh(r.value) && r.value.fix == value && r.value.names == [] && r.value.Valid()
    {
      if key in storedPrefix {
        r := Failure(key + " already exist");
      } else {
        storedPrefix := storedPrefix[key := value];
        var source := new PrefixedNames(value);
        r := Success(source);
      }
    }

    function GetPrefix(key: string): (r: Option<string>)
      reads this
      ensures r.Some? <==> key in storedPrefix
      ensures r.Some? ==> r.value == storedPrefix[key]
    {
      if key in storedPrefix then Some(storedPrefix[key]) else None
    }
  }

  // -------------------------------------- makeUniqueNameGenerator (duplicatesNew.ts)

  /** One counter per base, starting at 1: the generator's next name for `base`
      and its new counters. */
  function NextPerBase(counters: map<string, nat>, prefix: string, base: string): (r: (string, map<string, nat>))
    ensures r.1 == counters[base := (if base in counters then counters[base] else 0) + 1]
    ensures AfterLastUnderscore(r.0) == NatToString(r.1[base])
  {
    var count := (if base in counters then counters[base] else 0) + 1;
    CounterSuffix(prefix, base, count);
    (CounterName(prefix, base, count), counters[base := count])
  }

  /** The generator never returns the same name twice for one base: the
      second call's counter is one more than the first's. */
  lemma NextPerBaseFresh(counters: map<string, nat>, prefix: string, base: string)
    ensures NextPerBase(NextPerBase(counters, prefix, base).1, prefix, base).0 != NextPerBase(counters, prefix, base).0
  {
    var (n1, c1) := NextPerBase(counters, prefix, base);
    var (n2, c2) := NextPerBase(c1, prefix, base);
    if n1 == n2 { NatToStringInjective(c1[base], c2[base]); }
  }
}
