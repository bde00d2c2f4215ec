// JavaScript values as `JSON.parse` produces them, with objects kept as
// their properties in insertion order (the order `JSON.stringify` writes
// them in), and the object operations the package.json writers use:
// property lookup, assignment, spreading (`{...a, ...b}`) and
// rest-destructuring (`let {x, ...rest} = o`).
module JsObject {
  import opened Text

  datatype Value =
    | Undefined
    | Null
    | Bool(b: bool)
    | Num(n: int)
    | Str(s: string)
    | Arr(items: seq<Value>)
    | Obj(fields: seq<Field>)

  datatype Field = Field(key: string, value: Value)

  /** JavaScript truthiness (numbers are integers here, so NaN is left out). */
  predicate Truthy(v: Value) {
    match v
    case Undefined => false
    case Null => false
    case Bool(b) => b
    case Num(n) => n != 0
    case Str(s) => s != ""
    case Arr(_) => true
    case Obj(_) => true
  }

  function Keys(fs: seq<Field>): (r: seq<string>)
    ensures |r| == |fs| && forall i :: 0 <= i < |fs| ==> r[i] == fs[i].key
  {
    seq(|fs|, i requires 0 <= i < |fs| => fs[i].key)
  }

  /** An object never holds a key twice. */
  predicate DistinctKeys(fs: seq<Field>) {
    forall i, j :: 0 <= i < j < |fs| ==> fs[i].key != fs[j].key
  }

  /** `o[k]`: the value stored under `k`, or `undefined`. */
  function Get(fs: seq<Field>, k: string): (r: Value)
    ensures k !in Keys(fs) ==> r == Undefined
  {
    if fs == [] then Undefined
    else if fs[0].key == k then fs[0].value
    else
      assert Keys(fs) == [fs[0].key] + Keys(fs[1..]);
      Get(fs[1..], k)
  }

  /** `o[k] = v`: an existing key keeps its place, a new one goes last. */
  function Put(fs: seq<Field>, k: string, v: Value): seq<Field>
  {
    if fs == [] then [Field(k, v)]
    else if fs[0].key == k then [Field(k, v)] + fs[1..]
    else [fs[0]] + Put(fs[1..], k, v)
  }

  /** `{...a, ...b}` taken as `a` with each property of `b` assigned in turn. */
  function Spread(a: seq<Field>, b: seq<Field>): seq<Field>
    decreases |b|
  {
    if b == [] then a else Spread(Put(a, b[0].key, b[0].value), b[1..])
  }

  /** The `...rest` of a destructuring that names `names`. */
  function Without(fs: seq<Field>, names: set<string>): (r: seq<Field>)
    ensures forall f :: f in r <==> f in fs && f.key !in names
  {
    if fs == [] then []
    else if fs[0].key in names then Without(fs[1..], names)
    else [fs[0]] + Without(fs[1..], names)
  }

  // ------------------------------------------------------------ properties

  /** After `o[k] = v`, reading `k` gives `v` and every other key is unchanged. */
  lemma {:induction false} PutGet(fs: seq<Field>, k: string, v: Value, k': string)
    ensures Get(Put(fs, k, v), k') == if k' == k then v else Get(fs, k')
    decreases |fs|
  {
    if fs != [] && fs[0].key != k {
      PutGet(fs[1..], k, v, k');
      assert Put(fs, k, v)[1..] == Put(fs[1..], k, v);
    }
  }

  /** Assignment keeps the key order, adding a new key at the end. */
  lemma {:induction false} PutKeys(fs: seq<Field>, k: string, v: Value)
    ensures Keys(Put(fs, k, v)) == if k in Keys(fs) then Keys(fs) else Keys(fs) + [k]
    decreases |fs|
  {
    if fs != [] {
      KeysCons(fs[0], fs[1..]);
      assert fs == [fs[0]] + fs[1..];
      if fs[0].key != k {
        PutKeys(fs[1..], k, v);
        KeysCons(fs[0], Put(fs[1..], k, v));
      } else {
        KeysCons(Field(k, v), fs[1..]);
      }
    }
  }

  lemma KeysCons(f: Field, t: seq<Field>)
    ensures Keys([f] + t) == [f.key] + Keys(t)
  {
  }

  lemma PutDistinct(fs: seq<Field>, k: string, v: Value)
    requires DistinctKeys(fs)
    ensures DistinctKeys(Put(fs, k, v))
  {
    PutKeys(fs, k, v);
    var r := Put(fs, k, v);
    forall i, j | 0 <= i < j < |r| ensures r[i].key != r[j].key {
      assert Keys(r)[i] == r[i].key && Keys(r)[j] == r[j].key;
      if k !in Keys(fs) && j == |fs| {
        assert Keys(r)[i] == Keys(fs)[i];
      } else {
        assert Keys(r)[i] == Keys(fs)[i] && Keys(r)[j] == Keys(fs)[j];
      }
    }
  }

  /** In `{...a, ...b}` a key of `b` takes `b`'s value; any other key keeps `a`'s. */
  lemma {:induction false} SpreadGet(a: seq<Field>, b: seq<Field>, k: string)
    requires DistinctKeys(b)
    ensures Get(Spread(a, b), k) == if k in Keys(b) then Get(b, k) else Get(a, k)
    decreases |b|
  {
    if b != [] {
      assert Keys(b) == [b[0].key] + Keys(b[1..]);
      assert DistinctKeys(b[1..]) by {
        forall i, j | 0 <= i < j < |b[1..]| ensures b[1..][i].key != b[1..][j].key {
          assert b[1..][i] == b[i + 1] && b[1..][j] == b[j + 1];
        }
      }
      SpreadGet(Put(a, b[0].key, b[0].value), b[1..], k);
      PutGet(a, b[0].key, b[0].value, k);
      if k in Keys(b[1..]) {
        var j :| 0 <= j < |b[1..]| && Keys(b[1..])[j] == k;
        assert b[j + 1].key == k && b[0].key != k;
      }
    }
  }

  /** `{...a, ...b}` keeps `a`'s keys in their order and adds `b`'s new keys;
      when no key is shared it is `a` followed by `b`. */
  lemma {:induction false} SpreadKeys(a: seq<Field>, b: seq<Field>)
    ensures |Spread(a, b)| >= |a| && Keys(Spread(a, b))[..|a|] == Keys(a)
    ensures forall k :: k in Keys(Spread(a, b)) <==> k in Keys(a) || k in Keys(b)
    ensures DistinctKeys(a) ==> DistinctKeys(Spread(a, b))
    decreases |b|
  {
    if b != [] {
      var a' := Put(a, b[0].key, b[0].value);
      PutKeys(a, b[0].key, b[0].value);
      if DistinctKeys(a) {
        PutDistinct(a, b[0].key, b[0].value);
      }
      SpreadKeys(a', b[1..]);
      assert Keys(b) == [b[0].key] + Keys(b[1..]);
      assert Keys(Spread(a, b))[..|a'|][..|a|] == Keys(Spread(a, b))[..|a|];
      assert Keys(a')[..|a|] == Keys(a);
    }
  }

  lemma {:induction false} SpreadDisjoint(a: seq<Field>, b: seq<Field>)
    requires DistinctKeys(b)
    requires forall k :: k in Keys(b) ==> k !in Keys(a)
    ensures Spread(a, b) == a + b
    decreases |b|
  {
    if b != [] {
      assert b[0].key in Keys(b) by {
        assert Keys(b) == [b[0].key] + Keys(b[1..]);
      }
      PutAppends(a, b[0].key, b[0].value);
      DistinctTail(b);
      DisjointStep(a, b);
      SpreadDisjoint(a + [b[0]], b[1..]);
      assert a + [b[0]] + b[1..] == a + b;
    }
  }

  lemma DistinctTail(b: seq<Field>)
    requires b != [] && DistinctKeys(b)
    ensures DistinctKeys(b[1..])
  {
    forall i, j | 0 <= i < j < |b[1..]| ensures b[1..][i].key != b[1..][j].key {
      assert b[1..][i] == b[i + 1] && b[1..][j] == b[j + 1];
    }
  }

  lemma DisjointStep(a: seq<Field>, b: seq<Field>)
    requires b != [] && DistinctKeys(b)
    requires forall k :: k in Keys(b) ==> k !in Keys(a)
    ensures forall k :: k in Keys(b[1..]) ==> k !in Keys(a + [b[0]])
  {
    assert Keys(b) == [b[0].key] + Keys(b[1..]);
    forall k | k in Keys(b[1..]) ensures k !in Keys(a + [b[0]]) {
      var j :| 0 <= j < |b[1..]| && Keys(b[1..])[j] == k;
      assert b[j + 1].key == k;
      assert Keys(a + [b[0]]) == Keys(a) + [b[0].key];
    }
  }

  lemma {:induction false} PutAppends(fs: seq<Field>, k: string, v: Value)
    requires k !in Keys(fs)
    ensures Put(fs, k, v) == fs + [Field(k, v)]
    decreases |fs|
  {
    if fs != [] {
      assert Keys(fs) == [fs[0].key] + Keys(fs[1..]);
      PutAppends(fs[1..], k, v);
      assert [fs[0]] + (fs[1..] + [Field(k, v)]) == fs + [Field(k, v)];
    }
  }

  lemma KeysConcat(a: seq<Field>, b: seq<Field>)
    ensures Keys(a + b) == Keys(a) + Keys(b)
  {
  }

  /** Reading a concatenation: the first part wins. */
  lemma {:induction false} GetConcat(a: seq<Field>, b: seq<Field>, k: string)
    ensures Get(a + b, k) == if k in Keys(a) then Get(a, k) else Get(b, k)
    decreases |a|
  {
    if a != [] {
      assert Keys(a) == [a[0].key] + Keys(a[1..]);
      assert (a + b)[1..] == a[1..] + b;
      GetConcat(a[1..], b, k);
    } else {
      assert a + b == b;
    }
  }

  /** Reading a rest object: the named keys are gone, the others unchanged. */
  lemma {:induction false} WithoutGet(fs: seq<Field>, names: set<string>, k: string)
    ensures Get(Without(fs, names), k) == if k in names then Undefined else Get(fs, k)
    decreases |fs|
  {
    if fs != [] {
      WithoutGet(fs[1..], names, k);
      if k in names {
        assert k !in Keys(Without(fs, names));
      }
    } else {
      assert Without(fs, names) == [];
    }
  }
}
