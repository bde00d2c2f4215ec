// `splitCamelCase` of src/lib/helpers.ts (repeated in src/lib/compile/index.ts):
// four `replace` calls in a row that turn a package or file name into words.
//   1. a space between every lowercase letter and the uppercase letter after it;
//   2. every '_', '-' or '/' becomes a space; the group after it reads
//      `[a-z] ` (a lowercase letter and a space), or nothing, and the first
//      alternative is preferred, so a lowercase letter followed by a space
//      goes with the separator;
//   3. every uppercase letter is lowercased;
//   4. a lowercase first letter is capitalised.
module Helpers {
  import opened Text

  predicate IsSeparator(c: char) {
    c == '_' || c == '-' || c == '/'
  }

  /** A lowercase letter directly followed by an uppercase one. */
  predicate HasBoundary(s: string) {
    exists i :: 0 <= i < |s| - 1 && IsLower(s[i]) && IsUpper(s[i + 1])
  }

  /** The string with its spaces taken out. */
  function Unspaced(s: string): (r: string)
    ensures |r| <= |s|
  {
    if s == [] then [] else (if s[0] == ' ' then [] else [s[0]]) + Unspaced(s[1..])
  }

  /** The characters that are neither letters, separators nor spaces, in order. */
  function Others(s: string): (r: string)
    ensures |r| <= |s|
  {
    if s == [] then []
    else (if IsLower(s[0]) || IsUpper(s[0]) || IsSeparator(s[0]) || s[0] == ' ' then [] else [s[0]]) + Others(s[1..])
  }

  // ------------------------------------------------------------- the steps

  /** `replace(/([a-z])([A-Z])/g, "$1 $2")`, scanning left to right. */
  function SpaceCamel(s: string): (r: string)
    ensures s != [] ==> r != [] && r[0] == s[0]
    decreases |s|
  {
    if s == [] then []
    else if |s| >= 2 && IsLower(s[0]) && IsUpper(s[1]) then [s[0], ' ', s[1]] + SpaceCamel(s[2..])
    else [s[0]] + SpaceCamel(s[1..])
  }

  /** `replace(/(_|-|\/)([a-z] || [A-Z])/g, " ")`: the third alternative is
      never tried, because the empty second one always matches first. */
  function Separate(s: string): (r: string)
    decreases |s|
  {
    if s == [] then []
    else if IsSeparator(s[0]) then
      if |s| >= 3 && IsLower(s[1]) && s[2] == ' ' then " " + Separate(s[3..]) else " " + Separate(s[1..])
    else [s[0]] + Separate(s[1..])
  }

  function ToLower(c: char): (r: char)
    ensures !IsUpper(r)
  {
    if IsUpper(c) then (c as int - 'A' as int + 'a' as int) as char else c
  }

  function ToUpper(c: char): (r: char)
    ensures !IsLower(r)
  {
    if IsLower(c) then (c as int - 'a' as int + 'A' as int) as char else c
  }

  /** `replace(/([A-Z])/g, (m) => m.toLowerCase())`. */
  function Lowered(s: string): (r: string)
    ensures |r| == |s|
    ensures forall i :: 0 <= i < |s| ==> r[i] == ToLower(s[i])
  {
    if s == [] then [] else [ToLower(s[0])] + Lowered(s[1..])
  }

  /** `replace(/^([a-z])/, (m) => m.toUpperCase())`. */
  function Capitalized(s: string): (r: string)
    ensures |r| == |s|
    ensures s != [] ==> r[0] == ToUpper(s[0]) && r[1..] == s[1..]
  {
    if s != [] && IsLower(s[0]) then [ToUpper(s[0])] + s[1..] else s
  }

  function SplitCamelCase(s: string): string {
    Capitalized(Lowered(Separate(SpaceCamel(s))))
  }

  // ------------------------------------------------------------ properties

  lemma {:induction false} UnspacedAppend(a: string, b: string)
    ensures Unspaced(a + b) == Unspaced(a) + Unspaced(b)
    decreases |a|
  {
    if a != [] {
      UnspacedAppend(a[1..], b);
      var h := if a[0] == ' ' then [] else [a[0]];
      assert (a + b)[0] == a[0];
      assert (a + b)[1..] == a[1..] + b;
      assert Unspaced(a + b) == h + Unspaced(a[1..] + b);
      assert h + (Unspaced(a[1..]) + Unspaced(b)) == (h + Unspaced(a[1..])) + Unspaced(b);
    } else {
      assert a + b == b;
    }
  }

  /** Step 1 only inserts spaces, and leaves no lowercase letter directly
      before an uppercase one. */
  lemma SpaceCamelSplits(s: string)
    ensures Unspaced(SpaceCamel(s)) == Unspaced(s)
    ensures !HasBoundary(SpaceCamel(s))
  {
    SpaceCamelUnspaced(s);
    SpaceCamelUnbounded(s);
  }

  lemma {:induction false} SpaceCamelUnspaced(s: string)
    ensures Unspaced(SpaceCamel(s)) == Unspaced(s)
    decreases |s|
  {
    if s == [] {
    } else if |s| >= 2 && IsLower(s[0]) && IsUpper(s[1]) {
      var rest := SpaceCamel(s[2..]);
      SpaceCamelUnspaced(s[2..]);
      UnspacedAppend([s[0], ' ', s[1]], rest);
      UnspacedAppend([s[0], s[1]], s[2..]);
      assert [s[0], s[1]] + s[2..] == s;
      assert Unspaced([s[0], ' ', s[1]]) == [s[0], s[1]] == Unspaced([s[0], s[1]]);
    } else {
      var rest := SpaceCamel(s[1..]);
      SpaceCamelUnspaced(s[1..]);
      UnspacedAppend([s[0]], rest);
      UnspacedAppend([s[0]], s[1..]);
      assert [s[0]] + s[1..] == s;
    }
  }

  lemma {:induction false} SpaceCamelUnbounded(s: string)
    ensures !HasBoundary(SpaceCamel(s))
    decreases |s|
  {
    if s == [] {
    } else if |s| >= 2 && IsLower(s[0]) && IsUpper(s[1]) {
      var rest := SpaceCamel(s[2..]);
      SpaceCamelUnbounded(s[2..]);
      var r := [s[0], ' ', s[1]] + rest;
      forall i | 0 <= i < |r| - 1 ensures !(IsLower(r[i]) && IsUpper(r[i + 1])) {
        if i >= 3 {
          assert r[i] == rest[i - 3] && r[i + 1] == rest[i - 2];
        } else if i == 2 {
          assert r[2] == s[1];
        }
      }
    } else {
      var rest := SpaceCamel(s[1..]);
      SpaceCamelUnbounded(s[1..]);
      var r := [s[0]] + rest;
      forall i | 0 <= i < |r| - 1 ensures !(IsLower(r[i]) && IsUpper(r[i + 1])) {
        if i >= 1 {
          assert r[i] == rest[i - 1] && r[i + 1] == rest[i];
        } else {
          assert r[1] == s[1];
        }
      }
    }
  }

  /** Without a lowercase-uppercase pair step 1 changes nothing; so it is idempotent. */
  lemma {:induction false} SpaceCamelKeeps(s: string)
    requires !HasBoundary(s)
    ensures SpaceCamel(s) == s
    decreases |s|
  {
    if s != [] {
      assert !(|s| >= 2 && IsLower(s[0]) && IsUpper(s[1]));
      assert !HasBoundary(s[1..]) by {
        forall i | 0 <= i < |s[1..]| - 1 ensures !(IsLower(s[1..][i]) && IsUpper(s[1..][i + 1])) {
          assert s[1..][i] == s[i + 1] && s[1..][i + 1] == s[i + 2];
        }
      }
      SpaceCamelKeeps(s[1..]);
    }
  }

  lemma SpaceCamelIdempotent(s: string)
    ensures SpaceCamel(SpaceCamel(s)) == SpaceCamel(s)
  {
    SpaceCamelSplits(s);
    SpaceCamelKeeps(SpaceCamel(s));
  }

  /** Step 2 leaves no separator, keeps every character that is neither a
      letter, a separator nor a space, in order, and changes nothing in a
      string without separators. */
  lemma SeparateClears(s: string)
    ensures forall i :: 0 <= i < |Separate(s)| ==> !IsSeparator(Separate(s)[i])
    ensures Others(Separate(s)) == Others(s)
    ensures (forall i :: 0 <= i < |s| ==> !IsSeparator(s[i])) ==> Separate(s) == s
  {
    SeparateNoSeparator(s);
    SeparateOthers(s);
    if forall i :: 0 <= i < |s| ==> !IsSeparator(s[i]) {
      SeparateKeeps(s);
    }
  }

  lemma {:induction false} SeparateNoSeparator(s: string)
    ensures forall i :: 0 <= i < |Separate(s)| ==> !IsSeparator(Separate(s)[i])
    decreases |s|
  {
    if s != [] {
      var h := if IsSeparator(s[0]) then " " else [s[0]];
      var t := if IsSeparator(s[0]) && |s| >= 3 && IsLower(s[1]) && s[2] == ' ' then s[3..] else s[1..];
      SeparateNoSeparator(t);
      assert Separate(s) == h + Separate(t);
      forall i | 0 <= i < |Separate(s)| ensures !IsSeparator(Separate(s)[i]) {
        if i > 0 {
          assert Separate(s)[i] == Separate(t)[i - 1];
        }
      }
    }
  }

  lemma {:induction false} SeparateOthers(s: string)
    ensures Others(Separate(s)) == Others(s)
    decreases |s|
  {
    if s != [] {
      if IsSeparator(s[0]) {
        var t := if |s| >= 3 && IsLower(s[1]) && s[2] == ' ' then s[3..] else s[1..];
        SeparateOthers(t);
        assert (" " + Separate(t))[1..] == Separate(t);
        assert Others(" " + Separate(t)) == Others(Separate(t));
        assert Others(s) == Others(s[1..]);
        if |s| >= 3 && IsLower(s[1]) && s[2] == ' ' {
          assert s[1..][1..] == s[2..] && s[2..][1..] == s[3..];
          assert Others(s[1..]) == Others(s[2..]);
          assert Others(s[2..]) == Others(s[3..]);
        }
      } else {
        SeparateOthers(s[1..]);
        assert ([s[0]] + Separate(s[1..]))[1..] == Separate(s[1..]);
      }
    }
  }

  lemma {:induction false} SeparateKeeps(s: string)
    requires forall i :: 0 <= i < |s| ==> !IsSeparator(s[i])
    ensures Separate(s) == s
    decreases |s|
  {
    if s != [] {
      assert forall i :: 0 <= i < |s[1..]| ==> !IsSeparator(s[1..][i]) by {
        forall i | 0 <= i < |s[1..]| ensures !IsSeparator(s[1..][i]) {
          assert s[1..][i] == s[i + 1];
        }
      }
      SeparateKeeps(s[1..]);
      assert [s[0]] + s[1..] == s;
    }
  }

  lemma {:induction false} SpaceCamelOthers(s: string)
    ensures Others(SpaceCamel(s)) == Others(s)
    decreases |s|
  {
    if s != [] {
      if |s| >= 2 && IsLower(s[0]) && IsUpper(s[1]) {
        var rest := SpaceCamel(s[2..]);
        SpaceCamelOthers(s[2..]);
        OthersAppend([s[0], ' ', s[1]], rest);
        OthersAppend([s[0], s[1]], s[2..]);
        assert [s[0], s[1]] + s[2..] == s;
        assert Others([s[0], ' ', s[1]]) == [] == Others([s[0], s[1]]);
      } else {
        SpaceCamelOthers(s[1..]);
        OthersAppend([s[0]], SpaceCamel(s[1..]));
        OthersAppend([s[0]], s[1..]);
        assert [s[0]] + s[1..] == s;
      }
    }
  }

  lemma {:induction false} LoweredOthers(s: string)
    ensures Others(Lowered(s)) == Others(s)
    decreases |s|
  {
    if s != [] {
      LoweredOthers(s[1..]);
      assert Lowered(s)[1..] == Lowered(s[1..]);
    }
  }

  /** The whole chain: no uppercase letter after the first character, no
      separator, and every character that is neither a letter, a separator
      nor a space kept in order. */
  lemma SplitCamelCaseShape(s: string)
    ensures var r := SplitCamelCase(s);
            && (forall i :: 1 <= i < |r| ==> !IsUpper(r[i]))
            && (forall i :: 0 <= i < |r| ==> !IsSeparator(r[i]))
            && Others(r) == Others(s)
  {
    var a := SpaceCamel(s);
    var b := Separate(a);
    var c := Lowered(b);
    var r := Capitalized(c);
    SpaceCamelOthers(s);
    SeparateClears(a);
    LoweredOthers(b);
    forall i | 0 <= i < |r| ensures !IsSeparator(r[i]) {
      assert !IsSeparator(b[i]);
    }
    if c != [] {
      assert Others(r) == Others(c) by {
        assert r[1..] == c[1..];
        assert Others(r) == Others([r[0]]) + Others(r[1..]) by {
          assert [r[0]] + r[1..] == r;
          OthersAppend([r[0]], r[1..]);
        }
        assert Others(c) == Others([c[0]]) + Others(c[1..]) by {
          assert [c[0]] + c[1..] == c;
          OthersAppend([c[0]], c[1..]);
        }
      }
    }
  }

  lemma {:induction false} OthersAppend(a: string, b: string)
    ensures Others(a + b) == Others(a) + Others(b)
    decreases |a|
  {
    if a != [] {
      OthersAppend(a[1..], b);
      var h := if IsLower(a[0]) || IsUpper(a[0]) || IsSeparator(a[0]) || a[0] == ' ' then [] else [a[0]];
      assert (a + b)[0] == a[0];
      assert (a + b)[1..] == a[1..] + b;
      assert Others(a + b) == h + Others(a[1..] + b);
      assert h + (Others(a[1..]) + Others(b)) == (h + Others(a[1..])) + Others(b);
    } else {
      assert a + b == b;
    }
  }

  /** A camel-case word is split and lowercased, its first letter capitalised. */
  lemma CamelExample()
    ensures SplitCamelCase("fooBar") == "Foo bar"
  {
    CamelSpaced();
    CamelSeparated();
    CamelLowered();
    CamelCapitalized();
  }

  lemma CamelCapitalized()
    ensures Capitalized("foo bar") == "Foo bar"
  {
    assert ToUpper('f') == 'F';
    assert [ToUpper('f')] + "foo bar"[1..] == "Foo bar";
  }

  lemma CamelSpaced()
    ensures SpaceCamel("fooBar") == "foo Bar"
  {
    assert SpaceCamel("Bar") == "Bar";
    assert SpaceCamel("oBar") == "o Bar";
  }

  lemma CamelSeparated()
    ensures Separate("foo Bar") == "foo Bar"
  {
    assert Separate("Bar") == "Bar";
    assert Separate(" Bar") == " Bar";
  }

  lemma CamelLowered()
    ensures Lowered("foo Bar") == "foo bar"
  {
  }

  /** A kebab-case name: the separator becomes a space. */
  lemma KebabExample()
    ensures SplitCamelCase("my-app") == "My app"
  {
    KebabSpaced();
    KebabSeparated();
    KebabLowered();
    KebabCapitalized();
  }

  lemma KebabSpaced()
    ensures SpaceCamel("my-app") == "my-app"
  {
    assert SpaceCamel("app") == "app";
    assert SpaceCamel("-app") == "-app";
  }

  lemma KebabSeparated()
    ensures Separate("my-app") == "my app"
  {
    assert Separate("app") == "app";
    assert Separate("-app") == " app";
  }

  lemma KebabLowered()
    ensures Lowered("my app") == "my app"
  {
  }

  lemma KebabCapitalized()
    ensures Capitalized("my app") == "My app"
  {
    assert ToUpper('m') == 'M';
    assert [ToUpper('m')] + "my app"[1..] == "My app";
  }

  /** The letter-and-space alternative: once step 1 has split `bC`, the
      separator before it takes the `b` and the space with it. */
  lemma SeparatorTakesLetter()
    ensures SplitCamelCase("a-bC") == "A c"
  {
    assert SpaceCamel("a-bC") == "a-b C";
    assert Separate("C") == "C";
    assert Separate("a-b C") == "a C";
    assert Lowered("a C") == "a c";
  }
}
