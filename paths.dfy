// POSIX path handling as `node:path` does it, on paths split into segments,
// and the path keys the bundler uses to match an import specifier with the
// file it names (src/lib/bundle/visitors/visitorHelpers.ts).
module Paths {
  import opened Text

  /** A path as its root flag and its segments. */
  datatype Path = Path(absolute: bool, segs: seq<string>)

  predicate ValidSegs(segs: seq<string>) {
    forall i :: 0 <= i < |segs| ==> segs[i] != "" && '/' !in segs[i]
  }

  function NonEmpty(xs: seq<string>): (r: seq<string>)
    ensures forall i :: 0 <= i < |r| ==> r[i] != ""
    ensures forall x :: x in r <==> x in xs && x != ""
    ensures (forall i :: 0 <= i < |xs| ==> xs[i] != "") ==> r == xs
  {
    if xs == [] then []
    else if xs[0] == "" then NonEmpty(xs[1..])
    else [xs[0]] + NonEmpty(xs[1..])
  }

  /** Reading a path string: the root flag and the non-empty segments between slashes. */
  function ParseText(p: string): (r: Path)
    ensures ValidSegs(r.segs)
    ensures r.absolute <==> StartsWith(p, "/")
  {
    var parts := Split(p, '/');
    var r := NonEmpty(parts);
    assert forall i :: 0 <= i < |r| ==> r[i] in parts;
    Path(p != [] && p[0] == '/', NonEmpty(parts))
  }

  /** Writing a path back as text; the empty relative path is ".". */
  function Format(p: Path): string {
    if p.absolute then "/" + Join(p.segs, "/")
    else if p.segs == [] then "."
    else Join(p.segs, "/")
  }

  /** Reading back a written path gives the same path. */
  lemma ParseFormat(p: Path)
    requires ValidSegs(p.segs)
    requires p.absolute || p.segs != []
    ensures ParseText(Format(p)) == p
  {
    var s := Format(p);
    if p.absolute {
      if p.segs == [] {
        assert s == "/";
        assert Split(s, '/') == ["", ""] by {
          assert IndexOf(s, '/') == 0;
          assert s[1..] == [];
        }
      } else {
        var j := Join(p.segs, "/");
        assert s == [] + ['/'] + j;
        IndexOfPrefix([], '/', j);
        assert s[1..] == j;
        SplitJoin(p.segs, '/');
        assert Split(s, '/') == [""] + p.segs;
      }
    } else {
      SplitJoin(p.segs, '/');
      assert s[0] != '/' by {
        assert s[0] == p.segs[0][0] by {
          if |p.segs| > 1 {
            assert s == p.segs[0] + "/" + Join(p.segs[1..], "/");
          }
        }
        assert p.segs[0][0] in p.segs[0];
      }
    }
  }

  // -------------------------------------------------------------- normalize

  /** One step of `path.normalize`: "." and empty segments vanish, ".." removes
      the previous real segment, stays at the root of an absolute path and is
      kept at the head of a relative one. */
  function Step(absolute: bool, acc: seq<string>, seg: string): seq<string> {
    if seg == "" || seg == "." then acc
    else if seg == ".." then
      if acc != [] && acc[|acc| - 1] != ".." then acc[..|acc| - 1]
      else if absolute then acc
      else acc + [".."]
    else acc + [seg]
  }

  function Fold(absolute: bool, acc: seq<string>, segs: seq<string>): seq<string>
    decreases |segs|
  {
    if segs == [] then acc
    else Step(absolute, Fold(absolute, acc, segs[..|segs| - 1]), segs[|segs| - 1])
  }

  function NormalizeSegs(absolute: bool, segs: seq<string>): seq<string> {
    Fold(absolute, [], segs)
  }

  /** `path.normalize` on a parsed path. */
  function Normalize(p: Path): Path {
    Path(p.absolute, NormalizeSegs(p.absolute, p.segs))
  }

  /** The shape `path.normalize` produces: no "." segments, ".." only as a leading
      run of a relative path. */
  predicate Normal(absolute: bool, segs: seq<string>) {
    ValidSegs(segs)
    && (forall i :: 0 <= i < |segs| ==> segs[i] != ".")
    && (forall i, j :: 0 <= i < j < |segs| && segs[j] == ".." ==> segs[i] == "..")
    && (absolute ==> forall i :: 0 <= i < |segs| ==> segs[i] != "..")
  }

  lemma {:induction false} FoldAppend(absolute: bool, acc: seq<string>, xs: seq<string>, ys: seq<string>)
    ensures Fold(absolute, acc, xs + ys) == Fold(absolute, Fold(absolute, acc, xs), ys)
    decreases |ys|
  {
    if ys == [] {
      assert xs + ys == xs;
    } else {
      assert (xs + ys)[..|xs + ys| - 1] == xs + ys[..|ys| - 1];
      FoldAppend(absolute, acc, xs, ys[..|ys| - 1]);
    }
  }

  lemma {:induction false} StepKeepsNormal(absolute: bool, acc: seq<string>, seg: string)
    requires Normal(absolute, acc)
    requires '/' !in seg
    ensures Normal(absolute, Step(absolute, acc, seg))
  {
  }

  lemma {:induction false} FoldNormal(absolute: bool, segs: seq<string>)
    requires forall i :: 0 <= i < |segs| ==> '/' !in segs[i]
    ensures Normal(absolute, NormalizeSegs(absolute, segs))
    decreases |segs|
  {
    if segs != [] {
      FoldNormal(absolute, segs[..|segs| - 1]);
      StepKeepsNormal(absolute, NormalizeSegs(absolute, segs[..|segs| - 1]), segs[|segs| - 1]);
    }
  }

  lemma {:induction false} FoldOfNormal(absolute: bool, segs: seq<string>)
    requires Normal(absolute, segs)
    ensures NormalizeSegs(absolute, segs) == segs
    decreases |segs|
  {
    if segs != [] {
      var init := segs[..|segs| - 1];
      assert Normal(absolute, init);
      FoldOfNormal(absolute, init);
      assert segs == init + [segs[|segs| - 1]];
    }
  }

  /** `path.normalize` produces a normal path, and normalizing twice is normalizing once. */
  lemma NormalizeIdempotent(p: Path)
    requires forall i :: 0 <= i < |p.segs| ==> '/' !in p.segs[i]
    ensures Normal(p.absolute, Normalize(p).segs)
    ensures Normalize(Normalize(p)) == Normalize(p)
  {
    FoldNormal(p.absolute, p.segs);
    FoldOfNormal(p.absolute, Normalize(p).segs);
  }

  // ---------------------------------------------------- parse, dirname ...

  /** Index of the last '.' of a segment, or -1. */
  function LastDot(s: string): (k: int)
    ensures -1 <= k < |s|
    ensures k >= 0 ==> s[k] == '.' && '.' !in s[k + 1..]
    ensures k == -1 ==> '.' !in s
  {
    if s == [] then -1
    else if s[|s| - 1] == '.' then |s| - 1
    else
      var k := LastDot(s[..|s| - 1]);
      assert s[..|s| - 1][k + 1..] == s[k + 1..|s| - 1];
      assert s == s[..|s| - 1] + [s[|s| - 1]];
      k
  }

  /** `path.extname` of a base name: from the last dot, unless that dot opens
      the name or the name is "..". */
  function Ext(base: string): (e: string)
    ensures e == [] || (e[0] == '.' && |e| < |base| && base[|base| - |e|..] == e)
  {
    var k := LastDot(base);
    if k <= 0 || base == ".." then "" else base[k..]
  }

  /** `path.parse(p).name`: the base name without its extension. */
  function NameOf(base: string): string {
    base[..|base| - |Ext(base)|]
  }

  function BaseOf(p: Path): string {
    if p.segs == [] then "" else p.segs[|p.segs| - 1]
  }

  function DirOf(p: Path): Path {
    if p.segs == [] then p else Path(p.absolute, p.segs[..|p.segs| - 1])
  }

  /** `path.basename(p)`. */
  function Basename(p: string): string {
    BaseOf(ParseText(p))
  }

  /** `path.extname(p)`. */
  function Extname(p: string): string {
    Ext(Basename(p))
  }

  /** `path.dirname(p)`. */
  function Dirname(p: string): string {
    Format(DirOf(ParseText(p)))
  }

  /** `path.resolve(base, spec)`, relative to the working directory `cwd`
      (the segments of an absolute directory). */
  function Resolve(cwd: seq<string>, base: string, spec: string): Path {
    var b := ParseText(base);
    var sp := ParseText(spec);
    var full := if sp.absolute then sp.segs
                else if b.absolute then b.segs + sp.segs
                else cwd + b.segs + sp.segs;
    Path(true, NormalizeSegs(true, full))
  }

  function ResolveText(cwd: seq<string>, base: string, spec: string): string {
    Format(Resolve(cwd, base, spec))
  }

  // ----------------------------------------------------------------- relative

  function CommonPrefix(a: seq<string>, b: seq<string>): (c: nat)
    ensures c <= |a| && c <= |b| && a[..c] == b[..c]
    ensures c < |a| && c < |b| ==> a[c] != b[c]
  {
    if a == [] || b == [] || a[0] != b[0] then 0
    else
      var c := CommonPrefix(a[1..], b[1..]);
      assert a[..c + 1] == [a[0]] + a[1..][..c];
      assert b[..c + 1] == [b[0]] + b[1..][..c];
      c + 1
  }

  function Ups(n: nat): (r: seq<string>)
    ensures |r| == n && forall i :: 0 <= i < n ==> r[i] == ".."
  {
    if n == 0 then [] else Ups(n - 1) + [".."]
  }

  /** The segments of `path.relative(from, to)` for two resolved paths. */
  function RelativeSegs(from: seq<string>, to: seq<string>): seq<string> {
    var c := CommonPrefix(from, to);
    Ups(|from| - c) + to[c..]
  }

  /** `path.relative(from, to)`. */
  function Relative(cwd: seq<string>, from: string, to: string): string {
    Join(RelativeSegs(Resolve(cwd, "", from).segs, Resolve(cwd, "", to).segs), "/")
  }

  lemma {:induction false} FoldUps(acc: seq<string>, n: nat)
    requires n <= |acc|
    requires forall i :: 0 <= i < |acc| ==> acc[i] != ".."
    ensures Fold(true, acc, Ups(n)) == acc[..|acc| - n]
    decreases n
  {
    if n > 0 {
      assert Ups(n)[..n - 1] == Ups(n - 1);
      FoldUps(acc, n - 1);
    }
  }

  lemma {:induction false} FoldPlain(acc: seq<string>, xs: seq<string>)
    requires forall i :: 0 <= i < |xs| ==> xs[i] != "" && xs[i] != "." && xs[i] != ".."
    ensures Fold(true, acc, xs) == acc + xs
    decreases |xs|
  {
    if xs != [] {
      FoldPlain(acc, xs[..|xs| - 1]);
      assert xs == xs[..|xs| - 1] + [xs[|xs| - 1]];
    }
  }

  /** Resolving the relative path against its starting point gives back the target. */
  lemma RelativeResolves(from: seq<string>, to: seq<string>)
    requires Normal(true, from) && Normal(true, to)
    ensures NormalizeSegs(true, from + RelativeSegs(from, to)) == to
  {
    var c := CommonPrefix(from, to);
    FoldOfNormal(true, from);
    PlainSuffix(to, c);
    ResolveSteps(from, to, c);
  }

  lemma ResolveSteps(from: seq<string>, to: seq<string>, c: nat)
    requires c == CommonPrefix(from, to)
    requires Fold(true, [], from) == from
    requires forall i :: 0 <= i < |from| ==> from[i] != ".."
    requires forall i :: 0 <= i < |to[c..]| ==> to[c..][i] != "" && to[c..][i] != "." && to[c..][i] != ".."
    ensures Fold(true, [], from + RelativeSegs(from, to)) == to
  {
    var ups, rest := Ups(|from| - c), to[c..];
    assert RelativeSegs(from, to) == ups + rest;
    FoldAppend(true, [], from, ups + rest);
    UpsThenPlain(from, c, rest);
    assert from[..c] + rest == to;
  }

  /** Climbing out of `from` to its first `c` segments, then descending. */
  lemma UpsThenPlain(from: seq<string>, c: nat, rest: seq<string>)
    requires c <= |from|
    requires forall i :: 0 <= i < |from| ==> from[i] != ".."
    requires forall i :: 0 <= i < |rest| ==> rest[i] != "" && rest[i] != "." && rest[i] != ".."
    ensures Fold(true, from, Ups(|from| - c) + rest) == from[..c] + rest
  {
    var ups := Ups(|from| - c);
    var mid := from[..c];
    assert Fold(true, from, ups) == mid by {
      FoldUps(from, |from| - c);
    }
    assert Fold(true, from, ups + rest) == Fold(true, mid, rest) by {
      FoldAppend(true, from, ups, rest);
    }
    FoldPlain(mid, rest);
  }

  lemma PlainSuffix(to: seq<string>, c: nat)
    requires Normal(true, to) && c <= |to|
    ensures forall i :: 0 <= i < |to[c..]| ==> to[c..][i] != "" && to[c..][i] != "." && to[c..][i] != ".."
  {
    forall i | 0 <= i < |to[c..]|
      ensures to[c..][i] != "" && to[c..][i] != "." && to[c..][i] != ".."
    {
      assert to[c..][i] == to[c + i];
    }
  }

  // -------------------------------------------------------------- path keys

  /** `normalizePathKey` (visitorHelpers.ts): the path without its extension,
      and a file named `index` stands for its directory. */
  function NormalizePathKey(file: string): string {
    var p := ParseText(file);
    if p.segs == [] then Format(Normalize(p))
    else
      var name := NameOf(BaseOf(p));
      if name == "index" then Format(Normalize(DirOf(p)))
      else Format(Normalize(Path(p.absolute, DirOf(p).segs + [name])))
  }

  /** `getFileKey`. */
  function FileKey(file: string): string {
    NormalizePathKey(file)
  }

  /** `getModuleKeyFromSpecifier` once the specifier's text is known: a relative
      or absolute specifier is resolved from the importing file's directory and
      keyed like a file; a package name is its own key. */
  function ModuleKey(cwd: seq<string>, containing: string, spec: string): (k: string)
    ensures !StartsWith(spec, ".") && !StartsWith(spec, "/") ==> k == spec
  {
    if StartsWith(spec, ".") || StartsWith(spec, "/") then
      NormalizePathKey(ResolveText(cwd, Dirname(containing), spec))
    else spec
  }

  /** A plain file name: one segment, no dots. */
  predicate PlainName(n: string) {
    n != "" && '/' !in n && '.' !in n
  }

  lemma SplitDotSlash(n: string)
    requires '/' !in n
    ensures Split("./" + n, '/') == [".", n]
  {
    var s := "./" + n;
    assert IndexOf(s, '/') == 1 by {
      assert s == "." + ['/'] + n;
      IndexOfPrefix(".", '/', n);
    }
    assert s[..1] == ".";
    assert s[2..] == n;
    assert Split(n, '/') == [n];
  }

  lemma ExtOfTs(n: string)
    requires PlainName(n)
    ensures Ext(n + ".ts") == ".ts" && NameOf(n + ".ts") == n
  {
    var b := n + ".ts";
    assert LastDot(b) == |n| by {
      assert b[..|b| - 1] == n + ".t";
      assert (n + ".t")[..|n| + 1] == n + ".";
    }
  }

  lemma NoDotNoExt(n: string)
    requires PlainName(n)
    ensures Ext(n) == "" && NameOf(n) == n
  {
  }

  lemma DirnameOfChild(dir: seq<string>, child: string)
    requires ValidSegs(dir)
    requires child != "" && '/' !in child
    ensures Dirname(Format(Path(true, dir + [child]))) == Format(Path(true, dir))
  {
    ParseFormat(Path(true, dir + [child]));
    assert (dir + [child])[..|dir|] == dir;
  }

  lemma ResolveDotSlash(cwd: seq<string>, dir: seq<string>, n: string)
    requires Normal(true, dir)
    requires PlainName(n)
    ensures Resolve(cwd, Format(Path(true, dir)), "./" + n) == Path(true, dir + [n])
  {
    ParseFormat(Path(true, dir));
    SplitDotSlash(n);
    assert ParseText("./" + n).segs == [".", n];
    FoldOfNormal(true, dir);
    FoldAppend(true, [], dir, [".", n]);
    assert [".", n][..1] == ["."];
    assert ["."][..0] == [];
    assert Fold(true, dir, ["."]) == dir;
  }

  lemma KeyOfKeyed(segs: seq<string>)
    requires Normal(true, segs) && segs != []
    requires PlainName(segs[|segs| - 1]) && segs[|segs| - 1] != "index"
    ensures NormalizePathKey(Format(Path(true, segs))) == Format(Path(true, segs))
  {
    ParseFormat(Path(true, segs));
    NoDotNoExt(segs[|segs| - 1]);
    assert DirOf(Path(true, segs)).segs + [segs[|segs| - 1]] == segs;
    FoldOfNormal(true, segs);
  }

  /** The key of `./<n>` imported from a file in directory `dir` is the key of
      `<dir>/<n>.ts`: an import finds the declarations of the file it names. */
  lemma ModuleKeyOfSibling(cwd: seq<string>, dir: seq<string>, importer: string, n: string)
    requires Normal(true, dir)
    requires importer != "" && '/' !in importer
    requires PlainName(n) && n != "index"
    ensures ModuleKey(cwd, Format(Path(true, dir + [importer])), "./" + n)
            == FileKey(Format(Path(true, dir + [n + ".ts"])))
  {
    DirnameOfChild(dir, importer);
    ResolveDotSlash(cwd, dir, n);
    assert StartsWith("./" + n, ".");
    NormalSnoc(dir, n);
    KeyOfKeyed(dir + [n]);
    FileKeyOfSibling(dir, n);
  }

  lemma NormalSnoc(dir: seq<string>, n: string)
    requires Normal(true, dir) && PlainName(n) && n != "." && n != ".."
    ensures Normal(true, dir + [n]) && (dir + [n])[|dir|] == n
  {
  }

  lemma FileKeyOfSibling(dir: seq<string>, n: string)
    requires Normal(true, dir)
    requires PlainName(n) && n != "index"
    ensures FileKey(Format(Path(true, dir + [n + ".ts"]))) == Format(Path(true, dir + [n]))
  {
    var file := Path(true, dir + [n + ".ts"]);
    NormalSnoc(dir, n);
    TsSnocValid(dir, n);
    ParseFormat(file);
    ExtOfTs(n);
    FoldOfNormal(true, dir + [n]);
    assert BaseOf(file) == n + ".ts" && DirOf(file).segs == dir;
    assert FileKey(Format(file)) == Format(Normalize(Path(true, dir + [n])));
  }

  lemma TsSnocValid(dir: seq<string>, n: string)
    requires ValidSegs(dir) && PlainName(n)
    ensures ValidSegs(dir + [n + ".ts"])
  {
    assert '/' !in ".ts";
    assert forall c :: c in n + ".ts" ==> c in n || c in ".ts";
  }

  lemma FileKeyOfIndex(dir: seq<string>, n: string)
    requires Normal(true, dir)
    requires PlainName(n) && n != "index"
    ensures FileKey(Format(Path(true, dir + [n, "index.ts"]))) == Format(Path(true, dir + [n]))
  {
    var file := Path(true, dir + [n, "index.ts"]);
    NormalSnoc(dir, n);
    assert PlainName("index");
    TsSnocValid(dir + [n], "index");
    assert dir + [n] + ["index.ts"] == dir + [n, "index.ts"];
    ParseFormat(file);
    ExtOfTs("index");
    FoldOfNormal(true, dir + [n]);
    assert BaseOf(file) == "index.ts" && DirOf(file).segs == dir + [n];
  }

  /** The key of `./<n>` is also the key of `<dir>/<n>/index.ts`: a directory
      import finds its index file. */
  lemma ModuleKeyOfIndex(cwd: seq<string>, dir: seq<string>, importer: string, n: string)
    requires Normal(true, dir)
    requires importer != "" && '/' !in importer
    requires PlainName(n) && n != "index"
    ensures ModuleKey(cwd, Format(Path(true, dir + [importer])), "./" + n)
            == FileKey(Format(Path(true, dir + [n, "index.ts"])))
  {
    ModuleKeyOfSibling(cwd, dir, importer, n);
    FileKeyOfSibling(dir, n);
    FileKeyOfIndex(dir, n);
  }
}
