// The regular expressions `mergeImports` (dist/index.mjs:104, 111, 133)
// applies to a hoisted import text, evaluated as JavaScript does: the first
// start position that matches wins, and at that position greedy quantifiers
// try their longest run first, lazy ones their shortest, and an optional
// group is tried before it is skipped.
module ImportRegex {
  import opened Wrappers
  import opened Text

  predicate IsQuote(c: char) { c == '"' || c == '\'' }

  /** End of the longest run of `\s` from p. */
  function WsEnd(s: string, p: nat): (e: nat)
    requires p <= |s|
    ensures p <= e <= |s|
    ensures forall i :: p <= i < e ==> IsJsSpace(s[i])
    ensures e == |s| || !IsJsSpace(s[e])
    decreases |s| - p
  {
    if p < |s| && IsJsSpace(s[p]) then WsEnd(s, p + 1) else p
  }

  /** End of the longest run of `\w` from p. */
  function WordEnd(s: string, p: nat): (e: nat)
    requires p <= |s|
    ensures p <= e <= |s|
    ensures forall i :: p <= i < e ==> IsWordChar(s[i])
    ensures e == |s| || !IsWordChar(s[e])
    decreases |s| - p
  {
    if p < |s| && IsWordChar(s[p]) then WordEnd(s, p + 1) else p
  }

  /** End of the longest run of `[^"']` from p. */
  function TextEnd(s: string, p: nat): (e: nat)
    requires p <= |s|
    ensures p <= e <= |s|
    ensures forall i :: p <= i < e ==> !IsQuote(s[i])
    ensures e == |s| || IsQuote(s[e])
    decreases |s| - p
  {
    if p < |s| && !IsQuote(s[p]) then TextEnd(s, p + 1) else p
  }

  /** What the import pattern captures: the clause (absent when the optional
      group did not take part) and the module path; `typed` says whether the
      optional `type\s+` took part in the match. */
  datatype Capture = Capture(typed: bool, clause: Option<string>, path: string)

  /** A quote that directly follows whitespace: every match of the import
      pattern needs one, since the path's opening quote follows `\s+`. */
  ghost predicate SpacedQuote(s: string) {
    exists k :: 0 < k < |s| && IsQuote(s[k]) && IsJsSpace(s[k - 1])
  }

  /** `["']([^"']+)["']` at k. A shorter `[^"']+` run is followed by a
      non-quote, so the longest run is the only one that can close. */
  function QuotedAt(s: string, k: nat): (r: Option<string>)
    requires k <= |s|
    ensures r.Some? ==> k < |s| && IsQuote(s[k]) && r.value != []
    ensures r.Some? ==> k + 1 + |r.value| < |s| && s[k + 1..k + 1 + |r.value|] == r.value
                        && IsQuote(s[k + 1 + |r.value|])
    ensures r.Some? ==> forall i :: 0 <= i < |r.value| ==> !IsQuote(r.value[i])
  {
    if k < |s| && IsQuote(s[k]) then
      var e := TextEnd(s, k + 1);
      if k + 1 < e < |s| then Some(s[k + 1..e]) else None
    else None
  }

  /** `\s+from\s+["']([^"']+)["']` right after a clause that ends at c. Both
      `\s+` are followed by a non-space, so only their longest runs fit. */
  function FromAt(s: string, c: nat): (r: Option<string>)
    requires c <= |s|
    ensures r.Some? ==> c < |s| && IsJsSpace(s[c])
    ensures r.Some? ==> SpacedQuote(s)
  {
    var w1 := WsEnd(s, c);
    if w1 > c && OccursAt(s, "from", w1) then
      var w2 := WsEnd(s, w1 + 4);
      if w2 > w1 + 4 then
        var q := QuotedAt(s, w2);
        assert q.Some? ==> IsQuote(s[w2]) && IsJsSpace(s[w2 - 1]);
        q
      else None
    else None
  }

  /** The lazy `(.*?)` begun at a, tried with every end from c on; `.` stops
      at a line terminator. */
  function LazyClause(s: string, a: nat, c: nat): (r: Option<Capture>)
    requires a <= c <= |s|
    requires forall i :: a <= i < c ==> !IsLineTerminator(s[i])
    ensures r.Some? ==> SpacedQuote(s) && r.value.clause.Some? && !r.value.typed
    ensures r.Some? ==> exists e :: c <= e <= |s| && r.value.clause.value == s[a..e]
                          && forall i :: a <= i < e ==> !IsLineTerminator(s[i])
    decreases |s| - c
  {
    match FromAt(s, c)
    case Some(path) => Some(Capture(false, Some(s[a..c]), path))
    case None =>
      if c < |s| && !IsLineTerminator(s[c]) then LazyClause(s, a, c + 1) else None
  }

  /** What follows `import\s+(?:type\s+)?` at a: the optional clause group
      first, then the quoted path on its own. */
  function Body(s: string, a: nat): (r: Option<Capture>)
    requires a <= |s|
    ensures r.Some? ==> SpacedQuote(s) || (a < |s| && IsQuote(s[a]))
    ensures r.Some? ==> !r.value.typed
  {
    var g := LazyClause(s, a, a);
    if g.Some? then g
    else match QuotedAt(s, a)
      case Some(path) => Some(Capture(false, None, path))
      case None => None
  }

  /** A greedy `\s+` that ended at hi gives back one character at a time,
      down to lo, until the rest matches. */
  function BodyBack(s: string, lo: nat, hi: nat): (r: Option<Capture>)
    requires 0 < lo <= hi <= |s|
    requires forall i :: lo - 1 <= i < hi ==> IsJsSpace(s[i])
    ensures r.Some? ==> SpacedQuote(s)
    decreases hi
  {
    var r := Body(s, hi);
    assert hi < |s| && IsQuote(s[hi]) ==> IsJsSpace(s[hi - 1]);
    if r.Some? || hi == lo then r else BodyBack(s, lo, hi - 1)
  }

  /** After `import\s+`, ending at b: with `type\s+` first, then without. */
  function AfterImport(s: string, b: nat): (r: Option<Capture>)
    requires 0 < b <= |s| && IsJsSpace(s[b - 1])
    ensures r.Some? ==> SpacedQuote(s) || (b < |s| && IsQuote(s[b]))
  {
    var t := if OccursAt(s, "type", b) && WsEnd(s, b + 4) > b + 4 then BodyBack(s, b + 5, WsEnd(s, b + 4)) else None;
    if t.Some? then Some(t.value.(typed := true)) else Body(s, b)
  }

  function AfterImportBack(s: string, lo: nat, hi: nat): (r: Option<Capture>)
    requires 0 < lo <= hi <= |s|
    requires forall i :: lo - 1 <= i < hi ==> IsJsSpace(s[i])
    ensures r.Some? ==> SpacedQuote(s)
    decreases hi
  {
    var r := AfterImport(s, hi);
    assert hi < |s| && IsQuote(s[hi]) ==> IsJsSpace(s[hi - 1]);
    if r.Some? || hi == lo then r else AfterImportBack(s, lo, hi - 1)
  }

  /** The import pattern anchored at p. */
  function MatchAt(s: string, p: nat): (r: Option<Capture>)
    requires p <= |s|
    ensures r.Some? ==> SpacedQuote(s) && OccursAt(s, "import", p)
  {
    if OccursAt(s, "import", p) && WsEnd(s, p + 6) > p + 6 then AfterImportBack(s, p + 7, WsEnd(s, p + 6)) else None
  }

  function SearchFrom(s: string, p: nat): (r: Option<Capture>)
    requires p <= |s|
    ensures r.Some? ==> SpacedQuote(s) && Contains(s, "import")
    decreases |s| - p
  {
    var m := MatchAt(s, p);
    if m.Some? || p == |s| then m else SearchFrom(s, p + 1)
  }

  /** `s.match(/import\s+(?:type\s+)?(?:(.*?)\s+from\s+)?["']([^"']+)["'];?/)`;
      the trailing `;?` always succeeds and captures nothing. */
  function ImportMatch(s: string): (r: Option<Capture>)
    ensures r.Some? ==> SpacedQuote(s) && Contains(s, "import")
    ensures r.Some? ==> r.value.path != [] && forall i :: 0 <= i < |r.value.path| ==> !IsQuote(r.value.path[i])
  {
    PathsQuoteFree(s, 0);
    SearchFrom(s, 0)
  }

  /** Paths captured anywhere are non-empty and quote-free. */
  ghost predicate GoodPath(r: Option<Capture>) {
    r.Some? ==> r.value.path != [] && forall i :: 0 <= i < |r.value.path| ==> !IsQuote(r.value.path[i])
  }

  lemma LazyPath(s: string, a: nat, c: nat)
    requires a <= c <= |s|
    requires forall i :: a <= i < c ==> !IsLineTerminator(s[i])
    ensures GoodPath(LazyClause(s, a, c))
    decreases |s| - c
  {
    if FromAt(s, c).None? && c < |s| && !IsLineTerminator(s[c]) {
      LazyPath(s, a, c + 1);
    } else if FromAt(s, c).Some? {
      var w1 := WsEnd(s, c);
      var w2 := WsEnd(s, w1 + 4);
      assert FromAt(s, c) == QuotedAt(s, w2);
    }
  }

  lemma BodyPath(s: string, a: nat)
    requires a <= |s|
    ensures GoodPath(Body(s, a))
  {
    LazyPath(s, a, a);
  }

  lemma BodyBackPath(s: string, lo: nat, hi: nat)
    requires 0 < lo <= hi <= |s|
    requires forall i :: lo - 1 <= i < hi ==> IsJsSpace(s[i])
    ensures GoodPath(BodyBack(s, lo, hi))
    decreases hi
  {
    BodyPath(s, hi);
    if hi > lo { BodyBackPath(s, lo, hi - 1); }
  }

  lemma AfterImportBackPath(s: string, lo: nat, hi: nat)
    requires 0 < lo <= hi <= |s|
    requires forall i :: lo - 1 <= i < hi ==> IsJsSpace(s[i])
    ensures GoodPath(AfterImportBack(s, lo, hi))
    decreases hi
  {
    AfterImportPath(s, hi);
    if hi > lo { AfterImportBackPath(s, lo, hi - 1); }
  }

  lemma AfterImportPath(s: string, b: nat)
    requires 0 < b <= |s| && IsJsSpace(s[b - 1])
    ensures GoodPath(AfterImport(s, b))
  {
    BodyPath(s, b);
    if OccursAt(s, "type", b) && WsEnd(s, b + 4) > b + 4 {
      BodyBackPath(s, b + 5, WsEnd(s, b + 4));
    }
  }

  lemma PathsQuoteFree(s: string, p: nat)
    requires p <= |s|
    ensures GoodPath(SearchFrom(s, p))
    decreases |s| - p
  {
    if OccursAt(s, "import", p) && WsEnd(s, p + 6) > p + 6 {
      AfterImportBackPath(s, p + 7, WsEnd(s, p + 6));
    }
    if p < |s| { PathsQuoteFree(s, p + 1); }
  }
  // ------------------------------------------------ the default-name pattern

  /** A word character that directly follows whitespace: every match of the
      default-name pattern needs one. */
  ghost predicate SpacedWord(s: string) {
    exists k :: 0 < k < |s| && IsWordChar(s[k]) && IsJsSpace(s[k - 1])
  }

  /** `/import\s+(?:type\s+)?(\w+)/` anchored at p. `\w+` cannot start on a
      space, so only the longest runs of `\s+` can be followed by it. */
  function DefaultAt(s: string, p: nat): (r: Option<string>)
    requires p <= |s|
    ensures r.Some? ==> r.value != [] && forall i :: 0 <= i < |r.value| ==> IsWordChar(r.value[i])
    ensures r.Some? ==> SpacedWord(s)
  {
    if OccursAt(s, "import", p) && WsEnd(s, p + 6) > p + 6 then
      var b := WsEnd(s, p + 6);
      var w := if b + 4 <= |s| then WsEnd(s, b + 4) else b;
      if OccursAt(s, "type", b) && w > b + 4 && WordEnd(s, w) > w then
        assert IsWordChar(s[w]) && IsJsSpace(s[w - 1]);
        Some(s[w..WordEnd(s, w)])
      else if WordEnd(s, b) > b then
        assert IsWordChar(s[b]) && IsJsSpace(s[b - 1]);
        Some(s[b..WordEnd(s, b)])
      else None
    else None
  }

  function DefaultFrom(s: string, p: nat): (r: Option<string>)
    requires p <= |s|
    ensures r.Some? ==> r.value != [] && forall i :: 0 <= i < |r.value| ==> IsWordChar(r.value[i])
    ensures r.Some? ==> SpacedWord(s)
    decreases |s| - p
  {
    var m := DefaultAt(s, p);
    if m.Some? || p == |s| then m else DefaultFrom(s, p + 1)
  }

  /** `s.match(/import\s+(?:type\s+)?(\w+)/)?.[1]`. */
  function DefaultMatch(s: string): (r: Option<string>)
    ensures r.Some? ==> r.value != [] && forall i :: 0 <= i < |r.value| ==> IsWordChar(r.value[i])
    ensures r.Some? ==> SpacedWord(s)
  {
    DefaultFrom(s, 0)
  }

  // ---------------------------------------------- the namespace-alias pattern

  /** `/\*\s+as\s+(\w+)/` anchored at p. */
  function NamespaceAt(x: string, p: nat): (r: Option<string>)
    requires p <= |x|
    ensures r.Some? ==> r.value != [] && forall i :: 0 <= i < |r.value| ==> IsWordChar(r.value[i])
  {
    if p < |x| && x[p] == '*' && WsEnd(x, p + 1) > p + 1 && OccursAt(x, "as", WsEnd(x, p + 1)) then
      var w := WsEnd(x, WsEnd(x, p + 1) + 2);
      if w > WsEnd(x, p + 1) + 2 && WordEnd(x, w) > w then Some(x[w..WordEnd(x, w)]) else None
    else None
  }

  function NamespaceFrom(x: string, p: nat): (r: Option<string>)
    requires p <= |x|
    ensures r.Some? ==> r.value != [] && forall i :: 0 <= i < |r.value| ==> IsWordChar(r.value[i])
    decreases |x| - p
  {
    var m := NamespaceAt(x, p);
    if m.Some? || p == |x| then m else NamespaceFrom(x, p + 1)
  }

  /** `clause.match(/\*\s+as\s+(\w+)/)?.[1]`. */
  function NamespaceMatch(x: string): (r: Option<string>)
    ensures r.Some? ==> r.value != [] && forall i :: 0 <= i < |r.value| ==> IsWordChar(r.value[i])
  {
    NamespaceFrom(x, 0)
  }

  // ------------------------------------------------------- runs, located

  lemma WsEndIs(s: string, p: nat, q: nat)
    requires p <= q <= |s|
    requires forall i :: p <= i < q ==> IsJsSpace(s[i])
    requires q == |s| || !IsJsSpace(s[q])
    ensures WsEnd(s, p) == q
    decreases q - p
  {
    if p < q { WsEndIs(s, p + 1, q); }
  }

  lemma WordEndIs(s: string, p: nat, q: nat)
    requires p <= q <= |s|
    requires forall i :: p <= i < q ==> IsWordChar(s[i])
    requires q == |s| || !IsWordChar(s[q])
    ensures WordEnd(s, p) == q
    decreases q - p
  {
    if p < q { WordEndIs(s, p + 1, q); }
  }

  lemma TextEndIs(s: string, p: nat, q: nat)
    requires p <= q <= |s|
    requires forall i :: p <= i < q ==> !IsQuote(s[i])
    requires q == |s| || IsQuote(s[q])
    ensures TextEnd(s, p) == q
    decreases q - p
  {
    if p < q { TextEndIs(s, p + 1, q); }
  }

  /** The lazy clause moves past ends where the rest cannot match. */
  lemma {:induction false} LazyAdvance(s: string, a: nat, c: nat, e: nat)
    requires a <= c <= e <= |s|
    requires forall i :: a <= i < c ==> !IsLineTerminator(s[i])
    requires forall i :: c <= i < e ==> FromAt(s, i).None? && !IsLineTerminator(s[i])
    ensures LazyClause(s, a, c) == LazyClause(s, a, e)
    decreases e - c
  {
    if c < e {
      LazyAdvance(s, a, c + 1, e);
    }
  }

  // ------------------------------------------------- the texts of imports

  /** A clause as written between `import ` and ` from `: non-empty, without
      quotes or line breaks, not starting or ending with whitespace. */
  predicate ClauseText(c: string) {
    c != [] && !IsJsSpace(c[0]) && !IsJsSpace(c[|c| - 1])
    && forall i :: 0 <= i < |c| ==> !IsQuote(c[i]) && !IsLineTerminator(c[i])
  }

  /** A clause that the optional `type\s+` would take as its keyword. */
  predicate TypeLed(c: string) {
    |c| >= 4 && c[..4] == "type" && (|c| == 4 || IsJsSpace(c[4]))
  }

  predicate PathText(m: string) {
    m != [] && forall i :: 0 <= i < |m| ==> !IsQuote(m[i])
  }

  function ImportHead(isType: bool): string {
    if isType then "import type " else "import "
  }

  /** ` from "<path>"` written at e. */
  predicate FromWritten(s: string, e: nat, m: string) {
    e + 8 + |m| <= |s|
    && s[e] == ' ' && s[e + 1] == 'f' && s[e + 2] == 'r' && s[e + 3] == 'o' && s[e + 4] == 'm' && s[e + 5] == ' '
    && IsQuote(s[e + 6]) && (forall j :: 0 <= j < |m| ==> s[e + 7 + j] == m[j]) && IsQuote(s[e + 7 + |m|])
  }

  lemma FromAtWritten(s: string, e: nat, m: string)
    requires FromWritten(s, e, m) && PathText(m)
    ensures FromAt(s, e) == Some(m)
  {
    WsEndIs(s, e, e + 1);
    assert OccursAt(s, "from", e + 1) by { assert s[e + 1..e + 5] == "from"; }
    WsEndIs(s, e + 5, e + 6);
    assert forall k :: e + 7 <= k < e + 7 + |m| ==> s[k] == m[k - e - 7];
    TextEndIs(s, e + 7, e + 7 + |m|);
    assert s[e + 7..e + 7 + |m|] == m;
  }

  /** Before the end e of a clause that does not end in whitespace, no
      shorter clause is followed by the rest of the pattern. */
  lemma NoEarlierEnd(s: string, a: nat, e: nat, i: nat, m: string)
    requires a <= i < e && FromWritten(s, e, m)
    requires forall k :: a <= k < e ==> !IsQuote(s[k])
    requires !IsJsSpace(s[e - 1])
    ensures FromAt(s, i).None?
  {
    var w1 := WsEnd(s, i);
    assert w1 < e;
    if w1 > i && OccursAt(s, "from", w1) {
      assert forall k :: w1 <= k < w1 + 4 ==> s[k] == "from"[k - w1];
      assert w1 + 4 <= e;
      var w2 := WsEnd(s, w1 + 4);
      assert w2 <= e + 1;
      assert w2 < |s| && !IsQuote(s[w2]);
    }
  }

  /** A clause written from a to e, then ` from "<path>"`: the optional group
      takes exactly that clause. */
  lemma BodyWritten(s: string, a: nat, e: nat, m: string)
    requires a < e && FromWritten(s, e, m) && PathText(m)
    requires forall k :: a <= k < e ==> !IsQuote(s[k]) && !IsLineTerminator(s[k])
    requires !IsJsSpace(s[e - 1])
    ensures Body(s, a) == Some(Capture(false, Some(s[a..e]), m))
  {
    FromAtWritten(s, e, m);
    forall i | a <= i < e ensures FromAt(s, i).None? && !IsLineTerminator(s[i]) {
      NoEarlierEnd(s, a, e, i, m);
    }
    LazyAdvance(s, a, a, e);
  }

  lemma FromWrittenAfter(x: string, q1: char, m: string, q2: char, tail: string)
    requires IsQuote(q1) && IsQuote(q2)
    ensures FromWritten(x + " from " + [q1] + m + [q2] + tail, |x|, m)
  {
    var s := x + " from " + [q1] + m + [q2] + tail;
    var e := |x|;
    assert forall j :: 0 <= j < |m| ==> s[e + 7 + j] == m[j];
  }

  /** After `import ` (or `import type `) the first match is the one the
      body makes, when no space follows the head and, without the keyword,
      the text does not read as `import type `. */
  lemma HeadThenBody(s: string, isType: bool, r: Option<Capture>)
    requires |ImportHead(isType)| < |s| && s[..|ImportHead(isType)|] == ImportHead(isType)
    requires !IsJsSpace(s[|ImportHead(isType)|])
    requires !isType ==> !(OccursAt(s, "type", 7) && WsEnd(s, 11) > 11)
    requires Body(s, |ImportHead(isType)|) == r && r.Some?
    ensures ImportMatch(s) == Some(r.value.(typed := isType))
  {
    if isType {
      TypedHeadMatch(s, r);
    } else {
      PlainHeadMatch(s, r);
    }
  }

  lemma PlainHeadMatch(s: string, r: Option<Capture>)
    requires 7 < |s| && s[..7] == "import " && !IsJsSpace(s[7])
    requires !(OccursAt(s, "type", 7) && WsEnd(s, 11) > 11)
    requires Body(s, 7) == r && r.Some?
    ensures ImportMatch(s) == Some(r.value.(typed := false))
  {
    assert s[..6] == s[..7][..6] && s[6] == s[..7][6];
    assert AfterImport(s, 7) == r;
    MatchedAtStart(s, Some(r.value.(typed := false)));
  }

  lemma TypedHeadMatch(s: string, r: Option<Capture>)
    requires 12 < |s| && s[..12] == "import type " && !IsJsSpace(s[12])
    requires Body(s, 12) == r && r.Some?
    ensures ImportMatch(s) == Some(r.value.(typed := true))
  {
    assert s[..6] == s[..12][..6] && s[6] == s[..12][6] && s[7] == s[..12][7];
    TypedHead(s, r);
    MatchedAtStart(s, Some(r.value.(typed := true)));
  }

  lemma MatchedAtStart(s: string, r: Option<Capture>)
    requires 7 < |s| && OccursAt(s, "import", 0) && IsJsSpace(s[6]) && !IsJsSpace(s[7])
    requires AfterImport(s, 7) == r && r.Some?
    ensures ImportMatch(s) == r
  {
    WsEndIs(s, 6, 7);
    assert AfterImportBack(s, 7, 7) == AfterImport(s, 7);
    assert MatchAt(s, 0) == r;
  }

  lemma TypedHead(s: string, r: Option<Capture>)
    requires 12 < |s| && s[..12] == "import type " && !IsJsSpace(s[12])
    requires Body(s, 12) == r && r.Some?
    ensures AfterImport(s, 7) == Some(r.value.(typed := true))
  {
    assert OccursAt(s, "type", 7) by { assert s[7..11] == s[..12][7..11]; }
    assert IsJsSpace(s[11]) by { assert s[11] == s[..12][11]; }
    WsEndIs(s, 11, 12);
    assert BodyBack(s, 12, 12) == Body(s, 12);
  }

  /** A clause followed by ` from "<path>"` is taken whole by the body. */
  lemma ClauseBody(x: string, c: string, q1: char, m: string, q2: char, tail: string)
    requires ClauseText(c) && IsQuote(q1) && IsQuote(q2) && PathText(m)
    ensures Body(x + c + " from " + [q1] + m + [q2] + tail, |x|) == Some(Capture(false, Some(c), m))
  {
    var s := x + c + " from " + [q1] + m + [q2] + tail;
    var rest := " from " + [q1] + m + [q2] + tail;
    assert s == (x + c) + " from " + [q1] + m + [q2] + tail;
    assert s == x + c + rest;
    FromWrittenAfter(x + c, q1, m, q2, tail);
    ClauseAt(x, c, rest);
    BodyWritten(s, |x|, |x| + |c|, m);
  }

  /** A clause written at |x|: its characters, and the slice that is it. */
  lemma ClauseAt(x: string, c: string, rest: string)
    requires ClauseText(c)
    ensures var s := x + c + rest;
            && s[|x|..|x| + |c|] == c
            && (forall k :: |x| <= k < |x| + |c| ==> !IsQuote(s[k]) && !IsLineTerminator(s[k]))
            && !IsJsSpace(s[|x| + |c| - 1])
  {
    var s := x + c + rest;
    forall k | |x| <= k < |x| + |c| ensures s[k] == c[k - |x|] { }
    assert s[|x|..|x| + |c|] == c;
  }

  /** On `import [type ]<clause> from "<path>"…` the pattern captures the
      clause and the path exactly. */
  lemma ClauseMatch(s: string, isType: bool, c: string, q1: char, m: string, q2: char, tail: string)
    requires s == ImportHead(isType) + c + " from " + [q1] + m + [q2] + tail
    requires ClauseText(c) && (!isType ==> !TypeLed(c))
    requires IsQuote(q1) && IsQuote(q2) && PathText(m)
    ensures ImportMatch(s) == Some(Capture(isType, Some(c), m))
  {
    var P := ImportHead(isType);
    ClauseBody(P, c, q1, m, q2, tail);
    assert s[..|P|] == P;
    assert s[|P|] == c[0];
    if !isType {
      assert !(OccursAt(s, "type", 7) && WsEnd(s, 11) > 11) by {
        if |c| >= 4 {
          assert s[7..11] == c[..4];
          if |c| > 4 { assert s[11] == c[4]; } else { assert s[11] == ' '; }
        } else {
          assert s[7 + |c|] == ' ';
        }
      }
    }
    HeadThenBody(s, isType, Some(Capture(false, Some(c), m)));
  }
  function SideEffectText(q1: char, m: string, q2: char, tail: string): string {
    "import " + [q1] + m + [q2] + tail
  }

  lemma SideEffectLayout(q1: char, m: string, q2: char, tail: string)
    requires forall i :: 0 <= i < |m| ==> !IsJsSpace(m[i])
    requires forall i :: 0 <= i < |tail| ==> !IsJsSpace(tail[i])
    requires !IsJsSpace(q1) && !IsJsSpace(q2)
    ensures var s := SideEffectText(q1, m, q2, tail);
      && s[..7] == "import " && s[7] == q1 && s[8..8 + |m|] == m && s[8 + |m|] == q2
      && forall k :: 7 <= k < |s| ==> !IsJsSpace(s[k])
  {
    var s := SideEffectText(q1, m, q2, tail);
    assert forall j :: 0 <= j < |m| ==> s[8 + j] == m[j];
    assert forall j :: 0 <= j < |tail| ==> s[9 + |m| + j] == tail[j];
    forall k | 7 <= k < |s| ensures !IsJsSpace(s[k]) {
      if k == 7 || k == 8 + |m| {
      } else if k < 8 + |m| {
        assert s[k] == m[k - 8];
      } else {
        assert s[k] == tail[k - 9 - |m|];
      }
    }
  }

  /** `import "<path>"…` with no space after the head: the pattern matches
      without a clause. */
  lemma SideEffectMatch(q1: char, m: string, q2: char, tail: string)
    requires IsQuote(q1) && IsQuote(q2) && PathText(m)
    requires forall i :: 0 <= i < |m| ==> !IsJsSpace(m[i])
    requires forall i :: 0 <= i < |tail| ==> !IsJsSpace(tail[i])
    ensures ImportMatch(SideEffectText(q1, m, q2, tail)) == Some(Capture(false, None, m))
  {
    var s := SideEffectText(q1, m, q2, tail);
    var n := |s|;
    SideEffectLayout(q1, m, q2, tail);
    forall i | 7 <= i < n ensures FromAt(s, i).None? && !IsLineTerminator(s[i]) {
    }
    LazyAdvance(s, 7, 7, n);
    assert LazyClause(s, 7, 7) == None;
    assert forall j :: 0 <= j < |m| ==> s[8 + j] == m[j];
    TextEndIs(s, 8, 8 + |m|);
    assert Body(s, 7) == Some(Capture(false, None, m));
    HeadThenBody(s, false, Some(Capture(false, None, m)));
  }

  /** On the same text the default-name pattern finds no name: no word
      follows a space. */
  lemma SideEffectNoName(q1: char, m: string, q2: char, tail: string)
    requires IsQuote(q1) && IsQuote(q2)
    requires forall i :: 0 <= i < |m| ==> !IsJsSpace(m[i])
    requires forall i :: 0 <= i < |tail| ==> !IsJsSpace(tail[i])
    ensures DefaultMatch(SideEffectText(q1, m, q2, tail)) == None
  {
    var s := SideEffectText(q1, m, q2, tail);
    SideEffectLayout(q1, m, q2, tail);
    forall k | 0 < k < |s| ensures !(IsWordChar(s[k]) && IsJsSpace(s[k - 1])) {
      if k < 7 {
        assert s[k - 1] == s[..7][k - 1];
      }
    }
    assert !SpacedWord(s);
  }

  /** The text of `import x = require("<path>")` does not match: its only
      quotes follow `(` and the path. */
  lemma ImportEqualsNoMatch(x: string, q1: char, m: string, q2: char)
    requires IsQuote(q1) && IsQuote(q2)
    requires forall i :: 0 <= i < |x| ==> !IsQuote(x[i])
    requires forall i :: 0 <= i < |m| ==> !IsJsSpace(m[i]) && !IsQuote(m[i])
    ensures ImportMatch("import " + x + " = require(" + [q1] + m + [q2] + ");") == None
  {
    var head := "import " + x + " = require(";
    var s := head + [q1] + m + [q2] + ");";
    var h := |head|;
    assert forall k :: 0 <= k < h ==> !IsQuote(head[k]) by {
      forall k | 0 <= k < h ensures !IsQuote(head[k]) {
        if k < 7 { assert head[k] == "import "[k]; }
        else if k < 7 + |x| { assert head[k] == x[k - 7]; }
        else { assert head[k] == " = require("[k - 7 - |x|]; }
      }
    }
    assert head[h - 1] == '(';
    forall k | 0 < k < |s| ensures !(IsQuote(s[k]) && IsJsSpace(s[k - 1])) {
      if k < h {
        assert s[k] == head[k];
      } else if k == h {
        assert s[k - 1] == head[h - 1];
      } else if k <= h + |m| {
        assert s[k - 1] == (if k == h + 1 then q1 else m[k - h - 2]);
      } else if k > h + |m| + 1 {
        assert s[k] == ");"[k - h - |m| - 2];
      }
    }
    assert !SpacedQuote(s);
  }

  /** A clause `* as N` names the alias N. */
  lemma NamespaceClause(n: string)
    requires n != [] && forall i :: 0 <= i < |n| ==> IsWordChar(n[i])
    ensures NamespaceMatch("* as " + n) == Some(n)
  {
    var x := "* as " + n;
    assert x[0] == '*' && x[1] == ' ' && x[2] == 'a' && x[3] == 's' && x[4] == ' ';
    assert forall j :: 0 <= j < |n| ==> x[5 + j] == n[j];
    WsEndIs(x, 1, 2);
    assert OccursAt(x, "as", 2) by { assert x[2..4] == "as"; }
    assert IsWordChar(x[5]) && !IsJsSpace(x[5]);
    WsEndIs(x, 4, 5);
    WordEndIs(x, 5, |x|);
    assert x[5..] == n;
    assert WsEnd(x, 1) == 2;
    assert WsEnd(x, WsEnd(x, 1) + 2) == 5;
    assert 0 < |x| && x[0] == '*' && WsEnd(x, 1) > 1 && OccursAt(x, "as", WsEnd(x, 1));
    assert WordEnd(x, 5) == |x|;
    assert x[5..|x|] == n;
    assert NamespaceAt(x, 0) == Some(n);
  }
}
