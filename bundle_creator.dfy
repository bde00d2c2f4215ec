// src/lib/bundle/bundleCreator.ts: one stage applied to one file. The file is
// parsed, transformed by the stage's visitor, printed, and every line that
// matches /^s*;\s*$/gm is deleted before the text is trimmed.
module BundleCreator {
  import opened Text
  import opened Ast
  import opened Records
  import opened Wrappers

  /** The record a stage returns: the same path and extra fields, the new
      content with its top-level empty statements gone. */
  function Created(d: DepsFile, transformed: seq<Stmt>): (r: DepsFile)
    ensures r.file == d.file && r.rest == d.rest
    ensures Empty !in r.content
    ensures forall s :: s in r.content <==> s in transformed && s != Empty
  {
    DepsFile(d.file, DropTopEmpty(transformed), d.rest)
  }

  // ------------------------------------------- the regular expression on text

  function SRun(s: string, p: nat): (n: nat)
    requires p <= |s|
    ensures p + n <= |s|
    ensures forall i :: p <= i < p + n ==> s[i] == 's'
    ensures p + n == |s| || s[p + n] != 's'
    decreases |s| - p
  {
    if p < |s| && s[p] == 's' then 1 + SRun(s, p + 1) else 0
  }

  function WsRun(s: string, p: nat): (n: nat)
    requires p <= |s|
    ensures p + n <= |s|
    ensures forall i :: p <= i < p + n ==> IsJsSpace(s[i])
    ensures p + n == |s| || !IsJsSpace(s[p + n])
    decreases |s| - p
  {
    if p < |s| && IsJsSpace(s[p]) then 1 + WsRun(s, p + 1) else 0
  }

  /** The largest position t in [lo, hi) holding a line terminator, or -1. */
  function LastTerminator(s: string, lo: nat, hi: nat): (t: int)
    requires lo <= hi <= |s|
    ensures t == -1 || (lo <= t < hi && IsLineTerminator(s[t]))
    ensures t == -1 ==> forall i :: lo <= i < hi ==> !IsLineTerminator(s[i])
    ensures t != -1 ==> forall i :: t < i < hi ==> !IsLineTerminator(s[i])
    decreases hi - lo
  {
    if hi == lo then -1
    else if IsLineTerminator(s[hi - 1]) then hi - 1
    else LastTerminator(s, lo, hi - 1)
  }

  predicate LineStart(s: string, p: nat)
    requires p <= |s|
  {
    p == 0 || IsLineTerminator(s[p - 1])
  }

  /** Where a match of /^s*;\s*$/m starting at p ends: `^` at a line start,
      a run of the letter 's', a ';', then the longest whitespace run after
      which `$` holds (end of text or before a line terminator). */
  function MatchAt(s: string, p: nat): (r: Option<nat>)
    requires p <= |s|
    ensures r.Some? ==> p < r.value <= |s| && LineStart(s, p)
    ensures r.Some? ==> r.value == |s| || IsLineTerminator(s[r.value])
  {
    if !LineStart(s, p) then None
    else
      var k := p + SRun(s, p);
      if k >= |s| || s[k] != ';' then None
      else
        var q := k + 1;
        var e := q + WsRun(s, q);
        if e == |s| then Some(|s|)
        else
          var t := LastTerminator(s, q, e);
          if t == -1 then None else Some(t)
  }

  /** `s.replace(/^s*;\s*$/gm, "")` from scan position p: matched spans are
      deleted and the scan resumes where a match ended. */
  function StripFrom(s: string, p: nat): string
    requires p <= |s|
    decreases |s| - p
  {
    if p == |s| then ""
    else
      match MatchAt(s, p)
      case Some(e) => StripFrom(s, e)
      case None => [s[p]] + StripFrom(s, p + 1)
  }

  function StripSemicolonLines(s: string): string {
    StripFrom(s, 0)
  }

  /** The cleanup of a printed file: delete `;` lines, then trim. */
  function Clean(s: string): string {
    Trim(StripSemicolonLines(s))
  }

  /** Text with no ';' in it is left as it is by the deletion. */
  lemma {:induction false} StripWithoutSemicolon(s: string, p: nat)
    requires p <= |s|
    requires ';' !in s
    ensures StripFrom(s, p) == s[p..]
    decreases |s| - p
  {
    if p < |s| {
      var k := p + SRun(s, p);
      assert k < |s| ==> s[k] in s;
      StripWithoutSemicolon(s, p + 1);
      assert s[p..] == [s[p]] + s[p + 1..];
    }
  }

  /** Only characters are deleted: the output is never longer than the input. */
  lemma {:induction false} StripShrinks(s: string, p: nat)
    requires p <= |s|
    ensures |StripFrom(s, p)| <= |s| - p
    decreases |s| - p
  {
    if p < |s| {
      match MatchAt(s, p)
      case Some(e) => StripShrinks(s, e);
      case None => StripShrinks(s, p + 1);
    }
  }

  /** A line holding only ';' is deleted, its line break kept. */
  lemma SemicolonLineDeleted()
    ensures StripSemicolonLines("a\n;\nb") == "a\n\nb"
  {
    var s := "a\n;\nb";
    assert MatchAt(s, 0) == None;
    assert MatchAt(s, 1) == None;
    assert SRun(s, 2) == 0;
    assert WsRun(s, 4) == 0;
    assert WsRun(s, 3) == 1;
    assert LastTerminator(s, 3, 4) == 3;
    assert MatchAt(s, 2) == Some(3);
    assert MatchAt(s, 3) == None;
    assert MatchAt(s, 4) == None;
    assert StripFrom(s, 4) == "b";
  }

  /** The pattern begins with a literal 's': an indented ';' line stays. */
  lemma IndentedSemicolonKept()
    ensures StripSemicolonLines("a\n  ;\nb") == "a\n  ;\nb"
  {
    var s := "a\n  ;\nb";
    assert SRun(s, 2) == 0;
    assert MatchAt(s, 2) == None;
    forall p | 0 <= p <= |s| && p != 2
      ensures MatchAt(s, p) == None
    {
      if p < |s| && LineStart(s, p) {
        assert p == 0 || p == 6;
      }
    }
    assert StripFrom(s, 6) == "b";
    assert StripFrom(s, 5) == "\nb";
    assert StripFrom(s, 4) == ";\nb";
    assert StripFrom(s, 3) == " ;\nb";
    assert StripFrom(s, 2) == "  ;\nb";
    assert StripFrom(s, 1) == "\n  ;\nb";
  }

  /** ... while a line of 's' letters followed by ';' goes. */
  lemma LetterSLineDeleted()
    ensures StripSemicolonLines("a\nss;\nb") == "a\n\nb"
  {
    var s := "a\nss;\nb";
    assert SRun(s, 4) == 0;
    assert SRun(s, 3) == 1;
    assert SRun(s, 2) == 2;
    assert WsRun(s, 6) == 0;
    assert WsRun(s, 5) == 1;
    assert LastTerminator(s, 5, 6) == 5;
    assert MatchAt(s, 2) == Some(5);
    assert MatchAt(s, 0) == None;
    assert MatchAt(s, 1) == None;
    assert MatchAt(s, 5) == None;
    assert MatchAt(s, 6) == None;
    assert StripFrom(s, 6) == "b";
  }
}
