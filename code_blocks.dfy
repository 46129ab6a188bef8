/**
 * Fenced code blocks of a markdown document (scripts/test_markdown_examples.py,
 * `extract_code_blocks`, on the document text rather than a path).
 *
 * The pattern `^[ \t]*```(\w+)\n(.*?)^[ \t]*```` under MULTILINE and DOTALL is read
 * as a scanner: an opening fence stands at a line start after optional blanks and
 * carries a word-character language tag ended by a newline; the lazy body runs to the
 * first later line start that is itself a fence (blanks, then three backticks).
 * Matches are collected left to right, each search resuming where the last match ended.
 */
module CodeBlocks {
  import opened Wrappers
  import opened Text
  import opened FindIter
  import opened ReplaceTags

  /** One extracted snippet: its language tag, its (rewritten) text, the 1-based line of its fence, its file. */
  datatype CodeBlock = CodeBlock(language: String, code: String, lineNumber: nat, filePath: String)

  /**
   * One raw match of the fence pattern: where it starts, where its language group starts,
   * the group itself, the span of the body group, and where the match ends.
   */
  datatype FenceMatch = FenceMatch(start: nat, tagStart: nat, language: String, bodyStart: nat, bodyEnd: nat, end: nat)

  /** The opening fence line read at some position: where its tag starts, the tag, and where the body begins. */
  datatype Opening = Opening(tagStart: nat, language: String, bodyStart: nat)

  const FENCE: String := "```"

  /** `[ \t]` */
  predicate IsBlank(c: char) { c == ' ' || c == '\t' }

  /** Where `^` matches under MULTILINE: the start of the text or just after a newline. */
  predicate LineStart(s: String, k: nat)
  {
    k == 0 || (k <= |s| && s[k - 1] == '\n')
  }

  /** `^[ \t]*```` matches at `k`. */
  predicate FenceAt(s: String, k: nat)
    requires k <= |s|
  {
    LineStart(s, k) && OccursAt(s, FENCE, RunEnd(s, k, IsBlank))
  }

  /** The first fence at or after `i`: where the lazy body `(.*?)` stops. */
  function FirstFence(s: String, i: nat): (r: Option<nat>)
    requires i <= |s|
    ensures r.Some? ==> i <= r.value <= |s| && FenceAt(s, r.value)
    ensures forall k :: i <= k <= |s| && (r.None? || k < r.value) ==> !FenceAt(s, k)
    decreases |s| - i
  {
    if FenceAt(s, i) then Some(i)
    else if i == |s| then None
    else FirstFence(s, i + 1)
  }

  /** The opening fence line `^[ \t]*```(\w+)\n` at `p`, if there is one. */
  function OpeningAt(s: String, p: nat): (r: Option<Opening>)
    requires p <= |s|
    ensures r.Some? ==> p + |FENCE| <= r.value.tagStart < r.value.bodyStart <= |s|
  {
    if !LineStart(s, p) then None
    else
      var q := RunEnd(s, p, IsBlank);
      if !OccursAt(s, FENCE, q) then None
      else
        var t := q + |FENCE|;
        var w := RunEnd(s, t, IsWordChar);
        if w == t || w == |s| || s[w] != '\n' then None
        else Some(Opening(t, s[t..w], w + 1))
  }

  /** The match the pattern makes when tried at `p`. */
  function MatchAt(s: String, p: nat): (r: Option<FenceMatch>)
    requires p <= |s|
    ensures r.Some? ==> r.value.start == p < r.value.tagStart < r.value.bodyStart <= r.value.bodyEnd < r.value.end <= |s|
  {
    match OpeningAt(s, p)
    case None => None
    case Some(o) =>
      match FirstFence(s, o.bodyStart)
      case None => None
      case Some(k) => Some(FenceMatch(p, o.tagStart, o.language, o.bodyStart, k, RunEnd(s, k, IsBlank) + |FENCE|))
  }

  /**
   * The shape of the pattern: blanks from a line start, a fence, a word-character tag and
   * a newline, then a body holding no line-start fence, then a closing fence.
   */
  predicate IsFenceMatch(s: String, m: FenceMatch)
  {
    && m.start + |FENCE| <= m.tagStart < m.bodyStart <= m.bodyEnd < m.end <= |s|
    && LineStart(s, m.start)
    && (forall k :: m.start <= k < m.tagStart - |FENCE| ==> IsBlank(s[k]))
    && OccursAt(s, FENCE, m.tagStart - |FENCE|)
    && m.language == s[m.tagStart..m.bodyStart - 1]
    && m.language != [] && (forall c :: c in m.language ==> IsWordChar(c))
    && s[m.bodyStart - 1] == '\n'
    && (forall k :: m.bodyStart <= k < m.bodyEnd ==> !FenceAt(s, k))
    && FenceAt(s, m.bodyEnd)
    && m.end == RunEnd(s, m.bodyEnd, IsBlank) + |FENCE|
  }

  /** What the scanner matches has the shape of the pattern. */
  lemma MatchAtSound(s: String, p: nat)
    requires p <= |s| && MatchAt(s, p).Some?
    ensures IsFenceMatch(s, MatchAt(s, p).value)
  {
    var m := MatchAt(s, p).value;
    forall c | c in m.language ensures IsWordChar(c) {
      var i :| 0 <= i < |m.language| && m.language[i] == c;
      assert c == s[m.tagStart + i];
    }
  }

  /** A fence found by the scanner is the first at or after `i`. */
  lemma FirstFenceExact(s: String, i: nat, k: nat)
    requires i <= k <= |s| && FenceAt(s, k)
    requires forall j :: i <= j < k ==> !FenceAt(s, j)
    ensures FirstFence(s, i).Some? && FirstFence(s, i).value == k
  {
  }

  /** The scanner's verdict once the blank run, the fence and the tag run are known. */
  lemma OpeningAtOfRuns(s: String, p: nat, q: nat, w: nat)
    requires LineStart(s, p) && q <= |s| && RunEnd(s, p, IsBlank) == q && OccursAt(s, FENCE, q)
    requires q + |FENCE| < w < |s| && RunEnd(s, q + |FENCE|, IsWordChar) == w && s[w] == '\n'
    ensures OpeningAt(s, p).Some?
    ensures OpeningAt(s, p).value == Opening(q + |FENCE|, s[q + |FENCE|..w], w + 1)
  {
  }

  /** The pattern tried at each position of `s`. */
  function FenceMatcher(s: String): nat -> Option<FenceMatch>
  {
    (q: nat) => if q <= |s| then MatchAt(s, q) else None
  }

  function MatchStart(m: FenceMatch): nat { m.start }

  function MatchEnd(m: FenceMatch): nat { m.end }

  lemma FenceMatcherAdvances(s: String)
    ensures Advances(|s|, FenceMatcher(s), MatchStart, MatchEnd)
  {
  }

  /** The matches of `re.finditer` over the whole document, left to right. */
  function Fences(s: String): seq<FenceMatch>
  {
    FenceMatcherAdvances(s);
    Scan(|s|, FenceMatcher(s), MatchStart, MatchEnd, 0)
  }

  /** Fences come in document order and each lies within the text. */
  lemma FencesOrdered(s: String)
    ensures forall i :: 0 <= i < |Fences(s)| ==> Fences(s)[i].start < Fences(s)[i].end <= |s|
    ensures forall i, j :: 0 <= i < j < |Fences(s)| ==> Fences(s)[i].end <= Fences(s)[j].start
  {
    FenceMatcherAdvances(s);
    ScanOrdered(|s|, FenceMatcher(s), MatchStart, MatchEnd, 0);
  }

  /** Every reported match has the shape of the pattern. */
  lemma FencesAreFences(s: String, i: nat)
    requires i < |Fences(s)|
    ensures IsFenceMatch(s, Fences(s)[i])
  {
    FenceMatcherAdvances(s);
    ScanFound(|s|, FenceMatcher(s), MatchStart, MatchEnd, 0, i);
    FencesOrdered(s);
    MatchAtSound(s, Fences(s)[i].start);
  }

  /** An opening line with the shape of the pattern is what the scanner reads as the opening at `p`. */
  lemma OpeningOfShape(s: String, p: nat, q: nat, language: String, bodyStart: nat)
    requires LineStart(s, p) && p <= q && q + |FENCE| < bodyStart <= |s|
    requires forall k :: p <= k < q ==> IsBlank(s[k])
    requires OccursAt(s, FENCE, q)
    requires language == s[q + |FENCE|..bodyStart - 1] && language != []
    requires forall c :: c in language ==> IsWordChar(c)
    requires s[bodyStart - 1] == '\n'
    ensures OpeningAt(s, p).Some? && OpeningAt(s, p).value == Opening(q + |FENCE|, language, bodyStart)
  {
    var t := q + |FENCE|;
    var w := bodyStart - 1;
    assert RunEnd(s, p, IsBlank) == q by {
      assert s[q] == FENCE[0];
      RunEndExact(s, p, q, IsBlank);
    }
    assert RunEnd(s, t, IsWordChar) == w by {
      assert OccursAt(s, language, t) by {
        assert s[t..t + |language|] == language;
      }
      RunEndOver(s, t, language, IsWordChar);
    }
    OpeningAtOfRuns(s, p, q, w);
  }

  /** Conversely to `MatchAtSound`: any text with the shape of the pattern at `m.start` is the match made there. */
  lemma MatchAtExact(s: String, m: FenceMatch)
    requires IsFenceMatch(s, m)
    ensures MatchAt(s, m.start).Some? && MatchAt(s, m.start).value == m
  {
    OpeningOfShape(s, m.start, m.tagStart - |FENCE|, m.language, m.bodyStart);
    assert FirstFence(s, m.bodyStart).Some? && FirstFence(s, m.bodyStart).value == m.bodyEnd by {
      FirstFenceExact(s, m.bodyStart, m.bodyEnd);
    }
  }

  /**
   * Completeness: every stretch of text with the shape of the pattern is reported, unless
   * it starts inside a block reported before it.
   */
  lemma FencesComplete(s: String, m: FenceMatch)
    requires IsFenceMatch(s, m)
    ensures exists i :: 0 <= i < |Fences(s)| && Fences(s)[i].start <= m.start < Fences(s)[i].end
  {
    FenceMatcherAdvances(s);
    MatchAtExact(s, m);
    if Uncovered(Fences(s), MatchStart, MatchEnd, m.start) {
      ScanLeftmost(|s|, FenceMatcher(s), MatchStart, MatchEnd, 0, m.start);
      assert false;
    }
  }

  /** `content[:start].count('\n') + 1` */
  function LineNumber(s: String, start: nat): nat
    requires start <= |s|
  {
    CountChar(s[..start], '\n') + 1
  }

  /** The block recorded for match `m`: its body after the REPLACE rules enclosing its start. */
  function BlockOf(s: String, path: String, regions: seq<Region>, m: FenceMatch): CodeBlock
    requires m.start <= m.bodyStart <= m.bodyEnd <= |s|
  {
    CodeBlock(m.language, ApplyTags(s[m.bodyStart..m.bodyEnd], m.start, regions), LineNumber(s, m.start), path)
  }

  /** What `extract_code_blocks` returns for a document with text `s` read from `path`. */
  function CodeBlocksOf(s: String, path: String): (r: seq<CodeBlock>)
    ensures |r| == |Fences(s)|
  {
    var ms := Fences(s);
    forall i | 0 <= i < |ms| ensures ms[i].start <= ms[i].bodyStart <= ms[i].bodyEnd <= |s| {
      FencesAreFences(s, i);
    }
    seq(|ms|, i requires 0 <= i < |ms| => BlockOf(s, path, Regions(s), ms[i]))
  }

  /** The `i`-th block is the one recorded for the `i`-th match. */
  lemma BlockAt(s: String, path: String, i: nat)
    requires i < |Fences(s)|
    ensures Fences(s)[i].start <= Fences(s)[i].bodyStart <= Fences(s)[i].bodyEnd <= |s|
    ensures CodeBlocksOf(s, path)[i] == BlockOf(s, path, Regions(s), Fences(s)[i])
  {
    FencesAreFences(s, i);
  }

  /** A newline at `nl` between `a` and `b` puts the line count at `b` above the one at `a`. */
  lemma LineNumberGrows(s: String, a: nat, nl: nat, b: nat)
    requires a <= nl < b <= |s| && s[nl] == '\n'
    ensures LineNumber(s, a) < LineNumber(s, b)
  {
    assert s[..b] == s[..a] + s[a..b];
    CountCharAppend(s[..a], s[a..b], '\n');
    CountCharPositive(s[a..b], '\n', nl - a);
  }

  /** Blocks come in document order: their line numbers strictly increase. */
  lemma BlocksInOrder(s: String, path: String, i: nat, j: nat)
    requires i < j < |CodeBlocksOf(s, path)|
    ensures CodeBlocksOf(s, path)[i].lineNumber < CodeBlocksOf(s, path)[j].lineNumber
  {
    var ms := Fences(s);
    var a, nl, b := ms[i].start, ms[i].bodyStart - 1, ms[j].start;
    assert a <= nl < b <= |s| && s[nl] == '\n' by {
      FencesOrdered(s);
      FencesAreFences(s, i);
    }
    LineNumberGrows(s, a, nl, b);
    assert CodeBlocksOf(s, path)[i].lineNumber == LineNumber(s, a) by {
      BlockAt(s, path, i);
    }
    assert CodeBlocksOf(s, path)[j].lineNumber == LineNumber(s, b) by {
      BlockAt(s, path, j);
    }
  }

  /** A block whose fence lies outside every REPLACE region keeps its body verbatim. */
  lemma BlockOutsideRegions(s: String, path: String, i: nat)
    requires i < |Fences(s)|
    requires forall j :: 0 <= j < |Regions(s)| ==> !Encloses(Regions(s)[j], Fences(s)[i].start)
    ensures Fences(s)[i].bodyStart <= Fences(s)[i].bodyEnd <= |s|
    ensures CodeBlocksOf(s, path)[i].code == s[Fences(s)[i].bodyStart..Fences(s)[i].bodyEnd]
  {
    FencesAreFences(s, i);
    var m := Fences(s)[i];
    ApplyTagsOutside(s[m.bodyStart..m.bodyEnd], m.start, Regions(s));
  }

  /** The extraction loop: each match of the fence pattern, its body rewritten by the REPLACE rules around it. */
  method ExtractCodeBlocks(content: String, path: String) returns (blocks: seq<CodeBlock>)
    ensures blocks == CodeBlocksOf(content, path)
  {
    var replaceRegions := FindReplaceRegions(content);
    FenceMatcherAdvances(content);
    var matches := FindAll(|content|, FenceMatcher(content), MatchStart, MatchEnd);
    blocks := [];
    for i := 0 to |matches|
      invariant |blocks| == i
      invariant forall k :: 0 <= k < i ==> blocks[k] == CodeBlocksOf(content, path)[k]
    {
      var m := matches[i];
      BlockAt(content, path, i);
      var code := ApplyReplaceTags(content[m.bodyStart..m.bodyEnd], m.start, replaceRegions);
      var lineNumber := CountChar(content[..m.start], '\n') + 1;
      blocks := blocks + [CodeBlock(m.language, code, lineNumber, path)];
    }
  }
}
