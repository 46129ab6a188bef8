/**
 * REPLACE regions of a markdown document: a pair of tags
 * `<!--REPLACE_<FROM>_WITH_<TO>:START-->` ... `<!--REPLACE_<FROM>_WITH_<TO>:END-->`
 * whose rule rewrites FROM (ignoring case) to lower-cased TO in every snippet that
 * starts inside the pair (scripts/test_markdown_examples.py, `find_replace_regions`
 * and `apply_replace_tags`).
 *
 * The pattern `<!--REPLACE_([^_]+)_WITH_([^:]+):START-->(.*?)<!--REPLACE_\1_WITH_\2:END-->`
 * is read as a scanner: each greedy group stops at the first character of the literal
 * that follows it (which the group's class excludes), and the lazy body stops at the
 * first copy of the END tag that repeats both groups.
 */
module ReplaceTags {
  import opened Wrappers
  import opened Text
  import opened FindIter

  /** One match: its span `[start, end)` in the document and its FROM/TO rule. */
  datatype Region = Region(start: nat, end: nat, from: String, to: String)

  const TAG_OPEN: String := "<!--REPLACE_"
  const TAG_WITH: String := "_WITH_"
  const START_CLOSE: String := ":START-->"
  const END_CLOSE: String := ":END-->"

  function StartTag(from: String, to: String): String
  {
    TAG_OPEN + from + TAG_WITH + to + START_CLOSE
  }

  function EndTag(from: String, to: String): String
  {
    TAG_OPEN + from + TAG_WITH + to + END_CLOSE
  }

  predicate NotUnderscore(c: char) { c != '_' }

  predicate NotColon(c: char) { c != ':' }

  /** The tag grammar: FROM is `[^_]+` and TO is `[^:]+`. */
  predicate ValidRule(from: String, to: String)
  {
    from != [] && '_' !in from && to != [] && ':' !in to
  }

  /** A START tag read at some position: its rule and where the body begins. */
  datatype OpenTag = OpenTag(from: String, to: String, bodyStart: nat)

  /** The START tag at `p`, if the text there is one. */
  function StartTagAt(s: String, p: nat): (r: Option<OpenTag>)
    requires p <= |s|
    ensures r.Some? ==> ValidRule(r.value.from, r.value.to)
    ensures r.Some? ==> r.value.bodyStart == p + |StartTag(r.value.from, r.value.to)| <= |s|
  {
    if !OccursAt(s, TAG_OPEN, p) then None
    else
      var a := p + |TAG_OPEN|;
      var b := RunEnd(s, a, NotUnderscore);
      if b == a || !OccursAt(s, TAG_WITH, b) then None
      else
        var c := b + |TAG_WITH|;
        var d := RunEnd(s, c, NotColon);
        if d == c || !OccursAt(s, START_CLOSE, d) then None
        else Some(OpenTag(s[a..b], s[c..d], d + |START_CLOSE|))
  }

  /** What the scanner reads as a START tag is one: the tag text for its rule stands at `p`. */
  lemma StartTagAtSound(s: String, p: nat)
    requires p <= |s| && StartTagAt(s, p).Some?
    ensures OccursAt(s, StartTag(StartTagAt(s, p).value.from, StartTagAt(s, p).value.to), p)
  {
    var a := p + |TAG_OPEN|;
    var b := RunEnd(s, a, NotUnderscore);
    var c := b + |TAG_WITH|;
    var d := RunEnd(s, c, NotColon);
    assert OccursAt(s, TAG_OPEN, p) && OccursAt(s, TAG_WITH, b) && OccursAt(s, START_CLOSE, d);
    assert OccursAt(s, s[a..b], a) by {
      assert s[a..a + |s[a..b]|] == s[a..b];
    }
    assert OccursAt(s, s[c..d], c) by {
      assert s[c..c + |s[c..d]|] == s[c..d];
    }
    StartTagParts(s, p, s[a..b], s[c..d]);
  }

  lemma StartTagParts(s: String, p: nat, from: String, to: String)
    requires OccursAt(s, TAG_OPEN, p)
    requires OccursAt(s, from, p + |TAG_OPEN|)
    requires OccursAt(s, TAG_WITH, p + |TAG_OPEN| + |from|)
    requires OccursAt(s, to, p + |TAG_OPEN| + |from| + |TAG_WITH|)
    requires OccursAt(s, START_CLOSE, p + |TAG_OPEN| + |from| + |TAG_WITH| + |to|)
    ensures OccursAt(s, StartTag(from, to), p)
  {
    OccursAtJoin(s, TAG_OPEN, from, p);
    OccursAtJoin(s, TAG_OPEN + from, TAG_WITH, p);
    OccursAtJoin(s, TAG_OPEN + from + TAG_WITH, to, p);
    OccursAtJoin(s, TAG_OPEN + from + TAG_WITH + to, START_CLOSE, p);
  }

  /** The scanner's verdict once the two group runs and the three literals around them are known. */
  lemma StartTagAtOfRuns(s: String, p: nat, b: nat, d: nat)
    requires p + |TAG_OPEN| < b && b + |TAG_WITH| < d
    requires OccursAt(s, TAG_OPEN, p) && RunEnd(s, p + |TAG_OPEN|, NotUnderscore) == b
    requires OccursAt(s, TAG_WITH, b) && RunEnd(s, b + |TAG_WITH|, NotColon) == d
    requires OccursAt(s, START_CLOSE, d)
    ensures StartTagAt(s, p).Some?
    ensures StartTagAt(s, p).value == OpenTag(s[p + |TAG_OPEN|..b], s[b + |TAG_WITH|..d], d + |START_CLOSE|)
  {
  }

  /** The scanner reads exactly the tags of the grammar: any well-formed START tag is found, with its rule. */
  lemma StartTagExact(s: String, p: nat, from: String, to: String)
    requires p <= |s|
    requires ValidRule(from, to) && OccursAt(s, StartTag(from, to), p)
    ensures StartTagAt(s, p).Some?
    ensures StartTagAt(s, p).value == OpenTag(from, to, p + |StartTag(from, to)|)
  {
    OccursAtSplit(s, TAG_OPEN + from + TAG_WITH + to, START_CLOSE, p);
    OccursAtSplit(s, TAG_OPEN + from + TAG_WITH, to, p);
    OccursAtSplit(s, TAG_OPEN + from, TAG_WITH, p);
    OccursAtSplit(s, TAG_OPEN, from, p);
    var b := p + |TAG_OPEN| + |from|;
    var d := b + |TAG_WITH| + |to|;
    assert s[b] == TAG_WITH[0];
    assert s[d] == START_CLOSE[0];
    RunEndOver(s, p + |TAG_OPEN|, from, NotUnderscore);
    RunEndOver(s, b + |TAG_WITH|, to, NotColon);
    StartTagAtOfRuns(s, p, b, d);
  }

  /** The text of `r` is its START tag, then a body holding no copy of its END tag, then its END tag. */
  predicate IsRegion(s: String, r: Region)
  {
    && ValidRule(r.from, r.to)
    && r.start + |StartTag(r.from, r.to)| + |EndTag(r.from, r.to)| <= r.end <= |s|
    && OccursAt(s, StartTag(r.from, r.to), r.start)
    && OccursAt(s, EndTag(r.from, r.to), r.end - |EndTag(r.from, r.to)|)
    && forall k :: r.start + |StartTag(r.from, r.to)| <= k < r.end - |EndTag(r.from, r.to)|
                   ==> !OccursAt(s, EndTag(r.from, r.to), k)
  }

  /** The match the pattern makes when tried at `p`. */
  function RegionAt(s: String, p: nat): (r: Option<Region>)
    requires p <= |s|
    ensures r.Some? ==> r.value.start == p < r.value.end <= |s|
  {
    match StartTagAt(s, p)
    case None => None
    case Some(tag) =>
      var endTag := EndTag(tag.from, tag.to);
      match FindFrom(s, endTag, tag.bodyStart)
      case None => None
      case Some(k) => Some(Region(p, k + |endTag|, tag.from, tag.to))
  }

  /** Every match is a START tag, a body with no copy of the matching END tag, and that END tag. */
  lemma RegionAtIsRegion(s: String, p: nat)
    requires p <= |s| && RegionAt(s, p).Some?
    ensures IsRegion(s, RegionAt(s, p).value)
  {
    StartTagAtSound(s, p);
  }

  /** The pattern tried at each position of `s`. */
  function RegionMatcher(s: String): nat -> Option<Region>
  {
    (q: nat) => if q <= |s| then RegionAt(s, q) else None
  }

  function RegionStart(r: Region): nat { r.start }

  function RegionEnd(r: Region): nat { r.end }

  lemma RegionMatcherAdvances(s: String)
    ensures Advances(|s|, RegionMatcher(s), RegionStart, RegionEnd)
  {
  }

  /** `find_replace_regions`: the matches of `re.finditer`, left to right. */
  function Regions(s: String): seq<Region>
  {
    RegionMatcherAdvances(s);
    Scan(|s|, RegionMatcher(s), RegionStart, RegionEnd, 0)
  }

  /** Regions come in increasing position order, do not overlap, and are not empty. */
  lemma RegionsOrdered(s: String)
    ensures forall i :: 0 <= i < |Regions(s)| ==> Regions(s)[i].start < Regions(s)[i].end <= |s|
    ensures forall i, j :: 0 <= i < j < |Regions(s)| ==> Regions(s)[i].end <= Regions(s)[j].start
  {
    RegionMatcherAdvances(s);
    ScanOrdered(|s|, RegionMatcher(s), RegionStart, RegionEnd, 0);
  }

  /** Every reported region is a tag pair of the grammar whose END tag repeats its START tag's rule. */
  lemma RegionsAreRegions(s: String, i: nat)
    requires i < |Regions(s)|
    ensures IsRegion(s, Regions(s)[i])
  {
    RegionMatcherAdvances(s);
    ScanFound(|s|, RegionMatcher(s), RegionStart, RegionEnd, 0, i);
    RegionsOrdered(s);
    RegionAtIsRegion(s, Regions(s)[i].start);
  }

  /** `RegionAt` assembles its match from the START tag the scanner reads and the first END tag after it. */
  lemma RegionAtOfParts(s: String, p: nat, tag: OpenTag, k: nat)
    requires p <= |s| && StartTagAt(s, p).Some? && StartTagAt(s, p).value == tag
    requires FindFrom(s, EndTag(tag.from, tag.to), tag.bodyStart) == Some(k)
    ensures RegionAt(s, p).Some?
    ensures RegionAt(s, p).value == Region(p, k + |EndTag(tag.from, tag.to)|, tag.from, tag.to)
  {
  }

  /** Conversely to `RegionAtIsRegion`: every region of the grammar that starts at `p` is the match made there. */
  lemma RegionAtExact(s: String, r: Region)
    requires IsRegion(s, r)
    ensures RegionAt(s, r.start).Some? && RegionAt(s, r.start).value == r
  {
    var tag := OpenTag(r.from, r.to, r.start + |StartTag(r.from, r.to)|);
    var k := r.end - |EndTag(r.from, r.to)|;
    StartTagExact(s, r.start, r.from, r.to);
    FindFromExact(s, EndTag(r.from, r.to), tag.bodyStart, k);
    RegionAtOfParts(s, r.start, tag, k);
  }

  /**
   * Completeness: every tag pair of the grammar is reported, unless it starts inside a
   * region reported before it. Unpartnered START tags and END tags that do not repeat
   * FROM and TO are passed over without a report.
   */
  lemma RegionsComplete(s: String, r: Region)
    requires IsRegion(s, r)
    ensures exists i :: 0 <= i < |Regions(s)| && Regions(s)[i].start <= r.start < Regions(s)[i].end
  {
    RegionMatcherAdvances(s);
    RegionAtExact(s, r);
    if Uncovered(Regions(s), RegionStart, RegionEnd, r.start) {
      ScanLeftmost(|s|, RegionMatcher(s), RegionStart, RegionEnd, 0, r.start);
      assert false;
    }
  }

  /** A document that is exactly one tag pair (a START tag, a body without its END tag, the END tag) yields exactly that region. */
  lemma SingleRegion(s: String, from: String, to: String)
    requires IsRegion(s, Region(0, |s|, from, to))
    ensures Regions(s) == [Region(0, |s|, from, to)]
  {
    RegionMatcherAdvances(s);
    RegionAtExact(s, Region(0, |s|, from, to));
    ScanHit(|s|, RegionMatcher(s), RegionStart, RegionEnd, 0);
  }

  /** `find_replace_regions`: every match of the tag pattern, collected in a list. */
  method FindReplaceRegions(content: String) returns (regions: seq<Region>)
    ensures regions == Regions(content)
  {
    RegionMatcherAdvances(content);
    regions := FindAll(|content|, RegionMatcher(content), RegionStart, RegionEnd);
  }

  /** `start_pos <= code_start_pos <= end_pos`: both ends inclusive. */
  predicate Encloses(r: Region, pos: nat)
  {
    r.start <= pos <= r.end
  }

  /** The snippet after the rule of every region enclosing `pos` is applied, in list order. */
  function ApplyTags(code: String, pos: nat, regions: seq<Region>): String
    decreases |regions|
  {
    if regions == [] then code
    else
      var r := regions[0];
      ApplyTags(if Encloses(r, pos) then ReplaceIgnoreCase(code, r.from, LowerStr(r.to)) else code,
                pos, regions[1..])
  }

  method ApplyReplaceTags(code: String, codeStartPos: nat, replaceRegions: seq<Region>) returns (result: String)
    ensures result == ApplyTags(code, codeStartPos, replaceRegions)
  {
    result := code;
    var i := 0;
    while i < |replaceRegions|
      invariant 0 <= i <= |replaceRegions|
      invariant ApplyTags(result, codeStartPos, replaceRegions[i..]) == ApplyTags(code, codeStartPos, replaceRegions)
    {
      var r := replaceRegions[i];
      assert replaceRegions[i..][1..] == replaceRegions[i + 1..];
      if r.start <= codeStartPos <= r.end {
        result := ReplaceIgnoreCase(result, r.from, LowerStr(r.to));
      }
      i := i + 1;
    }
  }

  /** A snippet starting outside every region is left unchanged, whatever text it holds. */
  lemma {:induction false} ApplyTagsOutside(code: String, pos: nat, regions: seq<Region>)
    requires forall i :: 0 <= i < |regions| ==> !Encloses(regions[i], pos)
    ensures ApplyTags(code, pos, regions) == code
  {
    if regions != [] {
      ApplyTagsOutside(code, pos, regions[1..]);
    }
  }

  /** Rules apply in list order: the regions of `a` first, then those of `b` to the result. */
  lemma {:induction false} ApplyTagsConcat(code: String, pos: nat, a: seq<Region>, b: seq<Region>)
    ensures ApplyTags(code, pos, a + b) == ApplyTags(ApplyTags(code, pos, a), pos, b)
    decreases |a|
  {
    if a != [] {
      assert (a + b)[0] == a[0] && (a + b)[1..] == a[1..] + b;
      var r := a[0];
      ApplyTagsConcat(if Encloses(r, pos) then ReplaceIgnoreCase(code, r.from, LowerStr(r.to)) else code,
                      pos, a[1..], b);
    } else {
      assert a + b == b;
    }
  }

  /** Inside exactly one region, every case-insensitive FROM becomes lower-cased TO, and nothing else changes. */
  lemma ApplyTagsInsideOne(code: String, pos: nat, regions: seq<Region>, i: nat)
    requires i < |regions| && Encloses(regions[i], pos)
    requires forall j :: 0 <= j < |regions| && j != i ==> !Encloses(regions[j], pos)
    ensures ApplyTags(code, pos, regions) ==
            ReplaceIgnoreCase(code, regions[i].from, LowerStr(regions[i].to))
  {
    var r := regions[i];
    assert regions == regions[..i] + ([r] + regions[i + 1..]);
    ApplyTagsConcat(code, pos, regions[..i], [r] + regions[i + 1..]);
    ApplyTagsOutside(code, pos, regions[..i]);
    var replaced := ReplaceIgnoreCase(code, r.from, LowerStr(r.to));
    assert ([r] + regions[i + 1..])[1..] == regions[i + 1..];
    assert ApplyTags(code, pos, [r] + regions[i + 1..]) == ApplyTags(replaced, pos, regions[i + 1..]);
    var after := regions[i + 1..];
    forall j | 0 <= j < |after| ensures !Encloses(after[j], pos) {
      assert after[j] == regions[i + 1 + j];
    }
    ApplyTagsOutside(replaced, pos, regions[i + 1..]);
  }
}
