/**
 * The output-region renderer (scripts/generate_markdown_outputs.py): for every
 * `<!-- AUTO-GENERATED:START -->` … `END` region (and its `-FULL` variant) it runs the last
 * bash block written before the region and puts the command's output between the markers.
 * The shell is an abstract function from the prepared command to its result; reading and
 * writing the file is left to the caller, which receives the text to write, if any.
 */
module OutputRender {
  import opened Wrappers
  import opened Text
  import opened FindIter
  import opened Folds
  import SnippetRunner

  /** A stretch `[start, end)` of a text that a pattern matched. */
  datatype Span = Span(start: nat, end: nat)

  function SpanStart(m: Span): nat { m.start }

  function SpanEnd(m: Span): nat { m.end }

  function Deleted(m: Span): String { [] }

  // ---------------------------------------------------------------- prepare_bash_code

  /** The output files this renderer points into the scratch directory; unlike the tester, by plain substring replacement. */
  const OUTPUT_FILES: seq<String> := ["hypermethylated_reads.txt", "hypermethylated.bam", "densities.tsv"]

  /** `prepared.replace(outfile, str(work_dir / outfile))` for each output file, in list order. */
  function RenameOutputs(s: String, names: seq<String>, workDir: String): String
    decreases |names|
  {
    if names == [] then s
    else RenameOutputs(Replace(s, names[0], workDir + "/" + names[0]), names[1..], workDir)
  }

  /** What every genomic coordinate in a snippet is replaced by, so that it names a contig of the generated test data. */
  const CONTIG_REGION: String := "contig_00000:0-500"

  function ContigRegion(m: Span): String { CONTIG_REGION }

  /**
   * `chr\d+:\d+-\d+` tried at `q`. Each digit run is greedy and is followed by a character that
   * is not a digit, so each is the longest run of digits there.
   */
  function CoordAt(s: String, q: nat): (r: Option<Span>)
    ensures r.Some? ==> r.value.start == q < r.value.end <= |s|
  {
    if !OccursAt(s, "chr", q) then None
    else
      var b := RunEnd(s, q + 3, IsDigit);
      if b == q + 3 || b == |s| || s[b] != ':' then None
      else
        var c := RunEnd(s, b + 1, IsDigit);
        if c == b + 1 || c == |s| || s[c] != '-' then None
        else
          var d := RunEnd(s, c + 1, IsDigit);
          if d == c + 1 then None else Some(Span(q, d))
  }

  function CoordMatcher(s: String): nat -> Option<Span>
  {
    (q: nat) => CoordAt(s, q)
  }

  lemma CoordMatcherAdvances(s: String)
    ensures Advances(|s|, CoordMatcher(s), SpanStart, SpanEnd)
  {
  }

  /** `re.sub(r'chr\d+:\d+-\d+', 'contig_00000:0-500', s)` */
  function ReplaceCoords(s: String): String
  {
    CoordMatcherAdvances(s);
    Sub(s, CoordMatcher(s), SpanStart, SpanEnd, ContigRegion, 0)
  }

  predicate AllDigits(x: String) { forall c :: c in x ==> IsDigit(c) }

  /** A coordinate match is `chr`, digits, `:`, digits, `-`, digits, and the last run of digits is not cut short. */
  lemma CoordAtShape(s: String, q: nat)
    requires CoordAt(s, q).Some?
    ensures exists b, c :: q + 3 < b && b + 1 < c && c + 1 < CoordAt(s, q).value.end &&
              OccursAt(s, "chr", q) && s[b] == ':' && s[c] == '-' &&
              AllDigits(s[q + 3..b]) && AllDigits(s[b + 1..c]) && AllDigits(s[c + 1..CoordAt(s, q).value.end])
    ensures CoordAt(s, q).value.end == |s| || !IsDigit(s[CoordAt(s, q).value.end])
  {
    var b := RunEnd(s, q + 3, IsDigit);
    var c := RunEnd(s, b + 1, IsDigit);
    var d := RunEnd(s, c + 1, IsDigit);
    assert AllDigits(s[q + 3..b]) && AllDigits(s[b + 1..c]) && AllDigits(s[c + 1..d]);
  }

  /** A whole coordinate is recognised at its start, up to the end of its last digit run. */
  lemma CoordAtExact(s: String, q: nat, x: String, y: String, z: String)
    requires x != [] && y != [] && z != [] && AllDigits(x) && AllDigits(y) && AllDigits(z)
    requires OccursAt(s, "chr", q) && OccursAt(s, x, q + 3)
    requires q + 3 + |x| < |s| && s[q + 3 + |x|] == ':' && OccursAt(s, y, q + 4 + |x|)
    requires q + 4 + |x| + |y| < |s| && s[q + 4 + |x| + |y|] == '-' && OccursAt(s, z, q + 5 + |x| + |y|)
    requires q + 5 + |x| + |y| + |z| == |s| || !IsDigit(s[q + 5 + |x| + |y| + |z|])
    ensures CoordAt(s, q).Some? && CoordAt(s, q).value == Span(q, q + 5 + |x| + |y| + |z|)
  {
    var b := q + 3 + |x|;
    var c := b + 1 + |y|;
    DigitRun(s, q + 3, x);
    DigitRun(s, b + 1, y);
    DigitRun(s, c + 1, z);
    CoordAtOfRuns(s, q, b, c, c + 1 + |z|);
  }

  /** A run of digits written at `i` and not followed by a digit is the whole digit run there. */
  lemma DigitRun(s: String, i: nat, x: String)
    requires AllDigits(x) && OccursAt(s, x, i)
    requires i + |x| == |s| || !IsDigit(s[i + |x|])
    ensures RunEnd(s, i, IsDigit) == i + |x|
  {
    RunEndOver(s, i, x, IsDigit);
  }

  /** The coordinate match from its three digit runs. */
  lemma CoordAtOfRuns(s: String, q: nat, b: nat, c: nat, d: nat)
    requires OccursAt(s, "chr", q)
    requires q + 3 < b < |s| && RunEnd(s, q + 3, IsDigit) == b && s[b] == ':'
    requires b + 1 < c < |s| && RunEnd(s, b + 1, IsDigit) == c && s[c] == '-'
    requires c + 1 < d && RunEnd(s, c + 1, IsDigit) == d
    ensures CoordAt(s, q).Some? && CoordAt(s, q).value == Span(q, d)
  {
  }

  /** A command that is just one coordinate becomes the placeholder region. */
  lemma CoordReplaced(x: String, y: String, z: String)
    requires x != [] && y != [] && z != [] && AllDigits(x) && AllDigits(y) && AllDigits(z)
    ensures ReplaceCoords("chr" + x + ":" + y + "-" + z) == CONTIG_REGION
  {
    var s := "chr" + x + ":" + y + "-" + z;
    var b := 3 + |x|;
    var c := b + 1 + |y|;
    assert OccursAt(s, "chr", 0) && OccursAt(s, x, 3) by {
      assert s[0..3] == "chr" && s[3..b] == x;
    }
    assert s[b] == ':' && OccursAt(s, y, b + 1) by {
      assert s[b + 1..c] == y;
    }
    assert s[c] == '-' && OccursAt(s, z, c + 1) by {
      assert s[c + 1..] == z;
    }
    CoordAtExact(s, 0, x, y, z);
    CoordMatcherAdvances(s);
    assert Sub(s, CoordMatcher(s), SpanStart, SpanEnd, ContigRegion, 0) ==
           CONTIG_REGION + Sub(s, CoordMatcher(s), SpanStart, SpanEnd, ContigRegion, |s|);
  }

  /** A snippet in which `chr` never occurs keeps its text. */
  lemma NoCoordUnchanged(s: String)
    requires forall q :: 0 <= q < |s| ==> !OccursAt(s, "chr", q)
    ensures ReplaceCoords(s) == s
  {
    CoordMatcherAdvances(s);
    ScanEmpty(|s|, CoordMatcher(s), SpanStart, SpanEnd, 0);
    SubNoMatch(s, CoordMatcher(s), SpanStart, SpanEnd, ContigRegion, 0);
  }

  /** The last newline in `s[lo..hi]`, if there is one. */
  function LastNewline(s: String, lo: nat, hi: nat): (r: Option<nat>)
    requires lo <= hi <= |s|
    ensures r.Some? ==> lo <= r.value < hi && s[r.value] == '\n' && forall g :: r.value < g < hi ==> s[g] != '\n'
    ensures r.None? ==> forall g :: lo <= g < hi ==> s[g] != '\n'
    decreases hi - lo
  {
    if hi == lo then None
    else if s[hi - 1] == '\n' then Some(hi - 1)
    else LastNewline(s, lo, hi - 1)
  }

  /**
   * `\s*>\s*\S+\.tsv\s*$` (MULTILINE) tried at `q`. The leading whitespace must run right up to
   * `>`; the file name is the whole run of non-space characters after it and must end in `.tsv`
   * with at least one character before; the trailing `\s*` backs off to the last place where `$`
   * holds, which is the end of the text or the last newline of the whitespace that follows.
   */
  function RedirectAt(s: String, q: nat): (r: Option<Span>)
    ensures r.Some? ==> r.value.start == q < r.value.end <= |s|
  {
    if q > |s| then None
    else
      var w := RunEnd(s, q, IsSpace);
      if w == |s| || s[w] != '>' then None
      else
        var r := RunEnd(s, w + 1, IsSpace);
        var e := RunEnd(s, r, IsNonSpace);
        if e < r + 5 || !OccursAt(s, ".tsv", e - 4) then None
        else
          var f := RunEnd(s, e, IsSpace);
          if f == |s| then Some(Span(q, f))
          else
            match LastNewline(s, e, f)
            case None => None
            case Some(g) => Some(Span(q, g))
  }

  function RedirectMatcher(s: String): nat -> Option<Span>
  {
    (q: nat) => RedirectAt(s, q)
  }

  lemma RedirectMatcherAdvances(s: String)
    ensures Advances(|s|, RedirectMatcher(s), SpanStart, SpanEnd)
  {
  }

  /** `re.sub(r'\s*>\s*\S+\.tsv\s*$', '', s, flags=re.MULTILINE)` */
  function StripRedirects(s: String): String
  {
    RedirectMatcherAdvances(s);
    Sub(s, RedirectMatcher(s), SpanStart, SpanEnd, Deleted, 0)
  }

  /** A redirect match ends where `$` holds: at the end of the text or just before a newline. */
  lemma RedirectEndsAtLineEnd(s: String, q: nat)
    requires RedirectAt(s, q).Some?
    ensures RedirectAt(s, q).value.end == |s| || s[RedirectAt(s, q).value.end] == '\n'
    ensures '>' in s[q..RedirectAt(s, q).value.end]
  {
    var w := RunEnd(s, q, IsSpace);
    assert s[q..RedirectAt(s, q).value.end][w - q] == '>';
  }

  /** Every redirect match contains a `>`. */
  lemma RedirectHasArrow(s: String, q: nat)
    ensures RedirectAt(s, q).Some? ==> '>' in s
  {
    if RedirectAt(s, q).Some? {
      var w := RunEnd(s, q, IsSpace);
      assert s[w] == '>';
    }
  }

  /** A snippet without `>` keeps its text. */
  lemma NoRedirectUnchanged(s: String)
    requires '>' !in s
    ensures StripRedirects(s) == s
  {
    RedirectMatcherAdvances(s);
    forall q: nat | q < |s| ensures RedirectAt(s, q).None? {
      RedirectHasArrow(s, q);
    }
    ScanEmpty(|s|, RedirectMatcher(s), SpanStart, SpanEnd, 0);
    SubNoMatch(s, RedirectMatcher(s), SpanStart, SpanEnd, Deleted, 0);
  }

  /** The redirect match from its runs: the whitespace up to `>`, the whitespace after it, and a file name reaching the end. */
  lemma RedirectAtOfRuns(s: String, q: nat, w: nat, r: nat)
    requires q <= w < |s| && RunEnd(s, q, IsSpace) == w && s[w] == '>'
    requires RunEnd(s, w + 1, IsSpace) == r && RunEnd(s, r, IsNonSpace) == |s|
    requires r + 5 <= |s| && OccursAt(s, ".tsv", |s| - 4)
    ensures RedirectAt(s, q).Some? && RedirectAt(s, q).value == Span(q, |s|)
  {
    assert RunEnd(s, |s|, IsSpace) == |s|;
  }

  /** No redirect match starts inside a command that has no `>` and ends in a character that is not whitespace. */
  lemma NoRedirectInCommand(s: String, n: nat, q: nat)
    requires q < n <= |s| && '>' !in s[..n] && !IsSpace(s[n - 1])
    ensures RedirectAt(s, q).None?
  {
    var w := RunEnd(s, q, IsSpace);
    assert w < n;
    assert s[w] == s[..n][w];
  }

  /** ` > name.tsv` standing at `n` and running to the end of the text is one redirect match. */
  lemma RedirectAtEnd(s: String, n: nat)
    requires n + 8 <= |s| && s[n] == ' ' && s[n + 1] == '>' && s[n + 2] == ' '
    requires forall k :: n + 3 <= k < |s| ==> IsNonSpace(s[k])
    requires OccursAt(s, ".tsv", |s| - 4)
    ensures RedirectAt(s, n).Some? && RedirectAt(s, n).value == Span(n, |s|)
  {
    assert RunEnd(s, n + 1, IsSpace) == n + 1;
    assert RunEnd(s, n + 3, IsSpace) == n + 3;
    RunEndExact(s, n + 3, |s|, IsNonSpace);
    RedirectAtOfRuns(s, n, n + 1, n + 3);
  }

  /** When the only match is one running from `n` to the end, stripping keeps just the text before `n`. */
  lemma StripOnlyFinalRedirect(s: String, n: nat)
    requires n < |s| && forall q :: 0 <= q < n ==> RedirectAt(s, q).None?
    requires RedirectAt(s, n).Some? && RedirectAt(s, n).value == Span(n, |s|)
    ensures StripRedirects(s) == s[..n]
  {
    RedirectMatcherAdvances(s);
    SubSkip(s, RedirectMatcher(s), SpanStart, SpanEnd, Deleted, 0, n);
    assert Sub(s, RedirectMatcher(s), SpanStart, SpanEnd, Deleted, n) ==
           [] + Sub(s, RedirectMatcher(s), SpanStart, SpanEnd, Deleted, |s|);
  }

  /** `cmd > name.tsv` loses its redirect, when `cmd` has no `>` and does not end in whitespace. */
  lemma RedirectRemoved(cmd: String, name: String)
    requires '>' !in cmd && (cmd == [] || !IsSpace(cmd[|cmd| - 1]))
    requires name != [] && forall c :: c in name ==> IsNonSpace(c)
    ensures StripRedirects(cmd + " > " + name + ".tsv") == cmd
  {
    var s := cmd + " > " + name + ".tsv";
    var n := |cmd|;
    assert s[..n] == cmd;
    assert forall k :: n + 3 <= k < |s| - 4 ==> s[k] == name[k - n - 3];
    assert s[|s| - 4..] == ".tsv";
    forall q | 0 <= q < n ensures RedirectAt(s, q).None? {
      NoRedirectInCommand(s, n, q);
    }
    RedirectAtEnd(s, n);
    StripOnlyFinalRedirect(s, n);
  }

  /** The abstract shell the renderer runs a prepared command with. */
  datatype RenderEnv = RenderEnv(fixtures: seq<SnippetRunner.Fixture>, workDir: String,
                                 run: String -> SnippetRunner.ExecResult)

  /**
   * `prepare_bash_code`: fixture aliases, then output file names, both by plain substring
   * replacement; then coordinates; then trailing `.tsv` redirects.
   */
  function PrepareBash(code: String, env: RenderEnv): (r: String)
    ensures PlainCommand(code, env.fixtures) ==> r == code
  {
    PlainCommandKept(code, env.fixtures, env.workDir);
    StripRedirects(ReplaceCoords(RenameOutputs(SnippetRunner.ReplaceFixtures(code, env.fixtures), OUTPUT_FILES, env.workDir)))
  }

  /** A command that names no fixture and no output file, has no `chr` and no `>`. */
  predicate PlainCommand(code: String, fixtures: seq<SnippetRunner.Fixture>)
  {
    && (forall i :: 0 <= i < |fixtures| ==> Unmentioned(code, fixtures[i].alias))
    && (forall i :: 0 <= i < |OUTPUT_FILES| ==> Unmentioned(code, OUTPUT_FILES[i]))
    && Unmentioned(code, "chr")
    && '>' !in code
  }

  lemma PlainCommandKept(code: String, fixtures: seq<SnippetRunner.Fixture>, workDir: String)
    ensures PlainCommand(code, fixtures) ==>
              StripRedirects(ReplaceCoords(RenameOutputs(SnippetRunner.ReplaceFixtures(code, fixtures), OUTPUT_FILES, workDir))) == code
  {
    if PlainCommand(code, fixtures) {
      FixturesUnmentioned(code, fixtures);
      OutputsUnmentioned(code, OUTPUT_FILES, workDir);
      NoCoordUnchanged(code);
      NoRedirectUnchanged(code);
    }
  }

  lemma {:induction false} FixturesUnmentioned(s: String, fixtures: seq<SnippetRunner.Fixture>)
    requires forall i :: 0 <= i < |fixtures| ==> Unmentioned(s, fixtures[i].alias)
    ensures SnippetRunner.ReplaceFixtures(s, fixtures) == s
    decreases |fixtures|
  {
    if fixtures != [] {
      ReplaceUnmentioned(s, fixtures[0].alias, fixtures[0].path);
      assert forall i :: 0 <= i < |fixtures[1..]| ==> fixtures[1..][i] == fixtures[i + 1];
      FixturesUnmentioned(s, fixtures[1..]);
    }
  }

  lemma {:induction false} OutputsUnmentioned(s: String, names: seq<String>, workDir: String)
    requires forall i :: 0 <= i < |names| ==> Unmentioned(s, names[i])
    ensures RenameOutputs(s, names, workDir) == s
    decreases |names|
  {
    if names != [] {
      ReplaceUnmentioned(s, names[0], workDir + "/" + names[0]);
      assert forall i :: 0 <= i < |names[1..]| ==> names[1..][i] == names[i + 1];
      OutputsUnmentioned(s, names[1..], workDir);
    }
  }

  // ---------------------------------------------------------------- find_code_block_before_marker

  /** One match of ```` ```bash\n(.*?)``` ```` (DOTALL): the body runs to the first closing fence. */
  datatype BashBlock = BashBlock(start: nat, bodyStart: nat, bodyEnd: nat, end: nat)

  const BASH_OPEN: String := "```bash\n"

  const CLOSE_FENCE: String := "```"

  function BlockStart(m: BashBlock): nat { m.start }

  function BlockEnd(m: BashBlock): nat { m.end }

  function BashBlockAt(t: String, q: nat): (r: Option<BashBlock>)
    ensures r.Some? ==> r.value.start == q && q + |BASH_OPEN| == r.value.bodyStart <= r.value.bodyEnd
    ensures r.Some? ==> r.value.bodyEnd + |CLOSE_FENCE| == r.value.end <= |t|
  {
    if !OccursAt(t, BASH_OPEN, q) then None
    else
      match FindFrom(t, CLOSE_FENCE, q + |BASH_OPEN|)
      case None => None
      case Some(k) => Some(BashBlock(q, q + |BASH_OPEN|, k, k + |CLOSE_FENCE|))
  }

  function BashBlockMatcher(t: String): nat -> Option<BashBlock>
  {
    (q: nat) => BashBlockAt(t, q)
  }

  lemma BashBlockMatcherAdvances(t: String)
    ensures Advances(|t|, BashBlockMatcher(t), BlockStart, BlockEnd)
  {
  }

  /** The bash blocks of `t`, as `re.finditer` reports them. */
  function BashBlocks(t: String): (r: seq<BashBlock>)
    ensures forall i :: 0 <= i < |r| ==> r[i].bodyStart <= r[i].bodyEnd <= r[i].end <= |t|
  {
    BashBlockMatcherAdvances(t);
    var r := Scan(|t|, BashBlockMatcher(t), BlockStart, BlockEnd, 0);
    assert forall i :: 0 <= i < |r| ==> r[i].bodyStart <= r[i].bodyEnd <= r[i].end <= |t| by {
      forall i | 0 <= i < |r| ensures r[i].bodyStart <= r[i].bodyEnd <= r[i].end <= |t| {
        ScanFound(|t|, BashBlockMatcher(t), BlockStart, BlockEnd, 0, i);
      }
    }
    r
  }

  /** `content[:marker_pos]`; Python clamps a position past the end. */
  function TextBefore(content: String, pos: nat): String
  {
    if pos <= |content| then content[..pos] else content
  }

  /** `find_code_block_before_marker`: the stripped body of the last bash block before `pos`. */
  function FindCodeBlockBeforeMarker(content: String, pos: nat): (r: Option<String>)
    ensures r.Some? ==> Strip(r.value) == r.value
    ensures r.Some? ==> exists a, b :: 0 <= a <= b <= |content| && b <= pos && r.value == content[a..b]
  {
    var before := TextBefore(content, pos);
    var blocks := BashBlocks(before);
    if blocks == [] then None
    else
      var m := blocks[|blocks| - 1];
      StrippedPieceBefore(content, pos, m.bodyStart, m.bodyEnd);
      Some(Strip(before[m.bodyStart..m.bodyEnd]))
  }

  /** The stripped piece of the text before `pos` is itself a piece of the content ending no later than `pos`. */
  lemma StrippedPieceBefore(content: String, pos: nat, x: nat, y: nat)
    requires x <= y <= |TextBefore(content, pos)|
    ensures var piece := Strip(TextBefore(content, pos)[x..y]);
            && Strip(piece) == piece
            && exists a, b :: 0 <= a <= b <= |content| && b <= pos && piece == content[a..b]
  {
    var before := TextBefore(content, pos);
    var body := before[x..y];
    StripIdempotent(body);
    var a, b := PieceOfStrip(body);
    assert |before| <= |content| && |before| <= pos && before == content[..|before|];
    assert Strip(body) == content[x + a..x + b] by {
      assert body[a..b] == before[x + a..x + b];
    }
  }

  /** Where in `s` its stripped text lies. */
  lemma PieceOfStrip(s: String) returns (a: nat, b: nat)
    ensures a <= b <= |s| && Strip(s) == s[a..b]
  {
    StripRemovesOnlyWhitespace(s);
    a, b :| 0 <= a <= b <= |s| && Strip(s) == s[a..b];
  }

  /** No block is found exactly when the bash opening pattern matches nowhere before `pos`. */
  lemma NoBlockIff(content: String, pos: nat)
    ensures FindCodeBlockBeforeMarker(content, pos).None? <==>
              forall q :: 0 <= q < |TextBefore(content, pos)| ==> BashBlockAt(TextBefore(content, pos), q).None?
  {
    var before := TextBefore(content, pos);
    BashBlockMatcherAdvances(before);
    ScanEmpty(|before|, BashBlockMatcher(before), BlockStart, BlockEnd, 0);
    assert forall q: nat :: BashBlockMatcher(before)(q) == BashBlockAt(before, q);
  }

  /**
   * A found block is a whole match lying inside the text before `pos`, its stripped body is
   * what is returned, and no match starts after it.
   */
  lemma FoundBlockIsLast(content: String, pos: nat)
    requires FindCodeBlockBeforeMarker(content, pos).Some?
    ensures var before := TextBefore(content, pos);
            var m := BashBlocks(before)[|BashBlocks(before)| - 1];
            && BashBlockAt(before, m.start).Some? && BashBlockAt(before, m.start).value == m
            && FindCodeBlockBeforeMarker(content, pos).value == Strip(before[m.bodyStart..m.bodyEnd])
            && forall q :: m.end <= q < |before| ==> BashBlockAt(before, q).None?
  {
    var before := TextBefore(content, pos);
    var ms := BashBlocks(before);
    var last := |ms| - 1;
    BashBlockMatcherAdvances(before);
    ScanFound(|before|, BashBlockMatcher(before), BlockStart, BlockEnd, 0, last);
    ScanOrdered(|before|, BashBlockMatcher(before), BlockStart, BlockEnd, 0);
    forall q | ms[last].end <= q < |before| ensures BashBlockAt(before, q).None? {
      assert Uncovered(ms, BlockStart, BlockEnd, q) by {
        forall i | 0 <= i < |ms| ensures !(BlockStart(ms[i]) <= q < BlockEnd(ms[i])) {
          if i < last {
            assert BlockEnd(ms[i]) <= BlockStart(ms[last]);
          }
        }
      }
      ScanLeftmost(|before|, BashBlockMatcher(before), BlockStart, BlockEnd, 0, q);
    }
  }

  // ---------------------------------------------------------------- format_output

  /** `format_output`: the stripped output, cut to `maxLines` lines and a `...` line when it is longer. */
  function FormatOutput(stdout: String, maxLines: Option<nat>): (r: String)
    ensures maxLines.Some? ==> |Split(r, '\n')| <= maxLines.value + 1
  {
    var lines := Split(Strip(stdout), '\n');
    if maxLines.Some? && |lines| > maxLines.value then
      KeptLines(lines, maxLines.value);
      Join(lines[..maxLines.value] + ["..."], '\n')
    else
      JoinSplit(Strip(stdout), '\n');
      Join(lines, '\n')
  }

  /** The first `n` of some newline-free lines and a `...` line, joined, split back into themselves. */
  lemma KeptLines(lines: seq<String>, n: nat)
    requires n < |lines| && forall i :: 0 <= i < |lines| ==> '\n' !in lines[i]
    ensures Split(Join(lines[..n] + ["..."], '\n'), '\n') == lines[..n] + ["..."]
  {
    var kept := lines[..n] + ["..."];
    forall i | 0 <= i < |kept| ensures '\n' !in kept[i] {
      if i < n {
        assert kept[i] == lines[i];
      }
    }
    SplitJoin(kept, '\n');
  }

  /** Without a bound the output is only stripped. */
  lemma FormatOutputFull(stdout: String)
    ensures FormatOutput(stdout, None) == Strip(stdout)
  {
    JoinSplit(Strip(stdout), '\n');
  }

  /** Output within the bound is only stripped. */
  lemma FormatOutputShort(stdout: String, n: nat)
    requires |Split(Strip(stdout), '\n')| <= n
    ensures FormatOutput(stdout, Some(n)) == Strip(stdout)
  {
    JoinSplit(Strip(stdout), '\n');
  }

  /** Longer output keeps exactly its first `n` lines and then a `...` line: `n + 1` lines in all. */
  lemma FormatOutputTruncated(stdout: String, n: nat)
    requires |Split(Strip(stdout), '\n')| > n
    ensures Split(FormatOutput(stdout, Some(n)), '\n') == Split(Strip(stdout), '\n')[..n] + ["..."]
    ensures |Split(FormatOutput(stdout, Some(n)), '\n')| == n + 1
  {
    var lines := Split(Strip(stdout), '\n');
    KeptLines(lines, n);
    assert |lines[..n] + ["..."]| == n + 1;
  }

  // ---------------------------------------------------------------- process_marker

  /** One kind of generated region: its opening and closing comments and how many output lines it keeps. */
  datatype MarkerConfig = MarkerConfig(start: String, end: String, maxLines: Option<nat>)

  const DEFAULT_TRUNCATE_LINES: nat := 5

  /** The region kinds, in the order they are processed: truncated first, then full. */
  const MARKERS: seq<MarkerConfig> := [
    MarkerConfig("<!-- AUTO-GENERATED:START -->", "<!-- AUTO-GENERATED:END -->", Some(DEFAULT_TRUNCATE_LINES)),
    MarkerConfig("<!-- AUTO-GENERATED-FULL:START -->", "<!-- AUTO-GENERATED-FULL:END -->", None)
  ]

  /** One match of `START\n(.*?)END` (DOTALL), with the text it matched. */
  datatype Section = Section(start: nat, end: nat, text: String)

  function SectionStart(m: Section): nat { m.start }

  function SectionEnd(m: Section): nat { m.end }

  /** The region pattern tried at `q`: the opening comment and a newline, then up to the first closing comment. */
  function SectionAt(s: String, marker: MarkerConfig, q: nat): (r: Option<Section>)
    ensures r.Some? ==> r.value.start == q < r.value.end <= |s| && r.value.text == s[q..r.value.end]
  {
    if !OccursAt(s, marker.start + "\n", q) then None
    else
      match FindFrom(s, marker.end, q + |marker.start| + 1)
      case None => None
      case Some(k) => Some(Section(q, k + |marker.end|, s[q..k + |marker.end|]))
  }

  function SectionMatcher(s: String, marker: MarkerConfig): nat -> Option<Section>
  {
    (q: nat) => SectionAt(s, marker, q)
  }

  lemma SectionMatcherAdvances(s: String, marker: MarkerConfig)
    ensures Advances(|s|, SectionMatcher(s, marker), SectionStart, SectionEnd)
  {
  }

  /** The regions of one kind in `s`, left to right. */
  function Sections(s: String, marker: MarkerConfig): seq<Section>
  {
    SectionMatcherAdvances(s, marker);
    Scan(|s|, SectionMatcher(s, marker), SectionStart, SectionEnd, 0)
  }

  /** What `replace_section` decides for one region: its new text, or the error it records. */
  datatype SectionOutcome = Replaced(text: String) | Failed(error: String)

  /** `replace_section`: run the last bash block before the region and render its output, or fail. */
  function Outcome(content: String, marker: MarkerConfig, env: RenderEnv, sec: Section): (r: SectionOutcome)
    ensures r.Replaced? <==> var code := FindCodeBlockBeforeMarker(content, sec.start);
                             code.Some? && env.run(PrepareBash(code.value, env)).success
    ensures r.Replaced? ==> Bracketed(r.text, marker.start + "\n```\n", "\n```\n" + marker.end)
  {
    match FindCodeBlockBeforeMarker(content, sec.start)
    case None => Failed("No code block found before marker at position " + NatToString(sec.start))
    case Some(code) =>
      var result := env.run(PrepareBash(code, env));
      if !result.success then Failed("Command failed: " + result.stderr)
      else
        var output := FormatOutput(result.stdout, marker.maxLines);
        RenderedBracketed(marker.start, output, marker.end);
        Replaced(marker.start + "\n```\n" + output + "\n```\n" + marker.end)
  }

  /** `s` starts with `open` and ends with `close`, the two not overlapping. */
  predicate Bracketed(s: String, open: String, close: String)
  {
    |open| + |close| <= |s| && s[..|open|] == open && s[|s| - |close|..] == close
  }

  /** A rendered region keeps its start marker, then a fence; and a fence, then its end marker. */
  lemma RenderedBracketed(start: String, output: String, end: String)
    ensures Bracketed(start + "\n```\n" + output + "\n```\n" + end, start + "\n```\n", "\n```\n" + end)
  {
    var s := start + "\n```\n" + output + "\n```\n" + end;
    var open, close := start + "\n```\n", "\n```\n" + end;
    assert s == open + output + close;
    assert s[..|open|] == open;
    assert s[|s| - |close|..] == close;
  }

  function OutcomeIn(content: String, marker: MarkerConfig, env: RenderEnv): Section -> SectionOutcome
  {
    (sec: Section) => Outcome(content, marker, env, sec)
  }

  /** The text a region is replaced by: its new text, or on failure the matched text itself. */
  function Replacement(outcomeOf: Section -> SectionOutcome): Section -> String
  {
    (sec: Section) => if outcomeOf(sec).Replaced? then outcomeOf(sec).text else sec.text
  }

  /** The errors a region adds: one on failure, none otherwise. */
  function ErrorOf(outcomeOf: Section -> SectionOutcome): Section -> seq<String>
  {
    (sec: Section) => if outcomeOf(sec).Failed? then [outcomeOf(sec).error] else []
  }

  function Succeeds(outcomeOf: Section -> SectionOutcome): Section -> bool
  {
    (sec: Section) => outcomeOf(sec).Replaced?
  }

  /** The new content `process_marker` returns. */
  function Rendered(content: String, marker: MarkerConfig, env: RenderEnv): String
  {
    SectionMatcherAdvances(content, marker);
    Sub(content, SectionMatcher(content, marker), SectionStart, SectionEnd, Replacement(OutcomeIn(content, marker, env)), 0)
  }

  /** The errors `process_marker` appends, in region order. */
  function MarkerErrors(content: String, marker: MarkerConfig, env: RenderEnv): seq<String>
  {
    FlatMap(Sections(content, marker), ErrorOf(OutcomeIn(content, marker, env)))
  }

  /** The replacement count `process_marker` returns. */
  function Replacements(content: String, marker: MarkerConfig, env: RenderEnv): nat
  {
    CountIf(Sections(content, marker), Succeeds(OutcomeIn(content, marker, env)))
  }

  /** The caller-owned list the region callbacks append their errors to. */
  class ErrorList {
    var items: seq<String>

    constructor ()
      ensures items == []
    {
      items := [];
    }

    method Extend(es: seq<String>)
      modifies this
      ensures items == old(items) + es
    {
      items := items + es;
    }
  }

  /** `process_marker`: rewrite every region of one kind, appending one error per region that fails. */
  method ProcessMarker(content: String, marker: MarkerConfig, env: RenderEnv, errors: ErrorList)
    returns (newContent: String, replacements: nat)
    modifies errors
    ensures newContent == Rendered(content, marker, env)
    ensures errors.items == old(errors.items) + MarkerErrors(content, marker, env)
    ensures replacements == Replacements(content, marker, env)
  {
    SectionMatcherAdvances(content, marker);
    var outcomeOf := OutcomeIn(content, marker, env);
    var added;
    newContent, added, replacements :=
      SubTally(content, SectionMatcher(content, marker), SectionStart, SectionEnd,
               Replacement(outcomeOf), ErrorOf(outcomeOf), Succeeds(outcomeOf));
    errors.Extend(added);
  }

  /** A region found at `q` runs from its opening comment and a newline through the first closing comment after them. */
  lemma SectionAtShape(s: String, marker: MarkerConfig, q: nat)
    requires SectionAt(s, marker, q).Some?
    ensures var sec := SectionAt(s, marker, q).value;
            && q + |marker.start| + 1 + |marker.end| <= sec.end <= |s|
            && OccursAt(s, marker.start + "\n", q)
            && OccursAt(s, marker.end, sec.end - |marker.end|)
            && forall k :: q + |marker.start| + 1 <= k < sec.end - |marker.end| ==> !OccursAt(s, marker.end, k)
  {
  }

  /** Every reported region is one the pattern finds at its own start, and its text is the stretch it spans. */
  lemma SectionShape(content: String, marker: MarkerConfig, i: nat)
    requires i < |Sections(content, marker)|
    ensures var sec := Sections(content, marker)[i];
            && SectionAt(content, marker, sec.start).Some? && SectionAt(content, marker, sec.start).value == sec
            && sec.start < sec.end <= |content| && sec.text == content[sec.start..sec.end]
  {
    SectionMatcherAdvances(content, marker);
    ScanFound(|content|, SectionMatcher(content, marker), SectionStart, SectionEnd, 0, i);
  }

  /**
   * A region without a bash block before it, or whose command fails, keeps its exact text and
   * adds exactly one error; a region that succeeds becomes the opening comment, the fenced
   * output and the closing comment, whatever it held before, and adds no error.
   */
  lemma SectionOutcomeCases(content: String, marker: MarkerConfig, env: RenderEnv, sec: Section)
    ensures var outcomeOf := OutcomeIn(content, marker, env);
            var code := FindCodeBlockBeforeMarker(content, sec.start);
            && (code.None? ==>
                  Replacement(outcomeOf)(sec) == sec.text &&
                  ErrorOf(outcomeOf)(sec) == ["No code block found before marker at position " + NatToString(sec.start)])
            && (code.Some? && !env.run(PrepareBash(code.value, env)).success ==>
                  Replacement(outcomeOf)(sec) == sec.text &&
                  ErrorOf(outcomeOf)(sec) == ["Command failed: " + env.run(PrepareBash(code.value, env)).stderr])
            && (code.Some? && env.run(PrepareBash(code.value, env)).success ==>
                  Replacement(outcomeOf)(sec) ==
                    marker.start + "\n```\n" + FormatOutput(env.run(PrepareBash(code.value, env)).stdout, marker.maxLines) +
                    "\n```\n" + marker.end &&
                  ErrorOf(outcomeOf)(sec) == [])
  {
  }

  /** Each region either counts as a replacement or adds one error. */
  lemma ErrorsAndReplacements(content: String, marker: MarkerConfig, env: RenderEnv)
    ensures |MarkerErrors(content, marker, env)| + Replacements(content, marker, env) == |Sections(content, marker)|
  {
    var outcomeOf := OutcomeIn(content, marker, env);
    FlatMapLength(Sections(content, marker), ErrorOf(outcomeOf), Succeeds(outcomeOf));
  }

  /** When every region fails, the content comes back unchanged, with one error per region and no replacement. */
  lemma AllFailedUnchanged(content: String, marker: MarkerConfig, env: RenderEnv)
    requires forall q: nat :: q < |content| && SectionAt(content, marker, q).Some? ==>
               Outcome(content, marker, env, SectionAt(content, marker, q).value).Failed?
    ensures Rendered(content, marker, env) == content
    ensures Replacements(content, marker, env) == 0
    ensures |MarkerErrors(content, marker, env)| == |Sections(content, marker)|
  {
    var outcomeOf := OutcomeIn(content, marker, env);
    SectionMatcherAdvances(content, marker);
    SubIdentity(content, SectionMatcher(content, marker), SectionStart, SectionEnd, Replacement(outcomeOf), 0);
    var secs := Sections(content, marker);
    forall i | 0 <= i < |secs| ensures !Succeeds(outcomeOf)(secs[i]) {
      ScanFound(|content|, SectionMatcher(content, marker), SectionStart, SectionEnd, 0, i);
    }
    CountIfNone(secs, Succeeds(outcomeOf));
    ErrorsAndReplacements(content, marker, env);
  }

  // ---------------------------------------------------------------- process_markdown_file

  /** One pass of `process_marker`, as a step on the content. */
  function RenderStep(env: RenderEnv): (String, MarkerConfig) -> String
  {
    (c: String, marker: MarkerConfig) => Rendered(c, marker, env)
  }

  function ErrorStep(env: RenderEnv): (String, MarkerConfig) -> seq<String>
  {
    (c: String, marker: MarkerConfig) => MarkerErrors(c, marker, env)
  }

  function CountStep(env: RenderEnv): (String, MarkerConfig) -> nat
  {
    (c: String, marker: MarkerConfig) => Replacements(c, marker, env)
  }

  /** The content after running `process_marker` for each region kind in turn, each on the previous one's output. */
  function RenderAll(content: String, markers: seq<MarkerConfig>, env: RenderEnv): String
  {
    Chain(content, markers, RenderStep(env))
  }

  /** The errors the passes append, in order. */
  function AllErrors(content: String, markers: seq<MarkerConfig>, env: RenderEnv): seq<String>
  {
    ChainFlat(content, markers, RenderStep(env), ErrorStep(env))
  }

  /** The replacements the passes count, summed. */
  function AllReplacements(content: String, markers: seq<MarkerConfig>, env: RenderEnv): nat
  {
    ChainSum(content, markers, RenderStep(env), CountStep(env))
  }

  /** A file succeeds when no pass records an error. */
  predicate FileSucceeds(content: String, markers: seq<MarkerConfig>, env: RenderEnv)
  {
    AllErrors(content, markers, env) == []
  }

  /** The passes of `process_markdown_file`, one per region kind in `markers`, appending to one error list. */
  method RenderPasses(content: String, markers: seq<MarkerConfig>, env: RenderEnv, errors: ErrorList)
    returns (newContent: String, total: nat)
    modifies errors
    ensures newContent == RenderAll(content, markers, env)
    ensures errors.items == old(errors.items) + AllErrors(content, markers, env)
    ensures total == AllReplacements(content, markers, env)
  {
    newContent, total := content, 0;
    for i := 0 to |markers|
      invariant RenderAll(newContent, markers[i..], env) == RenderAll(content, markers, env)
      invariant errors.items + AllErrors(newContent, markers[i..], env) == old(errors.items) + AllErrors(content, markers, env)
      invariant total + AllReplacements(newContent, markers[i..], env) == AllReplacements(content, markers, env)
    {
      ChainAdvance(markers, RenderStep(env), ErrorStep(env), CountStep(env), i, newContent, errors.items, total,
                   RenderAll(content, markers, env), old(errors.items) + AllErrors(content, markers, env),
                   AllReplacements(content, markers, env));
      var replacements;
      newContent, replacements := ProcessMarker(newContent, markers[i], env, errors);
      total := total + replacements;
    }
  }

  /**
   * `process_markdown_file` over the region kinds `markers`: report failure when any error was
   * recorded, and otherwise hand back the new content to write when it changed and this is not
   * a dry run.
   */
  method ProcessFile(content: String, markers: seq<MarkerConfig>, env: RenderEnv, dryRun: bool)
    returns (success: bool, total: nat, write: Option<String>)
    ensures success <==> FileSucceeds(content, markers, env)
    ensures total == AllReplacements(content, markers, env)
    ensures write.Some? <==> success && !dryRun && RenderAll(content, markers, env) != content
    ensures write.Some? ==> write.value == RenderAll(content, markers, env)
  {
    var errors := new ErrorList();
    var newContent;
    newContent, total := RenderPasses(content, markers, env, errors);
    if errors.items != [] {
      return false, total, None;
    }
    success := true;
    write := if newContent != content && !dryRun then Some(newContent) else None;
  }

  /** `process_markdown_file` with the two region kinds, truncated first. */
  method ProcessMarkdownFile(content: String, env: RenderEnv, dryRun: bool)
    returns (success: bool, total: nat, write: Option<String>)
    ensures success <==> FileSucceeds(content, MARKERS, env)
    ensures total == AllReplacements(content, MARKERS, env)
    ensures write.Some? <==> success && !dryRun && RenderAll(content, MARKERS, env) != content
    ensures write.Some? ==> write.value == RenderAll(content, MARKERS, env)
  {
    success, total, write := ProcessFile(content, MARKERS, env, dryRun);
  }

  /** Two passes: the second runs on the first one's output, and their errors and counts add up in order. */
  lemma TwoPasses(content: String, markers: seq<MarkerConfig>, env: RenderEnv)
    requires |markers| == 2
    ensures var first := Rendered(content, markers[0], env);
            && RenderAll(content, markers, env) == Rendered(first, markers[1], env)
            && AllErrors(content, markers, env) == MarkerErrors(content, markers[0], env) + MarkerErrors(first, markers[1], env)
            && AllReplacements(content, markers, env) == Replacements(content, markers[0], env) + Replacements(first, markers[1], env)
  {
    ChainTwo(content, markers, RenderStep(env), ErrorStep(env), CountStep(env));
  }

  /**
   * The truncated regions are rendered first and the full regions second, on the first pass's
   * output; the errors and counts of the two passes add up in that order.
   */
  lemma MarkersInOrder(content: String, env: RenderEnv)
    ensures MARKERS[0].maxLines.Some? && MARKERS[0].maxLines.value == DEFAULT_TRUNCATE_LINES && MARKERS[1].maxLines.None?
    ensures var first := Rendered(content, MARKERS[0], env);
            && RenderAll(content, MARKERS, env) == Rendered(first, MARKERS[1], env)
            && AllErrors(content, MARKERS, env) == MarkerErrors(content, MARKERS[0], env) + MarkerErrors(first, MARKERS[1], env)
            && AllReplacements(content, MARKERS, env) == Replacements(content, MARKERS[0], env) + Replacements(first, MARKERS[1], env)
  {
    TwoPasses(content, MARKERS, env);
  }

  /** Every region found in either pass is either counted as a replacement or adds exactly one error. */
  lemma FileErrorsAndReplacements(content: String, markers: seq<MarkerConfig>, env: RenderEnv)
    requires |markers| == 2
    ensures var first := Rendered(content, markers[0], env);
            |AllErrors(content, markers, env)| + AllReplacements(content, markers, env) ==
              |Sections(content, markers[0])| + |Sections(first, markers[1])|
  {
    TwoPasses(content, markers, env);
    ErrorsAndReplacements(content, markers[0], env);
    ErrorsAndReplacements(Rendered(content, markers[0], env), markers[1], env);
  }

  // ---------------------------------------------------------------- main

  /** Whether a file succeeds, as a test on its content. */
  function SucceedsIn(markers: seq<MarkerConfig>, env: RenderEnv): String -> bool
  {
    (c: String) => FileSucceeds(c, markers, env)
  }

  function CountIn(markers: seq<MarkerConfig>, env: RenderEnv): String -> nat
  {
    (c: String) => AllReplacements(c, markers, env)
  }

  /** What `process_markdown_file` writes back for a content: the new content when it succeeded, changed, and this is not a dry run. */
  function WriteIn(markers: seq<MarkerConfig>, env: RenderEnv, dryRun: bool): String -> Option<String>
  {
    (c: String) =>
      if FileSucceeds(c, markers, env) && !dryRun && RenderAll(c, markers, env) != c then Some(RenderAll(c, markers, env)) else None
  }

  /** The exit status of `main`: 1 when there are no files, otherwise 0 exactly when every file succeeded. */
  function GenerateStatus(files: seq<String>, markers: seq<MarkerConfig>, env: RenderEnv): (status: int)
    ensures status == 0 || status == 1
    ensures status == 0 <==> files != [] && forall i :: 0 <= i < |files| ==> FileSucceeds(files[i], markers, env)
  {
    CountIfAll(files, SucceedsIn(markers, env));
    if files == [] then 1
    else if CountIf(files, SucceedsIn(markers, env)) == |files| then 0
    else 1
  }

  /** The loop of `main` over the files, each processed with the region kinds `markers`. */
  method GenerateWith(files: seq<String>, markers: seq<MarkerConfig>, env: RenderEnv, dryRun: bool)
    returns (status: int, total: nat, writes: seq<Option<String>>)
    ensures status == GenerateStatus(files, markers, env)
    ensures total == Sum(files, CountIn(markers, env))
    ensures writes == Map(files, WriteIn(markers, env, dryRun))
  {
    if files == [] {
      return 1, 0, [];
    }
    total, writes := 0, [];
    var allSuccess := true;
    for i := 0 to |files|
      invariant total == Sum(files[..i], CountIn(markers, env))
      invariant allSuccess <==> CountIf(files[..i], SucceedsIn(markers, env)) == i
      invariant writes == Map(files[..i], WriteIn(markers, env, dryRun))
    {
      MapTallyStep(files, i, SucceedsIn(markers, env), CountIn(markers, env), WriteIn(markers, env, dryRun),
                   total, allSuccess, writes);
      var success, replacements, write := ProcessFile(files[i], markers, env, dryRun);
      assert success == SucceedsIn(markers, env)(files[i]);
      assert replacements == CountIn(markers, env)(files[i]);
      assert write == WriteIn(markers, env, dryRun)(files[i]);
      total := total + replacements;
      writes := writes + [write];
      if !success {
        allSuccess := false;
      }
    }
    assert files[..|files|] == files;
    status := if allSuccess then 0 else 1;
  }

  /**
   * `main`: exit status 1 without files, otherwise 0 exactly when every file succeeded; each
   * file is written only when it succeeded, changed, and this is not a dry run.
   */
  method GenerateOutputs(files: seq<String>, env: RenderEnv, dryRun: bool)
    returns (status: int, total: nat, writes: seq<Option<String>>)
    ensures status == 0 || status == 1
    ensures status == 0 <==> files != [] && forall i :: 0 <= i < |files| ==> FileSucceeds(files[i], MARKERS, env)
    ensures total == Sum(files, CountIn(MARKERS, env)) && |writes| == |files|
    ensures forall i :: 0 <= i < |files| ==>
              (writes[i].Some? <==> FileSucceeds(files[i], MARKERS, env) && !dryRun && RenderAll(files[i], MARKERS, env) != files[i])
    ensures forall i :: 0 <= i < |files| && writes[i].Some? ==> writes[i].value == RenderAll(files[i], MARKERS, env)
  {
    status, total, writes := GenerateWith(files, MARKERS, env, dryRun);
    MapIndex(files, WriteIn(MARKERS, env, dryRun));
  }
}
