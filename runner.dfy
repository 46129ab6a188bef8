/**
 * What the snippet tester does with the extracted blocks (scripts/test_markdown_examples.py):
 * which blocks it skips, how it rewrites a snippet before running it, how it dispatches on
 * the language, and the pass/fail tally that decides its exit code. Running a snippet is an
 * abstract executor; `textwrap.dedent` and the git ignore check are parameters too.
 */
module SnippetRunner {
  import opened Wrappers
  import opened Text
  import opened FindIter
  import opened CodeBlocks
  import opened Folds

  /** What the executor reports for one snippet: whether it exited with status 0, its stdout and its stderr. */
  datatype ExecResult = ExecResult(success: bool, stdout: String, stderr: String)

  /** The record kept for one block that was run. */
  datatype TestResult = TestResult(block: CodeBlock, success: bool, output: String, error: String)

  /** A fixture: the file name the docs use, and the path of the generated test file that replaces it. */
  datatype Fixture = Fixture(alias: String, path: String)

  /**
   * What a run works with: the fixtures in insertion order, the scratch directory, `textwrap.dedent`,
   * and the executor, called with the language and the prepared code.
   */
  datatype Env = Env(fixtures: seq<Fixture>, workDir: String, dedent: String -> String,
                     exec: (String, String) -> ExecResult)

  // ---------------------------------------------------------------- should_skip_block

  const INSTALL_PREFIXES: seq<String> := ["cargo install", "pip install", "pip3 install", "docker pull", "curl "]

  /** A line that is neither blank nor a `#` comment once stripped. */
  predicate IsCommandLine(line: String)
  {
    Strip(line) != [] && !StartsWith(Strip(line), "#")
  }

  /** The list comprehension keeping the command lines, in order. */
  function CommandLines(lines: seq<String>): (r: seq<String>)
    ensures |r| <= |lines|
    ensures forall i :: 0 <= i < |r| ==> IsCommandLine(r[i])
  {
    if lines == [] then []
    else (if IsCommandLine(lines[0]) then [lines[0]] else []) + CommandLines(lines[1..])
  }

  /** No command line is kept exactly when no line is one. */
  lemma {:induction false} CommandLinesEmpty(lines: seq<String>)
    ensures CommandLines(lines) == [] <==> forall i :: 0 <= i < |lines| ==> !IsCommandLine(lines[i])
  {
    if lines != [] {
      CommandLinesEmpty(lines[1..]);
      if CommandLines(lines) == [] {
        forall i | 0 <= i < |lines| ensures !IsCommandLine(lines[i]) {
          if i > 0 {
            assert lines[i] == lines[1..][i - 1];
          }
        }
      } else if !IsCommandLine(lines[0]) {
        var i :| 0 <= i < |lines[1..]| && IsCommandLine(lines[1..][i]);
        assert IsCommandLine(lines[i + 1]);
      }
    }
  }

  /** The first kept line is the first command line of the text. */
  lemma {:induction false} CommandLinesFirst(lines: seq<String>, k: nat)
    requires k < |lines| && IsCommandLine(lines[k])
    requires forall j :: 0 <= j < k ==> !IsCommandLine(lines[j])
    ensures CommandLines(lines) != [] && CommandLines(lines)[0] == lines[k]
  {
    if k > 0 {
      forall j | 0 <= j < k - 1 ensures !IsCommandLine(lines[1..][j]) {
        assert lines[1..][j] == lines[j + 1];
      }
      CommandLinesFirst(lines[1..], k - 1);
    }
  }

  /** `any(first_line.startswith(prefix) for prefix in install_prefixes)` */
  predicate IsInstallCommand(line: String)
  {
    exists i :: 0 <= i < |INSTALL_PREFIXES| && StartsWith(line, INSTALL_PREFIXES[i])
  }

  /** `should_skip_block`: whether to skip the block, and why. */
  function ShouldSkip(block: CodeBlock): (r: (bool, String))
    ensures r.0 <==> r.1 != []
  {
    if block.language != "bash" && block.language != "python" then
      (true, "skipping non-executable language: " + block.language)
    else
      var code := Strip(block.code);
      if block.language == "bash" then
        var lines := CommandLines(Split(code, '\n'));
        if lines == [] then (true, "skipping comment-only block")
        else if IsInstallCommand(Strip(lines[0])) then (true, "skipping installation command")
        else if Contains(code, "example.com") then (true, "skipping example.com placeholder URL")
        else (false, "")
      else (false, "")
  }

  /** Languages other than bash and python are always skipped, with the language named in the reason. */
  lemma SkipsOtherLanguages(block: CodeBlock)
    requires block.language != "bash" && block.language != "python"
    ensures ShouldSkip(block) == (true, "skipping non-executable language: " + block.language)
  {
  }

  /** A python block is never skipped, whatever it holds. */
  lemma RunsPython(block: CodeBlock)
    requires block.language == "python"
    ensures ShouldSkip(block) == (false, "")
  {
  }

  /** A bash block holding only blank and `#` lines is skipped as comment-only. */
  lemma SkipsCommentOnly(block: CodeBlock)
    requires block.language == "bash"
    requires forall i :: 0 <= i < |Split(Strip(block.code), '\n')| ==> !IsCommandLine(Split(Strip(block.code), '\n')[i])
    ensures ShouldSkip(block) == (true, "skipping comment-only block")
  {
    CommandLinesEmpty(Split(Strip(block.code), '\n'));
  }

  /**
   * A bash block with a command line is skipped exactly when its first command line is an
   * installation (reported first) or its text names example.com; otherwise it runs.
   */
  lemma BashDecision(block: CodeBlock, k: nat)
    requires block.language == "bash"
    requires k < |Split(Strip(block.code), '\n')| && IsCommandLine(Split(Strip(block.code), '\n')[k])
    requires forall j :: 0 <= j < k ==> !IsCommandLine(Split(Strip(block.code), '\n')[j])
    ensures IsInstallCommand(Strip(Split(Strip(block.code), '\n')[k])) ==>
              ShouldSkip(block) == (true, "skipping installation command")
    ensures !IsInstallCommand(Strip(Split(Strip(block.code), '\n')[k])) && Contains(Strip(block.code), "example.com") ==>
              ShouldSkip(block) == (true, "skipping example.com placeholder URL")
    ensures !ShouldSkip(block).0 <==>
              !IsInstallCommand(Strip(Split(Strip(block.code), '\n')[k])) && !Contains(Strip(block.code), "example.com")
  {
    CommandLinesFirst(Split(Strip(block.code), '\n'), k);
  }

  // ---------------------------------------------------------------- prepare_bash_code

  /** `prepared.replace(placeholder, str(real_path))` for each fixture, in insertion order. */
  function ReplaceFixtures(s: String, fixtures: seq<Fixture>): String
    decreases |fixtures|
  {
    if fixtures == [] then s
    else ReplaceFixtures(Replace(s, fixtures[0].alias, fixtures[0].path), fixtures[1..])
  }

  const OUTPUT_FILES: seq<String> :=
    ["hypermethylated_reads.txt", "hypermethylated.bam", "high_meth_reads.txt", "detailed_densities.tsv", "densities.tsv"]

  /** `[/\w]` */
  predicate IsPathOrWordChar(c: char) { c == '/' || IsWordChar(c) }

  /** `(?<![/\w])NAME(?![/\w])` matches at `q`: NAME stands there with neither neighbour a slash or word character. */
  predicate BoundedAt(s: String, name: String, q: nat)
  {
    && OccursAt(s, name, q)
    && (q == 0 || !IsPathOrWordChar(s[q - 1]))
    && (q + |name| == |s| || !IsPathOrWordChar(s[q + |name|]))
  }

  function BoundedMatcher(s: String, name: String): nat -> Option<nat>
  {
    (q: nat) => if BoundedAt(s, name, q) then Some(q) else None
  }

  function MatchedAt(q: nat): nat { q }

  function AfterName(name: String): nat -> nat
  {
    (q: nat) => q + |name|
  }

  function Constant(rep: String): nat -> String
  {
    (q: nat) => rep
  }

  lemma BoundedMatcherAdvances(s: String, name: String)
    requires name != []
    ensures Advances(|s|, BoundedMatcher(s, name), MatchedAt, AfterName(name))
  {
  }

  /** `re.sub(r'(?<![/\w])' + re.escape(name) + r'(?![/\w])', rep, s)` */
  function BoundedSub(s: String, name: String, rep: String): String
    requires name != []
  {
    BoundedMatcherAdvances(s, name);
    Sub(s, BoundedMatcher(s, name), MatchedAt, AfterName(name), Constant(rep), 0)
  }

  /** Where every copy of the name touches a slash or word character, the substitution changes nothing. */
  lemma BoundedSubUnbounded(s: String, name: String, rep: String)
    requires name != []
    requires forall q: nat :: !BoundedAt(s, name, q)
    ensures BoundedSub(s, name, rep) == s
  {
    BoundedMatcherAdvances(s, name);
    ScanEmpty(|s|, BoundedMatcher(s, name), MatchedAt, AfterName(name), 0);
    SubNoMatch(s, BoundedMatcher(s, name), MatchedAt, AfterName(name), Constant(rep), 0);
  }

  /** A text that is just the name becomes the replacement. */
  lemma BoundedSubWhole(name: String, rep: String)
    requires name != []
    ensures BoundedSub(name, name, rep) == rep
  {
    BoundedMatcherAdvances(name, name);
    assert BoundedAt(name, name, 0) by {
      assert name[0..|name|] == name;
    }
    assert BoundedSub(name, name, rep) == rep + Sub(name, BoundedMatcher(name, name), MatchedAt, AfterName(name), Constant(rep), |name|);
  }

  /** `densities.tsv` inside `detailed_densities.tsv` is not a match: an underscore precedes it. */
  lemma NestedNameNotBounded(s: String, q: nat)
    requires OccursAt(s, "detailed_densities.tsv", q)
    ensures !BoundedAt(s, "densities.tsv", q + 9)
  {
    assert s[q + 8] == s[q..q + 22][8] == '_';
  }

  /** A name already rewritten to a path under the work directory is not matched again: a slash precedes it. */
  lemma RewrittenNameNotBounded(workDir: String, name: String)
    ensures !BoundedAt(workDir + "/" + name, name, |workDir| + 1)
  {
    assert (workDir + "/" + name)[|workDir|] == '/';
  }

  /** Each output file name, matched at its boundaries, becomes its path under the work directory, in list order. */
  function RewriteOutputs(s: String, names: seq<String>, workDir: String): String
    requires forall i :: 0 <= i < |names| ==> names[i] != []
    decreases |names|
  {
    if names == [] then s
    else RewriteOutputs(BoundedSub(s, names[0], workDir + "/" + names[0]), names[1..], workDir)
  }

  /** What `prepare_bash_code` returns. */
  function PrepareBash(code: String, env: Env): String
  {
    RewriteOutputs(ReplaceFixtures(env.dedent(code), env.fixtures), OUTPUT_FILES, env.workDir)
  }

  /** A snippet that names no fixture and no bounded output file is only dedented. */
  lemma {:induction false} RewriteOutputsUnbounded(s: String, names: seq<String>, workDir: String)
    requires forall i :: 0 <= i < |names| ==> names[i] != []
    requires forall i, q: nat :: 0 <= i < |names| ==> !BoundedAt(s, names[i], q)
    ensures RewriteOutputs(s, names, workDir) == s
    decreases |names|
  {
    if names != [] {
      BoundedSubUnbounded(s, names[0], workDir + "/" + names[0]);
      forall i, q: nat | 0 <= i < |names[1..]| ensures !BoundedAt(s, names[1..][i], q) {
        assert names[1..][i] == names[i + 1];
      }
      RewriteOutputsUnbounded(s, names[1..], workDir);
    }
  }

  method PrepareBashCode(code: String, env: Env) returns (prepared: String)
    ensures prepared == PrepareBash(code, env)
  {
    prepared := env.dedent(code);
    var i := 0;
    while i < |env.fixtures|
      invariant 0 <= i <= |env.fixtures|
      invariant ReplaceFixtures(prepared, env.fixtures[i..]) == ReplaceFixtures(env.dedent(code), env.fixtures)
    {
      assert env.fixtures[i..][1..] == env.fixtures[i + 1..];
      prepared := Replace(prepared, env.fixtures[i].alias, env.fixtures[i].path);
      i := i + 1;
    }
    ghost var afterFixtures := prepared;
    var j := 0;
    while j < |OUTPUT_FILES|
      invariant 0 <= j <= |OUTPUT_FILES|
      invariant RewriteOutputs(prepared, OUTPUT_FILES[j..], env.workDir) == RewriteOutputs(afterFixtures, OUTPUT_FILES, env.workDir)
    {
      assert OUTPUT_FILES[j..][1..] == OUTPUT_FILES[j + 1..];
      var outfile := OUTPUT_FILES[j];
      prepared := BoundedSub(prepared, outfile, env.workDir + "/" + outfile);
      j := j + 1;
    }
  }

  // ---------------------------------------------------------------- prepare_python_code

  /** Both quoted forms of one alias, `"alias"` then `'alias'`, become the quoted path. */
  function QuoteFixture(s: String, f: Fixture): String
  {
    var dq := Replace(s, "\"" + f.alias + "\"", "\"" + f.path + "\"");
    Replace(dq, "'" + f.alias + "'", "'" + f.path + "'")
  }

  /** What `prepare_python_code` returns. */
  function PreparePython(code: String, fixtures: seq<Fixture>): String
    decreases |fixtures|
  {
    if fixtures == [] then code else PreparePython(QuoteFixture(code, fixtures[0]), fixtures[1..])
  }

  /** The alias quoted with `q` does not occur in `s`. */
  predicate NoQuoted(s: String, alias: String, q: char)
  {
    forall k :: 0 <= k < |s| ==> !PrefixMatch(s[k..], [q] + alias + [q], false)
  }

  /** A python snippet in which no alias appears between matching quotes is returned unchanged. */
  lemma {:induction false} PythonUnquotedUnchanged(code: String, fixtures: seq<Fixture>)
    requires forall i :: 0 <= i < |fixtures| ==> NoQuoted(code, fixtures[i].alias, '"') && NoQuoted(code, fixtures[i].alias, '\'')
    ensures PreparePython(code, fixtures) == code
    decreases |fixtures|
  {
    if fixtures != [] {
      var f := fixtures[0];
      assert "\"" + f.alias + "\"" == ['"'] + f.alias + ['"'];
      assert "'" + f.alias + "'" == ['\''] + f.alias + ['\''];
      ReplaceAbsent(code, "\"" + f.alias + "\"", "\"" + f.path + "\"", false);
      ReplaceAbsent(code, "'" + f.alias + "'", "'" + f.path + "'", false);
      assert QuoteFixture(code, f) == code;
      forall i | 0 <= i < |fixtures[1..]|
        ensures NoQuoted(code, fixtures[1..][i].alias, '"') && NoQuoted(code, fixtures[1..][i].alias, '\'')
      {
        assert fixtures[1..][i] == fixtures[i + 1];
      }
      PythonUnquotedUnchanged(code, fixtures[1..]);
    }
  }

  /** A double-quoted alias becomes the double-quoted path. */
  lemma PythonQuotedReplaced(alias: String, path: String)
    requires NoQuoted("\"" + path + "\"", alias, '\'')
    ensures PreparePython("\"" + alias + "\"", [Fixture(alias, path)]) == "\"" + path + "\""
  {
    var q := "\"" + alias + "\"";
    assert Repeat(q, 1) == q;
    ReplaceRepeated(q, "\"" + path + "\"", 1, false);
    assert Repeat("\"" + path + "\"", 1) == "\"" + path + "\"";
    assert "'" + alias + "'" == ['\''] + alias + ['\''];
    ReplaceAbsent("\"" + path + "\"", "'" + alias + "'", "'" + path + "'", false);
    assert [Fixture(alias, path)][1..] == [];
  }

  method PreparePythonCode(code: String, fixtures: seq<Fixture>, workDir: String) returns (prepared: String)
    ensures prepared == PreparePython(code, fixtures)
  {
    prepared := code;
    var i := 0;
    while i < |fixtures|
      invariant 0 <= i <= |fixtures|
      invariant PreparePython(prepared, fixtures[i..]) == PreparePython(code, fixtures)
    {
      assert fixtures[i..][1..] == fixtures[i + 1..];
      var f := fixtures[i];
      prepared := Replace(prepared, "\"" + f.alias + "\"", "\"" + f.path + "\"");
      prepared := Replace(prepared, "'" + f.alias + "'", "'" + f.path + "'");
      i := i + 1;
    }
  }

  // ---------------------------------------------------------------- run_test

  /** `run_test`: prepare the snippet for its language and hand it to the executor. */
  function RunTest(block: CodeBlock, env: Env): (r: TestResult)
    ensures r.block == block
    ensures r.success ==> block.language == "bash" || block.language == "python"
  {
    if block.language == "bash" then
      var r := env.exec("bash", PrepareBash(block.code, env));
      TestResult(block, r.success, r.stdout, r.stderr)
    else if block.language == "python" then
      var r := env.exec("python", PreparePython(block.code, env.fixtures));
      TestResult(block, r.success, r.stdout, r.stderr)
    else TestResult(block, false, "", "Unknown language: " + block.language)
  }

  /** Another language fails with a message naming it, whatever the executor would have done. */
  lemma RunTestUnknownLanguage(block: CodeBlock, env: Env, other: (String, String) -> ExecResult)
    requires block.language != "bash" && block.language != "python"
    ensures !RunTest(block, env).success
    ensures RunTest(block, env).error == "Unknown language: " + block.language
    ensures RunTest(block, env) == RunTest(block, env.(exec := other))
  {
  }

  /** A bash or python result reports exactly what the executor said about the prepared snippet. */
  lemma RunTestReports(block: CodeBlock, env: Env)
    requires block.language == "bash" || block.language == "python"
    ensures var code := if block.language == "bash" then PrepareBash(block.code, env)
                        else PreparePython(block.code, env.fixtures);
            RunTest(block, env) == TestResult(block, env.exec(block.language, code).success,
                                              env.exec(block.language, code).stdout,
                                              env.exec(block.language, code).stderr)
  {
  }

  // ---------------------------------------------------------------- main

  /** A markdown file to test: its path and its text. */
  datatype Document = Document(path: String, content: String)

  /** The files left once the git-ignored ones are dropped, in their order. */
  function Unignored(docs: seq<Document>, ignored: String -> bool): (r: seq<Document>)
    ensures |r| <= |docs|
    ensures forall i :: 0 <= i < |r| ==> !ignored(r[i].path)
    decreases |docs|
  {
    if docs == [] then []
    else Unignored(docs[..|docs| - 1], ignored) + (if ignored(docs[|docs| - 1].path) then [] else [docs[|docs| - 1]])
  }

  /** The blocks of the files, file by file, each file's in document order. */
  function AllBlocks(docs: seq<Document>): seq<CodeBlock>
    decreases |docs|
  {
    if docs == [] then []
    else AllBlocks(docs[..|docs| - 1]) + CodeBlocksOf(docs[|docs| - 1].content, docs[|docs| - 1].path)
  }

  predicate IsSkipped(block: CodeBlock) { ShouldSkip(block).0 }

  predicate Succeeded(r: TestResult) { r.success }

  function RunIn(env: Env): CodeBlock -> TestResult
  {
    (block: CodeBlock) => RunTest(block, env)
  }

  /** The results of the blocks that are not skipped, in order. */
  function Results(blocks: seq<CodeBlock>, env: Env): seq<TestResult>
  {
    FlatMap(blocks, Guarded(IsSkipped, RunIn(env)))
  }

  /** The status `main` returns once it knows the files to test and the results of the blocks it ran. */
  function ExitStatus(files: seq<Document>, results: seq<TestResult>): int
  {
    if files == [] then 1
    else if |results| - CountIf(results, Succeeded) > 0 then 1
    else 0
  }

  /** Every block is either run, and has a result, or skipped. */
  lemma EveryBlockAccounted(blocks: seq<CodeBlock>, env: Env)
    ensures |Results(blocks, env)| + CountIf(blocks, IsSkipped) == |blocks|
  {
    FlatMapLength(blocks, Guarded(IsSkipped, RunIn(env)), IsSkipped);
  }

  /** Every result is that of a block that was not skipped. */
  lemma ResultsOfRunBlocks(blocks: seq<CodeBlock>, env: Env, i: nat)
    requires i < |Results(blocks, env)|
    ensures exists k :: 0 <= k < |blocks| && !IsSkipped(blocks[k]) && Results(blocks, env)[i] == RunTest(blocks[k], env)
  {
    FlatMapFrom(blocks, Guarded(IsSkipped, RunIn(env)), i);
    var k, j :| 0 <= k < |blocks| && 0 <= j < |Guarded(IsSkipped, RunIn(env))(blocks[k])| &&
                Results(blocks, env)[i] == Guarded(IsSkipped, RunIn(env))(blocks[k])[j];
    assert !IsSkipped(blocks[k]) && Results(blocks, env)[i] == RunTest(blocks[k], env);
  }

  /** `main` succeeds exactly when some file is left to test and every block it ran passed. */
  lemma ExitZeroIff(files: seq<Document>, results: seq<TestResult>)
    ensures ExitStatus(files, results) == 0 <==> files != [] && forall i :: 0 <= i < |results| ==> results[i].success
    ensures ExitStatus(files, results) == 0 || ExitStatus(files, results) == 1
  {
    CountIfAll(results, Succeeded);
  }

  /** The list comprehension dropping the git-ignored files. */
  method DropIgnored(docs: seq<Document>, ignored: String -> bool) returns (files: seq<Document>)
    ensures files == Unignored(docs, ignored)
  {
    files := [];
    var d := 0;
    while d < |docs|
      invariant 0 <= d <= |docs|
      invariant files == Unignored(docs[..d], ignored)
    {
      assert docs[..d + 1][..d] == docs[..d];
      if !ignored(docs[d].path) {
        files := files + [docs[d]];
      }
      d := d + 1;
    }
    assert docs[..d] == docs;
  }

  /** What one run of the tester reports: its exit status and the three counts of its summary line. */
  datatype Summary = Summary(exitCode: int, passed: nat, failed: nat, skipped: nat)

  /** `main`: drop the ignored files, then extract, skip or run and count every block. */
  method TestMarkdownFiles(docs: seq<Document>, ignored: String -> bool, env: Env) returns (sum: Summary)
    ensures sum.exitCode == ExitStatus(Unignored(docs, ignored), Results(AllBlocks(Unignored(docs, ignored)), env))
    ensures Unignored(docs, ignored) != [] ==>
              var blocks := AllBlocks(Unignored(docs, ignored));
              && sum.passed == CountIf(Results(blocks, env), Succeeded)
              && sum.failed == |Results(blocks, env)| - CountIf(Results(blocks, env), Succeeded)
              && sum.skipped == CountIf(blocks, IsSkipped)
  {
    var files := DropIgnored(docs, ignored);
    if files == [] {
      return Summary(1, 0, 0, 0);
    }
    var results: seq<TestResult> := [];
    var skipped := 0;
    var passed := 0;
    var f := 0;
    while f < |files|
      invariant 0 <= f <= |files|
      invariant results == Results(AllBlocks(files[..f]), env)
      invariant skipped == CountIf(AllBlocks(files[..f]), IsSkipped) && passed == CountIf(results, Succeeded)
    {
      var blocks := ExtractCodeBlocks(files[f].content, files[f].path);
      assert AllBlocks(files[..f + 1]) == AllBlocks(files[..f]) + blocks by {
        assert files[..f + 1][..f] == files[..f];
      }
      var fileResults, fileSkipped, filePassed := Tally(blocks, IsSkipped, RunIn(env), Succeeded);
      assert Results(AllBlocks(files[..f + 1]), env) == results + fileResults
          && CountIf(AllBlocks(files[..f + 1]), IsSkipped) == skipped + fileSkipped by {
        FlatMapConcat(AllBlocks(files[..f]), blocks, Guarded(IsSkipped, RunIn(env)));
        CountIfConcat(AllBlocks(files[..f]), blocks, IsSkipped);
      }
      assert CountIf(results + fileResults, Succeeded) == passed + filePassed by {
        CountIfConcat(results, fileResults, Succeeded);
      }
      results, skipped, passed := results + fileResults, skipped + fileSkipped, passed + filePassed;
      f := f + 1;
    }
    assert files[..f] == files;
    assert passed <= |results| by {
      CountIfAll(results, Succeeded);
    }
    var failed := |results| - passed;
    sum := Summary(if failed > 0 then 1 else 0, passed, failed, skipped);
  }
}
