# Markdown example engine of nanalogue-cookbook, in Dafny

The cookbook's documentation is checked and refreshed by four Python scripts. This project
models their text-processing core and proves what that core promises.

- **Snippet tester** (`scripts/test_markdown_examples.py`). It finds the fenced code blocks of
  a markdown page. It also finds the `<!--REPLACE_<FROM>_WITH_<TO>:START-->` … `:END-->`
  regions, which rename a contig (FROM, ignoring case) to lower-cased TO in the snippets that
  start inside them. The tester then decides which blocks to skip and rewrites each runnable
  snippet. Bash snippets get fixture names swapped for generated test files and output file
  names moved into a scratch directory. Python snippets get only quoted fixture names
  swapped. Each snippet goes to an executor, and the results are tallied into an exit status.
- **Output renderer** (`scripts/generate_markdown_outputs.py`). For every
  `<!-- AUTO-GENERATED:START -->` … `END` region, and its `-FULL` variant, it takes the last
  ```` ```bash ```` block before the region and prepares that command. Preparation renames
  fixtures and outputs, rewrites `chrN:A-B` coordinates to `contig_00000:0-500` and drops
  trailing `> x.tsv` redirects. The renderer runs the command and puts its output, cut to
  five lines for the short kind, between the markers. Truncated regions are rendered first,
  and a file with any error is not written.
- **Python API docs** (`scripts/generate_python_docs.py`). Long signatures are wrapped one
  parameter per line. Square brackets outside inline code become `&#91;`/`&#93;`. Docstrings
  become markdown: bold section headers, one bullet per argument, fenced code kept as is.
- **CLI docs** (`scripts/generate_cli_docs.py`). The subcommand names listed under the
  `Commands:` header of a help screen are collected. One command's help is laid out as a
  markdown section.

Each regular expression of the scripts is written out as a scanner with the same semantics:
greedy groups, lazy DOTALL bodies, `MULTILINE` anchors and case-insensitive matching. Module
`FindIter` models `re.finditer` and `re.sub` once, over an abstract "match at position q",
with these guarantees:
- matches are reported left to right and never overlap;
- every reported match is what the pattern gives at its position;
- no match is skipped.

Each script's patterns are instances of it. Loops that the scripts write as loops are
methods with invariants. Each method is proved equal to a function, and the properties are
proved about that function.

Files:
- `wrappers.dfy`: `Option`.
- `folds.dfy`: list folds: flat map, count, map, sum, prefix fold, chained passes.
- `text.dfy`: the string primitives:
  - `strip`, `split`/`join` on one character, `find`;
  - `replace`, including case-insensitive replace;
  - character classes;
  - decimal rendering.
- `find_iter.dfy`: `finditer`/`sub`.
- `replace_tags.dfy`, `code_blocks.dfy`, `runner.dfy`: the tester.
- `render.dfy`: the renderer.
- `python_docs.dfy`, `cli_docs.dfy`: the two generators.

Where the scripts' own description and their code differ, the model follows the code:
- a block is inside a REPLACE region when its start lies in the inclusive span `[start, end]`;
- REPLACE tags that are unmatched or mismatched are ignored, not reported.

## Model

| member | source | states |
|---|---|---|
| ReplaceTags.StartTagAt | scripts/test_markdown_examples.py:70 | a recognised start tag has FROM without `_` and TO without `:`, and its body starts right after the tag |
| ReplaceTags.StartTagAtSound | scripts/test_markdown_examples.py:70 | a recognised start tag is literally `<!--REPLACE_FROM_WITH_TO:START-->` at that position |
| ReplaceTags.StartTagExact | scripts/test_markdown_examples.py:70 | conversely, any valid FROM/TO start tag written at a position is recognised there with exactly that FROM and TO |
| ReplaceTags.RegionAtIsRegion | scripts/test_markdown_examples.py:70-72 | a region found at a position is a start tag whose body runs to the first END tag repeating the same FROM and TO |
| ReplaceTags.RegionAtExact | scripts/test_markdown_examples.py:70-72 | conversely, every such tag pair is found at its start, with its span and rule |
| ReplaceTags.RegionsOrdered | scripts/test_markdown_examples.py:72-77 | reported regions have start < end within the text and are in increasing, non-overlapping order |
| ReplaceTags.RegionsAreRegions | scripts/test_markdown_examples.py:72-77 | every reported region is a well-formed matching tag pair |
| ReplaceTags.RegionsComplete | scripts/test_markdown_examples.py:72-77 | no tag pair is missed: each one starts inside some reported region |
| ReplaceTags.SingleRegion | scripts/test_markdown_examples.py:68-79 | a document that is one tag pair yields exactly that region |
| ReplaceTags.FindReplaceRegions | scripts/test_markdown_examples.py:62-79 | the appending loop returns exactly the regions of the scanner |
| ReplaceTags.ApplyReplaceTags | scripts/test_markdown_examples.py:82-92 | the loop applies the rule of each region whose inclusive span holds the position, in list order |
| ReplaceTags.ApplyTagsOutside | scripts/test_markdown_examples.py:88-89 | code outside every region's inclusive span is returned unchanged |
| ReplaceTags.ApplyTagsConcat | scripts/test_markdown_examples.py:88-91 | the rules of several regions compose in list order |
| ReplaceTags.ApplyTagsInsideOne | scripts/test_markdown_examples.py:89-91 | inside exactly one region, the code is FROM replaced case-insensitively by lower-cased TO |
| Text.ReplaceRepeated | scripts/test_markdown_examples.py:91 | n back-to-back copies of the pattern become n copies of the replacement, with or without case folding |
| Text.ReplaceAbsent | scripts/test_markdown_examples.py:91 | a pattern that occurs nowhere leaves the text unchanged |
| Text.ExactMatchIgnoresCase | scripts/test_markdown_examples.py:91 | an exact occurrence is also a case-insensitive one |
| CodeBlocks.FirstFence | scripts/test_markdown_examples.py:106 | the lazy body ends at the first line-start fence after it and no earlier one |
| CodeBlocks.MatchAtSound | scripts/test_markdown_examples.py:106-108 | a match is a line-start fence with a non-empty `\w+` tag ended by a newline, and its body runs to the first following line-start fence |
| CodeBlocks.MatchAtExact | scripts/test_markdown_examples.py:106-108 | conversely, every such fence pair is matched at its start |
| CodeBlocks.FencesOrdered | scripts/test_markdown_examples.py:108 | matches are within the text, in increasing order and non-overlapping |
| CodeBlocks.FencesAreFences | scripts/test_markdown_examples.py:108 | every reported match is a well-formed fence pair |
| CodeBlocks.FencesComplete | scripts/test_markdown_examples.py:108 | no fence pair is missed: each starts inside some reported match |
| CodeBlocks.CodeBlocksOf | scripts/test_markdown_examples.py:108-123 | one block per fence match |
| CodeBlocks.BlockAt | scripts/test_markdown_examples.py:109-123 | block i has the language, rewritten body and line number of match i |
| CodeBlocks.BlocksInOrder | scripts/test_markdown_examples.py:116 | line numbers strictly increase, so blocks are in document order |
| CodeBlocks.BlockOutsideRegions | scripts/test_markdown_examples.py:110-113 | a block outside every REPLACE region keeps its body text |
| CodeBlocks.ExtractCodeBlocks | scripts/test_markdown_examples.py:95-125 | the loop returns exactly the blocks of the document |
| SnippetRunner.CommandLines | scripts/test_markdown_examples.py:139 | the comprehension keeps only non-blank, non-comment lines |
| SnippetRunner.CommandLinesEmpty | scripts/test_markdown_examples.py:139-141 | no command line is kept exactly when every line is blank or a comment |
| SnippetRunner.CommandLinesFirst | scripts/test_markdown_examples.py:139-144 | the first line kept is the first command line |
| SnippetRunner.ShouldSkip | scripts/test_markdown_examples.py:128-154 | a reason is given exactly when the block is skipped |
| SnippetRunner.SkipsOtherLanguages | scripts/test_markdown_examples.py:131-132 | any language but bash and python is skipped, with its name in the reason |
| SnippetRunner.RunsPython | scripts/test_markdown_examples.py:131-154 | a python block is never skipped |
| SnippetRunner.SkipsCommentOnly | scripts/test_markdown_examples.py:138-141 | a bash block of blank and comment lines is skipped as comment-only |
| SnippetRunner.BashDecision | scripts/test_markdown_examples.py:143-154 | otherwise, checked in this order: an install prefix on the first command line skips, then `example.com` skips; the block runs exactly when neither holds |
| SnippetRunner.BoundedSubUnbounded | scripts/test_markdown_examples.py:175-176 | a name that occurs only next to a slash or word character is not rewritten |
| SnippetRunner.BoundedSubWhole | scripts/test_markdown_examples.py:175-176 | a free-standing name becomes its scratch path |
| SnippetRunner.NestedNameNotBounded | scripts/test_markdown_examples.py:167-175 | `densities.tsv` inside `detailed_densities.tsv` does not match |
| SnippetRunner.RewrittenNameNotBounded | scripts/test_markdown_examples.py:167-175 | a name already rewritten under the scratch directory does not match again |
| SnippetRunner.RewriteOutputsUnbounded | scripts/test_markdown_examples.py:168-176 | with no bounded output name in it, the output-name pass leaves the snippet unchanged |
| SnippetRunner.PrepareBashCode | scripts/test_markdown_examples.py:157-178 | the loops dedent, replace fixtures in insertion order, then rewrite the five output names at boundaries |
| SnippetRunner.PythonUnquotedUnchanged | scripts/test_markdown_examples.py:184-186 | python code with no alias between matching quotes is unchanged |
| SnippetRunner.PythonQuotedReplaced | scripts/test_markdown_examples.py:185-186 | a double-quoted alias becomes the double-quoted path |
| SnippetRunner.PreparePythonCode | scripts/test_markdown_examples.py:181-187 | the loop replaces each fixture's double-quoted, then single-quoted form, in insertion order |
| SnippetRunner.RunTest | scripts/test_markdown_examples.py:215-225 | the result is recorded against the block it ran, and it succeeds only for a bash or python block |
| SnippetRunner.RunTestUnknownLanguage | scripts/test_markdown_examples.py:221-222 | another language fails with "Unknown language: …" and never reaches the executor |
| SnippetRunner.RunTestReports | scripts/test_markdown_examples.py:217-225 | a bash or python result is what the executor reports for the snippet prepared for that language |
| SnippetRunner.Unignored | scripts/test_markdown_examples.py:250-251 | no kept file is ignored, and there are at most as many kept files as given |
| SnippetRunner.DropIgnored | scripts/test_markdown_examples.py:251 | the loop keeps exactly the unignored files |
| SnippetRunner.EveryBlockAccounted | scripts/test_markdown_examples.py:283-292 | every block is either skipped or has exactly one result |
| SnippetRunner.ResultsOfRunBlocks | scripts/test_markdown_examples.py:283-292 | every result is the run of a block that was not skipped |
| SnippetRunner.ExitZeroIff | scripts/test_markdown_examples.py:259-320 | the exit status is 0 or 1, and it is 0 exactly when some file was tested and every block run passed |
| SnippetRunner.TestMarkdownFiles | scripts/test_markdown_examples.py:236-320 | the exit status and the passed, failed and skipped counts are those of the blocks of the unignored files |
| FindIter.FindAll | scripts/test_markdown_examples.py:72-108 | the loop of `finditer` collects exactly the scanner's matches |
| FindIter.ScanOrdered | scripts/test_markdown_examples.py:72-108 | `finditer` matches lie within the text and are increasing and non-overlapping |
| FindIter.ScanFound | scripts/test_markdown_examples.py:72-108 | each match is what the pattern gives at its start |
| FindIter.ScanLeftmost | scripts/test_markdown_examples.py:72-108 | a position covered by no match does not match |
| FindIter.ScanEmpty | scripts/test_markdown_examples.py:72-108 | there are no matches exactly when no position matches |
| FindIter.SubNoMatch | scripts/generate_markdown_outputs.py:114-115 | `re.sub` with no match returns the text |
| FindIter.SubIdentity | scripts/generate_markdown_outputs.py:198-211 | `re.sub` whose callback returns each match's own text returns the text |
| FindIter.SubFirst | scripts/generate_markdown_outputs.py:211 | `re.sub` copies the text before the first match, then the callback's text, then continues after the match |
| FindIter.SubAll | scripts/generate_markdown_outputs.py:114-115 | the loop computes exactly `re.sub` |
| FindIter.SubTally | scripts/generate_markdown_outputs.py:184-212 | one pass returns the substituted text, the callbacks' errors in match order and the count of successful matches |
| OutputRender.CoordAtShape | scripts/generate_markdown_outputs.py:114 | a coordinate match is `chr`, digits, `:`, digits, `-`, digits, and no digit follows it |
| OutputRender.CoordAtExact | scripts/generate_markdown_outputs.py:114 | conversely, `chr` and three digit runs are matched in full |
| OutputRender.CoordReplaced | scripts/generate_markdown_outputs.py:114 | a snippet that is one coordinate becomes `contig_00000:0-500` |
| OutputRender.PrepareBash | scripts/generate_markdown_outputs.py:104-117 | a command that names no fixture and no output file, and has no `chr` and no `>`, is run exactly as written |
| OutputRender.NoCoordUnchanged | scripts/generate_markdown_outputs.py:114 | text without `chr` is unchanged by the coordinate rewrite |
| OutputRender.LastNewline | scripts/generate_markdown_outputs.py:115 | finds the last newline of a range, or reports that there is none |
| OutputRender.RedirectEndsAtLineEnd | scripts/generate_markdown_outputs.py:115 | a removed redirect contains `>` and ends at a line end (`$` under MULTILINE) |
| OutputRender.RedirectHasArrow | scripts/generate_markdown_outputs.py:115 | no redirect is matched in text without `>` |
| OutputRender.NoRedirectUnchanged | scripts/generate_markdown_outputs.py:115 | text without `>` is unchanged by the redirect strip |
| OutputRender.NoRedirectInCommand | scripts/generate_markdown_outputs.py:115 | no redirect starts inside a command that has no `>` and ends in a non-space |
| OutputRender.RedirectAtEnd | scripts/generate_markdown_outputs.py:115 | ` > name.tsv` at the end is matched to the end |
| OutputRender.StripOnlyFinalRedirect | scripts/generate_markdown_outputs.py:115 | when only the final redirect matches, the text before it is kept |
| OutputRender.RedirectRemoved | scripts/generate_markdown_outputs.py:115 | `cmd > name.tsv` becomes `cmd` |
| OutputRender.FindCodeBlockBeforeMarker | scripts/generate_markdown_outputs.py:156-165 | a found body is already stripped, and it is a piece of the content ending no later than the marker |
| OutputRender.BashBlocks | scripts/generate_markdown_outputs.py:159-160 | each bash block's body lies within the text |
| OutputRender.NoBlockIff | scripts/generate_markdown_outputs.py:158-163 | no code is found exactly when no bash block opens before the marker |
| OutputRender.FoundBlockIsLast | scripts/generate_markdown_outputs.py:158-165 | the code found is the stripped body of a whole bash block before the marker, and no block starts after it |
| OutputRender.FormatOutput | scripts/generate_markdown_outputs.py:168-173 | with a bound of n lines the output never has more than n + 1 lines: the kept lines and the `...` line |
| OutputRender.FormatOutputFull | scripts/generate_markdown_outputs.py:168-173 | without a bound the output is the stripped stdout |
| OutputRender.FormatOutputShort | scripts/generate_markdown_outputs.py:170-173 | at most N lines: the output is the stripped stdout |
| OutputRender.FormatOutputTruncated | scripts/generate_markdown_outputs.py:171-173 | more than N lines: the output is exactly the first N lines and `...`, N+1 lines in all |
| OutputRender.SectionAtShape | scripts/generate_markdown_outputs.py:184-187 | a region is the start comment and a newline, then text up to the first end comment |
| OutputRender.SectionShape | scripts/generate_markdown_outputs.py:184-211 | every region found is a whole match of the pattern at its start |
| OutputRender.Outcome | scripts/generate_markdown_outputs.py:190-209 | a region is rendered exactly when a bash block precedes it and its command succeeds, and the rendered text opens with the start marker and a fence and closes with a fence and the end marker |
| OutputRender.SectionOutcomeCases | scripts/generate_markdown_outputs.py:193-209 | no preceding block, or a failed command, leaves the region byte-identical with exactly one error; success gives `start\n```\nOUT\n```\nend`, whatever the old interior |
| OutputRender.ErrorsAndReplacements | scripts/generate_markdown_outputs.py:196-209 | each region adds either one error or one replacement |
| OutputRender.AllFailedUnchanged | scripts/generate_markdown_outputs.py:196-211 | when every region fails, the content is unchanged, nothing is counted and every region adds an error |
| OutputRender.ProcessMarker | scripts/generate_markdown_outputs.py:176-212 | returns the substituted content and the count, and appends the regions' errors to the caller's list in order |
| OutputRender.ErrorList.Extend | scripts/generate_markdown_outputs.py:197-204 | the caller's error list grows by the given errors, in order, and nothing else of it changes |
| OutputRender.RenderPasses | scripts/generate_markdown_outputs.py:227-231 | each pass runs on the previous one's output; errors accumulate in order and counts add up |
| OutputRender.ProcessFile | scripts/generate_markdown_outputs.py:215-241 | success exactly when no error was recorded; a write exactly when it succeeded, changed the content and is not a dry run |
| OutputRender.ProcessMarkdownFile | scripts/generate_markdown_outputs.py:49-241 | the same with the two region kinds of the table |
| OutputRender.TwoPasses | scripts/generate_markdown_outputs.py:227-231 | the second pass runs on the first one's output, and errors and counts are the two passes' in order |
| OutputRender.MarkersInOrder | scripts/generate_markdown_outputs.py:38-231 | the truncated kind (5 lines) is rendered before the full kind (no bound) |
| OutputRender.FileErrorsAndReplacements | scripts/generate_markdown_outputs.py:227-236 | errors plus replacements equal the regions found in the two passes |
| OutputRender.GenerateStatus | scripts/generate_markdown_outputs.py:267-305 | the status is 0 or 1, and 0 exactly when there are files and every file succeeded |
| OutputRender.GenerateOutputs | scripts/generate_markdown_outputs.py:264-305 | the status above, the summed count, and for each file a write exactly when it succeeded, changed and this is not a dry run |
| PythonDocs.WrappedLines | scripts/generate_python_docs.py:30-36 | `name(`, one line per parameter, `)` |
| PythonDocs.FormatSignature | scripts/generate_python_docs.py:10-38 | the loop computes the signature text |
| PythonDocs.SignatureUnwrapped | scripts/generate_python_docs.py:15-27 | at most 80 characters, no parameter list, or no parameters: `name+sig` unchanged |
| PythonDocs.SignatureWrapped | scripts/generate_python_docs.py:30-38 | otherwise the lines are `name(`, each parameter indented four spaces with a comma on all but the last, then `)` |
| PythonDocs.EscapeMarkdownBrackets | scripts/generate_python_docs.py:41-66 | the scanning loop computes the escaped text |
| PythonDocs.EscapeNoBrackets | scripts/generate_python_docs.py:59-64 | text without brackets is unchanged |
| PythonDocs.EscapeInCode | scripts/generate_python_docs.py:55-57 | inside inline code every character is kept |
| PythonDocs.EscapeOutsideCode | scripts/generate_python_docs.py:59-62 | outside inline code no bracket survives |
| PythonDocs.CodeSpanKept | scripts/generate_python_docs.py:50-57 | a backtick span is copied verbatim between escaped surroundings |
| PythonDocs.EscapeConcat | scripts/generate_python_docs.py:49-64 | escaping distributes over a piece without backticks |
| PythonDocs.EscapeKeepsBackticks | scripts/generate_python_docs.py:50-53 | the output has as many backticks as the input |
| PythonDocs.HeaderName | scripts/generate_python_docs.py:83-86 | a recognised header names one of the twelve sections |
| PythonDocs.FormatDocstring | scripts/generate_python_docs.py:69-146 | the method computes the formatted docstring |
| PythonDocs.StructureLines | scripts/generate_python_docs.py:74-129 | the line loop and the final flush compute the structured lines |
| PythonDocs.StructureStep | scripts/generate_python_docs.py:83-124 | one iteration's branches are the state machine's step |
| PythonDocs.EscapeFencedLines | scripts/generate_python_docs.py:131-146 | the loop computes the fence-aware escaping |
| PythonDocs.DocstringEmpty | scripts/generate_python_docs.py:71-72 | no docstring or an empty one gives `""` |
| PythonDocs.StructureNoHeaders | scripts/generate_python_docs.py:116-124 | with no header line, the lines pass through unchanged |
| PythonDocs.EscapeLinesNoBrackets | scripts/generate_python_docs.py:135-144 | lines without brackets are unchanged |
| PythonDocs.PlainDocstringUnchanged | scripts/generate_python_docs.py:74-146 | a docstring with no header and no brackets is returned unchanged |
| PythonDocs.FencedLinesKept | scripts/generate_python_docs.py:141-142 | inside a fence, lines are kept |
| PythonDocs.FencedBlockKept | scripts/generate_python_docs.py:136-142 | a fenced block, with its fence lines, is kept verbatim |
| PythonDocs.ArgsHeader | scripts/generate_python_docs.py:83-93 | `# Args` is the header named Args |
| PythonDocs.HeaderStep | scripts/generate_python_docs.py:83-97 | a header flushes the pending parameter, emits `**Name**` and a blank line, and enters argument mode only for Args, Arguments and Parameters |
| PythonDocs.ParamStartStep | scripts/generate_python_docs.py:101-109 | in argument mode a `name (type):` line flushes the previous parameter and starts a new one |
| PythonDocs.ContinuationStep | scripts/generate_python_docs.py:110-112 | a later non-empty line is joined to the current parameter |
| PythonDocs.ContinuationsJoined | scripts/generate_python_docs.py:110-112 | a run of continuation lines is joined in order |
| PythonDocs.HeaderThenParam | scripts/generate_python_docs.py:83-109 | an argument header then a parameter line leaves the header emitted and the parameter pending |
| PythonDocs.PendingFlushed | scripts/generate_python_docs.py:127-129 | the pending parameter becomes `- …` joined by single spaces and a blank line |
| PythonDocs.ArgsParameter | scripts/generate_python_docs.py:83-129 | `# Args`, a parameter and continuations become `**Args**`, a blank, one bullet joining them with spaces, and a blank |
| CliDocs.CommandName | scripts/generate_cli_docs.py:55 | a name found on a line matches `[a-z][a-z0-9_-]*` |
| CliDocs.CommandNameShape | scripts/generate_cli_docs.py:55 | the line is whitespace, then the name, then whitespace |
| CliDocs.CommandNameExact | scripts/generate_cli_docs.py:55 | conversely, whitespace, a name and whitespace yield that name |
| CliDocs.Subcommands | scripts/generate_cli_docs.py:42-57 | there are at most as many names as lines, and every name is well formed |
| CliDocs.ParseSubcommands | scripts/generate_cli_docs.py:29-59 | the loop with `continue` and `break` returns the scanner's names |
| CliDocs.NoHeaderNoNames | scripts/generate_cli_docs.py:44-46 | without a `Command:`/`Commands:` line, in any case, the result is empty |
| CliDocs.BeforeHeaderIgnored | scripts/generate_cli_docs.py:44-49 | lines before the first header are ignored |
| CliDocs.StopsAtSection | scripts/generate_cli_docs.py:49-52 | the first other section header inside the list ends the scan |
| CliDocs.CommandsReenters | scripts/generate_cli_docs.py:44-51 | a repeated `Commands:` line re-enters the list rather than stopping it |
| CliDocs.HeaderNamesNothing | scripts/generate_cli_docs.py:44-55 | a header line never names a command |
| CliDocs.NamesInOrder | scripts/generate_cli_docs.py:53-57 | inside the list, the result is the names of the lines that carry one, in order; other lines are skipped |
| CliDocs.CommandSection | scripts/generate_cli_docs.py:60-71 | six lines, with the help text between two fences, already stripped |
| CliDocs.SectionIgnoresOuterWhitespace | scripts/generate_cli_docs.py:68 | whitespace around the help text does not change the section |
| CliDocs.SectionShape | scripts/generate_cli_docs.py:62-72 | six lines, the fenced one a piece of the help with no surrounding whitespace |
| CliDocs.SectionLinesRoundTrip | scripts/generate_cli_docs.py:64-72 | joined with newlines and split again, the section gives back its six lines |
| Text.StripRemovesOnlyWhitespace | scripts/generate_cli_docs.py:68 | `strip` removes only leading and trailing whitespace, ASCII whitespace being all it knows |
| Text.StripIdempotent | scripts/generate_cli_docs.py:68 | stripping twice is stripping once |
| Text.JoinSplit | scripts/generate_markdown_outputs.py:170-173 | joining the split pieces gives back the text |
| Text.SplitJoin | scripts/generate_markdown_outputs.py:170-173 | splitting joined pieces without the separator gives them back |

## Left out

- Running snippets and commands is not modelled. The executor is a parameter. This covers subprocess calls, the timeout and exception branches, the `HOME` override and the working directory. Only the executor's reported success, stdout and stderr are used.
- File and command-line handling is outside the model: reading and writing files, `tempfile`, `argparse`, the `rglob` file search and all printing. Documents are given as contents. The renderer hands back the text to write rather than writing it.
- The git ignore check is a parameter.
- Building the test data is a parameter: the fixtures are a sequence of (name, path) pairs in the dictionary's insertion order.
- `textwrap.dedent` is a parameter.
- Library introspection in the Python docs generator is not modelled: member listing, the per-function and per-class docs, and the signature's parameter objects. The parameters arrive as an optional list, and its absence stands for the exception branch.
- `get_help_text` and `main` of the CLI docs generator run commands and write a file, so they are left out.
- Matching is ASCII only. `\s`, `\d` and `\w` are their ASCII parts. Case-insensitive matching folds only ASCII letters, so Unicode characters that Python's `re.IGNORECASE` also folds, such as `ſ` or the Kelvin sign, are not matched. The same holds for `str.strip()` and for the blank-line tests built on it (scripts/test_markdown_examples.py:135, 139, 144; scripts/generate_markdown_outputs.py:165, 170; scripts/generate_python_docs.py:80, 83, 93, 136; scripts/generate_cli_docs.py:68): the model strips only the ASCII whitespace of `str.isspace`, while Python also strips U+0085, U+00A0, U+1680, U+2000 to U+200A, U+2028, U+2029, U+202F, U+205F and U+3000. A bash block whose only other line holds a no-break space (U+00A0) is therefore run by the model, where Python skips it as comment-only; and a trailing no-break space after a found command or in command output is kept by the model.
- The replacement strings of `re.sub` in the coordinate rewrite and the output-name rewrite are taken as literal text: they are fixed strings and scratch paths, which carry no backslash escapes.
- ReplaceTags.ApplyReplaceTags: a TO that contains `\` is inserted literally. TO is document text, so it may contain a backslash. Python's `re.sub` would expand an escape such as `\t` into a tab. A group reference such as `\1` has no group to refer to, and an unknown escape such as `\q` is invalid; Python raises `re.error` for both, and nothing catches it, so the whole run aborts. The model has no such error path. Lower-casing TO, like the case folding, is ASCII only.
- Paths are strings: the scratch directory joined with `/`, with no normalisation.
- The tester's optional `print_output_preview` and its line limit only print, so they are left out.
- A docstring is a string or absent; other falsy values are not distinguished.
- The region callback's side effects (the error list and the counter) are collected from values computed per region on the pass's input content, which is the content the source's closure reads.
- Re-reading a file listed twice is not modelled: each listed content is processed on its own.
