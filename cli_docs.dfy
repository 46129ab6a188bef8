/**
 * The help-text side of the command-line documentation generator: finding the subcommand names
 * listed under the `Commands:` header of a clap-style help screen, and laying out the help of
 * one command as a markdown section.
 *
 * The three regular expressions of the parser are written out as scanners: the commands header
 * `^Commands?:` (ignoring case), the header of any other section `^[A-Z][a-z]+:`, and the
 * command line `^\s+([a-z][a-z0-9_-]*)\s+`, whose first group is the name.
 */
module CliDocs {
  import opened Wrappers
  import opened Text
  import opened Folds

  /** A line opening the commands list: `command:` or `commands:` at its start, in any letter case. */
  predicate IsCommandsHeader(line: String)
  {
    StartsWith(LowerStr(line), "command:") || StartsWith(LowerStr(line), "commands:")
  }

  /** A line opening another section: a capital letter, one or more lower-case letters, a colon. */
  predicate IsSectionHeader(line: String)
  {
    |line| > 0 && IsUpperLetter(line[0]) &&
    (var e := RunEnd(line, 1, IsLowerLetter); 1 < e < |line| && line[e] == ':')
  }

  /** A character that may follow the first letter of a command name. */
  predicate IsNameChar(c: char)
  {
    IsLowerLetter(c) || IsDigit(c) || c == '_' || c == '-'
  }

  /** A command name: a lower-case letter, then lower-case letters, digits, `_` and `-`. */
  predicate IsName(s: String)
  {
    |s| > 0 && IsLowerLetter(s[0]) && forall k :: 0 <= k < |s| ==> IsNameChar(s[k])
  }

  /**
   * The name on an indented command line: the leading whitespace, then the longest run that
   * forms a name, which must be followed by whitespace.
   */
  function CommandName(line: String): (r: Option<String>)
    ensures r.Some? ==> IsName(r.value)
  {
    var w := RunEnd(line, 0, IsSpace);
    if w == 0 || w == |line| || !IsLowerLetter(line[w]) then None
    else
      var e := RunEnd(line, w + 1, IsNameChar);
      if e < |line| && IsSpace(line[e]) then Some(line[w..e]) else None
  }

  /**
   * The subcommands named in `lines`, reading them in order; `inSection` says whether the scan is
   * inside the commands list. A commands header (re-)enters the list, another section header
   * inside it ends the scan, and a line naming a command adds that name.
   */
  function Subcommands(lines: seq<String>, inSection: bool): (r: seq<String>)
    ensures |r| <= |lines|
    ensures forall k :: 0 <= k < |r| ==> IsName(r[k])
    decreases |lines|
  {
    if lines == [] then []
    else if IsCommandsHeader(lines[0]) then Subcommands(lines[1..], true)
    else if !inSection then Subcommands(lines[1..], false)
    else if IsSectionHeader(lines[0]) then []
    else
      match CommandName(lines[0])
      case Some(name) => [name] + Subcommands(lines[1..], true)
      case None => Subcommands(lines[1..], true)
  }

  /** `parse_subcommands`: the lines of the help text scanned with an in-section flag, stopping early. */
  method ParseSubcommands(helpText: String) returns (subcommands: seq<String>)
    ensures subcommands == Subcommands(Split(helpText, '\n'), false)
  {
    subcommands := [];
    var lines := Split(helpText, '\n');
    var inCommandsSection := false;
    for i := 0 to |lines|
      invariant subcommands + Subcommands(lines[i..], inCommandsSection) == Subcommands(lines, false)
    {
      var line := lines[i];
      assert lines[i..][0] == line && lines[i..][1..] == lines[i + 1..];
      if IsCommandsHeader(line) {
        inCommandsSection := true;
        continue;
      }
      if inCommandsSection {
        if IsSectionHeader(line) {
          assert Subcommands(lines[i..], true) == [];
          assert subcommands + [] == subcommands;
          break;
        }
        var name := CommandName(line);
        if name.Some? {
          subcommands := subcommands + [name.value];
        }
      }
    }
  }

  /** The name a line contributes inside the commands list: its command name, if any. */
  function NameOf(line: String): seq<String>
  {
    match CommandName(line)
    case Some(name) => [name]
    case None => []
  }

  /** A help text without a commands header has no subcommands. */
  lemma {:induction false} NoHeaderNoNames(lines: seq<String>)
    requires forall i :: 0 <= i < |lines| ==> !IsCommandsHeader(lines[i])
    ensures Subcommands(lines, false) == []
    decreases |lines|
  {
    if lines != [] {
      NoHeaderNoNames(lines[1..]);
    }
  }

  /** Lines before the first commands header are ignored: the scan starts after it. */
  lemma {:induction false} BeforeHeaderIgnored(before: seq<String>, header: String, after: seq<String>)
    requires forall i :: 0 <= i < |before| ==> !IsCommandsHeader(before[i])
    requires IsCommandsHeader(header)
    ensures Subcommands(before + [header] + after, false) == Subcommands(after, true)
    decreases |before|
  {
    if before == [] {
      assert before + [header] + after == [header] + after;
      assert ([header] + after)[1..] == after;
    } else {
      assert (before + [header] + after)[1..] == before[1..] + [header] + after;
      BeforeHeaderIgnored(before[1..], header, after);
    }
  }

  /**
   * Inside the list, the first section header that is not itself a commands header ends the
   * scan: nothing after it is read.
   */
  lemma {:induction false} StopsAtSection(body: seq<String>, stop: String, rest: seq<String>, inSection: bool)
    requires forall i :: 0 <= i < |body| ==> IsCommandsHeader(body[i]) || !IsSectionHeader(body[i])
    requires IsSectionHeader(stop) && !IsCommandsHeader(stop)
    requires inSection || exists i :: 0 <= i < |body| && IsCommandsHeader(body[i])
    ensures Subcommands(body + [stop] + rest, inSection) == Subcommands(body + [stop], inSection)
    decreases |body|
  {
    if body == [] {
      assert body + [stop] + rest == [stop] + rest;
      assert body + [stop] == [stop];
    } else {
      var line := body[0];
      assert (body + [stop] + rest)[0] == line && (body + [stop] + rest)[1..] == body[1..] + [stop] + rest;
      assert (body + [stop])[0] == line && (body + [stop])[1..] == body[1..] + [stop];
      var next := IsCommandsHeader(line) || inSection;
      if !next {
        var i :| 0 <= i < |body| && IsCommandsHeader(body[i]);
        assert i > 0;
        assert body[1..][i - 1] == body[i];
      }
      StopsAtSection(body[1..], stop, rest, next);
    }
  }

  /**
   * `Commands:` is also shaped like a section header, yet inside the list it re-enters the list
   * rather than ending it.
   */
  lemma CommandsReenters(rest: seq<String>)
    ensures IsSectionHeader("Commands:") && IsCommandsHeader("Commands:")
    ensures Subcommands(["Commands:"] + rest, true) == Subcommands(rest, true)
  {
    var line := "Commands:";
    assert RunEnd(line, 1, IsLowerLetter) == 8 by {
      RunEndExact(line, 1, 8, IsLowerLetter);
    }
    assert LowerStr(line) == "commands:";
    assert (["Commands:"] + rest)[0] == line && (["Commands:"] + rest)[1..] == rest;
  }

  /** A commands header starts with a letter, so it never names a command itself. */
  lemma HeaderNamesNothing(line: String)
    requires IsCommandsHeader(line)
    ensures CommandName(line).None?
  {
    assert LowerStr(line)[0] == 'c';
    assert !IsSpace(line[0]);
  }

  /**
   * Inside the list and before any other section header, the result is exactly the names of the
   * lines that carry one, in the order of those lines.
   */
  lemma {:induction false} NamesInOrder(lines: seq<String>)
    requires forall i :: 0 <= i < |lines| ==> IsCommandsHeader(lines[i]) || !IsSectionHeader(lines[i])
    ensures Subcommands(lines, true) == FlatMap(lines, NameOf)
    decreases |lines|
  {
    if lines != [] {
      var line := lines[0];
      NamesInOrder(lines[1..]);
      assert lines == [line] + lines[1..];
      FlatMapConcat([line], lines[1..], NameOf);
      assert FlatMap([line], NameOf) == NameOf(line) by {
        assert [line][..0] == [];
      }
      if IsCommandsHeader(line) {
        HeaderNamesNothing(line);
        assert NameOf(line) == [];
      }
    }
  }

  /** What a command line looks like when a name is found on it: whitespace, the name, whitespace. */
  lemma CommandNameShape(line: String) returns (w: nat)
    requires CommandName(line).Some?
    ensures 0 < w && w + |CommandName(line).value| < |line|
    ensures forall k :: 0 <= k < w ==> IsSpace(line[k])
    ensures line[w..w + |CommandName(line).value|] == CommandName(line).value
    ensures IsSpace(line[w + |CommandName(line).value|])
  {
    w := RunEnd(line, 0, IsSpace);
  }

  /** Conversely, whitespace, a name and whitespace at the start of a line yield that name. */
  lemma CommandNameExact(ws: String, name: String, c: char, rest: String)
    requires ws != [] && forall k :: 0 <= k < |ws| ==> IsSpace(ws[k])
    requires IsName(name) && IsSpace(c)
    ensures CommandName(ws + name + [c] + rest) == Some(name)
  {
    var line := ws + name + [c] + rest;
    var w := |ws|;
    var e := w + |name|;
    assert line[w] == name[0];
    assert RunEnd(line, 0, IsSpace) == w by {
      RunEndExact(line, 0, w, IsSpace);
    }
    assert line[e] == c;
    assert RunEnd(line, w + 1, IsNameChar) == e by {
      forall k | w + 1 <= k < e ensures IsNameChar(line[k]) {
        assert line[k] == name[k - w];
      }
      RunEndExact(line, w + 1, e, IsNameChar);
    }
    assert line[w..e] == name;
  }

  /** `format_command_section`: a heading with the command name, then the stripped help in a fence. */
  function CommandSection(name: String, help: String): (r: seq<String>)
    ensures |r| == 6 && r[2] == "```" && r[4] == "```"
    ensures Strip(r[3]) == r[3]
  {
    StripIdempotent(help);
    ["## `" + name + "`", "", "```", Strip(help), "```", ""]
  }

  /** The section does not depend on whitespace around the help text. */
  lemma SectionIgnoresOuterWhitespace(name: String, help: String)
    ensures CommandSection(name, Strip(help)) == CommandSection(name, help)
  {
    StripIdempotent(help);
  }

  /**
   * The section has six lines, the fenced one being a piece of the help text with no
   * surrounding whitespace.
   */
  lemma SectionShape(name: String, help: String)
    ensures |CommandSection(name, help)| == 6
    ensures exists a, b :: 0 <= a <= b <= |help| && CommandSection(name, help)[3] == help[a..b]
    ensures var body := CommandSection(name, help)[3]; body == [] || (!IsSpace(body[0]) && !IsSpace(body[|body| - 1]))
  {
    StripRemovesOnlyWhitespace(help);
  }

  /** Written out as lines and read back, the section gives back its six lines. */
  lemma SectionLinesRoundTrip(name: String, help: String)
    requires '\n' !in name && '\n' !in help
    ensures Split(Join(CommandSection(name, help), '\n'), '\n') == CommandSection(name, help)
  {
    var lines := CommandSection(name, help);
    assert '\n' !in Strip(help) by {
      StripRemovesOnlyWhitespace(help);
    }
    assert '\n' !in lines[0] by {
      assert lines[0] == "## `" + name + "`";
    }
    SplitJoin(lines, '\n');
  }
}
