/**
 * The text formatters of the Python API documentation generator: wrapping a long function
 * signature one parameter per line, escaping square brackets outside inline code, and turning
 * a docstring into markdown (bold section headers, parameter bullets, fenced code kept as is).
 *
 * A signature is given as the function's name, the rendered signature text and, when the
 * parameters can be listed, the rendered parameters in order.
 */
module PythonDocs {
  import opened Wrappers
  import opened Text
  import opened Folds

  // ---------------------------------------------------------------- format_signature

  /** Signatures up to this many characters stay on one line. */
  const MAX_SIGNATURE_WIDTH: nat := 80

  /** The line for parameter `i` of a wrapped signature: indented four spaces, with a comma unless it is the last. */
  function ParamLine(params: seq<String>, i: nat): String
    requires i < |params|
  {
    "    " + params[i] + (if i < |params| - 1 then "," else "")
  }

  /** The lines of a wrapped signature: `name(`, one line per parameter, `)`. */
  function WrappedLines(name: String, params: seq<String>): (lines: seq<String>)
    ensures |lines| == |params| + 2 && lines[0] == name + "(" && lines[|params| + 1] == ")"
    ensures forall i :: 0 <= i < |params| ==> lines[i + 1] == ParamLine(params, i)
  {
    [name + "("] + seq(|params|, i requires 0 <= i < |params| => ParamLine(params, i)) + [")"]
  }

  /**
   * `format_signature`: the signature on one line when it is short enough, when the parameters
   * cannot be listed (`None`) or when there are none; otherwise the wrapped lines.
   */
  function Signature(name: String, sig: String, params: Option<seq<String>>): String
  {
    var flat := name + sig;
    if |flat| <= MAX_SIGNATURE_WIDTH || params.None? || params.value == [] then flat
    else Join(WrappedLines(name, params.value), '\n')
  }

  method FormatSignature(name: String, sig: String, params: Option<seq<String>>) returns (r: String)
    ensures r == Signature(name, sig, params)
  {
    var sigStr := name + sig;
    if |sigStr| <= MAX_SIGNATURE_WIDTH {
      return sigStr;
    }
    if params.None? {
      return sigStr;
    }
    var ps := params.value;
    if ps == [] {
      return sigStr;
    }
    var lines := [name + "("];
    for i := 0 to |ps|
      invariant |lines| == i + 1 && lines[0] == name + "("
      invariant forall k :: 0 <= k < i ==> lines[k + 1] == ParamLine(ps, k)
    {
      if i < |ps| - 1 {
        lines := lines + ["    " + ps[i] + ","];
      } else {
        lines := lines + ["    " + ps[i]];
      }
    }
    lines := lines + [")"];
    assert lines == WrappedLines(name, ps);
    r := Join(lines, '\n');
  }

  /** A signature of at most 80 characters, or one whose parameters cannot be listed or are none, is returned as written. */
  lemma SignatureUnwrapped(name: String, sig: String, params: Option<seq<String>>)
    requires |name + sig| <= MAX_SIGNATURE_WIDTH || params.None? || params.value == []
    ensures Signature(name, sig, params) == name + sig
  {
  }

  lemma NoNewlineInWrapped(name: String, params: seq<String>)
    requires '\n' !in name && forall i :: 0 <= i < |params| ==> '\n' !in params[i]
    ensures forall i :: 0 <= i < |WrappedLines(name, params)| ==> '\n' !in WrappedLines(name, params)[i]
  {
    var lines := WrappedLines(name, params);
    forall i | 0 <= i < |lines| ensures '\n' !in lines[i] {
      if 0 < i < |lines| - 1 {
        assert lines[i] == "    " + params[i - 1] + (if i - 1 < |params| - 1 then "," else "");
      }
    }
  }

  /** A longer signature with parameters is written as the wrapped lines, which splitting gives back. */
  lemma SignatureLines(name: String, sig: String, params: seq<String>)
    requires |name + sig| > MAX_SIGNATURE_WIDTH && params != []
    requires '\n' !in name && forall i :: 0 <= i < |params| ==> '\n' !in params[i]
    ensures Split(Signature(name, sig, Some(params)), '\n') == WrappedLines(name, params)
  {
    var lines := WrappedLines(name, params);
    assert Signature(name, sig, Some(params)) == Join(lines, '\n');
    NoNewlineInWrapped(name, params);
    SplitJoin(lines, '\n');
  }

  /**
   * A longer signature with parameters splits back into exactly `name(`, one line per
   * parameter indented four spaces with a comma on all but the last, and `)`.
   */
  lemma SignatureWrapped(name: String, sig: String, params: seq<String>)
    requires |name + sig| > MAX_SIGNATURE_WIDTH && params != []
    requires '\n' !in name && forall i :: 0 <= i < |params| ==> '\n' !in params[i]
    ensures var lines := Split(Signature(name, sig, Some(params)), '\n');
            && |lines| == |params| + 2
            && lines[0] == name + "(" && lines[|params| + 1] == ")"
            && forall i :: 0 <= i < |params| ==>
                 lines[i + 1] == "    " + params[i] + (if i < |params| - 1 then "," else "")
  {
    var lines := Split(Signature(name, sig, Some(params)), '\n');
    assert lines == WrappedLines(name, params) by {
      SignatureLines(name, sig, params);
    }
    forall i | 0 <= i < |params|
      ensures lines[i + 1] == "    " + params[i] + (if i < |params| - 1 then "," else "")
    {
      assert lines[i + 1] == ParamLine(params, i);
    }
  }


  // ---------------------------------------------------------------- escape_markdown_brackets

  /** What one character becomes: a bracket outside inline code becomes its HTML entity; everything else is kept. */
  function Piece(c: char, inCode: bool): String
  {
    if c == '`' || inCode then [c]
    else if c == '[' then "&#91;"
    else if c == ']' then "&#93;"
    else [c]
  }

  /** A backtick toggles inline code. */
  function Next(c: char, inCode: bool): bool
  {
    if c == '`' then !inCode else inCode
  }

  /** `escape_markdown_brackets` from the state `inCode`. */
  function EscapeFrom(s: String, inCode: bool): String
    decreases |s|
  {
    if s == [] then [] else Piece(s[0], inCode) + EscapeFrom(s[1..], Next(s[0], inCode))
  }

  function Escaped(s: String): String
  {
    EscapeFrom(s, false)
  }

  method EscapeMarkdownBrackets(text: String) returns (r: String)
    ensures r == Escaped(text)
  {
    r := [];
    var inInlineCode := false;
    for i := 0 to |text|
      invariant r + EscapeFrom(text[i..], inInlineCode) == Escaped(text)
    {
      var c := text[i];
      ghost var done, rest := r + Piece(c, inInlineCode), EscapeFrom(text[i + 1..], Next(c, inInlineCode));
      assert done + rest == Escaped(text) by {
        assert text[i..][1..] == text[i + 1..];
        assert EscapeFrom(text[i..], inInlineCode) == Piece(c, inInlineCode) + rest;
      }
      if c == '`' {
        inInlineCode := !inInlineCode;
        r := r + [c];
        assert r == done && EscapeFrom(text[i + 1..], inInlineCode) == rest;
        continue;
      }
      if inInlineCode {
        r := r + [c];
        assert r == done && EscapeFrom(text[i + 1..], inInlineCode) == rest;
        continue;
      }
      if c == '[' {
        r := r + "&#91;";
      } else if c == ']' {
        r := r + "&#93;";
      } else {
        r := r + [c];
      }
      assert r == done && EscapeFrom(text[i + 1..], inInlineCode) == rest;
    }
    assert text[|text|..] == [];
  }

  /** Text without brackets is returned unchanged, whatever its backticks. */
  lemma {:induction false} EscapeNoBrackets(s: String, inCode: bool)
    requires '[' !in s && ']' !in s
    ensures EscapeFrom(s, inCode) == s
    decreases |s|
  {
    if s != [] {
      assert s == [s[0]] + s[1..];
      EscapeNoBrackets(s[1..], if s[0] == '`' then !inCode else inCode);
    }
  }

  /** Inside inline code and up to the next backtick, nothing is escaped. */
  lemma {:induction false} EscapeInCode(s: String)
    requires '`' !in s
    ensures EscapeFrom(s, true) == s
    decreases |s|
  {
    if s != [] {
      assert s == [s[0]] + s[1..];
      EscapeInCode(s[1..]);
    }
  }

  /** Outside inline code, text without backticks keeps no bracket. */
  lemma {:induction false} EscapeOutsideCode(s: String)
    requires '`' !in s
    ensures '[' !in EscapeFrom(s, false) && ']' !in EscapeFrom(s, false)
    decreases |s|
  {
    if s != [] {
      assert s == [s[0]] + s[1..];
      EscapeOutsideCode(s[1..]);
    }
  }

  /** One character at the front is escaped before the rest, which starts from the state it leaves. */
  lemma EscapeCons(c: char, t: String, inCode: bool)
    ensures EscapeFrom([c] + t, inCode) == Piece(c, inCode) + EscapeFrom(t, Next(c, inCode))
  {
    assert ([c] + t)[0] == c && ([c] + t)[1..] == t;
  }

  /** An inline code span keeps its brackets, and the text around it has its brackets escaped. */
  lemma CodeSpanKept(before: String, code: String, after: String)
    requires '`' !in before && '`' !in code
    ensures Escaped(before + "`" + code + "`" + after) ==
            EscapeFrom(before, false) + "`" + code + "`" + EscapeFrom(after, false)
  {
    var closing := ['`'] + after;
    var tail := ['`'] + (code + closing);
    var escapedAfter := EscapeFrom(after, false);
    SpanRegroup(before, code, after);
    SpanRegroup(EscapeFrom(before, false), code, escapedAfter);
    assert EscapeFrom(before + tail, false) == EscapeFrom(before, false) + EscapeFrom(tail, false) by {
      EscapeConcat(before, tail, false);
    }
    assert EscapeFrom(closing, true) == ['`'] + escapedAfter by {
      EscapeCons('`', after, true);
    }
    assert EscapeFrom(code + closing, true) == code + (['`'] + escapedAfter) by {
      EscapeConcat(code, closing, true);
      EscapeInCode(code);
    }
    assert EscapeFrom(tail, false) == ['`'] + (code + (['`'] + escapedAfter)) by {
      EscapeCons('`', code + closing, false);
    }
  }

  /**
   * A text around a code span, grouped from the right.
   * A proof step with no counterpart in the source: stated apart so that the solver
   * proves it in a small context, which keeps the proofs that use it cheap.
   */
  lemma SpanRegroup(before: String, code: String, after: String)
    ensures before + "`" + code + "`" + after == before + (['`'] + (code + (['`'] + after)))
  {
  }

  /** Escaping a concatenation escapes the second part from the state the first part ends in. */
  lemma {:induction false} EscapeConcat(a: String, b: String, inCode: bool)
    requires '`' !in a
    ensures EscapeFrom(a + b, inCode) == EscapeFrom(a, inCode) + EscapeFrom(b, inCode)
    decreases |a|
  {
    if a == [] {
      assert a + b == b;
    } else {
      var t := a[1..];
      assert '`' !in t by {
        assert forall x :: x in t ==> x in a;
      }
      EscapeConcat(t, b, inCode);
      assert a[0] in a;
      EscapeConcatStep(a, b, inCode);
    }
  }

  /** The inductive step of `EscapeConcat`: a first character that leaves the state alone. */
  lemma EscapeConcatStep(a: String, b: String, inCode: bool)
    requires a != [] && Next(a[0], inCode) == inCode
    requires EscapeFrom(a[1..] + b, inCode) == EscapeFrom(a[1..], inCode) + EscapeFrom(b, inCode)
    ensures EscapeFrom(a + b, inCode) == EscapeFrom(a, inCode) + EscapeFrom(b, inCode)
  {
    var p, t := Piece(a[0], inCode), a[1..];
    var x, y := EscapeFrom(t, inCode), EscapeFrom(b, inCode);
    assert EscapeFrom(a + b, inCode) == p + (x + y) by {
      DropFirstOfConcat(a, b);
      EscapeFirst(a + b, inCode);
    }
    assert EscapeFrom(a, inCode) == p + x by {
      EscapeFirst(a, inCode);
    }
    Regroup(EscapeFrom(a + b, inCode), EscapeFrom(a, inCode), p, x, y);
  }

  /**
   * A text built as `p + (x + y)` is the text `p + x` followed by `y`.
   * A proof step with no counterpart in the source: stated apart so that the solver
   * proves it in a small context, which keeps the proofs that use it cheap.
   */
  lemma Regroup(whole: String, front: String, p: String, x: String, y: String)
    requires whole == p + (x + y) && front == p + x
    ensures whole == front + y
  {
  }

  /**
   * A non-empty text is escaped one character at a time.
   * A proof step with no counterpart in the source: stated apart so that the solver
   * proves it in a small context, which keeps the proofs that use it cheap.
   */
  lemma EscapeFirst(s: String, inCode: bool)
    requires s != []
    ensures EscapeFrom(s, inCode) == Piece(s[0], inCode) + EscapeFrom(s[1..], Next(s[0], inCode))
  {
  }

  /**
   * A concatenation starts with its first part's first character and continues with the rest.
   * A proof step with no counterpart in the source: stated apart so that the solver
   * proves it in a small context, which keeps the proofs that use it cheap.
   */
  lemma DropFirstOfConcat(a: String, b: String)
    requires a != []
    ensures (a + b)[0] == a[0] && (a + b)[1..] == a[1..] + b
  {
  }

  lemma {:induction false} CountAbsent(s: String, c: char)
    requires c !in s
    ensures CountChar(s, c) == 0
    decreases |s|
  {
    if s != [] {
      assert forall x :: x in s[1..] ==> x in s;
      CountAbsent(s[1..], c);
    }
  }

  /** Escaping keeps every backtick. */
  lemma {:induction false} EscapeKeepsBackticks(s: String, inCode: bool)
    ensures CountChar(EscapeFrom(s, inCode), '`') == CountChar(s, '`')
    decreases |s|
  {
    if s != [] {
      var head := Piece(s[0], inCode);
      EscapeKeepsBackticks(s[1..], Next(s[0], inCode));
      CountCharAppend(head, EscapeFrom(s[1..], Next(s[0], inCode)), '`');
      if s[0] == '`' || inCode || (s[0] != '[' && s[0] != ']') {
        assert head == [s[0]] && head[1..] == [];
      } else {
        assert '`' !in head;
        CountAbsent(head, '`');
      }
    }
  }

  // ---------------------------------------------------------------- format_docstring

  /** The section names a `# Name` line is recognised with. */
  const SECTION_HEADERS: seq<String> := [
    "Args", "Arguments", "Parameters", "Returns", "Yields", "Raises",
    "Note", "Notes", "Example", "Examples", "Errors", "Example output"
  ]

  /** The sections whose lines are read as parameter descriptions. */
  const ARGUMENT_HEADERS: seq<String> := ["Args", "Arguments", "Parameters"]

  /** The section a line names, when it is `#` followed by one of the recognised names, surrounding whitespace aside. */
  function HeaderName(line: String): (r: Option<String>)
    ensures r.Some? ==> r.value in SECTION_HEADERS
  {
    var stripped := Strip(line);
    if stripped != [] && stripped[0] == '#' && Strip(stripped[1..]) in SECTION_HEADERS then Some(Strip(stripped[1..]))
    else None
  }

  /** A line that opens a new parameter: it holds `(` and `):` and starts with neither `-` nor `*`. */
  predicate IsParamStart(stripped: String)
  {
    '(' in stripped && Contains(stripped, "):") && !StartsWith(stripped, "-") && !StartsWith(stripped, "*")
  }

  /** The lines a finished parameter becomes: its pieces joined by single spaces as a bullet, then an empty line. */
  function Flush(param: seq<String>): seq<String>
  {
    if param == [] then [] else ["- " + Join(param, ' '), ""]
  }

  /** The state of the first loop of `format_docstring`: the lines so far, the argument mode, the parameter being built. */
  datatype DocState = DocState(out: seq<String>, inArgs: bool, param: seq<String>)

  /** One line of the first loop of `format_docstring`. */
  function Step(st: DocState, line: String): DocState
  {
    var stripped := Strip(line);
    match HeaderName(line)
    case Some(name) => DocState(st.out + Flush(st.param) + ["**" + name + "**", ""], name in ARGUMENT_HEADERS, [])
    case None =>
      if st.inArgs && stripped != [] then
        if IsParamStart(stripped) then DocState(st.out + Flush(st.param), true, [stripped])
        else if st.param != [] then DocState(st.out, true, st.param + [stripped])
        else DocState(st.out + [line], true, [])
      else if st.param != [] then DocState(st.out + Flush(st.param) + [line], false, [])
      else DocState(st.out + [line], st.inArgs, [])
  }

  /** The first loop of `format_docstring` over `lines`, from the initial state. */
  function Structure(lines: seq<String>): DocState
    decreases |lines|
  {
    Fold(DocState([], false, []), lines, Step)
  }

  /** The lines after the first loop, with the parameter still being built flushed. */
  function Structured(lines: seq<String>): seq<String>
  {
    var st := Structure(lines);
    st.out + Flush(st.param)
  }

  predicate IsFence(line: String)
  {
    StartsWith(Strip(line), "```")
  }

  /** The second loop of `format_docstring`: fence lines toggle fenced code, lines outside it have their brackets escaped. */
  function EscapeLines(lines: seq<String>, inFence: bool): seq<String>
    decreases |lines|
  {
    if lines == [] then [] else [LineOut(lines[0], inFence)] + EscapeLines(lines[1..], FenceAfter(lines[0], inFence))
  }

  /** A line as the second loop emits it: fence lines and fenced lines as they are, others escaped. */
  function LineOut(line: String, inFence: bool): String
  {
    if IsFence(line) || inFence then line else Escaped(line)
  }

  /** A fence line toggles fenced code. */
  function FenceAfter(line: String, inFence: bool): bool
  {
    if IsFence(line) then !inFence else inFence
  }

  /** One line of the second loop: emitting it leaves the rest to be done from the state after it. */
  lemma EscapeLinesStep(lines: seq<String>, i: nat, done: seq<String>, inFence: bool)
    requires i < |lines|
    requires done + EscapeLines(lines[i..], inFence) == EscapeLines(lines, false)
    ensures (done + [LineOut(lines[i], inFence)]) + EscapeLines(lines[i + 1..], FenceAfter(lines[i], inFence)) ==
            EscapeLines(lines, false)
  {
    assert lines[i..][0] == lines[i] && lines[i..][1..] == lines[i + 1..];
  }

  /** `format_docstring`; `None` stands for a missing docstring. */
  function Docstring(doc: Option<String>): String
  {
    if doc.None? || doc.value == [] then []
    else Join(EscapeLines(Structured(Split(doc.value, '\n')), false), '\n')
  }

  method FormatDocstring(doc: Option<String>) returns (r: String)
    ensures r == Docstring(doc)
  {
    if doc.None? || doc.value == [] {
      return [];
    }
    var formattedLines := StructureLines(Split(doc.value, '\n'));
    var resultLines := EscapeFencedLines(formattedLines);
    r := Join(resultLines, '\n');
  }

  /** The first loop of `format_docstring`: headers, parameter bullets, and the last parameter flushed. */
  method StructureLines(lines: seq<String>) returns (formattedLines: seq<String>)
    ensures formattedLines == Structured(lines)
  {
    formattedLines := [];
    var inArgsSection := false;
    var currentParam: seq<String> := [];
    for i := 0 to |lines|
      invariant DocState(formattedLines, inArgsSection, currentParam) == Structure(lines[..i])
    {
      assert Structure(lines[..i + 1]) == Step(Structure(lines[..i]), lines[i]) by {
        assert lines[..i + 1] == lines[..i] + [lines[i]];
        FoldSnoc(DocState([], false, []), lines[..i], lines[i], Step);
      }
      formattedLines, inArgsSection, currentParam := StructureStep(formattedLines, inArgsSection, currentParam, lines[i]);
    }
    assert lines[..|lines|] == lines;
    if currentParam != [] {
      formattedLines := formattedLines + ["- " + Join(currentParam, ' '), ""];
    }
  }

  /** One pass of the first loop of `format_docstring`, on one line of the docstring. */
  method StructureStep(formattedLines: seq<String>, inArgsSection: bool, currentParam: seq<String>, line: String)
    returns (lines': seq<String>, inArgs': bool, param': seq<String>)
    ensures DocState(lines', inArgs', param') == Step(DocState(formattedLines, inArgsSection, currentParam), line)
  {
    lines', inArgs', param' := formattedLines, inArgsSection, currentParam;
    var stripped := Strip(line);
    var header := HeaderName(line);
    if header.Some? {
      if param' != [] {
        lines' := lines' + ["- " + Join(param', ' '), ""];
        param' := [];
      }
      var sectionName := header.value;
      inArgs' := sectionName in ARGUMENT_HEADERS;
      lines' := lines' + ["**" + sectionName + "**", ""];
    } else if inArgs' && stripped != [] {
      if IsParamStart(stripped) {
        if param' != [] {
          lines' := lines' + ["- " + Join(param', ' '), ""];
        }
        param' := [stripped];
      } else if param' != [] {
        param' := param' + [stripped];
      } else {
        lines' := lines' + [line];
      }
    } else {
      if param' != [] {
        lines' := lines' + ["- " + Join(param', ' '), ""];
        param' := [];
        inArgs' := false;
      }
      lines' := lines' + [line];
    }
  }


  /** The second loop of `format_docstring`: brackets escaped outside fenced code. */
  method EscapeFencedLines(formattedLines: seq<String>) returns (resultLines: seq<String>)
    ensures resultLines == EscapeLines(formattedLines, false)
  {
    resultLines := [];
    var inFencedCodeBlock := false;
    for i := 0 to |formattedLines|
      invariant resultLines + EscapeLines(formattedLines[i..], inFencedCodeBlock) == EscapeLines(formattedLines, false)
    {
      var line := formattedLines[i];
      ghost var nextFence := FenceAfter(line, inFencedCodeBlock);
      ghost var done := resultLines + [LineOut(line, inFencedCodeBlock)];
      EscapeLinesStep(formattedLines, i, resultLines, inFencedCodeBlock);
      if IsFence(line) {
        inFencedCodeBlock := !inFencedCodeBlock;
        resultLines := resultLines + [line];
        assert resultLines == done && inFencedCodeBlock == nextFence;
        continue;
      }
      if inFencedCodeBlock {
        resultLines := resultLines + [line];
      } else {
        var escaped := EscapeMarkdownBrackets(line);
        resultLines := resultLines + [escaped];
      }
      assert resultLines == done && inFencedCodeBlock == nextFence;
    }
    assert formattedLines[|formattedLines|..] == [];
  }

  /** An empty or missing docstring gives empty text. */
  lemma DocstringEmpty()
    ensures Docstring(None) == [] && Docstring(Some([])) == []
  {
  }

  /** One more line runs one more step of the first loop. */
  lemma StructureSnoc(lines: seq<String>, line: String)
    ensures Structure(lines + [line]) == Step(Structure(lines), line)
  {
    FoldSnoc(DocState([], false, []), lines, line, Step);
  }

  /** One line at the front is written out before the rest, with the fence state it leaves. */
  lemma EscapeLinesCons(line: String, rest: seq<String>, inFence: bool)
    ensures EscapeLines([line] + rest, inFence) == [LineOut(line, inFence)] + EscapeLines(rest, FenceAfter(line, inFence))
  {
    assert ([line] + rest)[0] == line && ([line] + rest)[1..] == rest;
  }

  /** Without a recognised header, the first loop passes every line through and never enters argument mode. */
  lemma {:induction false} StructureNoHeaders(lines: seq<String>)
    requires forall i :: 0 <= i < |lines| ==> HeaderName(lines[i]).None?
    ensures Structure(lines) == DocState(lines, false, [])
    decreases |lines|
  {
    if lines != [] {
      var init := lines[..|lines| - 1];
      var last := lines[|lines| - 1];
      StructureNoHeaders(init);
      assert lines == init + [last];
      StructureSnoc(init, last);
      assert HeaderName(last).None?;
    }
  }

  /** Lines without brackets come through the second loop unchanged, inside fences or not. */
  lemma {:induction false} EscapeLinesNoBrackets(lines: seq<String>, inFence: bool)
    requires forall i :: 0 <= i < |lines| ==> '[' !in lines[i] && ']' !in lines[i]
    ensures EscapeLines(lines, inFence) == lines
    decreases |lines|
  {
    if lines != [] {
      assert lines == [lines[0]] + lines[1..];
      EscapeNoBrackets(lines[0], false);
      EscapeLinesNoBrackets(lines[1..], FenceAfter(lines[0], inFence));
      EscapeLinesCons(lines[0], lines[1..], inFence);
    }
  }

  /** A docstring with no recognised header and no brackets is returned unchanged. */
  lemma PlainDocstringUnchanged(doc: String)
    requires '[' !in doc && ']' !in doc
    requires forall i :: 0 <= i < |Split(doc, '\n')| ==> HeaderName(Split(doc, '\n')[i]).None?
    ensures Docstring(Some(doc)) == doc
  {
    var lines := Split(doc, '\n');
    assert Structured(lines) == lines by {
      StructureNoHeaders(lines);
    }
    assert EscapeLines(lines, false) == lines by {
      SplitAbsent(doc, '\n', '[');
      SplitAbsent(doc, '\n', ']');
      EscapeLinesNoBrackets(lines, false);
    }
    assert Join(lines, '\n') == doc by {
      JoinSplit(doc, '\n');
    }
  }

  /** Inside a fence, lines that are not fences come through unchanged. */
  lemma {:induction false} FencedLinesKept(body: seq<String>, rest: seq<String>)
    requires forall i :: 0 <= i < |body| ==> !IsFence(body[i])
    ensures EscapeLines(body + rest, true) == body + EscapeLines(rest, true)
    decreases |body|
  {
    if body == [] {
      assert body + rest == rest;
    } else {
      var line := body[0];
      var tail := body[1..];
      var after := EscapeLines(rest, true);
      assert EscapeLines(body + rest, true) == [line] + EscapeLines(tail + rest, true) by {
        assert body + rest == [line] + (tail + rest);
        assert !IsFence(line);
        EscapeLinesCons(line, tail + rest, true);
      }
      assert EscapeLines(tail + rest, true) == tail + after by {
        FencedLinesKept(tail, rest);
      }
      assert [line] + (tail + after) == body + after by {
        assert body == [line] + tail;
      }
    }
  }

  /**
   * A fenced block outside any other fence is emitted unchanged, fence lines included, and the
   * text after its closing fence is escaped again.
   */
  lemma FencedBlockKept(open: String, body: seq<String>, close: String, rest: seq<String>)
    requires IsFence(open) && IsFence(close)
    requires forall i :: 0 <= i < |body| ==> !IsFence(body[i])
    ensures EscapeLines([open] + body + [close] + rest, false) == [open] + body + [close] + EscapeLines(rest, false)
  {
    var tail := body + ([close] + rest);
    var escapedRest := EscapeLines(rest, false);
    assert [open] + body + [close] + rest == [open] + tail;
    assert [open] + body + [close] + escapedRest == [open] + (body + ([close] + escapedRest));
    assert EscapeLines([open] + tail, false) == [open] + EscapeLines(tail, true) by {
      EscapeLinesCons(open, tail, false);
    }
    assert EscapeLines(tail, true) == body + EscapeLines([close] + rest, true) by {
      FencedLinesKept(body, [close] + rest);
    }
    assert EscapeLines([close] + rest, true) == [close] + escapedRest by {
      EscapeLinesCons(close, rest, true);
    }
  }

  /** `# Args` is recognised as the Args header. */
  lemma ArgsHeader()
    ensures HeaderName("# Args").Some? && HeaderName("# Args").value == "Args"
  {
    var line := "# Args";
    StripFixed(line);
    var rest := line[1..];
    assert rest == " Args";
    assert RunEnd(rest, 0, IsSpace) == 1 by {
      RunEndExact(rest, 0, 1, IsSpace);
    }
    assert RunStart(rest, 1, |rest|, IsSpace) == |rest|;
    assert Strip(rest) == "Args";
  }

  /** A line that continues the description of a parameter: not a header, not blank, not a new parameter. */
  predicate IsContinuation(line: String)
  {
    HeaderName(line).None? && Strip(line) != [] && !IsParamStart(Strip(line))
  }

  /** A continuation line is added, stripped, to the parameter being built. */
  lemma ContinuationStep(st: DocState, line: String)
    requires st.inArgs && st.param != []
    requires IsContinuation(line)
    ensures Step(st, line) == DocState(st.out, true, st.param + [Strip(line)])
  {
  }

  /** The stripped form of every line, in order. */
  function Stripped(lines: seq<String>): (r: seq<String>)
    ensures |r| == |lines|
    decreases |lines|
  {
    if lines == [] then [] else Stripped(lines[..|lines| - 1]) + [Strip(lines[|lines| - 1])]
  }

  /**
   * In argument mode, continuation lines are joined to the parameter being built, stripped,
   * in order, and nothing is emitted meanwhile.
   */
  lemma {:induction false} ContinuationsJoined(st: DocState, more: seq<String>)
    requires st.inArgs && st.param != []
    requires forall i :: 0 <= i < |more| ==> IsContinuation(more[i])
    ensures Fold(st, more, Step) == DocState(st.out, true, st.param + Stripped(more))
    decreases |more|
  {
    if more != [] {
      var init := more[..|more| - 1];
      var last := more[|more| - 1];
      ContinuationsJoined(st, init);
      ContinuationStep(Fold(st, init, Step), last);
      assert st.param + Stripped(more) == (st.param + Stripped(init)) + [Strip(last)];
    }
  }

  /** A recognised header flushes the pending parameter, is emitted in bold and sets argument mode. */
  lemma HeaderStep(st: DocState, line: String)
    requires HeaderName(line).Some?
    ensures Step(st, line) ==
            DocState(st.out + Flush(st.param) + ["**" + HeaderName(line).value + "**", ""], HeaderName(line).value in ARGUMENT_HEADERS, [])
  {
  }

  /** In argument mode, a parameter line flushes the pending parameter and starts a new one. */
  lemma ParamStartStep(st: DocState, line: String)
    requires st.inArgs && HeaderName(line).None? && Strip(line) != [] && IsParamStart(Strip(line))
    ensures Step(st, line) == DocState(st.out + Flush(st.param), true, [Strip(line)])
  {
  }

  /** An argument header followed by a parameter line leaves that parameter pending. */
  lemma HeaderThenParam(header: String, param: String)
    requires HeaderName(header).Some? && HeaderName(header).value in ARGUMENT_HEADERS
    requires HeaderName(param).None? && Strip(param) != [] && IsParamStart(Strip(param))
    ensures Structure([header, param]) == DocState(["**" + HeaderName(header).value + "**", ""], true, [Strip(param)])
  {
    var init := DocState([], false, []);
    var first := Step(init, header);
    assert Structure([header, param]) == Step(first, param) by {
      FoldTwo(init, header, param, Step);
    }
    assert first == DocState(["**" + HeaderName(header).value + "**", ""], true, []) by {
      HeaderStep(init, header);
    }
    ParamStartStep(first, param);
  }

  /** Flushing a state holding a heading and a pending parameter adds the parameter's bullet. */
  lemma PendingFlushed(st: DocState, heading: String, pending: seq<String>)
    requires st.out == [heading, ""] && st.param == pending && pending != []
    ensures st.out + Flush(st.param) == [heading, "", "- " + Join(pending, ' '), ""]
  {
    assert [heading, ""] + ["- " + Join(pending, ' '), ""] == [heading, "", "- " + Join(pending, ' '), ""];
  }

  /**
   * Under an argument header (Args, Arguments or Parameters), a parameter line and its
   * continuation lines stay pending as one parameter, and the output then ends in one bullet,
   * the stripped pieces joined by single spaces, followed by an empty line.
   */
  lemma ArgsParameter(header: String, param: String, more: seq<String>)
    requires HeaderName(header).Some? && HeaderName(header).value in ARGUMENT_HEADERS
    requires HeaderName(param).None? && Strip(param) != [] && IsParamStart(Strip(param))
    requires forall i :: 0 <= i < |more| ==> IsContinuation(more[i])
    ensures Structure([header, param] + more) ==
            DocState(["**" + HeaderName(header).value + "**", ""], true, [Strip(param)] + Stripped(more))
    ensures Structured([header, param] + more) ==
            ["**" + HeaderName(header).value + "**", "", "- " + Join([Strip(param)] + Stripped(more), ' '), ""]
  {
    HeaderThenParam(header, param);
    FoldConcat(DocState([], false, []), [header, param], more, Step);
    ContinuationsJoined(Structure([header, param]), more);
    PendingFlushed(Structure([header, param] + more), "**" + HeaderName(header).value + "**", [Strip(param)] + Stripped(more));
  }
}
