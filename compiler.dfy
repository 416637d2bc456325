/**
 * What kiste2cpp.cpp computes, stated on values: the parse_context record
 * (kiste2cpp.cpp:34-146) as the datatype Ctx, each of its helpers and each
 * line handler as a function from the old context to the new one, and the
 * whole `parse` loop as a fold over the lines of the input. The imperative
 * model in module Kiste2Cpp is proved to compute exactly these functions.
 *
 * The output stream is a sequence of emissions: every character written
 * is a Put, and the C++ scaffolding whose exact text is not modelled (the
 * file header, a class's header and footer, a member declaration) is one
 * abstract event each.
 */
module Compiler {
  import opened Wrappers
  import opened Braces
  import opened Scanning
  import opened Diagnostics
  import opened Directives
  import opened Commands

  /** parse_context's LineType: what the previous line emitted. */
  datatype LineType = NoLine | CppLine | TextLine

  datatype Emission =
    | Put(c: char)
    | FileHeader(filename: string, reportExceptions: bool)
    | ClassHeader(name: string, parent: string, nextLineNo: nat)
    | MemberField(className: string, memberClass: string, memberName: string)
    | ClassFooter(name: string, parent: string, lineNo: nat)

  /** Characters written to the output stream. */
  function Code(s: string): (es: seq<Emission>)
    ensures |es| == |s|
  {
    if s == [] then [] else Code(s[..|s| - 1]) + [Put(s[|s| - 1])]
  }

  lemma {:induction false} CodeConcat(a: string, b: string)
    ensures Code(a + b) == Code(a) + Code(b)
    decreases |b|
  {
    if b == [] {
      assert a + b == a;
    } else {
      assert (a + b)[..|a + b| - 1] == a + b[..|b| - 1];
      CodeConcat(a, b[..|b| - 1]);
    }
  }

  /** The fields of parse_context, with the output stream as `out`. */
  datatype Ctx = Ctx(
    filename: string,
    reportExceptions: bool,
    line: string,
    lineNo: nat,
    classCurlyLevel: nat,
    curlyLevel: nat,
    trailingReturn: bool,
    streamOpened: bool,
    stringOpened: bool,
    previousLineType: LineType,
    className: string,
    parentClassName: string,
    out: seq<Emission>)

  /** The context after construction and write_header. */
  function Initial(filename: string, reportExceptions: bool): Ctx
  {
    Ctx(filename, reportExceptions, "", 0, 0, 0, true, false, false, NoLine, "", "",
        [FileHeader(filename, reportExceptions)])
  }

  /** `os << s`. */
  function Write(c: Ctx, s: string): (d: Ctx)
    ensures Appended(c, d) && d.previousLineType == c.previousLineType
    ensures d.streamOpened == c.streamOpened && d.stringOpened == c.stringOpened
    ensures d.trailingReturn == c.trailingReturn
  {
    var d := c.(out := c.out + Code(s));
    CodeAllPuts(s);
    assert d.out[|c.out|..] == Code(s);
    d
  }

  // ---------------------------------------------------------------------
  // Escaping inside the emitted string literal (write_char)
  // ---------------------------------------------------------------------

  /** write_char: a backslash before `\` and `"`, every other character as is. */
  function LiteralChar(ch: char): (s: string)
    ensures 1 <= |s| <= 2 && s[|s| - 1] == ch
    ensures |s| == 2 <==> ch == '\\' || ch == '"'
    ensures |s| == 2 ==> s[0] == '\\'
  {
    if ch == '\\' || ch == '"' then ['\\', ch] else [ch]
  }

  /** write_char applied to every character of `s`, in order. */
  function Literal(s: string): string
  {
    if s == [] then [] else Literal(s[..|s| - 1]) + LiteralChar(s[|s| - 1])
  }

  lemma {:induction false} LiteralConcat(a: string, b: string)
    ensures Literal(a + b) == Literal(a) + Literal(b)
    decreases |b|
  {
    if b == [] {
      assert a + b == a;
    } else {
      assert (a + b)[..|a + b| - 1] == a + b[..|b| - 1];
      LiteralConcat(a, b[..|b| - 1]);
    }
  }

  /**
   * Reads a literal body back: `\x` stands for `x`; a lone trailing
   * backslash or an unescaped `"` is not something write_char produces.
   */
  function Unliteral(s: string): Option<string>
  {
    if s == [] then Some([])
    else if s[0] == '"' then None
    else if s[0] == '\\' then
      if |s| < 2 then None
      else
        match Unliteral(s[2..])
        case None => None
        case Some(rest) => Some([s[1]] + rest)
    else
      match Unliteral(s[1..])
      case None => None
      case Some(rest) => Some([s[0]] + rest)
  }

  /** The text a literal carries is recovered exactly: write_char loses nothing. */
  lemma {:induction false} LiteralRoundTrip(s: string)
    ensures Unliteral(Literal(s)) == Some(s)
    decreases |s|
  {
    if s != [] {
      assert s == [s[0]] + s[1..];
      LiteralConcat([s[0]], s[1..]);
      assert Literal([s[0]]) == LiteralChar(s[0]) by {
        assert [s[0]][..0] == [];
      }
      var rest := Literal(s[1..]);
      LiteralRoundTrip(s[1..]);
      if s[0] == '\\' || s[0] == '"' {
        assert (['\\', s[0]] + rest)[2..] == rest;
      } else {
        assert ([s[0]] + rest)[1..] == rest;
      }
    }
  }

  /** Every `"` in `l` has a backslash right before it. */
  predicate QuotesEscaped(l: string)
  {
    forall k :: 0 <= k < |l| && l[k] == '"' ==> 0 < k && l[k - 1] == '\\'
  }

  /** No `"` in a literal body is left unescaped, so it never ends the C++ string early. */
  lemma {:induction false} LiteralQuotesEscaped(s: string)
    ensures QuotesEscaped(Literal(s))
    decreases |s|
  {
    if s != [] {
      var p := Literal(s[..|s| - 1]);
      var t := LiteralChar(s[|s| - 1]);
      var l := Literal(s);
      assert l == p + t;
      LiteralQuotesEscaped(s[..|s| - 1]);
      forall k | 0 <= k < |l| && l[k] == '"'
        ensures 0 < k && l[k - 1] == '\\'
      {
        if k < |p| {
          assert l[k] == p[k];
          assert 0 < k && p[k - 1] == '\\';
          assert l[k - 1] == p[k - 1];
        } else {
          assert l[k] == t[k - |p|];
          assert k - |p| == 1;
          assert l[k - 1] == t[0];
        }
      }
    }
  }

  // ---------------------------------------------------------------------
  // parse_context's helpers (kiste2cpp.cpp:59-145)
  // ---------------------------------------------------------------------

  /** open_string: opens the text call and the string literal, each only if not open yet. */
  function OpenString(c: Ctx): (d: Ctx)
    ensures d.streamOpened && d.stringOpened
    ensures c.streamOpened && c.stringOpened ==> d == c
    ensures Appended(c, d) && d.previousLineType == c.previousLineType
    ensures d.trailingReturn == c.trailingReturn
  {
    var c1 := if c.streamOpened then c else Write(c, "_serialize.text(").(streamOpened := true);
    var d := if c1.stringOpened then c1 else Write(c1, "\"").(stringOpened := true);
    AppendedTrans(c, c1, d);
    d
  }

  function WriteChar(c: Ctx, ch: char): Ctx
  {
    Write(c, LiteralChar(ch))
  }

  /** close_string. */
  function CloseString(c: Ctx): (d: Ctx)
    ensures !d.stringOpened && d.streamOpened == c.streamOpened
    ensures !c.stringOpened ==> d == c
    ensures Appended(c, d) && d.previousLineType == c.previousLineType
    ensures d.trailingReturn == c.trailingReturn
  {
    if c.stringOpened then Write(c, "\"").(stringOpened := false) else c
  }

  /** close_stream: afterwards neither the string nor the text call is open. */
  function CloseStream(c: Ctx): (d: Ctx)
    ensures !d.stringOpened && !d.streamOpened
    ensures !c.stringOpened && !c.streamOpened ==> d == c
    ensures Appended(c, d) && d.previousLineType == c.previousLineType
    ensures d.trailingReturn == c.trailingReturn
  {
    var c1 := CloseString(c);
    var d := if c1.streamOpened then Write(c1, ");").(streamOpened := false) else c1;
    AppendedTrans(c, c1, d);
    d
  }

  /** close_text: ends a run of text lines; the previous line type is reset. */
  function CloseText(c: Ctx): (d: Ctx)
    ensures d.previousLineType == NoLine
    ensures c.previousLineType == TextLine ==> !d.streamOpened && !d.stringOpened
    ensures c.previousLineType != TextLine ==> d == c.(previousLineType := NoLine)
    ensures Appended(c, d)
  {
    if c.previousLineType == TextLine then
      var c1 := CloseStream(c);
      var c2 := Write(c1, "\n");
      AppendedTrans(c, c1, c2);
      c2.(previousLineType := NoLine)
    else c.(previousLineType := NoLine)
  }

  /** open_text: continues a run of text lines; the previous line type becomes Text. */
  function OpenText(c: Ctx): (d: Ctx)
    ensures d.previousLineType == TextLine
    ensures d.streamOpened == c.streamOpened && d.stringOpened == c.stringOpened
    ensures Appended(c, d) && d.trailingReturn == c.trailingReturn
  {
    var c1 := if c.previousLineType == TextLine then Write(c, "\n") else c;
    var c2 := if c1.streamOpened then Write(c1, "       ") else c1;
    AppendedTrans(c, c1, c2);
    c2.(previousLineType := TextLine)
  }

  /** open_exception_handling. */
  function OpenTry(c: Ctx): (d: Ctx)
    ensures Appended(c, d) && d.previousLineType == c.previousLineType
    ensures d.streamOpened == c.streamOpened && d.stringOpened == c.stringOpened
    ensures d.trailingReturn == c.trailingReturn
  {
    if c.reportExceptions then Write(c, " try {") else c
  }

  /** close_exception_handling: the expression is reported through write_char. */
  function CloseTry(c: Ctx, expression: string): (d: Ctx)
    ensures Appended(c, d) && d.previousLineType == c.previousLineType
    ensures d.streamOpened == c.streamOpened && d.stringOpened == c.stringOpened
    ensures d.trailingReturn == c.trailingReturn
  {
    if c.reportExceptions then
      Write(c, "} catch(...) {_serialize.report_exception(__LINE__, \"" + Literal(expression)
               + "\", std::current_exception()); } ")
    else c
  }

  /** The serializer call an embedded expression becomes (kiste2cpp.cpp:228, 237, 246-247). */
  function ExprCode(kind: ExprKind, e: string): string
  {
    match kind
    case Escape => " _serialize.escape(" + e + "); "
    case Raw => " _serialize.raw(" + e + "); "
    case Call => " static_assert(std::is_same<decltype(" + e
                 + "), void>::value, \"$call{} requires void expression\"); (" + e + "); "
  }

  // ---------------------------------------------------------------------
  // Everything but the scaffolding only appends characters
  // ---------------------------------------------------------------------

  /** `d` is `c` with characters appended and at most the text flags changed. */
  predicate Appended(c: Ctx, d: Ctx)
  {
    d.filename == c.filename && d.reportExceptions == c.reportExceptions
    && d.line == c.line && d.lineNo == c.lineNo
    && d.classCurlyLevel == c.classCurlyLevel && d.curlyLevel == c.curlyLevel
    && d.className == c.className && d.parentClassName == c.parentClassName
    && OnlyPuts(c.out, d.out)
  }

  /** `b` is `a` followed by characters only. */
  predicate OnlyPuts(a: seq<Emission>, b: seq<Emission>)
  {
    |a| <= |b| && b[..|a|] == a && AllPuts(b[|a|..])
  }

  predicate AllPuts(es: seq<Emission>)
  {
    es == [] || (es[|es| - 1].Put? && AllPuts(es[..|es| - 1]))
  }

  lemma {:induction false} AllPutsConcat(a: seq<Emission>, b: seq<Emission>)
    requires AllPuts(a) && AllPuts(b)
    ensures AllPuts(a + b)
    decreases |b|
  {
    if b != [] {
      assert (a + b)[..|a + b| - 1] == a + b[..|b| - 1];
      AllPutsConcat(a, b[..|b| - 1]);
    } else {
      assert a + b == a;
    }
  }

  lemma {:induction false} CodeAllPuts(s: string)
    ensures AllPuts(Code(s))
    decreases |s|
  {
    if s != [] {
      CodeAllPuts(s[..|s| - 1]);
    }
  }

  lemma OnlyPutsTrans(a: seq<Emission>, b: seq<Emission>, c: seq<Emission>)
    requires OnlyPuts(a, b) && OnlyPuts(b, c)
    ensures OnlyPuts(a, c)
  {
    assert c[..|a|] == c[..|b|][..|a|];
    assert c[|a|..] == b[|a|..] + c[|b|..];
    AllPutsConcat(b[|a|..], c[|b|..]);
  }

  lemma AppendedTrans(a: Ctx, b: Ctx, c: Ctx)
    requires Appended(a, b) && Appended(b, c)
    ensures Appended(a, c)
  {
    OnlyPutsTrans(a.out, b.out, c.out);
  }

  // ---------------------------------------------------------------------
  // A text line (parse_arg and parse_text_line, kiste2cpp.cpp:197-287)
  // ---------------------------------------------------------------------

  /** parse_arg's output for a token it has read; `c` already had open_string. */
  function ArgEmitted(c: Ctx, t: Token): (d: Ctx)
    ensures Appended(c, d) && d.previousLineType == c.previousLineType
    ensures t.TrimRight? ==> !d.trailingReturn
    ensures !t.TrimRight? ==> d.trailingReturn == c.trailingReturn
  {
    var c1 := OpenString(c);
    match t
    case Char(ch) => AppendedTrans(c, c1, WriteChar(c1, ch)); WriteChar(c1, ch)
    case TrimRight => c1.(trailingReturn := false)
    case Expr(kind, e) =>
      var d := ExprEmitted(c1, kind, e);
      AppendedTrans(c, c1, d);
      d
  }

  /** An embedded expression: the text call is closed, then the serializer call, guarded if exceptions are reported. */
  function ExprEmitted(c: Ctx, kind: ExprKind, e: string): (d: Ctx)
    ensures Appended(c, d) && d.previousLineType == c.previousLineType
    ensures !d.streamOpened && !d.stringOpened && d.trailingReturn == c.trailingReturn
  {
    var c1 := CloseStream(c);
    var c2 := OpenTry(c1);
    var c3 := Write(c2, ExprCode(kind, e));
    var c4 := CloseTry(c3, e);
    AppendedTrans(c, c1, c2);
    AppendedTrans(c, c2, c3);
    AppendedTrans(c, c3, c4);
    c4
  }

  /** parse_text_line's per-token output: open_string, then what parse_arg (or the plain write_char) writes. */
  function TokenEmitted(c: Ctx, t: Token): (d: Ctx)
    ensures Appended(c, d) && d.previousLineType == c.previousLineType
    ensures t.TrimRight? ==> !d.trailingReturn
    ensures !t.TrimRight? ==> d.trailingReturn == c.trailingReturn
  {
    var c1 := OpenString(c);
    var d := ArgEmitted(c1, t);
    AppendedTrans(c, c1, d);
    d
  }

  /** The loop of parse_text_line from index `i` of the line on. */
  function LineFrom(c: Ctx, i: nat): (r: Result<Ctx, LineError>)
    ensures r.Success? ==> Appended(c, r.value) && r.value.previousLineType == c.previousLineType
    decreases |c.line| - i
  {
    if i >= |c.line| then Success(c)
    else
      match TokenAt(c.line, i)
      case Failure(e) => Failure(e)
      case Success((t, next)) =>
        var c1 := TokenEmitted(c, t);
        var r := LineFrom(c1, next);
        if r.Success? then AppendedTrans(c, c1, r.value); r else r
  }

  /** The two spaces per brace level (plus one) that indent every text line. */
  function Indent(n: nat): (s: string)
    ensures |s| == 2 * n && forall k :: 0 <= k < |s| ==> s[k] == ' '
  {
    if n == 0 then "" else Indent(n - 1) + "  "
  }

  /** The end of parse_text_line: `\n` unless trimmed, then the string closed. */
  function LineEnded(c: Ctx): (d: Ctx)
    ensures Appended(c, d) && d.previousLineType == c.previousLineType && !d.stringOpened
    ensures d.trailingReturn == c.trailingReturn
  {
    if c.trailingReturn then
      var c1 := OpenString(c);
      var c2 := Write(c1, "\\n");
      AppendedTrans(c, c1, c2);
      var c3 := CloseString(c2);
      AppendedTrans(c, c2, c3);
      c3
    else CloseString(c)
  }

  /** A line's failure, with the file name, line number and (possibly trimmed) line attached. */
  function Located(c: Ctx, e: LineError): Failure
  {
    match e
    case Malformed(m) => ParseError(c.filename, c.lineNo, c.line, m)
    case IndexOutOfRange(p) => OutOfRange(c.lineNo, p)
  }

  /** parse_text_line: the context after emitting `c.line` as text. */
  function TextLineParsed(c: Ctx): (r: Result<Ctx, Failure>)
    ensures c.curlyLevel <= c.classCurlyLevel ==> r == Failure(Located(c, Malformed(TextOutsideFunction)))
    ensures r.Success? ==> r.value.previousLineType == TextLine && !r.value.stringOpened
    ensures r.Success? ==> r.value.curlyLevel > r.value.classCurlyLevel
    ensures r.Success? ==> Appended(OpenText(c), r.value)
  {
    var c1 := OpenText(c);
    if c1.curlyLevel <= c1.classCurlyLevel then Failure(Located(c, Malformed(TextOutsideFunction)))
    else
      var c2 := Write(c1, Indent(c1.curlyLevel + 1));
      match LineFrom(c2, 0)
      case Failure(e) => Failure(Located(c, e))
      case Success(c3) =>
        var c4 := LineEnded(c3);
        AppendedTrans(c1, c2, c3);
        AppendedTrans(c1, c3, c4);
        Success(c4)
  }

  // ---------------------------------------------------------------------
  // The kinds of line (parse, kiste2cpp.cpp:453-543)
  // ---------------------------------------------------------------------

  datatype LineKind =
    | Blank
    | CppCode(first: nat)
    | ClassDirective(first: nat)
    | EndClassDirective
    | MemberDirective(first: nat)
    | TrimLeft(first: nat)
    | Text

  /** How `parse` sorts a line, by its first non-blank character and what follows a `$`. */
  function Classify(text: string): (k: LineKind)
    ensures k.Blank? <==> FindFirstNotOf(text, 0).None?
    ensures !k.Blank? && !k.Text? && !k.EndClassDirective? ==>
              k.first < |text| && FindFirstNotOf(text, 0) == Some(k.first)
    ensures k.CppCode? ==> text[k.first] == '%'
    ensures k.TrimLeft? ==> k.first + 1 < |text| && text[k.first..k.first + 2] == "$|"
  {
    match FindFirstNotOf(text, 0)
    case None => Blank
    case Some(p) =>
      if text[p] == '%' then CppCode(p)
      else if text[p] != '$' then Text
      else
        var rest := text[p + 1..];
        if StartsWith(rest, "class") then ClassDirective(p)
        else if StartsWith(rest, "endclass") then EndClassDirective
        else if StartsWith(rest, "member") then MemberDirective(p)
        else if StartsWith(rest, "|") then TrimLeft(p)
        else Text
  }

  /** A `%` line: C++ passed through without its `%`, counting braces. */
  function CppLineParsed(c: Ctx, p: nat): (r: Result<Ctx, Failure>)
    requires p < |c.line|
    ensures r.Success? <==> StaysNonNegative(c.curlyLevel, c.line)
    ensures r.Failure? ==> r.error == ParseError(c.filename, c.lineNo, c.line, TooManyClosingBraces)
    ensures r.Success? ==> r.value.curlyLevel == c.curlyLevel + Nesting(c.line)
    ensures r.Success? ==> r.value.previousLineType == CppLine
    ensures r.Success? && c.previousLineType == TextLine ==> !r.value.streamOpened
    ensures r.Success? && c.previousLineType != TextLine ==> r.value.streamOpened == c.streamOpened
    ensures r.Success? ==> (r.value.stringOpened ==> c.stringOpened)
    ensures r.Success? ==> OnlyPuts(c.out, r.value.out)
    ensures r.Success? ==> r.value.className == c.className && r.value.parentClassName == c.parentClassName
  {
    var c1 := if c.previousLineType == TextLine then CloseText(c) else c;
    assert Appended(c, c1) && (c1.stringOpened ==> c.stringOpened);
    CurlyAfterMeaning(c.curlyLevel, c.line);
    match CurlyAfter(c.curlyLevel, c.line)
    case None => Failure(Located(c, Malformed(TooManyClosingBraces)))
    case Some(level) =>
      var c2 := Write(c1.(curlyLevel := level), c.line[..p] + c.line[p + 1..] + "\n");
      OnlyPutsTrans(c.out, c1.out, c2.out);
      Success(c2.(previousLineType := CppLine))
  }

  /** `$class`: parse_class. */
  function ClassParsed(c: Ctx, rest: string): (r: Result<Ctx, Failure>)
    ensures c.className != "" ==> r == Failure(Located(c, Malformed(ClassAlreadyOpen)))
    ensures c.className == "" && ParseClassDecl(rest).Failure? ==>
              r == Failure(Located(c, Malformed(ParseClassDecl(rest).error)))
    ensures r.Success? <==> c.className == "" && ParseClassDecl(rest).Success?
    ensures r.Success? ==>
              var d := ParseClassDecl(rest).value;
              var p := if d.parent.Some? then d.parent.value else c.parentClassName;
              && r.value.className == d.name && r.value.className != ""
              && r.value == c.(className := d.name, classCurlyLevel := c.curlyLevel, parentClassName := p,
                               out := c.out + [ClassHeader(d.name, p, c.lineNo + 1)])
  {
    if c.className != "" then Failure(Located(c, Malformed(ClassAlreadyOpen)))
    else
      match ParseClassDecl(rest)
      case Failure(m) => Failure(Located(c, Malformed(m)))
      case Success(decl) =>
        var parent := if decl.parent.Some? then decl.parent.value else c.parentClassName;
        var c1 := c.(className := decl.name, classCurlyLevel := c.curlyLevel, parentClassName := parent);
        Success(c1.(out := c1.out + [ClassHeader(decl.name, parent, c.lineNo + 1)]))
  }

  /** `$endclass`: write_class_footer, then both names cleared. */
  function EndClassParsed(c: Ctx): (r: Result<Ctx, Failure>)
    ensures r.Failure? <==> c.className == ""
    ensures r.Failure? ==> r.error == Located(c, Malformed(NoClassToEnd))
    ensures r.Success? ==> r.value.className == "" && r.value.parentClassName == ""
                           && r.value.classCurlyLevel == c.classCurlyLevel
    ensures r.Success? ==>
              r.value == c.(className := "", parentClassName := "",
                            out := c.out + [ClassFooter(c.className, c.parentClassName, c.lineNo)])
  {
    if c.className == "" then Failure(Located(c, Malformed(NoClassToEnd)))
    else
      var c1 := c.(out := c.out + [ClassFooter(c.className, c.parentClassName, c.lineNo)]);
      Success(c1.(className := "", parentClassName := ""))
  }

  /** `$member`: parse_member. */
  function MemberParsed(c: Ctx, rest: string): (r: Result<Ctx, Failure>)
    ensures c.className == "" ==> r == Failure(Located(c, Malformed(MemberOutsideClass)))
    ensures c.className != "" && ParseMemberDecl(rest).Failure? ==>
              r == Failure(Located(c, Malformed(ParseMemberDecl(rest).error)))
    ensures r.Success? <==> c.className != "" && ParseMemberDecl(rest).Success?
    ensures r.Success? ==>
              var m := ParseMemberDecl(rest).value;
              r.value == c.(out := c.out + [MemberField(c.className, m.className, m.name)])
  {
    if c.className == "" then Failure(Located(c, Malformed(MemberOutsideClass)))
    else
      match ParseMemberDecl(rest)
      case Failure(m) => Failure(Located(c, Malformed(m)))
      case Success(member) =>
        Success(c.(out := c.out + [MemberField(c.className, member.className, member.name)]))
  }

  /** A line whose first non-blank is neither `%` nor a directive: text. Blank lines are text only inside a class function. */
  function BlankParsed(c: Ctx): (r: Result<Ctx, Failure>)
  {
    if c.className != "" && c.curlyLevel > c.classCurlyLevel then TextLineParsed(c)
    else Success(Write(c, "\n"))
  }

  /** The context before a line's handler runs: line counted, trailing return reset, line stored. */
  function LineStarted(c: Ctx, text: string): Ctx
  {
    c.(lineNo := c.lineNo + 1, trailingReturn := true, line := text)
  }

  /** One iteration of `parse`. */
  function LineParsed(c: Ctx, text: string): (r: Result<Ctx, Failure>)
    ensures r.Success? ==> r.value.filename == c.filename && r.value.reportExceptions == c.reportExceptions
  {
    LineHandled(LineStarted(c, text))
  }

  /** The handler `parse` picks for the stored line, by its classification. */
  function LineHandled(c0: Ctx): (r: Result<Ctx, Failure>)
    ensures r.Success? ==> r.value.filename == c0.filename && r.value.reportExceptions == c0.reportExceptions
  {
    var text := c0.line;
    match Classify(text)
    case Blank => BlankParsed(c0)
    case CppCode(p) => CppLineParsed(c0, p)
    case ClassDirective(p) => ClassParsed(c0, text[p + 1..])
    case EndClassDirective => EndClassParsed(c0)
    case MemberDirective(p) => MemberParsed(c0, text[p + 1..])
    case TrimLeft(p) => TextLineParsed(c0.(line := text[p + 2..]))
    case Text => TextLineParsed(c0)
  }

  /** The `parse` loop over the lines in order; the first failure ends it. */
  function LinesParsed(c: Ctx, lines: seq<string>): (r: Result<Ctx, Failure>)
    ensures r.Success? ==> r.value.filename == c.filename && r.value.reportExceptions == c.reportExceptions
    decreases |lines|
  {
    if lines == [] then Success(c)
    else
      match LineParsed(c, lines[0])
      case Failure(f) => Failure(f)
      case Success(c1) => LinesParsed(c1, lines[1..])
  }

  /** The lines `getline` returns until the stream is exhausted: a final newline yields one more, empty, line. */
  function SplitLines(s: string): (lines: seq<string>)
    ensures |lines| >= 1
    ensures forall k :: 0 <= k < |lines| ==> '\n' !in lines[k]
    decreases |s|
  {
    if '\n' !in s then [s]
    else
      var k := IndexOf(s, '\n');
      [s[..k]] + SplitLines(s[k + 1..])
  }

  function IndexOf(s: string, ch: char): (k: nat)
    requires ch in s
    ensures k < |s| && s[k] == ch && ch !in s[..k]
  {
    if s[0] == ch then 0
    else
      assert ch in s[1..] by {
        var j :| 0 <= j < |s| && s[j] == ch;
        assert s[1..][j - 1] == ch;
      }
      var k := 1 + IndexOf(s[1..], ch);
      assert s[..k] == [s[0]] + s[1..][..k - 1];
      k
  }

  /** The lines joined back with newlines. */
  function JoinLines(lines: seq<string>): string
    requires |lines| >= 1
  {
    if |lines| == 1 then lines[0] else lines[0] + "\n" + JoinLines(lines[1..])
  }

  /** Splitting loses nothing: the input is its lines joined by newlines. */
  lemma {:induction false} SplitJoin(s: string)
    ensures JoinLines(SplitLines(s)) == s
    decreases |s|
  {
    if '\n' in s {
      var k := IndexOf(s, '\n');
      var lines := SplitLines(s);
      assert lines == [s[..k]] + SplitLines(s[k + 1..]);
      assert lines[1..] == SplitLines(s[k + 1..]);
      SplitJoin(s[k + 1..]);
      assert JoinLines(lines) == s[..k] + "\n" + s[k + 1..];
      assert s == s[..k] + "\n" + s[k + 1..];
    }
  }

  /** `parse` up to its final brace check: the state after the last line. */
  function Parsed(filename: string, source: string, reportExceptions: bool): Result<Ctx, Failure>
  {
    var c :- LinesParsed(Initial(filename, reportExceptions), SplitLines(source));
    if c.curlyLevel != 0 then Failure(ParseError(c.filename, c.lineNo, c.line, NotEnoughClosingBraces))
    else Success(c)
  }

  /** write_header, parse and write_footer: the final context, whose `out` is the generated header. */
  function Compiled(filename: string, source: string, reportExceptions: bool): Result<Ctx, Failure>
  {
    var c :- Parsed(filename, source, reportExceptions);
    if c.className != "" then Failure(ParseError(c.filename, c.lineNo, c.line, ClassNotEnded))
    else Success(Write(c, "\n"))
  }
}
