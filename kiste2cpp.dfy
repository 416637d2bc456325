/**
 * kiste2cpp.cpp as it runs: parse_context (kiste2cpp.cpp:34-146) as a
 * class whose methods update its fields in place, and parse_arg,
 * parse_text_line, parse_class, parse_member, the footers and the `parse`
 * loop as methods over it. Each method is proved to leave the context in
 * the state that module Compiler computes on values, so every property
 * proved there holds of the running compiler.
 */
module Kiste2Cpp {
  import opened Wrappers
  import opened Braces
  import opened Scanning
  import opened Diagnostics
  import opened Directives
  import opened Commands
  import opened Compiler
  import opened CompilerFacts

  class ParseContext {
    var filename: string
    var reportExceptions: bool
    var line: string
    var lineNo: nat
    var classCurlyLevel: nat
    var curlyLevel: nat
    var trailingReturn: bool
    var streamOpened: bool
    var stringOpened: bool
    var previousLineType: LineType
    var className: string
    var parentClassName: string
    /** What has been written to the output stream `os`. */
    var out: seq<Emission>

    /** The fields as a value of the pure model. */
    function Snapshot(): Ctx
      reads this
    {
      Ctx(filename, reportExceptions, line, lineNo, classCurlyLevel, curlyLevel, trailingReturn,
          streamOpened, stringOpened, previousLineType, className, parentClassName, out)
    }

    /** The constructor: every field at its default, nothing written yet. */
    constructor (filename: string, reportExceptions: bool)
      ensures Snapshot() == Initial(filename, reportExceptions).(out := [])
    {
      this.filename := filename;
      this.reportExceptions := reportExceptions;
      line := "";
      lineNo := 0;
      classCurlyLevel := 0;
      curlyLevel := 0;
      trailingReturn := true;
      streamOpened := false;
      stringOpened := false;
      previousLineType := NoLine;
      className := "";
      parentClassName := "";
      out := [];
    }

    /** `os << s`. */
    method Write(s: string)
      modifies this
      ensures Snapshot() == Compiler.Write(old(Snapshot()), s)
    {
      out := out + Code(s);
    }

    method OpenString()
      modifies this
      ensures Snapshot() == Compiler.OpenString(old(Snapshot()))
    {
      if !streamOpened {
        Write("_serialize.text(");
        streamOpened := true;
      }
      if !stringOpened {
        Write("\"");
        stringOpened := true;
      }
    }

    method WriteChar(ch: char)
      modifies this
      ensures Snapshot() == Compiler.WriteChar(old(Snapshot()), ch)
    {
      ghost var c := Snapshot();
      if ch == '\\' || ch == '"' {
        Write("\\");
        WriteWrite(c, "\\", [ch]);
        assert LiteralChar(ch) == "\\" + [ch];
      }
      Write([ch]);
    }

    method CloseString()
      modifies this
      ensures Snapshot() == Compiler.CloseString(old(Snapshot()))
    {
      if stringOpened {
        Write("\"");
        stringOpened := false;
      }
    }

    method CloseStream()
      modifies this
      ensures Snapshot() == Compiler.CloseStream(old(Snapshot()))
    {
      CloseString();
      if streamOpened {
        Write(");");
        streamOpened := false;
      }
    }

    method CloseText()
      modifies this
      ensures Snapshot() == Compiler.CloseText(old(Snapshot()))
    {
      if previousLineType == TextLine {
        CloseStream();
        Write("\n");
      }
      previousLineType := NoLine;
    }

    method OpenText()
      modifies this
      ensures Snapshot() == Compiler.OpenText(old(Snapshot()))
    {
      if previousLineType == TextLine {
        Write("\n");
      }
      if streamOpened {
        Write("       ");
      }
      previousLineType := TextLine;
    }

    method OpenExceptionHandling()
      modifies this
      ensures Snapshot() == OpenTry(old(Snapshot()))
    {
      if reportExceptions {
        Write(" try {");
      }
    }

    /** The expression goes into the report through write_char, one character at a time. */
    method CloseExceptionHandling(expression: string)
      modifies this
      ensures Snapshot() == CloseTry(old(Snapshot()), expression)
    {
      if reportExceptions {
        ghost var c := Snapshot();
        var head := "} catch(...) {_serialize.report_exception(__LINE__, \"";
        Write(head);
        ghost var c1 := Snapshot();
        assert expression[..0] == [];
        for k := 0 to |expression|
          invariant Snapshot() == Compiler.Write(c1, Literal(expression[..k]))
        {
          WriteChar(expression[k]);
          LiteralWritten(c1, expression, k);
        }
        assert expression[..|expression|] == expression;
        Write("\", std::current_exception()); } ");
        WriteThree(c, head, Literal(expression), "\", std::current_exception()); } ");
      }
    }
  }

  // ---------------------------------------------------------------------
  // A text line (kiste2cpp.cpp:197-287)
  // ---------------------------------------------------------------------

  /**
   * parse_arg: the command after the `$` at `pos - 1`. Returns the index of
   * the last character consumed; the context has the command's output.
   */
  method ParseArg(ctx: ParseContext, pos: nat) returns (r: Result<nat, LineError>)
    modifies ctx
    ensures ctx.line == old(ctx.line) && ctx.lineNo == old(ctx.lineNo) && ctx.filename == old(ctx.filename)
    ensures ParseCommand(old(ctx.line), pos).Failure? ==> r == Failure(ParseCommand(old(ctx.line), pos).error)
    ensures ParseCommand(old(ctx.line), pos).Success? ==>
              r == Success(ParseCommand(old(ctx.line), pos).value.1)
              && ctx.Snapshot() == ArgEmitted(old(ctx.Snapshot()), ParseCommand(old(ctx.line), pos).value.0)
  {
    ghost var c := ctx.Snapshot();
    ctx.OpenString();
    var line := ctx.line;
    if pos >= |line| {
      return Failure(IndexOutOfRange(pos));
    }
    if line[pos] in "$%|" {
      r := ParseSymbolArg(ctx, pos);
    } else {
      assert ParseCommand(line, pos) == EmbeddedCommand(line, pos);
      r := ParseEmbedded(ctx, pos);
    }
    if r.Success? {
      ArgEmittedShape(c, ParseCommand(line, pos).value.0);
    }
  }

  /** parse_arg on `$$`, `$%` and `$|`, once the string is open: a literal character, or the end of the line's break. */
  method ParseSymbolArg(ctx: ParseContext, pos: nat) returns (r: Result<nat, LineError>)
    requires pos < |ctx.line| && ctx.line[pos] in "$%|"
    requires ctx.streamOpened && ctx.stringOpened
    modifies ctx
    ensures ctx.line == old(ctx.line) && ctx.lineNo == old(ctx.lineNo) && ctx.filename == old(ctx.filename)
    ensures ParseCommand(old(ctx.line), pos).Failure? ==> r == Failure(ParseCommand(old(ctx.line), pos).error)
    ensures ParseCommand(old(ctx.line), pos).Success? ==>
              r == Success(ParseCommand(old(ctx.line), pos).value.1)
              && ctx.Snapshot() == ArgEmitted(old(ctx.Snapshot()), ParseCommand(old(ctx.line), pos).value.0)
  {
    ghost var c := ctx.Snapshot();
    var line := ctx.line;
    if line[pos] == '$' || line[pos] == '%' {
      ctx.WriteChar(line[pos]);
      ArgEmittedShape(c, Char(line[pos]));
      return Success(pos);
    }
    ctx.trailingReturn := false;
    if pos != |line| - 1 {
      return Failure(Malformed(TrailingAfterTrimRight));
    }
    ArgEmittedShape(c, TrimRight);
    return Success(pos);
  }

  /** parse_arg past `$`, `%` and `|`: an expression command, or "Unknown command". */
  method ParseEmbedded(ctx: ParseContext, pos: nat) returns (r: Result<nat, LineError>)
    requires pos < |ctx.line| && ctx.line[pos] !in "$%|"
    modifies ctx
    ensures ctx.line == old(ctx.line) && ctx.lineNo == old(ctx.lineNo) && ctx.filename == old(ctx.filename)
    ensures EmbeddedCommand(old(ctx.line), pos).Failure? ==> r == Failure(EmbeddedCommand(old(ctx.line), pos).error)
    ensures EmbeddedCommand(old(ctx.line), pos).Success? ==>
              r == Success(EmbeddedCommand(old(ctx.line), pos).value.1)
              && ctx.Snapshot() == ExprEmitted(old(ctx.Snapshot()), EmbeddedCommand(old(ctx.line), pos).value.0.kind,
                                               EmbeddedCommand(old(ctx.line), pos).value.0.expr)
  {
    var line := ctx.line;
    var kind: ExprKind;
    var start: nat;
    if line[pos] == '{' {
      kind, start := Escape, pos + 1;
    } else if StartsWith(line[pos..], "raw{") {
      kind, start := Raw, pos + 4;
    } else if StartsWith(line[pos..], "call{") {
      kind, start := Call, pos + 5;
    } else {
      return Failure(Malformed(UnknownCommand));
    }
    assert ExprCommand(line, pos) == Some((kind, start));
    r := WriteExpression(ctx, kind, start);
  }

  /**
   * The part parse_arg repeats for `{`, `raw{` and `call{`: the text call
   * closed, the try opened, the expression scanned from `start`, and the
   * serializer call and the catch written.
   */
  method WriteExpression(ctx: ParseContext, kind: ExprKind, start: nat) returns (r: Result<nat, LineError>)
    requires start <= |ctx.line|
    modifies ctx
    ensures ctx.line == old(ctx.line) && ctx.lineNo == old(ctx.lineNo) && ctx.filename == old(ctx.filename)
    ensures ExpressionAt(old(ctx.line), start).Failure? ==>
              r == Failure(Malformed(ExpressionAt(old(ctx.line), start).error))
    ensures ExpressionAt(old(ctx.line), start).Success? ==>
              r == Success(ExpressionAt(old(ctx.line), start).value.1)
              && ctx.Snapshot() == ExprEmitted(old(ctx.Snapshot()), kind, ExpressionAt(old(ctx.line), start).value.0)
  {
    ctx.CloseStream();
    ctx.OpenExceptionHandling();
    var parsed := ParseExpression(ctx.line, start);
    if parsed.Failure? {
      return Failure(Malformed(parsed.error));
    }
    var (expression, last) := parsed.value;
    ctx.Write(ExprCode(kind, expression));
    ctx.CloseExceptionHandling(expression);
    return Success(last);
  }

  /**
   * parse_text_line: the indentation, each character through write_char
   * or each `$` command through parse_arg, then the line's end.
   */
  method ParseTextLine(ctx: ParseContext) returns (r: Outcome<Failure>)
    modifies ctx
    ensures match TextLineParsed(old(ctx.Snapshot()))
            case Failure(f) => r == Fail(f)
            case Success(d) => r == Pass && ctx.Snapshot() == d
  {
    ghost var c := ctx.Snapshot();
    ctx.OpenText();
    if ctx.curlyLevel <= ctx.classCurlyLevel {
      return Fail(Located(ctx.Snapshot(), Malformed(TextOutsideFunction)));
    }
    TextLineUnfold(c);
    WriteIndentation(ctx);
    var body := WriteLineBody(ctx);
    if body.Fail? {
      return Fail(Located(ctx.Snapshot(), body.error));
    }
    if ctx.trailingReturn {
      ctx.OpenString();
      ctx.Write("\\n");
    }
    ctx.CloseString();
    return Pass;
  }

  /** Two spaces, and two more per level of braces. */
  method WriteIndentation(ctx: ParseContext)
    modifies ctx
    ensures ctx.Snapshot() == Compiler.Write(old(ctx.Snapshot()), Indent(old(ctx.curlyLevel) + 1))
  {
    ghost var c := ctx.Snapshot();
    ctx.Write("  ");
    assert Indent(1) == "  ";
    for n := 0 to ctx.curlyLevel
      invariant ctx.curlyLevel == c.curlyLevel
      invariant ctx.Snapshot() == Compiler.Write(c, Indent(n + 1))
    {
      ctx.Write("  ");
      WriteWrite(c, Indent(n + 1), "  ");
    }
  }

  /** The loop of parse_text_line over the characters of the line. */
  method WriteLineBody(ctx: ParseContext) returns (r: Outcome<LineError>)
    modifies ctx
    ensures match LineFrom(old(ctx.Snapshot()), 0)
            case Failure(e) => r == Fail(e) && ctx.line == old(ctx.line) && ctx.lineNo == old(ctx.lineNo)
                               && ctx.filename == old(ctx.filename)
            case Success(d) => r == Pass && ctx.Snapshot() == d
  {
    ghost var c := ctx.Snapshot();
    var line := ctx.line;
    var i := 0;
    while i < |line|
      invariant i <= |line| && ctx.line == line
      invariant ctx.filename == c.filename && ctx.lineNo == c.lineNo
      invariant LineFrom(c, 0) == LineFrom(ctx.Snapshot(), i)
      decreases |line| - i
    {
      ghost var before := ctx.Snapshot();
      ghost var token := TokenAt(line, i);
      var next := WriteToken(ctx, i);
      if next.Failure? {
        LineFromFails(before, i, next.error);
        return Fail(next.error);
      }
      LineFromStepTo(before, i, token.value.0, next.value, ctx.Snapshot());
      i := next.value;
    }
    return Pass;
  }

  /**
   * One iteration of parse_text_line's loop: open_string, then a plain
   * character through write_char or a `$` command through parse_arg.
   * Returns the index the loop continues from.
   */
  method WriteToken(ctx: ParseContext, i: nat) returns (r: Result<nat, LineError>)
    requires i < |ctx.line|
    modifies ctx
    ensures ctx.line == old(ctx.line) && ctx.lineNo == old(ctx.lineNo) && ctx.filename == old(ctx.filename)
    ensures TokenAt(old(ctx.line), i).Failure? ==> r == Failure(TokenAt(old(ctx.line), i).error)
    ensures TokenAt(old(ctx.line), i).Success? ==>
              r == Success(TokenAt(old(ctx.line), i).value.1)
              && ctx.Snapshot() == TokenEmitted(old(ctx.Snapshot()), TokenAt(old(ctx.line), i).value.0)
  {
    if ctx.line[i] == '$' {
      r := WriteDollarToken(ctx, i);
    } else {
      ghost var c := ctx.Snapshot();
      r := WriteCharToken(ctx, i);
      assert TokenAt(c.line, i) == Success((Char(c.line[i]), i + 1));
    }
  }

  /** A plain character of the line: open_string, then write_char. */
  method WriteCharToken(ctx: ParseContext, i: nat) returns (r: Result<nat, LineError>)
    requires i < |ctx.line|
    modifies ctx
    ensures ctx.line == old(ctx.line) && ctx.lineNo == old(ctx.lineNo) && ctx.filename == old(ctx.filename)
    ensures r == Success(i + 1) && ctx.Snapshot() == TokenEmitted(old(ctx.Snapshot()), Char(old(ctx.line)[i]))
  {
    ghost var c := ctx.Snapshot();
    ctx.OpenString();
    ctx.WriteChar(ctx.line[i]);
    TokenEmittedArg(c, Char(ctx.line[i]));
    OpenStringTwice(c);
    r := Success(i + 1);
  }

  /** A `$` of the line: open_string, then the command after it. */
  method WriteDollarToken(ctx: ParseContext, i: nat) returns (r: Result<nat, LineError>)
    requires i < |ctx.line| && ctx.line[i] == '$'
    modifies ctx
    ensures ctx.line == old(ctx.line) && ctx.lineNo == old(ctx.lineNo) && ctx.filename == old(ctx.filename)
    ensures TokenAt(old(ctx.line), i).Failure? ==> r == Failure(TokenAt(old(ctx.line), i).error)
    ensures TokenAt(old(ctx.line), i).Success? ==>
              r == Success(TokenAt(old(ctx.line), i).value.1)
              && ctx.Snapshot() == TokenEmitted(old(ctx.Snapshot()), TokenAt(old(ctx.line), i).value.0)
  {
    ghost var c := ctx.Snapshot();
    ctx.OpenString();
    var line := ctx.line;
    TokenAtDollar(line, i);
    ghost var c1 := ctx.Snapshot();
    r := WriteCommand(ctx, i);
    if r.Success? {
      assert ParseCommand(line, i + 1).Success?;
      assert TokenAt(line, i).Success?;
      assert r.value == TokenAt(line, i).value.1;
      TokenEmittedArg(c, ParseCommand(line, i + 1).value.0);
      assert ctx.Snapshot() == ArgEmitted(c1, ParseCommand(line, i + 1).value.0);
      assert ctx.Snapshot() == TokenEmitted(c, ParseCommand(line, i + 1).value.0);
    } else {
      assert ParseCommand(line, i + 1).Failure?;
      assert r.error == TokenAt(line, i).error;
    }
  }

  /** The `$` branch of the loop: parse_arg just after the `$`, and the loop goes on after the command. */
  method WriteCommand(ctx: ParseContext, i: nat) returns (r: Result<nat, LineError>)
    requires i < |ctx.line|
    modifies ctx
    ensures ctx.line == old(ctx.line) && ctx.lineNo == old(ctx.lineNo) && ctx.filename == old(ctx.filename)
    ensures ParseCommand(old(ctx.line), i + 1).Failure? ==> r == Failure(ParseCommand(old(ctx.line), i + 1).error)
    ensures ParseCommand(old(ctx.line), i + 1).Success? ==>
              r == Success(ParseCommand(old(ctx.line), i + 1).value.1 + 1)
              && ctx.Snapshot() == ArgEmitted(old(ctx.Snapshot()), ParseCommand(old(ctx.line), i + 1).value.0)
  {
    ghost var command := ParseCommand(ctx.line, i + 1);
    var arg := ParseArg(ctx, i + 1);
    if arg.Failure? {
      assert command.Failure? && arg.error == command.error;
      return Failure(arg.error);
    }
    assert command.Success? && arg.value == command.value.1;
    return Success(arg.value + 1);
  }

  // ---------------------------------------------------------------------
  // Directives, `%` lines and the footers (kiste2cpp.cpp:322-451, 477-506)
  // ---------------------------------------------------------------------

  /**
   * parse_class on the directive text `rest` (from `class` on): the class
   * name, the class's brace depth, the parent if one is given, then the
   * class header.
   */
  method ParseClass(ctx: ParseContext, rest: string) returns (r: Outcome<Failure>)
    modifies ctx
    ensures ClassParsed(old(ctx.Snapshot()), rest).Failure? ==> r == Fail(ClassParsed(old(ctx.Snapshot()), rest).error)
    ensures ClassParsed(old(ctx.Snapshot()), rest).Success? ==>
              r == Pass && ctx.Snapshot() == ClassParsed(old(ctx.Snapshot()), rest).value
  {
    if ctx.className != "" {
      return Fail(Located(ctx.Snapshot(), Malformed(ClassAlreadyOpen)));
    }
    var nameBegin := FindFirstNotOf(rest, 5);
    if nameBegin.None? {
      return Fail(Located(ctx.Snapshot(), Malformed(MissingClassName)));
    }
    var nameEnd := FindFirstOf(rest, nameBegin.value);
    ctx.className := if nameEnd.None? then rest[nameBegin.value..] else rest[nameBegin.value..nameEnd.value];
    ctx.classCurlyLevel := ctx.curlyLevel;
    if nameEnd.Some? {
      var parent := ParseParentClass(rest[nameEnd.value..]);
      if parent.Failure? {
        return Fail(Located(ctx.Snapshot(), Malformed(parent.error)));
      }
      if parent.value.Some? {
        ctx.parentClassName := parent.value.value;
      }
    }
    ctx.out := ctx.out + [ClassHeader(ctx.className, ctx.parentClassName, ctx.lineNo + 1)];
    return Pass;
  }

  /** parse_member on the directive text `rest` (from `member` on): the member declaration. */
  method ParseMember(ctx: ParseContext, rest: string) returns (r: Outcome<Failure>)
    modifies ctx
    ensures MemberParsed(old(ctx.Snapshot()), rest).Failure? ==> r == Fail(MemberParsed(old(ctx.Snapshot()), rest).error)
    ensures MemberParsed(old(ctx.Snapshot()), rest).Success? ==>
              r == Pass && ctx.Snapshot() == MemberParsed(old(ctx.Snapshot()), rest).value
  {
    if ctx.className == "" {
      return Fail(Located(ctx.Snapshot(), Malformed(MemberOutsideClass)));
    }
    var member := ParseMemberDecl(rest);
    if member.Failure? {
      return Fail(Located(ctx.Snapshot(), Malformed(member.error)));
    }
    ctx.out := ctx.out + [MemberField(ctx.className, member.value.className, member.value.name)];
    return Pass;
  }

  /** write_class_footer: fails when no class is open, and leaves the names to the caller. */
  method WriteClassFooter(ctx: ParseContext) returns (r: Outcome<Failure>)
    modifies ctx
    ensures old(ctx.className) == "" ==> r == Fail(Located(old(ctx.Snapshot()), Malformed(NoClassToEnd)))
    ensures old(ctx.className) != "" ==>
              r == Pass && ctx.Snapshot() == old(ctx.Snapshot()).(out := old(ctx.out)
                                               + [ClassFooter(ctx.className, ctx.parentClassName, ctx.lineNo)])
  {
    if ctx.className == "" {
      return Fail(Located(ctx.Snapshot(), Malformed(NoClassToEnd)));
    }
    ctx.out := ctx.out + [ClassFooter(ctx.className, ctx.parentClassName, ctx.lineNo)];
    return Pass;
  }

  /** write_footer: fails while a class is open, and otherwise ends the header with a newline. */
  method WriteFooter(ctx: ParseContext) returns (r: Outcome<Failure>)
    modifies ctx
    ensures old(ctx.className) != "" ==>
              r == Fail(ParseError(old(ctx.filename), old(ctx.lineNo), old(ctx.line), ClassNotEnded))
    ensures old(ctx.className) == "" ==> r == Pass && ctx.Snapshot() == Compiler.Write(old(ctx.Snapshot()), "\n")
  {
    if ctx.className != "" {
      return Fail(ParseError(ctx.filename, ctx.lineNo, ctx.line, ClassNotEnded));
    }
    ctx.Write("\n");
    return Pass;
  }

  /**
   * A `%` line whose `%` is at `p`: a run of text lines is closed, the
   * braces of the whole line are counted, and the line is copied without
   * its `%`.
   */
  method ParseCppLine(ctx: ParseContext, p: nat) returns (r: Outcome<Failure>)
    requires p < |ctx.line|
    modifies ctx
    ensures CppLineParsed(old(ctx.Snapshot()), p).Failure? ==> r == Fail(CppLineParsed(old(ctx.Snapshot()), p).error)
    ensures CppLineParsed(old(ctx.Snapshot()), p).Success? ==>
              r == Pass && ctx.Snapshot() == CppLineParsed(old(ctx.Snapshot()), p).value
  {
    if ctx.previousLineType == TextLine {
      ctx.CloseText();
    }
    r := CopyCppLine(ctx, p);
  }

  /** The rest of a `%` line once a text run is closed: its braces are counted and the line copied without the `%`. */
  method CopyCppLine(ctx: ParseContext, p: nat) returns (r: Outcome<Failure>)
    requires p < |ctx.line|
    modifies ctx
    ensures CurlyAfter(old(ctx.curlyLevel), old(ctx.line)).None? ==>
              r == Fail(Located(old(ctx.Snapshot()), Malformed(TooManyClosingBraces)))
    ensures CurlyAfter(old(ctx.curlyLevel), old(ctx.line)).Some? ==>
              r == Pass && ctx.Snapshot() == Compiler.Write(old(ctx.Snapshot()).(curlyLevel := CurlyAfter(old(ctx.curlyLevel), old(ctx.line)).value),
                                                            old(ctx.line)[..p] + old(ctx.line)[p + 1..] + "\n").(previousLineType := CppLine)
  {
    var balanced := CountBraces(ctx);
    if !balanced {
      return Fail(Located(ctx.Snapshot(), Malformed(TooManyClosingBraces)));
    }
    ghost var c2 := ctx.Snapshot();
    var line := ctx.line;
    ctx.Write(line[..p]);
    ctx.Write(line[p + 1..] + "\n");
    WriteWrite(c2, line[..p], line[p + 1..] + "\n");
    assert line[..p] + (line[p + 1..] + "\n") == line[..p] + line[p + 1..] + "\n";
    ctx.previousLineType := CppLine;
    return Pass;
  }

  /** The brace loop of a `%` line: every brace of the line moves the depth, which may not go below zero. */
  method CountBraces(ctx: ParseContext) returns (balanced: bool)
    modifies ctx
    ensures balanced <==> CurlyAfter(old(ctx.curlyLevel), ctx.line).Some?
    ensures balanced ==> ctx.Snapshot() == old(ctx.Snapshot()).(curlyLevel := CurlyAfter(old(ctx.curlyLevel), ctx.line).value)
    ensures !balanced ==> ctx.Snapshot() == old(ctx.Snapshot()).(curlyLevel := 0)
  {
    var line := ctx.line;
    ScanDepthIsCurlyAfter(ctx.curlyLevel, line);
    // The depth is kept in a local and stored back when the loop stops, where the source
    // increments and decrements the field itself; the field ends with the same value.
    var level := ctx.curlyLevel;
    for k := 0 to |line|
      invariant ScanDepth(old(ctx.curlyLevel), line) == ScanDepth(level, line[k..])
    {
      assert line[k..][0] == line[k] && line[k..][1..] == line[k + 1..];
      if line[k] == '{' {
        level := level + 1;
      } else if line[k] == '}' {
        if level == 0 {
          ctx.curlyLevel := 0;
          return false;
        }
        level := level - 1;
      }
    }
    assert line[|line|..] == [];
    ctx.curlyLevel := level;
    return true;
  }

  // ---------------------------------------------------------------------
  // The `parse` loop and the driver (kiste2cpp.cpp:453-548, 562-636)
  // ---------------------------------------------------------------------

  /** One iteration of `parse` on the line `text`. */
  method ParseLine(ctx: ParseContext, text: string) returns (r: Outcome<Failure>)
    modifies ctx
    ensures LineParsed(old(ctx.Snapshot()), text).Failure? ==> r == Fail(LineParsed(old(ctx.Snapshot()), text).error)
    ensures LineParsed(old(ctx.Snapshot()), text).Success? ==>
              r == Pass && ctx.Snapshot() == LineParsed(old(ctx.Snapshot()), text).value
  {
    ctx.lineNo := ctx.lineNo + 1;
    ctx.trailingReturn := true;
    ctx.line := text;
    assert ctx.Snapshot() == LineStarted(old(ctx.Snapshot()), text);
    r := HandleLine(ctx);
  }

  /** The handler for the line just read, chosen by its first non-blank character. */
  method HandleLine(ctx: ParseContext) returns (r: Outcome<Failure>)
    modifies ctx
    ensures LineHandled(old(ctx.Snapshot())).Failure? ==> r == Fail(LineHandled(old(ctx.Snapshot())).error)
    ensures LineHandled(old(ctx.Snapshot())).Success? ==>
              r == Pass && ctx.Snapshot() == LineHandled(old(ctx.Snapshot())).value
  {
    ghost var c0 := ctx.Snapshot();
    FirstClassified(ctx.line);
    var first := FindFirstNotOf(ctx.line, 0);
    if first.None? {
      BlankHandled(c0);
      r := ParseBlankLine(ctx);
    } else if ctx.line[first.value] == '%' {
      CppHandled(c0, first.value);
      r := ParseCppLine(ctx, first.value);
    } else if ctx.line[first.value] == '$' {
      r := ParseDirectiveLine(ctx, first.value);
    } else {
      TextHandled(c0);
      r := ParseTextLine(ctx);
    }
  }

  /** A line with no non-blank character. */
  method ParseBlankLine(ctx: ParseContext) returns (r: Outcome<Failure>)
    modifies ctx
    ensures BlankParsed(old(ctx.Snapshot())).Failure? ==> r == Fail(BlankParsed(old(ctx.Snapshot())).error)
    ensures BlankParsed(old(ctx.Snapshot())).Success? ==>
              r == Pass && ctx.Snapshot() == BlankParsed(old(ctx.Snapshot())).value
  {
    if ctx.className != "" && ctx.curlyLevel > ctx.classCurlyLevel {
      r := ParseTextLine(ctx);
    } else {
      ctx.Write("\n");
      r := Pass;
    }
  }

  /** A line whose first non-blank character, at `p`, is `$`: a directive, a trim-left or a text line. */
  method ParseDirectiveLine(ctx: ParseContext, p: nat) returns (r: Outcome<Failure>)
    requires p < |ctx.line| && FindFirstNotOf(ctx.line, 0) == Some(p) && ctx.line[p] == '$'
    modifies ctx
    ensures LineHandled(old(ctx.Snapshot())).Failure? ==> r == Fail(LineHandled(old(ctx.Snapshot())).error)
    ensures LineHandled(old(ctx.Snapshot())).Success? ==>
              r == Pass && ctx.Snapshot() == LineHandled(old(ctx.Snapshot())).value
  {
    ghost var c0 := ctx.Snapshot();
    DollarClassified(ctx.line, p);
    var rest := ctx.line[p + 1..];
    if StartsWith(rest, "class") {
      ClassHandled(c0, p);
      r := ParseClass(ctx, rest);
    } else if StartsWith(rest, "endclass") {
      EndClassHandled(c0);
      r := ParseEndClass(ctx);
    } else if StartsWith(rest, "member") {
      MemberHandled(c0, p);
      r := ParseMember(ctx, rest);
    } else if StartsWith(rest, "|") {
      TrimLeftHandled(c0, p);
      r := ParseTrimLeft(ctx, p);
    } else {
      TextHandled(c0);
      r := ParseTextLine(ctx);
    }
  }

  /** `$endclass`: write_class_footer, then both class names cleared. */
  method ParseEndClass(ctx: ParseContext) returns (r: Outcome<Failure>)
    modifies ctx
    ensures EndClassParsed(old(ctx.Snapshot())).Failure? ==> r == Fail(EndClassParsed(old(ctx.Snapshot())).error)
    ensures EndClassParsed(old(ctx.Snapshot())).Success? ==>
              r == Pass && ctx.Snapshot() == EndClassParsed(old(ctx.Snapshot())).value
  {
    r := WriteClassFooter(ctx);
    if r.Pass? {
      ctx.className := "";
      ctx.parentClassName := "";
    }
  }

  /** `$|` at `p`: the line loses everything up to and including the `$|`, and the rest is a text line. */
  method ParseTrimLeft(ctx: ParseContext, p: nat) returns (r: Outcome<Failure>)
    requires p + 2 <= |ctx.line|
    modifies ctx
    ensures TextLineParsed(old(ctx.Snapshot()).(line := old(ctx.line)[p + 2..])).Failure? ==>
              r == Fail(TextLineParsed(old(ctx.Snapshot()).(line := old(ctx.line)[p + 2..])).error)
    ensures TextLineParsed(old(ctx.Snapshot()).(line := old(ctx.line)[p + 2..])).Success? ==>
              r == Pass && ctx.Snapshot() == TextLineParsed(old(ctx.Snapshot()).(line := old(ctx.line)[p + 2..])).value
  {
    ctx.line := ctx.line[p + 2..];
    r := ParseTextLine(ctx);
  }

  /**
   * `parse` over the lines of the input, then the check that every brace
   * opened in C++ was closed.
   */
  method Parse(ctx: ParseContext, lines: seq<string>) returns (r: Outcome<Failure>)
    modifies ctx
    ensures LinesParsed(old(ctx.Snapshot()), lines).Failure? ==> r == Fail(LinesParsed(old(ctx.Snapshot()), lines).error)
    ensures LinesParsed(old(ctx.Snapshot()), lines).Success? && LinesParsed(old(ctx.Snapshot()), lines).value.curlyLevel != 0 ==>
              r == Fail(Located(LinesParsed(old(ctx.Snapshot()), lines).value, Malformed(NotEnoughClosingBraces)))
    ensures LinesParsed(old(ctx.Snapshot()), lines).Success? && LinesParsed(old(ctx.Snapshot()), lines).value.curlyLevel == 0 ==>
              r == Pass && ctx.Snapshot() == LinesParsed(old(ctx.Snapshot()), lines).value
  {
    ghost var c := ctx.Snapshot();
    for k := 0 to |lines|
      invariant LinesParsed(c, lines) == LinesParsed(ctx.Snapshot(), lines[k..])
    {
      assert lines[k..][0] == lines[k] && lines[k..][1..] == lines[k + 1..];
      r := ParseLine(ctx, lines[k]);
      if r.Fail? {
        return;
      }
    }
    assert lines[|lines|..] == [];
    if ctx.curlyLevel != 0 {
      return Fail(Located(ctx.Snapshot(), Malformed(NotEnoughClosingBraces)));
    }
    return Pass;
  }

  /** write_header: the file's prologue. */
  method WriteHeader(ctx: ParseContext)
    modifies ctx
    ensures ctx.Snapshot() == old(ctx.Snapshot()).(out := old(ctx.out) + [FileHeader(ctx.filename, ctx.reportExceptions)])
  {
    ctx.out := ctx.out + [FileHeader(ctx.filename, ctx.reportExceptions)];
  }

  /**
   * The body of `main` once the file is read: write_header, parse and
   * write_footer on a fresh context; on success the generated header,
   * otherwise the error `main` reports.
   */
  method Compile(filename: string, source: string, reportExceptions: bool) returns (r: Result<seq<Emission>, Failure>)
    ensures Compiled(filename, source, reportExceptions).Failure? ==>
              r == Failure(Compiled(filename, source, reportExceptions).error)
    ensures Compiled(filename, source, reportExceptions).Success? ==>
              r == Success(Compiled(filename, source, reportExceptions).value.out)
  {
    var ctx := new ParseContext(filename, reportExceptions);
    WriteHeader(ctx);
    assert ctx.Snapshot() == Initial(filename, reportExceptions);
    var parsed := Parse(ctx, SplitLines(source));
    if parsed.Fail? {
      return Failure(parsed.error);
    }
    var footer := WriteFooter(ctx);
    if footer.Fail? {
      return Failure(footer.error);
    }
    return Success(ctx.out);
  }

  /** One more character of a literal written through write_char. */
  lemma LiteralWritten(c: Ctx, e: string, k: nat)
    requires k < |e|
    ensures Compiler.Write(Compiler.Write(c, Literal(e[..k])), LiteralChar(e[k]))
         == Compiler.Write(c, Literal(e[..k + 1]))
  {
    assert e[..k + 1][..k] == e[..k];
    WriteWrite(c, Literal(e[..k]), LiteralChar(e[k]));
  }

  /** Three writes in a row are one write of the three strings. */
  lemma WriteThree(c: Ctx, a: string, b: string, d: string)
    ensures Compiler.Write(Compiler.Write(Compiler.Write(c, a), b), d) == Compiler.Write(c, a + b + d)
  {
    WriteWrite(c, a, b);
    WriteWrite(c, a + b, d);
  }
}
