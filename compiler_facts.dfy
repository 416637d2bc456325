/**
 * Properties of the compiler of module Compiler: an invariant every line
 * keeps, what a successful compilation guarantees about the generated
 * header, the scope rules of the directives, and what a text line emits.
 */
module CompilerFacts {
  import opened Wrappers
  import opened Braces
  import opened Scanning
  import opened Diagnostics
  import opened Directives
  import opened Commands
  import opened Compiler

  // ---------------------------------------------------------------------
  // Class nesting in the output
  // ---------------------------------------------------------------------

  /**
   * The class open after the emissions `es` ("" for none), or None when
   * they are not well nested: a class header only with no class open, a
   * member or footer only for the open class.
   */
  function ClassState(es: seq<Emission>): Option<string>
  {
    if es == [] then Some("")
    else
      match ClassState(es[..|es| - 1])
      case None => None
      case Some(open) => ClassStep(open, es[|es| - 1])
  }

  function ClassStep(open: string, e: Emission): Option<string>
  {
    match e
    case ClassHeader(name, _, _) => if open == "" && name != "" then Some(name) else None
    case MemberField(owner, _, _) => if open != "" && owner == open then Some(open) else None
    case ClassFooter(name, _, _) => if open != "" && name == open then Some("") else None
    case _ => Some(open)
  }

  /** Characters do not open or close classes. */
  lemma {:induction false} ClassStatePuts(a: seq<Emission>, b: seq<Emission>)
    requires OnlyPuts(a, b)
    ensures ClassState(b) == ClassState(a)
    decreases |b|
  {
    if |b| > |a| {
      var b' := b[..|b| - 1];
      assert b'[..|a|] == a;
      assert b[|a|..][..|b| - |a| - 1] == b'[|a|..];
      assert b[|b| - 1] == b[|a|..][|b| - |a| - 1];
      ClassStatePuts(a, b');
    } else {
      assert b == b[..|a|];
    }
  }

  lemma ClassStateSnoc(es: seq<Emission>, e: Emission)
    ensures ClassState(es + [e]) == match ClassState(es) case None => None case Some(open) => ClassStep(open, e)
  {
    assert (es + [e])[..|es + [e]| - 1] == es;
  }

  // ---------------------------------------------------------------------
  // The invariant between lines
  // ---------------------------------------------------------------------

  /**
   * What holds of the context between two lines: no string literal is
   * left open; a text call is open only right after text and inside a
   * brace; the parent name is set only inside a class; the class events
   * emitted so far are well nested, ending in the open class; and the
   * output still starts with the file header.
   */
  predicate Valid(c: Ctx)
  {
    !c.stringOpened
    && (c.streamOpened ==> c.previousLineType == TextLine && c.curlyLevel > 0)
    && (c.className == "" ==> c.parentClassName == "")
    && ClassState(c.out) == Some(c.className)
    && |c.out| > 0 && c.out[0] == FileHeader(c.filename, c.reportExceptions)
  }

  lemma InitialValid(filename: string, reportExceptions: bool)
    ensures Valid(Initial(filename, reportExceptions))
  {
    ClassStateSnoc([], FileHeader(filename, reportExceptions));
    assert [] + [FileHeader(filename, reportExceptions)] == Initial(filename, reportExceptions).out;
  }

  /** A text line keeps the invariant. */
  lemma TextLineValid(c: Ctx)
    requires Valid(c)
    ensures TextLineParsed(c).Success? ==> Valid(TextLineParsed(c).value)
  {
    if TextLineParsed(c).Success? {
      var d := TextLineParsed(c).value;
      OnlyPutsTrans(c.out, OpenText(c).out, d.out);
      ClassStatePuts(c.out, d.out);
    }
  }

  /** Every line keeps the invariant. */
  lemma LineValid(c: Ctx, text: string)
    requires Valid(c)
    ensures LineParsed(c, text).Success? ==> Valid(LineParsed(c, text).value)
  {
    match Classify(text)
    case Blank => BlankLineValid(c, text);
    case CppCode(p) => CppLineValid(c, text, p);
    case ClassDirective(p) => ClassLineValid(c, text, p);
    case EndClassDirective => EndClassLineValid(c, text);
    case MemberDirective(p) => MemberLineValid(c, text, p);
    case TrimLeft(p) => TrimLeftLineValid(c, text, p);
    case Text => TextLineLineValid(c, text);
  }

  lemma BlankLineValid(c: Ctx, text: string)
    requires Valid(c) && Classify(text) == Blank
    ensures LineParsed(c, text).Success? ==> Valid(LineParsed(c, text).value)
  {
    BlankValid(LineStarted(c, text));
  }

  lemma CppLineValid(c: Ctx, text: string, p: nat)
    requires Valid(c) && Classify(text) == CppCode(p)
    ensures LineParsed(c, text).Success? ==> Valid(LineParsed(c, text).value)
  {
    CppValid(LineStarted(c, text), p);
  }

  lemma ClassLineValid(c: Ctx, text: string, p: nat)
    requires Valid(c) && Classify(text) == ClassDirective(p)
    ensures LineParsed(c, text).Success? ==> Valid(LineParsed(c, text).value)
  {
    ClassValid(LineStarted(c, text), text[p + 1..]);
  }

  lemma EndClassLineValid(c: Ctx, text: string)
    requires Valid(c) && Classify(text) == EndClassDirective
    ensures LineParsed(c, text).Success? ==> Valid(LineParsed(c, text).value)
  {
    EndClassValid(LineStarted(c, text));
  }

  lemma MemberLineValid(c: Ctx, text: string, p: nat)
    requires Valid(c) && Classify(text) == MemberDirective(p)
    ensures LineParsed(c, text).Success? ==> Valid(LineParsed(c, text).value)
  {
    MemberValid(LineStarted(c, text), text[p + 1..]);
  }

  lemma TrimLeftLineValid(c: Ctx, text: string, p: nat)
    requires Valid(c) && Classify(text) == TrimLeft(p)
    ensures LineParsed(c, text).Success? ==> Valid(LineParsed(c, text).value)
  {
    var c1 := LineStarted(c, text).(line := text[p + 2..]);
    assert c1 == c.(lineNo := c.lineNo + 1, trailingReturn := true, line := text[p + 2..]);
    TextLineValid(c1);
    TrimLeftParsed(c, text, p);
  }

  lemma TrimLeftParsed(c: Ctx, text: string, p: nat)
    requires Classify(text) == TrimLeft(p)
    ensures LineParsed(c, text) == TextLineParsed(LineStarted(c, text).(line := text[p + 2..]))
  {
    TrimLeftHandled(LineStarted(c, text), p);
  }

  lemma TextLineLineValid(c: Ctx, text: string)
    requires Valid(c) && Classify(text) == Text
    ensures LineParsed(c, text).Success? ==> Valid(LineParsed(c, text).value)
  {
    TextLineValid(LineStarted(c, text));
  }

  lemma BlankValid(c: Ctx)
    requires Valid(c)
    ensures BlankParsed(c).Success? ==> Valid(BlankParsed(c).value)
  {
    if c.className != "" && c.curlyLevel > c.classCurlyLevel {
      TextLineValid(c);
    } else {
      ClassStatePuts(c.out, Write(c, "\n").out);
    }
  }

  lemma CppValid(c: Ctx, p: nat)
    requires Valid(c) && p < |c.line|
    ensures CppLineParsed(c, p).Success? ==> Valid(CppLineParsed(c, p).value)
  {
    if CppLineParsed(c, p).Success? {
      ClassStatePuts(c.out, CppLineParsed(c, p).value.out);
    }
  }

  lemma ClassValid(c: Ctx, rest: string)
    requires Valid(c)
    ensures ClassParsed(c, rest).Success? ==> Valid(ClassParsed(c, rest).value)
  {
    if ClassParsed(c, rest).Success? {
      var decl := ParseClassDecl(rest).value;
      var parent := if decl.parent.Some? then decl.parent.value else c.parentClassName;
      ClassStateSnoc(c.out, ClassHeader(decl.name, parent, c.lineNo + 1));
    }
  }

  lemma EndClassValid(c: Ctx)
    requires Valid(c)
    ensures EndClassParsed(c).Success? ==> Valid(EndClassParsed(c).value)
  {
    if c.className != "" {
      ClassStateSnoc(c.out, ClassFooter(c.className, c.parentClassName, c.lineNo));
    }
  }

  lemma MemberValid(c: Ctx, rest: string)
    requires Valid(c)
    ensures MemberParsed(c, rest).Success? ==> Valid(MemberParsed(c, rest).value)
  {
    if MemberParsed(c, rest).Success? {
      var member := ParseMemberDecl(rest).value;
      ClassStateSnoc(c.out, MemberField(c.className, member.className, member.name));
    }
  }

  lemma {:induction false} LinesValid(c: Ctx, lines: seq<string>)
    requires Valid(c)
    ensures LinesParsed(c, lines).Success? ==> Valid(LinesParsed(c, lines).value)
    decreases |lines|
  {
    if lines != [] {
      LineValid(c, lines[0]);
      if LineParsed(c, lines[0]).Success? {
        LinesValid(LineParsed(c, lines[0]).value, lines[1..]);
      }
    }
  }

  /**
   * A successful compilation leaves every brace closed, no class open, no
   * text call or string literal unterminated, and the class headers,
   * members and footers it emitted well nested.
   */
  lemma CompiledClean(filename: string, source: string, reportExceptions: bool)
    requires Compiled(filename, source, reportExceptions).Success?
    ensures var d := Compiled(filename, source, reportExceptions).value;
            d.curlyLevel == 0 && d.className == "" && d.parentClassName == ""
            && !d.streamOpened && !d.stringOpened
            && ClassState(d.out) == Some("")
            && d.out[0] == FileHeader(filename, reportExceptions)
  {
    var c0 := Initial(filename, reportExceptions);
    InitialValid(filename, reportExceptions);
    LinesValid(c0, SplitLines(source));
    var c := LinesParsed(c0, SplitLines(source)).value;
    var d := Write(c, "\n");
    ClassStatePuts(c.out, d.out);
    assert d.out[0] == d.out[..|c.out|][0];
  }

  /** The end-of-file brace check comes before the class check. */
  lemma BracesCheckedFirst(filename: string, source: string, reportExceptions: bool)
    requires LinesParsed(Initial(filename, reportExceptions), SplitLines(source)).Success?
    requires LinesParsed(Initial(filename, reportExceptions), SplitLines(source)).value.curlyLevel != 0
    ensures Compiled(filename, source, reportExceptions).Failure?
    ensures Compiled(filename, source, reportExceptions).error.message == NotEnoughClosingBraces
  {
  }

  // ---------------------------------------------------------------------
  // Scope rules of the directives (kiste2cpp.cpp:262-263, 324-365, 421-471)
  // ---------------------------------------------------------------------

  /**
   * `$class` fails inside a class and on a malformed declaration; otherwise
   * the line is parse_class on the text after the `$`, whose contract gives
   * the class opened at the current depth, its parent and its header.
   */
  lemma ClassScope(c: Ctx, text: string)
    requires Classify(text).ClassDirective?
    ensures c.className != "" ==> LineParsed(c, text).Failure?
                                  && LineParsed(c, text).error.message == ClassAlreadyOpen
    ensures LineParsed(c, text).Success? <==>
              c.className == "" && ParseClassDecl(text[Classify(text).first + 1..]).Success?
    ensures LineParsed(c, text) == ClassParsed(LineStarted(c, text), text[Classify(text).first + 1..])
  {
    ClassHandled(LineStarted(c, text), Classify(text).first);
  }

  /** `$endclass` fails exactly when no class is open, clears both names, and is `EndClassParsed` on the line. */
  lemma EndClassScope(c: Ctx, text: string)
    requires Classify(text).EndClassDirective?
    ensures LineParsed(c, text).Failure? <==> c.className == ""
    ensures LineParsed(c, text).Failure? ==> LineParsed(c, text).error.message == NoClassToEnd
    ensures LineParsed(c, text).Success? ==>
              LineParsed(c, text).value.className == "" && LineParsed(c, text).value.parentClassName == ""
    ensures LineParsed(c, text) == EndClassParsed(LineStarted(c, text))
  {
  }

  /** `$member` fails when no class is open; otherwise it adds the declared member and changes no scope. */
  lemma MemberScope(c: Ctx, text: string)
    requires Classify(text).MemberDirective?
    ensures c.className == "" ==> LineParsed(c, text).Failure?
                                  && LineParsed(c, text).error.message == MemberOutsideClass
    ensures LineParsed(c, text).Success? <==>
              c.className != "" && ParseMemberDecl(text[Classify(text).first + 1..]).Success?
    ensures LineParsed(c, text).Success? ==>
              var m := ParseMemberDecl(text[Classify(text).first + 1..]).value;
              var d := LineParsed(c, text).value;
              && d.className == c.className && d.parentClassName == c.parentClassName
              && d.curlyLevel == c.curlyLevel && d.classCurlyLevel == c.classCurlyLevel
              && d.out == c.out + [MemberField(c.className, m.className, m.name)]
  {
    MemberHandled(LineStarted(c, text), Classify(text).first);
  }

  /** Text is accepted only deeper than the class's depth. */
  lemma TextScope(c: Ctx, text: string)
    requires Classify(text).Text? || Classify(text).TrimLeft?
    ensures c.curlyLevel <= c.classCurlyLevel ==>
              LineParsed(c, text).Failure? && LineParsed(c, text).error.ParseError?
              && LineParsed(c, text).error.message == TextOutsideFunction
  {
    var c0 := LineStarted(c, text);
    if Classify(text).Text? {
      TextHandled(c0);
    } else {
      TrimLeftHandled(c0, Classify(text).first);
    }
  }

  /** A blank line is text only inside a class and deeper than its depth; otherwise it is a bare newline. */
  lemma BlankScope(c: Ctx, text: string)
    requires Classify(text).Blank?
    ensures c.className != "" && c.curlyLevel > c.classCurlyLevel ==>
              LineParsed(c, text) == TextLineParsed(LineStarted(c, text))
    ensures !(c.className != "" && c.curlyLevel > c.classCurlyLevel) ==>
              LineParsed(c, text) == Success(Write(LineStarted(c, text), "\n"))
  {
  }

  /** A `%` line moves the depth by its braces and fails when a brace would take it below zero. */
  lemma CppLineDepth(c: Ctx, text: string)
    requires Classify(text).CppCode?
    ensures LineParsed(c, text).Success? <==> StaysNonNegative(c.curlyLevel, text)
    ensures LineParsed(c, text).Failure? ==> LineParsed(c, text).error.message == TooManyClosingBraces
    ensures LineParsed(c, text).Success? ==> LineParsed(c, text).value.curlyLevel == c.curlyLevel + Nesting(text)
  {
  }

  // ---------------------------------------------------------------------
  // What a text line emits
  // ---------------------------------------------------------------------

  lemma WriteWrite(c: Ctx, a: string, b: string)
    ensures Write(Write(c, a), b) == Write(c, a + b)
  {
    CodeConcat(a, b);
    assert (c.out + Code(a)) + Code(b) == c.out + (Code(a) + Code(b));
  }

  /** Characters without `$` are written through write_char into one string literal. */
  lemma {:induction false} PlainFrom(c: Ctx, i: nat)
    requires i <= |c.line| && '$' !in c.line[i..]
    ensures LineFrom(c, i) == Success(if i == |c.line| then c else Write(OpenString(c), Literal(c.line[i..])))
    decreases |c.line| - i
  {
    if i < |c.line| {
      var ch := c.line[i];
      assert c.line[i..] == [ch] + c.line[i + 1..];
      assert '$' !in c.line[i + 1..];
      LineFromChar(c, i);
      var c1 := TokenEmittedChar(c, ch);
      PlainFrom(c1, i + 1);
      LiteralCons(ch, c.line[i + 1..]);
      WriteWrite(OpenString(c), LiteralChar(ch), Literal(c.line[i + 1..]));
      if i + 1 == |c.line| {
        assert Literal(c.line[i + 1..]) == [];
        assert Write(c1, []) == c1;
      }
    }
  }

  lemma LineFromChar(c: Ctx, i: nat)
    requires i < |c.line| && c.line[i] != '$'
    ensures LineFrom(c, i) == LineFrom(TokenEmitted(c, Char(c.line[i])), i + 1)
  {
  }

  /** The context after a plain character, which is left inside the open literal. */
  lemma TokenEmittedChar(c: Ctx, ch: char) returns (d: Ctx)
    ensures d == TokenEmitted(c, Char(ch)) == WriteChar(OpenString(c), ch)
    ensures d.streamOpened && d.stringOpened && OpenString(d) == d && d.line == c.line
  {
    d := WriteChar(OpenString(c), ch);
  }

  lemma LiteralCons(ch: char, s: string)
    ensures Literal([ch] + s) == LiteralChar(ch) + Literal(s)
  {
    LiteralConcat([ch], s);
    assert Literal([ch]) == LiteralChar(ch) by { assert [ch][..0] == []; }
  }

  /**
   * A line without `$`, accepted as text: after the indentation, the text
   * call is opened if it was not, then one string literal holding the line
   * as write_char escapes it, followed by `\n`.
   */
  lemma PlainTextLine(c: Ctx)
    requires '$' !in c.line && !c.stringOpened && c.trailingReturn
    requires c.curlyLevel > c.classCurlyLevel
    ensures TextLineParsed(c).Success?
    ensures var d := TextLineParsed(c).value;
            var c1 := OpenText(c);
            d.out == c1.out + Code(Indent(c.curlyLevel + 1)
                                   + (if c.streamOpened then "" else "_serialize.text(")
                                   + "\"" + Literal(c.line) + "\\n\"")
            && d.streamOpened && !d.stringOpened && d.trailingReturn
  {
    var c1 := OpenText(c);
    var c2 := Write(c1, Indent(c.curlyLevel + 1));
    var opening := (if c.streamOpened then "" else "_serialize.text(") + "\"";
    var body := Literal(c.line) + "\\n\"";
    PlainLineFrom(c2);
    TextLineUnfold(c);
    OpenStringCode(c2);
    var d := TextLineParsed(c).value;
    assert d.out == Write(Write(c2, opening), body).out;
    WriteWrite(c2, opening, body);
    WriteWrite(c1, Indent(c.curlyLevel + 1), opening + body);
    Regroup(Indent(c.curlyLevel + 1), if c.streamOpened then "" else "_serialize.text(", "\"",
            Literal(c.line), "\\n\"");
  }

  lemma Regroup(a: string, b: string, c: string, d: string, e: string)
    ensures a + ((b + c) + (d + e)) == a + b + c + d + e
  {
  }

  /** parse_text_line when the line is inside a function: the loop, then the line ending. */
  lemma TextLineUnfold(c: Ctx)
    requires c.curlyLevel > c.classCurlyLevel
    ensures TextLineParsed(c)
         == match LineFrom(Write(OpenText(c), Indent(c.curlyLevel + 1)), 0)
            case Failure(e) => Failure(Located(c, e))
            case Success(c3) => Success(LineEnded(c3))
  {
  }

  /** open_string on a closed string literal: the text call if needed, then the opening quote. */
  lemma OpenStringCode(c: Ctx)
    requires !c.stringOpened
    ensures OpenString(c) == Write(c, (if c.streamOpened then "" else "_serialize.text(") + "\"")
                               .(streamOpened := true, stringOpened := true)
  {
    if !c.streamOpened {
      WriteWrite(c, "_serialize.text(", "\"");
    } else {
      assert "" + "\"" == "\"";
    }
  }

  /** The loop and the line ending over a line without `$`: the whole line, then `\\n`, in one literal. */
  lemma PlainLineFrom(c: Ctx)
    requires '$' !in c.line && !c.stringOpened && c.trailingReturn
    ensures LineFrom(c, 0).Success?
    ensures LineEnded(LineFrom(c, 0).value)
         == Write(OpenString(c), Literal(c.line) + "\\n\"").(stringOpened := false)
  {
    assert c.line[0..] == c.line;
    PlainFrom(c, 0);
    var c3 := OpenString(c);
    var c4 := Write(c3, Literal(c.line));
    if |c.line| == 0 {
      assert Literal(c.line) == "";
      assert c4 == c3;
    }
    LineEndedOpen(c4);
    assert OpenString(c4) == c4;
    WriteWrite(c3, Literal(c.line), "\\n\"");
  }

  /** The line ending with trailing return: `\\n` and the closing quote, in the (opened) literal. */
  lemma LineEndedOpen(c: Ctx)
    requires c.trailingReturn
    ensures LineEnded(c) == Write(OpenString(c), "\\n\"").(stringOpened := false)
  {
    var c2 := Write(OpenString(c), "\\n");
    assert CloseString(c2) == Write(c2, "\"").(stringOpened := false);
    WriteWrite(OpenString(c), "\\n", "\"");
    assert "\\n" + "\"" == "\\n\"";
  }

  // ---------------------------------------------------------------------
  // The loop of parse_text_line is the tokenizer followed by emission
  // ---------------------------------------------------------------------

  function TokensEmitted(c: Ctx, ts: seq<Token>): Ctx
    decreases |ts|
  {
    if ts == [] then c else TokensEmitted(TokenEmitted(c, ts[0]), ts[1..])
  }

  /** The tokens' emission, or the tokenizer's failure. */
  function EmittedOrFailed(c: Ctx, r: Result<seq<Token>, LineError>): Result<Ctx, LineError>
  {
    match r
    case Failure(e) => Failure(e)
    case Success(ts) => Success(TokensEmitted(c, ts))
  }

  /**
   * Emitting while scanning (the loop) and scanning first, then emitting
   * the tokens, agree: on the failure and on the resulting context.
   */
  lemma {:induction false} LineFromTokens(c: Ctx, i: nat)
    ensures LineFrom(c, i) == EmittedOrFailed(c, TokensFrom(c.line, i))
    decreases |c.line| - i
  {
    if i < |c.line| && TokenAt(c.line, i).Success? {
      var (t, next) := TokenAt(c.line, i).value;
      LineFromTokens(TokenEmitted(c, t), next);
      LineFromStep(c, i, t, next);
      EmittedStep(c, i, t, next);
    }
  }

  lemma LineFromStep(c: Ctx, i: nat, t: Token, next: nat)
    requires i < |c.line| && TokenAt(c.line, i) == Success((t, next))
    ensures LineFrom(c, i) == LineFrom(TokenEmitted(c, t), next)
  {
  }

  lemma EmittedStep(c: Ctx, i: nat, t: Token, next: nat)
    requires i < |c.line| && TokenAt(c.line, i) == Success((t, next))
    ensures EmittedOrFailed(c, TokensFrom(c.line, i))
         == EmittedOrFailed(TokenEmitted(c, t), TokensFrom(c.line, next))
  {
    match TokensFrom(c.line, next)
    case Failure(e) =>
    case Success(rest) =>
      assert ([t] + rest)[1..] == rest;
  }

  /** A token that fails ends the loop of parse_text_line with that failure. */
  lemma LineFromFails(c: Ctx, i: nat, e: LineError)
    requires i < |c.line| && TokenAt(c.line, i) == Failure(e)
    ensures LineFrom(c, i) == Failure(e)
  {
  }

  /** parse_arg's output by token, whether or not parse_text_line opened the string first. */
  lemma ArgEmittedShape(c: Ctx, t: Token)
    ensures ArgEmitted(OpenString(c), t) == ArgEmitted(c, t)
    ensures t.Char? ==> ArgEmitted(c, t) == WriteChar(OpenString(c), t.c)
    ensures t.TrimRight? ==> ArgEmitted(c, t) == OpenString(c).(trailingReturn := false)
    ensures t.Expr? ==> ArgEmitted(c, t) == ExprEmitted(OpenString(c), t.kind, t.expr)
  {
    OpenStringTwice(c);
  }

  lemma OpenStringTwice(c: Ctx)
    ensures OpenString(OpenString(c)) == OpenString(c)
  {
  }

  /** The loop of parse_text_line after one token. */
  lemma LineFromStepTo(c: Ctx, i: nat, t: Token, next: nat, d: Ctx)
    requires i < |c.line| && TokenAt(c.line, i) == Success((t, next)) && d == TokenEmitted(c, t)
    ensures LineFrom(c, i) == LineFrom(d, next)
  {
  }

  /** parse_text_line's open_string, then parse_arg (which opens the string again, to no effect). */
  lemma TokenEmittedArg(c: Ctx, t: Token)
    ensures TokenEmitted(c, t) == ArgEmitted(OpenString(c), t)
  {
  }

  lemma TokenTrailingReturn(c: Ctx, t: Token)
    ensures TokenEmitted(c, t).trailingReturn == (c.trailingReturn && !t.TrimRight?)
  {
  }

  lemma {:induction false} TokensTrailingReturn(c: Ctx, ts: seq<Token>)
    ensures TokensEmitted(c, ts).trailingReturn == (c.trailingReturn && TrimRight !in ts)
    decreases |ts|
  {
    if ts != [] {
      var c1 := TokenEmitted(c, ts[0]);
      TokenTrailingReturn(c, ts[0]);
      TokensTrailingReturn(c1, ts[1..]);
      InTail(ts);
    }
  }

  lemma InTail(ts: seq<Token>)
    requires ts != []
    ensures TrimRight in ts <==> ts[0] == TrimRight || TrimRight in ts[1..]
  {
    assert ts == [ts[0]] + ts[1..];
  }

  /**
   * A text line that starts with trailing return set (as every line does)
   * ends with `\n"` written exactly unless its last command was `$|`.
   */
  lemma TrailingReturnOfLine(c: Ctx)
    requires c.trailingReturn && TextLineParsed(c).Success?
    ensures Tokens(c.line).Success?
    ensures var d := TextLineParsed(c).value;
            var ts := Tokens(c.line).value;
            (d.trailingReturn <==> TrimRight !in ts)
            && (d.trailingReturn ==> |d.out| >= 3 && d.out[|d.out| - 3..] == Code("\\n\""))
            && (!d.trailingReturn ==> |ts| > 0 && ts[|ts| - 1] == TrimRight)
  {
    var c2 := Write(OpenText(c), Indent(c.curlyLevel + 1));
    TextLineUnfold(c);
    LineFromTokens(c2, 0);
    var ts := Tokens(c.line).value;
    TokensTrailingReturn(c2, ts);
    TrimRightIsLast(c.line, 0);
    var c3 := LineFrom(c2, 0).value;
    if c3.trailingReturn {
      LineEndedOpen(c3);
      EndsWith(OpenString(c3).out, Code("\\n\""));
    } else {
      var k :| 0 <= k < |ts| && ts[k] == TrimRight;
    }
  }

  lemma EndsWith(a: seq<Emission>, b: seq<Emission>)
    ensures (a + b)[|a + b| - |b|..] == b
  {
  }

  /** How `parse` sorts a line whose first non-blank character, at `p`, is `$`. */
  lemma DollarClassified(line: string, p: nat)
    requires p < |line| && FindFirstNotOf(line, 0) == Some(p) && line[p] == '$'
    ensures StartsWith(line[p + 1..], "class") ==> Classify(line) == ClassDirective(p)
    ensures !StartsWith(line[p + 1..], "class") && StartsWith(line[p + 1..], "endclass")
            ==> Classify(line) == EndClassDirective
    ensures !StartsWith(line[p + 1..], "class") && !StartsWith(line[p + 1..], "endclass")
            && StartsWith(line[p + 1..], "member")
            ==> Classify(line) == MemberDirective(p)
    ensures !StartsWith(line[p + 1..], "class") && !StartsWith(line[p + 1..], "endclass")
            && !StartsWith(line[p + 1..], "member") && StartsWith(line[p + 1..], "|")
            ==> Classify(line) == TrimLeft(p)
    ensures !StartsWith(line[p + 1..], "class") && !StartsWith(line[p + 1..], "endclass")
            && !StartsWith(line[p + 1..], "member") && !StartsWith(line[p + 1..], "|")
            ==> Classify(line) == Text
  {
    var rest := line[p + 1..];
    if StartsWith(rest, "class") {
      assert Classify(line) == ClassDirective(p);
    } else if StartsWith(rest, "endclass") {
      assert Classify(line) == EndClassDirective;
    } else if StartsWith(rest, "member") {
      assert Classify(line) == MemberDirective(p);
    } else if StartsWith(rest, "|") {
      assert Classify(line) == TrimLeft(p);
    } else {
      assert Classify(line) == Text;
    }
  }

  /** How `parse` sorts a line by its first non-blank character, when that is not `$`. */
  lemma FirstClassified(line: string)
    ensures FindFirstNotOf(line, 0).None? ==> Classify(line) == Blank
    ensures FindFirstNotOf(line, 0).Some? && line[FindFirstNotOf(line, 0).value] == '%'
            ==> Classify(line) == CppCode(FindFirstNotOf(line, 0).value)
    ensures FindFirstNotOf(line, 0).Some? && line[FindFirstNotOf(line, 0).value] !in "%$"
            ==> Classify(line) == Text
  {
  }

  /** A blank line goes to the blank-line rule. */
  lemma BlankHandled(c0: Ctx)
    requires Classify(c0.line) == Blank
    ensures LineHandled(c0) == BlankParsed(c0)
  {
  }

  /** A `%` line goes to the C++ rule. */
  lemma CppHandled(c0: Ctx, p: nat)
    requires Classify(c0.line) == CppCode(p)
    ensures LineHandled(c0) == CppLineParsed(c0, p)
  {
  }

  /** A `$class` line goes to parse_class. */
  lemma ClassHandled(c0: Ctx, p: nat)
    requires Classify(c0.line) == ClassDirective(p)
    ensures LineHandled(c0) == ClassParsed(c0, c0.line[p + 1..])
  {
  }

  /** A `$endclass` line goes to write_class_footer. */
  lemma EndClassHandled(c0: Ctx)
    requires Classify(c0.line) == EndClassDirective
    ensures LineHandled(c0) == EndClassParsed(c0)
  {
  }

  /** A `$|` line is a text line once everything up to the `$|` is cut off. */
  lemma TrimLeftHandled(c0: Ctx, p: nat)
    requires Classify(c0.line) == TrimLeft(p)
    ensures p + 2 <= |c0.line|
    ensures LineHandled(c0) == TextLineParsed(c0.(line := c0.line[p + 2..]))
  {
  }

  /** Any other line is a text line. */
  lemma TextHandled(c0: Ctx)
    requires Classify(c0.line) == Text
    ensures LineHandled(c0) == TextLineParsed(c0)
  {
  }

  /** A `$member` line goes to parse_member. */
  lemma MemberHandled(c0: Ctx, p: nat)
    requires Classify(c0.line) == MemberDirective(p)
    ensures LineHandled(c0) == MemberParsed(c0, c0.line[p + 1..])
  {
  }
}
