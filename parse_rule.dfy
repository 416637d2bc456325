/**
 * The per-line update rule of the refactored parse context
 * (src/parse_context.cpp): after a line has been read, the context learns
 * the new brace depth, the brace depth of the open class and whether the
 * next text line starts after a line break. This revision describes a line
 * by its type and its list of commands (src/line.h:10-15, 31-62).
 */
module ParseRule {
  import opened Wrappers
  import opened Braces
  import opened Diagnostics

  /** The kind of a line; line_type.h is not part of this model, these are the kinds the compiler tells apart. */
  datatype LineType = NoLine | Text | Cpp | ClassBegin | ClassEnd | Member

  /** The kind of a command of a text line; command_type.h is not part of this model, only `$|` is singled out. */
  datatype CommandType = TrimTrailingReturn | OtherCommand(name: string)

  /** `command_t`: where the command ends in the line, its kind and its text. */
  datatype Command = Command(endPos: nat, kind: CommandType, text: string)

  /** The parts of `line_t` the update rule reads. */
  datatype LineInfo = LineInfo(kind: LineType, commands: seq<Command>)

  /** The state `update` changes and the line it reads; the streams are not modelled. */
  class Context {
    var filename: string
    var reportExceptions: bool
    var lineDirectives: bool
    var line: string
    var lineNo: nat
    var curlyLevel: nat
    var classCurlyLevel: nat
    var hasTrailingReturn: bool

    /** A fresh context: depth zero, no class, no pending line break. */
    constructor (filename: string, reportExceptions: bool, lineDirectives: bool)
      ensures this.filename == filename && this.reportExceptions == reportExceptions
      ensures this.lineDirectives == lineDirectives
      ensures line == [] && lineNo == 0
      ensures curlyLevel == 0 && classCurlyLevel == 0 && !hasTrailingReturn
    {
      this.filename := filename;
      this.reportExceptions := reportExceptions;
      this.lineDirectives := lineDirectives;
      line := [];
      lineNo := 0;
      curlyLevel := 0;
      classCurlyLevel := 0;
      hasTrailingReturn := false;
    }

    /**
     * `update`: the three derived fields, in the order the source assigns
     * them, so that the class depth is taken from the new brace depth. A
     * closing brace at depth zero throws before any field is assigned.
     */
    method Update(info: LineInfo) returns (r: Outcome<Message>)
      modifies this
      ensures CurlyAfter(old(curlyLevel), line).None? ==>
                r == Fail(TooManyClosingBraces) && curlyLevel == old(curlyLevel)
                && classCurlyLevel == old(classCurlyLevel) && hasTrailingReturn == old(hasTrailingReturn)
      ensures CurlyAfter(old(curlyLevel), line).Some? ==>
                && r == Pass
                && curlyLevel == CurlyAfter(old(curlyLevel), line).value
                && (info.kind.ClassBegin? ==> classCurlyLevel == curlyLevel == old(curlyLevel) + Nesting(line))
                && (info.kind.ClassEnd? ==> classCurlyLevel == 0)
                && (!info.kind.ClassBegin? && !info.kind.ClassEnd? ==> classCurlyLevel == old(classCurlyLevel))
                && hasTrailingReturn == HasTrailingReturn(info)
      ensures filename == old(filename) && reportExceptions == old(reportExceptions)
      ensures lineDirectives == old(lineDirectives) && line == old(line) && lineNo == old(lineNo)
    {
      CurlyAfterMeaning(curlyLevel, line);
      var level := DetermineCurlyLevel(this);
      if level.Failure? {
        return Fail(level.error);
      }
      curlyLevel := level.value;
      classCurlyLevel := DetermineClassCurlyLevel(this, info);
      hasTrailingReturn := HasTrailingReturn(info);
      return Pass;
    }
  }

  /**
   * `determine_curly_level`: the depth after the braces of the current
   * line, counted in a local variable; the context is not changed.
   */
  method DetermineCurlyLevel(ctx: Context) returns (r: Result<nat, Message>)
    ensures r.Success? <==> StaysNonNegative(ctx.curlyLevel, ctx.line)
    ensures r.Success? ==> r.value == ctx.curlyLevel + Occurrences(ctx.line, '{') - Occurrences(ctx.line, '}')
    ensures r.Failure? ==> r.error == TooManyClosingBraces
    ensures r == (if CurlyAfter(ctx.curlyLevel, ctx.line).Some? then Success(CurlyAfter(ctx.curlyLevel, ctx.line).value)
                  else Failure(TooManyClosingBraces))
  {
    var line := ctx.line;
    var level := ctx.curlyLevel;
    ScanDepthIsCurlyAfter(level, line);
    CurlyAfterMeaning(level, line);
    for k := 0 to |line|
      invariant ScanDepth(ctx.curlyLevel, line) == ScanDepth(level, line[k..])
    {
      assert line[k..][0] == line[k] && line[k..][1..] == line[k + 1..];
      if line[k] == '{' {
        level := level + 1;
      } else if line[k] == '}' {
        if level == 0 {
          return Failure(TooManyClosingBraces);
        }
        level := level - 1;
      }
    }
    assert line[|line|..] == [];
    return Success(level);
  }

  /**
   * `determine_class_curly_level`: an opening class remembers the brace
   * depth the context holds, a closing class forgets it, every other line
   * keeps the class depth.
   */
  function DetermineClassCurlyLevel(ctx: Context, info: LineInfo): (r: nat)
    reads ctx
    ensures info.kind.ClassBegin? ==> r == ctx.curlyLevel
    ensures info.kind.ClassEnd? ==> r == 0
    ensures !info.kind.ClassBegin? && !info.kind.ClassEnd? ==> r == ctx.classCurlyLevel
  {
    match info.kind
    case ClassBegin => ctx.curlyLevel
    case ClassEnd => 0
    case _ => ctx.classCurlyLevel
  }

  /** `has_trailing_return`: only a text line ending in `$|` suppresses the line break. */
  function HasTrailingReturn(info: LineInfo): (r: bool)
    ensures !r <==> info.kind.Text? && EndsWithTrim(info.commands)
    ensures !info.kind.Text? || info.commands == [] ==> r
  {
    !(info.kind == Text && info.commands != [] && info.commands[|info.commands| - 1].kind == TrimTrailingReturn)
  }

  /** The last command is `$|`. */
  predicate EndsWithTrim(commands: seq<Command>)
  {
    commands != [] && commands[|commands| - 1].kind.TrimTrailingReturn?
  }

  /** The depth computed line by line is additive: two lines in a row scan like their concatenation. */
  lemma {:induction false} TwoLines(level: nat, a: string, b: string)
    requires CurlyAfter(level, a).Some? && CurlyAfter(CurlyAfter(level, a).value, b).Some?
    ensures CurlyAfter(level, a + b) == CurlyAfter(CurlyAfter(level, a).value, b)
    ensures CurlyAfter(level, a + b).value == level + Nesting(a) + Nesting(b)
  {
    CurlyAfterConcat(level, a, b);
    CurlyAfterMeaning(level, a);
    CurlyAfterMeaning(CurlyAfter(level, a).value, b);
  }
}
