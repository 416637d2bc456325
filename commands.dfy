/**
 * The `$` commands of a text line (kiste2cpp.cpp parse_expression and the
 * decision part of parse_arg): `$$`, `$%`, a final `$|`, and the embedded
 * expressions `${...}`, `$raw{...}` and `$call{...}` whose text runs to
 * the matching closing brace.
 */
module Commands {
  import opened Wrappers
  import opened Braces
  import opened Scanning
  import opened Diagnostics

  /** Which serializer call an embedded expression becomes. */
  datatype ExprKind = Escape | Raw | Call

  /** One unit of a text line: a literal character, an embedded expression, or the trim-right marker. */
  datatype Token = Char(c: char) | Expr(kind: ExprKind, expr: string) | TrimRight

  // ---------------------------------------------------------------------
  // The balanced-brace scan
  // ---------------------------------------------------------------------

  /** From depth `depth`, every prefix of `s` leaves the depth above zero. */
  predicate StaysPositive(depth: int, s: string)
  {
    forall j :: 0 <= j <= |s| ==> depth + Nesting(s[..j]) > 0
  }

  /** `line[k]` is the brace that brings the depth `depth`, counted from `pos`, back to zero for the first time. */
  predicate ClosesAt(line: string, pos: nat, depth: int, k: nat)
  {
    pos <= k < |line| && line[k] == '}'
    && depth + Nesting(line[pos..k + 1]) == 0
    && StaysPositive(depth, line[pos..k])
  }

  /** A brace-balanced expression: it never closes more braces than it opened, and ends with none open. */
  predicate Balanced(e: string)
  {
    StaysNonNegative(0, e) && Nesting(e) == 0
  }

  lemma StaysPositiveCons(depth: int, c: char, s: string)
    ensures StaysPositive(depth, [c] + s) <==> depth > 0 && StaysPositive(depth + Delta(c), s)
  {
    var t := [c] + s;
    assert t[..0] == [];
    forall j | 0 <= j <= |s|
      ensures depth + Nesting(t[..j + 1]) == depth + Delta(c) + Nesting(s[..j])
    {
      assert t[..j + 1] == [c] + s[..j];
      NestingCons(c, s[..j]);
    }
    if depth > 0 && StaysPositive(depth + Delta(c), s) {
      forall j | 0 <= j <= |t|
        ensures depth + Nesting(t[..j]) > 0
      {
        if j > 0 {
          assert depth + Nesting(t[..(j - 1) + 1]) == depth + Delta(c) + Nesting(s[..j - 1]);
        }
      }
    }
    if StaysPositive(depth, t) {
      forall j | 0 <= j <= |s|
        ensures depth + Delta(c) + Nesting(s[..j]) > 0
      {
        assert depth + Nesting(t[..j + 1]) > 0;
      }
    }
  }

  /**
   * The index of the brace that closes depth `depth` when scanning from
   * `pos`, or None when the line ends first.
   */
  function MatchingBrace(line: string, pos: nat, depth: nat): Option<nat>
    requires pos <= |line| && depth > 0
    decreases |line| - pos
  {
    if pos == |line| then None
    else if line[pos] == '}' && depth == 1 then Some(pos)
    else MatchingBrace(line, pos + 1, depth + Delta(line[pos]))
  }

  /**
   * The scan is sound: a position it returns closes the depth, and when it
   * finds none the depth stays positive to the end of the line.
   */
  lemma {:induction false} MatchingBraceSound(line: string, pos: nat, depth: nat)
    requires pos <= |line| && depth > 0
    ensures var r := MatchingBrace(line, pos, depth);
            (r.Some? ==> ClosesAt(line, pos, depth, r.value))
            && (r.None? ==> StaysPositive(depth, line[pos..]))
    decreases |line| - pos
  {
    if pos == |line| {
      assert line[pos..][..0] == [];
    } else if line[pos] == '}' && depth == 1 {
      ClosesHere(line, pos);
    } else {
      var c := line[pos];
      MatchingBraceSound(line, pos + 1, depth + Delta(c));
      MatchingStep(line, pos, depth, MatchingBrace(line, pos + 1, depth + Delta(c)));
    }
  }

  /** Extending a slice by one character. */
  lemma SliceSnoc(line: string, i: nat, j: nat)
    requires i <= j < |line|
    ensures line[i..j + 1] == line[i..j] + [line[j]]
  {
  }

  /** One step of the scan, as parse_expression's loop takes it. */
  lemma MatchingUnfold(line: string, pos: nat, depth: nat)
    requires pos < |line| && depth > 0
    ensures MatchingBrace(line, pos, depth)
         == if line[pos] == '}' && depth == 1 then Some(pos)
            else MatchingBrace(line, pos + 1, depth + Delta(line[pos]))
  {
  }

  /** The brace at `pos` closes depth 1 at once. */
  lemma ClosesHere(line: string, pos: nat)
    requires pos < |line| && line[pos] == '}'
    ensures ClosesAt(line, pos, 1, pos)
  {
    assert line[pos..pos][..0] == [];
    assert line[pos..pos + 1] == [] + ['}'];
    NestingSnoc([], '}');
  }

  /** One character of the scan: the answer from `pos + 1` at the adjusted depth is the answer from `pos`. */
  lemma MatchingStep(line: string, pos: nat, depth: nat, r: Option<nat>)
    requires pos < |line| && depth > 0 && !(line[pos] == '}' && depth == 1)
    requires depth + Delta(line[pos]) > 0
    requires r.Some? ==> ClosesAt(line, pos + 1, depth + Delta(line[pos]), r.value)
    requires r.None? ==> StaysPositive(depth + Delta(line[pos]), line[pos + 1..])
    ensures r.Some? ==> ClosesAt(line, pos, depth, r.value)
    ensures r.None? ==> StaysPositive(depth, line[pos..])
  {
    var c := line[pos];
    assert line[pos..] == [c] + line[pos + 1..];
    StaysPositiveCons(depth, c, line[pos + 1..]);
    if r.Some? {
      var k := r.value;
      assert line[pos..k + 1] == [c] + line[pos + 1..k + 1];
      assert line[pos..k] == [c] + line[pos + 1..k];
      NestingCons(c, line[pos + 1..k + 1]);
      StaysPositiveCons(depth, c, line[pos + 1..k]);
    }
  }

  /**
   * parse_expression called just after an opening brace at `start`: the
   * text up to the matching brace and that brace's index.
   */
  function ExpressionAt(line: string, start: nat): (r: Result<(string, nat), Message>)
    requires start <= |line|
    ensures r.Failure? ==> r.error == MissingClosingBrace
    ensures r.Success? ==> start <= r.value.1 < |line| && line[r.value.1] == '}' && r.value.0 == line[start..r.value.1]
  {
    MatchingBraceSound(line, start, 1);
    match MatchingBrace(line, start, 1)
    case None => Failure(MissingClosingBrace)
    case Some(k) => Success((line[start..k], k))
  }

  /**
   * What parse_expression promises: it fails exactly when no brace closes
   * depth 1, and otherwise returns a balanced expression closed by the
   * first brace that brings the depth back to zero.
   */
  lemma ExpressionAtSound(line: string, start: nat)
    requires start <= |line|
    ensures ExpressionAt(line, start).Failure? ==> StaysPositive(1, line[start..])
    ensures ExpressionAt(line, start).Success? ==>
              ClosesAt(line, start, 1, ExpressionAt(line, start).value.1) && Balanced(ExpressionAt(line, start).value.0)
  {
    MatchingBraceSound(line, start, 1);
    if ExpressionAt(line, start).Success? {
      var k := ExpressionAt(line, start).value.1;
      var e := line[start..k];
      assert line[start..k + 1] == e + [line[k]];
      NestingSnoc(e, line[k]);
    }
  }

  /**
   * parse_expression: scans from `pos` at depth 1, copying every character
   * except the brace that closes depth 1, and leaves the position on it.
   */
  method ParseExpression(line: string, pos: nat) returns (r: Result<(string, nat), Message>)
    requires pos <= |line|
    ensures r == ExpressionAt(line, pos)
  {
    var expression := "";
    var level: nat := 1;
    var p := pos;
    while p < |line| && level > 0
      invariant pos <= p <= |line|
      invariant level > 0 ==> expression == line[pos..p] && MatchingBrace(line, pos, 1) == MatchingBrace(line, p, level)
      invariant level == 0 ==> pos < p && expression == line[pos..p - 1] && MatchingBrace(line, pos, 1) == Some(p - 1)
      decreases |line| - p
    {
      var c := line[p];
      MatchingUnfold(line, p, level);
      SliceSnoc(line, pos, p);
      if c == '{' {
        level := level + 1;
        expression := expression + [c];
      } else if c == '}' {
        level := level - 1;
        if level > 0 {
          expression := expression + [c];
        }
      } else {
        expression := expression + [c];
      }
      p := p + 1;
    }
    if level > 0 {
      return Failure(MissingClosingBrace);
    }
    p := p - 1;
    return Success((expression, p));
  }

  // ---------------------------------------------------------------------
  // One command after `$`
  // ---------------------------------------------------------------------

  /** The text between `$` and an embedded expression, up to its opening brace. */
  function Keyword(kind: ExprKind): (w: string)
    ensures |w| > 0 && w[|w| - 1] == '{'
  {
    match kind
    case Escape => "{"
    case Raw => "raw{"
    case Call => "call{"
  }

  /** The expression command whose keyword starts at `pos`, if any: `{`, `raw{` or `call{`. */
  function ExprCommand(line: string, pos: nat): (r: Option<(ExprKind, nat)>)
    requires pos <= |line|
    ensures r.Some? ==> pos < r.value.1 <= |line| && line[r.value.1 - 1] == '{'
    ensures r.None? <==>
              !StartsWith(line[pos..], "{") && !StartsWith(line[pos..], "raw{") && !StartsWith(line[pos..], "call{")
  {
    if pos < |line| && line[pos] == '{' then Some((Escape, pos + 1))
    else if StartsWith(line[pos..], "raw{") then Some((Raw, pos + 4))
    else if StartsWith(line[pos..], "call{") then Some((Call, pos + 5))
    else None
  }

  /**
   * parse_arg without its output: the token that the character(s) after a
   * `$` at `pos - 1` form, and the index of the last character consumed.
   */
  function ParseCommand(line: string, pos: nat): (r: Result<(Token, nat), LineError>)
    ensures r.Failure? && r.error.IndexOutOfRange? ==> pos >= |line|
    ensures r.Success? ==> pos <= r.value.1 < |line|
    ensures r.Success? && r.value.0.Char? ==> r.value.1 == pos && line[pos] in "$%" && r.value.0.c == line[pos]
    ensures r.Success? && r.value.0.TrimRight? ==> r.value.1 == pos == |line| - 1 && line[pos] == '|'
    ensures r.Success? && r.value.0.Expr? ==> line[r.value.1] == '}'
    ensures pos < |line| && line[pos] == '|' && pos != |line| - 1 ==> r == Failure(Malformed(TrailingAfterTrimRight))
  {
    if pos >= |line| then Failure(IndexOutOfRange(pos))
    else if line[pos] == '$' || line[pos] == '%' then Success((Char(line[pos]), pos))
    else if line[pos] == '|' then
      if pos != |line| - 1 then Failure(Malformed(TrailingAfterTrimRight))
      else Success((TrimRight, pos))
    else EmbeddedCommand(line, pos)
  }

  /**
   * parse_arg's errors after a `$`: any character other than `$`, `%` and
   * `|` that does not start `{`, `raw{` or `call{` is "Unknown command",
   * and a missing closing brace is reported only after one of those keywords.
   */
  lemma CommandErrors(line: string, pos: nat)
    ensures pos < |line| && line[pos] !in "$%|" && !StartsWith(line[pos..], "{")
            && !StartsWith(line[pos..], "raw{") && !StartsWith(line[pos..], "call{") ==>
              ParseCommand(line, pos) == Failure(Malformed(UnknownCommand))
    ensures ParseCommand(line, pos) == Failure(Malformed(MissingClosingBrace)) ==>
              pos < |line| && ExprCommand(line, pos).Some?
  {
  }

  /** The rest of parse_arg: a keyword, then the expression up to its closing brace. */
  function EmbeddedCommand(line: string, pos: nat): (r: Result<(Token, nat), LineError>)
    requires pos < |line|
    ensures r.Success? ==> r.value.0.Expr? && pos <= r.value.1 < |line| && line[r.value.1] == '}'
    ensures r.Failure? ==> !r.error.IndexOutOfRange?
    ensures ExprCommand(line, pos).None? ==> r == Failure(Malformed(UnknownCommand))
    ensures ExprCommand(line, pos).Some? ==>
              var start := ExprCommand(line, pos).value.1;
              && (r.Failure? <==> ExpressionAt(line, start).Failure?)
              && (r.Failure? ==> r.error == Malformed(MissingClosingBrace))
              && (r.Success? ==> r.value == (Expr(ExprCommand(line, pos).value.0, line[start..r.value.1]), r.value.1))
  {
    match ExprCommand(line, pos)
    case None => Failure(Malformed(UnknownCommand))
    case Some((kind, start)) =>
      match ExpressionAt(line, start)
      case Failure(m) => Failure(Malformed(m))
      case Success((e, k)) => Success((Expr(kind, e), k))
  }

  // ---------------------------------------------------------------------
  // A whole text line
  // ---------------------------------------------------------------------

  /**
   * The token that starts at index `i` of a text line, and the index after
   * it: a plain character, or `$` and the command after it.
   */
  function TokenAt(line: string, i: nat): (r: Result<(Token, nat), LineError>)
    requires i < |line|
    ensures r.Success? ==> i < r.value.1 <= |line|
    ensures line[i] != '$' ==> r == Success((Char(line[i]), i + 1))
    ensures r.Success? && r.value.0.TrimRight? ==>
              r.value.1 == |line| && i == |line| - 2 && line[i] == '$' && line[i + 1] == '|'
  {
    if line[i] != '$' then Success((Char(line[i]), i + 1))
    else
      match ParseCommand(line, i + 1)
      case Failure(e) => Failure(e)
      case Success((t, last)) => Success((t, last + 1))
  }

  /** A `$` and the command after it form one token, which ends after the command's last character. */
  lemma TokenAtDollar(line: string, i: nat)
    requires i < |line| && line[i] == '$'
    ensures TokenAt(line, i).Success? <==> ParseCommand(line, i + 1).Success?
    ensures TokenAt(line, i).Failure? ==> TokenAt(line, i).error == ParseCommand(line, i + 1).error
    ensures TokenAt(line, i).Success? ==>
              TokenAt(line, i).value.0 == ParseCommand(line, i + 1).value.0
              && TokenAt(line, i).value.1 == ParseCommand(line, i + 1).value.1 + 1
  {
  }

  /** The tokens of `line` from index `i` on, as the loop of parse_text_line meets them. */
  function TokensFrom(line: string, i: nat): (r: Result<seq<Token>, LineError>)
    decreases |line| - i
  {
    if i >= |line| then Success([])
    else
      match TokenAt(line, i)
      case Failure(e) => Failure(e)
      case Success((t, next)) =>
        match TokensFrom(line, next)
        case Failure(e) => Failure(e)
        case Success(rest) => Success([t] + rest)
  }

  function Tokens(line: string): Result<seq<Token>, LineError>
  {
    TokensFrom(line, 0)
  }

  /** Every character read as itself. */
  function CharTokens(s: string): (ts: seq<Token>)
    ensures |ts| == |s| && forall k :: 0 <= k < |s| ==> ts[k] == Char(s[k])
  {
    if s == [] then [] else [Char(s[0])] + CharTokens(s[1..])
  }

  /** A line without `$` is read character by character. */
  lemma {:induction false} PlainLine(line: string, i: nat)
    requires i <= |line|
    requires '$' !in line[i..]
    ensures TokensFrom(line, i) == Success(CharTokens(line[i..]))
    decreases |line| - i
  {
    if i < |line| {
      assert line[i] == line[i..][0];
      assert line[i + 1..] == line[i..][1..];
      PlainLine(line, i + 1);
    }
  }

  /** Trim-right can only be the last token, and only when the line ends with `$|`. */
  lemma {:induction false} TrimRightIsLast(line: string, i: nat)
    requires TokensFrom(line, i).Success?
    ensures var ts := TokensFrom(line, i).value;
            forall k :: 0 <= k < |ts| && ts[k].TrimRight? ==>
              k == |ts| - 1 && |line| >= 2 && line[|line| - 2..] == "$|"
    decreases |line| - i
  {
    if i < |line| {
      var (t, next) := TokenAt(line, i).value;
      TrimRightIsLast(line, next);
      var ends := |line| >= 2 && line[|line| - 2..] == "$|";
      if t.TrimRight? {
        assert TokensFrom(line, next) == Success([]);
        assert line[|line| - 2..] == [line[i], line[i + 1]];
      }
      TrimRightCons(t, TokensFrom(line, next).value, ends);
    }
  }

  lemma TrimRightCons(t: Token, rest: seq<Token>, ends: bool)
    requires forall k :: 0 <= k < |rest| && rest[k].TrimRight? ==> k == |rest| - 1 && ends
    requires t.TrimRight? ==> rest == [] && ends
    ensures var ts := [t] + rest;
            forall k :: 0 <= k < |ts| && ts[k].TrimRight? ==> k == |ts| - 1 && ends
  {
    var ts := [t] + rest;
    forall k | 0 <= k < |ts| && ts[k].TrimRight?
      ensures k == |ts| - 1 && ends
    {
      if k > 0 {
        assert ts[k] == rest[k - 1];
      }
    }
  }

  /**
   * `$` followed by a keyword and a balanced expression in braces reads
   * back that exact expression, and continues after the closing brace.
   */
  lemma ExprCommandRoundTrip(line: string, pos: nat, kind: ExprKind, e: string)
    requires pos + |Keyword(kind)| + |e| < |line|
    requires line[pos..pos + |Keyword(kind)|] == Keyword(kind)
    requires line[pos + |Keyword(kind)|..pos + |Keyword(kind)| + |e|] == e
    requires line[pos + |Keyword(kind)| + |e|] == '}'
    requires Balanced(e)
    ensures ParseCommand(line, pos) == Success((Expr(kind, e), pos + |Keyword(kind)| + |e|))
  {
    var start := pos + |Keyword(kind)|;
    KeywordRead(line, pos, kind);
    BalancedCloses(line, start, e);
    assert ExpressionAt(line, start) == Success((e, start + |e|));
    assert EmbeddedCommand(line, pos) == Success((Expr(kind, e), start + |e|));
    ExprRead(line, pos);
  }

  /** parse_arg on anything but `$`, `%` and `|`: a keyword, then the expression up to its brace. */
  lemma ExprRead(line: string, pos: nat)
    requires pos < |line| && line[pos] in "{rc"
    ensures ParseCommand(line, pos) == EmbeddedCommand(line, pos)
  {
  }

  /** The keyword of an expression command is recognised, and the expression starts after its `{`. */
  lemma KeywordRead(line: string, pos: nat, kind: ExprKind)
    requires pos + |Keyword(kind)| <= |line| && line[pos..pos + |Keyword(kind)|] == Keyword(kind)
    ensures ExprCommand(line, pos) == Some((kind, pos + |Keyword(kind)|))
    ensures line[pos] in "{rc"
  {
    var w := Keyword(kind);
    assert line[pos] == line[pos..pos + |w|][0];
    if kind != Escape {
      assert line[pos..][..|w|] == line[pos..pos + |w|];
      if kind == Call {
        assert line[pos..][..|"raw{"|][1] == 'a';
      }
    }
  }

  /** A balanced expression followed by `}` is closed exactly by that brace. */
  lemma BalancedCloses(line: string, start: nat, e: string)
    requires start + |e| < |line| && line[start..start + |e|] == e && line[start + |e|] == '}'
    requires Balanced(e)
    ensures MatchingBrace(line, start, 1) == Some(start + |e|)
  {
    var k := start + |e|;
    assert line[start..k] == e;
    assert line[start..k + 1] == e + ['}'];
    NestingSnoc(e, '}');
    MatchingBraceComplete(line, start, 1, k);
  }

  /** The scan finds every closing position there is: ClosesAt determines MatchingBrace. */
  lemma {:induction false} MatchingBraceComplete(line: string, pos: nat, depth: nat, k: nat)
    requires depth > 0 && ClosesAt(line, pos, depth, k)
    ensures MatchingBrace(line, pos, depth) == Some(k)
    decreases |line| - pos
  {
    var c := line[pos];
    assert line[pos..pos + 1] == [] + [c];
    NestingSnoc([], c);
    assert k != pos ==> line[pos..k][..1] == [c];
    if c == '}' && depth == 1 {
      assert k == pos;
    } else {
      assert k != pos;
      assert line[pos..k + 1] == [c] + line[pos + 1..k + 1];
      assert line[pos..k] == [c] + line[pos + 1..k];
      NestingCons(c, line[pos + 1..k + 1]);
      StaysPositiveCons(depth, c, line[pos + 1..k]);
      MatchingBraceComplete(line, pos + 1, depth + Delta(c), k);
    }
  }

  /** Text without braces is balanced. */
  lemma BraceFreeBalanced(e: string)
    requires '{' !in e && '}' !in e
    ensures Balanced(e)
  {
    forall j | 0 <= j <= |e|
      ensures Nesting(e[..j]) == 0
    {
      assert '{' !in e[..j] && '}' !in e[..j] by {
        assert forall x :: x in e[..j] ==> x in e;
      }
      AbsentOccurrences(e[..j], '{');
      AbsentOccurrences(e[..j], '}');
    }
    assert e[..|e|] == e;
  }

  /** `$name` is not a command: the reader rejects it, and only `${name}` is an expression. */
  lemma DollarNameIsUnknown()
    ensures ParseCommand("Hello $name!", 7) == Failure(Malformed(UnknownCommand))
    ensures ParseCommand("Hello ${name}!", 7) == Success((Expr(Escape, "name"), 12))
  {
    var good := "Hello ${name}!";
    assert good[7..8] == Keyword(Escape) && good[8..12] == "name" && good[12] == '}';
    BraceFreeBalanced("name");
    ExprCommandRoundTrip(good, 7, Escape, "name");
    var bad := "Hello $name!";
    assert bad[7] == 'n' && bad[7..][..|"raw{"|][0] == 'n' && bad[7..][..|"call{"|][0] == 'n';
  }
}
