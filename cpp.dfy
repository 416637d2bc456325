/**
 * The C++ serializer of the runtime (include/kiste/cpp.h): `text` copies a
 * C string and `raw` its argument to the output, `escape` turns text into the
 * body of a C++ string literal by writing a backslash before `\` and `"`
 * and by writing a line break as the two characters `\n`. The output
 * stream is the string `out`, which every operation extends.
 */
module Cpp {
  import opened Wrappers
  import opened Escaping

  /** `escape(char)`: the escape sequence for `\`, `"` and a line break, any other character as it is. */
  function EscapedChar(c: char): (s: string)
    ensures c !in "\\\"\n" ==> s == [c]
    ensures c in "\\\"\n" ==> |s| == 2 && s[0] == '\\' && s[1] != '\n'
  {
    match c
    case '\\' => "\\\\"
    case '"' => "\\\""
    case '\n' => "\\n"
    case _ => [c]
  }

  /** `escape` on a string: the per-character escapes, in order. */
  function Escaped(s: string): string
  {
    FlatMap(EscapedChar, s)
  }

  /**
   * Reads the body of a string literal back, as a C++ compiler does for
   * the three escapes `escape` writes; a bare `"` or line break, or a
   * backslash before anything else, is rejected.
   */
  function Unescaped(s: string): Option<string>
    decreases |s|
  {
    if s == [] then Some([])
    else if s[0] == '\\' then
      if |s| < 2 then None
      else if s[1] == '\\' then Prepend('\\', Unescaped(s[2..]))
      else if s[1] == '"' then Prepend('"', Unescaped(s[2..]))
      else if s[1] == 'n' then Prepend('\n', Unescaped(s[2..]))
      else None
    else if s[0] in "\"\n" then None
    else Prepend(s[0], Unescaped(s[1..]))
  }

  /** Escaping one character and then more text reads back as that character and the rest. */
  lemma UnescapedCons(c: char, rest: string)
    ensures Unescaped(EscapedChar(c) + rest) == Prepend(c, Unescaped(rest))
  {
    var e := EscapedChar(c);
    var s := e + rest;
    if c in "\\\"\n" {
      assert s[0] == '\\' && s[1] == e[1] && s[2..] == rest;
    } else {
      assert s[0] == c && s[1..] == rest;
    }
  }

  /** Round trip: the literal body reads back as the original text. */
  lemma EscapeRoundTrip(s: string)
    ensures Unescaped(Escaped(s)) == Some(s)
  {
    forall c, rest
      ensures Unescaped(EscapedChar(c) + rest) == Prepend(c, Unescaped(rest))
    {
      UnescapedCons(c, rest);
    }
    DecodeFlatMap(EscapedChar, Unescaped, s);
  }

  /** Escaping loses nothing: different strings escape differently. */
  lemma EscapedInjective(a: string, b: string)
    requires Escaped(a) == Escaped(b)
    ensures a == b
  {
    EscapeRoundTrip(a);
    EscapeRoundTrip(b);
  }

  /** The escaped text never breaks the line: a string literal cannot span lines. */
  lemma {:induction false} EscapedHasNoLineBreak(s: string)
    ensures forall i :: 0 <= i < |Escaped(s)| ==> Escaped(s)[i] != '\n'
    decreases |s|
  {
    if s != [] {
      var init := Escaped(s[..|s| - 1]);
      var e := EscapedChar(s[|s| - 1]);
      EscapedHasNoLineBreak(s[..|s| - 1]);
      forall i | 0 <= i < |init + e|
        ensures (init + e)[i] != '\n'
      {
        if i >= |init| {
          assert (init + e)[i] == e[i - |init|];
        }
      }
    }
  }

  /** Every quote of the escaped text is escaped: the literal does not end early. */
  lemma {:induction false} EscapedQuotesAreEscaped(s: string)
    ensures forall i :: 0 <= i < |Escaped(s)| && Escaped(s)[i] == '"' ==> i > 0 && Escaped(s)[i - 1] == '\\'
    decreases |s|
  {
    if s != [] {
      var init := Escaped(s[..|s| - 1]);
      var e := EscapedChar(s[|s| - 1]);
      EscapedQuotesAreEscaped(s[..|s| - 1]);
      forall i | 0 <= i < |init + e| && (init + e)[i] == '"'
        ensures i > 0 && (init + e)[i - 1] == '\\'
      {
        if i < |init| {
          assert (init + e)[i] == init[i] && (init + e)[i - 1] == init[i - 1];
        } else {
          assert (init + e)[i] == e[i - |init|];
          assert e == "\\\"" && i == |init| + 1;
          assert (init + e)[i - 1] == e[0];
        }
      }
    }
  }

  /** The escaped text has the length of the input plus one per escaped character. */
  lemma {:induction false} EscapedLength(s: string)
    ensures |Escaped(s)| >= |s|
    ensures |Escaped(s)| == |s| <==> forall i :: 0 <= i < |s| ==> s[i] !in "\\\"\n"
    decreases |s|
  {
    if s != [] {
      var init := s[..|s| - 1];
      EscapedLength(init);
      assert forall i :: 0 <= i < |init| ==> init[i] == s[i];
    }
  }

  /** The serializer writing to the stream `out`. */
  class Serializer {
    var out: string

    constructor ()
      ensures out == []
    {
      out := [];
    }

    /** `text`: the C string the argument points to, which ends at the first NUL. */
    method Text(text: string)
      modifies this
      ensures out == old(out) + CString(text)
    {
      out := out + CString(text);
    }

    /** `raw`: the argument unchanged. */
    method Raw(text: string)
      modifies this
      ensures out == old(out) + text
    {
      out := out + text;
    }

    /** `escape(char)`. */
    method EscapeChar(c: char)
      modifies this
      ensures out == old(out) + EscapedChar(c)
    {
      match c
      case '\\' => out := out + "\\\\";
      case '"' => out := out + "\\\"";
      case '\n' => out := out + "\\n";
      case _ => out := out + [c];
    }

    /** `escape` on a string: one character at a time. */
    method Escape(text: string)
      modifies this
      ensures out == old(out) + Escaped(text)
    {
      for k := 0 to |text|
        invariant out == old(out) + Escaped(text[..k])
      {
        assert text[..k + 1][..k] == text[..k];
        EscapeChar(text[k]);
      }
      assert text[..|text|] == text;
    }
  }
}
