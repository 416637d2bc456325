/**
 * The HTML serializer of the runtime (include/kiste/html.h): `text` copies a
 * C string and `raw` its argument to the output, `escape` replaces the five
 * characters that are special in HTML by entities. The output stream is
 * the string `out`, which every operation extends.
 */
module Html {
  import opened Wrappers
  import opened Escaping

  /** `escape(char)`: the entity for `<`, `>`, `'`, `"` and `&`, any other character as it is. */
  function EscapedChar(c: char): string
  {
    match c
    case '<' => "&lt;"
    case '>' => "&gt;"
    case '\'' => "&#39;"
    case '"' => "&quot;"
    case '&' => "&amp;"
    case _ => [c]
  }

  /** `escape` on a string: the per-character escapes, in order. */
  function Escaped(s: string): string
  {
    FlatMap(EscapedChar, s)
  }

  /** The five entities `escape` writes. */
  predicate IsEntity(e: string)
  {
    e == "&lt;" || e == "&gt;" || e == "&#39;" || e == "&quot;" || e == "&amp;"
  }

  /** An entity starts at index `i` of `s`. */
  predicate EntityAt(s: string, i: nat)
  {
    || (i + 4 <= |s| && IsEntity(s[i..i + 4]))
    || (i + 5 <= |s| && IsEntity(s[i..i + 5]))
    || (i + 6 <= |s| && IsEntity(s[i..i + 6]))
  }

  /** Reads escaped text back: every entity becomes its character; a bare `<`, `>`, `'`, `"` or `&` is rejected. */
  function Unescaped(s: string): Option<string>
    decreases |s|
  {
    if s == [] then Some([])
    else if s[0] == '&' then
      if |s| >= 4 && s[..4] == "&lt;" then Prepend('<', Unescaped(s[4..]))
      else if |s| >= 4 && s[..4] == "&gt;" then Prepend('>', Unescaped(s[4..]))
      else if |s| >= 5 && s[..5] == "&#39;" then Prepend('\'', Unescaped(s[5..]))
      else if |s| >= 6 && s[..6] == "&quot;" then Prepend('"', Unescaped(s[6..]))
      else if |s| >= 5 && s[..5] == "&amp;" then Prepend('&', Unescaped(s[5..]))
      else None
    else if s[0] in "<>'\"" then None
    else Prepend(s[0], Unescaped(s[1..]))
  }

  /** Escaping one character and then more text reads back as that character and the rest. */
  lemma UnescapedCons(c: char, rest: string)
    ensures Unescaped(EscapedChar(c) + rest) == Prepend(c, Unescaped(rest))
  {
    if c in "<>'\"&" {
      UnescapedEntity(c, rest);
    } else {
      var s := EscapedChar(c) + rest;
      assert s[0] == c && s[1..] == rest;
    }
  }

  /** An entity followed by more text reads back as the entity's character and the rest. */
  lemma UnescapedEntity(c: char, rest: string)
    requires c in "<>'\"&"
    ensures Unescaped(EscapedChar(c) + rest) == Prepend(c, Unescaped(rest))
  {
    var e := EscapedChar(c);
    var s := e + rest;
    assert s[..|e|] == e && s[|e|..] == rest;
    assert s[0] == '&' && s[1] == e[1];
  }

  /** Round trip: the escaped text reads back as the original. */
  lemma EscapeRoundTrip(s: string)
    ensures Unescaped(Escaped(s)) == Some(s)
  {
    forall c, rest
      ensures Unescaped(EscapedChar(c) + rest) == Prepend(c, Unescaped(rest))
    {
      UnescapedCons(c, rest);
    }
    DecodeFlatMap(EscapedChar, Unescaped, s);
  }

  /** Escaping loses nothing: different strings escape differently. */
  lemma EscapedInjective(a: string, b: string)
    requires Escaped(a) == Escaped(b)
    ensures a == b
  {
    EscapeRoundTrip(a);
    EscapeRoundTrip(b);
  }

  /** Safe output: no `<`, `>`, `'` or `"`, and every `&` starts one of the five entities. */
  predicate Safe(s: string)
  {
    && (forall i :: 0 <= i < |s| ==> s[i] !in "<>'\"")
    && (forall i :: 0 <= i < |s| && s[i] == '&' ==> EntityAt(s, i))
  }

  lemma SafeChar(c: char)
    ensures Safe(EscapedChar(c))
  {
    var e := EscapedChar(c);
    if c in "<>'\"&" {
      assert e[0..|e|] == e;
      assert EntityAt(e, 0);
    }
  }

  /** Two safe pieces make safe text: an entity stays whole across the join. */
  lemma SafeConcat(a: string, b: string)
    requires Safe(a) && Safe(b)
    ensures Safe(a + b)
  {
    var s := a + b;
    forall i | 0 <= i < |s| && s[i] == '&'
      ensures EntityAt(s, i)
    {
      if i < |a| {
        assert a[i] == '&' && EntityAt(a, i);
        if i + 4 <= |a| { SliceWithin(a, b, i, 4); }
        if i + 5 <= |a| { SliceWithin(a, b, i, 5); }
        if i + 6 <= |a| { SliceWithin(a, b, i, 6); }
      } else {
        var j := i - |a|;
        assert b[j] == '&' && EntityAt(b, j);
        assert s[i..] == b[j..];
        assert forall n :: 0 <= n <= |b| - j ==> s[i..][..n] == s[i..i + n] && b[j..][..n] == b[j..j + n];
      }
    }
    forall i | 0 <= i < |s|
      ensures s[i] !in "<>'\""
    {
      if i < |a| {
        assert s[i] == a[i];
      } else {
        assert s[i] == b[i - |a|];
      }
    }
  }

  lemma SliceWithin(a: string, b: string, i: nat, n: nat)
    requires i + n <= |a|
    ensures (a + b)[i..i + n] == a[i..i + n]
  {
  }

  /** Whatever the input, escaped text is safe to embed in HTML. */
  lemma {:induction false} EscapedSafe(s: string)
    ensures Safe(Escaped(s))
    decreases |s|
  {
    if s != [] {
      EscapedSafe(s[..|s| - 1]);
      SafeChar(s[|s| - 1]);
      SafeConcat(Escaped(s[..|s| - 1]), EscapedChar(s[|s| - 1]));
    }
  }

  /** The serializer writing to the stream `out`. */
  class Serializer {
    var out: string

    constructor ()
      ensures out == []
    {
      out := [];
    }

    /** `text`: the C string the argument points to, which ends at the first NUL. */
    method Text(text: string)
      modifies this
      ensures out == old(out) + CString(text)
    {
      out := out + CString(text);
    }

    /** `raw`: the argument unchanged. */
    method Raw(text: string)
      modifies this
      ensures out == old(out) + text
    {
      out := out + text;
    }

    /** `escape(char)`. */
    method EscapeChar(c: char)
      modifies this
      ensures out == old(out) + EscapedChar(c)
    {
      match c
      case '<' => out := out + "&lt;";
      case '>' => out := out + "&gt;";
      case '\'' => out := out + "&#39;";
      case '"' => out := out + "&quot;";
      case '&' => out := out + "&amp;";
      case _ => out := out + [c];
    }

    /** `escape` on a string: one character at a time. */
    method Escape(text: string)
      modifies this
      ensures out == old(out) + Escaped(text)
    {
      for k := 0 to |text|
        invariant out == old(out) + Escaped(text[..k])
      {
        assert text[..k + 1][..k] == text[..k];
        EscapeChar(text[k]);
      }
      assert text[..|text|] == text;
    }
  }
}
