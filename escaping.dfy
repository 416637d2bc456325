/**
 * What the two runtime escapers (include/kiste/html.h and
 * include/kiste/cpp.h) have in common: `text` writes a C string, and
 * escaping a string writes the escape of each character, in order, which a
 * decoder that reads each escape back as its character inverts.
 */
module Escaping {
  import opened Wrappers

  /**
   * What `_os << text` writes for a `const char*` argument: the characters
   * before the first NUL, which ends a C string.
   */
  function CString(s: string): (r: string)
    ensures r <= s && '\0' !in r
    ensures r == s || s[|r|] == '\0'
  {
    if s == [] || s[0] == '\0' then [] else [s[0]] + CString(s[1..])
  }

  /** The per-character images of `s` under `f`, concatenated in order. */
  function FlatMap(f: char -> string, s: string): string
  {
    if s == [] then [] else FlatMap(f, s[..|s| - 1]) + f(s[|s| - 1])
  }

  /** One more character at the end adds its image at the end. */
  lemma FlatMapSnoc(f: char -> string, s: string, c: char)
    ensures FlatMap(f, s + [c]) == FlatMap(f, s) + f(c)
  {
    assert (s + [c])[..|s|] == s;
  }

  /** The image of a concatenation is the concatenation of the images. */
  lemma {:induction false} FlatMapConcat(f: char -> string, a: string, b: string)
    ensures FlatMap(f, a + b) == FlatMap(f, a) + FlatMap(f, b)
    decreases |b|
  {
    if b == [] {
      assert a + b == a;
    } else {
      var init := b[..|b| - 1];
      var last := b[|b| - 1];
      assert b == init + [last];
      assert a + b == (a + init) + [last];
      FlatMapConcat(f, a, init);
      FlatMapSnoc(f, a + init, last);
      FlatMapSnoc(f, init, last);
      assert (FlatMap(f, a) + FlatMap(f, init)) + f(last) == FlatMap(f, a) + (FlatMap(f, init) + f(last));
    }
  }

  /** One more character at the front adds its image at the front. */
  lemma FlatMapCons(f: char -> string, c: char, s: string)
    ensures FlatMap(f, [c] + s) == f(c) + FlatMap(f, s)
  {
    FlatMapConcat(f, [c], s);
    FlatMapSnoc(f, [], c);
    assert [] + [c] == [c];
  }

  /** A decoded character in front of a decoded rest; nothing when the rest did not decode. */
  function Prepend(c: char, r: Option<string>): Option<string>
  {
    if r.Some? then Some([c] + r.value) else None
  }

  /**
   * A decoder that reads the empty text as empty and each character's image,
   * followed by any text, as that character followed by the decoded text,
   * reads every FlatMap back as its input.
   */
  lemma {:induction false} DecodeFlatMap(f: char -> string, decode: string -> Option<string>, s: string)
    requires decode([]) == Some([])
    requires forall c, rest :: decode(f(c) + rest) == Prepend(c, decode(rest))
    ensures decode(FlatMap(f, s)) == Some(s)
    decreases |s|
  {
    if s != [] {
      assert s == [s[0]] + s[1..];
      FlatMapCons(f, s[0], s[1..]);
      DecodeFlatMap(f, decode, s[1..]);
    }
  }
}
