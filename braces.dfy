/**
 * Curly-brace accounting. The compiler tracks the brace depth of the C++
 * it passes through (kiste2cpp.cpp `%` lines and parse_expression), and the
 * refactored parse context recomputes it per line (parse_context.cpp
 * determine_curly_level). Both follow the definitions here.
 */
module Braces {
  import opened Wrappers

  /** How many times `c` occurs in `s`. */
  function Occurrences(s: string, c: char): nat
  {
    if s == [] then 0
    else Occurrences(s[..|s| - 1], c) + (if s[|s| - 1] == c then 1 else 0)
  }

  lemma {:induction false} AbsentOccurrences(s: string, c: char)
    requires c !in s
    ensures Occurrences(s, c) == 0
    decreases |s|
  {
    if s != [] {
      assert forall x :: x in s[..|s| - 1] ==> x in s;
      AbsentOccurrences(s[..|s| - 1], c);
    }
  }

  /** The change of brace depth caused by one character. */
  function Delta(c: char): int
  {
    if c == '{' then 1 else if c == '}' then -1 else 0
  }

  /** The number of opening minus the number of closing braces in `s`. */
  function Nesting(s: string): int
  {
    Occurrences(s, '{') - Occurrences(s, '}')
  }

  /** Starting at depth `level`, no prefix of `s` takes the depth below zero. */
  predicate StaysNonNegative(level: nat, s: string)
  {
    forall j :: 0 <= j <= |s| ==> level + Nesting(s[..j]) >= 0
  }

  /**
   * The depth after scanning `s` from depth `level`, or None when a closing
   * brace is met at depth zero ("Too many closing curly braces in C++").
   */
  function CurlyAfter(level: nat, s: string): Option<nat>
  {
    if StaysNonNegative(level, s) then
      assert s[..|s|] == s;
      Some(level + Nesting(s))
    else None
  }

  lemma CurlyAfterMeaning(level: nat, s: string)
    ensures CurlyAfter(level, s).Some? <==> StaysNonNegative(level, s)
    ensures CurlyAfter(level, s).Some? ==> CurlyAfter(level, s).value == level + Nesting(s)
  {
  }

  lemma NestingSnoc(s: string, c: char)
    ensures Nesting(s + [c]) == Nesting(s) + Delta(c)
  {
    assert (s + [c])[..|s + [c]| - 1] == s;
  }

  /** Prefix step used by loops: one more character changes the depth by its Delta. */
  lemma NestingPrefix(s: string, i: nat)
    requires i < |s|
    ensures Nesting(s[..i + 1]) == Nesting(s[..i]) + Delta(s[i])
  {
    assert s[..i + 1] == s[..i] + [s[i]];
    NestingSnoc(s[..i], s[i]);
  }

  lemma {:induction false} NestingConcat(a: string, b: string)
    ensures Nesting(a + b) == Nesting(a) + Nesting(b)
    decreases |b|
  {
    if b == [] {
      assert a + b == a;
    } else {
      var b' := b[..|b| - 1];
      var c := b[|b| - 1];
      assert b == b' + [c];
      assert a + b == (a + b') + [c];
      NestingConcat(a, b');
      NestingSnoc(a + b', c);
      NestingSnoc(b', c);
    }
  }

  /** Depth is additive from the front as well. */
  lemma NestingCons(c: char, s: string)
    ensures Nesting([c] + s) == Delta(c) + Nesting(s)
  {
    NestingConcat([c], s);
    NestingSnoc([], c);
    assert [] + [c] == [c];
  }

  /**
   * Scanning a concatenation: the depth stays non-negative through `a + b`
   * exactly when it does through `a` and then through `b` from the depth
   * reached after `a`.
   */
  lemma {:induction false} CurlyAfterConcat(level: nat, a: string, b: string)
    ensures CurlyAfter(level, a + b) ==
            (match CurlyAfter(level, a)
             case None => None
             case Some(mid) => CurlyAfter(mid, b))
  {
    var ab := a + b;
    if StaysNonNegative(level, a) {
      assert a[..|a|] == a;
      var mid: nat := level + Nesting(a);
      assert CurlyAfter(level, a) == Some(mid);
      forall j | 0 <= j <= |b|
        ensures level + Nesting(ab[..|a| + j]) == mid + Nesting(b[..j])
      {
        assert ab[..|a| + j] == a + b[..j];
        NestingConcat(a, b[..j]);
      }
      if StaysNonNegative(mid, b) {
        forall j | 0 <= j <= |ab|
          ensures level + Nesting(ab[..j]) >= 0
        {
          if j <= |a| {
            assert ab[..j] == a[..j];
          } else {
            assert level + Nesting(ab[..|a| + (j - |a|)]) == mid + Nesting(b[..j - |a|]);
          }
        }
        assert ab[..|ab|] == ab && b[..|b|] == b;
        assert level + Nesting(ab[..|a| + |b|]) == mid + Nesting(b[..|b|]);
      } else {
        var j :| 0 <= j <= |b| && mid + Nesting(b[..j]) < 0;
        assert level + Nesting(ab[..|a| + j]) < 0;
      }
    } else {
      var j :| 0 <= j <= |a| && level + Nesting(a[..j]) < 0;
      assert ab[..j] == a[..j];
      assert !StaysNonNegative(level, ab);
    }
  }

  /** One character of the scan: a `}` at depth zero fails, any other character moves the depth by its Delta. */
  lemma CurlyAfterCons(level: nat, s: string)
    requires s != []
    ensures CurlyAfter(level, s)
         == if s[0] == '}' && level == 0 then None else CurlyAfter(level + Delta(s[0]), s[1..])
  {
    var c := s[0];
    assert s == [c] + s[1..];
    CurlyAfterConcat(level, [c], s[1..]);
    NestingSnoc([], c);
    assert [] + [c] == [c];
    assert [c][..0] == [] && [c][..1] == [c];
    if c == '}' && level == 0 {
      assert !StaysNonNegative(level, [c]) by {
        assert level + Nesting([c][..1]) < 0;
      }
    } else {
      assert StaysNonNegative(level, [c]) by {
        forall j | 0 <= j <= 1
          ensures level + Nesting([c][..j]) >= 0
        {
          if j == 0 {
            assert [c][..j] == [];
          }
        }
      }
    }
  }

  /** Nothing left to scan: the depth is unchanged. */
  lemma CurlyAfterEmpty(level: nat, s: string)
    requires s == []
    ensures CurlyAfter(level, s) == Some(level)
  {
    assert s[..0] == [];
  }

  /**
   * The brace loop as the sources write it: one character at a time, a
   * closing brace at depth zero stops the scan.
   */
  function ScanDepth(level: nat, s: string): Option<nat>
    decreases |s|
  {
    if s == [] then Some(level)
    else if s[0] == '}' && level == 0 then None
    else ScanDepth(level + Delta(s[0]), s[1..])
  }

  /** The character-by-character scan computes exactly the depth the prefix definition gives. */
  lemma {:induction false} ScanDepthIsCurlyAfter(level: nat, s: string)
    ensures ScanDepth(level, s) == CurlyAfter(level, s)
    decreases |s|
  {
    if s == [] {
      CurlyAfterEmpty(level, s);
    } else {
      CurlyAfterCons(level, s);
      if !(s[0] == '}' && level == 0) {
        ScanDepthIsCurlyAfter(level + Delta(s[0]), s[1..]);
      }
    }
  }
}
