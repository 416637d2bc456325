/**
 * The string searches kiste2cpp.cpp relies on: its own `starts_with`
 * (kiste2cpp.cpp:13-25) and the standard `find_first_not_of(" \t", from)` /
 * `find_first_of(" \t", from)` used to locate tokens, with `npos` as None.
 */
module Scanning {
  import opened Wrappers

  /** `starts_with(text, start)`: compares the first |start| characters. */
  function StartsWith(text: string, start: string): (r: bool)
    ensures r <==> |start| <= |text| && text[..|start|] == start
  {
    if |start| > |text| then false
    else Matches(text, start, 0)
  }

  /** The loop of starts_with: positions i.. of `start` agree with `text`. */
  function Matches(text: string, start: string, i: nat): (r: bool)
    requires |start| <= |text| && i <= |start|
    ensures r <==> text[i..|start|] == start[i..]
    decreases |start| - i
  {
    if i == |start| then true
    else if start[i] != text[i] then false
    else
      var r := Matches(text, start, i + 1);
      assert text[i..|start|] == [text[i]] + text[i + 1..|start|];
      assert start[i..] == [start[i]] + start[i + 1..];
      r
  }

  /** The separator set " \t" of the directive parser. */
  predicate IsBlank(c: char)
  {
    c == ' ' || c == '\t'
  }

  predicate NoBlank(s: string)
  {
    forall i :: 0 <= i < |s| ==> !IsBlank(s[i])
  }

  predicate AllBlank(s: string)
  {
    forall i :: 0 <= i < |s| ==> IsBlank(s[i])
  }

  /** `s.find_first_not_of(" \t", from)`. */
  function FindFirstNotOf(s: string, from: nat): (r: Option<nat>)
    ensures r.Some? ==> from <= r.value < |s| && !IsBlank(s[r.value])
                        && forall j :: from <= j < r.value ==> IsBlank(s[j])
    ensures r.None? ==> forall j :: from <= j < |s| ==> IsBlank(s[j])
    decreases |s| - from
  {
    if from >= |s| then None
    else if !IsBlank(s[from]) then Some(from)
    else FindFirstNotOf(s, from + 1)
  }

  /** `s.find_first_of(" \t", from)`. */
  function FindFirstOf(s: string, from: nat): (r: Option<nat>)
    ensures r.Some? ==> from <= r.value < |s| && IsBlank(s[r.value])
                        && forall j :: from <= j < r.value ==> !IsBlank(s[j])
    ensures r.None? ==> forall j :: from <= j < |s| ==> !IsBlank(s[j])
    decreases |s| - from
  {
    if from >= |s| then None
    else if IsBlank(s[from]) then Some(from)
    else FindFirstOf(s, from + 1)
  }
}
