/**
 * The `$class NAME[ : PARENT]` and `$member TYPE NAME` directives of
 * kiste2cpp.cpp (parse_class, parse_parent_class, parse_member). The
 * functions here follow the source's searches for blanks; each is proved
 * equal to a reference that first splits the directive into words.
 */
module Directives {
  import opened Wrappers
  import opened Scanning
  import opened Diagnostics

  datatype ClassDecl = ClassDecl(name: string, parent: Option<string>)
  datatype MemberDecl = MemberDecl(className: string, name: string)

  // ---------------------------------------------------------------------
  // The source's token search (kiste2cpp.cpp:301-346)
  // ---------------------------------------------------------------------

  /** Where the word starting at `b` ends: the next blank, or the end of `s`. */
  function WordEnd(s: string, b: nat): (e: nat)
    ensures (b <= |s| ==> b <= e) && e <= |s|
  {
    match FindFirstOf(s, b)
    case None => |s|
    case Some(e) => e
  }

  /**
   * parse_parent_class, given the text that follows the class name: nothing
   * but blanks, or `:` and one more word.
   */
  function ParseParentClass(s: string): (r: Result<Option<string>, Message>)
    ensures r.Success? && r.value.Some? ==> r.value.value != [] && NoBlank(r.value.value)
  {
    match FindFirstNotOf(s, 0)
    case None => Success(None)
    case Some(colonPos) =>
      if s[colonPos] != ':' then Failure(UnexpectedAfterClassName)
      else
        match FindFirstNotOf(s, colonPos + 1)
        case None => Failure(MissingParentClassName)
        case Some(nameBegin) =>
          match FindFirstOf(s, nameBegin)
          case None => Success(Some(s[nameBegin..]))
          case Some(nameEnd) =>
            if FindFirstNotOf(s, nameEnd).Some? then Failure(TrailingAfterParentClassName)
            else Success(Some(s[nameBegin..nameEnd]))
  }

  /**
   * parse_class's syntax check, given the directive text starting with
   * `class`: the name is the first word after the five letters of `class`.
   */
  function ParseClassDecl(s: string): (r: Result<ClassDecl, Message>)
    ensures r.Success? ==> r.value.name != [] && NoBlank(r.value.name)
    ensures r.Success? && r.value.parent.Some? ==> r.value.parent.value != [] && NoBlank(r.value.parent.value)
  {
    match FindFirstNotOf(s, 5)
    case None => Failure(MissingClassName)
    case Some(nameBegin) =>
      match FindFirstOf(s, nameBegin)
      case None => Success(ClassDecl(s[nameBegin..], None))
      case Some(nameEnd) =>
        var parent :- ParseParentClass(s[nameEnd..]);
        Success(ClassDecl(s[nameBegin..nameEnd], parent))
  }

  /**
   * parse_member's syntax check, given the directive text starting with
   * `member`: exactly two words follow the six letters of `member`.
   */
  function ParseMemberDecl(s: string): (r: Result<MemberDecl, Message>)
    ensures r.Success? ==> r.value.className != [] && NoBlank(r.value.className)
    ensures r.Success? ==> r.value.name != [] && NoBlank(r.value.name)
  {
    match FindFirstNotOf(s, 6)
    case None => Failure(MissingMemberClassName)
    case Some(classBegin) =>
      match FindFirstOf(s, classBegin)
      case None => Failure(MissingMemberName)
      case Some(classEnd) =>
        match FindFirstNotOf(s, classEnd)
        case None => Failure(MissingMemberName)
        case Some(nameBegin) =>
          var nameEnd := FindFirstOf(s, nameBegin);
          if nameEnd.Some? && FindFirstNotOf(s, nameEnd.value).Some? then
            Failure(TrailingAfterMember)
          else
            Success(MemberDecl(s[classBegin..classEnd], s[nameBegin..WordEnd(s, nameBegin)]))
  }

  // ---------------------------------------------------------------------
  // Reference: the same syntax stated over the words of the directive
  // ---------------------------------------------------------------------

  /** The length of the word at the start of `s` (0 when `s` starts with a blank). */
  function WordLength(s: string): (n: nat)
    ensures n <= |s|
    ensures forall i :: 0 <= i < n ==> !IsBlank(s[i])
    ensures n < |s| ==> IsBlank(s[n])
  {
    if s == [] || IsBlank(s[0]) then 0 else 1 + WordLength(s[1..])
  }

  /** The maximal runs of non-blank characters of `s`, in order. */
  function Words(s: string): (ws: seq<string>)
    ensures forall i :: 0 <= i < |ws| ==> ws[i] != [] && NoBlank(ws[i])
    decreases |s|
  {
    if s == [] then []
    else if IsBlank(s[0]) then Words(s[1..])
    else
      var n := WordLength(s);
      [s[..n]] + Words(s[n..])
  }

  /** What may follow a class name, stated on the remaining words. */
  function ParentOfWords(ws: seq<string>): Result<Option<string>, Message>
  {
    if ws == [] then Success(None)
    else if ws[0] == [] || ws[0][0] != ':' then Failure(UnexpectedAfterClassName)
    else if ws[0] == ":" then
      if |ws| == 1 then Failure(MissingParentClassName)
      else if |ws| == 2 then Success(Some(ws[1]))
      else Failure(TrailingAfterParentClassName)
    else if |ws| == 1 then Success(Some(ws[0][1..]))
    else Failure(TrailingAfterParentClassName)
  }

  function ClassDeclOfWords(ws: seq<string>): Result<ClassDecl, Message>
  {
    if ws == [] then Failure(MissingClassName)
    else
      var parent :- ParentOfWords(ws[1..]);
      Success(ClassDecl(ws[0], parent))
  }

  function MemberDeclOfWords(ws: seq<string>): Result<MemberDecl, Message>
  {
    if ws == [] then Failure(MissingMemberClassName)
    else if |ws| == 1 then Failure(MissingMemberName)
    else if |ws| == 2 then Success(MemberDecl(ws[0], ws[1]))
    else Failure(TrailingAfterMember)
  }

  // ---------------------------------------------------------------------
  // The token search agrees with the words
  // ---------------------------------------------------------------------

  /** Leading blanks do not change the words. */
  lemma {:induction false} SkipBlanks(s: string, from: nat)
    requires from <= |s|
    ensures FindFirstNotOf(s, from).None? ==> Words(s[from..]) == []
    ensures FindFirstNotOf(s, from).Some? ==> Words(s[from..]) == Words(s[FindFirstNotOf(s, from).value..])
    decreases |s| - from
  {
    if from < |s| && IsBlank(s[from]) {
      assert s[from..][1..] == s[from + 1..];
      SkipBlanks(s, from + 1);
    }
  }

  /** A word ends at the next blank. */
  lemma FirstWord(s: string, b: nat)
    requires b < |s| && !IsBlank(s[b])
    ensures Words(s[b..]) == [s[b..WordEnd(s, b)]] + Words(s[WordEnd(s, b)..])
  {
    var t := s[b..];
    var e := WordEnd(s, b);
    var n := WordLength(t);
    assert forall i :: 0 <= i < e - b ==> t[i] == s[b + i] && !IsBlank(t[i]);
    assert e - b < |t| ==> IsBlank(t[e - b]);
    assert n == e - b;
    assert t[..n] == s[b..e];
    assert t[n..] == s[e..];
  }

  /** Something follows position `e` exactly when words remain there. */
  lemma RestWords(s: string, e: nat)
    requires e <= |s|
    ensures Words(s[e..]) == [] <==> FindFirstNotOf(s, e).None?
  {
    SkipBlanks(s, e);
    var f := FindFirstNotOf(s, e);
    if f.Some? {
      FirstWord(s, f.value);
    }
  }

  lemma ParentMatchesWords(s: string)
    ensures ParseParentClass(s) == ParentOfWords(Words(s))
  {
    assert s[0..] == s;
    SkipBlanks(s, 0);
    var c := FindFirstNotOf(s, 0);
    if c.Some? {
      var colonPos := c.value;
      FirstWord(s, colonPos);
      var e0 := WordEnd(s, colonPos);
      assert Words(s) == [s[colonPos..e0]] + Words(s[e0..]);
      if s[colonPos] == ':' {
        if colonPos + 1 < |s| && !IsBlank(s[colonPos + 1]) {
          ParentGlued(s, colonPos);
        } else {
          ParentSeparated(s, colonPos);
        }
      }
    }
  }

  /** `:PARENT`, the parent name glued to the colon. */
  lemma ParentGlued(s: string, colonPos: nat)
    requires FindFirstNotOf(s, 0) == Some(colonPos) && s[colonPos] == ':'
    requires colonPos + 1 < |s| && !IsBlank(s[colonPos + 1])
    requires Words(s) == [s[colonPos..WordEnd(s, colonPos)]] + Words(s[WordEnd(s, colonPos)..])
    ensures ParseParentClass(s) == ParentOfWords(Words(s))
  {
    var e0 := WordEnd(s, colonPos);
    var w0 := s[colonPos..e0];
    GluedParse(s, colonPos);
    RestWords(s, e0);
    assert w0 != ":" by { assert |w0| >= 2; }
    assert w0[0] == ':' && w0[1..] == s[colonPos + 1..e0];
  }

  /** What parse_parent_class makes of `:PARENT`. */
  lemma GluedParse(s: string, colonPos: nat)
    requires FindFirstNotOf(s, 0) == Some(colonPos) && s[colonPos] == ':'
    requires colonPos + 1 < |s| && !IsBlank(s[colonPos + 1])
    ensures ParseParentClass(s)
         == if FindFirstNotOf(s, WordEnd(s, colonPos)).Some? then Failure(TrailingAfterParentClassName)
            else Success(Some(s[colonPos + 1..WordEnd(s, colonPos)]))
  {
    assert FindFirstNotOf(s, colonPos + 1) == Some(colonPos + 1);
    assert FindFirstOf(s, colonPos + 1) == FindFirstOf(s, colonPos);
    if FindFirstOf(s, colonPos).None? {
      assert s[colonPos + 1..] == s[colonPos + 1..|s|];
    }
  }

  /** `: PARENT`, a lone colon word followed by the parent name. */
  lemma ParentSeparated(s: string, colonPos: nat)
    requires FindFirstNotOf(s, 0) == Some(colonPos) && s[colonPos] == ':'
    requires colonPos + 1 == |s| || IsBlank(s[colonPos + 1])
    requires Words(s) == [s[colonPos..WordEnd(s, colonPos)]] + Words(s[WordEnd(s, colonPos)..])
    ensures ParseParentClass(s) == ParentOfWords(Words(s))
  {
    LoneColon(s, colonPos);
    SkipBlanks(s, colonPos + 1);
    var nb := FindFirstNotOf(s, colonPos + 1);
    if nb.Some? {
      ParentAfterColon(s, colonPos, nb.value);
    } else {
      ParentMissing(s, colonPos);
    }
  }

  lemma LoneColon(s: string, colonPos: nat)
    requires colonPos < |s| && s[colonPos] == ':'
    requires colonPos + 1 == |s| || IsBlank(s[colonPos + 1])
    requires Words(s) == [s[colonPos..WordEnd(s, colonPos)]] + Words(s[WordEnd(s, colonPos)..])
    ensures Words(s) == [":"] + Words(s[colonPos + 1..])
  {
    assert WordEnd(s, colonPos) == colonPos + 1;
    assert s[colonPos..colonPos + 1] == ":";
  }

  /** `:` and nothing after it. */
  lemma ParentMissing(s: string, colonPos: nat)
    requires FindFirstNotOf(s, 0) == Some(colonPos) && s[colonPos] == ':'
    requires FindFirstNotOf(s, colonPos + 1).None?
    requires Words(s) == [":"] + Words(s[colonPos + 1..]) && Words(s[colonPos + 1..]) == []
    ensures ParseParentClass(s) == ParentOfWords(Words(s))
  {
    assert Words(s) == [":"];
  }

  lemma ParentAfterColon(s: string, colonPos: nat, nameBegin: nat)
    requires FindFirstNotOf(s, 0) == Some(colonPos) && s[colonPos] == ':'
    requires FindFirstNotOf(s, colonPos + 1) == Some(nameBegin)
    requires Words(s) == [":"] + Words(s[nameBegin..])
    ensures ParseParentClass(s) == ParentOfWords(Words(s))
  {
    var ne := WordEnd(s, nameBegin);
    if FindFirstOf(s, nameBegin).None? {
      ParentNameLast(s, colonPos, nameBegin);
    } else if FindFirstNotOf(s, ne).Some? {
      ParentNameTrailing(s, colonPos, nameBegin);
    } else {
      ParentNameBlanksAfter(s, colonPos, nameBegin);
    }
  }

  /** The parent name runs to the end of the declaration. */
  lemma ParentNameLast(s: string, colonPos: nat, nameBegin: nat)
    requires FindFirstNotOf(s, 0) == Some(colonPos) && s[colonPos] == ':'
    requires FindFirstNotOf(s, colonPos + 1) == Some(nameBegin)
    requires FindFirstOf(s, nameBegin).None?
    requires Words(s) == [":"] + Words(s[nameBegin..])
    ensures ParseParentClass(s) == ParentOfWords(Words(s))
  {
    OneWord(s, nameBegin);
    assert s[nameBegin..] == s[nameBegin..WordEnd(s, nameBegin)];
  }

  /** Something non-blank follows the parent name. */
  lemma ParentNameTrailing(s: string, colonPos: nat, nameBegin: nat)
    requires FindFirstNotOf(s, 0) == Some(colonPos) && s[colonPos] == ':'
    requires FindFirstNotOf(s, colonPos + 1) == Some(nameBegin)
    requires FindFirstOf(s, nameBegin).Some?
    requires FindFirstNotOf(s, WordEnd(s, nameBegin)).Some?
    requires Words(s) == [":"] + Words(s[nameBegin..])
    ensures ParseParentClass(s) == ParentOfWords(Words(s))
  {
    MoreWords(s, nameBegin);
    assert ParseParentClass(s) == Failure(TrailingAfterParentClassName);
  }

  /** A word at `b` and something non-blank after it: at least two words from `b` on. */
  lemma MoreWords(s: string, b: nat)
    requires b < |s| && !IsBlank(s[b])
    requires FindFirstNotOf(s, WordEnd(s, b)).Some?
    ensures |Words(s[b..])| >= 2
  {
    FirstWord(s, b);
    RestWords(s, WordEnd(s, b));
  }

  /** Only blanks follow the parent name. */
  lemma ParentNameBlanksAfter(s: string, colonPos: nat, nameBegin: nat)
    requires FindFirstNotOf(s, 0) == Some(colonPos) && s[colonPos] == ':'
    requires FindFirstNotOf(s, colonPos + 1) == Some(nameBegin)
    requires FindFirstOf(s, nameBegin).Some?
    requires FindFirstNotOf(s, WordEnd(s, nameBegin)).None?
    requires Words(s) == [":"] + Words(s[nameBegin..])
    ensures ParseParentClass(s) == ParentOfWords(Words(s))
  {
    var name := s[nameBegin..WordEnd(s, nameBegin)];
    OneWord(s, nameBegin);
    assert Words(s) == [":", name];
    assert ParseParentClass(s) == Success(Some(name));
  }

  /** A word at `b` and only blanks after it: exactly one word from `b` on. */
  lemma OneWord(s: string, b: nat)
    requires b < |s| && !IsBlank(s[b])
    requires FindFirstNotOf(s, WordEnd(s, b)).None?
    ensures Words(s[b..]) == [s[b..WordEnd(s, b)]]
  {
    FirstWord(s, b);
    RestWords(s, WordEnd(s, b));
  }

  /** parse_class accepts and rejects exactly what the word reference does. */
  lemma ClassDeclMatchesWords(s: string)
    requires |s| >= 5
    ensures ParseClassDecl(s) == ClassDeclOfWords(Words(s[5..]))
  {
    SkipBlanks(s, 5);
    var nb := FindFirstNotOf(s, 5);
    if nb.Some? {
      FirstWord(s, nb.value);
      var e := WordEnd(s, nb.value);
      var ws := Words(s[5..]);
      assert ws == [s[nb.value..e]] + Words(s[e..]);
      assert ws[1..] == Words(s[e..]);
      ParentMatchesWords(s[e..]);
      if FindFirstOf(s, nb.value).None? {
        assert s[e..] == [];
        assert Words(s[e..]) == [];
        assert s[nb.value..e] == s[nb.value..];
        assert ParseClassDecl(s) == Success(ClassDecl(s[nb.value..], None));
        assert ws == [s[nb.value..]];
      } else {
        assert ParseClassDecl(s) == (match ParseParentClass(s[e..])
          case Failure(m) => Failure(m)
          case Success(p) => Success(ClassDecl(s[nb.value..e], p)));
      }
    }
  }

  /** parse_member accepts and rejects exactly what the word reference does. */
  lemma MemberDeclMatchesWords(s: string)
    requires |s| >= 6
    ensures ParseMemberDecl(s) == MemberDeclOfWords(Words(s[6..]))
  {
    SkipBlanks(s, 6);
    var cb := FindFirstNotOf(s, 6);
    if cb.Some? {
      FirstWord(s, cb.value);
      var ce := WordEnd(s, cb.value);
      SkipBlanks(s, ce);
      var nb := FindFirstNotOf(s, ce);
      if nb.Some? {
        FirstWord(s, nb.value);
        RestWords(s, WordEnd(s, nb.value));
      }
    }
  }

  // ---------------------------------------------------------------------
  // Round trips: a directive written in the documented form is read back
  // ---------------------------------------------------------------------

  lemma WordLengthOfJoin(w: string, rest: string)
    requires NoBlank(w) && (rest == [] || IsBlank(rest[0]))
    ensures WordLength(w + rest) == |w|
  {
    var n := WordLength(w + rest);
    assert forall i :: 0 <= i < |w| ==> (w + rest)[i] == w[i];
    assert |w| < |w + rest| ==> (w + rest)[|w|] == rest[0];
  }

  lemma WordsOfJoin(w: string, rest: string)
    requires w != [] && NoBlank(w) && (rest == [] || IsBlank(rest[0]))
    ensures Words(" " + w + rest) == [w] + Words(rest)
  {
    var s := " " + w + rest;
    assert s[1..] == w + rest;
    WordLengthOfJoin(w, rest);
    assert (w + rest)[..|w|] == w && (w + rest)[|w|..] == rest;
  }

  lemma ClassDeclRoundTrip(name: string, parent: string)
    requires name != [] && NoBlank(name) && parent != [] && NoBlank(parent)
    ensures ParseClassDecl("class " + name) == Success(ClassDecl(name, None))
    ensures ParseClassDecl("class " + name + " : " + parent) == Success(ClassDecl(name, Some(parent)))
  {
    ClassWithoutParent(name);
    ClassWithParent(name, parent);
  }

  lemma ClassWithoutParent(name: string)
    requires name != [] && NoBlank(name)
    ensures ParseClassDecl("class " + name) == Success(ClassDecl(name, None))
  {
    var plain := "class " + name;
    assert plain[5..] == " " + name + [];
    WordsOfJoin(name, []);
    ClassDeclMatchesWords(plain);
  }

  lemma ClassWithParent(name: string, parent: string)
    requires name != [] && NoBlank(name) && parent != [] && NoBlank(parent)
    ensures ParseClassDecl("class " + name + " : " + parent) == Success(ClassDecl(name, Some(parent)))
  {
    var full := "class " + name + " : " + parent;
    assert full[5..] == " " + name + (" :" + " " + parent);
    WordsOfJoin(parent, []);
    assert " " + parent == " " + parent + [];
    WordsOfJoin(":", " " + parent);
    WordsOfJoin(name, " :" + " " + parent);
    assert " :" + " " + parent == " " + ":" + (" " + parent);
    ClassDeclMatchesWords(full);
  }

  lemma MemberDeclRoundTrip(className: string, name: string)
    requires className != [] && NoBlank(className) && name != [] && NoBlank(name)
    ensures ParseMemberDecl("member " + className + " " + name) == Success(MemberDecl(className, name))
  {
    var s := "member " + className + " " + name;
    assert s[6..] == " " + className + (" " + name);
    WordsOfJoin(name, []);
    assert " " + name == " " + name + [];
    WordsOfJoin(className, " " + name);
    MemberDeclMatchesWords(s);
  }
}
