/**
 * The segment list of a line in the refactored compiler (src/line.cpp).
 * A text line is a list of segments: literal text, the `$|` marker and the
 * other commands. The list is kept normalised while it is built: there is
 * always a segment to append to, consecutive text is merged into one text
 * segment, and when the line is finished the `$|` marker is dropped and the
 * line break, if the context asks for one, is appended to the text.
 * `line_t` extends `line_data_t` in the source; here a `Line` holds its
 * `LineData`.
 */
module LineSegments {
  import ParseRule

  /** The kind of a segment; only text and the `$|` marker are singled out by line.cpp. */
  datatype SegmentType = Text | TrimTrailingReturn | OtherSegment(name: string)

  /** A segment: where it ends in the source line, its kind and its text (line.cpp:10). */
  datatype Segment = Segment(endPos: nat, kind: SegmentType, text: string)

  /** The segment `enforce_*` push: empty text. */
  const EmptyText := Segment(0, Text, "")

  function Last(segments: seq<Segment>): Segment
    requires segments != []
  {
    segments[|segments| - 1]
  }

  /** `enforce_at_least_one_segment` on the list: an empty list gets an empty text segment, any other is kept. */
  function AtLeastOne(segments: seq<Segment>): (r: seq<Segment>)
    ensures r != []
    ensures segments != [] ==> r == segments
    ensures segments == [] ==> r == [EmptyText]
  {
    if segments == [] then [EmptyText] else segments
  }

  /**
   * `enforce_trailing_text_segment` on the list: the result ends in a text
   * segment, and it is the old list followed by at most one empty text
   * segment.
   */
  function WithTrailingText(segments: seq<Segment>): (r: seq<Segment>)
    ensures r != [] && Last(r).kind.Text?
    ensures |segments| <= |r| <= |segments| + 1 && r[..|segments|] == segments
    ensures |r| == |segments| + 1 ==> Last(r) == EmptyText
    ensures segments != [] && Last(segments).kind.Text? ==> r == segments
  {
    var t := AtLeastOne(segments);
    if Last(t).kind.Text? then t else t + [EmptyText]
  }

  /**
   * `add_character` on the list: `c` is appended to the text of the last
   * segment when that is text, and otherwise starts a new text segment;
   * no other segment changes.
   */
  function WithCharacter(segments: seq<Segment>, c: char): (r: seq<Segment>)
    ensures segments != [] && Last(segments).kind.Text? ==>
              r == segments[..|segments| - 1] + [Last(segments).(text := Last(segments).text + [c])]
    ensures segments == [] || !Last(segments).kind.Text? ==> r == segments + [Segment(0, Text, [c])]
  {
    var t := WithTrailingText(segments);
    assert segments == [] || !Last(segments).kind.Text? ==> t[..|t| - 1] == segments && Last(t).text + [c] == [c];
    t[..|t| - 1] + [Last(t).(text := Last(t).text + [c])]
  }

  /** The characters of `text` added one by one, as the loop of `add_segment` does. */
  function WithText(segments: seq<Segment>, text: string): seq<Segment>
  {
    if text == [] then segments else WithCharacter(WithText(segments, text[..|text| - 1]), text[|text| - 1])
  }

  /** `add_segment` on the list: text is merged character by character, any other segment is appended whole. */
  function WithSegment(segments: seq<Segment>, segment: Segment): seq<Segment>
  {
    if segment.kind.Text? then WithText(segments, segment.text) else segments + [segment]
  }

  /**
   * Merging text: non-empty text ends up appended to the text of the
   * trailing text segment, which is created empty when missing; all
   * earlier segments are kept.
   */
  lemma {:induction false} MergedText(segments: seq<Segment>, text: string)
    requires text != []
    ensures var t := WithTrailingText(segments);
            WithText(segments, text) == t[..|t| - 1] + [Last(t).(text := Last(t).text + text)]
    decreases |text|
  {
    var t := WithTrailingText(segments);
    var init := text[..|text| - 1];
    var c := text[|text| - 1];
    assert text == init + [c];
    assert WithText(segments, text) == WithCharacter(WithText(segments, init), c);
    if init == [] {
      assert Last(t).text + [c] == Last(t).text + text;
    } else {
      MergedText(segments, init);
      MergeStep(t, init, c);
    }
  }

  /** One more character of merged text goes to the same trailing text segment. */
  lemma MergeStep(t: seq<Segment>, a: string, c: char)
    requires t != [] && Last(t).kind.Text?
    ensures WithCharacter(t[..|t| - 1] + [Last(t).(text := Last(t).text + a)], c)
         == t[..|t| - 1] + [Last(t).(text := Last(t).text + (a + [c]))]
  {
    var m := t[..|t| - 1] + [Last(t).(text := Last(t).text + a)];
    assert m[..|m| - 1] == t[..|t| - 1];
    assert (Last(t).text + a) + [c] == Last(t).text + (a + [c]);
  }

  /** No two text segments follow each other: merged text stays in one segment. */
  predicate NoAdjacentText(segments: seq<Segment>)
  {
    forall i :: 0 < i < |segments| ==> !(segments[i - 1].kind.Text? && segments[i].kind.Text?)
  }

  /** Only the kinds matter for NoAdjacentText, and changing the text of the last segment keeps them. */
  lemma LastTextChanged(segments: seq<Segment>, text: string)
    requires segments != [] && NoAdjacentText(segments)
    ensures NoAdjacentText(segments[..|segments| - 1] + [Last(segments).(text := text)])
  {
    var r := segments[..|segments| - 1] + [Last(segments).(text := text)];
    assert forall i :: 0 <= i < |r| ==> r[i].kind == segments[i].kind;
  }

  /** Adding a character never creates two adjacent text segments. */
  lemma WithCharacterKeepsShape(segments: seq<Segment>, c: char)
    requires NoAdjacentText(segments)
    ensures NoAdjacentText(WithCharacter(segments, c))
  {
    if segments != [] && Last(segments).kind.Text? {
      LastTextChanged(segments, Last(segments).text + [c]);
    } else {
      var r := segments + [Segment(0, Text, [c])];
      forall i | 0 < i < |r|
        ensures !(r[i - 1].kind.Text? && r[i].kind.Text?)
      {
        if i < |segments| {
          assert r[i - 1] == segments[i - 1] && r[i] == segments[i];
        }
      }
    }
  }

  /** Adding text never creates two adjacent text segments. */
  lemma {:induction false} WithTextKeepsShape(segments: seq<Segment>, text: string)
    requires NoAdjacentText(segments)
    ensures NoAdjacentText(WithText(segments, text))
    decreases |text|
  {
    if text != [] {
      WithTextKeepsShape(segments, text[..|text| - 1]);
      WithCharacterKeepsShape(WithText(segments, text[..|text| - 1]), text[|text| - 1]);
    }
  }

  /**
   * `add_segment` keeps the list free of adjacent text segments: text is
   * merged into the trailing text segment, and a non-text segment cannot
   * be a text neighbour.
   */
  lemma AddSegmentKeepsShape(segments: seq<Segment>, segment: Segment)
    requires NoAdjacentText(segments)
    ensures NoAdjacentText(WithSegment(segments, segment))
  {
    if segment.kind.Text? {
      WithTextKeepsShape(segments, segment.text);
    } else {
      var r := segments + [segment];
      forall i | 0 < i < |r|
        ensures !(r[i - 1].kind.Text? && r[i].kind.Text?)
      {
        if i < |segments| {
          assert r[i - 1] == segments[i - 1] && r[i] == segments[i];
        }
      }
    }
  }

  /** The segments of a finished line: the adjustment the `line_t` constructor makes to a text line. */
  function Finished(kind: ParseRule.LineType, segments: seq<Segment>, trailingReturn: bool): seq<Segment>
  {
    if kind != ParseRule.Text then segments
    else
      var t := AtLeastOne(segments);
      var u := if Last(t).kind.TrimTrailingReturn? then AtLeastOne(t[..|t| - 1]) else t;
      if trailingReturn then WithCharacter(u, '\n') else u
  }

  /**
   * What a finished text line looks like: never empty; a trailing `$|`
   * marker is dropped and nothing else changes; a pending line break is
   * then added to the last text segment, or as a new one, so that the line
   * ends in text whose last character is the line break. Other lines are
   * left as they are.
   */
  lemma FinishedShape(kind: ParseRule.LineType, segments: seq<Segment>, trailingReturn: bool)
    ensures var r := Finished(kind, segments, trailingReturn);
            && (kind != ParseRule.Text ==> r == segments)
            && (kind == ParseRule.Text ==> r != [])
            && (kind == ParseRule.Text && trailingReturn ==>
                  Last(r).kind.Text? && Last(r).text != [] && Last(r).text[|Last(r).text| - 1] == '\n')
            && (kind == ParseRule.Text && trailingReturn ==>
                  r == WithCharacter(Finished(kind, segments, false), '\n'))
            && (kind == ParseRule.Text && !trailingReturn && segments != [] && Last(segments).kind.TrimTrailingReturn? ==>
                  r == AtLeastOne(segments[..|segments| - 1]))
            && (kind == ParseRule.Text && !trailingReturn && segments != [] && !Last(segments).kind.TrimTrailingReturn? ==>
                  r == segments)
  {
  }

  /** A line under construction (`line_data_t`). */
  class LineData {
    var kind: ParseRule.LineType
    var segments: seq<Segment>

    constructor (kind: ParseRule.LineType, segments: seq<Segment>)
      ensures this.kind == kind && this.segments == segments
    {
      this.kind := kind;
      this.segments := segments;
    }

    /** `enforce_at_least_one_segment`. */
    method EnforceAtLeastOneSegment()
      modifies this
      ensures segments == AtLeastOne(old(segments)) && kind == old(kind)
    {
      if segments == [] {
        segments := segments + [EmptyText];
      }
    }

    /** `enforce_trailing_text_segment`. */
    method EnforceTrailingTextSegment()
      modifies this
      ensures segments == WithTrailingText(old(segments)) && kind == old(kind)
    {
      EnforceAtLeastOneSegment();
      if !segments[|segments| - 1].kind.Text? {
        segments := segments + [EmptyText];
      }
    }

    /** `add_character`. */
    method AddCharacter(c: char)
      modifies this
      ensures segments == WithCharacter(old(segments), c) && kind == old(kind)
    {
      EnforceTrailingTextSegment();
      var n := |segments|;
      segments := segments[..n - 1] + [segments[n - 1].(text := segments[n - 1].text + [c])];
    }

    /** `add_segment`: merges or appends, and answers where the segment ends. */
    method AddSegment(segment: Segment) returns (endPos: nat)
      modifies this
      ensures endPos == segment.endPos
      ensures segments == WithSegment(old(segments), segment) && kind == old(kind)
    {
      if segment.kind.Text? {
        for k := 0 to |segment.text|
          invariant segments == WithText(old(segments), segment.text[..k]) && kind == old(kind)
        {
          assert segment.text[..k + 1][..k] == segment.text[..k];
          AddCharacter(segment.text[k]);
        }
        assert segment.text[..|segment.text|] == segment.text;
      } else {
        segments := segments + [segment];
      }
      return segment.endPos;
    }
  }

  /** A finished line (`line_t`): its data and the brace depth at which it was read. */
  class Line {
    const data: LineData
    var curlyLevel: nat

    /** The `line_t` constructor: copies the data and finishes a text line as the context says. */
    constructor (ctx: ParseRule.Context, lineData: LineData)
      ensures fresh(data) && curlyLevel == ctx.curlyLevel && data.kind == lineData.kind
      ensures data.segments == Finished(lineData.kind, lineData.segments, ctx.hasTrailingReturn)
    {
      data := new LineData(lineData.kind, lineData.segments);
      curlyLevel := ctx.curlyLevel;
      new;
      if data.kind == ParseRule.Text {
        data.EnforceAtLeastOneSegment();
        if data.segments[|data.segments| - 1].kind.TrimTrailingReturn? {
          data.segments := data.segments[..|data.segments| - 1];
          data.EnforceAtLeastOneSegment();
        }
        if ctx.hasTrailingReturn {
          data.EnforceTrailingTextSegment();
          var n := |data.segments|;
          data.segments := data.segments[..n - 1] + [data.segments[n - 1].(text := data.segments[n - 1].text + ['\n'])];
        }
      }
    }

    /** `ends_with_text`: a text line whose last segment is text. */
    function EndsWithText(): (r: bool)
      reads this, data
      requires data.kind == ParseRule.Text ==> data.segments != []
      ensures r <==> data.kind == ParseRule.Text && Last(data.segments).kind.Text?
    {
      if data.kind != ParseRule.Text then false else data.segments[|data.segments| - 1].kind == Text
    }

    /** `starts_with_text`: a text line whose first segment is text. */
    function StartsWithText(): (r: bool)
      reads this, data
      requires data.kind == ParseRule.Text ==> data.segments != []
      ensures r <==> data.kind == ParseRule.Text && data.segments[0].kind.Text?
    {
      if data.kind != ParseRule.Text then false else data.segments[0].kind == Text
    }
  }
}
