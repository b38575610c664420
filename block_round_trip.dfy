/**
 * The format the prompt asks the model to answer in, and the parser reading
 * it back: a single well-formed block yields exactly one note holding the
 * block's three fields, trimmed (js/services/gptService.js:97, 103-105).
 */
module BlockRoundTrip {
  import opened Wrappers
  import opened JsText
  import opened Notes
  import opened ResponseParser

  /** One sticky note as the model is asked to write it; `number` is the text after `Sticky Note `. */
  datatype Block = Block(number: string, source: string, content: string, insight: string)

  /** A field fits on its line: it is not empty and holds no line break. */
  predicate OneLine(f: string)
  {
    f != [] && forall k :: 0 <= k < |f| ==> f[k] != '\n'
  }

  /** The number is one or more decimal digits, and each field fits on its line. */
  predicate WellFormed(b: Block)
  {
    b.number != [] && AllDigits(b.number) && OneLine(b.source) && OneLine(b.content) && OneLine(b.insight)
  }

  /** The first line, `Sticky Note n:`, and the label of the second. */
  function Header(number: string): (header: string)
    ensures |header| == |NoteLabel| + |number| + 2 + |SourceLabel|
  {
    NoteLabel + number + ":\n" + SourceLabel
  }

  /** A field, the line break after it and the label that opens the next line. */
  function LabelledLine(field: string, nextLabel: string): string
  {
    field + "\n" + nextLabel
  }

  /** `Sticky Note n:`, then the three labelled fields, one per line. */
  function RenderBlock(b: Block): (text: string)
    ensures |text| == InsightStart(b) + |b.insight|
    ensures text[..|NoteLabel|] == NoteLabel && text[InsightStart(b)..] == b.insight
  {
    Header(b.number) + LabelledLine(b.source, ContentLabel) + LabelledLine(b.content, InsightLabel) + b.insight
  }

  // Where the parts of a rendered block lie.
  function DigitsEnd(b: Block): nat { |NoteLabel| + |b.number| }
  function SourceStart(b: Block): nat { |Header(b.number)| }
  function SourceEnd(b: Block): nat { SourceStart(b) + |b.source| }
  function ContentStart(b: Block): nat { SourceEnd(b) + 1 + |ContentLabel| }
  function ContentEnd(b: Block): nat { ContentStart(b) + |b.content| }
  function InsightStart(b: Block): nat { ContentEnd(b) + 1 + |InsightLabel| }

  /** A line that runs from `lo` to a line break at `hi`, or to the end. */
  lemma LineEnd(s: string, lo: nat, hi: nat)
    requires lo <= hi <= |s|
    requires forall k :: lo <= k < hi ==> s[k] != '\n'
    requires hi == |s| || s[hi] == '\n'
    ensures RunEnd(s, lo, NotNewline) == hi
  {
    RunEndIs(s, lo, hi, NotNewline);
  }

  /** A line break followed by a label: `\s*` takes exactly the line break, and the label follows. */
  lemma BreakBeforeLabel(s: string, p: nat, lit: string)
    requires p + 1 + |lit| <= |s| && s[p] == '\n' && lit != [] && 'A' <= lit[0] <= 'Z'
    requires forall k :: 0 <= k < |lit| ==> s[p + 1 + k] == lit[k]
    ensures RunEnd(s, p, IsWhiteSpace) == p + 1
    ensures HasAt(s, p + 1, lit)
  {
    assert s[p + 1 + 0] == lit[0];
    RunEndIs(s, p, p + 1, IsWhiteSpace);
  }

  /** `Sticky Note \d+:\s*SOURCE: ` at the start of `s`, with the digits ending at `d`. */
  lemma HeaderAt(s: string, d: nat)
    requires HasAt(s, 0, NoteLabel) && |NoteLabel| < d && d + 2 + |SourceLabel| <= |s|
    requires forall k :: |NoteLabel| <= k < d ==> IsDigit(s[k])
    requires s[d] == ':' && s[d + 1] == '\n'
    requires forall k :: 0 <= k < |SourceLabel| ==> s[d + 2 + k] == SourceLabel[k]
    ensures HeaderEnd(s, 0) == Some(d + 2 + |SourceLabel|)
  {
    RunEndIs(s, |NoteLabel|, d, IsDigit);
    assert HasAt(s, d, ":") by {
      assert s[d + 0] == ":"[0];
    }
    BreakBeforeLabel(s, d + 1, SourceLabel);
  }

  /** The characters of a field's line and of the label after it. */
  lemma LabelledLineChars(field: string, nextLabel: string)
    ensures var line := LabelledLine(field, nextLabel);
      && |line| == |field| + 1 + |nextLabel|
      && (forall k :: 0 <= k < |field| ==> line[k] == field[k])
      && line[|field|] == '\n'
      && (forall k :: 0 <= k < |nextLabel| ==> line[|field| + 1 + k] == nextLabel[k])
  {
    var line := LabelledLine(field, nextLabel);
    forall k | 0 <= k < |field| ensures line[k] == field[k] {
      assert line[k] == (field + "\n")[k];
    }
    assert line[|field|] == (field + "\n")[|field|];
  }

  /** `s` holds the parts of block `b`, each at its place. */
  predicate LaidOut(s: string, b: Block)
  {
    && |s| == InsightStart(b) + |b.insight|
    && (forall k :: 0 <= k < |Header(b.number)| ==> s[k] == Header(b.number)[k])
    && (forall k :: 0 <= k < |LabelledLine(b.source, ContentLabel)| ==>
          s[SourceStart(b) + k] == LabelledLine(b.source, ContentLabel)[k])
    && (forall k :: 0 <= k < |LabelledLine(b.content, InsightLabel)| ==>
          s[ContentStart(b) + k] == LabelledLine(b.content, InsightLabel)[k])
    && (forall k :: 0 <= k < |b.insight| ==> s[InsightStart(b) + k] == b.insight[k])
  }

  /** Where the characters of `w + x + y + z` come from. */
  lemma FourParts(w: string, x: string, y: string, z: string)
    ensures var s := w + x + y + z;
      && |s| == |w| + |x| + |y| + |z|
      && (forall k :: 0 <= k < |w| ==> s[k] == w[k])
      && (forall k :: 0 <= k < |x| ==> s[|w| + k] == x[k])
      && (forall k :: 0 <= k < |y| ==> s[|w| + |x| + k] == y[k])
      && (forall k :: 0 <= k < |z| ==> s[|w| + |x| + |y| + k] == z[k])
  {
    var p1 := w + x;
    var p2 := p1 + y;
    var s := p2 + z;
    forall k | 0 <= k < |w| ensures s[k] == w[k] {
      assert s[k] == p2[k] == p1[k];
    }
    forall k | 0 <= k < |x| ensures s[|w| + k] == x[k] {
      assert s[|w| + k] == p2[|w| + k] == p1[|w| + k];
    }
    forall k | 0 <= k < |y| ensures s[|p1| + k] == y[k] {
      assert s[|p1| + k] == p2[|p1| + k];
    }
  }

  /** A rendered block holds its parts at their places. */
  lemma BlockChars(b: Block)
    ensures LaidOut(RenderBlock(b), b)
  {
    FourParts(Header(b.number), LabelledLine(b.source, ContentLabel), LabelledLine(b.content, InsightLabel), b.insight);
  }

  /** The characters of the first line and the next label. */
  lemma HeaderChars(number: string)
    requires AllDigits(number)
    ensures var header := Header(number);
      var d := |NoteLabel| + |number|;
      && (forall k :: 0 <= k < |NoteLabel| ==> header[k] == NoteLabel[k])
      && (forall k :: |NoteLabel| <= k < d ==> IsDigit(header[k]))
      && header[d] == ':' && header[d + 1] == '\n'
      && (forall k :: 0 <= k < |SourceLabel| ==> header[d + 2 + k] == SourceLabel[k])
  {
    var q1 := NoteLabel + number;
    var q2 := q1 + ":\n";
    forall k | 0 <= k < |NoteLabel| ensures Header(number)[k] == NoteLabel[k] {
      assert Header(number)[k] == q2[k] == q1[k];
    }
    forall k | |NoteLabel| <= k < |q1| ensures IsDigit(Header(number)[k]) {
      assert Header(number)[k] == q2[k] == q1[k] == number[k - |NoteLabel|];
    }
  }

  /** `Sticky Note \d+:\s*SOURCE: ` matches the first line of a block and the next label. */
  lemma HeaderOfBlock(text: string, b: Block)
    requires WellFormed(b) && LaidOut(text, b)
    ensures HeaderEnd(text, 0) == Some(SourceStart(b))
  {
    var header := Header(b.number);
    var d := DigitsEnd(b);
    HeaderChars(b.number);
    forall k | 0 <= k < |NoteLabel| ensures text[0 + k] == NoteLabel[k] {
      assert text[k] == header[k];
    }
    forall k | |NoteLabel| <= k < d ensures IsDigit(text[k]) {
      assert text[k] == header[k];
    }
    assert text[d] == header[d] && text[d + 1] == header[d + 1];
    forall k | 0 <= k < |SourceLabel| ensures text[d + 2 + k] == SourceLabel[k] {
      assert text[d + 2 + k] == header[d + 2 + k];
    }
    HeaderAt(text, d);
  }

  /**
   * `([^\n]+)\s*` followed by `lit`: the group runs from `c` to the line
   * break at `e`, the blank run is that one line break, and the label follows.
   */
  predicate LineBeforeLabel(s: string, c: nat, e: nat, lit: string)
  {
    && c < e < |s|
    && RunEnd(s, c, NotNewline) == e
    && RunEnd(s, e, IsWhiteSpace) == e + 1
    && HasAt(s, e + 1, lit)
  }

  /** `([^\n]+)` from `c` takes the rest of `s`. */
  predicate LastLine(s: string, c: nat)
  {
    c < |s| && RunEnd(s, c, NotNewline) == |s|
  }

  /**
   * A one-line field at `c` followed by a line break and a label: `([^\n]+)`
   * takes the field, `\s*` the line break, and the label follows.
   */
  lemma FieldLineAt(s: string, c: nat, field: string, nextLabel: string)
    requires OneLine(field) && nextLabel != [] && 'A' <= nextLabel[0] <= 'Z'
    requires c + |LabelledLine(field, nextLabel)| <= |s|
    requires forall k :: 0 <= k < |LabelledLine(field, nextLabel)| ==> s[c + k] == LabelledLine(field, nextLabel)[k]
    ensures LineBeforeLabel(s, c, c + |field|, nextLabel)
    ensures s[c..c + |field|] == field
  {
    var line := LabelledLine(field, nextLabel);
    var e := c + |field|;
    LabelledLineChars(field, nextLabel);
    forall k | c <= k < e ensures s[k] == field[k - c] {
      assert s[c + (k - c)] == line[k - c];
    }
    assert s[e] == line[|field|];
    forall k | 0 <= k < |nextLabel| ensures s[e + 1 + k] == nextLabel[k] {
      assert s[c + (|field| + 1 + k)] == line[|field| + 1 + k];
    }
    assert s[c..e] == field;
    LineEnd(s, c, e);
    BreakBeforeLabel(s, e, nextLabel);
  }

  /** The source field is the rest of its line, and the content label follows on the next. */
  lemma SourceOfBlock(text: string, b: Block)
    requires WellFormed(b) && LaidOut(text, b)
    ensures
      && LineBeforeLabel(text, SourceStart(b), SourceEnd(b), ContentLabel)
      && text[SourceStart(b)..SourceEnd(b)] == b.source
  {
    FieldLineAt(text, SourceStart(b), b.source, ContentLabel);
  }

  /** The content field is the rest of its line, and the insight label follows on the next. */
  lemma ContentOfBlock(text: string, b: Block)
    requires WellFormed(b) && LaidOut(text, b)
    ensures
      && LineBeforeLabel(text, ContentStart(b), ContentEnd(b), InsightLabel)
      && text[ContentStart(b)..ContentEnd(b)] == b.content
  {
    FieldLineAt(text, ContentStart(b), b.content, InsightLabel);
  }

  /** A one-line field at `c` that runs to the end of `s`: `([^\n]+)` takes all of it. */
  lemma LastLineAt(s: string, c: nat, field: string)
    requires OneLine(field) && |s| == c + |field|
    requires forall k :: 0 <= k < |field| ==> s[c + k] == field[k]
    ensures LastLine(s, c)
    ensures s[c..] == field
  {
    forall k | c <= k < |s| ensures s[k] == field[k - c] {
      assert s[c + (k - c)] == field[k - c];
    }
    assert s[c..] == field;
    LineEnd(s, c, |s|);
  }

  /** The insight field is the last line and runs to the end. */
  lemma InsightOfBlock(text: string, b: Block)
    requires WellFormed(b) && LaidOut(text, b)
    ensures
      && LastLine(text, InsightStart(b))
      && text[InsightStart(b)..] == b.insight
  {
    LastLineAt(text, InsightStart(b), b.insight);
  }

  /** `\s*INSIGHT: ([^\n]+)` matches right after the content group, with no backtracking. */
  lemma InsightStep(s: string, c2: nat, e2: nat, c3: nat)
    requires LineBeforeLabel(s, c2, e2, InsightLabel) && c3 == e2 + 1 + |InsightLabel| && LastLine(s, c3)
    ensures InsightFrom(s, c2, e2) == Some((e2, c3, |s|))
  {
  }

  /** `\s*CONTENT: ` and the rest match right after the source group, with no backtracking. */
  lemma ContentStep(s: string, c1: nat, e1: nat, c2: nat, e2: nat, c3: nat)
    requires LineBeforeLabel(s, c1, e1, ContentLabel) && c2 == e1 + 1 + |ContentLabel|
    requires LineBeforeLabel(s, c2, e2, InsightLabel)
    requires InsightFrom(s, c2, e2) == Some((e2, c3, |s|))
    ensures ContentFrom(s, c1, e1) == Some(Groups(e1, c2, e2, c3, |s|))
  {
  }

  /**
   * The whole expression at the start of `s`, once the header has matched
   * up to `c1`: each group is the rest of its line, and the next label
   * follows the line break.
   */
  lemma MatchOfLines(s: string, c1: nat, e1: nat, c2: nat, e2: nat, c3: nat)
    requires HeaderEnd(s, 0) == Some(c1)
    requires LineBeforeLabel(s, c1, e1, ContentLabel) && c2 == e1 + 1 + |ContentLabel|
    requires LineBeforeLabel(s, c2, e2, InsightLabel) && c3 == e2 + 1 + |InsightLabel|
    requires LastLine(s, c3)
    ensures MatchAt(s, 0) == Some(RegexMatch(0, |s|, Span(c1, e1), Span(c2, e2), Span(c3, |s|)))
  {
    InsightStep(s, c2, e2, c3);
    ContentStep(s, c1, e1, c2, e2, c3);
  }

  /**
   * The expression matches a laid-out block from its first character to its
   * last, and the three groups capture the three fields exactly.
   */
  lemma BlockMatch(text: string, b: Block)
    requires WellFormed(b) && LaidOut(text, b)
    ensures var r := MatchAt(text, 0);
      && r.Some? && r.value.end == |text|
      && Capture(text, r.value.source) == b.source
      && Capture(text, r.value.content) == b.content
      && Capture(text, r.value.insight) == b.insight
  {
    HeaderOfBlock(text, b);
    SourceOfBlock(text, b);
    ContentOfBlock(text, b);
    InsightOfBlock(text, b);
    MatchOfLines(text, SourceStart(b), SourceEnd(b), ContentStart(b), ContentEnd(b), InsightStart(b));
  }

  /**
   * Parsing a rendered block gives exactly one note, whose fields are the
   * block's fields trimmed, under the given document name.
   */
  lemma ParseBlockRoundTrip(b: Block, documentName: string, stamps: nat -> Stamp)
    requires WellFormed(b)
    ensures var notes := ParsedNotes(RenderBlock(b), documentName, stamps);
      && |notes| == 1
      && notes[0].source == Trim(b.source)
      && notes[0].content == Trim(b.content)
      && notes[0].insight == Trim(b.insight)
      && notes[0].documentName == documentName
  {
    var text := RenderBlock(b);
    var a := Attempts(text);
    BlockChars(b);
    BlockMatch(text, b);
    AttemptIsMatchAt(text);
    var m := MatchAt(text, 0).value;
    assert a[|text|] == None;
    assert Matches(a, |text|) == [];
    assert Matches(a, 0) == [m];
    ParsedNotesFields(text, documentName, stamps, 0);
  }
}
