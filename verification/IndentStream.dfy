/** The indenting output stream: src/common/format.cpp:34-80. */
module IndentStream {

  function Spaces(n: nat): (s: string)
    ensures |s| == n && forall k :: 0 <= k < n ==> s[k] == ' '
  {
    seq(n, _ => ' ')
  }

  /** What is written in front of a character. */
  function Lead(indent: nat, atStart: bool): string {
    if atStart then Spaces(indent) else []
  }

  /** The output for a text, character by character; `atStart` tells whether a line starts here. */
  function Indented(text: string, indent: nat, atStart: bool): string {
    if text == [] then []
    else Lead(indent, atStart) + [text[0]] + Indented(text[1..], indent, text[0] == '\n')
  }

  /** Whether a line starts after the text. */
  function EndsLine(text: string, atStart: bool): bool {
    if text == [] then atStart else EndsLine(text[1..], text[0] == '\n')
  }

  lemma {:induction false} EndsLineIsLast(text: string, atStart: bool)
    ensures EndsLine(text, atStart) == if text == [] then atStart else text[|text| - 1] == '\n'
  {
    if text != [] {
      EndsLineIsLast(text[1..], text[0] == '\n');
    }
  }

  /** Writing two messages one after the other is the same as writing their concatenation. */
  lemma {:induction false} ChunkingIsInvisible(a: string, b: string, indent: nat, atStart: bool)
    ensures Indented(a + b, indent, atStart) ==
            Indented(a, indent, atStart) + Indented(b, indent, EndsLine(a, atStart))
    ensures EndsLine(a + b, atStart) == EndsLine(b, EndsLine(a, atStart))
  {
    if a == [] {
      assert a + b == b;
    } else {
      var breaks := a[0] == '\n';
      assert (a + b)[0] == a[0] && (a + b)[1..] == a[1..] + b;
      ChunkingIsInvisible(a[1..], b, indent, breaks);
      Regroup(Lead(indent, atStart), [a[0]], Indented(a[1..], indent, breaks), Indented(b, indent, EndsLine(a, atStart)));
    }
  }

  lemma Regroup(x: string, y: string, z: string, w: string)
    ensures x + y + (z + w) == (x + y + z) + w
  {
  }

  /** A line break only at the end, if at all. */
  ghost predicate OneLine(piece: string) {
    piece != [] && forall k :: 0 <= k < |piece| - 1 ==> piece[k] != '\n'
  }

  lemma {:induction false} LineOutput(piece: string, indent: nat, atStart: bool)
    requires OneLine(piece)
    ensures Indented(piece, indent, atStart) == Lead(indent, atStart) + piece
  {
    if |piece| > 1 {
      LineOutput(piece[1..], indent, false);
    }
    assert piece == [piece[0]] + piece[1..];
  }

  // ----- the stream

  /** The first occurrence of c at or after `from`, or the length of the text. */
  function Find(text: string, c: char, from: nat): (k: nat)
    requires from <= |text|
    ensures from <= k <= |text| && (k < |text| ==> text[k] == c)
    ensures forall i :: from <= i < k ==> text[i] != c
    decreases |text| - from
  {
    if from == |text| || text[from] == c then from else Find(text, c, from + 1)
  }

  /** The output for the text before `cursor`, and the indent of the line that starts there. */
  function Started(text: string, cursor: nat, indent: nat, first: bool): string
    requires cursor <= |text|
  {
    Indented(text[..cursor], indent, first) + Lead(indent, cursor < |text| && EndsLine(text[..cursor], first))
  }

  /** One more line, and the indent of the line after it. */
  lemma LineStep(text: string, cursor: nat, next: nat, indent: nat, first: bool)
    requires cursor < next <= |text| && OneLine(text[cursor..next])
    requires next < |text| ==> text[next - 1] == '\n'
    ensures Started(text, next, indent, first) ==
            Started(text, cursor, indent, first) + text[cursor..next] + Lead(indent, next < |text|)
  {
    var done, piece := text[..cursor], text[cursor..next];
    var starts := EndsLine(done, first);
    var out, lead, after := Indented(done, indent, first), Lead(indent, starts), Lead(indent, next < |text|);
    assert Started(text, next, indent, first) == (out + (lead + piece)) + after by {
      assert text[..next] == done + piece;
      ChunkingIsInvisible(done, piece, indent, first);
      LineOutput(piece, indent, starts);
      EndsLineIsLast(text[..next], first);
    }
    Associate(out, lead, piece, after);
  }

  lemma Associate(b: string, c: string, d: string, e: string)
    ensures (b + (c + d)) + e == (b + c) + d + e
  {
  }

  lemma StartedEnds(text: string, indent: nat, first: bool)
    ensures Started(text, |text|, indent, first) == Indented(text, indent, first)
    ensures text != [] ==> Started(text, 0, indent, first) == Lead(indent, first)
  {
    assert text[..|text|] == text && text[..0] == [];
  }

  // ----- streams on top of streams

  /** The indent of a stream and whether a line starts next; innermost stream first. */
  datatype Level = Level(indent: nat, atStart: bool)

  /** What arrives at the bottom when a text is written to the first stream. */
  function Pass(levels: seq<Level>, text: string): string {
    if levels == [] then text else Pass(levels[1..], Indented(text, levels[0].indent, levels[0].atStart))
  }

  /** The streams after a text was written to the first one. */
  function After(levels: seq<Level>, text: string): (r: seq<Level>)
    ensures |r| == |levels|
  {
    if levels == [] then []
    else
      [levels[0].(atStart := EndsLine(text, levels[0].atStart))] +
      After(levels[1..], Indented(text, levels[0].indent, levels[0].atStart))
  }

  /** Chunking is invisible through any number of streams. */
  lemma {:induction false} PassingChunks(levels: seq<Level>, a: string, b: string)
    ensures Pass(levels, a + b) == Pass(levels, a) + Pass(After(levels, a), b)
    ensures After(levels, a + b) == After(After(levels, a), b)
  {
    if levels != [] {
      var l := levels[0];
      ChunkingIsInvisible(a, b, l.indent, l.atStart);
      PassingChunks(levels[1..], Indented(a, l.indent, l.atStart), Indented(b, l.indent, EndsLine(a, l.atStart)));
      assert After(levels, a)[1..] == After(levels[1..], Indented(a, l.indent, l.atStart));
    }
  }

  lemma {:induction false} PassingNothing(levels: seq<Level>)
    ensures Pass(levels, []) == [] && After(levels, []) == levels
  {
    if levels != [] {
      PassingNothing(levels[1..]);
    }
  }

  /** The stream at the bottom: everything written to it. */
  class TextStream {
    var text: string

    constructor ()
      ensures text == []
    {
      text := [];
    }
  }

  // ----- the stream

  class IndentStream {
    /** The base stream: another indenting stream, or else the text at the bottom. */
    const outer: IndentStream?
    const sink: TextStream
    const indent: nat
    var indentNext: bool

    /** The streams that a write to this one reaches. */
    ghost const Repr: set<object>
    ghost const depth: nat

    ghost predicate Valid()
      decreases depth
    {
      && this in Repr && sink in Repr
      && (outer == null ==> depth == 0)
      && (outer != null ==>
            && outer in Repr && outer.Repr <= Repr && this !in outer.Repr
            && outer.sink == sink && outer.depth + 1 == depth && outer.Valid())
    }

    ghost function OuterLevels(): seq<Level>
      requires Valid()
      reads Repr
      decreases depth, 0
    {
      if outer == null then [] else outer.Levels()
    }

    ghost function Levels(): seq<Level>
      requires Valid()
      reads Repr
      decreases depth, 1
    {
      [Level(indent, indentNext)] + OuterLevels()
    }

    constructor (outer: IndentStream?, sink: TextStream, indent: int, indentFirst: bool)
      requires outer != null ==> outer.Valid() && outer.sink == sink
      ensures Valid() && this.outer == outer && this.sink == sink
      ensures Levels() == [Level(if indent > 0 then indent else 0, indentFirst)] +
                          (if outer == null then [] else outer.Levels())
    {
      this.outer, this.sink := outer, sink;
      this.indent := if indent > 0 then indent else 0;
      indentNext := indentFirst;
      depth := if outer == null then 0 else outer.depth + 1;
      ghost var reached: set<object> := {sink};
      if outer != null {
        reached := {sink, outer as object} + outer.Repr;
      }
      Repr := {this} + reached;
    }

    /** The text `sent` went to the base stream, when `before` and `levels` were what it had. */
    ghost predicate Sent(before: string, levels: seq<Level>, sent: string)
      requires Valid()
      reads Repr
    {
      sink.text == before + Pass(levels, sent) && OuterLevels() == After(levels, sent)
    }

    method WriteBase(s: string, ghost before: string, ghost levels: seq<Level>, ghost sent: string)
      requires Valid() && Sent(before, levels, sent)
      modifies Repr - {this}
      ensures Sent(before, levels, sent + s)
      decreases depth, 0
    {
      PassingChunks(levels, sent, s);
      assert before + Pass(levels, sent) + Pass(After(levels, sent), s) == before + Pass(levels, sent + s);
      if outer == null {
        sink.text := sink.text + s;
      } else {
        outer.Write(s);
      }
    }

    /** Writes the line at the cursor, and the indent of the next one if there is one. */
    method WriteLine(message: string, cursor: nat, ghost before: string, ghost levels: seq<Level>, ghost first: bool)
      returns (next: nat)
      requires Valid() && cursor < |message| && Sent(before, levels, Started(message, cursor, indent, first))
      modifies Repr - {this}
      ensures cursor < next <= |message| && Sent(before, levels, Started(message, next, indent, first))
      decreases depth, 1
    {
      var lineEnd, size := Find(message, '\n', cursor), |message|;
      next := if lineEnd == size then size else lineEnd + 1;
      LineStep(message, cursor, next, indent, first);
      var line := message[cursor..next];
      ghost var sent := Started(message, cursor, indent, first);
      WriteBase(line, before, levels, sent);
      if lineEnd != size && lineEnd != size - 1 {
        WriteBase(Spaces(indent), before, levels, sent + line);
      } else {
        assert sent + line + [] == sent + line;
      }
    }

    method WriteLines(message: string, ghost before: string, ghost levels: seq<Level>, ghost first: bool)
      requires Valid() && message != [] && Sent(before, levels, Started(message, 0, indent, first))
      modifies Repr - {this}
      ensures Sent(before, levels, Indented(message, indent, first))
      decreases depth, 2
    {
      var cursor := 0;
      var size := |message|;
      while true
        invariant cursor < size
        invariant Sent(before, levels, Started(message, cursor, indent, first))
        decreases size - cursor
      {
        cursor := WriteLine(message, cursor, before, levels, first);
        if cursor == size {
          break;
        }
      }
      StartedEnds(message, indent, first);
    }

    method Write(message: string)
      requires Valid()
      modifies Repr
      ensures sink.text == old(sink.text) + Pass(old(Levels()), message)
      ensures Levels() == After(old(Levels()), message)
      decreases depth, 3
    {
      PassingNothing(Levels());
      if message == [] {
        return;
      }
      ghost var before, levels, first := sink.text, OuterLevels(), indentNext;
      assert Levels()[1..] == levels;
      PassingNothing(levels);
      StartedEnds(message, indent, first);
      EndsLineIsLast(message, first);
      if indentNext {
        indentNext := false;
        WriteBase(Spaces(indent), before, levels, []);
        assert [] + Spaces(indent) == Spaces(indent);
      }
      WriteLines(message, before, levels, first);
      indentNext := message[|message| - 1] == '\n';
    }
  }

  function Concat(messages: seq<string>): string {
    if messages == [] then [] else messages[0] + Concat(messages[1..])
  }

  /** The output and the final state after any number of messages are those of their concatenation. */
  method WriteMessages(stream: IndentStream, messages: seq<string>)
    requires stream.Valid()
    modifies stream.Repr
    ensures stream.sink.text == old(stream.sink.text) + Pass(old(stream.Levels()), Concat(messages))
    ensures stream.Levels() == After(old(stream.Levels()), Concat(messages))
    decreases |messages|
  {
    ghost var before, levels := stream.sink.text, stream.Levels();
    if messages == [] {
      PassingNothing(levels);
    } else {
      var message, rest := messages[0], messages[1..];
      PassingChunks(levels, message, Concat(rest));
      stream.Write(message);
      WriteMessages(stream, rest);
      assert before + Pass(levels, message) + Pass(After(levels, message), Concat(rest)) ==
             before + (Pass(levels, message) + Pass(After(levels, message), Concat(rest)));
    }
  }

  /** The lines of a text, each with its line break; only the last one may lack it. */
  function Lines(text: string): seq<string> {
    if text == [] then []
    else
      var n := Find(text, '\n', 0);
      var end := if n < |text| then n + 1 else n;
      [text[..end]] + Lines(text[end..])
  }

  function EachIndented(lines: seq<string>, indent: nat): string {
    if lines == [] then [] else Spaces(indent) + lines[0] + EachIndented(lines[1..], indent)
  }

  /** All lines but the first get an indent; the first one does if a line starts there. */
  function LinesIndented(lines: seq<string>, indent: nat, first: bool): string {
    if lines == [] then [] else Lead(indent, first) + lines[0] + EachIndented(lines[1..], indent)
  }

  /** Every line gets exactly one indent, in front, but for the first line of a stream that starts without one. */
  lemma {:induction false} EveryLineIsIndentedOnce(text: string, indent: nat, first: bool)
    ensures Concat(Lines(text)) == text
    ensures Indented(text, indent, first) == LinesIndented(Lines(text), indent, first)
    decreases |text|
  {
    if text != [] {
      var n := Find(text, '\n', 0);
      var end := if n < |text| then n + 1 else n;
      var line, rest := text[..end], text[end..];
      assert text == line + rest;
      ChunkingIsInvisible(line, rest, indent, first);
      LineOutput(line, indent, first);
      EndsLineIsLast(line, first);
      EveryLineIsIndentedOnce(rest, indent, true);
      assert Lines(text)[1..] == Lines(rest);
      assert LinesIndented(Lines(rest), indent, true) == EachIndented(Lines(rest), indent);
    }
  }

  lemma LeadOutput(inner: nat, outer: nat, atStart: bool, c: char)
    ensures Indented(Lead(inner, atStart) + [c], outer, atStart) == Lead(outer + inner, atStart) + [c]
    ensures EndsLine(Lead(inner, atStart) + [c], atStart) == (c == '\n')
  {
    var piece := Lead(inner, atStart) + [c];
    LineOutput(piece, outer, atStart);
    EndsLineIsLast(piece, atStart);
    assert Lead(outer, atStart) + Lead(inner, atStart) == Lead(outer + inner, atStart);
    assert Lead(outer, atStart) + piece == Lead(outer, atStart) + Lead(inner, atStart) + [c];
  }

  /** A stream on top of another one, started alike, is one stream with the sum of the indents. */
  lemma {:induction false} NestedStreamsAdd(text: string, outer: nat, inner: nat, atStart: bool)
    ensures Indented(Indented(text, inner, atStart), outer, atStart) == Indented(text, outer + inner, atStart)
    ensures EndsLine(Indented(text, inner, atStart), atStart) == EndsLine(text, atStart)
  {
    if text != [] {
      var breaks := text[0] == '\n';
      var head, rest := Lead(inner, atStart) + [text[0]], Indented(text[1..], inner, breaks);
      LeadOutput(inner, outer, atStart, text[0]);
      ChunkingIsInvisible(head, rest, outer, atStart);
      NestedStreamsAdd(text[1..], outer, inner, breaks);
    }
  }

  function Sum(levels: seq<Level>): nat {
    if levels == [] then 0 else levels[0].indent + Sum(levels[1..])
  }

  /** Any number of streams on top of each other, all started alike, are one stream with the sum of the indents. */
  lemma {:induction false} StackedStreamsAdd(levels: seq<Level>, text: string, atStart: bool)
    requires levels != [] && forall k :: 0 <= k < |levels| ==> levels[k].atStart == atStart
    ensures Pass(levels, text) == Indented(text, Sum(levels), atStart)
    ensures forall k :: 0 <= k < |levels| ==> After(levels, text)[k].atStart == EndsLine(text, atStart)
  {
    var rest, out := levels[1..], Indented(text, levels[0].indent, atStart);
    if rest == [] {
      assert Pass(rest, out) == out;
    } else {
      StackedStreamsAdd(rest, out, atStart);
      NestedStreamsAdd(text, Sum(rest), levels[0].indent, atStart);
      assert forall k :: 0 < k < |levels| ==> After(levels, text)[k] == After(rest, out)[k - 1];
    }
  }
}
