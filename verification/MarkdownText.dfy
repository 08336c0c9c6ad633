/** What the pages say: the text that blocks() and parse_list() of
    scripts/render-adrs.py write is the text of the lines they read. */
module MarkdownText {
  import opened MarkdownLines
  import opened MarkdownParse
  import opened MarkdownRender

  // ---------------------------------------------------------------- lines of a text

  /** A text split at its newlines. */
  function Pieces(s: string): (r: seq<string>)
    ensures r != []
  {
    if s == [] then [""]
    else
      var r := Pieces(s[1..]);
      if s[0] == '\n' then [""] + r else [[s[0]] + r[0]] + r[1..]
  }

  predicate OneLine(s: string) {
    '\n' !in s
  }

  predicate OneLines(lines: seq<string>) {
    forall k :: 0 <= k < |lines| ==> OneLine(lines[k])
  }

  lemma {:induction false} PiecesAfter(a: string, b: string)
    requires OneLine(a)
    ensures Pieces(a) == [a]
    ensures Pieces(a + "\n" + b) == [a] + Pieces(b)
  {
    var ab := a + "\n" + b;
    if a == [] {
      assert ab[0] == '\n' && ab[1..] == b;
    } else {
      PiecesAfter(a[1..], b);
      assert ab[0] == a[0] && ab[1..] == a[1..] + "\n" + b;
      assert [a[0]] + a[1..] == a;
    }
  }

  lemma {:induction false} JoinedPieces(lines: seq<string>)
    requires lines != [] && OneLines(lines)
    ensures Pieces(JoinNl(lines)) == lines
  {
    PiecesAfter(lines[0], JoinNl(lines[1..]));
    if |lines| == 1 {
    } else {
      JoinedPieces(lines[1..]);
    }
  }

  // ---------------------------------------------------------------- stripping

  lemma LStripAppend(a: string, b: string)
    requires !Blank(a)
    ensures LStrip(a + b) == LStrip(a) + b && !Blank(a + b)
  {
    SkipAppend(a, b, 0);
    assert (a + b)[IndentOf(a)..] == a[IndentOf(a)..] + b;
  }

  lemma {:induction false} SkipAppend(a: string, b: string, i: nat)
    requires i <= |a| && Skip(a, i, Space) < |a|
    ensures Skip(a + b, i, Space) == Skip(a, i, Space)
    decreases |a| - i
  {
    assert (a + b)[i] == a[i];
    if !Space(a[i]) {
    } else {
      SkipAppend(a, b, i + 1);
    }
  }

  ghost predicate Inked(s: string) {
    exists k :: 0 <= k < |s| && !Space(s[k])
  }

  /** A line that is not blank holds something else than space. */
  lemma InkIn(s: string)
    requires !Blank(s)
    ensures Inked(s)
  {
    assert !Space(s[IndentOf(s)]);
  }

  lemma {:induction false} RStripAppend(a: string, b: string)
    requires Inked(b)
    ensures RStrip(a + b) == a + RStrip(b)
    decreases |b|
  {
    var ab := a + b;
    var n := |b| - 1;
    assert ab[|ab| - 1] == b[n];
    if !Space(b[n]) {
    } else {
      var k :| 0 <= k < |b| && !Space(b[k]);
      assert b[..n][k] == b[k];
      RStripAppend(a, b[..n]);
      assert ab[..|ab| - 1] == a + b[..n];
    }
  }

  // ---------------------------------------------------------------- paragraphs

  /** The lines of a paragraph without the space before the first and after the last. */
  function Trimmed(lines: seq<string>): seq<string>
    requires lines != []
  {
    if |lines| == 1 then [Strip(lines[0])]
    else [LStrip(lines[0])] + lines[1..|lines| - 1] + [RStrip(lines[|lines| - 1])]
  }

  lemma {:induction false} RStripJoined(lines: seq<string>)
    requires lines != [] && Inked(lines[|lines| - 1])
    ensures RStrip(JoinNl(lines)) == JoinNl(lines[..|lines| - 1] + [RStrip(lines[|lines| - 1])])
    ensures Inked(JoinNl(lines))
  {
    var n := |lines| - 1;
    if n == 0 {
      assert lines[..0] + [RStrip(lines[0])] == [RStrip(lines[0])];
    } else {
      var rest := lines[1..];
      assert rest[|rest| - 1] == lines[n];
      RStripJoined(rest);
      RStripAppend(lines[0] + "\n", JoinNl(rest));
      var out := lines[..n] + [RStrip(lines[n])];
      assert out[1..] == rest[..|rest| - 1] + [RStrip(lines[n])];
      var k :| 0 <= k < |JoinNl(rest)| && !Space(JoinNl(rest)[k]);
      assert JoinNl(lines)[|lines[0]| + 1 + k] == JoinNl(rest)[k];
    }
  }

  lemma LStripJoined(lines: seq<string>)
    requires |lines| > 1 && !Blank(lines[0])
    ensures LStrip(JoinNl(lines)) == JoinNl([LStrip(lines[0])] + lines[1..])
  {
    hide LStrip, Blank, JoinNl;
    var rest := "\n" + JoinNl(lines[1..]);
    LStripAppend(lines[0], rest);
    JoinFirst(lines[0], lines[1..]);
    JoinFirst(LStrip(lines[0]), lines[1..]);
    assert lines == [lines[0]] + lines[1..];
  }

  lemma JoinFirst(a: string, rest: seq<string>)
    requires rest != []
    ensures JoinNl([a] + rest) == a + ("\n" + JoinNl(rest))
  {
    var all := [a] + rest;
    assert all[0] == a && all[1..] == rest;
    assert a + "\n" + JoinNl(rest) == a + ("\n" + JoinNl(rest));
  }

  lemma StripJoined(lines: seq<string>)
    requires lines != [] && forall k :: 0 <= k < |lines| ==> !Blank(lines[k])
    ensures Strip(JoinNl(lines)) == JoinNl(Trimmed(lines))
  {
    var n := |lines| - 1;
    InkIn(lines[n]);
    hide LStrip, RStrip, Blank, Inked;
    if n == 0 {
      assert JoinNl(lines) == lines[0];
      assert JoinNl([Strip(lines[0])]) == Strip(lines[0]);
    } else {
      LStripJoined(lines);
      RStripLeft(lines);
    }
  }

  lemma RStripLeft(lines: seq<string>)
    requires |lines| > 1 && Inked(lines[|lines| - 1])
    ensures RStrip(JoinNl([LStrip(lines[0])] + lines[1..])) == JoinNl(Trimmed(lines))
  {
    hide LStrip, RStrip, Blank, Inked, JoinNl;
    var n := |lines| - 1;
    var left := [LStrip(lines[0])] + lines[1..];
    assert |left| == n + 1 && left[n] == lines[n];
    RStripJoined(left);
    assert left[..n] == [LStrip(lines[0])] + lines[1..n];
    assert left[..n] + [RStrip(left[n])] == Trimmed(lines);
  }

  lemma {:induction false} RStripPart(s: string)
    ensures RStrip(s) <= s
  {
    if s != [] && Space(s[|s| - 1]) {
      RStripPart(s[..|s| - 1]);
    } else {
    }
  }

  lemma TrimmedOneLine(lines: seq<string>)
    requires lines != [] && OneLines(lines)
    ensures OneLines(Trimmed(lines)) && |Trimmed(lines)| == |lines|
  {
    RStripPart(LStrip(lines[0]));
    RStripPart(lines[|lines| - 1]);
  }

  lemma {:induction false} ParaEndExact(lines: seq<string>, i: nat)
    requires i <= |lines|
    ensures var k := ParaEnd(lines, i);
            && (forall j :: i <= j < k ==> !Blank(lines[j]) && !StartsBlock(lines, j))
            && (k < |lines| ==> Blank(lines[k]) || StartsBlock(lines, k))
    decreases |lines| - i
  {
    hide Blank, StartsBlock;
    if i < |lines| && !Blank(lines[i]) && !StartsBlock(lines, i) {
      ParaEndExact(lines, i + 1);
    } else {
    }
  }

  /** A paragraph's block is the run of lines from its first that are not blank and start
      nothing else. */
  lemma ParagraphSpan(lines: seq<string>, i: nat)
    requires i < |lines| && !Blank(lines[i]) && OneBlock(lines, i).0.Para?
    ensures var (b, j) := OneBlock(lines, i);
            && i < j <= |lines| && b == Para(lines[i..j])
            && (forall m :: i < m < j ==> !Blank(lines[m]) && !StartsBlock(lines, m))
            && (j < |lines| ==> Blank(lines[j]) || StartsBlock(lines, j))
  {
    hide Blank, Fence, HeadingLevel, RuleLine, Quoted, RowLine, MarkerOf, Align, ListItems, ListBlock, StartsBlock;
    ParaEndExact(lines, i + 1);
  }

  /** What a paragraph of these lines says. */
  ghost predicate ParaSaid(lines: seq<string>, b: Block) {
    lines != [] && exists x :: RenderBlock(b) == [Open(P), Leaf(x), Close(P)] && Pieces(x) == Trimmed(lines)
  }

  lemma ParaSays(text: seq<string>)
    requires text != [] && OneLines(text) && forall k :: 0 <= k < |text| ==> !Blank(text[k])
    ensures ParaSaid(text, Para(text))
  {
    hide Blank, OneLine, JoinNl, Pieces, LStrip, RStrip;
    StripJoined(text);
    TrimmedOneLine(text);
    JoinedPieces(Trimmed(text));
    var x := Strip(JoinNl(text));
    assert RenderBlock(Para(text)) == [Open(P), Leaf(x), Close(P)];
  }

  /** In every document, wherever it is nested: the text of a paragraph, split at its
      newlines, is the lines of its span in order, without the space before the first and
      after the last. */
  lemma ParagraphSays(lines: seq<string>, i: nat)
    requires OneLines(lines) && i < |lines| && !Blank(lines[i]) && OneBlock(lines, i).0.Para?
    ensures var (b, j) := OneBlock(lines, i); i < j <= |lines| && ParaSaid(lines[i..j], b)
  {
    hide OneBlock, Blank, StartsBlock, ParaSaid, OneLine;
    ParagraphSpan(lines, i);
    ParaSays(lines[i..OneBlock(lines, i).1]);
  }

  // ---------------------------------------------------------------- code

  /** Tokens split at their newlines. */
  function TokenLines(ts: seq<Token>): (r: seq<seq<Token>>)
    ensures r != []
  {
    if ts == [] then [[]]
    else
      var r := TokenLines(ts[1..]);
      if ts[0] == Nl then [[]] + r else [[ts[0]] + r[0]] + r[1..]
  }

  lemma {:induction false} TokenLinesAfter(a: seq<Token>, b: seq<Token>)
    requires Nl !in a
    ensures TokenLines(a) == [a]
    ensures TokenLines(a + [Nl] + b) == [a] + TokenLines(b)
  {
    var ab := a + [Nl] + b;
    if a == [] {
      assert ab[0] == Nl && ab[1..] == b;
    } else {
      TokenLinesAfter(a[1..], b);
      assert ab[0] == a[0] && ab[1..] == a[1..] + [Nl] + b;
      assert [a[0]] + a[1..] == a;
    }
  }

  /** A line of code: a shell prompt is marked as a command and loses its "$ "; any other
      line stands as it is. */
  ghost predicate CodeSaid(c: string, ts: seq<Token>) {
    if exists p :: Prompt(c, p)
    then exists p :: Prompt(c, p) && ts == [Leaf(c[..p]), Open(Span), Leaf(c[p + 2..]), Close(Span)]
    else ts == [Leaf(c)]
  }

  /** A prompt at p: only space before it, then a dollar and a blank. */
  predicate Prompt(c: string, p: int) {
    0 <= p && p + 2 <= |c| && c[p] == '$' && c[p + 1] == ' ' && forall k :: 0 <= k < p ==> Space(c[k])
  }

  lemma PromptIsFirst(c: string, q: int)
    requires Prompt(c, q)
    ensures q == IndentOf(c) && StartsWith(LStrip(c), "$ ")
  {
    assert !Space(c[q]);
    var stripped := LStrip(c);
    assert stripped[0] == c[q] && stripped[1] == c[q + 1];
  }

  lemma CodeLineSays(c: string)
    ensures CodeSaid(c, CodeLine(c)) && Nl !in CodeLine(c)
  {
    var p := IndentOf(c);
    var stripped := LStrip(c);
    if StartsWith(stripped, "$ ") {
      assert stripped[0] == c[p] && stripped[1] == c[p + 1];
      assert Prompt(c, p) && stripped[2..] == c[p + 2..];
      assert CodeLine(c) == [Leaf(c[..p]), Open(Span), Leaf(c[p + 2..]), Close(Span)];
    } else if q :| Prompt(c, q) {
      PromptIsFirst(c, q);
      assert false;
    }
  }

  lemma {:induction false} CodeLinesSay(text: seq<string>)
    requires text != []
    ensures var r := TokenLines(CodeLines(text));
            |r| == |text| && forall k :: 0 <= k < |text| ==> CodeSaid(text[k], r[k])
  {
    hide CodeSaid, CodeLine;
    CodeLineSays(text[0]);
    if |text| == 1 {
      TokenLinesAfter(CodeLine(text[0]), []);
    } else {
      CodeLinesSay(text[1..]);
      TokenLinesAfter(CodeLine(text[0]), CodeLines(text[1..]));
      var r, rest := TokenLines(CodeLines(text)), TokenLines(CodeLines(text[1..]));
      assert r == [CodeLine(text[0])] + rest;
      forall k | 0 <= k < |text|
        ensures CodeSaid(text[k], r[k])
      {
        if k > 0 {
          assert text[1..][k - 1] == text[k];
        }
      }
    }
  }

  /** A fenced block's lines, from after its fence to before the next. */
  lemma CodeSpan(lines: seq<string>, i: nat)
    requires i < |lines| && !Blank(lines[i]) && Fence(lines[i])
    ensures var (b, j) := OneBlock(lines, i);
            && i + 1 < j <= |lines| + 1 && b == Code(lines[i + 1..j - 1])
            && (forall m :: i < m < j - 1 ==> !Fence(lines[m])) && (j <= |lines| ==> Fence(lines[j - 1]))
  {
    hide Fence, Blank;
  }

  /** What a block of these lines of code says, line by line. */
  ghost predicate CodeBlockSaid(text: seq<string>, b: Block) {
    exists inner :: RenderBlock(b) == [Open(Pre), Open(CodeTag)] + inner + [Close(CodeTag), Close(Pre)]
      && (if text == [] then inner == [] else CodeTextSaid(text, TokenLines(inner)))
  }

  ghost predicate CodeTextSaid(text: seq<string>, r: seq<seq<Token>>) {
    |r| == |text| && forall k :: 0 <= k < |text| ==> CodeSaid(text[k], r[k])
  }

  lemma CodeBlockSays(text: seq<string>)
    ensures CodeBlockSaid(text, Code(text))
  {
    hide CodeSaid;
    var inner := CodeLines(text);
    assert RenderBlock(Code(text)) == [Open(Pre), Open(CodeTag)] + inner + [Close(CodeTag), Close(Pre)];
    if text == [] {
    } else {
      CodeLinesSay(text);
    }
  }

  /** In every document, wherever it is nested: a fenced block is the lines from after its
      fence to before the next, line by line, with only the prompts removed. */
  lemma CodeSays(lines: seq<string>, i: nat)
    requires i < |lines| && !Blank(lines[i]) && Fence(lines[i])
    ensures var (b, j) := OneBlock(lines, i); i + 1 < j <= |lines| + 1 && CodeBlockSaid(lines[i + 1..j - 1], b)
  {
    hide OneBlock, Fence, Blank, CodeBlockSaid;
    CodeSpan(lines, i);
    CodeBlockSays(lines[i + 1..OneBlock(lines, i).1 - 1]);
  }

  // ---------------------------------------------------------------- whole documents

  lemma {:induction false} SpanBlocks(lines: seq<string>, i: nat)
    ensures |Spans(lines, i)| == |BlocksFrom(lines, i)|
    ensures forall m :: 0 <= m < |Spans(lines, i)| ==> IsSpan(lines, Spans(lines, i)[m], BlocksFrom(lines, i)[m])
    decreases |lines| - i
  {
    hide OneBlock, Blank, IsSpan;
    if i >= |lines| {
    } else if Blank(lines[i]) {
      SpanBlocks(lines, i + 1);
    } else {
      var (b, j) := OneBlock(lines, i);
      SpanBlocks(lines, j);
      assert IsSpan(lines, (i, j), b) by { OneIsSpan(lines, i); }
      assert Spans(lines, i) == [(i, j)] + Spans(lines, j) && BlocksFrom(lines, i) == [b] + BlocksFrom(lines, j);
    }
  }

  /** The block a span begins, ending where the span does. */
  ghost predicate IsSpan(lines: seq<string>, span: (nat, nat), b: Block) {
    span.0 < |lines| && !Blank(lines[span.0]) && OneBlock(lines, span.0) == (b, span.1)
  }

  lemma OneIsSpan(lines: seq<string>, i: nat)
    requires i < |lines| && !Blank(lines[i])
    ensures IsSpan(lines, (i, OneBlock(lines, i).1), OneBlock(lines, i).0)
  {
    hide OneBlock;
  }

  /** What the block of a span says. */
  ghost predicate SpanSaid(lines: seq<string>, span: (nat, nat), b: Block) {
    && (b.Para? ==> span.0 < span.1 <= |lines| && ParaSaid(lines[span.0..span.1], b))
    && (b.Code? ==> span.0 + 1 < span.1 <= |lines| + 1 && CodeBlockSaid(lines[span.0 + 1..span.1 - 1], b))
  }

  lemma SpanSays(lines: seq<string>, span: (nat, nat), b: Block)
    requires OneLines(lines) && IsSpan(lines, span, b)
    ensures SpanSaid(lines, span, b)
  {
    hide OneBlock, Blank, Fence, ParaSaid, CodeBlockSaid, OneLine;
    CodeIsFenced(lines, span.0);
    if b.Para? {
      ParagraphSays(lines, span.0);
    } else if b.Code? {
      CodeSays(lines, span.0);
    }
  }

  /** In every document, block by block: a paragraph says the lines of its span, and a fenced
      block those between its fences. */
  lemma BlocksSay(lines: seq<string>, m: nat)
    requires OneLines(lines) && m < |Parse(lines)|
    ensures m < |Spans(lines, 0)| && SpanSaid(lines, Spans(lines, 0)[m], Parse(lines)[m])
  {
    hide OneBlock, Blank, IsSpan, SpanSaid, Spans, OneLine, BlocksFrom;
    SpanBlocks(lines, 0);
    SpanSays(lines, Spans(lines, 0)[m], Parse(lines)[m]);
  }

  lemma CodeIsFenced(lines: seq<string>, i: nat)
    requires i < |lines| && !Blank(lines[i])
    ensures OneBlock(lines, i).0.Code? ==> Fence(lines[i])
  {
    hide Blank, Fence, HeadingLevel, RuleLine, Quoted, RowLine, MarkerOf, Align, ListItems, ListBlock, StartsBlock;
  }
}
