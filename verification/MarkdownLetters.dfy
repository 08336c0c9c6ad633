/** No letter of a page is lost, invented or moved: what blocks() and parse_list() of
    scripts/render-adrs.py write says the lines they read, but for marks and space. */
module MarkdownLetters {
  import opened MarkdownLines
  import opened MarkdownParse
  import opened MarkdownRender
  import opened MarkdownText

  /** Space, digits and the characters that markdown's block marks are made of. */
  predicate Mark(c: char) {
    Space(c) || Digit(c) || c in "#`>-*+_.)|:$"
  }

  function Letters(s: string): string {
    if s == [] then [] else (if Mark(s[0]) then [] else [s[0]]) + Letters(s[1..])
  }

  function LettersOf(lines: seq<string>): string {
    if lines == [] then [] else Letters(lines[0]) + LettersOf(lines[1..])
  }

  predicate Marks(s: string) {
    forall k :: 0 <= k < |s| ==> Mark(s[k])
  }

  lemma {:induction false} LettersConcat(a: string, b: string)
    ensures Letters(a + b) == Letters(a) + Letters(b)
  {
    hide Mark;
    if a == [] {
      assert a + b == b;
    } else {
      assert (a + b)[1..] == a[1..] + b;
      LettersConcat(a[1..], b);
    }
  }

  lemma {:induction false} MarksSayNothing(s: string)
    requires Marks(s)
    ensures Letters(s) == []
  {
    if s == [] {
    } else {
      MarksSayNothing(s[1..]);
    }
  }

  /** Cutting marks off the front or the end loses no letter. */
  lemma CutFront(s: string, k: nat)
    requires k <= |s| && Marks(s[..k])
    ensures Letters(s[k..]) == Letters(s)
  {
    MarksSayNothing(s[..k]);
    LettersConcat(s[..k], s[k..]);
    assert s == s[..k] + s[k..];
  }

  lemma CutEnd(s: string, k: nat)
    requires k <= |s| && Marks(s[k..])
    ensures Letters(s[..k]) == Letters(s)
  {
    MarksSayNothing(s[k..]);
    LettersConcat(s[..k], s[k..]);
    assert s == s[..k] + s[k..];
  }

  lemma LStripSays(s: string)
    ensures Letters(LStrip(s)) == Letters(s)
  {
    CutFront(s, IndentOf(s));
  }

  lemma {:induction false} RStripSays(s: string)
    ensures Letters(RStrip(s)) == Letters(s)
  {
    if s != [] && Space(s[|s| - 1]) {
      CutEnd(s, |s| - 1);
      RStripSays(s[..|s| - 1]);
    } else {
    }
  }

  lemma StripSays(s: string)
    ensures Letters(Strip(s)) == Letters(s)
  {
    LStripSays(s);
    RStripSays(LStrip(s));
  }

  lemma {:induction false} LinesConcat(a: seq<string>, b: seq<string>)
    ensures LettersOf(a + b) == LettersOf(a) + LettersOf(b)
  {
    hide Letters;
    if a == [] {
      assert a + b == b;
    } else {
      assert (a + b)[1..] == a[1..] + b;
      LinesConcat(a[1..], b);
    }
  }

  /** Lines with the same letters one by one say the same. */
  lemma {:induction false} SameLetters(a: seq<string>, b: seq<string>)
    requires |a| == |b| && forall k :: 0 <= k < |a| ==> Letters(a[k]) == Letters(b[k])
    ensures LettersOf(a) == LettersOf(b)
  {
    hide Letters;
    if a == [] {
    } else {
      assert forall k :: 0 <= k < |a[1..]| ==> Letters(a[1..][k]) == Letters(b[1..][k]);
      SameLetters(a[1..], b[1..]);
    }
  }

  // ---------------------------------------------------------------- lines without their marks

  lemma UnquoteSays(s: string)
    requires Quoted(s)
    ensures Letters(Unquote(s)) == Letters(s)
  {
    LStripSays(s);
    var t := LStrip(s);
    assert t[..1] == ">";
    CutFront(t, 1);
    var u := t[1..];
    if u != [] && Space(u[0]) {
      CutFront(u, 1);
    }
  }

  lemma MarkerSays(s: string)
    requires MarkerOf(s).Marker?
    ensures Letters(s[MarkerOf(s).end..]) == Letters(s)
  {
    var n := IndentOf(s);
    var d := Skip(s, n, Digit);
    var e := MarkerOf(s).end;
    assert forall k :: 0 <= k < e ==> Mark(s[k]);
    CutFront(s, e);
  }

  lemma BlankSays(s: string)
    requires Blank(s)
    ensures Letters(s) == []
  {
    MarksSayNothing(s);
  }

  lemma {:induction false} DropHashesSays(s: string)
    ensures Letters(DropHashes(s)) == Letters(s)
  {
    if s != [] && s[|s| - 1] == '#' {
      CutEnd(s, |s| - 1);
      DropHashesSays(s[..|s| - 1]);
    } else {
    }
  }

  lemma HeadingSays(s: string)
    ensures Letters(HeadingText(s)) == Letters(s)
  {
    var n := HeadingLevel(s);
    assert forall k :: 0 <= k < n ==> s[k] == '#';
    CutFront(s, n);
    var t := Strip(s[n..]);
    StripSays(s[n..]);
    DropHashesSays(t);
    RStripSays(DropHashes(t));
  }

  lemma RuleSays(s: string)
    requires RuleLine(s)
    ensures Letters(s) == []
  {
    StripSays(s);
    MarksSayNothing(Strip(s));
  }

  lemma DashesAreMarks(a: string, k: nat)
    requires k <= |a| && (forall m :: 0 <= m < k ==> a[m] == '-') && (a[k..] == [] || a[k..] == ":")
    ensures Marks(a)
  {
    forall m | 0 <= m < |a|
      ensures Mark(a[m])
    {
      if m >= k {
        assert a[m] == a[k..][m - k];
      }
    }
  }

  lemma AlignCellSays(s: string, lo: nat)
    requires AlignCell(s, lo)
    ensures Letters(s) == []
  {
    hide Letters, Strip, Mark;
    var t := Strip(s);
    StripSays(s);
    var a := if StartsWith(t, ":") then t[1..] else t;
    var k := Skip(a, 0, Is('-'));
    DashesAreMarks(a, k);
    MarksSayNothing(a);
    if StartsWith(t, ":") {
      assert t[..1] == ":";
      ColonIsAMark();
      CutFront(t, 1);
    }
  }

  lemma ColonIsAMark()
    ensures Marks(":") && Marks("|")
  {
  }

  lemma AlignTailSays(s: string)
    requires AlignTail(s)
    ensures Letters(s) == []
  {
    hide AlignCell, Strip, Letters, Mark;
    var t := Strip(s);
    StripSays(s);
    if AlignCell(t, 0) {
      AlignCellSays(t, 0);
    } else {
      BarSays(t);
    }
  }

  lemma BarSays(t: string)
    requires t != [] && t[|t| - 1] == '|' && AlignCell(t[..|t| - 1], 0)
    ensures Letters(t) == []
  {
    hide AlignCell, Letters, Mark;
    AlignCellSays(t[..|t| - 1], 0);
    assert t[|t| - 1..] == "|";
    ColonIsAMark();
    CutEnd(t, |t| - 1);
  }

  lemma {:induction false} AlignCellsSay(s: string, some: bool)
    requires AlignCells(s, some)
    ensures Letters(s) == []
    decreases |s|
  {
    hide AlignCell, AlignTail;
    if some && AlignTail(s) {
      AlignTailSays(s);
    } else {
      var p := Skip(s, 0, NotBar);
      AlignCellSays(s[..p], 1);
      AlignCellsSay(s[p + 1..], true);
      assert s[p..][..1] == "|" && s[p..][1..] == s[p + 1..];
      CutFront(s[p..], 1);
      LettersConcat(s[..p], s[p..]);
      assert s == s[..p] + s[p..];
    }
  }

  lemma AlignSays(s: string)
    requires Align(s)
    ensures Letters(s) == []
  {
    hide AlignCells;
    var t := LStrip(s);
    LStripSays(s);
    if AlignCells(t, false) {
      AlignCellsSay(t, false);
    } else {
      AlignCellsSay(t[1..], false);
      assert t[..1] == "|";
      CutFront(t, 1);
    }
  }

  lemma {:induction false} CellsSay(s: string)
    ensures LettersOf(SplitOn(s)) == Letters(s)
    decreases |s|
  {
    hide Strip, Letters, Mark;
    ColonIsAMark();
    var p := Skip(s, 0, NotBar);
    if p < |s| {
      CellsSay(s[p + 1..]);
      StripSays(s[..p]);
      assert s[p..][..1] == "|" && s[p..][1..] == s[p + 1..];
      CutFront(s[p..], 1);
      LettersConcat(s[..p], s[p..]);
      assert s == s[..p] + s[p..];
    } else {
      StripSays(s);
      OneLineMore([Strip(s)]);
    }
  }

  lemma RowSays(line: string)
    ensures LettersOf(SplitRow(line)) == Letters(line)
  {
    hide Letters, LettersOf, Strip, Mark, SplitOn;
    var s := Strip(line);
    StripSays(line);
    ColonIsAMark();
    var t := if StartsWith(s, "|") then s[1..] else s;
    if StartsWith(s, "|") {
      assert s[..1] == "|";
      CutFront(s, 1);
    }
    var u := if t != [] && t[|t| - 1] == '|' then t[..|t| - 1] else t;
    if t != [] && t[|t| - 1] == '|' {
      assert t[|t| - 1..] == "|";
      CutEnd(t, |t| - 1);
    }
    CellsSay(u);
  }

  lemma {:induction false} CutAllSays(s: seq<string>, n: nat)
    requires forall k :: 0 <= k < |s| && !Blank(s[k]) ==> n <= IndentOf(s[k])
    ensures LettersOf(CutAll(s, n)) == LettersOf(s)
  {
    var r := CutAll(s, n);
    forall k | 0 <= k < |s|
      ensures Letters(r[k]) == Letters(s[k])
    {
      if Blank(s[k]) {
        BlankSays(s[k]);
      } else {
        CutFront(s[k], n);
      }
    }
    SameLetters(r, s);
  }

  lemma DedentSays(item: seq<string>)
    requires item != []
    ensures LettersOf(Dedent(item)) == LettersOf(item)
  {
    hide Letters, CutAll;
    var rest := item[1..];
    CutAllSays(rest, MinIndent(rest, MaxIndent(rest)));
  }

  lemma KeepsSays(line: string, kept: string)
    requires Keeps(line, kept)
    ensures Letters(kept) == Letters(line)
  {
    hide LStrip, MarkerOf, Blank, Letters;
    if kept == line {
    } else if kept == LStrip(line) {
      LStripSays(line);
    } else if Blank(line) && kept == "" {
      BlankSays(line);
      MarksSayNothing("");
    } else {
      MarkerSays(line);
    }
  }

  lemma AllKeptSays(src: seq<string>, kept: seq<string>)
    requires AllKept(src, kept)
    ensures LettersOf(kept) == LettersOf(src)
  {
    hide Keeps, Letters;
    forall k | 0 <= k < |src|
      ensures Letters(kept[k]) == Letters(src[k])
    {
      KeepsSays(src[k], kept[k]);
    }
    SameLetters(kept, src);
  }

  // ---------------------------------------------------------------- what tokens say

  /** The text of the leaves, in order. */
  function Text(ts: seq<Token>): string {
    if ts == [] then [] else (if ts[0].Leaf? then ts[0].text else []) + Text(ts[1..])
  }

  lemma {:induction false} TextConcat(a: seq<Token>, b: seq<Token>)
    ensures Text(a + b) == Text(a) + Text(b)
  {
    if a == [] {
      assert a + b == b;
    } else {
      assert (a + b)[1..] == a[1..] + b;
      TextConcat(a[1..], b);
    }
  }

  lemma TextOne(t: Token)
    ensures Text([t]) == if t.Leaf? then t.text else []
  {
    assert Text([t]) == (if t.Leaf? then t.text else []) + Text([]);
  }

  lemma TextWrap(tag: Tag, inner: seq<Token>)
    ensures Text(Wrap(tag, inner)) == Text(inner)
  {
    TextConcat([Open(tag)] + inner, [Close(tag)]);
    TextConcat([Open(tag)], inner);
    TextOne(Open(tag));
    TextOne(Close(tag));
  }

  lemma TextPad(a: seq<Token>, t: Token, b: seq<Token>)
    requires !t.Leaf?
    ensures Text(a + [t] + b) == Text(a) + Text(b)
  {
    TextConcat(a + [t], b);
    TextConcat(a, [t]);
    TextOne(t);
  }

  lemma TextFramed(body: seq<Token>)
    ensures Text([Nl] + body + [Nl]) == Text(body)
  {
    TextConcat([Nl] + body, [Nl]);
    TextConcat([Nl], body);
    TextOne(Nl);
  }

  /** Tightening an item changes no text. */
  lemma TightSays(ts: seq<Token>)
    ensures Text(Tight(ts)) == Text(ts)
  {
    if OnePara(ts) {
      var inner := ts[1..|ts| - 1];
      assert ts == Wrap(P, inner);
      TextWrap(P, inner);
    } else if ts != [] && ts[0] == Open(P) && FirstGap(ts, 1) < |ts| {
      var g := FirstGap(ts, 1);
      assert ts == [Open(P)] + ts[1..g] + [Close(P)] + [Sep] + ts[g + 2..];
      TextPad([Open(P)] + ts[1..g] + [Close(P)], Sep, ts[g + 2..]);
      TextPad([Open(P)] + ts[1..g], Close(P), []);
      assert [Open(P)] + ts[1..g] + [Close(P)] + [] == [Open(P)] + ts[1..g] + [Close(P)];
      TextConcat([Open(P)], ts[1..g]);
      TextOne(Open(P));
      TextPad(ts[1..g], Nl, ts[g + 2..]);
    }
  }

  lemma {:induction false} CellTexts(tag: Tag, row: seq<string>)
    ensures Letters(Text(Cells(tag, row))) == LettersOf(row)
  {
    if row == [] {
    } else {
      var cell := Wrap(tag, [Leaf(row[0])]);
      TextWrap(tag, [Leaf(row[0])]);
      TextOne(Leaf(row[0]));
      TextConcat(cell, Cells(tag, row[1..]));
      LettersConcat(Text(cell), Text(Cells(tag, row[1..])));
      CellTexts(tag, row[1..]);
    }
  }

  lemma OneLineMore(lines: seq<string>)
    requires lines != []
    ensures LettersOf(lines) == Letters(lines[0]) + LettersOf(lines[1..])
  {
  }

  lemma OneRowMore(row: seq<string>, rest: seq<Token>)
    ensures Letters(Text([Nl] + Wrap(Tr, Cells(Td, row)) + rest)) == LettersOf(row) + Letters(Text(rest))
  {
    hide Text, Letters, Cells;
    var cells := Cells(Td, row);
    CellTexts(Td, row);
    TextWrap(Tr, cells);
    TextPad([], Nl, Wrap(Tr, cells));
    assert [] + [Nl] + Wrap(Tr, cells) == [Nl] + Wrap(Tr, cells);
    TextConcat([Nl] + Wrap(Tr, cells), rest);
    TextNothing();
    assert [] + Text(cells) == Text(cells);
    LettersConcat(Text(cells), Text(rest));
  }

  lemma {:induction false} RowTexts(lines: seq<string>)
    ensures Letters(Text(Rows(SplitRows(lines)))) == LettersOf(lines)
  {
    if lines == [] {
    } else {
      RowTexts(lines[1..]);
      OneLineMore(lines);
      RowSays(lines[0]);
      hide SplitRow, Text, Letters, Cells, LettersOf;
      OneRowMore(SplitRow(lines[0]), Rows(SplitRows(lines[1..])));
      assert SplitRows(lines)[1..] == SplitRows(lines[1..]);
    }
  }

  lemma {:induction false} JoinSays(lines: seq<string>)
    ensures Letters(JoinNl(lines)) == LettersOf(lines)
  {
    if lines == [] {
    } else if |lines| == 1 {
      assert LettersOf(lines) == Letters(lines[0]) + LettersOf([]);
    } else {
      LettersConcat(lines[0] + "\n", JoinNl(lines[1..]));
      LettersConcat(lines[0], "\n");
      MarksSayNothing("\n");
      JoinSays(lines[1..]);
    }
  }

  // ---------------------------------------------------------------- no fences

  /** No three backquotes in a row. */
  predicate Unfenced(s: string) {
    forall j :: 0 <= j && j + 3 <= |s| ==> !(s[j] == '`' && s[j + 1] == '`' && s[j + 2] == '`')
  }

  predicate NoFences(lines: seq<string>) {
    forall k :: 0 <= k < |lines| ==> Unfenced(lines[k])
  }

  lemma PartUnfenced(s: string, i: nat, j: nat)
    requires Unfenced(s) && i <= j <= |s|
    ensures Unfenced(s[i..j])
  {
    var t := s[i..j];
    forall k | 0 <= k && k + 3 <= |t|
      ensures !(t[k] == '`' && t[k + 1] == '`' && t[k + 2] == '`')
    {
      assert t[k] == s[i + k] && t[k + 1] == s[i + k + 1] && t[k + 2] == s[i + k + 2];
    }
  }

  lemma TicksIn(s: string)
    requires StartsWith(LStrip(s), "```")
    ensures !Unfenced(s)
  {
    var t, n := LStrip(s), IndentOf(s);
    assert t[0] == s[n] && t[1] == s[n + 1] && t[2] == s[n + 2];
    assert s[n] == '`' && s[n + 1] == '`' && s[n + 2] == '`';
  }

  lemma NoFence(s: string)
    requires Unfenced(s)
    ensures !Fence(s)
  {
    if StartsWith(LStrip(s), "```") {
      TicksIn(s);
      assert false;
    }
  }

  lemma {:induction false} UnquotedUnfenced(lines: seq<string>)
    requires NoFences(lines) && forall j :: 0 <= j < |lines| ==> Quoted(lines[j])
    ensures NoFences(Unquoted(lines)) && LettersOf(Unquoted(lines)) == LettersOf(lines)
  {
    hide Unfenced, Letters;
    if lines == [] {
    } else {
      UnquotedUnfenced(lines[1..]);
      UnquoteSays(lines[0]);
      UnquoteUnfenced(lines[0]);
    }
  }

  lemma UnquoteUnfenced(s: string)
    requires Unfenced(s) && Quoted(s)
    ensures Unfenced(Unquote(s))
  {
    var n := IndentOf(s);
    PartUnfenced(s, n + 1, |s|);
    var t := LStrip(s)[1..];
    assert t == s[n + 1..|s|];
    if t != [] && Space(t[0]) {
      PartUnfenced(t, 1, |t|);
      assert t[1..|t|] == t[1..];
    }
  }

  lemma KeepsUnfenced(line: string, kept: string)
    requires Keeps(line, kept) && Unfenced(line)
    ensures Unfenced(kept)
  {
    if kept == line {
    } else if kept == LStrip(line) {
      PartUnfenced(line, IndentOf(line), |line|);
      assert line[IndentOf(line)..|line|] == kept;
    } else if kept == "" {
    } else {
      PartUnfenced(line, MarkerOf(line).end, |line|);
      assert line[MarkerOf(line).end..|line|] == kept;
    }
  }

  lemma DedentUnfenced(item: seq<string>)
    requires item != [] && NoFences(item)
    ensures NoFences(Dedent(item))
  {
    hide Unfenced;
    var rest := item[1..];
    var n := MinIndent(rest, MaxIndent(rest));
    var r := CutAll(rest, n);
    forall k | 0 <= k < |rest|
      ensures Unfenced(r[k])
    {
      if Blank(rest[k]) {
        EmptyUnfenced();
      } else {
        PartUnfenced(rest[k], n, |rest[k]|);
        assert rest[k][n..|rest[k]|] == rest[k][n..];
      }
    }
  }

  lemma EmptyUnfenced()
    ensures Unfenced("")
  {
  }

  /** Every item of a list that covers lines without fences has none. */
  lemma ItemsUnfenced(lines: seq<string>, from: nat, to: nat, items: seq<seq<string>>)
    requires from <= to <= |lines| && NoFences(lines) && Covers(lines, from, to, items)
    ensures NoFences(Flat(items)) && LettersOf(Flat(items)) == LettersOf(lines[from..to])
  {
    hide Unfenced, Keeps;
    AllKeptSays(lines[from..to], Flat(items));
    forall k | 0 <= k < |Flat(items)|
      ensures Unfenced(Flat(items)[k])
    {
      KeepsUnfenced(lines[from..to][k], Flat(items)[k]);
    }
  }

  lemma FlatParts(items: seq<seq<string>>)
    requires items != [] && NoFences(Flat(items))
    ensures NoFences(items[0]) && NoFences(Flat(items[1..]))
    ensures LettersOf(Flat(items)) == LettersOf(items[0]) + LettersOf(Flat(items[1..]))
  {
    hide Unfenced;
    var rest := Flat(items[1..]);
    LinesConcat(items[0], rest);
    assert forall k :: 0 <= k < |items[0]| ==> Flat(items)[k] == items[0][k];
    assert forall k :: 0 <= k < |rest| ==> Flat(items)[|items[0]| + k] == rest[k];
  }

  // ---------------------------------------------------------------- whole documents

  /** A run of lines and the block it makes say the same. */
  ghost predicate Same(lines: seq<string>, ts: seq<Token>) {
    Letters(Text(ts)) == LettersOf(lines)
  }

  lemma PlainSays(lines: seq<string>, i: nat)
    requires i < |lines| && !Blank(lines[i]) && !Fence(lines[i])
    requires HeadingLevel(lines[i]) > 0 || RuleLine(lines[i]) || (!Quoted(lines[i]) && (IsTable(lines, i) || MarkerOf(lines[i]).NoMarker?))
    ensures var (b, j) := OneBlock(lines, i); j <= |lines| && Same(lines[i..j], RenderBlock(b))
  {
    hide Fence, Blank, Quoted, MarkerOf, RuleLine, HeadingLevel, IsTable, StartsBlock, SplitRow, SplitRows, Strip, HeadingText, Same;
    var (b, j) := OneBlock(lines, i);
    if HeadingLevel(lines[i]) > 0 {
      HeadingBlockSays(lines[i]);
      assert lines[i..i + 1] == [lines[i]];
    } else if RuleLine(lines[i]) {
      RuleBlockSays(lines[i]);
      assert lines[i..i + 1] == [lines[i]];
    } else if IsTable(lines, i) {
      TableAligns(lines, i);
      TableSays(lines, i, RowEnd(lines, i + 2));
    } else {
      ParaBlockSays(lines[i..j]);
    }
  }

  lemma TableAligns(lines: seq<string>, i: nat)
    requires i < |lines| && IsTable(lines, i)
    ensures i + 1 < |lines| && Align(lines[i + 1])
  {
  }

  lemma HeadingBlockSays(line: string)
    ensures Same([line], RenderBlock(Heading(HeadingLevel(line), HeadingText(line))))
  {
    hide HeadingText, HeadingLevel, Letters;
    HeadingSays(line);
    TextWrap(H(HeadingLevel(line)), [Leaf(HeadingText(line))]);
    TextOne(Leaf(HeadingText(line)));
    assert LettersOf([line]) == Letters(line) + LettersOf([]);
  }

  lemma RuleBlockSays(line: string)
    requires RuleLine(line)
    ensures Same([line], RenderBlock(Rule))
  {
    RuleSays(line);
    TextOne(Hr);
    assert LettersOf([line]) == Letters(line) + LettersOf([]);
  }

  lemma ParaBlockSays(text: seq<string>)
    ensures Same(text, RenderBlock(Para(text)))
  {
    hide Strip, JoinNl, Letters;
    var x := Strip(JoinNl(text));
    TextWrap(P, [Leaf(x)]);
    TextOne(Leaf(x));
    StripSays(JoinNl(text));
    JoinSays(text);
  }

  lemma TableSays(lines: seq<string>, i: nat, k: nat)
    requires i + 2 <= k <= |lines| && Align(lines[i + 1])
    ensures Same(lines[i..k], RenderBlock(Table(SplitRow(lines[i]), SplitRows(lines[i + 2..k]))))
  {
    hide SplitRow, SplitRows, Align, Letters, Text;
    var head, rows := Cells(Th, SplitRow(lines[i])), Rows(SplitRows(lines[i + 2..k]));
    AlignSays(lines[i + 1]);
    RowSays(lines[i]);
    CellTexts(Th, SplitRow(lines[i]));
    RowTexts(lines[i + 2..k]);
    var inner := [Nl] + Wrap(Tr, head) + rows + [Nl];
    TextWrap(TableTag, inner);
    assert inner == [Nl] + (Wrap(Tr, head) + rows) + [Nl];
    TextFramed(Wrap(Tr, head) + rows);
    TextConcat(Wrap(Tr, head), rows);
    TextWrap(Tr, head);
    LettersConcat(Text(head), Text(rows));
    assert lines[i..k] == [lines[i]] + ([lines[i + 1]] + lines[i + 2..k]);
    LinesConcat([lines[i]], [lines[i + 1]] + lines[i + 2..k]);
    LinesConcat([lines[i + 1]], lines[i + 2..k]);
    assert LettersOf([lines[i]]) == Letters(lines[i]) + LettersOf([]);
    assert LettersOf([lines[i + 1]]) == Letters(lines[i + 1]) + LettersOf([]);
  }

  lemma TextNothing()
    ensures Text([]) == []
  {
  }

  lemma {:induction false} BlockSays(lines: seq<string>, i: nat)
    requires NoFences(lines) && i < |lines| && !Blank(lines[i])
    ensures var (b, j) := OneBlock(lines, i); j <= |lines| && Same(lines[i..j], RenderBlock(b))
    decreases Chars(lines), 1
  {
    NoFence(lines[i]);
    hide Fence, Blank, MarkerOf, RuleLine, HeadingLevel, IsTable, StartsBlock, Same, NoFences, Quoted, Letters;
    if HeadingLevel(lines[i]) == 0 && !RuleLine(lines[i]) && Quoted(lines[i]) {
      QuoteSays(lines, i);
    } else if HeadingLevel(lines[i]) == 0 && !RuleLine(lines[i]) && !IsTable(lines, i) && MarkerOf(lines[i]).Marker? {
      ListSays(lines, i);
    } else {
      PlainSays(lines, i);
    }
  }

  lemma {:induction false} QuoteSays(lines: seq<string>, i: nat)
    requires NoFences(lines) && i < |lines| && Quoted(lines[i])
    ensures var k := QuoteEnd(lines, i); Same(lines[i..k], RenderBlock(Quote(Parse(Unquoted(lines[i..k])))))
    decreases Chars(lines), 0
  {
    hide Quoted, Letters, Unfenced, Text;
    var k := QuoteEnd(lines, i);
    var inner := Unquoted(lines[i..k]);
    CharsSlice(lines, i, k);
    UnquotedUnfenced(lines[i..k]);
    DocumentSays(inner);
    var body := Render(Parse(inner));
    TextWrap(Blockquote, [Nl] + body + [Nl]);
    TextFramed(body);
  }

  lemma {:induction false} ListSays(lines: seq<string>, i: nat)
    requires NoFences(lines) && i < |lines| && MarkerOf(lines[i]).Marker?
    ensures Same(lines[i..ListItems(lines, i).1], RenderBlock(ListBlock(lines, i)))
    decreases Chars(lines), 0
  {
    hide MarkerOf, Letters, Unfenced, ListItems, Text, Flat;
    var (items, k) := ListItems(lines, i);
    ListConserves(lines, i);
    CharsSlice(lines, i, k);
    ItemsUnfenced(lines, i, k, items);
    ItemsSay(items);
    var body := RenderItems(ParseItems(items));
    TextWrap(ListTag(MarkerOf(lines[i]).kind), [Nl] + body + [Nl]);
    TextFramed(body);
  }

  lemma {:induction false} ItemsSay(items: seq<seq<string>>)
    requires NoFences(Flat(items)) && forall m :: 0 <= m < |items| ==> items[m] != []
    ensures Same(Flat(items), RenderItems(ParseItems(items)))
    decreases Total(items), 4, |items|
  {
    if items == [] {
    } else {
      FlatParts(items);
      hide Letters, Unfenced, Text, Flat, LettersOf;
      var rest := ParseItems(items[1..]);
      assert ParseItems(items) == [Item(Parse(Dedent(items[0])))] + rest;
      ItemsSay(items[1..]);
      ItemSays(items[0]);
      OneItemMore(Item(Parse(Dedent(items[0]))), rest);
    }
  }

  lemma OneItemMore(item: Item, rest: seq<Item>)
    ensures Letters(Text(RenderItems([item] + rest))) == Letters(Text(RenderItem(item))) + Letters(Text(RenderItems(rest)))
  {
    hide Letters, RenderItem;
    assert ([item] + rest)[1..] == rest;
    if rest == [] {
      TextNothing();
      MarksSayNothing("");
    } else {
      TextPad(RenderItem(item), Nl, RenderItems(rest));
      LettersConcat(Text(RenderItem(item)), Text(RenderItems(rest)));
    }
  }

  lemma {:induction false} ItemSays(item: seq<string>)
    requires NoFences(item) && item != []
    ensures Same(item, RenderItem(Item(Parse(Dedent(item)))))
    decreases Chars(item), 3, 1
  {
    hide Letters, Unfenced, Text, Tight, Dedent;
    DedentSays(item);
    DedentUnfenced(item);
    DocumentSays(Dedent(item));
    TightSays(Render(Parse(Dedent(item))));
    TextWrap(Li, Tight(Render(Parse(Dedent(item)))));
  }

  lemma {:induction false} FromSays(lines: seq<string>, i: nat)
    requires NoFences(lines) && i <= |lines|
    ensures Same(lines[i..], Render(BlocksFrom(lines, i)))
    decreases Chars(lines), 2, |lines| - i
  {
    hide Blank, OneBlock, Letters, Unfenced, RenderBlock;
    if i >= |lines| {
      assert lines[i..] == [];
      TextNothing();
      MarksSayNothing("");
    } else if Blank(lines[i]) {
      FromSays(lines, i + 1);
      BlankSays(lines[i]);
      assert lines[i..][1..] == lines[i + 1..];
    } else {
      var (b, j) := OneBlock(lines, i);
      BlockSays(lines, i);
      FromSays(lines, j);
      assert lines[i..] == lines[i..j] + lines[j..];
      LinesConcat(lines[i..j], lines[j..]);
      OneBlockMore(b, BlocksFrom(lines, j));
    }
  }

  lemma OneBlockMore(b: Block, rest: seq<Block>)
    ensures Letters(Text(Render([b] + rest))) == Letters(Text(RenderBlock(b))) + Letters(Text(Render(rest)))
  {
    hide Letters, RenderBlock;
    assert ([b] + rest)[1..] == rest;
    if rest == [] {
      TextNothing();
      MarksSayNothing("");
    } else {
      TextPad(RenderBlock(b), Sep, Render(rest));
      LettersConcat(Text(RenderBlock(b)), Text(Render(rest)));
    }
  }

  /** Every document without code fences is written with exactly the letters it has, in
      their order: through paragraphs, headings, quotes, tables and lists, however nested,
      and whatever tightening does to the tags. */
  lemma {:induction false} DocumentSays(lines: seq<string>)
    requires NoFences(lines)
    ensures Letters(Text(Render(Parse(lines)))) == LettersOf(lines)
    decreases Chars(lines), 3, 0
  {
    FromSays(lines, 0);
    assert lines[0..] == lines;
  }
}
