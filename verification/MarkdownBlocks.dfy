/** The loops of scripts/render-adrs.py that write HTML in one pass, proved to
    write what parsing the document and rendering its blocks gives. */
module MarkdownBlocks {
  import opened MarkdownLines
  import opened MarkdownParse
  import opened MarkdownRender
  import opened MarkdownBalance

  /** glue.join(parts) */
  function Join(parts: seq<seq<Token>>, glue: Token): seq<Token> {
    if parts == [] then []
    else if |parts| == 1 then parts[0]
    else parts[0] + [glue] + Join(parts[1..], glue)
  }

  function Blocked(bs: seq<Block>): (r: seq<seq<Token>>)
    ensures |r| == |bs|
  {
    if bs == [] then [] else [RenderBlock(bs[0])] + Blocked(bs[1..])
  }

  lemma {:induction false} JoinBlocked(bs: seq<Block>)
    ensures Join(Blocked(bs), Sep) == Render(bs)
  {
    if |bs| > 1 {
      JoinBlocked(bs[1..]);
    } else if |bs| == 1 {
      assert Blocked(bs[1..]) == [];
    }
  }

  lemma {:induction false} BlockedSnoc(bs: seq<Block>, b: Block)
    ensures Blocked(bs + [b]) == Blocked(bs) + [RenderBlock(b)]
  {
    if bs == [] {
      assert bs + [b] == [b] && [b][1..] == [];
    } else {
      assert (bs + [b])[1..] == bs[1..] + [b];
      BlockedSnoc(bs[1..], b);
    }
  }

  function Itemed(items: seq<Item>): (r: seq<seq<Token>>)
    ensures |r| == |items|
  {
    if items == [] then [] else [RenderItem(items[0])] + Itemed(items[1..])
  }

  lemma {:induction false} JoinItemed(items: seq<Item>)
    ensures Join(Itemed(items), Nl) == RenderItems(items)
  {
    if |items| > 1 {
      JoinItemed(items[1..]);
    } else if |items| == 1 {
      assert Itemed(items[1..]) == [];
    }
  }

  lemma {:induction false} ItemedAt(items: seq<seq<string>>, k: nat)
    requires k < |items| && forall m :: 0 <= m < |items| ==> items[m] != []
    ensures Itemed(ParseItems(items))[k] == RenderItem(Item(Parse(Dedent(items[k]))))
  {
    hide RenderItem, Parse, Dedent;
    var all := ParseItems(items);
    if k == 0 {
      assert all[0] == Item(Parse(Dedent(items[0])));
    } else {
      assert all[1..] == ParseItems(items[1..]);
      ItemedAt(items[1..], k - 1);
    }
  }

  lemma {:induction false} TotalAt(items: seq<seq<string>>, k: nat)
    requires k < |items|
    ensures Chars(items[k]) <= Total(items)
  {
    if k == 0 {
    } else {
      TotalAt(items[1..], k - 1);
    }
  }

  method TakeRows(lines: seq<string>, from: nat) returns (rows: seq<seq<string>>, next: nat)
    requires from <= |lines|
    ensures next == RowEnd(lines, from) && rows == SplitRows(lines[from..next])
  {
    hide SplitRow, RowLine;
    next := from;
    rows := [];
    assert lines[from..from] == [];
    while next < |lines| && RowLine(lines[next])
      invariant from <= next <= |lines|
      invariant RowEnd(lines, next) == RowEnd(lines, from)
      invariant rows == SplitRows(lines[from..next])
    {
      assert lines[from..next + 1] == lines[from..next] + [lines[next]];
      SplitSnoc(lines[from..next], lines[next]);
      rows := rows + [SplitRow(lines[next])];
      next := next + 1;
    }
  }

  method WriteRows(rows: seq<seq<string>>) returns (out: seq<Token>)
    ensures out == Rows(rows)
  {
    out := [];
    var r := 0;
    while r < |rows|
      invariant 0 <= r <= |rows|
      invariant out == Rows(rows[..r])
    {
      assert rows[..r + 1] == rows[..r] + [rows[r]];
      RowsSnoc(rows[..r], rows[r]);
      out := out + ([Nl] + Wrap(Tr, Cells(Td, rows[r])));
      r := r + 1;
    }
    assert rows[..|rows|] == rows;
  }

  /** parse_table: the header, the alignment line passed over, then every row. */
  method ParseTable(lines: seq<string>, i: nat) returns (out: seq<Token>, next: nat)
    requires i < |lines| && IsTable(lines, i)
    ensures next == RowEnd(lines, i + 2)
    ensures out == RenderBlock(Table(SplitRow(lines[i]), SplitRows(lines[i + 2..next])))
  {
    hide SplitRow, RowLine, Align, RowEnd, SplitRows, Cells, Rows;
    var header := SplitRow(lines[i]);
    var rows;
    rows, next := TakeRows(lines, i + 2);
    var body := WriteRows(rows);
    out := Wrap(TableTag, [Nl] + Wrap(Tr, Cells(Th, header)) + body + [Nl]);
  }

  lemma {:induction false} SplitSnoc(lines: seq<string>, line: string)
    ensures SplitRows(lines + [line]) == SplitRows(lines) + [SplitRow(line)]
  {
    if lines == [] {
      assert lines + [line] == [line] && SplitRows([line][1..]) == [];
    } else {
      assert (lines + [line])[1..] == lines[1..] + [line];
      SplitSnoc(lines[1..], line);
    }
  }

  lemma {:induction false} RowsSnoc(rows: seq<seq<string>>, row: seq<string>)
    ensures Rows(rows + [row]) == Rows(rows) + ([Nl] + Wrap(Tr, Cells(Td, row)))
  {
    if rows == [] {
      assert rows + [row] == [row] && Rows([row][1..]) == [];
    } else {
      assert (rows + [row])[1..] == rows[1..] + [row];
      RowsSnoc(rows[1..], row);
    }
  }

  /** One turn of the first loop of parse_list. */
  method TakeTurn(lines: seq<string>, i: nat, indent: nat, kind: Kind, items: seq<seq<string>>) returns (t: Turn)
    requires i < |lines|
    ensures t == ListTurn(lines, i, indent, kind, items)
  {
    hide MarkerOf, IndentOf, Blank, StartsBlock, LStrip, ExtendLast, Blanks;
    var line := lines[i];
    if Blank(line) {
      var j := i;
      while j < |lines| && Blank(lines[j])
        invariant i <= j <= |lines|
        invariant BlankEnd(lines, j) == BlankEnd(lines, i)
      {
        j := j + 1;
      }
      if j >= |lines| { return Stop; }
      if !(IndentOf(lines[j]) > indent
           || (IndentOf(lines[j]) == indent && MarkerOf(lines[j]).Marker? && MarkerOf(lines[j]).kind == kind)) { return Stop; }
      return On(if items != [] then ExtendLast(items, Blanks(j - i)) else items, j);
    }
    if IndentOf(line) < indent { return Stop; }
    var m := MarkerOf(line);
    if m.Marker? && IndentOf(line) == indent {
      if m.kind != kind { return Stop; }
      return On(items + [[line[m.end..]]], i + 1);
    }
    if items == [] { return Stop; }
    if IndentOf(line) <= indent && StartsBlock(lines, i) { return Stop; }
    return On(ExtendLast(items, [if IndentOf(line) <= indent then LStrip(line) else line]), i + 1);
  }

  /** The first loop of parse_list: cut the lines into items. */
  method CutItems(lines: seq<string>, start: nat) returns (items: seq<seq<string>>, i: nat)
    requires start < |lines| && MarkerOf(lines[start]).Marker?
    ensures (items, i) == ListItems(lines, start)
  {
    hide ListTurn, MarkerOf, IndentOf;
    var indent := IndentOf(lines[start]);
    var kind := MarkerOf(lines[start]).kind;
    items, i := [], start;
    while i < |lines|
      invariant start <= i <= |lines|
      invariant ListScan(lines, i, indent, kind, items) == ListItems(lines, start)
    {
      var t := TakeTurn(lines, i, indent, kind, items);
      if t.Stop? { break; }
      items, i := t.items, t.next;
    }
  }

  /** The two substitutions of lines 301-306. */
  method Tighten(rendered: seq<Token>) returns (out: seq<Token>)
    ensures out == Tight(rendered)
  {
    out := rendered;
    if OnePara(rendered) {
      out := rendered[1..|rendered| - 1];
    } else if rendered != [] && rendered[0] == Open(P) {
      var g := 1;
      while g < |rendered| && !Gap(rendered, g)
        invariant 1 <= g <= |rendered|
        invariant FirstGap(rendered, g) == FirstGap(rendered, 1)
      {
        g := g + 1;
      }
      if g < |rendered| {
        out := rendered[1..g] + [Nl] + rendered[g + 2..];
      }
    }
  }

  /** parse_list: the items, each rendered by blocks() and tightened. */
  method ParseList(lines: seq<string>, start: nat) returns (out: seq<Token>, next: nat)
    requires start < |lines| && MarkerOf(lines[start]).Marker?
    ensures next == ListItems(lines, start).1
    ensures out == RenderBlock(ListBlock(lines, start))
    decreases Chars(lines), 0
  {
    hide MarkerOf, ListItems, Dedent, Tight, Render, Parse, Covers;
    var items;
    items, next := CutItems(lines, start);
    ListConserves(lines, start);
    ItemsOpen(lines, start);
    CharsSlice(lines, start, next);
    var parts: seq<seq<Token>> := [];
    var k := 0;
    while k < |items|
      invariant 0 <= k <= |items| && |parts| == k
      invariant forall m :: 0 <= m < k ==> parts[m] == Itemed(ParseItems(items))[m]
    {
      TotalAt(items, k);
      var rendered := Blocks(Dedent(items[k]));
      ItemedAt(items, k);
      rendered := Tighten(rendered);
      parts := parts + [Wrap(Li, rendered)];
      k := k + 1;
    }
    assert parts == Itemed(ParseItems(items));
    JoinItemed(ParseItems(items));
    out := Wrap(ListTag(MarkerOf(lines[start]).kind), [Nl] + Join(parts, Nl) + [Nl]);
  }

  lemma ItemsOpen(lines: seq<string>, start: nat)
    requires start < |lines| && MarkerOf(lines[start]).Marker?
    ensures forall m :: 0 <= m < |ListItems(lines, start).0| ==> ListItems(lines, start).0[m] != []
  {
    ListConserves(lines, start);
  }

  method TakeCode(lines: seq<string>, from: nat) returns (code: seq<string>, next: nat)
    requires from <= |lines|
    ensures next == FenceEnd(lines, from) && code == lines[from..next]
  {
    hide Fence;
    next := from;
    code := [];
    while next < |lines| && !Fence(lines[next])
      invariant from <= next <= |lines|
      invariant FenceEnd(lines, next) == FenceEnd(lines, from)
      invariant code == lines[from..next]
    {
      code := code + [lines[next]];
      next := next + 1;
    }
  }

  method TakeQuoted(lines: seq<string>, i: nat) returns (quoted: seq<string>, next: nat)
    requires i < |lines|
    ensures next == QuoteEnd(lines, i) && quoted == Unquoted(lines[i..next])
  {
    hide Unquote, Quoted;
    next := i;
    quoted := [];
    assert lines[i..i] == [];
    while next < |lines| && Quoted(lines[next])
      invariant i <= next <= |lines|
      invariant QuoteEnd(lines, next) == QuoteEnd(lines, i)
      invariant forall j :: i <= j < next ==> Quoted(lines[j])
      invariant quoted == Unquoted(lines[i..next])
    {
      assert lines[i..next + 1] == lines[i..next] + [lines[next]];
      UnquotedSnoc(lines[i..next], lines[next]);
      quoted := quoted + [Unquote(lines[next])];
      next := next + 1;
    }
  }

  method TakePara(lines: seq<string>, i: nat) returns (para: seq<string>, next: nat)
    requires i < |lines|
    ensures next == ParaEnd(lines, i + 1) && para == lines[i..next]
  {
    hide Blank, StartsBlock;
    para := [lines[i]];
    next := i + 1;
    while next < |lines| && !Blank(lines[next]) && !StartsBlock(lines, next)
      invariant i + 1 <= next <= |lines|
      invariant ParaEnd(lines, next) == ParaEnd(lines, i + 1)
      invariant para == lines[i..next]
    {
      para := para + [lines[next]];
      next := next + 1;
    }
  }

  /** One turn of blocks(): the block that starts on line i. */
  method BlockAt(lines: seq<string>, i: nat) returns (part: seq<Token>, next: nat)
    requires i < |lines| && !Blank(lines[i])
    ensures next == OneBlock(lines, i).1 && part == RenderBlock(OneBlock(lines, i).0)
    decreases Chars(lines), 1
  {
    hide Blank, Fence, HeadingLevel, HeadingText, RuleLine, Quoted, IsTable, MarkerOf, SplitRow, SplitRows,
      Strip, JoinNl, CodeLines, Unquoted, ListBlock, ListItems, Parse, Render, Good, Balanced;
    var line := lines[i];
    if Fence(line) {
      var code, k := TakeCode(lines, i + 1);
      part, next := Wrap(Pre, Wrap(CodeTag, CodeLines(code))), k + 1;
    } else if HeadingLevel(line) > 0 {
      part, next := Wrap(H(HeadingLevel(line)), [Leaf(HeadingText(line))]), i + 1;
    } else if RuleLine(line) {
      part, next := [Hr], i + 1;
    } else if Quoted(line) {
      var quoted, k := TakeQuoted(lines, i);
      CharsSlice(lines, i, k);
      var body := Blocks(quoted);
      part, next := Wrap(Blockquote, [Nl] + body + [Nl]), k;
    } else if IsTable(lines, i) {
      part, next := ParseTable(lines, i);
    } else if MarkerOf(line).Marker? {
      part, next := ParseList(lines, i);
    } else {
      var para, k := TakePara(lines, i);
      part, next := Wrap(P, [Leaf(Strip(JoinNl(para)))]), k;
    }
  }

  lemma {:induction false} UnquotedSnoc(lines: seq<string>, line: string)
    requires Quoted(line) && forall j :: 0 <= j < |lines| ==> Quoted(lines[j])
    ensures Unquoted(lines + [line]) == Unquoted(lines) + [Unquote(line)]
  {
    if lines == [] {
      assert lines + [line] == [line] && Unquoted([line][1..]) == [];
    } else {
      assert (lines + [line])[1..] == lines[1..] + [line];
      UnquotedSnoc(lines[1..], line);
    }
  }

  /** blocks: every document, in one pass over its lines. */
  method Blocks(lines: seq<string>) returns (out: seq<Token>)
    ensures out == Render(Parse(lines))
    ensures Balanced(out) <==> Good(Parse(lines))
    decreases Chars(lines), 2
  {
    hide OneBlock, RenderBlock, Blank, Good, Balanced;
    var parts: seq<seq<Token>> := [];
    var i := 0;
    ghost var done: seq<Block> := [];
    while i < |lines|
      invariant 0 <= i <= |lines| + 1
      invariant parts == Blocked(done)
      invariant done + BlocksFrom(lines, i) == Parse(lines)
      decreases |lines| + 1 - i
    {
      if Blank(lines[i]) {
        i := i + 1;
        continue;
      }
      var part, next := BlockAt(lines, i);
      ghost var b := OneBlock(lines, i).0;
      assert done + BlocksFrom(lines, i) == (done + [b]) + BlocksFrom(lines, next);
      BlockedSnoc(done, b);
      parts := parts + [part];
      done := done + [b];
      i := next;
    }
    assert done == Parse(lines);
    JoinBlocked(done);
    out := Join(parts, Sep);
    BalancedExactly(lines);
  }
}
