/** When the tags blocks() writes are balanced, for every document. */
module MarkdownBalance {
  import opened MarkdownLines
  import opened MarkdownParse
  import opened MarkdownRender

  // ---------------------------------------------------------------- the condition

  /** A paragraph stands directly above a list somewhere in these blocks, and still
      has its tags there: the text above the list that opens an item has lost them. */
  predicate Occurs(bs: seq<Block>)
    decreases bs, 1
  {
    bs != [] && ((|bs| >= 2 && bs[0].Para? && bs[1].List?) || OccursIn(bs[0]) || Occurs(bs[1..]))
  }

  predicate OccursIn(b: Block)
    decreases b, 0
  {
    match b
    case Quote(body) => Occurs(body)
    case List(_, items) => OccursInItems(items)
    case _ => false
  }

  predicate OccursInItems(items: seq<Item>)
    decreases items, 0
  {
    items != [] && (OccursInItem(items[0]) || OccursInItems(items[1..]))
  }

  predicate OccursInItem(item: Item)
    decreases item, 2
  {
    var bs := item.blocks;
    if |bs| >= 2 && bs[0].Para? && bs[1].List? then Occurs(bs[1..]) else Occurs(bs)
  }

  /** No list item opens with a paragraph that is followed by something other than
      a list and, later in the item, holds a paragraph directly above one. */
  predicate Good(bs: seq<Block>)
    decreases bs, 1
  {
    bs == [] || (GoodBlock(bs[0]) && Good(bs[1..]))
  }

  predicate GoodBlock(b: Block)
    decreases b, 0
  {
    match b
    case Quote(body) => Good(body)
    case List(_, items) => GoodItems(items)
    case _ => true
  }

  predicate GoodItems(items: seq<Item>)
    decreases items, 0
  {
    items == [] || (GoodItem(items[0]) && GoodItems(items[1..]))
  }

  predicate GoodItem(item: Item)
    decreases item, 2
  {
    var bs := item.blocks;
    Good(bs) && (|bs| >= 2 && bs[0].Para? && !bs[1].List? ==> !Occurs(bs[1..]))
  }

  // ---------------------------------------------------------------- leaves

  lemma {:induction false} CodeNeutral(text: seq<string>, st: Stack)
    requires st.Stack?
    ensures Check(CodeLines(text), st) == st
  {
    if text == [] {
    } else {
      var line := CodeLine(text[0]);
      assert Check(line, st) == st by {
        var stripped := LStrip(text[0]);
        if StartsWith(stripped, "$ ") {
          CheckLeaf(stripped[2..], Stack([Span] + st.tags));
          CheckWrap(Span, [Leaf(stripped[2..])], st);
          CheckConcat([Leaf(text[0][..IndentOf(text[0])])], Wrap(Span, [Leaf(stripped[2..])]), st);
          CheckLeaf(text[0][..IndentOf(text[0])], st);
        } else {
          CheckLeaf(text[0], st);
        }
      }
      if |text| > 1 {
        CheckPad(line, Nl, CodeLines(text[1..]), st);
        CodeNeutral(text[1..], st);
      }
    }
  }

  lemma {:induction false} CellsNeutral(tag: Tag, row: seq<string>, st: Stack)
    requires st.Stack?
    ensures Check(Cells(tag, row), st) == st
  {
    if row == [] {
    } else {
      CheckLeaf(row[0], Stack([tag] + st.tags));
      CheckWrap(tag, [Leaf(row[0])], st);
      CheckConcat(Wrap(tag, [Leaf(row[0])]), Cells(tag, row[1..]), st);
      CellsNeutral(tag, row[1..], st);
    }
  }

  lemma RowNeutral(tag: Tag, row: seq<string>, st: Stack)
    requires st.Stack?
    ensures Check(Wrap(Tr, Cells(tag, row)), st) == st
  {
    CellsNeutral(tag, row, Stack([Tr] + st.tags));
    CheckWrap(Tr, Cells(tag, row), st);
  }

  lemma {:induction false} RowsNeutral(rows: seq<seq<string>>, st: Stack)
    requires st.Stack?
    ensures Check(Rows(rows), st) == st
  {
    if rows == [] {
    } else {
      RowNeutral(Td, rows[0], st);
      assert [] + [Nl] + Wrap(Tr, Cells(Td, rows[0])) == [Nl] + Wrap(Tr, Cells(Td, rows[0]));
      CheckPad([], Nl, Wrap(Tr, Cells(Td, rows[0])), st);
      CheckConcat([Nl] + Wrap(Tr, Cells(Td, rows[0])), Rows(rows[1..]), st);
      RowsNeutral(rows[1..], st);
    }
  }

  lemma TableNeutral(header: seq<string>, rows: seq<seq<string>>, st: Stack)
    requires st.Stack?
    ensures Check(RenderBlock(Table(header, rows)), st) == st
  {
    var up := Stack([TableTag] + st.tags);
    var head := Wrap(Tr, Cells(Th, header));
    RowNeutral(Th, header, up);
    RowsNeutral(rows, up);
    assert [] + [Nl] + head == [Nl] + head;
    CheckPad([], Nl, head, up);
    CheckConcat([Nl] + head, Rows(rows), up);
    CheckPad([Nl] + head + Rows(rows), Nl, [], up);
    assert [Nl] + head + Rows(rows) + [Nl] + [] == [Nl] + head + Rows(rows) + [Nl];
    CheckWrap(TableTag, [Nl] + head + Rows(rows) + [Nl], st);
  }

  /** Padding a body with newlines inside a tag. */
  lemma CheckBody(tag: Tag, body: seq<Token>, st: Stack)
    requires st.Stack?
    ensures Check(body, Stack([tag] + st.tags)) == Stack([tag] + st.tags) ==> Check(Wrap(tag, [Nl] + body + [Nl]), st) == st
    ensures Check(body, Stack([tag] + st.tags)) == Broken ==> Check(Wrap(tag, [Nl] + body + [Nl]), st) == Broken
  {
    var up := Stack([tag] + st.tags);
    assert [] + [Nl] + body == [Nl] + body;
    CheckPad([], Nl, body, up);
    assert [Nl] + body + [Nl] + [] == [Nl] + body + [Nl];
    CheckPad([Nl] + body, Nl, [], up);
    CheckWrap(tag, [Nl] + body + [Nl], st);
  }

  // ---------------------------------------------------------------- gaps

  ghost predicate HasGap(ts: seq<Token>) {
    exists k :: 0 <= k < |ts| && Gap(ts, k)
  }

  predicate OpensList(ts: seq<Token>) {
    ts != [] && ts[0].Open? && ts[0].tag.ListTag?
  }

  predicate EndsPara(ts: seq<Token>) {
    ts != [] && ts[|ts| - 1] == Close(P)
  }

  /** A gap in a + [t] + b is in a, in b, or made by the three meeting. */
  lemma GapAcross(a: seq<Token>, t: Token, b: seq<Token>)
    requires !t.Close? && !(t.Open? && t.tag.ListTag?)
    ensures HasGap(a + [t] + b) <==> HasGap(a) || HasGap(b) || (t == Sep && EndsPara(a) && OpensList(b))
  {
    var ts := a + [t] + b;
    if HasGap(ts) {
      var k :| 0 <= k < |ts| && Gap(ts, k);
      if k + 2 < |a| {
        assert Gap(a, k);
      } else if k > |a| {
        assert Gap(b, k - |a| - 1);
      }
    }
    if HasGap(a) {
      var k :| 0 <= k < |a| && Gap(a, k);
      assert Gap(ts, k);
    }
    if HasGap(b) {
      var k :| 0 <= k < |b| && Gap(b, k);
      assert Gap(ts, k + |a| + 1);
    }
    if t == Sep && EndsPara(a) && OpensList(b) {
      assert Gap(ts, |a| - 1);
    }
  }

  lemma GapWrap(tag: Tag, inner: seq<Token>)
    ensures HasGap(Wrap(tag, inner)) <==> HasGap(inner)
  {
    var ts := Wrap(tag, inner);
    if HasGap(ts) {
      var k :| 0 <= k < |ts| && Gap(ts, k);
      assert Gap(inner, k - 1);
    }
    if HasGap(inner) {
      var k :| 0 <= k < |inner| && Gap(inner, k);
      assert Gap(ts, k + 1);
    }
  }

  lemma GapBody(tag: Tag, body: seq<Token>)
    ensures HasGap(Wrap(tag, [Nl] + body + [Nl])) <==> HasGap(body)
  {
    GapWrap(tag, [Nl] + body + [Nl]);
    assert [] + [Nl] + body == [Nl] + body;
    GapAcross([], Nl, body);
    assert [Nl] + body + [Nl] + [] == [Nl] + body + [Nl];
    GapAcross([Nl] + body, Nl, []);
  }

  /** Tags that are not paragraphs make no gap. */
  lemma NoParaNoGap(ts: seq<Token>)
    requires forall k :: 0 <= k < |ts| ==> ts[k] != Close(P)
    ensures !HasGap(ts)
  {
  }

  lemma {:induction false} CodePlain(text: seq<string>)
    ensures forall k :: 0 <= k < |CodeLines(text)| ==> CodeLines(text)[k] != Close(P)
  {
    if |text| <= 1 {
    } else {
      CodePlain(text[1..]);
    }
  }

  lemma {:induction false} CellsPlain(tag: Tag, row: seq<string>)
    requires tag != P
    ensures forall k :: 0 <= k < |Cells(tag, row)| ==> Cells(tag, row)[k] != Close(P)
  {
    if row == [] {
    } else {
      CellsPlain(tag, row[1..]);
    }
  }

  lemma {:induction false} RowsPlain(rows: seq<seq<string>>)
    ensures forall k :: 0 <= k < |Rows(rows)| ==> Rows(rows)[k] != Close(P)
  {
    if rows == [] {
    } else {
      RowsPlain(rows[1..]);
      CellsPlain(Td, rows[0]);
    }
  }

  /** How a block begins and ends. */
  lemma BlockEnds(b: Block)
    ensures var ts := RenderBlock(b); ts != [] && (EndsPara(ts) <==> b.Para?) && (OpensList(ts) <==> b.List?) && (ts[0] == Open(P) <==> b.Para?)
  {
  }

  lemma RenderOpens(bs: seq<Block>)
    requires bs != []
    ensures Render(bs) != [] && Render(bs)[0] == RenderBlock(bs[0])[0]
  {
    BlockEnds(bs[0]);
  }

  lemma PlainBlockGaps(b: Block)
    requires !b.Quote? && !b.List?
    ensures !HasGap(RenderBlock(b))
  {
    match b {
      case Para(text) =>
      case Code(text) =>
        CodePlain(text);
        NoParaNoGap(RenderBlock(b));
      case Heading(l, t) => NoParaNoGap(RenderBlock(b));
      case Rule => NoParaNoGap(RenderBlock(b));
      case Table(header, rows) =>
        CellsPlain(Th, header);
        RowsPlain(rows);
        NoParaNoGap(RenderBlock(b));
    }
  }

  // ---------------------------------------------------------------- what tightening does

  /** A paragraph and then more blocks, as tags. */
  lemma ParaFirst(bs: seq<Block>) returns (x: string)
    requires bs != [] && bs[0].Para?
    ensures RenderBlock(bs[0]) == [Open(P), Leaf(x), Close(P)]
    ensures |bs| == 1 ==> Render(bs) == [Open(P), Leaf(x), Close(P)]
    ensures |bs| > 1 ==> Render(bs) == [Open(P), Leaf(x), Close(P), Sep] + Render(bs[1..])
  {
    x := Strip(JoinNl(bs[0].text));
  }

  lemma TightAlone(bs: seq<Block>)
    requires bs == [] || !bs[0].Para?
    ensures Tight(Render(bs)) == Render(bs)
  {
    if bs != [] {
      RenderOpens(bs);
      BlockEnds(bs[0]);
    }
  }

  lemma TightOne(bs: seq<Block>)
    requires |bs| == 1 && bs[0].Para?
    ensures exists x :: Tight(Render(bs)) == [Leaf(x)]
  {
    var x := ParaFirst(bs);
    var ts := Render(bs);
    assert ts[1..|ts| - 1] == [Leaf(x)];
  }

  lemma TightAboveList(bs: seq<Block>)
    requires |bs| >= 2 && bs[0].Para? && bs[1].List?
    ensures exists x :: Tight(Render(bs)) == [Leaf(x)] + [Nl] + Render(bs[1..])
  {
    var x := ParaFirst(bs);
    RenderOpens(bs[1..]);
    BlockEnds(bs[1]);
    TightGapFirst(x, Render(bs[1..]));
  }

  /** The first gap is right behind the paragraph, and both its tags go. */
  lemma TightGapFirst(x: string, rest: seq<Token>)
    requires OpensList(rest)
    ensures Tight([Open(P), Leaf(x), Close(P), Sep] + rest) == [Leaf(x)] + [Nl] + rest
  {
    var ts := [Open(P), Leaf(x), Close(P), Sep] + rest;
    assert ts[1..|ts| - 1][1] == Close(P);
    assert !Gap(ts, 1) && Gap(ts, 2);
    assert FirstGap(ts, 1) == 2;
    assert ts[1..2] == [Leaf(x)] && ts[4..] == rest;
  }

  lemma GapsAfterPara(x: string, rest: seq<Token>, k: nat)
    requires rest != [] && !OpensList(rest)
    ensures var ts := [Open(P), Leaf(x), Close(P), Sep] + rest;
            (k < 4 ==> !Gap(ts, k)) && (Gap(ts, k + 4) <==> Gap(rest, k))
  {
  }

  /** The lazy search: with a gap further on, the first paragraph loses its opening
      tag and keeps its closing one. */
  lemma TightAfterPara(x: string, rest: seq<Token>)
    requires rest != [] && !OpensList(rest)
    ensures var ts := [Open(P), Leaf(x), Close(P), Sep] + rest;
            if HasGap(rest) then exists more :: Tight(ts) == [Leaf(x), Close(P)] + more else Tight(ts) == ts
  {
    var ts := [Open(P), Leaf(x), Close(P), Sep] + rest;
    assert ts[1..|ts| - 1][1] == Close(P);
    var g := FirstGap(ts, 1);
    if HasGap(rest) {
      var k :| 0 <= k < |rest| && Gap(rest, k);
      GapsAfterPara(x, rest, k);
      assert g < |ts|;
      GapsAfterPara(x, rest, g);
      var t := Tight(ts);
      assert t == ts[1..g] + [Nl] + ts[g + 2..];
      assert t == [Leaf(x), Close(P)] + t[2..];
    } else if g < |ts| {
      GapsAfterPara(x, rest, g);
      GapsAfterPara(x, rest, g - 4);
    }
  }

  lemma TightPastOther(bs: seq<Block>)
    requires |bs| >= 2 && bs[0].Para? && !bs[1].List?
    ensures HasGap(Render(bs[1..])) ==>
              exists x, more :: Tight(Render(bs)) == [Leaf(x), Close(P)] + more
    ensures !HasGap(Render(bs[1..])) ==> Tight(Render(bs)) == Render(bs)
  {
    var x := ParaFirst(bs);
    RenderOpens(bs[1..]);
    BlockEnds(bs[1]);
    TightAfterPara(x, Render(bs[1..]));
  }

  // ---------------------------------------------------------------- gaps of a good document

  lemma {:induction false} RenderGaps(bs: seq<Block>)
    requires Good(bs)
    ensures HasGap(Render(bs)) <==> Occurs(bs)
    decreases bs, 1
  {
    if bs == [] {
    } else {
      BlockGaps(bs[0]);
      if |bs| > 1 {
        RenderGaps(bs[1..]);
        BlockEnds(bs[0]);
        BlockEnds(bs[1]);
        RenderOpens(bs[1..]);
        GapAcross(RenderBlock(bs[0]), Sep, Render(bs[1..]));
      }
    }
  }

  lemma {:induction false} BlockGaps(b: Block)
    requires GoodBlock(b)
    ensures HasGap(RenderBlock(b)) <==> OccursIn(b)
    decreases b, 0
  {
    match b {
      case Quote(body) =>
        RenderGaps(body);
        GapBody(Blockquote, Render(body));
      case List(kind, items) =>
        ItemsGaps(items);
        GapBody(ListTag(kind), RenderItems(items));
      case _ => PlainBlockGaps(b);
    }
  }

  lemma {:induction false} ItemsGaps(items: seq<Item>)
    requires GoodItems(items)
    ensures HasGap(RenderItems(items)) <==> OccursInItems(items)
    decreases items, 0
  {
    if items == [] {
    } else {
      ItemGaps(items[0]);
      if |items| > 1 {
        ItemsGaps(items[1..]);
        GapAcross(RenderItem(items[0]), Nl, RenderItems(items[1..]));
      }
    }
  }

  lemma {:induction false} ItemGaps(item: Item)
    requires GoodItem(item)
    ensures HasGap(RenderItem(item)) <==> OccursInItem(item)
    decreases item, 2
  {
    var bs := item.blocks;
    GapWrap(Li, Tight(Render(bs)));
    RenderGaps(bs);
    if bs == [] || !bs[0].Para? {
      TightAlone(bs);
    } else if |bs| == 1 {
      TightOne(bs);
    } else {
      RenderGaps(bs[1..]);
      if bs[1].List? {
        TightAboveList(bs);
        var x :| Tight(Render(bs)) == [Leaf(x)] + [Nl] + Render(bs[1..]);
        GapAcross([Leaf(x)], Nl, Render(bs[1..]));
      } else {
        TightPastOther(bs);
      }
    }
  }

  // ---------------------------------------------------------------- the theorem

  lemma {:induction false} RenderChecks(bs: seq<Block>, st: Stack)
    requires st.Stack?
    ensures Check(Render(bs), st) == (if Good(bs) then st else Broken)
    decreases bs, 1
  {
    if bs == [] {
    } else {
      BlockChecks(bs[0], st);
      if |bs| > 1 {
        RenderChecks(bs[1..], st);
        CheckPad(RenderBlock(bs[0]), Sep, Render(bs[1..]), st);
        CheckBroken(Render(bs[1..]));
      }
    }
  }

  lemma {:induction false} BlockChecks(b: Block, st: Stack)
    requires st.Stack?
    ensures Check(RenderBlock(b), st) == (if GoodBlock(b) then st else Broken)
    decreases b, 0
  {
    match b {
      case Para(text) =>
        CheckLeaf(Strip(JoinNl(text)), Stack([P] + st.tags));
        CheckWrap(P, [Leaf(Strip(JoinNl(text)))], st);
      case Code(text) =>
        var up := Stack([Pre] + st.tags);
        CodeNeutral(text, Stack([CodeTag] + up.tags));
        CheckWrap(CodeTag, CodeLines(text), up);
        CheckWrap(Pre, Wrap(CodeTag, CodeLines(text)), st);
      case Heading(level, title) =>
        CheckLeaf(title, Stack([H(level)] + st.tags));
        CheckWrap(H(level), [Leaf(title)], st);
      case Rule => CheckOne(Hr, st);
      case Quote(body) =>
        RenderChecks(body, Stack([Blockquote] + st.tags));
        CheckBody(Blockquote, Render(body), st);
      case Table(header, rows) => TableNeutral(header, rows, st);
      case List(kind, items) =>
        ItemsCheck(items, Stack([ListTag(kind)] + st.tags));
        CheckBody(ListTag(kind), RenderItems(items), st);
    }
  }

  lemma {:induction false} ItemsCheck(items: seq<Item>, st: Stack)
    requires st.Stack?
    ensures Check(RenderItems(items), st) == (if GoodItems(items) then st else Broken)
    decreases items, 0
  {
    if items == [] {
    } else {
      ItemChecks(items[0], st);
      if |items| > 1 {
        ItemsCheck(items[1..], st);
        CheckPad(RenderItem(items[0]), Nl, RenderItems(items[1..]), st);
        CheckBroken(RenderItems(items[1..]));
      }
    }
  }

  /** A closing </p> with only the item open breaks the nesting. */
  lemma StrayClose(x: string, more: seq<Token>, st: Stack)
    requires st.Stack?
    ensures Check([Leaf(x), Close(P)] + more, Stack([Li] + st.tags)) == Broken
  {
    var up := Stack([Li] + st.tags);
    assert [Leaf(x), Close(P)] == [Leaf(x)] + [Close(P)];
    CheckConcat([Leaf(x), Close(P)], more, up);
    CheckConcat([Leaf(x)], [Close(P)], up);
    CheckLeaf(x, up);
    CheckOne(Close(P), up);
    CheckBroken(more);
  }

  lemma {:induction false} ItemChecks(item: Item, st: Stack)
    requires st.Stack?
    ensures Check(RenderItem(item), st) == (if GoodItem(item) then st else Broken)
    decreases item, 2
  {
    var bs := item.blocks;
    var up := Stack([Li] + st.tags);
    CheckWrap(Li, Tight(Render(bs)), st);
    if bs == [] || !bs[0].Para? {
      TightAlone(bs);
      RenderChecks(bs, up);
    } else if |bs| == 1 {
      TightOne(bs);
      var x :| Tight(Render(bs)) == [Leaf(x)];
      CheckLeaf(x, up);
      assert GoodBlock(bs[0]) && Good(bs[1..]);
    } else if bs[1].List? {
      TightAboveList(bs);
      var x :| Tight(Render(bs)) == [Leaf(x)] + [Nl] + Render(bs[1..]);
      CheckPad([Leaf(x)], Nl, Render(bs[1..]), up);
      CheckLeaf(x, up);
      RenderChecks(bs[1..], up);
      assert Good(bs) <==> Good(bs[1..]);
    } else {
      TightPastOther(bs);
      if HasGap(Render(bs[1..])) {
        var x, more :| Tight(Render(bs)) == [Leaf(x), Close(P)] + more;
        StrayClose(x, more, st);
        if Good(bs[1..]) {
          RenderGaps(bs[1..]);
        }
      } else {
        RenderChecks(bs, up);
        if Good(bs[1..]) {
          RenderGaps(bs[1..]);
        }
      }
    }
  }

  /** For every document, the tags blocks() writes are balanced exactly when no
      list item opens with a paragraph that is followed by something other than a
      list and holds, further in, a paragraph directly above a list. */
  lemma BalancedExactly(lines: seq<string>)
    ensures Balanced(Render(Parse(lines))) <==> Good(Parse(lines))
  {
    RenderChecks(Parse(lines), Stack([]));
  }

  // ---------------------------------------------------------------- a document that is not

  /** A bullet whose text runs to a second paragraph with a nested list under it. */
  const Bad := ["- a", "", "  b", "  - c"]

  lemma BadTurns()
    ensures MarkerOf(Bad[0]) == Marker(Ul, 2) && IndentOf(Bad[0]) == 0
    ensures ListTurn(Bad, 0, 0, Ul, []) == On([["a"]], 1)
    ensures ListTurn(Bad, 1, 0, Ul, [["a"]]) == On([["a", ""]], 2)
  {
    assert MarkerOf("- a") == Marker(Ul, 2) && IndentOf("- a") == 0;
    assert !Blank("- a") && Blank("") && !Blank("  b") && IndentOf("  b") == 2;
    assert BlankEnd(Bad, 1) == 2;
    assert Blanks(1) == [""] && ["a"] + [""] == ["a", ""];
    assert ExtendLast([["a"]], [""]) == [["a", ""]];
  }

  lemma BadLines()
    ensures ListTurn(Bad, 2, 0, Ul, [["a", ""]]) == On([["a", "", "  b"]], 3)
    ensures ListTurn(Bad, 3, 0, Ul, [["a", "", "  b"]]) == On([["a", "", "  b", "  - c"]], 4)
  {
    assert !Blank("  b") && !Blank("  - c") && IndentOf("  b") == 2 && IndentOf("  - c") == 2;
    assert ["a", ""] + ["  b"] == ["a", "", "  b"];
    assert ["a", "", "  b"] + ["  - c"] == ["a", "", "  b", "  - c"];
    assert ExtendLast([["a", ""]], ["  b"]) == [["a", "", "  b"]];
    assert ExtendLast([["a", "", "  b"]], ["  - c"]) == [["a", "", "  b", "  - c"]];
  }

  lemma BadItem()
    ensures ListItems(Bad, 0) == ([["a", "", "  b", "  - c"]], 4)
  {
    BadTurns();
    BadLines();
    hide ListTurn, MarkerOf, IndentOf;
    var all := [["a", "", "  b", "  - c"]];
    assert ListScan(Bad, 4, 0, Ul, all) == (all, 4);
    assert ListScan(Bad, 3, 0, Ul, [["a", "", "  b"]]) == (all, 4);
    assert ListScan(Bad, 2, 0, Ul, [["a", ""]]) == (all, 4);
    assert ListScan(Bad, 1, 0, Ul, [["a"]]) == (all, 4);
  }

  lemma BadIndents()
    ensures IndentOf("  b") == 2 && IndentOf("  - c") == 2 && IndentOf("") == 0
    ensures !Blank("  b") && !Blank("  - c") && Blank("")
  {
  }

  lemma BadDedented()
    ensures Dedent(["a", "", "  b", "  - c"]) == ["a", "", "b", "- c"]
  {
    var item := ["a", "", "  b", "  - c"];
    var rest := ["", "  b", "  - c"];
    assert item[1..] == rest;
    BadIndents();
    hide IndentOf, Blank;
    assert rest[1..] == ["  b", "  - c"] && rest[1..][1..] == ["  - c"] && rest[1..][1..][1..] == [];
    assert MinIndent(rest, MaxIndent(rest)) == 2;
    assert CutAll(rest, 2) == ["", "b", "- c"];
  }

  predicate Ordinary(s: string) {
    !Blank(s) && !Fence(s) && HeadingLevel(s) == 0 && !RuleLine(s) && !Quoted(s) && !RowLine(s)
  }

  lemma OrdinaryLetter(c: char)
    requires c == 'a' || c == 'b'
    ensures Ordinary([c]) && MarkerOf([c]) == NoMarker
  {
    assert IndentOf([c]) == 0 && LStrip([c]) == [c] && Strip([c]) == [c];
  }

  lemma OrdinaryBullet(c: char)
    requires c == 'a' || c == 'c'
    ensures Ordinary(['-', ' ', c]) && MarkerOf(['-', ' ', c]) == Marker(Ul, 2)
  {
    var s := ['-', ' ', c];
    assert IndentOf(s) == 0 && LStrip(s) == s && Strip(s) == s;
    assert Skip(s, 0, Digit) == 0;
    assert Skip(s, 1, Space) == Skip(s, 2, Space) == 2;
  }

  lemma OneOrdinary(lines: seq<string>, i: nat)
    requires i < |lines| && Ordinary(lines[i])
    ensures MarkerOf(lines[i]).NoMarker? ==> OneBlock(lines, i).0.Para? && OneBlock(lines, i).1 == ParaEnd(lines, i + 1)
    ensures MarkerOf(lines[i]).Marker? ==> OneBlock(lines, i) == (ListBlock(lines, i), ListItems(lines, i).1)
  {
    hide Blank, Fence, HeadingLevel, RuleLine, Quoted, RowLine, MarkerOf, Align, ListItems, ListBlock;
  }

  const BadText := ["a", "", "b", "- c"]

  lemma BadTextEnds()
    requires Ordinary(BadText[3]) && MarkerOf(BadText[3]) == Marker(Ul, 2)
    ensures ParaEnd(BadText, 1) == 1 && ParaEnd(BadText, 3) == 3 && ListItems(BadText, 3).1 == 4
  {
    ListConserves(BadText, 3);
    hide Fence, HeadingLevel, RuleLine, Quoted, RowLine, MarkerOf, ListItems;
    assert Blank(BadText[1]) && StartsBlock(BadText, 3);
  }

  lemma BadTextBlocks()
    ensures !Blank(BadText[0]) && Blank(BadText[1]) && !Blank(BadText[2]) && !Blank(BadText[3])
    ensures OneBlock(BadText, 0).0.Para? && OneBlock(BadText, 0).1 == 1
    ensures OneBlock(BadText, 2).0.Para? && OneBlock(BadText, 2).1 == 3
    ensures OneBlock(BadText, 3).0.List? && OneBlock(BadText, 3).1 == 4
  {
    OrdinaryLetter('a');
    OrdinaryLetter('b');
    OrdinaryBullet('c');
    BadTextEnds();
    OneOrdinary(BadText, 0);
    OneOrdinary(BadText, 2);
    OneOrdinary(BadText, 3);
    hide OneBlock, Fence, HeadingLevel, RuleLine, Quoted, RowLine, MarkerOf, Align, ListItems, ParaEnd;
  }

  lemma BadItemBlocks() returns (x: Block, y: Block, z: Block)
    ensures Parse(BadText) == [x, y, z] && x.Para? && y.Para? && z.List?
  {
    BadTextBlocks();
    hide OneBlock, Blank;
    x, y, z := OneBlock(BadText, 0).0, OneBlock(BadText, 2).0, OneBlock(BadText, 3).0;
    assert BlocksFrom(BadText, 4) == [];
    assert BlocksFrom(BadText, 3) == [z];
    assert BlocksFrom(BadText, 2) == [y, z];
    assert BlocksFrom(BadText, 1) == [y, z];
    assert BlocksFrom(BadText, 0) == [x, y, z];
  }

  lemma BadItemParses() returns (x: Block, y: Block, z: Block)
    ensures ParseItems([["a", "", "  b", "  - c"]]) == [Item([x, y, z])] && x.Para? && y.Para? && z.List?
  {
    BadDedented();
    x, y, z := BadItemBlocks();
    hide Parse, BlocksFrom, Dedent;
    assert Dedent(["a", "", "  b", "  - c"]) == BadText;
    var items := [["a", "", "  b", "  - c"]];
    assert items[1..] == [] && ParseItems(items[1..]) == [];
  }

  lemma BadParses() returns (x: Block, y: Block, z: Block)
    ensures Parse(Bad) == [List(Ul, [Item([x, y, z])])] && x.Para? && y.Para? && z.List?
  {
    BadItem();
    OrdinaryBullet('a');
    OneOrdinary(Bad, 0);
    x, y, z := BadItemParses();
    hide OneBlock, Fence, HeadingLevel, RuleLine, Quoted, RowLine, MarkerOf, Align, ListItems, ParseItems;
    assert BlocksFrom(Bad, 4) == [];
  }

  lemma BadTree(x: Block, y: Block, z: Block)
    requires x.Para? && y.Para? && z.List?
    ensures !Good([List(Ul, [Item([x, y, z])])])
  {
    assert [x, y, z][1..] == [y, z] && Occurs([y, z]);
    assert !GoodItem(Item([x, y, z]));
    assert !GoodBlock(List(Ul, [Item([x, y, z])]));
  }

  /** The tags written for it do not nest. */
  lemma BadIsUnbalanced()
    ensures !Balanced(Render(Parse(Bad)))
  {
    hide *;
    var x, y, z := BadParses();
    BadTree(x, y, z);
    BalancedExactly(Bad);
  }
}
