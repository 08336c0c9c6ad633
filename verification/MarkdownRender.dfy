/** The HTML blocks() and parse_list() of scripts/render-adrs.py write, as tags.
    A Leaf is text that went through html.escape or inline(), so it holds no tag
    of its own that is not closed inside it. */
module MarkdownRender {
  import opened MarkdownLines
  import opened MarkdownParse

  datatype Tag = P | Pre | CodeTag | Span | H(level: nat) | Blockquote | TableTag | Tr | Th | Td | ListTag(kind: Kind) | Li

  /** Nl is "\n" and Sep is the "\n\n" between two blocks. */
  datatype Token = Open(tag: Tag) | Close(tag: Tag) | Hr | Leaf(text: string) | Nl | Sep

  // ---------------------------------------------------------------- rendering

  function Wrap(tag: Tag, inner: seq<Token>): seq<Token> {
    [Open(tag)] + inner + [Close(tag)]
  }

  /** A shell prompt becomes a span without the "$ ". */
  function CodeLine(c: string): seq<Token> {
    var stripped := LStrip(c);
    if StartsWith(stripped, "$ ") then [Leaf(c[..IndentOf(c)])] + Wrap(Span, [Leaf(stripped[2..])]) else [Leaf(c)]
  }

  function CodeLines(text: seq<string>): seq<Token> {
    if text == [] then []
    else if |text| == 1 then CodeLine(text[0])
    else CodeLine(text[0]) + [Nl] + CodeLines(text[1..])
  }

  function Cells(tag: Tag, row: seq<string>): seq<Token> {
    if row == [] then [] else Wrap(tag, [Leaf(row[0])]) + Cells(tag, row[1..])
  }

  function Rows(rows: seq<seq<string>>): seq<Token> {
    if rows == [] then [] else [Nl] + Wrap(Tr, Cells(Td, rows[0])) + Rows(rows[1..])
  }

  function JoinNl(lines: seq<string>): string {
    if lines == [] then "" else if |lines| == 1 then lines[0] else lines[0] + "\n" + JoinNl(lines[1..])
  }

  /** "\n\n".join over the blocks. */
  function Render(bs: seq<Block>): seq<Token>
    decreases bs, 1
  {
    if bs == [] then []
    else if |bs| == 1 then RenderBlock(bs[0])
    else RenderBlock(bs[0]) + [Sep] + Render(bs[1..])
  }

  function RenderBlock(b: Block): seq<Token>
    decreases b, 0
  {
    match b
    case Para(text) => Wrap(P, [Leaf(Strip(JoinNl(text)))])
    case Code(text) => Wrap(Pre, Wrap(CodeTag, CodeLines(text)))
    case Heading(level, title) => Wrap(H(level), [Leaf(title)])
    case Rule => [Hr]
    case Quote(body) => Wrap(Blockquote, [Nl] + Render(body) + [Nl])
    case Table(header, rows) => Wrap(TableTag, [Nl] + Wrap(Tr, Cells(Th, header)) + Rows(rows) + [Nl])
    case List(kind, items) => Wrap(ListTag(kind), [Nl] + RenderItems(items) + [Nl])
  }

  function RenderItems(items: seq<Item>): seq<Token>
    decreases items, 0
  {
    if items == [] then []
    else if |items| == 1 then RenderItem(items[0])
    else RenderItem(items[0]) + [Nl] + RenderItems(items[1..])
  }

  function RenderItem(item: Item): seq<Token>
    decreases item, 2
  {
    Wrap(Li, Tight(Render(item.blocks)))
  }

  // ---------------------------------------------------------------- tight items

  /** "</p>", "\n\n", then a list: what the substitution at line 305 looks for. */
  predicate Gap(ts: seq<Token>, k: nat) {
    k + 2 < |ts| && ts[k] == Close(P) && ts[k + 1] == Sep && ts[k + 2].Open? && ts[k + 2].tag.ListTag?
  }

  /** The first gap at or after k, or |ts|. */
  function FirstGap(ts: seq<Token>, k: nat): (g: nat)
    requires k <= |ts|
    ensures k <= g <= |ts|
    ensures forall j :: k <= j < g ==> !Gap(ts, j)
    ensures g < |ts| ==> Gap(ts, g)
    decreases |ts| - k
  {
    if k < |ts| && !Gap(ts, k) then FirstGap(ts, k + 1) else k
  }

  /** re.fullmatch: one paragraph and nothing else. */
  predicate OnePara(ts: seq<Token>) {
    && |ts| >= 2 && ts[0] == Open(P) && ts[|ts| - 1] == Close(P)
    && Close(P) !in ts[1..|ts| - 1]
  }

  /** Only an item that holds several blocks keeps its <p>: one paragraph is just
      its text, and the text above a list loses its tags. The search for the list
      is lazy and may run past the first paragraph (lines 301-306). */
  function Tight(ts: seq<Token>): seq<Token> {
    if OnePara(ts) then ts[1..|ts| - 1]
    else if ts != [] && ts[0] == Open(P) && FirstGap(ts, 1) < |ts| then
      var g := FirstGap(ts, 1);
      ts[1..g] + [Nl] + ts[g + 2..]
    else ts
  }

  // ---------------------------------------------------------------- balance

  datatype Stack = Broken | Stack(tags: seq<Tag>)

  function Push(t: Token, st: Stack): Stack {
    match st
    case Broken => Broken
    case Stack(tags) =>
      match t
      case Open(tag) => Stack([tag] + tags)
      case Close(tag) => if tags != [] && tags[0] == tag then Stack(tags[1..]) else Broken
      case _ => st
  }

  /** The open tags after ts, innermost first, or Broken at the first close that
      does not match. */
  function Check(ts: seq<Token>, st: Stack): Stack {
    if ts == [] then st else Check(ts[1..], Push(ts[0], st))
  }

  predicate Balanced(ts: seq<Token>) {
    Check(ts, Stack([])) == Stack([])
  }

  lemma {:induction false} CheckConcat(a: seq<Token>, b: seq<Token>, st: Stack)
    ensures Check(a + b, st) == Check(b, Check(a, st))
  {
    if a == [] {
      assert a + b == b;
    } else {
      assert (a + b)[1..] == a[1..] + b;
      CheckConcat(a[1..], b, Push(a[0], st));
    }
  }

  lemma {:induction false} CheckBroken(ts: seq<Token>)
    ensures Check(ts, Broken) == Broken
  {
    if ts == [] {
    } else {
      CheckBroken(ts[1..]);
    }
  }

  lemma CheckOne(t: Token, st: Stack)
    ensures Check([t], st) == Push(t, st)
  {
    assert Check([t], st) == Check([t][1..], Push(t, st));
  }

  /** An inner part that leaves the stack alone is left alone wrapped in a tag;
      one that breaks it breaks it. */
  lemma CheckWrap(tag: Tag, inner: seq<Token>, st: Stack)
    requires st.Stack?
    ensures Check(inner, Stack([tag] + st.tags)) == Stack([tag] + st.tags) ==> Check(Wrap(tag, inner), st) == st
    ensures Check(inner, Stack([tag] + st.tags)) == Broken ==> Check(Wrap(tag, inner), st) == Broken
  {
    var up := Stack([tag] + st.tags);
    CheckConcat([Open(tag)] + inner, [Close(tag)], st);
    CheckConcat([Open(tag)], inner, st);
    CheckOne(Open(tag), st);
    CheckOne(Close(tag), Check(inner, up));
  }

  /** Newlines around and between do nothing. */
  lemma CheckPad(a: seq<Token>, t: Token, b: seq<Token>, st: Stack)
    requires !t.Open? && !t.Close?
    ensures Check(a + [t] + b, st) == Check(b, Check(a, st))
  {
    CheckConcat(a + [t], b, st);
    CheckConcat(a, [t], st);
    CheckOne(t, Check(a, st));
  }

  lemma CheckLeaf(s: string, st: Stack)
    ensures Check([Leaf(s)], st) == st
  {
    CheckOne(Leaf(s), st);
  }
}
