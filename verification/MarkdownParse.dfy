/** The grammar blocks() and parse_list() of scripts/render-adrs.py recognise:
    how a run of lines is cut into blocks, list items and quoted bodies. */
module MarkdownParse {
  import opened MarkdownLines

  datatype Block =
    | Para(text: seq<string>)
    | Code(text: seq<string>)
    | Heading(level: nat, title: string)
    | Rule
    | Quote(body: seq<Block>)
    | Table(header: seq<string>, rows: seq<seq<string>>)
    | List(kind: Kind, items: seq<Item>)

  datatype Item = Item(blocks: seq<Block>)

  // ---------------------------------------------------------------- runs of lines

  /** The first index at or after i whose line is a fence, or the end. */
  function FenceEnd(lines: seq<string>, i: nat): (k: nat)
    requires i <= |lines|
    ensures i <= k <= |lines|
    ensures forall j :: i <= j < k ==> !Fence(lines[j])
    ensures k < |lines| ==> Fence(lines[k])
    decreases |lines| - i
  {
    if i < |lines| && !Fence(lines[i]) then FenceEnd(lines, i + 1) else i
  }

  function QuoteEnd(lines: seq<string>, i: nat): (k: nat)
    requires i <= |lines|
    ensures i <= k <= |lines|
    ensures forall j :: i <= j < k ==> Quoted(lines[j])
    ensures k < |lines| ==> !Quoted(lines[k])
    ensures i < |lines| && Quoted(lines[i]) ==> i < k
    decreases |lines| - i
  {
    if i < |lines| && Quoted(lines[i]) then QuoteEnd(lines, i + 1) else i
  }

  function RowEnd(lines: seq<string>, i: nat): (k: nat)
    requires i <= |lines|
    ensures i <= k <= |lines|
    ensures forall j :: i <= j < k ==> RowLine(lines[j])
    ensures k < |lines| ==> !RowLine(lines[k])
    decreases |lines| - i
  {
    if i < |lines| && RowLine(lines[i]) then RowEnd(lines, i + 1) else i
  }

  function ParaEnd(lines: seq<string>, i: nat): (k: nat)
    requires i <= |lines|
    ensures i <= k <= |lines|
    decreases |lines| - i
  {
    if i < |lines| && !Blank(lines[i]) && !StartsBlock(lines, i) then ParaEnd(lines, i + 1) else i
  }

  function BlankEnd(lines: seq<string>, i: nat): (k: nat)
    requires i <= |lines|
    ensures i <= k <= |lines|
    ensures forall j :: i <= j < k ==> Blank(lines[j])
    ensures k < |lines| ==> !Blank(lines[k])
    ensures i < |lines| && Blank(lines[i]) ==> i < k
    decreases |lines| - i
  {
    if i < |lines| && Blank(lines[i]) then BlankEnd(lines, i + 1) else i
  }

  function Unquoted(lines: seq<string>): (r: seq<string>)
    requires forall j :: 0 <= j < |lines| ==> Quoted(lines[j])
    ensures |r| == |lines|
    ensures Chars(r) + |lines| <= Chars(lines)
  {
    if lines == [] then [] else [Unquote(lines[0])] + Unquoted(lines[1..])
  }

  // ---------------------------------------------------------------- list items

  function Blanks(n: nat): (r: seq<string>)
    ensures |r| == n && Chars(r) == 0
    ensures forall k :: 0 <= k < n ==> r[k] == ""
  {
    if n == 0 then [] else [""] + Blanks(n - 1)
  }

  /** items[-1].extend(more) */
  function ExtendLast(items: seq<seq<string>>, more: seq<string>): (r: seq<seq<string>>)
    requires items != []
    ensures |r| == |items|
  {
    items[..|items| - 1] + [items[|items| - 1] + more]
  }

  /** One turn of parse_list's loop at line i: where it goes next and the items
      it leaves, or the end of the list. */
  datatype Turn = Stop | On(items: seq<seq<string>>, next: nat)

  function ListTurn(lines: seq<string>, i: nat, indent: nat, kind: Kind, items: seq<seq<string>>): (t: Turn)
    requires i < |lines|
    ensures t.On? ==> i < t.next <= |lines|
  {
    var line := lines[i];
    if Blank(line) then
      var j := BlankEnd(lines, i);
      if j >= |lines| then Stop
      else if !(IndentOf(lines[j]) > indent
                || (IndentOf(lines[j]) == indent && MarkerOf(lines[j]).Marker? && MarkerOf(lines[j]).kind == kind)) then Stop
      else On(if items != [] then ExtendLast(items, Blanks(j - i)) else items, j)
    else if IndentOf(line) < indent then Stop
    else if MarkerOf(line).Marker? && IndentOf(line) == indent then
      if MarkerOf(line).kind != kind then Stop
      else On(items + [[line[MarkerOf(line).end..]]], i + 1)
    else if items == [] then Stop
    else if IndentOf(line) <= indent && StartsBlock(lines, i) then Stop
    else On(ExtendLast(items, [if IndentOf(line) <= indent then LStrip(line) else line]), i + 1)
  }

  /** The items of a list and the line after it. */
  function ListScan(lines: seq<string>, i: nat, indent: nat, kind: Kind, items: seq<seq<string>>): (r: (seq<seq<string>>, nat))
    requires i <= |lines|
    ensures i <= r.1 <= |lines|
    decreases |lines| - i
  {
    if i >= |lines| then (items, i)
    else
      match ListTurn(lines, i, indent, kind, items)
      case Stop => (items, i)
      case On(items', j) => ListScan(lines, j, indent, kind, items')
  }

  function ListItems(lines: seq<string>, i: nat): (r: (seq<seq<string>>, nat))
    requires i < |lines| && MarkerOf(lines[i]).Marker?
    ensures i <= r.1 <= |lines|
  {
    ListScan(lines, i, IndentOf(lines[i]), MarkerOf(lines[i]).kind, [])
  }

  /** min(widths) over the lines of s that are not blank, or d when there are none. */
  function MinIndent(s: seq<string>, d: nat): (n: nat)
    ensures n <= d
    ensures forall k :: 0 <= k < |s| && !Blank(s[k]) ==> n <= IndentOf(s[k])
  {
    if s == [] then d
    else
      var m := MinIndent(s[1..], d);
      if !Blank(s[0]) && IndentOf(s[0]) < m then IndentOf(s[0]) else m
  }

  function MaxIndent(s: seq<string>): nat {
    if s == [] then 0 else var m := MaxIndent(s[1..]); if IndentOf(s[0]) > m then IndentOf(s[0]) else m
  }

  function CutAll(s: seq<string>, n: nat): (r: seq<string>)
    requires forall k :: 0 <= k < |s| && !Blank(s[k]) ==> n <= |s[k]|
    ensures |r| == |s| && Chars(r) <= Chars(s)
    ensures forall k :: 0 <= k < |s| ==> r[k] == (if Blank(s[k]) then "" else s[k][n..])
  {
    if s == [] then [] else [if Blank(s[0]) then "" else s[0][n..]] + CutAll(s[1..], n)
  }

  /** dedent: the item's first line as it is, the others without their common indent. */
  function Dedent(item: seq<string>): (r: seq<string>)
    requires item != []
    ensures |r| == |item| && r[0] == item[0] && Chars(r) <= Chars(item)
  {
    [item[0]] + CutAll(item[1..], MinIndent(item[1..], MaxIndent(item[1..])))
  }

  function Total(items: seq<seq<string>>): nat {
    if items == [] then 0 else Chars(items[0]) + Total(items[1..])
  }

  lemma {:induction false} TotalConcat(a: seq<seq<string>>, b: seq<seq<string>>)
    ensures Total(a + b) == Total(a) + Total(b)
  {
    if a == [] {
      assert a + b == b;
    } else {
      assert (a + b)[1..] == a[1..] + b;
      TotalConcat(a[1..], b);
    }
  }

  function Flat(items: seq<seq<string>>): seq<string> {
    if items == [] then [] else items[0] + Flat(items[1..])
  }

  lemma {:induction false} FlatConcat(a: seq<seq<string>>, b: seq<seq<string>>)
    ensures Flat(a + b) == Flat(a) + Flat(b)
  {
    if a == [] {
      assert a + b == b;
    } else {
      assert (a + b)[1..] == a[1..] + b;
      FlatConcat(a[1..], b);
    }
  }

  lemma {:induction false} FlatChars(items: seq<seq<string>>)
    ensures Chars(Flat(items)) == Total(items)
  {
    if items == [] {
    } else {
      FlatChars(items[1..]);
      CharsConcat(items[0], Flat(items[1..]));
    }
  }

  lemma FlatExtend(items: seq<seq<string>>, more: seq<string>)
    requires items != []
    ensures Flat(ExtendLast(items, more)) == Flat(items) + more
  {
    var front, last := items[..|items| - 1], items[|items| - 1];
    assert items == front + [last];
    FlatConcat(front, [last]);
    FlatConcat(front, [last + more]);
    assert Flat([last]) == last + Flat([]) == last;
    assert Flat([last + more]) == last + more + Flat([]) == last + more;
  }

  lemma FlatNew(items: seq<seq<string>>, line: string)
    ensures Flat(items + [[line]]) == Flat(items) + [line]
  {
    FlatConcat(items, [[line]]);
    assert Flat([[line]]) == [line] + Flat([]) == [line];
  }

  // ---------------------------------------------------------------- nothing lost in a list

  /** What an item keeps of a source line: all of it, all but its indent, all but
      its marker, or, of a blank line, a blank line. */
  predicate Keeps(line: string, kept: string) {
    || kept == line
    || kept == LStrip(line)
    || (Blank(line) && kept == "")
    || (MarkerOf(line).Marker? && kept == line[MarkerOf(line).end..])
  }

  ghost predicate AllKept(src: seq<string>, kept: seq<string>) {
    |src| == |kept| && forall k :: 0 <= k < |src| ==> Keeps(src[k], kept[k])
  }

  lemma KeptConcat(a: seq<string>, b: seq<string>, c: seq<string>, d: seq<string>)
    requires AllKept(a, b) && AllKept(c, d)
    ensures AllKept(a + c, b + d)
  {
    hide Keeps;
  }

  /** The items hold, in order, one line for each source line from `from` to `to`. */
  ghost predicate Covers(lines: seq<string>, from: nat, to: nat, items: seq<seq<string>>)
    requires from <= to <= |lines|
  {
    && AllKept(lines[from..to], Flat(items))
    && (forall m :: 0 <= m < |items| ==> items[m] != [])
  }

  /** At the head of the loop: an item has been opened, or the line at hand opens one. */
  predicate Opened(lines: seq<string>, i: nat, indent: nat, kind: Kind, items: seq<seq<string>>)
    requires i <= |lines|
  {
    items != [] || (i < |lines| && IndentOf(lines[i]) == indent && MarkerOf(lines[i]).Marker? && MarkerOf(lines[i]).kind == kind)
  }

  /** The lines a turn adds, and where: to the last item, or as a new one. */
  lemma TurnAdds(lines: seq<string>, i: nat, indent: nat, kind: Kind, items: seq<seq<string>>) returns (more: seq<string>)
    requires i < |lines| && Opened(lines, i, indent, kind, items)
    requires ListTurn(lines, i, indent, kind, items).On?
    ensures var t := ListTurn(lines, i, indent, kind, items);
            && t.next == i + |more|
            && t.next <= |lines| && AllKept(lines[i..t.next], more)
            && ((items != [] && t.items == ExtendLast(items, more)) || (|more| == 1 && t.items == items + [more]))
  {
    hide StartsBlock, AllKept, MarkerOf;
    var line := lines[i];
    if Blank(line) {
      BlankIsNoMarker(line);
      var j := BlankEnd(lines, i);
      more := Blanks(j - i);
      KeptBlanks(lines[i..j]);
    } else {
      assert lines[i..i + 1] == [line];
      var kept := if MarkerOf(line).Marker? && IndentOf(line) == indent then line[MarkerOf(line).end..]
                  else if IndentOf(line) <= indent then LStrip(line) else line;
      more := [kept];
      KeptOne(line, kept);
    }
  }

  lemma BlankIsNoMarker(line: string)
    requires Blank(line)
    ensures MarkerOf(line).NoMarker?
  {
  }

  lemma KeptBlanks(src: seq<string>)
    requires forall k :: 0 <= k < |src| ==> Blank(src[k])
    ensures AllKept(src, Blanks(|src|))
  {
    hide Blank, MarkerOf;
  }

  lemma KeptOne(line: string, kept: string)
    requires Keeps(line, kept)
    ensures AllKept([line], [kept])
  {
  }

  lemma TurnCovers(lines: seq<string>, from: nat, i: nat, indent: nat, kind: Kind, items: seq<seq<string>>)
    requires from <= i < |lines| && Covers(lines, from, i, items) && Opened(lines, i, indent, kind, items)
    requires ListTurn(lines, i, indent, kind, items).On?
    ensures var t := ListTurn(lines, i, indent, kind, items);
            Covers(lines, from, t.next, t.items) && t.items != []
  {
    var more := TurnAdds(lines, i, indent, kind, items);
    hide AllKept, ListTurn, Opened;
    var t := ListTurn(lines, i, indent, kind, items);
    if items != [] && t.items == ExtendLast(items, more) {
      FlatExtend(items, more);
    } else {
      FlatNew(items, more[0]);
      assert more == [more[0]];
    }
    KeptConcat(lines[from..i], Flat(items), lines[i..t.next], more);
    assert lines[from..i] + lines[i..t.next] == lines[from..t.next];
  }

  lemma {:induction false} ScanCovers(lines: seq<string>, from: nat, i: nat, indent: nat, kind: Kind, items: seq<seq<string>>)
    requires from <= i <= |lines| && Covers(lines, from, i, items) && Opened(lines, i, indent, kind, items)
    ensures var r := ListScan(lines, i, indent, kind, items);
            Covers(lines, from, r.1, r.0) && r.0 != []
    decreases |lines| - i
  {
    if i >= |lines| {
    } else {
      var t := ListTurn(lines, i, indent, kind, items);
      if t.On? {
        TurnCovers(lines, from, i, indent, kind, items);
        ScanCovers(lines, from, t.next, indent, kind, t.items);
      } else {
        assert items != [];
      }
    }
  }

  lemma {:induction false} KeepsChars(src: seq<string>, kept: seq<string>)
    requires AllKept(src, kept)
    ensures Chars(kept) <= Chars(src)
  {
    if src == [] {
    } else {
      assert Keeps(src[0], kept[0]);
      KeepsChars(src[1..], kept[1..]);
    }
  }

  /** A list takes at least the line it starts on, each of its lines goes to one
      item in order, and its items hold fewer characters than it was written in:
      the measure that makes blocks and parse_list terminate. */
  lemma ListConserves(lines: seq<string>, i: nat)
    requires i < |lines| && MarkerOf(lines[i]).Marker?
    ensures var (items, next) := ListItems(lines, i);
            && i < next <= |lines|
            && items != []
            && Covers(lines, i, next, items)
            && Total(items) < Chars(lines[i..next])
  {
    var indent, kind := IndentOf(lines[i]), MarkerOf(lines[i]).kind;
    var first := lines[i][MarkerOf(lines[i]).end..];
    assert ListTurn(lines, i, indent, kind, []) == On([] + [[first]], i + 1);
    assert [] + [[first]] == [[first]];
    TurnCovers(lines, i, i, indent, kind, []);
    var (items, next) := ListItems(lines, i);
    assert (items, next) == ListScan(lines, i + 1, indent, kind, [[first]]);
    ScanCovers(lines, i, i + 1, indent, kind, [[first]]);
    ScanKeepsFirst(lines, i + 1, indent, kind, [[first]]);
    var kept := Flat(items);
    assert kept[0] == items[0][0] == first;
    KeepsChars(lines[i..next][1..], kept[1..]);
    FlatChars(items);
  }

  /** The line an item opens with is never touched again. */
  lemma {:induction false} ScanKeepsFirst(lines: seq<string>, i: nat, indent: nat, kind: Kind, items: seq<seq<string>>)
    requires i <= |lines| && items != [] && items[0] != []
    ensures var r := ListScan(lines, i, indent, kind, items);
            r.0 != [] && r.0[0] != [] && r.0[0][0] == items[0][0]
    decreases |lines| - i
  {
    if i >= |lines| {
    } else {
      var t := ListTurn(lines, i, indent, kind, items);
      if t.On? {
        assert t.items != [] && t.items[0] != [] && t.items[0][0] == items[0][0];
        ScanKeepsFirst(lines, t.next, indent, kind, t.items);
      }
    }
  }

  // ---------------------------------------------------------------- blocks

  /** The lines of a document, cut into blocks. */
  function Parse(lines: seq<string>): seq<Block>
    decreases Chars(lines), 3
  {
    BlocksFrom(lines, 0)
  }

  function BlocksFrom(lines: seq<string>, i: nat): seq<Block>
    decreases Chars(lines), 2, |lines| - i
  {
    if i >= |lines| then []
    else if Blank(lines[i]) then BlocksFrom(lines, i + 1)
    else var (b, j) := OneBlock(lines, i); [b] + BlocksFrom(lines, j)
  }

  /** The block that starts on line i, and the line after it. An open fence at the
      end of the file leaves the index one past the end. */
  function OneBlock(lines: seq<string>, i: nat): (r: (Block, nat))
    requires i < |lines| && !Blank(lines[i])
    ensures i < r.1 <= |lines| + 1
    decreases Chars(lines), 1
  {
    var line := lines[i];
    if Fence(line) then
      var k := FenceEnd(lines, i + 1);
      (Code(lines[i + 1..k]), k + 1)
    else if HeadingLevel(line) > 0 then (Heading(HeadingLevel(line), HeadingText(line)), i + 1)
    else if RuleLine(line) then (Rule, i + 1)
    else if Quoted(line) then
      var k := QuoteEnd(lines, i);
      CharsSlice(lines, i, k);
      (Quote(Parse(Unquoted(lines[i..k]))), k)
    else if IsTable(lines, i) then
      var k := RowEnd(lines, i + 2);
      (Table(SplitRow(line), SplitRows(lines[i + 2..k])), k)
    else if MarkerOf(line).Marker? then
      ListConserves(lines, i);
      (ListBlock(lines, i), ListItems(lines, i).1)
    else
      var k := ParaEnd(lines, i + 1);
      (Para(lines[i..k]), k)
  }

  function ListBlock(lines: seq<string>, i: nat): (b: Block)
    requires i < |lines| && MarkerOf(lines[i]).Marker?
    ensures b.List? && b.kind == MarkerOf(lines[i]).kind
    decreases Chars(lines), 0
  {
    var (items, k) := ListItems(lines, i);
    ListConserves(lines, i);
    CharsSlice(lines, i, k);
    List(MarkerOf(lines[i]).kind, ParseItems(items))
  }

  function ParseItems(items: seq<seq<string>>): (r: seq<Item>)
    requires forall m :: 0 <= m < |items| ==> items[m] != []
    ensures |r| == |items|
    decreases Total(items), 4, |items|
  {
    if items == [] then [] else [Item(Parse(Dedent(items[0])))] + ParseItems(items[1..])
  }

  function SplitOn(s: string): (r: seq<string>)
    ensures r != []
    decreases |s|
  {
    var p := Skip(s, 0, NotBar);
    if p < |s| then [Strip(s[..p])] + SplitOn(s[p + 1..]) else [Strip(s)]
  }

  function SplitRow(line: string): (r: seq<string>)
    ensures r != []
  {
    var s := Strip(line);
    var t := if StartsWith(s, "|") then s[1..] else s;
    var u := if t != [] && t[|t| - 1] == '|' then t[..|t| - 1] else t;
    SplitOn(u)
  }

  function SplitRows(lines: seq<string>): seq<seq<string>> {
    if lines == [] then [] else [SplitRow(lines[0])] + SplitRows(lines[1..])
  }

  // ---------------------------------------------------------------- the cut

  /** Where each top-level block starts, and the line after it. */
  function Spans(lines: seq<string>, i: nat): seq<(nat, nat)>
    decreases |lines| - i
  {
    if i >= |lines| then []
    else if Blank(lines[i]) then Spans(lines, i + 1)
    else [(i, OneBlock(lines, i).1)] + Spans(lines, OneBlock(lines, i).1)
  }

  predicate Inside(span: (nat, nat), k: int) {
    span.0 <= k < span.1
  }

  lemma {:induction false} SpansInOrder(lines: seq<string>, i: nat)
    ensures |Spans(lines, i)| == |BlocksFrom(lines, i)|
    ensures forall m :: 0 <= m < |Spans(lines, i)| ==> i <= Spans(lines, i)[m].0 < Spans(lines, i)[m].1 <= |lines| + 1
    ensures forall m, n :: 0 <= m < n < |Spans(lines, i)| ==> Spans(lines, i)[m].1 <= Spans(lines, i)[n].0
    decreases |lines| - i
  {
    hide OneBlock, Blank;
    if i >= |lines| {
    } else if Blank(lines[i]) {
      SpansInOrder(lines, i + 1);
    } else {
      var j := OneBlock(lines, i).1;
      SpansInOrder(lines, j);
      assert Spans(lines, i) == [(i, j)] + Spans(lines, j);
    }
  }

  lemma {:induction false} SpansReach(lines: seq<string>, i: nat, k: nat)
    requires i <= k < |lines| && !Blank(lines[k])
    ensures exists m :: 0 <= m < |Spans(lines, i)| && Inside(Spans(lines, i)[m], k)
    decreases |lines| - i
  {
    hide OneBlock;
    if Blank(lines[i]) {
      assert i < k && Spans(lines, i) == Spans(lines, i + 1);
      SpansReach(lines, i + 1, k);
    } else {
      var j := OneBlock(lines, i).1;
      var rest := Spans(lines, j);
      assert Spans(lines, i) == [(i, j)] + rest;
      if k < j {
        assert Inside(Spans(lines, i)[0], k);
      } else {
        SpansReach(lines, j, k);
        var m :| 0 <= m < |rest| && Inside(rest[m], k);
        assert Spans(lines, i)[m + 1] == rest[m];
      }
    }
  }

  /** The blocks of a document are consecutive runs of its lines: one run for
      each block, in order, never overlapping, and every line that is not blank
      is in exactly one of them. */
  lemma BlocksPartition(lines: seq<string>)
    ensures var spans := Spans(lines, 0);
            && |spans| == |Parse(lines)|
            && (forall m :: 0 <= m < |spans| ==> spans[m].0 < spans[m].1 <= |lines| + 1)
            && (forall m, n :: 0 <= m < n < |spans| ==> spans[m].1 <= spans[n].0)
            && (forall k :: 0 <= k < |lines| && !Blank(lines[k]) ==>
                  exists m :: 0 <= m < |spans| && Inside(spans[m], k))
            && (forall k, m, n :: 0 <= m < |spans| && 0 <= n < |spans| && Inside(spans[m], k) && Inside(spans[n], k) ==> m == n)
  {
    SpansInOrder(lines, 0);
    forall k | 0 <= k < |lines| && !Blank(lines[k])
      ensures exists m :: 0 <= m < |Spans(lines, 0)| && Inside(Spans(lines, 0)[m], k)
    {
      SpansReach(lines, 0, k);
    }
  }
}
