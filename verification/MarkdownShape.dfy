/** How the blocks are shaped: which block a line begins, where a list's items begin and
    the list ends, what an item's lines lose, and where a row's cells are
    (scripts/render-adrs.py:149-399). */
module MarkdownShape {
  import opened MarkdownLines
  import opened MarkdownParse
  import opened MarkdownRender

  // ---------------------------------------------------------------- kinds of block

  /** Which block begins on a line: the first of these that the line is. */
  lemma KindOfBlock(lines: seq<string>, i: nat)
    requires i < |lines| && !Blank(lines[i])
    ensures var b, line := OneBlock(lines, i).0, lines[i];
            && (b.Code? <==> Fence(line))
            && (b.Heading? <==> !b.Code? && HeadingLevel(line) > 0)
            && (b.Rule? <==> !b.Code? && !b.Heading? && RuleLine(line))
            && (b.Quote? <==> !b.Code? && !b.Heading? && !b.Rule? && Quoted(line))
            && (b.Table? <==> !b.Code? && !b.Heading? && !b.Rule? && !b.Quote? && IsTable(lines, i))
            && (b.List? <==> !b.Code? && !b.Heading? && !b.Rule? && !b.Quote? && !b.Table? && MarkerOf(line).Marker?)
  {
    hide Blank, Fence, HeadingLevel, RuleLine, Quoted, RowLine, MarkerOf, Align, ListItems, ListBlock, StartsBlock;
  }

  /** A paragraph ends where a line, read by itself there, would begin another block. */
  lemma StartsBlockExact(lines: seq<string>, i: nat)
    requires i < |lines| && !Blank(lines[i])
    ensures StartsBlock(lines, i) <==> !OneBlock(lines, i).0.Para?
  {
    hide Blank, Fence, HeadingLevel, RuleLine, Quoted, RowLine, MarkerOf, Align, ListItems, ListBlock;
  }

  /** n number signs and then space: a heading of the n-th level, one to four. */
  lemma HeadingExact(s: string, n: nat)
    requires n > 0
    ensures HeadingLevel(s) == n <==> n <= 4 && n < |s| && Space(s[n]) && forall k :: 0 <= k < n ==> s[k] == '#'
  {
    var k := Skip(s, 0, Is('#'));
    if n <= 4 && n < |s| && Space(s[n]) && forall k :: 0 <= k < n ==> s[k] == '#' {
      assert s[n] != '#';
    }
  }

  /** A heading of the n-th level is written with the n-th heading tag. */
  lemma HeadingTag(lines: seq<string>, i: nat, n: nat)
    requires i < |lines| && !Blank(lines[i]) && !Fence(lines[i]) && 0 < n <= 4 && n < |lines[i]|
    requires Space(lines[i][n]) && forall k :: 0 <= k < n ==> lines[i][k] == '#'
    ensures OneBlock(lines, i).1 == i + 1
    ensures RenderBlock(OneBlock(lines, i).0) == [Open(H(n)), Leaf(HeadingText(lines[i])), Close(H(n))]
  {
    HeadingExact(lines[i], n);
    hide HeadingText, HeadingLevel, Blank, Fence;
  }

  /** A list is numbered where its first line has a number, and not where it has a bullet. */
  lemma ListTagExact(lines: seq<string>, i: nat)
    requires i < |lines| && MarkerOf(lines[i]).Marker?
    ensures IndentOf(lines[i]) < |lines[i]|
    ensures var ts := RenderBlock(ListBlock(lines, i));
            var tag := ListTag(if Digit(lines[i][IndentOf(lines[i])]) then Ol else Ul);
            |ts| >= 2 && ts[0] == Open(tag) && ts[|ts| - 1] == Close(tag)
  {
    KindExact(lines[i]);
    hide MarkerOf, ListItems, ListBlock, IndentOf, RenderItems;
  }

  lemma KindExact(s: string)
    requires MarkerOf(s).Marker?
    ensures IndentOf(s) < |s| && (MarkerOf(s).kind == Ol <==> Digit(s[IndentOf(s)]))
  {
  }

  // ---------------------------------------------------------------- where items begin

  /** A line that opens an item of a list with this indent. */
  predicate Opens(line: string, indent: nat) {
    IndentOf(line) == indent && MarkerOf(line).Marker?
  }

  /** The line after the m-th item's last. */
  function EndOf(starts: seq<nat>, m: nat, to: nat): nat
    requires m < |starts|
  {
    if m + 1 < |starts| then starts[m + 1] else to
  }

  /** The items are the runs of lines from each that opens one to the next. */
  ghost predicate CutAt(lines: seq<string>, from: nat, to: nat, indent: nat, kind: Kind, items: seq<seq<string>>, starts: seq<nat>)
    requires from <= to <= |lines|
  {
    && |starts| == |items|
    && (starts != [] ==> starts[0] == from)
    && (starts == [] ==> from == to)
    && (forall m :: 0 <= m < |starts| ==> from <= starts[m] < to)
    && (forall m, n :: 0 <= m < n < |starts| ==> starts[m] < starts[n])
    && (forall m :: 0 <= m < |starts| ==> RunOf(lines, starts[m], EndOf(starts, m, to), indent, kind, items[m]))
  }

  /** An item: it opens on its first line, with the text after the marker, no other line of
      it opens one, and it goes on with each of its lines. */
  ghost predicate RunOf(lines: seq<string>, a: nat, b: nat, indent: nat, kind: Kind, item: seq<string>) {
    && a < b <= |lines| && item != []
    && Opens(lines[a], indent) && MarkerOf(lines[a]).kind == kind && item[0] == lines[a][MarkerOf(lines[a]).end..]
    && (forall k :: a < k < b ==> !Opens(lines[k], indent))
    && |item| == b - a && GoesOn(lines[a + 1..b], indent, item[1..])
  }

  /** What an item takes of a line that opens none: nothing of a blank one, all of one further
      in than the marker, and what is not indent of any other. */
  predicate Taken(line: string, indent: nat, kept: string) {
    if Blank(line) then kept == ""
    else if IndentOf(line) > indent then kept == line
    else kept == line[IndentOf(line)..]
  }

  predicate GoesOn(src: seq<string>, indent: nat, kept: seq<string>) {
    |src| == |kept| && forall k :: 0 <= k < |src| ==> Taken(src[k], indent, kept[k])
  }

  /** What one turn adds: a new item on a line that opens one, or lines that open none to
      the last. */
  lemma TurnOpens(lines: seq<string>, i: nat, indent: nat, kind: Kind, items: seq<seq<string>>) returns (more: seq<string>)
    requires i < |lines| && Opened(lines, i, indent, kind, items) && ListTurn(lines, i, indent, kind, items).On?
    ensures var t := ListTurn(lines, i, indent, kind, items);
            && i < t.next == i + |more| <= |lines|
            && (if Opens(lines[i], indent)
                then t.next == i + 1 && MarkerOf(lines[i]).kind == kind && more == [lines[i][MarkerOf(lines[i]).end..]] && t.items == items + [more]
                else && items != [] && t.items == ExtendLast(items, more) && GoesOn(lines[i..t.next], indent, more)
                     && forall k :: i <= k < t.next ==> !Opens(lines[k], indent))
  {
    hide StartsBlock, MarkerOf;
    var line := lines[i];
    if Blank(line) {
      var j := BlankEnd(lines, i);
      more := Blanks(j - i);
      forall k | i <= k < j
        ensures !Opens(lines[k], indent)
      {
        BlankIsNoMarker(lines[k]);
      }
    } else {
      assert lines[i..i + 1] == [line];
      more := [if Opens(line, indent) then line[MarkerOf(line).end..]
               else if IndentOf(line) <= indent then LStrip(line) else line];
    }
  }

  lemma RunGrows(lines: seq<string>, a: nat, b: nat, c: nat, indent: nat, kind: Kind, item: seq<string>, more: seq<string>)
    requires RunOf(lines, a, b, indent, kind, item) && b <= c <= |lines| && GoesOn(lines[b..c], indent, more)
    requires forall k :: b <= k < c ==> !Opens(lines[k], indent)
    ensures RunOf(lines, a, c, indent, kind, item + more)
  {
    hide Opens, MarkerOf, Taken;
    assert lines[a + 1..b] + lines[b..c] == lines[a + 1..c];
    assert (item + more)[1..] == item[1..] + more;
  }

  lemma CutNew(lines: seq<string>, from: nat, i: nat, indent: nat, kind: Kind, items: seq<seq<string>>, starts: seq<nat>, item: seq<string>)
    requires from <= i < |lines| && CutAt(lines, from, i, indent, kind, items, starts) && RunOf(lines, i, i + 1, indent, kind, item)
    ensures CutAt(lines, from, i + 1, indent, kind, items + [item], starts + [i])
  {
    hide RunOf;
    var now := starts + [i];
    forall m | 0 <= m < |now|
      ensures RunOf(lines, now[m], EndOf(now, m, i + 1), indent, kind, (items + [item])[m])
    {
      if m < |starts| {
        assert EndOf(now, m, i + 1) == EndOf(starts, m, i);
      }
    }
  }

  lemma CutMore(lines: seq<string>, from: nat, i: nat, j: nat, indent: nat, kind: Kind, items: seq<seq<string>>, starts: seq<nat>, more: seq<string>)
    requires from <= i <= j <= |lines| && CutAt(lines, from, i, indent, kind, items, starts) && items != []
    requires GoesOn(lines[i..j], indent, more) && forall k :: i <= k < j ==> !Opens(lines[k], indent)
    ensures CutAt(lines, from, j, indent, kind, ExtendLast(items, more), starts)
  {
    hide RunOf, Opens, GoesOn;
    var last := |items| - 1;
    RunGrows(lines, starts[last], i, j, indent, kind, items[last], more);
    forall m | 0 <= m < |starts|
      ensures RunOf(lines, starts[m], EndOf(starts, m, j), indent, kind, ExtendLast(items, more)[m])
    {
      if m < last {
        assert EndOf(starts, m, j) == EndOf(starts, m, i);
      }
    }
  }

  lemma NewRun(lines: seq<string>, i: nat, indent: nat, kind: Kind)
    requires i < |lines| && Opens(lines[i], indent) && MarkerOf(lines[i]).kind == kind
    ensures RunOf(lines, i, i + 1, indent, kind, [lines[i][MarkerOf(lines[i]).end..]])
  {
  }

  lemma {:induction false} ScanCuts(lines: seq<string>, from: nat, i: nat, indent: nat, kind: Kind, items: seq<seq<string>>, starts: seq<nat>)
    returns (all: seq<nat>)
    requires from <= i <= |lines| && CutAt(lines, from, i, indent, kind, items, starts) && (i < |lines| ==> Opened(lines, i, indent, kind, items))
    ensures var r := ListScan(lines, i, indent, kind, items); from <= r.1 && CutAt(lines, from, r.1, indent, kind, r.0, all)
    decreases |lines| - i
  {
    hide CutAt, RunOf, ListTurn, Opened, GoesOn;
    all := starts;
    if i >= |lines| {
    } else {
      var t := ListTurn(lines, i, indent, kind, items);
      if t.On? {
        var more := TurnOpens(lines, i, indent, kind, items);
        if Opens(lines[i], indent) {
          NewRun(lines, i, indent, kind);
          CutNew(lines, from, i, indent, kind, items, starts, more);
          all := starts + [i];
        } else {
          CutMore(lines, from, i, t.next, indent, kind, items, starts, more);
        }
        OpenedStays(lines, t.next, indent, kind, t.items);
        all := ScanCuts(lines, from, t.next, indent, kind, t.items, all);
      }
    }
  }

  lemma OpenedStays(lines: seq<string>, i: nat, indent: nat, kind: Kind, items: seq<seq<string>>)
    requires i <= |lines| && items != []
    ensures Opened(lines, i, indent, kind, items)
  {
  }

  /** In every list: an item begins on exactly the lines of its indent that have a marker,
      and they are all of the kind of the first; it holds the text after the marker and then
      each line to the next, less its indent where that is no more than the marker's. */
  lemma ItemsBeginAtMarkers(lines: seq<string>, i: nat)
    requires i < |lines| && MarkerOf(lines[i]).Marker?
    ensures var (items, next) := ListItems(lines, i);
            i <= next && exists starts :: CutAt(lines, i, next, IndentOf(lines[i]), MarkerOf(lines[i]).kind, items, starts)
  {
    assert CutAt(lines, i, i, IndentOf(lines[i]), MarkerOf(lines[i]).kind, [], []);
    assert Opened(lines, i, IndentOf(lines[i]), MarkerOf(lines[i]).kind, []);
    hide CutAt, Opened, MarkerOf, ListScan;
    var starts := ScanCuts(lines, i, i, IndentOf(lines[i]), MarkerOf(lines[i]).kind, [], []);
  }

  // ---------------------------------------------------------------- where a list ends

  /** After the blank lines from i on: nothing more, or a line that is not inside the list. */
  predicate OverAfterBlanks(lines: seq<string>, i: nat, indent: nat, kind: Kind)
    requires i < |lines|
  {
    exists j :: i < j <= |lines| && (forall k :: i <= k < j ==> Blank(lines[k]))
      && (j < |lines| ==> !Blank(lines[j]) && IndentOf(lines[j]) <= indent && !(Opens(lines[j], indent) && MarkerOf(lines[j]).kind == kind))
  }

  /** A line that ends the list itself: further out, of the other kind, or the start of
      another block. */
  predicate EndsList(lines: seq<string>, i: nat, indent: nat, kind: Kind)
    requires i < |lines|
  {
    || IndentOf(lines[i]) < indent
    || (Opens(lines[i], indent) && MarkerOf(lines[i]).kind != kind)
    || (IndentOf(lines[i]) == indent && !Opens(lines[i], indent) && StartsBlock(lines, i))
  }

  lemma {:induction false} BlankEndIs(lines: seq<string>, i: nat, j: nat)
    requires i <= j <= |lines| && (forall k :: i <= k < j ==> Blank(lines[k])) && (j < |lines| ==> !Blank(lines[j]))
    ensures BlankEnd(lines, i) == j
    decreases j - i
  {
    hide Blank;
    if i == j {
    } else {
      BlankEndIs(lines, i + 1, j);
    }
  }

  /** Exactly when a list that has begun ends at a line. */
  lemma StopExact(lines: seq<string>, i: nat, indent: nat, kind: Kind, items: seq<seq<string>>)
    requires i < |lines| && items != []
    ensures ListTurn(lines, i, indent, kind, items).Stop? <==>
              if Blank(lines[i]) then OverAfterBlanks(lines, i, indent, kind) else EndsList(lines, i, indent, kind)
  {
    hide Blank, MarkerOf, IndentOf, StartsBlock;
    if Blank(lines[i]) {
      var j := BlankEnd(lines, i);
      if OverAfterBlanks(lines, i, indent, kind) {
        var j' :| i < j' <= |lines| && (forall k :: i <= k < j' ==> Blank(lines[k]))
          && (j' < |lines| ==> !Blank(lines[j']) && IndentOf(lines[j']) <= indent && !(Opens(lines[j'], indent) && MarkerOf(lines[j']).kind == kind));
        BlankEndIs(lines, i, j');
      }
    }
  }

  lemma {:induction false} ScanEnds(lines: seq<string>, i: nat, indent: nat, kind: Kind, items: seq<seq<string>>)
    requires i <= |lines| && items != []
    ensures var r := ListScan(lines, i, indent, kind, items);
            r.1 == |lines| || (if Blank(lines[r.1]) then OverAfterBlanks(lines, r.1, indent, kind) else EndsList(lines, r.1, indent, kind))
    decreases |lines| - i
  {
    hide ListTurn, OverAfterBlanks, EndsList, Blank;
    if i >= |lines| {
    } else {
      StopExact(lines, i, indent, kind, items);
      var t := ListTurn(lines, i, indent, kind, items);
      if t.On? {
        TurnNonEmpty(lines, i, indent, kind, items);
        ScanEnds(lines, t.next, indent, kind, t.items);
      }
    }
  }

  lemma TurnNonEmpty(lines: seq<string>, i: nat, indent: nat, kind: Kind, items: seq<seq<string>>)
    requires i < |lines| && items != [] && ListTurn(lines, i, indent, kind, items).On?
    ensures ListTurn(lines, i, indent, kind, items).items != []
  {
  }

  /** A list goes on to the end of the document or to the first line that ends it. */
  lemma ListsEnd(lines: seq<string>, i: nat)
    requires i < |lines| && MarkerOf(lines[i]).Marker?
    ensures var next, indent, kind := ListItems(lines, i).1, IndentOf(lines[i]), MarkerOf(lines[i]).kind;
            next == |lines| || (if Blank(lines[next]) then OverAfterBlanks(lines, next, indent, kind) else EndsList(lines, next, indent, kind))
  {
    var indent, kind := IndentOf(lines[i]), MarkerOf(lines[i]).kind;
    var first := lines[i][MarkerOf(lines[i]).end..];
    assert ListTurn(lines, i, indent, kind, []) == On([] + [[first]], i + 1);
    assert [] + [[first]] == [[first]];
    hide MarkerOf, IndentOf, ListTurn, OverAfterBlanks, EndsList, Blank;
    ScanEnds(lines, i + 1, indent, kind, [[first]]);
  }

  // ---------------------------------------------------------------- what dedenting takes

  lemma {:induction false} MinIndentExact(s: seq<string>, d: nat)
    ensures (forall k :: 0 <= k < |s| ==> Blank(s[k]) || IndentOf(s[k]) >= d) ==> MinIndent(s, d) == d
    ensures MinIndent(s, d) < d ==> exists k :: 0 <= k < |s| && !Blank(s[k]) && IndentOf(s[k]) == MinIndent(s, d)
  {
    hide Blank, IndentOf;
    if s == [] {
    } else {
      MinIndentExact(s[1..], d);
      var m := MinIndent(s[1..], d);
      if m < d && MinIndent(s, d) == m {
        var k :| 0 <= k < |s[1..]| && !Blank(s[1..][k]) && IndentOf(s[1..][k]) == m;
        assert s[k + 1] == s[1..][k];
      }
    }
  }

  lemma {:induction false} MaxIndentIsMost(s: seq<string>)
    ensures forall k :: 0 <= k < |s| ==> IndentOf(s[k]) <= MaxIndent(s)
  {
    hide IndentOf;
    if s == [] {
    } else {
      MaxIndentIsMost(s[1..]);
    }
  }

  /** Each line that is not blank loses n characters of its indent, each blank one all. */
  predicate Loses(lines: seq<string>, out: seq<string>, n: nat) {
    |out| == |lines| &&
    forall k :: 0 <= k < |lines| ==> if Blank(lines[k]) then out[k] == "" else n <= IndentOf(lines[k]) && out[k] == lines[k][n..]
  }

  /** n is the least indent of the lines that are not blank, if there are any. */
  ghost predicate LeastIndent(lines: seq<string>, n: nat) {
    (exists k :: 0 <= k < |lines| && !Blank(lines[k])) ==> exists k :: 0 <= k < |lines| && !Blank(lines[k]) && IndentOf(lines[k]) == n
  }

  lemma CutLoses(rest: seq<string>)
    ensures var n := MinIndent(rest, MaxIndent(rest)); Loses(rest, CutAll(rest, n), n) && LeastIndent(rest, n)
  {
    var d := MaxIndent(rest);
    var n := MinIndent(rest, d);
    MinIndentExact(rest, d);
    MaxIndentIsMost(rest);
    hide Blank, IndentOf, MinIndent, MaxIndent, CutAll;
    if k :| 0 <= k < |rest| && !Blank(rest[k]) {
      if n < d {
        var m :| 0 <= m < |rest| && !Blank(rest[m]) && IndentOf(rest[m]) == n;
      } else {
        assert IndentOf(rest[k]) == n;
      }
    }
  }

  /** Every line of an item after its first loses the same run of space, as much as they all
      have: one of them is left with none. A blank line is left empty. */
  lemma DedentExact(item: seq<string>)
    requires item != []
    ensures Dedent(item)[0] == item[0]
    ensures exists n: nat :: Loses(item[1..], Dedent(item)[1..], n) && LeastIndent(item[1..], n)
  {
    hide Loses, LeastIndent, CutAll, MinIndent;
    CutLoses(item[1..]);
    assert Dedent(item)[1..] == CutAll(item[1..], MinIndent(item[1..], MaxIndent(item[1..])));
  }

  // ---------------------------------------------------------------- cells

  function JoinBars(ps: seq<string>): string {
    if ps == [] then "" else if |ps| == 1 then ps[0] else ps[0] + "|" + JoinBars(ps[1..])
  }

  /** The cells are the pieces of s between its bars, without the space around each. */
  ghost predicate CutAtBars(s: string, cells: seq<string>) {
    exists ps: seq<string> :: PiecesOf(s, ps, cells)
  }

  predicate PiecesOf(s: string, ps: seq<string>, cells: seq<string>) {
    && JoinBars(ps) == s && |ps| == |cells| > 0
    && forall k :: 0 <= k < |ps| ==> '|' !in ps[k] && cells[k] == Strip(ps[k])
  }

  lemma OneMorePiece(first: string, rest: string, ps: seq<string>, cells: seq<string>)
    requires '|' !in first && PiecesOf(rest, ps, cells)
    ensures PiecesOf(first + "|" + rest, [first] + ps, [Strip(first)] + cells)
  {
    hide Strip;
    assert ([first] + ps)[1..] == ps;
  }

  lemma {:induction false} CellsAreBetweenBars(s: string)
    ensures CutAtBars(s, SplitOn(s))
    decreases |s|
  {
    hide Strip, PiecesOf;
    var p := Skip(s, 0, NotBar);
    if p < |s| {
      CellsAreBetweenBars(s[p + 1..]);
      var ps :| PiecesOf(s[p + 1..], ps, SplitOn(s[p + 1..]));
      assert s == s[..p] + "|" + s[p + 1..];
      OneMorePiece(s[..p], s[p + 1..], ps, SplitOn(s[p + 1..]));
    } else {
      OnePiece(s);
    }
  }

  lemma OnePiece(s: string)
    requires '|' !in s
    ensures PiecesOf(s, [s], [Strip(s)])
  {
  }

  /** A row's cells are the pieces between the bars of its text, a bar it begins with and one
      it ends with left out, without the space around each. */
  lemma RowCells(line: string)
    ensures var s := Strip(line);
            var from := if s != [] && s[0] == '|' then 1 else 0;
            var to := if |s| > from && s[|s| - 1] == '|' then |s| - 1 else |s|;
            CutAtBars(s[from..to], SplitRow(line))
  {
    hide Strip, CutAtBars;
    var s := Strip(line);
    var from := if s != [] && s[0] == '|' then 1 else 0;
    var to := if |s| > from && s[|s| - 1] == '|' then |s| - 1 else |s|;
    CellsAreBetweenBars(s[from..to]);
    assert StartsWith(s, "|") <==> s != [] && s[0] == '|';
    var t := s[from..];
    assert t == if StartsWith(s, "|") then s[1..] else s;
    assert t != [] ==> t[|t| - 1] == s[|s| - 1];
    assert s[from..to] == if t != [] && t[|t| - 1] == '|' then t[..|t| - 1] else t;
  }

  // ---------------------------------------------------------------- how tables are written

  /** The text written directly in a tag that opens ts, if one does. */
  function TextFirst(ts: seq<Token>, tag: Tag): seq<string> {
    if |ts| >= 2 && ts[0] == Open(tag) && ts[1].Leaf? then [ts[1].text] else []
  }

  /** The texts written directly in a tag, in order. */
  function TextsIn(ts: seq<Token>, tag: Tag): seq<string> {
    if ts == [] then [] else TextFirst(ts, tag) + TextsIn(ts[1..], tag)
  }

  /** These texts are written directly in a tag, and it is not left open. */
  predicate Holds(ts: seq<Token>, tag: Tag, texts: seq<string>) {
    TextsIn(ts, tag) == texts && (ts == [] || !ts[|ts| - 1].Open?)
  }

  lemma FirstConcat(a: seq<Token>, b: seq<Token>, tag: Tag)
    requires a != [] && !a[|a| - 1].Open?
    ensures TextFirst(a + b, tag) == TextFirst(a, tag) && (a + b)[1..] == a[1..] + b
    ensures a[1..] == [] || !a[1..][|a[1..]| - 1].Open?
  {
  }

  lemma {:induction false} TextsConcat(a: seq<Token>, b: seq<Token>, tag: Tag)
    requires a == [] || !a[|a| - 1].Open?
    ensures TextsIn(a + b, tag) == TextsIn(a, tag) + TextsIn(b, tag)
  {
    if a == [] {
      assert a + b == b;
    } else {
      FirstConcat(a, b, tag);
      hide TextFirst;
      TextsConcat(a[1..], b, tag);
    }
  }

  lemma HoldsBoth(a: seq<Token>, x: seq<string>, b: seq<Token>, y: seq<string>, tag: Tag)
    requires Holds(a, tag, x) && Holds(b, tag, y)
    ensures Holds(a + b, tag, x + y)
  {
    TextsConcat(a, b, tag);
    hide TextsIn;
    if b == [] {
      assert a + b == a;
    } else {
      assert (a + b)[|a + b| - 1] == b[|b| - 1];
    }
  }

  lemma HoldsNothing(t: Token, tag: Tag)
    requires !t.Open?
    ensures Holds([t], tag, [])
  {
  }

  lemma HoldsOne(used: Tag, text: string, tag: Tag)
    ensures Holds(Wrap(used, [Leaf(text)]), tag, if used == tag then [text] else [])
  {
    var cell := [Open(used), Leaf(text), Close(used)];
    assert cell == Wrap(used, [Leaf(text)]);
    assert cell[1..] == [Leaf(text), Close(used)] && cell[1..][1..] == [Close(used)];
    assert TextsIn(cell[1..][1..], tag) == [];
    assert TextsIn(cell[1..], tag) == [] + TextsIn(cell[1..][1..], tag);
  }

  lemma {:induction false} CellsRead(used: Tag, row: seq<string>, tag: Tag)
    ensures Holds(Cells(used, row), tag, if used == tag then row else [])
  {
    if row == [] {
    } else {
      HoldsOne(used, row[0], tag);
      CellsRead(used, row[1..], tag);
      hide Holds;
      HoldsBoth(Wrap(used, [Leaf(row[0])]), if used == tag then [row[0]] else [],
                Cells(used, row[1..]), if used == tag then row[1..] else [], tag);
      assert row == [row[0]] + row[1..];
    }
  }

  /** A tag around what does not begin with text holds no text itself. */
  lemma HoldsInside(outer: Tag, ts: seq<Token>, tag: Tag, texts: seq<string>)
    requires Holds(ts, tag, texts) && (outer == tag ==> ts == [] || !ts[0].Leaf?)
    ensures Holds(Wrap(outer, ts), tag, texts)
  {
    HoldsNothing(Close(outer), tag);
    HoldsBoth(ts, texts, [Close(outer)], [], tag);
    assert Wrap(outer, ts)[1..] == ts + [Close(outer)];
    assert texts + [] == texts;
    if ts != [] {
      assert Wrap(outer, ts)[1] == ts[0];
    }
  }

  lemma RowRead(used: Tag, row: seq<string>, tag: Tag)
    requires tag == Th || tag == Td
    ensures Holds(Wrap(Tr, Cells(used, row)), tag, if used == tag then row else [])
  {
    CellsRead(used, row, tag);
    hide Cells, Holds;
    HoldsInside(Tr, Cells(used, row), tag, if used == tag then row else []);
  }

  function Flattened(rows: seq<seq<string>>): seq<string> {
    if rows == [] then [] else rows[0] + Flattened(rows[1..])
  }

  lemma {:induction false} RowsRead(rows: seq<seq<string>>, tag: Tag)
    requires tag == Th || tag == Td
    ensures Holds(Rows(rows), tag, if tag == Td then Flattened(rows) else [])
  {
    if rows == [] {
    } else {
      var row := Wrap(Tr, Cells(Td, rows[0]));
      RowRead(Td, rows[0], tag);
      RowsRead(rows[1..], tag);
      HoldsNothing(Nl, tag);
      hide Cells, Holds;
      var x, y := if tag == Td then rows[0] else [], if tag == Td then Flattened(rows[1..]) else [];
      HoldsBoth([Nl], [], row, x, tag);
      assert [] + x == x;
      HoldsBoth([Nl] + row, x, Rows(rows[1..]), y, tag);
    }
  }

  /** A table's head cells hold its first line's cells in order, and its body cells those of
      the rows under it. */
  lemma TableReads(header: seq<string>, rows: seq<seq<string>>)
    ensures var ts := RenderBlock(Table(header, rows));
            TextsIn(ts, Th) == header && TextsIn(ts, Td) == Flattened(rows)
  {
    forall tag | tag == Th || tag == Td
      ensures TextsIn(RenderBlock(Table(header, rows)), tag) == if tag == Th then header else Flattened(rows)
    {
      TableRead(header, rows, tag);
    }
  }

  lemma TableRead(header: seq<string>, rows: seq<seq<string>>, tag: Tag)
    requires tag == Th || tag == Td
    ensures TextsIn(RenderBlock(Table(header, rows)), tag) == if tag == Th then header else Flattened(rows)
  {
    var head, body := Wrap(Tr, Cells(Th, header)), Rows(rows);
    var x, y := if tag == Th then header else [], if tag == Td then Flattened(rows) else [];
    RowRead(Th, header, tag);
    RowsRead(rows, tag);
    HoldsNothing(Nl, tag);
    var inner := [Nl] + head + body + [Nl];
    assert Holds(inner, tag, x + y) by {
      hide Cells, Rows, Flattened, Holds;
      HoldsBoth([Nl], [], head, x, tag);
      assert [] + x == x;
      HoldsBoth([Nl] + head, x, body, y, tag);
      HoldsBoth([Nl] + head + body, x + y, [Nl], [], tag);
      assert x + y + [] == x + y;
    }
    HoldsInside(TableTag, inner, tag, x + y);
    TableIs(header, rows);
    hide Cells, Rows, Flattened, TextsIn, RenderBlock;
  }

  lemma TableIs(header: seq<string>, rows: seq<seq<string>>)
    ensures RenderBlock(Table(header, rows)) == Wrap(TableTag, [Nl] + Wrap(Tr, Cells(Th, header)) + Rows(rows) + [Nl])
  {
    hide Cells, Rows, Wrap;
  }

  /** Under a table's head each row is a line that a bar opens, cut at its bars, to the first
      that none does. */
  lemma TableSpan(lines: seq<string>, i: nat)
    requires i < |lines| && !Blank(lines[i]) && OneBlock(lines, i).0.Table?
    ensures var (b, j) := OneBlock(lines, i);
            && i + 2 <= j <= |lines| && b.header == SplitRow(lines[i]) && |b.rows| == j - i - 2
            && (forall k :: i + 2 <= k < j ==> RowLine(lines[k]) && b.rows[k - i - 2] == SplitRow(lines[k]))
            && (j < |lines| ==> !RowLine(lines[j]))
  {
    hide Blank, Fence, HeadingLevel, RuleLine, Quoted, RowLine, MarkerOf, Align, ListItems, ListBlock, StartsBlock, SplitRow;
    SplitRowsAt(lines[i + 2..OneBlock(lines, i).1]);
  }

  lemma {:induction false} SplitRowsAt(lines: seq<string>)
    ensures |SplitRows(lines)| == |lines| && forall k :: 0 <= k < |lines| ==> SplitRows(lines)[k] == SplitRow(lines[k])
  {
    hide SplitRow;
    if lines == [] {
    } else {
      SplitRowsAt(lines[1..]);
    }
  }
}
