/** Which line can stand under a table's head: ALIGN of scripts/render-adrs.py (line 146)
    and its hand-written reading, on every line. */
module MarkdownTables {
  import opened MarkdownLines
  import opened MarkdownPatterns

  function Dashes(rest: Re): Re {
    Seq(Times('-'), Seq(Opt(Lit(':')), Spaces(rest)))
  }

  function DashedPattern(lo: nat, rest: Re): Re {
    if lo == 0 then Dashes(rest) else Seq(Lit('-'), Dashes(rest))
  }

  /** \s*:?-{lo,}:?\s*, then the rest, with lo one or none. */
  function CellPattern(lo: nat, rest: Re): Re {
    Spaces(Seq(Opt(Lit(':')), DashedPattern(lo, rest)))
  }

  /** ^\s*\|?(?:\s*:?-{1,}:?\s*\|)+\s*:?-*:?\s*\|?\s*$ */
  function AlignPattern(): Re {
    Spaces(Seq(Opt(Lit('|')), Seq(Many(CellPattern(1, Lit('|'))), CellPattern(0, Seq(Opt(Lit('|')), Run(Space))))))
  }

  // ---------------------------------------------------------------- one cell

  /** Space around a text does not change what it is stripped to. */
  lemma StripPart(s: string, i: nat, j: nat)
    requires Between(s, i, j)
    ensures Strip(s) == Strip(s[i..j])
  {
    hide Strip, Space, IndentOf;
    var t := s[i..j];
    var a, b := StripAt(t);
    forall k | 0 <= k < i + a
      ensures Space(s[k])
    {
      if k >= i {
        assert t[k - i] == s[k];
      }
    }
    forall k | i + b <= k < |s|
      ensures Space(s[k])
    {
      if k < j {
        assert t[k - i] == s[k];
      }
    }
    if a < b {
      assert t[a] == s[i + a] && t[b - 1] == s[i + b - 1];
    }
    StripIs(s, i + a, i + b);
    forall m | 0 <= m < b - a
      ensures s[i + a..i + b][m] == t[a..b][m]
    {
      assert t[a + m] == s[i + a + m];
    }
    assert s[i + a..i + b] == t[a..b];
  }

  /** Up to k: space, a colon at most, dashes, a colon at most, and space. */
  predicate CellOf(s: string, k: int, i: int, c: int, d: int, j: int, lo: nat) {
    && 0 <= i <= c <= i + 1 && c + lo <= d <= j <= d + 1 && j <= k <= |s|
    && (forall m :: 0 <= m < i ==> Space(s[m])) && (forall m :: j <= m < k ==> Space(s[m]))
    && (c > i ==> s[i] == ':') && (forall m :: c <= m < d ==> s[m] == '-') && (j > d ==> s[d] == ':')
  }

  lemma SkipDashes(a: string, n: nat)
    requires n <= |a| && (forall m :: 0 <= m < n ==> a[m] == '-') && (n < |a| ==> a[n] != '-')
    ensures Skip(a, 0, Is('-')) == n
  {
  }

  lemma LeadColon(t: string)
    ensures StartsWith(t, ":") <==> t != [] && t[0] == ':'
  {
  }

  lemma DashedIs(t: string, c: nat, d: nat, lo: nat)
    requires c <= 1 && c + lo <= d <= |t| <= d + 1
    requires (c == 1 ==> t[0] == ':') && (forall m :: c <= m < d ==> t[m] == '-') && (|t| == d + 1 ==> t[d] == ':')
    ensures Dashed(t, lo)
  {
    LeadColon(t);
    if c == 0 && t != [] && t[0] == ':' {
      SkipDashes(t[1..], 0);
      assert t[1..][0..] == [];
    } else {
      SkipDashes(t[c..], d - c);
      assert t[c..] == if StartsWith(t, ":") then t[1..] else t;
      assert t[c..][d - c..] == t[d..];
      assert |t| == d + 1 ==> t[d..] == ":";
    }
  }

  lemma DashedAt(t: string, lo: nat) returns (c: nat, d: nat)
    requires Dashed(t, lo)
    ensures c <= 1 && c + lo <= d <= |t| <= d + 1
    ensures (c == 1 ==> t[0] == ':') && (forall m :: c <= m < d ==> t[m] == '-') && (|t| == d + 1 ==> t[d] == ':')
  {
    c := if StartsWith(t, ":") then 1 else 0;
    var a := t[c..];
    assert a == if StartsWith(t, ":") then t[1..] else t;
    var k := Skip(a, 0, Is('-'));
    d := c + k;
    assert a[k..] == t[d..];
    forall m | c <= m < d
      ensures t[m] == '-'
    {
      assert a[m - c] == t[m];
    }
    assert |t| == d + 1 ==> t[d..][0] == t[d];
  }

  lemma CellIs(s: string, k: nat, i: nat, c: nat, d: nat, j: nat, lo: nat)
    requires CellOf(s, k, i, c, d, j, lo)
    ensures AlignCell(s[..k], lo)
  {
    hide Strip, Dashed;
    if i < j {
      NoSpaceIn(s[i]);
      NoSpaceIn(s[j - 1]);
    }
    StripIs(s[..k], i, j);
    assert s[..k][i..j] == s[i..j];
    DashedIs(s[i..j], c - i, d - i, lo);
  }

  lemma NoSpaceIn(c: char)
    requires c == '-' || c == ':'
    ensures !Space(c)
  {
  }

  lemma CellAt(s: string, k: nat, lo: nat) returns (i: nat, c: nat, d: nat, j: nat)
    requires k <= |s| && AlignCell(s[..k], lo)
    ensures CellOf(s, k, i, c, d, j, lo)
  {
    hide Strip, Dashed, Space, IndentOf, CellOf, Skip;
    i, j := StripAt(s[..k]);
    assert s[..k][i..j] == s[i..j];
    c, d := DashedAt(s[i..j], lo);
    CellMade(s, k, i, j, c, d, lo);
    c, d := i + c, i + d;
  }

  lemma CellMade(s: string, k: nat, i: nat, j: nat, c: nat, d: nat, lo: nat)
    requires k <= |s| && Between(s[..k], i, j) && c <= 1 && c + lo <= d <= j - i <= d + 1
    requires var t := s[i..j]; (c == 1 ==> t[0] == ':') && (forall m :: c <= m < d ==> t[m] == '-') && (|t| == d + 1 ==> t[d] == ':')
    ensures CellOf(s, k, i, i + c, i + d, j, lo)
  {
    hide Space;
    PrefixSpace(s, k, i, j);
    var t := s[i..j];
    forall m | i + c <= m < i + d
      ensures s[m] == '-'
    {
      assert t[m - i] == s[m];
    }
    assert c == 1 ==> t[0] == s[i];
    assert d < |t| ==> t[d] == s[i + d];
  }

  lemma PrefixSpace(s: string, k: nat, i: nat, j: nat)
    requires k <= |s| && Between(s[..k], i, j)
    ensures (forall m :: 0 <= m < i ==> Space(s[m])) && (forall m :: j <= m < k ==> Space(s[m]))
  {
    hide Space;
    assert forall m :: 0 <= m < k ==> s[..k][m] == s[m];
  }

  /** What a cell's pattern takes before the rest is a cell. */
  lemma CellExact(lo: nat, rest: Re, s: string)
    requires lo <= 1
    ensures Matches(CellPattern(lo, rest), s) <==> exists k :: 0 <= k <= |s| && AlignCell(s[..k], lo) && Matches(rest, s[k..])
  {
    hide Matches, AlignCell, CellPattern;
    if Matches(CellPattern(lo, rest), s) {
      var k := CellSplit(lo, rest, s);
    }
    if k :| 0 <= k <= |s| && AlignCell(s[..k], lo) && Matches(rest, s[k..]) {
      CellMatch(lo, rest, s, k);
    }
  }

  lemma CellSplit(lo: nat, rest: Re, s: string) returns (k: nat)
    requires lo <= 1 && Matches(CellPattern(lo, rest), s)
    ensures k <= |s| && AlignCell(s[..k], lo) && Matches(rest, s[k..])
  {
    hide Matches, AlignCell;
    assert s[0..] == s;
    var i := FromRun(Space, Seq(Opt(Lit(':')), DashedPattern(lo, rest)), s, 0);
    OptFrom(Is(':'), DashedPattern(lo, rest), s, i);
    var c := if Matches(DashedPattern(lo, rest), s[i..]) then i else i + 1;
    if lo == 1 {
      ClassFrom(Is('-'), Dashes(rest), s, c);
    }
    var d := FromRun(Is('-'), Seq(Opt(Lit(':')), Spaces(rest)), s, c + lo);
    OptFrom(Is(':'), Spaces(rest), s, d);
    var j := if Matches(Spaces(rest), s[d..]) then d else d + 1;
    k := FromRun(Space, rest, s, j);
    CellIs(s, k, i, c, d, j, lo);
  }

  lemma CellMatch(lo: nat, rest: Re, s: string, k: nat)
    requires lo <= 1 && k <= |s| && AlignCell(s[..k], lo) && Matches(rest, s[k..])
    ensures Matches(CellPattern(lo, rest), s)
  {
    hide Matches, AlignCell;
    var i, c, d, j := CellAt(s, k, lo);
    RunFrom(Space, rest, s, j, k);
    OptFrom(Is(':'), Spaces(rest), s, d);
    RunFrom(Is('-'), Seq(Opt(Lit(':')), Spaces(rest)), s, c + lo, d);
    if lo == 1 {
      ClassFrom(Is('-'), Dashes(rest), s, c);
    }
    OptFrom(Is(':'), DashedPattern(lo, rest), s, i);
    RunFrom(Space, Seq(Opt(Lit(':')), DashedPattern(lo, rest)), s, 0, i);
    assert s[0..] == s;
  }

  lemma CellHasNoBar(s: string, lo: nat)
    requires AlignCell(s, lo)
    ensures '|' !in s
  {
    assert s[..|s|] == s;
    var i, c, d, j := CellAt(s, |s|, lo);
    forall m | 0 <= m < |s|
      ensures s[m] != '|'
    {
    }
  }

  // ---------------------------------------------------------------- cells up to the end

  function BarredCell(): Re {
    CellPattern(1, Lit('|'))
  }

  function TailPattern(): Re {
    CellPattern(0, EndPattern())
  }

  function Cells(): Re {
    Seq(Many(BarredCell()), TailPattern())
  }

  lemma BarredExact(s: string)
    ensures Matches(BarredCell(), s) <==> s != [] && s[|s| - 1] == '|' && AlignCell(s[..|s| - 1], 1)
  {
    hide AlignCell, CellPattern;
    CellExact(1, Lit('|'), s);
    if s != [] && s[|s| - 1] == '|' && AlignCell(s[..|s| - 1], 1) {
      assert Matches(Lit('|'), s[|s| - 1..]);
    }
  }

  function EndPattern(): Re {
    Seq(Opt(Lit('|')), Run(Space))
  }

  /** A bar at most, and space. */
  ghost predicate Ends(s: string, k: int) {
    0 <= k <= |s| && (AllSpaceFrom(s, k) || (k < |s| && s[k] == '|' && AllSpaceFrom(s, k + 1)))
  }

  ghost predicate AllSpaceFrom(s: string, k: int) {
    forall m :: 0 <= k <= m < |s| ==> Space(s[m])
  }

  lemma EndExact(s: string, k: nat)
    requires k <= |s|
    ensures Matches(EndPattern(), s[k..]) <==> Ends(s, k)
  {
    OptFrom(Is('|'), Run(Space), s, k);
    RunToEnd(s, k);
    if k < |s| {
      RunToEnd(s, k + 1);
    }
  }

  lemma RunToEnd(s: string, k: nat)
    requires k <= |s|
    ensures Matches(Run(Space), s[k..]) <==> AllSpaceFrom(s, k)
  {
    if AllIn(s[k..], Space) {
      assert s[k..] == s[k..|s|];
      AllAt(s, k, |s|, Space);
    }
  }

  lemma TailExact(s: string)
    ensures AlignTail(s) <==> Matches(TailPattern(), s)
  {
    CellExact(0, EndPattern(), s);
    assert TailPattern() == CellPattern(0, EndPattern());
    forall k | 0 <= k <= |s|
      ensures Matches(EndPattern(), s[k..]) <==> Ends(s, k)
    {
      EndExact(s, k);
    }
    hide AlignCell, Matches, AlignTail, Ends, EndPattern, TailPattern, CellPattern;
    if AlignTail(s) {
      var k := TailAt(s);
    }
    if k :| 0 <= k <= |s| && AlignCell(s[..k], 0) && Matches(EndPattern(), s[k..]) {
      TailIs(s, k);
    }
  }

  lemma TailAt(s: string) returns (k: nat)
    requires AlignTail(s)
    ensures k <= |s| && AlignCell(s[..k], 0) && Ends(s, k)
  {
    hide Strip, Dashed, Space;
    var i, j := StripAt(s);
    var t := s[i..j];
    if AlignCell(t, 0) {
      k := |s|;
      assert s[..k] == s;
      StripPart(s, i, j);
    } else {
      k := j - 1;
      assert t[|t| - 1] == s[k];
      PrefixPart(s, i, k);
      assert t[..|t| - 1] == s[i..k];
    }
  }

  /** What a prefix is stripped to, without the space it begins with. */
  lemma PrefixPart(s: string, i: nat, k: nat)
    requires i <= k <= |s| && forall m :: 0 <= m < i ==> Space(s[m])
    ensures Strip(s[..k]) == Strip(s[i..k])
  {
    hide Strip, Space;
    assert s[..k][i..k] == s[i..k];
    StripPart(s[..k], i, k);
  }

  lemma TailIs(s: string, k: nat)
    requires k <= |s| && AlignCell(s[..k], 0) && Ends(s, k)
    ensures AlignTail(s)
  {
    hide Strip, Dashed, Space;
    var i, j := StripAt(s);
    if AllSpaceFrom(s, k) {
      StripPart(s, 0, k);
      assert s[0..k] == s[..k];
      StripPart(s, i, j);
    } else {
      BarNoSpace();
      assert j == k + 1 && i <= k;
      var t := s[i..j];
      assert t[|t| - 1] == '|' && t[..|t| - 1] == s[i..k];
      PrefixPart(s, i, k);
    }
  }

  lemma BarNoSpace()
    ensures !Space('|')
  {
  }

  /** A first cell with its bar, and then the tail or more of the same. */
  lemma ManyExact(s: string)
    ensures var p := Skip(s, 0, NotBar);
            Matches(Cells(), s) <==>
              p < |s| && AlignCell(s[..p], 1) && (Matches(TailPattern(), s[p + 1..]) || Matches(Cells(), s[p + 1..]))
  {
    hide AlignCell, TailPattern, BarredCell, Matches, Cells;
    if Matches(Cells(), s) {
      ManySplit(s);
    }
    var p := Skip(s, 0, NotBar);
    if p < |s| && AlignCell(s[..p], 1) {
      assert s[..p + 1][..p] == s[..p];
      BarredExact(s[..p + 1]);
      ManyJoin(s, p + 1);
    }
  }

  lemma ManyJoin(s: string, n: nat)
    requires 0 < n <= |s| && Matches(BarredCell(), s[..n])
    ensures Matches(TailPattern(), s[n..]) || Matches(Cells(), s[n..]) ==> Matches(Cells(), s)
  {
    hide TailPattern, BarredCell;
    if Matches(TailPattern(), s[n..]) {
      assert Matches(Many(BarredCell()), s[..n]);
    } else if Matches(Cells(), s[n..]) {
      var k :| 0 <= k <= |s[n..]| && Matches(Many(BarredCell()), s[n..][..k]) && Matches(TailPattern(), s[n..][k..]);
      var v := s[..n + k];
      assert v[..n] == s[..n] && v[n..] == s[n..][..k] && s[n..][k..] == s[n + k..];
      assert Matches(Many(BarredCell()), v);
    }
  }

  /** The first barred cell ends at the first bar. */
  lemma FirstBar(s: string, n: nat)
    requires 0 < n <= |s| && Matches(BarredCell(), s[..n])
    ensures Skip(s, 0, NotBar) == n - 1 && AlignCell(s[..n - 1], 1)
  {
    hide AlignCell, Matches, BarredCell;
    BarredExact(s[..n]);
    assert s[..n][..n - 1] == s[..n - 1];
    CellHasNoBar(s[..n - 1], 1);
    assert s[n - 1] == s[..n][n - 1];
    assert forall m :: 0 <= m < n - 1 ==> s[m] == s[..n - 1][m];
  }

  lemma ManySplit(s: string)
    requires Matches(Cells(), s)
    ensures var p := Skip(s, 0, NotBar);
            && p < |s| && AlignCell(s[..p], 1)
            && (Matches(TailPattern(), s[p + 1..]) || Matches(Cells(), s[p + 1..]))
  {
    hide AlignCell, TailPattern, BarredCell;
    var k :| 0 <= k <= |s| && Matches(Many(BarredCell()), s[..k]) && Matches(TailPattern(), s[k..]);
    if Matches(BarredCell(), s[..k]) {
      NotEmpty(s[..k]);
      FirstBar(s, k);
    } else {
      var n :| 0 < n <= k && Matches(BarredCell(), s[..k][..n]) && Matches(Many(BarredCell()), s[..k][n..]);
      ManyMore(s, k, n);
    }
  }

  lemma NotEmpty(u: string)
    requires Matches(BarredCell(), u)
    ensures u != []
  {
    BarredExact(u);
  }

  lemma ManyMore(s: string, k: nat, n: nat)
    requires 0 < n <= k <= |s| && Matches(BarredCell(), s[..k][..n]) && Matches(Many(BarredCell()), s[..k][n..]) && Matches(TailPattern(), s[k..])
    ensures Skip(s, 0, NotBar) == n - 1 && AlignCell(s[..n - 1], 1) && Matches(Cells(), s[n..])
  {
    hide AlignCell, TailPattern, BarredCell;
    assert s[..k][..n] == s[..n];
    assert s[n..][..k - n] == s[..k][n..] && s[n..][k - n..] == s[k..];
    assert Matches(Cells(), s[n..]);
    hide Matches;
    FirstBar(s, n);
  }

  lemma {:induction false} CellsExact(s: string, some: bool)
    ensures AlignCells(s, some) <==> (some && Matches(TailPattern(), s)) || Matches(Cells(), s)
    decreases |s|
  {
    hide AlignCell, AlignTail, TailPattern, Cells, Matches;
    TailExact(s);
    ManyExact(s);
    var p := Skip(s, 0, NotBar);
    if p < |s| {
      CellsExact(s[p + 1..], true);
    }
  }

  /** Space before the first cell belongs to it. */
  lemma CellsLead(s: string, k: nat)
    requires k <= IndentOf(s)
    ensures AlignCells(s, false) <==> AlignCells(s[k..], false)
  {
    LeadIn(s, k);
    FirstCell(s);
    FirstCell(s[k..]);
    hide *;
  }

  lemma FirstCell(s: string)
    ensures var p := Skip(s, 0, NotBar);
            AlignCells(s, false) <==> p < |s| && AlignCell(s[..p], 1) && AlignCells(s[p + 1..], true)
  {
    hide AlignCell, AlignTail;
  }

  lemma LeadIn(s: string, k: nat)
    requires k <= IndentOf(s)
    ensures var p, q := Skip(s, 0, NotBar), Skip(s[k..], 0, NotBar);
            && (p < |s| <==> q < |s[k..]|)
            && (p < |s| ==> s[p + 1..] == s[k..][q + 1..] && (AlignCell(s[..p], 1) <==> AlignCell(s[k..][..q], 1)))
  {
    BarNoSpace();
    hide Strip, Dashed, Space;
    var p := Skip(s, 0, NotBar);
    assert forall m :: 0 <= m < |s| - k ==> s[k..][m] == s[k + m];
    assert Skip(s[k..], 0, NotBar) == p - k;
    PrefixPart(s, k, p);
    assert s[k..p] == s[k..][..p - k];
    assert p < |s| ==> s[k..][p - k + 1..] == s[p + 1..];
  }

  /** A line can stand under a table's head exactly when ALIGN matches it. */
  lemma AlignExact(s: string)
    ensures Align(s) <==> Matches(AlignPattern(), s)
  {
    hide AlignCells, Cells, Matches;
    var t := LStrip(s);
    CellsExact(t, false);
    SeqOpt(Is('|'), Cells(), t);
    if t != [] {
      CellsExact(t[1..], false);
    }
    if Align(s) {
      RunSeq(Space, Seq(Opt(Lit('|')), Cells()), s, IndentOf(s));
    }
    TheAlignPattern();
    if Matches(AlignPattern(), s) {
      var k := SeqRun(Space, Seq(Opt(Lit('|')), Cells()), s);
      AlignIs(s, k);
    }
  }

  lemma TheAlignPattern()
    ensures AlignPattern() == Spaces(Seq(Opt(Lit('|')), Cells()))
  {
  }

  lemma AlignIs(s: string, k: nat)
    requires k <= |s| && AllIn(s[..k], Space) && Matches(Seq(Opt(Lit('|')), Cells()), s[k..])
    ensures Align(s)
  {
    hide AlignCells, Cells, Matches;
    SeqOpt(Is('|'), Cells(), s[k..]);
    assert s[..k] == s[0..k];
    AllAt(s, 0, k, Space);
    if Matches(Cells(), s[k..]) {
      CellsExact(s[k..], false);
      var n := IndentOf(s);
      assert IndentOf(s[k..]) == n - k by {
        assert forall m :: 0 <= m < |s| - k ==> s[k..][m] == s[k + m];
      }
      CellsLead(s[k..], n - k);
      assert s[k..][n - k..] == LStrip(s);
    } else {
      IndentIs(s, k);
      assert s[k..][1..] == LStrip(s)[1..];
      CellsExact(s[k..][1..], false);
    }
  }

  /** A table begins on a line that a bar opens above one that ALIGN matches. (That it then
      holds a dash, which the source asks for too, follows.) */
  lemma TableExact(lines: seq<string>, i: nat)
    requires i < |lines|
    ensures IsTable(lines, i) <==> StartsWith(LStrip(lines[i]), "|") && i + 1 < |lines| && Matches(AlignPattern(), lines[i + 1])
  {
    if i + 1 < |lines| {
      AlignExact(lines[i + 1]);
      if Align(lines[i + 1]) {
        AlignHasDash(lines[i + 1]);
      }
    }
    hide Align, AlignPattern;
  }

  lemma AlignHasDash(s: string)
    requires Align(s)
    ensures '-' in s
  {
    hide AlignCell, AlignTail;
    var t := LStrip(s);
    var u := if AlignCells(t, false) then t else t[1..];
    var p := Skip(u, 0, NotBar);
    CellHasDash(u[..p]);
    var m :| 0 <= m < p && u[..p][m] == '-';
    assert u[m] in t && u[m] in s;
  }

  lemma CellHasDash(s: string)
    requires AlignCell(s, 1)
    ensures '-' in s
  {
    assert s[..|s|] == s;
    var i, c, d, j := CellAt(s, |s|, 1);
    assert s[c] == '-';
  }
}
