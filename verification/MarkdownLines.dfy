/** How scripts/render-adrs.py reads one line of markdown: the regular
    expressions UL, OL, FENCE, HEADING, RULE and ALIGN, and the predicates built
    on them. Lines come from splitting a file on '\n', so none holds one. */
module MarkdownLines {

  /** str.isspace, which is also what \s matches. */
  predicate Space(c: char) {
    || c == ' '
    || '\t' <= c <= '\r'
    || '\U{1C}' <= c <= '\U{1F}'
    || c == '\U{85}' || c == '\U{A0}' || c == '\U{1680}'
    || '\U{2000}' <= c <= '\U{200A}'
    || c == '\U{2028}' || c == '\U{2029}' || c == '\U{202F}' || c == '\U{205F}' || c == '\U{3000}'
  }

  predicate Digit(c: char) {
    '0' <= c <= '9'
  }

  function Is(c: char): char -> bool {
    x => x == c
  }

  predicate NotBar(c: char) {
    c != '|'
  }

  /** The first index at or after i that does not satisfy p. */
  function Skip(s: string, i: nat, p: char -> bool): (k: nat)
    requires i <= |s|
    ensures i <= k <= |s|
    ensures forall j :: i <= j < k ==> p(s[j])
    ensures k < |s| ==> !p(s[k])
    decreases |s| - i
  {
    if i < |s| && p(s[i]) then Skip(s, i + 1, p) else i
  }

  function IndentOf(s: string): (n: nat)
    ensures n <= |s|
  {
    Skip(s, 0, Space)
  }

  function LStrip(s: string): (r: string)
    ensures |r| == |s| - IndentOf(s)
  {
    s[IndentOf(s)..]
  }

  function RStrip(s: string): (r: string)
    ensures |r| <= |s|
  {
    if s != [] && Space(s[|s| - 1]) then RStrip(s[..|s| - 1]) else s
  }

  function Strip(s: string): (r: string)
    ensures |r| <= |s|
  {
    RStrip(LStrip(s))
  }

  /** not line.strip() */
  predicate Blank(s: string) {
    IndentOf(s) == |s|
  }

  predicate StartsWith(s: string, p: string) {
    p <= s
  }

  predicate AllOf(s: string, c: char) {
    forall i :: 0 <= i < |s| ==> s[i] == c
  }

  datatype Kind = Ul | Ol

  /** A list marker: its kind and where the item's text begins. */
  datatype Marker = NoMarker | Marker(kind: Kind, end: nat)

  /** The whitespace after a marker, which must lead to something. */
  function AfterMarker(s: string, k: nat, kind: Kind): (m: Marker)
    requires k <= |s|
    ensures m.Marker? ==> k < m.end < |s| && m.kind == kind
  {
    var e := Skip(s, k, Space);
    if k < e < |s| then Marker(kind, e) else NoMarker
  }

  /** OL.match, else UL.match: marker_type and m.end() together. */
  function MarkerOf(s: string): (m: Marker)
    ensures m.Marker? ==> IndentOf(s) + 2 <= m.end < |s|
  {
    var n := IndentOf(s);
    var d := Skip(s, n, Digit);
    if n < d < |s| && (s[d] == '.' || s[d] == ')') then AfterMarker(s, d + 1, Ol)
    else if n < |s| && s[n] in "-*+" then AfterMarker(s, n + 1, Ul)
    else NoMarker
  }

  /** FENCE: three backticks, then at most one word. */
  predicate Fence(s: string) {
    var t := LStrip(s);
    StartsWith(t, "```") && var w := Strip(t[3..]); forall i :: 0 <= i < |w| ==> !Space(w[i])
  }

  /** HEADING's level, 0 when the line is not one: one to four '#', then whitespace. */
  function HeadingLevel(s: string): (n: nat)
    ensures n <= 4 && n <= |s|
  {
    var k := Skip(s, 0, Is('#'));
    if 1 <= k <= 4 && k < |s| && Space(s[k]) then k else 0
  }

  /** HEADING's text: what is left without the closing '#'s. */
  function HeadingText(s: string): string {
    var t := Strip(s[HeadingLevel(s)..]);
    RStrip(DropHashes(t))
  }

  function DropHashes(s: string): string {
    if s != [] && s[|s| - 1] == '#' then DropHashes(s[..|s| - 1]) else s
  }

  predicate RuleLine(s: string) {
    var t := Strip(s);
    |t| >= 3 && (AllOf(t, '-') || AllOf(t, '*') || AllOf(t, '_'))
  }

  predicate Quoted(s: string) {
    StartsWith(LStrip(s), ">")
  }

  /** re.sub(r"^\s*>\s?", "", line) on a quoted line. */
  function Unquote(s: string): (r: string)
    requires Quoted(s)
    ensures |r| < |s|
  {
    var t := LStrip(s)[1..];
    if t != [] && Space(t[0]) then t[1..] else t
  }

  /** \s*:?-{lo,}:?\s* matches the whole of s, where lo is 1 or 0. */
  predicate AlignCell(s: string, lo: nat) {
    Dashed(Strip(s), lo)
  }

  /** :?-{lo,}:? matches the whole of t. */
  predicate Dashed(t: string, lo: nat) {
    var a := if StartsWith(t, ":") then t[1..] else t;
    var k := Skip(a, 0, Is('-'));
    lo <= k && (a[k..] == [] || a[k..] == ":")
  }

  /** The tail of ALIGN, after at least one cell: \s*:?-*:?\s*\|?\s*$ */
  predicate AlignTail(s: string) {
    var t := Strip(s);
    AlignCell(t, 0) || (t != [] && t[|t| - 1] == '|' && AlignCell(t[..|t| - 1], 0))
  }

  predicate AlignCells(s: string, some: bool)
    decreases |s|
  {
    || (some && AlignTail(s))
    || (var p := Skip(s, 0, NotBar); p < |s| && AlignCell(s[..p], 1) && AlignCells(s[p + 1..], true))
  }

  predicate Align(s: string) {
    var t := LStrip(s);
    AlignCells(t, false) || (StartsWith(t, "|") && AlignCells(t[1..], false))
  }

  predicate RowLine(s: string) {
    StartsWith(LStrip(s), "|")
  }

  predicate IsTable(lines: seq<string>, i: nat)
    requires i < |lines|
  {
    RowLine(lines[i]) && i + 1 < |lines| && Align(lines[i + 1]) && '-' in lines[i + 1]
  }

  predicate StartsBlock(lines: seq<string>, i: nat)
    requires i < |lines|
  {
    || Fence(lines[i])
    || HeadingLevel(lines[i]) > 0
    || RuleLine(lines[i])
    || Quoted(lines[i])
    || MarkerOf(lines[i]).Marker?
    || IsTable(lines, i)
  }

  // ---------------------------------------------------------------- lengths

  /** The characters in a run of lines: what every recursive call has fewer of. */
  function Chars(lines: seq<string>): nat {
    if lines == [] then 0 else |lines[0]| + Chars(lines[1..])
  }

  lemma {:induction false} CharsConcat(a: seq<string>, b: seq<string>)
    ensures Chars(a + b) == Chars(a) + Chars(b)
  {
    if a == [] {
      assert a + b == b;
    } else {
      assert (a + b)[1..] == a[1..] + b;
      CharsConcat(a[1..], b);
    }
  }

  lemma {:induction false} CharsSlice(lines: seq<string>, i: nat, j: nat)
    requires i <= j <= |lines|
    ensures Chars(lines[i..j]) <= Chars(lines)
  {
    var a, b, c := lines[..i], lines[i..j], lines[j..];
    assert lines == a + (b + c);
    CharsConcat(a, b + c);
    CharsConcat(b, c);
  }
}
