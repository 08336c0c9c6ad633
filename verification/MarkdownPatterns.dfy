/** The regular expressions of scripts/render-adrs.py (lines 141-146) as regular
    expressions, with what it is for one to match, and the hand-written readings of
    MarkdownLines proved to be theirs on every line. */
module MarkdownPatterns {
  import opened MarkdownLines

  datatype Re =
    | Class(has: char -> bool)
    | Seq(first: Re, second: Re)
    | Or(left: Re, right: Re)
    | Opt(maybe: Re)
    | Run(each: char -> bool) // Class(each)*
    | Many(body: Re)          // body+

  /** The whole of s is in the language of r. */
  ghost predicate Matches(r: Re, s: string)
    decreases r, |s|
  {
    match r
    case Class(has) => |s| == 1 && has(s[0])
    case Seq(a, b) => exists k :: 0 <= k <= |s| && Matches(a, s[..k]) && Matches(b, s[k..])
    case Or(a, b) => Matches(a, s) || Matches(b, s)
    case Opt(a) => s == [] || Matches(a, s)
    case Run(each) => AllIn(s, each)
    case Many(a) => Matches(a, s) || exists k :: 0 < k <= |s| && Matches(a, s[..k]) && Matches(r, s[k..])
  }

  predicate AllIn(s: string, p: char -> bool) {
    forall i :: 0 <= i < |s| ==> p(s[i])
  }

  function Lit(c: char): Re {
    Class(Is(c))
  }

  function Times(c: char): Re {
    Run(Is(c))
  }

  function Spaces(r: Re): Re {
    Seq(Run(Space), r)
  }

  predicate Ink(c: char) {
    !Space(c)
  }

  predicate Bullet(c: char) {
    c in "-*+"
  }

  predicate Stop(c: char) {
    c == '.' || c == ')'
  }

  /** ^(\s*)[-*+]\s+ and ^(\s*)\d+[.)]\s+; both are followed by (?=\S). */
  function MarkerPattern(kind: Kind): Re {
    var after := Seq(Class(Space), Run(Space));
    match kind
    case Ul => Spaces(Seq(Class(Bullet), after))
    case Ol => Spaces(Seq(Class(Digit), Seq(Run(Digit), Seq(Class(Stop), after))))
  }

  /** ^\s*```\s*(\S*)\s*$ */
  function FencePattern(): Re {
    Spaces(Seq(Lit('`'), Seq(Lit('`'), Seq(Lit('`'), Spaces(Seq(Run(Ink), Run(Space)))))))
  }

  function Three(c: char): Re {
    Seq(Lit(c), Seq(Lit(c), Seq(Lit(c), Times(c))))
  }

  /** ^\s*(?:-{3,}|\*{3,}|_{3,})\s*$ */
  function RulePattern(): Re {
    Spaces(Seq(RulerPattern(), Run(Space)))
  }

  /** What follows a heading's text: \s*#*\s*$ */
  function HeadingTail(): Re {
    Spaces(Seq(Times('#'), Run(Space)))
  }

  /** At most n number signs before the rest. */
  function Hashes(n: nat, rest: Re): Re {
    if n == 0 then rest else Seq(Opt(Lit('#')), Hashes(n - 1, rest))
  }

  predicate Dot(c: char) {
    c != '\n'
  }

  function AfterHashes(): Re {
    Seq(Class(Space), Spaces(Seq(Run(Dot), HeadingTail())))
  }

  /** ^(#{1,4})\s+(.*?)\s*#*\s*$ */
  function HeadingPattern(): Re {
    Seq(Lit('#'), Hashes(3, AfterHashes()))
  }

  /** ^\s*>\s? */
  function QuotePattern(): Re {
    Spaces(Seq(Lit('>'), Opt(Class(Space))))
  }

  // ---------------------------------------------------------------- one step of a match

  lemma SeqClass(p: char -> bool, r: Re, s: string)
    ensures Matches(Seq(Class(p), r), s) <==> s != [] && p(s[0]) && Matches(r, s[1..])
  {
    if s != [] && p(s[0]) && Matches(r, s[1..]) {
      assert Matches(Class(p), s[..1]);
    }
  }

  /** The rest of a pattern is met after some run that its first part is met by. */
  lemma SeqRun(p: char -> bool, r: Re, s: string) returns (k: nat)
    requires Matches(Seq(Run(p), r), s)
    ensures k <= |s| && AllIn(s[..k], p) && Matches(r, s[k..])
  {
    k :| 0 <= k <= |s| && Matches(Run(p), s[..k]) && Matches(r, s[k..]);
  }

  lemma RunSeq(p: char -> bool, r: Re, s: string, k: nat)
    requires k <= |s| && AllIn(s[..k], p) && Matches(r, s[k..])
    ensures Matches(Seq(Run(p), r), s)
  {
    assert Matches(Run(p), s[..k]);
  }

  lemma SeqOpt(p: char -> bool, r: Re, s: string)
    ensures Matches(Seq(Opt(Class(p)), r), s) <==> Matches(r, s) || (s != [] && p(s[0]) && Matches(r, s[1..]))
  {
    if Matches(r, s) {
      assert s[..0] == [] && s[0..] == s && Matches(Opt(Class(p)), s[..0]);
    } else if s != [] && p(s[0]) && Matches(r, s[1..]) {
      assert Matches(Class(p), s[..1]) && Matches(Opt(Class(p)), s[..1]);
    }
    if k :| 0 <= k <= |s| && Matches(Opt(Class(p)), s[..k]) && Matches(r, s[k..]) {
      if k == 0 {
        assert s[0..] == s;
      } else {
        assert Matches(Class(p), s[..k]) && k == 1;
      }
    }
  }

  lemma AllAt(s: string, i: nat, j: nat, p: char -> bool)
    requires i <= j <= |s| && AllIn(s[i..j], p)
    ensures forall k :: i <= k < j ==> p(s[k])
  {
    forall k | i <= k < j
      ensures p(s[k])
    {
      assert s[i..j][k - i] == s[k];
    }
  }

  /** The same steps along one line: a run from i to k, and then the rest. */
  lemma FromRun(p: char -> bool, r: Re, s: string, i: nat) returns (k: nat)
    requires i <= |s| && Matches(Seq(Run(p), r), s[i..])
    ensures i <= k <= |s| && (forall m :: i <= m < k ==> p(s[m])) && Matches(r, s[k..])
  {
    var n := SeqRun(p, r, s[i..]);
    hide Matches;
    k := i + n;
    assert s[i..][..n] == s[i..k] && s[i..][n..] == s[k..];
    AllAt(s, i, k, p);
  }

  lemma RunFrom(p: char -> bool, r: Re, s: string, i: nat, k: nat)
    requires i <= k <= |s| && (forall m :: i <= m < k ==> p(s[m])) && Matches(r, s[k..])
    ensures Matches(Seq(Run(p), r), s[i..])
  {
    hide Matches;
    assert s[i..][..k - i] == s[i..k] && s[i..][k - i..] == s[k..];
    RunSeq(p, r, s[i..], k - i);
  }

  lemma ClassFrom(p: char -> bool, r: Re, s: string, i: nat)
    requires i <= |s|
    ensures Matches(Seq(Class(p), r), s[i..]) <==> i < |s| && p(s[i]) && Matches(r, s[i + 1..])
  {
    hide Matches;
    SeqClass(p, r, s[i..]);
    assert i < |s| ==> s[i..][1..] == s[i + 1..];
  }

  lemma OptFrom(p: char -> bool, r: Re, s: string, i: nat)
    requires i <= |s|
    ensures Matches(Seq(Opt(Class(p)), r), s[i..]) <==> Matches(r, s[i..]) || (i < |s| && p(s[i]) && Matches(r, s[i + 1..]))
  {
    hide Matches;
    SeqOpt(p, r, s[i..]);
    assert i < |s| ==> s[i..][1..] == s[i + 1..];
  }

  // ---------------------------------------------------------------- the space around

  lemma IndentIs(s: string, k: nat)
    requires k <= |s| && AllIn(s[..k], Space) && (k < |s| ==> !Space(s[k]))
    ensures IndentOf(s) == k
  {
    AllAt(s, 0, k, Space);
    assert s[..k] == s[0..k];
  }

  /** Leading space is what the pattern's \s* takes, where the rest cannot begin with any. */
  lemma SpacesExact(r: Re, s: string)
    requires forall t: string :: Matches(r, t) && t != [] ==> !Space(t[0])
    ensures Matches(Spaces(r), s) <==> Matches(r, LStrip(s))
  {
    if Matches(Spaces(r), s) {
      var k := SeqRun(Space, r, s);
      IndentIs(s, k);
    }
    if Matches(r, LStrip(s)) {
      RunSeq(Space, r, s, IndentOf(s));
    }
  }

  predicate Between(s: string, i: int, j: int) {
    && 0 <= i <= j <= |s|
    && (forall k :: 0 <= k < i ==> Space(s[k])) && (forall k :: j <= k < |s| ==> Space(s[k]))
  }

  lemma {:induction false} RStripIs(s: string, j: nat)
    requires j <= |s| && (forall k :: j <= k < |s| ==> Space(s[k])) && (j > 0 ==> !Space(s[j - 1]))
    ensures RStrip(s) == s[..j]
    decreases |s|
  {
    if j == |s| {
      assert s[..j] == s;
    } else {
      RStripIs(s[..|s| - 1], j);
      assert s[..|s| - 1][..j] == s[..j];
    }
  }

  /** What is left between the space before and after is the text stripped. */
  lemma StripIs(s: string, i: nat, j: nat)
    requires Between(s, i, j) && (i < j ==> !Space(s[i]) && !Space(s[j - 1]))
    ensures Strip(s) == s[i..j]
  {
    if i < j {
      IndentIs(s, i);
      RStripIs(LStrip(s), j - i);
      assert LStrip(s)[..j - i] == s[i..j];
    } else {
      IndentIs(s, |s|);
      RStripIs(LStrip(s), 0);
    }
  }

  lemma {:induction false} RStripEnd(s: string) returns (j: nat)
    ensures j <= |s| && (forall k :: j <= k < |s| ==> Space(s[k])) && (j > 0 ==> !Space(s[j - 1])) && RStrip(s) == s[..j]
  {
    if s != [] && Space(s[|s| - 1]) {
      j := RStripEnd(s[..|s| - 1]);
    } else {
      j := |s|;
    }
  }

  lemma StripAt(s: string) returns (i: nat, j: nat)
    ensures Between(s, i, j) && i == IndentOf(s) && Strip(s) == s[i..j]
    ensures (i < |s| ==> !Space(s[i])) && (i < j ==> !Space(s[j - 1]))
  {
    i := IndentOf(s);
    var k := RStripEnd(LStrip(s));
    j := i + k;
    if k == 0 {
    } else {
      assert LStrip(s)[k - 1] == s[j - 1];
    }
    forall m | j <= m < |s|
      ensures Space(s[m])
    {
      assert LStrip(s)[m - i] == s[m];
    }
  }

  // ---------------------------------------------------------------- markers

  /** The space a marker must be followed by, up to the item's text. */
  lemma AfterExact(s: string)
    ensures Matches(Seq(Class(Space), Run(Space)), s) <==> s != [] && AllIn(s, Space)
  {
    SeqClass(Space, Run(Space), s);
  }

  lemma BulletExact(s: string)
    ensures Matches(MarkerPattern(Ul), s) <==>
              exists n :: 0 <= n && n + 1 < |s| && AllIn(s[..n], Space) && Bullet(s[n]) && AllIn(s[n + 1..], Space)
  {
    var after := Seq(Class(Space), Run(Space));
    if Matches(MarkerPattern(Ul), s) {
      var n := SeqRun(Space, Seq(Class(Bullet), after), s);
      SeqClass(Bullet, after, s[n..]);
      assert s[n..][1..] == s[n + 1..];
      AfterExact(s[n + 1..]);
    }
    if n :| 0 <= n && n + 1 < |s| && AllIn(s[..n], Space) && Bullet(s[n]) && AllIn(s[n + 1..], Space) {
      assert s[n..][1..] == s[n + 1..];
      AfterExact(s[n + 1..]);
      SeqClass(Bullet, after, s[n..]);
      RunSeq(Space, Seq(Class(Bullet), after), s, n);
    }
  }

  ghost predicate Numbered(s: string, n: int, d: int) {
    && 0 <= n < d && d + 1 < |s|
    && AllIn(s[..n], Space) && AllIn(s[n..d], Digit) && Stop(s[d]) && AllIn(s[d + 1..], Space)
  }

  lemma NumberExact(s: string)
    ensures Matches(MarkerPattern(Ol), s) <==> exists n, d :: Numbered(s, n, d)
  {
    hide Matches;
    if Matches(MarkerPattern(Ol), s) {
      var n, d := NumberAt(s);
    }
    if n, d :| Numbered(s, n, d) {
      NumberMatch(s, n, d);
    }
  }

  function NumberEnd(): Re {
    Seq(Class(Stop), Seq(Class(Space), Run(Space)))
  }

  lemma NumberAt(s: string) returns (n: nat, d: nat)
    requires Matches(MarkerPattern(Ol), s)
    ensures Numbered(s, n, d)
  {
    hide Matches;
    assert s[0..] == s;
    n := FromRun(Space, Seq(Class(Digit), Seq(Run(Digit), NumberEnd())), s, 0);
    ClassFrom(Digit, Seq(Run(Digit), NumberEnd()), s, n);
    d := FromRun(Digit, NumberEnd(), s, n + 1);
    ClassFrom(Stop, Seq(Class(Space), Run(Space)), s, d);
    AfterExact(s[d + 1..]);
  }

  lemma NumberMatch(s: string, n: nat, d: nat)
    requires Numbered(s, n, d)
    ensures Matches(MarkerPattern(Ol), s)
  {
    hide Matches;
    assert s[..n] == s[0..n] && s[0..] == s;
    AllAt(s, 0, n, Space);
    AllAt(s, n, d, Digit);
    AfterExact(s[d + 1..]);
    ClassFrom(Stop, Seq(Class(Space), Run(Space)), s, d);
    RunFrom(Digit, NumberEnd(), s, n + 1, d);
    ClassFrom(Digit, Seq(Run(Digit), NumberEnd()), s, n);
    RunFrom(Space, Seq(Class(Digit), Seq(Run(Digit), NumberEnd())), s, 0, n);
  }

  /** A line has a marker of a kind, with its text at e, exactly when that kind's pattern
      matches up to e and something else than space follows. */
  lemma MarkerExact(s: string, kind: Kind, e: nat)
    ensures MarkerOf(s) == Marker(kind, e) <==> e < |s| && !Space(s[e]) && Matches(MarkerPattern(kind), s[..e])
  {
    if e < |s| {
      BulletExact(s[..e]);
      NumberExact(s[..e]);
      if kind == Ul {
        BulletMarker(s, e);
      } else {
        NumberMarker(s, e);
      }
    }
  }

  lemma BulletMarker(s: string, e: nat)
    requires e < |s|
    ensures MarkerOf(s) == Marker(Ul, e) <==>
              !Space(s[e]) && exists n :: 0 <= n && n + 1 < e && AllIn(s[..e][..n], Space) && Bullet(s[..e][n]) && AllIn(s[..e][n + 1..], Space)
  {
    var n := IndentOf(s);
    if MarkerOf(s) == Marker(Ul, e) {
      assert AllIn(s[..e][..n], Space) && Bullet(s[..e][n]) && AllIn(s[..e][n + 1..], Space);
    }
    if !Space(s[e]) {
      if m :| 0 <= m && m + 1 < e && AllIn(s[..e][..m], Space) && Bullet(s[..e][m]) && AllIn(s[..e][m + 1..], Space) {
        assert s[..e][..m] == s[..m];
        IndentIs(s, m);
        SkipIs(s, m + 1, e);
      }
    }
  }

  lemma SkipIs(s: string, i: nat, e: nat)
    requires i <= e < |s| && !Space(s[e]) && AllIn(s[..e][i..], Space)
    ensures Skip(s, i, Space) == e
  {
    assert s[..e][i..] == s[i..e];
    AllAt(s, i, e, Space);
  }

  lemma NumberMarker(s: string, e: nat)
    requires e < |s|
    ensures MarkerOf(s) == Marker(Ol, e) <==> !Space(s[e]) && exists n, d :: Numbered(s[..e], n, d)
  {
    var n := IndentOf(s);
    var d := Skip(s, n, Digit);
    if MarkerOf(s) == Marker(Ol, e) {
      assert Numbered(s[..e], n, d);
    }
    if !Space(s[e]) {
      if m, c :| Numbered(s[..e], m, c) {
        NumberedIs(s, e, m, c);
      }
    }
  }

  lemma NumberedIs(s: string, e: nat, m: nat, c: nat)
    requires e < |s| && !Space(s[e]) && Numbered(s[..e], m, c)
    ensures MarkerOf(s) == Marker(Ol, e)
  {
    assert s[..e][..m] == s[..m];
    assert s[m] == s[..e][m..c][0];
    IndentIs(s, m);
    assert s[..e][m..c] == s[m..c];
    AllAt(s, m, c, Digit);
    assert s[c] == s[..e][c];
    SkipIs(s, c + 1, e);
  }

  // ---------------------------------------------------------------- fences and rules

  /** A line is a fence exactly when FENCE matches it. */
  lemma FenceExact(s: string)
    ensures Fence(s) <==> Matches(FencePattern(), s)
  {
    var word := Spaces(Seq(Run(Ink), Run(Space)));
    var t := LStrip(s);
    Ticks(word, t);
    forall t: string | Matches(Seq(Lit('`'), Seq(Lit('`'), Seq(Lit('`'), word))), t) && t != []
      ensures !Space(t[0])
    {
      SeqClass(Is('`'), Seq(Lit('`'), Seq(Lit('`'), word)), t);
    }
    SpacesExact(Seq(Lit('`'), Seq(Lit('`'), Seq(Lit('`'), word))), s);
    if StartsWith(t, "```") {
      WordExact(t[3..]);
    }
  }

  lemma Ticks(word: Re, t: string)
    ensures Matches(Seq(Lit('`'), Seq(Lit('`'), Seq(Lit('`'), word))), t) <==> StartsWith(t, "```") && Matches(word, t[3..])
  {
    hide Matches;
    SeqClass(Is('`'), Seq(Lit('`'), Seq(Lit('`'), word)), t);
    if t != [] {
      SeqClass(Is('`'), Seq(Lit('`'), word), t[1..]);
      if t[1..] != [] {
        SeqClass(Is('`'), word, t[1..][1..]);
        assert |t| >= 3 ==> t[1..][1..][1..] == t[3..];
      }
    }
  }

  /** \s*(\S*)\s*$: one word at most. */
  lemma WordExact(t: string)
    ensures Matches(Spaces(Seq(Run(Ink), Run(Space))), t) <==> AllIn(Strip(t), Ink)
  {
    var i, j := StripAt(t);
    if AllIn(Strip(t), Ink) {
      assert t[i..][..j - i] == t[i..j] && t[i..][j - i..] == t[j..];
      RunSeq(Ink, Run(Space), t[i..], j - i);
      RunSeq(Space, Seq(Run(Ink), Run(Space)), t, i);
    }
    if Matches(Spaces(Seq(Run(Ink), Run(Space))), t) {
      var a := SeqRun(Space, Seq(Run(Ink), Run(Space)), t);
      var k := SeqRun(Ink, Run(Space), t[a..]);
      var b := a + k;
      WordIs(t, a, b);
    }
  }

  lemma WordIs(t: string, a: nat, b: nat)
    requires a <= b <= |t| && AllIn(t[..a], Space) && AllIn(t[a..][..b - a], Ink) && AllIn(t[a..][b - a..], Space)
    ensures AllIn(Strip(t), Ink)
  {
    forall k | a <= k < b
      ensures Ink(t[k])
    {
      assert t[a..][..b - a][k - a] == t[k];
    }
    forall k | b <= k < |t|
      ensures Space(t[k])
    {
      assert t[a..][b - a..][k - b] == t[k];
    }
    StripIs(t, a, b);
  }

  lemma ThreeExact(c: char, s: string)
    ensures Matches(Three(c), s) <==> |s| >= 3 && AllOf(s, c)
  {
    var run := Times(c);
    SeqClass(Is(c), Seq(Lit(c), Seq(Lit(c), run)), s);
    if s != [] {
      SeqClass(Is(c), Seq(Lit(c), run), s[1..]);
      if s[1..] != [] {
        SeqClass(Is(c), run, s[1..][1..]);
        if |s| >= 3 {
          assert s[1..][1..][1..] == s[3..];
          assert AllOf(s, c) <==> s[0] == c && s[1] == c && s[2] == c && AllIn(s[3..], Is(c)) by {
            if AllIn(s[3..], Is(c)) {
              assert forall i :: 3 <= i < |s| ==> s[i] == s[3..][i - 3];
            }
          }
        }
      }
    }
  }

  predicate Ruler(t: string) {
    |t| >= 3 && (AllOf(t, '-') || AllOf(t, '*') || AllOf(t, '_'))
  }

  function RulerPattern(): Re {
    Or(Three('-'), Or(Three('*'), Three('_')))
  }

  lemma RulerExact(t: string)
    ensures Matches(RulerPattern(), t) <==> Ruler(t)
  {
    ThreeExact('-', t);
    ThreeExact('*', t);
    ThreeExact('_', t);
    hide AllOf;
  }

  /** A line is a rule exactly when RULE matches it. */
  lemma RuleExact(s: string)
    ensures RuleLine(s) <==> Matches(RulePattern(), s)
  {
    var i, j := StripAt(s);
    if RuleLine(s) {
      RulerMatches(s, i, j);
    }
    if Matches(RulePattern(), s) {
      hide Ruler, AllOf, RulerPattern;
      var a := SeqRun(Space, Seq(RulerPattern(), Run(Space)), s);
      var k :| 0 <= k <= |s[a..]| && Matches(RulerPattern(), s[a..][..k]) && Matches(Run(Space), s[a..][k..]);
      assert s[a..][..k] == s[a..a + k] && s[a..][k..] == s[a + k..];
      RulerExact(s[a..a + k]);
      RulerIs(s, a, a + k);
    }
  }

  lemma RulerMatches(s: string, i: nat, j: nat)
    requires i <= j <= |s| && AllIn(s[..i], Space) && AllIn(s[j..], Space) && Ruler(s[i..j])
    ensures Matches(RulePattern(), s)
  {
    hide Ruler, RulerPattern;
    RulerExact(s[i..j]);
    assert s[i..][..j - i] == s[i..j] && s[i..][j - i..] == s[j..];
    assert Matches(Run(Space), s[j..]);
    assert Matches(Seq(RulerPattern(), Run(Space)), s[i..]);
    RunSeq(Space, Seq(RulerPattern(), Run(Space)), s, i);
  }

  lemma RulerIs(s: string, a: nat, b: nat)
    requires a <= b <= |s| && AllIn(s[..a], Space) && AllIn(s[b..], Space) && Ruler(s[a..b])
    ensures RuleLine(s)
  {
    assert s[..a] == s[0..a] && s[b..] == s[b..|s|];
    AllAt(s, 0, a, Space);
    AllAt(s, b, |s|, Space);
    assert s[a..b][0] == s[a] && s[a..b][b - a - 1] == s[b - 1];
    StripIs(s, a, b);
  }

  // ---------------------------------------------------------------- headings and quotes

  lemma TailMatch(s: string, m: nat, h: nat, j: nat)
    requires m <= h <= j <= |s| && (forall x :: m <= x < h ==> Space(s[x])) && (forall x :: h <= x < j ==> s[x] == '#')
    requires forall x :: j <= x < |s| ==> Space(s[x])
    ensures Matches(HeadingTail(), s[m..])
  {
    assert Matches(Run(Space), s[j..]);
    hide Matches;
    RunFrom(Is('#'), Run(Space), s, h, j);
    RunFrom(Space, Seq(Times('#'), Run(Space)), s, m, h);
  }

  lemma TailSplit(s: string, m: nat) returns (h: nat, j: nat)
    requires m <= |s| && Matches(HeadingTail(), s[m..])
    ensures m <= h <= j <= |s| && (forall x :: m <= x < h ==> Space(s[x])) && (forall x :: h <= x < j ==> s[x] == '#')
    ensures forall x :: j <= x < |s| ==> Space(s[x])
  {
    h := FromRun(Space, Seq(Times('#'), Run(Space)), s, m);
    j := FromRun(Is('#'), Run(Space), s, h);
    assert s[j..] == s[j..|s|];
    AllAt(s, j, |s|, Space);
  }

  lemma {:induction false} HashesEnd(t: string) returns (h: nat)
    ensures h <= |t| && DropHashes(t) == t[..h] && (forall x :: h <= x < |t| ==> t[x] == '#') && (h > 0 ==> t[h - 1] != '#')
  {
    if t != [] && t[|t| - 1] == '#' {
      h := HashesEnd(t[..|t| - 1]);
    } else {
      h := |t|;
    }
  }

  /** Where a heading's text is: after the space that follows its number signs, up to the
      space, number signs and space that end the line. */
  predicate TextAt(s: string, n: int, k: int, m: int, h: int, j: int) {
    && 0 <= n <= k <= m <= h <= j <= |s|
    && (forall x :: n <= x < k ==> Space(s[x])) && (k < |s| ==> !Space(s[k]))
    && (forall x :: m <= x < h ==> Space(s[x])) && (forall x :: h <= x < j ==> s[x] == '#') && (forall x :: j <= x < |s| ==> Space(s[x]))
    && (k < j ==> !Space(s[j - 1])) && (m < h ==> h < j)
    && (k < m ==> !Space(s[m - 1]) && (m == h ==> s[m - 1] != '#'))
  }

  /** A text that ends in no space, up to the space and number signs it ends in. */
  lemma TextIn(t: string) returns (e: nat, c: nat)
    requires t != [] ==> !Space(t[|t| - 1])
    ensures e <= c <= |t| && RStrip(DropHashes(t)) == t[..e]
    ensures (forall x :: e <= x < c ==> Space(t[x])) && (forall x :: c <= x < |t| ==> t[x] == '#') && (e < c ==> c < |t|)
    ensures e > 0 ==> !Space(t[e - 1]) && (e == c ==> t[e - 1] != '#')
  {
    hide Space, RStrip, DropHashes;
    c := HashesEnd(t);
    e := RStripEnd(t[..c]);
    assert t[..c][..e] == t[..e];
    forall x | e <= x < c
      ensures Space(t[x])
    {
      assert t[..c][x] == t[x];
    }
  }

  lemma SliceOf(s: string, n: nat, a: nat, b: nat, e: nat)
    requires n <= |s| && a <= b <= |s| - n && e <= b - a
    ensures s[n..][a..b][..e] == s[n + a..n + a + e]
  {
    forall x | 0 <= x < e
      ensures s[n..][a..b][..e][x] == s[n + a..n + a + e][x]
    {
      assert s[n..][a + x] == s[n + a + x];
    }
  }

  lemma HeadingTextAt(s: string) returns (k: nat, m: nat, h: nat, j: nat)
    requires HeadingLevel(s) > 0
    ensures TextAt(s, HeadingLevel(s), k, m, h, j) && HeadingText(s) == s[k..m]
  {
    var n := HeadingLevel(s);
    hide Space, HeadingLevel, Strip, RStrip, IndentOf, DropHashes, TextAt;
    var a, b := StripAt(s[n..]);
    var e, c := TextIn(s[n..][a..b]);
    SliceOf(s, n, a, b, e);
    TextMade(s, n, a, b, e, c);
    k, m, h, j := n + a, n + a + e, n + a + c, n + b;
  }

  lemma TextMade(s: string, n: nat, a: nat, b: nat, e: nat, c: nat)
    requires n <= |s| && Between(s[n..], a, b) && (a < |s| - n ==> !Space(s[n..][a])) && (a < b ==> !Space(s[n..][b - 1]))
    requires var t := s[n..][a..b];
             && e <= c <= |t| && (forall x :: e <= x < c ==> Space(t[x])) && (forall x :: c <= x < |t| ==> t[x] == '#') && (e < c ==> c < |t|)
             && (e > 0 ==> !Space(t[e - 1]) && (e == c ==> t[e - 1] != '#'))
    ensures TextAt(s, n, n + a, n + a + e, n + a + c, n + b)
  {
    hide Space;
    var u := s[n..];
    var t := u[a..b];
    forall x | n <= x < |s|
      ensures s[x] == u[x - n] && (n + a <= x < n + b ==> s[x] == t[x - n - a])
    {
    }
  }

  /** The text is the shortest that HEADING's tail can follow, after all the space that can
      come before it. */
  lemma HeadingTextExact(s: string)
    requires HeadingLevel(s) > 0
    ensures exists k, m :: HeadingTextIs(s, k, m) && HeadingText(s) == s[k..m]
  {
    var k, m, h, j := HeadingTextAt(s);
    hide HeadingLevel, HeadingText, Matches;
    TailMatch(s, m, h, j);
    forall x: nat | k <= x <= |s| && Matches(HeadingTail(), s[x..])
      ensures m <= x
    {
      TailIsLast(s, HeadingLevel(s), k, m, h, j, x);
    }
    assert HeadingTextIs(s, k, m);
  }

  ghost predicate HeadingTextIs(s: string, k: int, m: int) {
    && HeadingLevel(s) <= k <= m <= |s|
    && (forall x :: HeadingLevel(s) <= x < k ==> Space(s[x])) && (k < |s| ==> !Space(s[k]))
    && Matches(HeadingTail(), s[m..]) && forall x :: k <= x < m ==> !Matches(HeadingTail(), s[x..])
  }

  /** No tail begins before the text has ended. */
  lemma TailIsLast(s: string, n: nat, k: nat, m: nat, h: nat, j: nat, x: nat)
    requires TextAt(s, n, k, m, h, j) && k <= x <= |s| && Matches(HeadingTail(), s[x..])
    ensures m <= x
  {
    HashNoSpace();
    hide Matches, Space;
    var a, b := TailSplit(s, x);
    assert k < m ==> !Space(s[m - 1]);
    assert m < h ==> Space(s[m]) && s[h] == '#';
  }

  lemma HashNoSpace()
    ensures !Space('#') && !Space('>')
  {
  }

  lemma {:induction false} HashesSplit(n: nat, rest: Re, s: string, i: nat) returns (k: nat)
    requires i <= |s| && Matches(Hashes(n, rest), s[i..])
    ensures i <= k <= i + n && k <= |s| && (forall x :: i <= x < k ==> s[x] == '#') && Matches(rest, s[k..])
  {
    hide Matches;
    if n == 0 {
      k := i;
    } else {
      OptFrom(Is('#'), Hashes(n - 1, rest), s, i);
      k := HashesSplit(n - 1, rest, s, if Matches(Hashes(n - 1, rest), s[i..]) then i else i + 1);
    }
  }

  lemma {:induction false} HashesMatch(n: nat, rest: Re, s: string, i: nat, k: nat)
    requires i <= k <= i + n && k <= |s| && (forall x :: i <= x < k ==> s[x] == '#') && Matches(rest, s[k..])
    ensures Matches(Hashes(n, rest), s[i..])
  {
    hide Matches;
    if n == 0 {
    } else {
      OptFrom(Is('#'), Hashes(n - 1, rest), s, i);
      HashesMatch(n - 1, rest, s, if i < k then i + 1 else i, k);
    }
  }

  /** A line, which holds no newline, is a heading exactly when HEADING matches it. */
  lemma HeadingMatches(s: string)
    requires '\n' !in s
    ensures HeadingLevel(s) > 0 <==> Matches(HeadingPattern(), s)
  {
    HashNoSpace();
    assert s[0..] == s;
    ClassFrom(Is('#'), Hashes(3, AfterHashes()), s, 0);
    if Matches(HeadingPattern(), s) {
      var n := HashesSplit(3, AfterHashes(), s, 1);
      hide Matches, Space;
      ClassFrom(Space, Spaces(Seq(Run(Dot), HeadingTail())), s, n);
      assert Skip(s, 0, Is('#')) == n;
    }
    if HeadingLevel(s) > 0 {
      var n := HeadingLevel(s);
      AfterMatches(s);
      hide Matches, Space;
      HashesMatch(3, AfterHashes(), s, 1, n);
    }
  }

  lemma AfterMatches(s: string)
    requires '\n' !in s && HeadingLevel(s) > 0
    ensures Matches(AfterHashes(), s[HeadingLevel(s)..])
  {
    var n := HeadingLevel(s);
    var k, m, h, j := HeadingTextAt(s);
    assert Space(s[n]);
    hide Matches, Space, HeadingLevel, HeadingText;
    TailMatch(s, m, h, j);
    assert n < k;
    RunFrom(Dot, HeadingTail(), s, k, m);
    RunFrom(Space, Seq(Run(Dot), HeadingTail()), s, n + 1, k);
    ClassFrom(Space, Spaces(Seq(Run(Dot), HeadingTail())), s, n);
  }

  /** A quoted line is one that QUOTE matches the beginning of, and it loses what that takes:
      space, the sign, and the one space after it that the pattern takes if it can. */
  lemma QuotedExact(s: string)
    ensures Quoted(s) <==> exists e :: 0 <= e <= |s| && Matches(QuotePattern(), s[..e])
    ensures Quoted(s) ==> exists e :: 0 <= e <= |s| && Unquote(s) == s[e..] && Matches(QuotePattern(), s[..e])
                                      && forall x :: e < x <= |s| ==> !Matches(QuotePattern(), s[..x])
  {
    hide Matches, Unquote;
    forall e: nat | e <= |s| && Matches(QuotePattern(), s[..e])
      ensures QuoteEnds(s, e)
    {
      QuoteAt(s, e);
    }
    if Quoted(s) {
      var n := IndentOf(s);
      assert LStrip(s)[0] == s[n];
      var e := if n + 1 < |s| && Space(s[n + 1]) then n + 2 else n + 1;
      QuoteMatch(s, e);
      UnquoteIs(s, e);
    }
  }

  /** Space, the sign, and one space at most, up to e. */
  predicate QuoteEnds(s: string, e: int) {
    var n := IndentOf(s);
    n < |s| && s[n] == '>' && (e == n + 1 || (e == n + 2 && e <= |s| && Space(s[n + 1])))
  }

  lemma UnquoteIs(s: string, e: nat)
    requires Quoted(s) && QuoteEnds(s, e) && (e == IndentOf(s) + 1 && e < |s| ==> !Space(s[e]))
    ensures e <= |s| && Unquote(s) == s[e..]
  {
    var n := IndentOf(s);
    var t := LStrip(s)[1..];
    assert t == s[n + 1..];
  }

  lemma QuoteAt(s: string, e: nat)
    requires e <= |s| && Matches(QuotePattern(), s[..e])
    ensures QuoteEnds(s, e) && Quoted(s)
  {
    var u := s[..e];
    assert u[0..] == u;
    var n := FromRun(Space, Seq(Lit('>'), Opt(Class(Space))), u, 0);
    ClassFrom(Is('>'), Opt(Class(Space)), u, n);
    assert u[n] == s[n];
    HashNoSpace();
    hide Space;
    assert forall m :: 0 <= m < n ==> u[m] == s[m];
    assert s[..n] == s[0..n];
    IndentIs(s, n);
    assert LStrip(s)[0] == '>';
    assert u[n + 1..] == [] || |u[n + 1..]| == 1;
    if e > n + 1 {
      assert u[n + 1..][0] == s[n + 1];
    }
  }

  lemma QuoteMatch(s: string, e: nat)
    requires e <= |s| && QuoteEnds(s, e)
    ensures Matches(QuotePattern(), s[..e])
  {
    var u, n := s[..e], IndentOf(s);
    assert u[0..] == u && u[n] == '>';
    if e == n + 1 {
      assert u[n + 1..] == [];
    } else {
      assert u[n + 1..] == [s[n + 1]] && Matches(Class(Space), [s[n + 1]]);
    }
    assert Matches(Opt(Class(Space)), u[n + 1..]);
    ClassFrom(Is('>'), Opt(Class(Space)), u, n);
    RunFrom(Space, Seq(Lit('>'), Opt(Class(Space))), u, 0, n);
  }
}
