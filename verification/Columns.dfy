/** One column of the mesh list, the interfaces or the ports: what each label has
    once the labels are sorted and the pins and positions resolved
    (internal/state/meshes.go, Meshes). */
module Columns {
  import opened Options
  import opened Slots

  // ---------------------------------------------------------------- label order

  /** Go's < on strings. */
  predicate Less(a: string, b: string) {
    if b == [] then false
    else if a == [] then true
    else if a[0] != b[0] then a[0] < b[0]
    else Less(a[1..], b[1..])
  }

  lemma {:induction false} LessTotal(a: string, b: string)
    ensures Less(a, b) || Less(b, a) || a == b
  {
    if a == [] || b == [] || a[0] != b[0] {
    } else {
      LessTotal(a[1..], b[1..]);
    }
  }

  lemma {:induction false} LessTrans(a: string, b: string, c: string)
    requires Less(a, b) && Less(b, c)
    ensures Less(a, c)
  {
    if a == [] || a[0] != b[0] || b[0] != c[0] {
    } else {
      LessTrans(a[1..], b[1..], c[1..]);
    }
  }

  ghost predicate IsLeast(m: string, s: set<string>) {
    m in s && forall x :: x in s && x != m ==> Less(m, x)
  }

  lemma LeastExists(s: set<string>)
    requires s != {}
    ensures exists m :: IsLeast(m, s)
  {
    var m :| m in s;
    var rest := s - {m};
    if rest == {} {
      assert s == {m};
      assert IsLeast(m, s);
    } else {
      LeastExists(rest);
      var n :| IsLeast(n, rest);
      LessTotal(m, n);
      if Less(n, m) {
        assert IsLeast(n, s);
      } else {
        forall x | x in rest && x != n
          ensures Less(m, x)
        {
          LessTrans(m, n, x);
        }
        assert IsLeast(m, s);
      }
    }
  }

  /** The labels in order, as sort.Slice leaves them. */
  ghost function Sorted(s: set<string>): (r: seq<string>)
    ensures |r| == |s|
    ensures forall x :: x in r <==> x in s
    ensures forall i, j :: 0 <= i < j < |r| ==> r[i] != r[j]
    decreases |s|
  {
    if s == {} then []
    else
      LeastExists(s);
      var m :| IsLeast(m, s);
      [m] + Sorted(s - {m})
  }

  /** The labels that sort before l. */
  function Below(s: set<string>, l: string): set<string> {
    set x | x in s && Less(x, l)
  }

  lemma {:induction false} LessIrreflexive(a: string)
    ensures !Less(a, a)
  {
    if a == [] {
    } else {
      LessIrreflexive(a[1..]);
    }
  }

  lemma NoneBelow(s: set<string>, m: string)
    requires IsLeast(m, s)
    ensures Below(s, m) == {}
  {
    forall x | x in s
      ensures !Less(x, m)
    {
      LessIrreflexive(m);
      if x != m && Less(x, m) {
        LessTrans(x, m, x);
        LessIrreflexive(x);
      }
    }
  }

  lemma OneMoreBelow(s: set<string>, m: string, l: string)
    requires IsLeast(m, s) && l in s && l != m
    ensures |Below(s, l)| == |Below(s - {m}, l)| + 1
  {
    assert Below(s, l) == Below(s - {m}, l) + {m};
  }

  /** The least label comes first, and then the others in order. */
  lemma SortedHead(s: set<string>) returns (m: string)
    requires s != {}
    ensures IsLeast(m, s) && Sorted(s) == [m] + Sorted(s - {m}) && |s - {m}| == |s| - 1
  {
    hide Less, IsLeast;
    LeastExists(s);
    m :| IsLeast(m, s) && Sorted(s) == [m] + Sorted(s - {m});
    LeastIn(m, s);
  }

  lemma LeastIn(m: string, s: set<string>)
    requires IsLeast(m, s)
    ensures m in s
  {
  }

  /** After the least label come the others, each one place later. */
  lemma SortedTail(s: set<string>, m: string, i: nat)
    requires 0 < i < |s| && m in s && Sorted(s) == [m] + Sorted(s - {m})
    ensures i - 1 < |s - {m}| && Sorted(s)[i] == Sorted(s - {m})[i - 1] && Sorted(s)[i] in s - {m}
  {
    hide *;
    assert Sorted(s - {m})[i - 1] in Sorted(s - {m});
  }

  /** A label's position is the number of labels that sort before it. */
  lemma {:induction false} SortedPosition(s: set<string>, i: nat)
    requires i < |s|
    ensures i == |Below(s, Sorted(s)[i])|
    decreases |s|
  {
    hide *;
    var m := SortedHead(s);
    LeastIn(m, s);
    if i == 0 {
      NoneBelow(s, m);
    } else {
      SortedTail(s, m, i);
      SortedPosition(s - {m}, i - 1);
      OneMoreBelow(s, m, Sorted(s)[i]);
    }
  }

  lemma BelowSwap(s: set<string>, from: string, to: string, d: string)
    requires from in s && to !in s && Less(from, d) == Less(to, d)
    ensures |Below(s - {from} + {to}, d)| == |Below(s, d)|
  {
    hide Less;
    var t := Below(s - {from}, d);
    if Less(to, d) {
      assert Below(s, d) == t + {from};
      assert Below(s - {from} + {to}, d) == t + {to};
    } else {
      assert Below(s, d) == t;
      assert Below(s - {from} + {to}, d) == t;
    }
  }

  /** Fewer labels sort before a label than before one after it. */
  lemma BelowGrows(s: set<string>, a: string, b: string)
    requires a in s && Less(a, b)
    ensures |Below(s, a)| < |Below(s, b)|
  {
    forall x | x in Below(s, a)
      ensures x in Below(s, b)
    {
      LessTrans(x, a, b);
    }
    LessIrreflexive(a);
    hide Less;
    assert a in Below(s, b) && a !in Below(s, a);
    assert Below(s, a) <= Below(s, b) - {a};
    SubsetSize(Below(s, a), Below(s, b) - {a});
  }

  lemma {:induction false} SubsetSize(a: set<string>, b: set<string>)
    requires a <= b
    ensures |a| <= |b|
  {
    if a == {} {
    } else {
      var x :| x in a;
      SubsetSize(a - {x}, b - {x});
    }
  }

  lemma SortedOrder(s: set<string>, i: nat, j: nat)
    requires i < j < |s|
    ensures Less(Sorted(s)[i], Sorted(s)[j])
  {
    hide Less, Sorted, Below;
    var a, b := Sorted(s)[i], Sorted(s)[j];
    SortedPosition(s, i);
    SortedPosition(s, j);
    LessTotal(a, b);
    assert b in Sorted(s);
    if Less(b, a) {
      BelowGrows(s, b, a);
    }
  }

  lemma SortedPair(a: string, b: string)
    requires Less(a, b)
    ensures a != b && Sorted({a, b}) == [a, b]
  {
    LessIrreflexive(a);
    var s := {a, b};
    var r := Sorted(s);
    assert |s| == 2;
    assert r[0] in s && r[1] in s;
    SortedPosition(s, 0);
    assert r[0] == b ==> a in Below(s, b);
  }

  // ---------------------------------------------------------------- a column

  /** The labels, and what those of them that have a pin are pinned to. */
  datatype Column<T> = Column(labels: set<string>, pins: map<string, T>)

  ghost function Pins<T>(c: Column<T>): (r: seq<Option<T>>)
    ensures |r| == |c.labels|
  {
    var order := Sorted(c.labels);
    seq(|order|, i requires 0 <= i < |order| => if order[i] in c.pins then Some(c.pins[order[i]]) else None)
  }

  ghost function Position<T>(c: Column<T>, l: string): (i: nat)
    requires l in c.labels
    ensures i < |Sorted(c.labels)| && Sorted(c.labels)[i] == l
  {
    assert l in Sorted(c.labels);
    var i :| 0 <= i < |Sorted(c.labels)| && Sorted(c.labels)[i] == l;
    i
  }

  /** What l has. */
  ghost function Of<T>(k: Scheme<T>, c: Column<T>, l: string): T
    requires l in c.labels
  {
    Resolve(k.cand, k.fallback, Pins(c))[Position(c, l)]
  }

  /** A pin wins. */
  lemma PinWins<T>(k: Scheme<T>, c: Column<T>, l: string)
    requires l in c.labels && l in c.pins
    ensures Of(k, c, l) == c.pins[l]
  {
    hide Sorted, Resolve;
    ResolvePinned(k.cand, k.fallback, Pins(c), Position(c, l));
  }

  /** Two labels and no pin: the first two candidates. */
  lemma TwoLoose<T>(k: Scheme<T>, c: Column<T>, a: string, b: string)
    requires c.labels == {a, b} && c.pins == map[] && Less(a, b)
    requires k.cand(0).Some? && k.cand(1).Some? && k.cand(0) != k.cand(1)
    ensures Of(k, c, a) == k.cand(0).value && Of(k, c, b) == k.cand(1).value
  {
    SortedPair(a, b);
    hide Sorted, Less;
    assert Pins(c) == [None, None];
    assert Pinned(Pins(c)) == {};
    var r := Fill(k.cand, k.fallback, Pins(c), 0, {});
    assert r[0] == k.cand(0).value;
    assert r[1] == Fill(k.cand, k.fallback, Pins(c), 1, {} + {r[0]})[0] == k.cand(1).value;
  }

  /** Where the second candidate would wrap: the first, and what position one gives. */
  lemma TwoAtTheEnd<T>(k: Scheme<T>, c: Column<T>, a: string, b: string)
    requires c.labels == {a, b} && c.pins == map[] && Less(a, b)
    requires k.cand(0).Some? && k.cand(1).None?
    ensures Of(k, c, a) == k.cand(0).value && Of(k, c, b) == k.fallback(1)
  {
    SortedPair(a, b);
    hide Sorted, Less;
    assert Pins(c) == [None, None];
    assert Pinned(Pins(c)) == {};
    var r := Fill(k.cand, k.fallback, Pins(c), 0, {});
    assert r[0] == k.cand(0).value;
    assert r[1] == Fill(k.cand, k.fallback, Pins(c), 1, {} + {r[0]})[0] == k.fallback(1);
  }

  lemma PositionIs<T>(c: Column<T>, l: string)
    requires l in c.labels
    ensures Position(c, l) == |Below(c.labels, l)|
  {
    hide Sorted, Below;
    SortedPosition(c.labels, Position(c, l));
  }

  lemma PinnedIs<T>(c: Column<T>)
    requires c.pins.Keys <= c.labels
    ensures Pinned(Pins(c)) == c.pins.Values
  {
    hide Sorted;
    forall v | v in c.pins.Values
      ensures v in Pinned(Pins(c))
    {
      var l :| l in c.pins && c.pins[l] == v;
      assert Pins(c)[Position(c, l)] == Some(v);
    }
  }

  /** What the labels without a pin that sort before d have. */
  ghost function LooseBefore<T>(k: Scheme<T>, c: Column<T>, d: string): set<T> {
    set x | x in Below(c.labels, d) && x !in c.pins :: Of(k, c, x)
  }

  lemma OfAt<T>(k: Scheme<T>, c: Column<T>, i: nat)
    requires i < |c.labels|
    ensures Sorted(c.labels)[i] in c.labels
    ensures Of(k, c, Sorted(c.labels)[i]) == Resolve(k.cand, k.fallback, Pins(c))[i]
  {
    assert Sorted(c.labels)[i] in Sorted(c.labels);
    assert Position(c, Sorted(c.labels)[i]) == i;
  }

  lemma BelowIsBefore<T>(c: Column<T>, x: string, d: string)
    requires x in c.labels && d in c.labels && Less(x, d)
    ensures Position(c, x) < Position(c, d)
  {
    hide Sorted;
    LessIrreflexive(x);
    if Position(c, x) > Position(c, d) {
      SortedOrder(c.labels, Position(c, d), Position(c, x));
      LessTrans(x, d, x);
    }
  }

  /** When the walk comes to d the pins are taken, and what the others before it have. */
  lemma TakenIs<T>(k: Scheme<T>, c: Column<T>, d: string)
    requires d in c.labels && c.pins.Keys <= c.labels
    ensures Taken(k.cand, k.fallback, Pins(c), Position(c, d)) == c.pins.Values + LooseBefore(k, c, d)
  {
    PinnedIs(c);
    var n := Position(c, d);
    var r := Resolve(k.cand, k.fallback, Pins(c));
    var taken := Taken(k.cand, k.fallback, Pins(c), n);
    hide Resolve, Sorted, Pinned, Less;
    forall w | w in Firsts(r, n)
      ensures w in c.pins.Values + LooseBefore(k, c, d)
    {
      var m :| 0 <= m < n && r[m] == w;
      OfAt(k, c, m);
      var x := Sorted(c.labels)[m];
      SortedOrder(c.labels, m, n);
      if x in c.pins {
        PinWins(k, c, x);
      } else {
        assert x in Below(c.labels, d);
      }
    }
    forall w | w in LooseBefore(k, c, d)
      ensures w in taken
    {
      var x :| x in Below(c.labels, d) && x !in c.pins && Of(k, c, x) == w;
      BelowIsBefore(c, x, d);
      assert r[Position(c, x)] == w;
    }
  }

  /** What a label without a pin has, in every column. */
  lemma LooseExact<T(!new)>(k: Scheme<T>, c: Column<T>, d: string, v: T)
    requires d in c.labels && d !in c.pins && c.pins.Keys <= c.labels
    ensures Of(k, c, d) == v <==> Lands(k, |Below(c.labels, d)|, c.pins.Values + LooseBefore(k, c, d), v)
  {
    PositionIs(c, d);
    TakenIs(k, c, d);
    hide Resolve, Sorted, Pinned, Below, Taken, Lands;
    ResolveExact(k.cand, k.fallback, Pins(c), Position(c, d), v);
  }

  /** Where all the others are pinned. */
  lemma LoneExact<T(!new)>(k: Scheme<T>, c: Column<T>, d: string, v: T)
    requires d in c.labels && c.pins.Keys == c.labels - {d}
    ensures Of(k, c, d) == v <==> Lands(k, |Below(c.labels, d)|, c.pins.Values, v)
  {
    hide Of, Below, Lands;
    NoneLoose(k, c, d);
    assert c.pins.Values + {} == c.pins.Values;
    LooseExact(k, c, d, v);
  }

  /** Taking more leaves what was out of reach out of reach. */
  lemma StuckStays<T(!new)>(cand: nat -> Option<T>, j: nat, taken: set<T>, more: set<T>)
    requires Stuck(cand, j, taken) && taken <= more
    ensures Stuck(cand, j, more)
  {
    forall v | Reaches(cand, j, j + MaxMeshes, more, v)
      ensures v in more
    {
      SearchStuck(cand, j, j + MaxMeshes, taken, more, v);
    }
  }

  lemma {:induction false} SearchStuck<T(!new)>(cand: nat -> Option<T>, n: nat, stop: nat, taken: set<T>, more: set<T>, v: T)
    requires taken <= more && Reaches(cand, n, stop, more, v) && forall w :: Reaches(cand, n, stop, taken, w) ==> w in taken
    ensures v in more
    decreases stop - n
  {
    var x: nat :| n <= x < stop && cand(x) == Some(v) && Full(cand, n, x, more);
    assert Full(cand, n, n, taken);
    if x == n {
      assert Reaches(cand, n, stop, taken, v);
    } else {
      var first := cand(n).value;
      assert Reaches(cand, n, stop, taken, first);
      assert Full(cand, n + 1, x, more);
      forall w | Reaches(cand, n + 1, stop, taken, w)
        ensures w in taken
      {
        var y: nat :| n + 1 <= y < stop && cand(y) == Some(w) && Full(cand, n + 1, y, taken);
        assert Full(cand, n, y, taken);
      }
      SearchStuck(cand, n + 1, stop, taken, more, v);
    }
  }

  ghost function OthersHave<T>(k: Scheme<T>, c: Column<T>, d: string): set<T> {
    set l | l in c.labels - {d} :: Of(k, c, l)
  }

  /** d keeps its position, and all that the others have in c is pinned in c'. */
  ghost predicate Follows<T(!new)>(k: Scheme<T>, c: Column<T>, c': Column<T>, d: string) {
    && d in c.labels && d !in c.pins && c.pins.Keys <= c.labels
    && d in c'.labels && c'.pins.Keys == c'.labels - {d} && |Below(c'.labels, d)| == |Below(c.labels, d)|
    && c'.pins.Values == OthersHave(k, c, d)
  }

  /** At position j, beside what is held, v' is v exactly when nobody holds v, or nothing in
      reach is free and v is what the position gives. */
  ghost predicate KeptBeside<T(!new)>(k: Scheme<T>, j: nat, held: set<T>, v: T, v': T) {
    v' == v <==> v !in held || (Stuck(k.cand, j, held) && v == k.fallback(j))
  }

  /** Where d keeps its position and all that the others had is pinned, d keeps what it
      had exactly when none of them had it too, or nothing in reach is free and it is what
      the position gives. */
  lemma PlaceExact<T(!new)>(k: Scheme<T>, c: Column<T>, c': Column<T>, d: string)
    requires Follows(k, c, c', d)
    ensures KeptBeside(k, |Below(c.labels, d)|, c'.pins.Values, Of(k, c, d), Of(k, c', d))
  {
    var j, held, v := |Below(c.labels, d)|, c'.pins.Values, Of(k, c, d);
    var taken := c.pins.Values + LooseBefore(k, c, d);
    TakenIsHeldLater(k, c, d, held);
    NoneLoose(k, c', d);
    assert held + {} == held;
    hide Of, Below, Reaches, Stuck, LooseBefore;
    LooseExact(k, c, d, v);
    LooseExact(k, c', d, v);
    if v !in taken && Reaches(k.cand, j, j + MaxMeshes, taken, v) {
      ReachesMore(k.cand, j, j + MaxMeshes, taken, held, v);
    } else {
      StuckStays(k.cand, j, taken, held);
    }
  }

  lemma AllBut<T>(c: Column<T>, d: string)
    requires c.pins.Keys <= c.labels && d !in c.pins && forall l :: l in c.labels && l != d ==> l in c.pins
    ensures c.pins.Keys == c.labels - {d}
  {
  }

  lemma NoneLoose<T>(k: Scheme<T>, c: Column<T>, d: string)
    requires d in c.labels && c.pins.Keys == c.labels - {d}
    ensures LooseBefore(k, c, d) == {}
  {
    LessIrreflexive(d);
  }

  lemma TakenIsHeldLater<T>(k: Scheme<T>, c: Column<T>, d: string, held: set<T>)
    requires d in c.labels && d !in c.pins && c.pins.Keys <= c.labels
    requires held == OthersHave(k, c, d)
    ensures c.pins.Values + LooseBefore(k, c, d) <= held
  {
    hide Of;
    forall w | w in c.pins.Values
      ensures w in held
    {
      var l :| l in c.pins && c.pins[l] == w;
      PinWins(k, c, l);
      assert l in c.labels - {d};
    }
    forall w | w in LooseBefore(k, c, d)
      ensures w in held
    {
      LessIrreflexive(d);
      var x :| x in Below(c.labels, d) && x !in c.pins && Of(k, c, x) == w;
      assert x in c.labels - {d};
    }
  }

  lemma ReachesMore<T>(cand: nat -> Option<T>, j: nat, stop: nat, taken: set<T>, more: set<T>, v: T)
    requires Reaches(cand, j, stop, taken, v) && taken <= more
    ensures Reaches(cand, j, stop, more, v)
  {
    var x: nat :| j <= x < stop && cand(x) == Some(v) && Full(cand, j, x, taken);
    assert Full(cand, j, x, more);
  }
}
