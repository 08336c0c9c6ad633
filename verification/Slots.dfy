/** How a mesh without a pinned interface or port is given one
    (internal/state/meshes.go, Meshes, freeIface and freePort): the meshes are
    walked in label order, pins are kept, and each of the others takes the first
    free candidate from its own position on. Interfaces and ports are resolved
    alike, so this is written once for any candidate T. */
module Slots {
  import opened Options

  const MaxMeshes: nat := 64

  /** The candidates a base gives, and what a position gives when they run out. */
  datatype Scheme<!T> = Scheme(cand: nat -> Option<T>, fallback: nat -> T)

  /** cand(n) is the n-th candidate, None where a port would wrap; the search stops
      there. */
  function Search<T(==)>(cand: nat -> Option<T>, n: nat, stop: nat, taken: set<T>): Option<T>
    decreases stop - n
  {
    if n >= stop || cand(n).None? then None
    else if cand(n).value !in taken then cand(n)
    else Search(cand, n + 1, stop, taken)
  }

  function FreeSlot<T(==)>(cand: nat -> Option<T>, fallback: nat -> T, i: nat, taken: set<T>): T {
    var s := Search(cand, i, i + MaxMeshes, taken);
    if s.Some? then s.value else fallback(i)
  }

  function Fill<T(==)>(cand: nat -> Option<T>, fallback: nat -> T, pins: seq<Option<T>>, i: nat, taken: set<T>): (r: seq<T>)
    requires i <= |pins|
    ensures |r| == |pins| - i
    decreases |pins| - i
  {
    if i == |pins| then []
    else
      var v := if pins[i].Some? then pins[i].value else FreeSlot(cand, fallback, i, taken);
      [v] + Fill(cand, fallback, pins, i + 1, taken + {v})
  }

  function Pinned<T(==)>(pins: seq<Option<T>>): set<T> {
    set i | 0 <= i < |pins| && pins[i].Some? :: pins[i].value
  }

  function Resolve<T(==)>(cand: nat -> Option<T>, fallback: nat -> T, pins: seq<Option<T>>): (r: seq<T>)
    ensures |r| == |pins|
  {
    Fill(cand, fallback, pins, 0, Pinned(pins))
  }

  /** A pin wins. */
  lemma {:induction false} FillPinned<T>(cand: nat -> Option<T>, fallback: nat -> T, pins: seq<Option<T>>, i: nat, taken: set<T>, k: nat)
    requires i <= k < |pins| && pins[k].Some?
    ensures Fill(cand, fallback, pins, i, taken)[k - i] == pins[k].value
    decreases k - i
  {
    if k == i {
    } else {
      var v := if pins[i].Some? then pins[i].value else FreeSlot(cand, fallback, i, taken);
      FillPinned(cand, fallback, pins, i + 1, taken + {v}, k);
    }
  }

  lemma ResolvePinned<T>(cand: nat -> Option<T>, fallback: nat -> T, pins: seq<Option<T>>, k: nat)
    requires k < |pins| && pins[k].Some?
    ensures Resolve(cand, fallback, pins)[k] == pins[k].value
  {
    FillPinned(cand, fallback, pins, 0, Pinned(pins), k);
  }

  /** v is a candidate within reach of position j, and all the candidates before it
      are taken. */
  ghost predicate Reaches<T>(cand: nat -> Option<T>, j: nat, stop: nat, taken: set<T>, v: T) {
    exists x: nat :: j <= x < stop && cand(x) == Some(v) && Full(cand, j, x, taken)
  }

  ghost predicate Full<T>(cand: nat -> Option<T>, j: nat, x: nat, taken: set<T>) {
    forall m: nat :: j <= m < x ==> cand(m).Some? && cand(m).value in taken
  }

  /** The search from position n lands on v exactly when v is free and in reach with
      nothing free before it. */
  lemma {:induction false} SearchExact<T>(cand: nat -> Option<T>, n: nat, stop: nat, taken: set<T>, v: T)
    ensures Search(cand, n, stop, taken) == Some(v) <==> v !in taken && Reaches(cand, n, stop, taken, v)
    decreases stop - n
  {
    if n >= stop || cand(n).None? {
    } else {
      if cand(n).value in taken {
        SearchExact(cand, n + 1, stop, taken, v);
        if v !in taken && Reaches(cand, n, stop, taken, v) {
          var x: nat :| n <= x < stop && cand(x) == Some(v) && Full(cand, n, x, taken);
          assert Full(cand, n + 1, x, taken);
        }
        if Reaches(cand, n + 1, stop, taken, v) {
          var x: nat :| n + 1 <= x < stop && cand(x) == Some(v) && Full(cand, n + 1, x, taken);
          assert Full(cand, n, x, taken);
        }
      } else if cand(n).value == v {
        assert Full(cand, n, n, taken);
      }
    }
  }

  /** Nothing in reach of position j is free. */
  ghost predicate Stuck<T(!new)>(cand: nat -> Option<T>, j: nat, taken: set<T>) {
    forall v :: Reaches(cand, j, j + MaxMeshes, taken, v) ==> v in taken
  }

  /** What a mesh without a pin gets at position j beside what is taken: the first free
      candidate in reach, or where there is none what the position itself gives, wrapped
      if it wraps and taken or not. */
  ghost predicate Lands<T(!new)>(k: Scheme<T>, j: nat, taken: set<T>, v: T) {
    || (v !in taken && Reaches(k.cand, j, j + MaxMeshes, taken, v))
    || (Stuck(k.cand, j, taken) && v == k.fallback(j))
  }

  lemma FreeSlotLands<T(!new)>(cand: nat -> Option<T>, fallback: nat -> T, j: nat, taken: set<T>, v: T)
    ensures FreeSlot(cand, fallback, j, taken) == v <==> Lands(Scheme(cand, fallback), j, taken, v)
    ensures Stuck(cand, j, taken) <==> Search(cand, j, j + MaxMeshes, taken).None?
  {
    hide Reaches, Search;
    var found := Search(cand, j, j + MaxMeshes, taken);
    forall w
      ensures found == Some(w) <==> w !in taken && Reaches(cand, j, j + MaxMeshes, taken, w)
    {
      SearchExact(cand, j, j + MaxMeshes, taken, w);
    }
    if found.Some? {
      assert found == Some(found.value);
    }
  }

  // ---------------------------------------------------------------- the walk

  ghost function Firsts<T>(r: seq<T>, n: nat): set<T>
    requires n <= |r|
  {
    set m | 0 <= m < n :: r[m]
  }

  /** What is taken when the walk comes to the k-th mesh: the pins and what the meshes
      before it got. */
  ghost function Taken<T>(cand: nat -> Option<T>, fallback: nat -> T, pins: seq<Option<T>>, k: nat): set<T>
    requires k <= |pins|
  {
    Pinned(pins) + Firsts(Resolve(cand, fallback, pins), k)
  }

  lemma {:induction false} FillAt<T>(cand: nat -> Option<T>, fallback: nat -> T, pins: seq<Option<T>>, i: nat, taken: set<T>, k: nat)
    requires i <= k < |pins| && pins[k].None?
    ensures var r := Fill(cand, fallback, pins, i, taken);
            r[k - i] == FreeSlot(cand, fallback, k, taken + Firsts(r, k - i))
    decreases k - i
  {
    hide Search, FreeSlot;
    var r := Fill(cand, fallback, pins, i, taken);
    var v := if pins[i].Some? then pins[i].value else FreeSlot(cand, fallback, i, taken);
    var rest := Fill(cand, fallback, pins, i + 1, taken + {v});
    assert r == [v] + rest;
    if k == i {
      assert taken + Firsts(r, 0) == taken;
    } else {
      FillAt(cand, fallback, pins, i + 1, taken + {v}, k);
      FirstToo(rest, v, k - i);
      assert taken + {v} + Firsts(rest, k - i - 1) == taken + Firsts(r, k - i);
    }
  }

  lemma FirstToo<T>(rest: seq<T>, v: T, n: nat)
    requires 0 < n <= |rest| + 1
    ensures Firsts([v] + rest, n) == {v} + Firsts(rest, n - 1)
  {
    var r := [v] + rest;
    assert r[0] == v;
    forall w | w in Firsts(rest, n - 1)
      ensures w in Firsts(r, n)
    {
      var m :| 0 <= m < n - 1 && rest[m] == w;
      assert r[m + 1] == w;
    }
  }

  /** What a mesh without a pin gets, on every list of pins. */
  lemma ResolveExact<T(!new)>(cand: nat -> Option<T>, fallback: nat -> T, pins: seq<Option<T>>, k: nat, v: T)
    requires k < |pins| && pins[k].None?
    ensures Resolve(cand, fallback, pins)[k] == v <==> Lands(Scheme(cand, fallback), k, Taken(cand, fallback, pins, k), v)
  {
    FillAt(cand, fallback, pins, 0, Pinned(pins), k);
    FreeSlotLands(cand, fallback, k, Taken(cand, fallback, pins, k), v);
  }

  lemma {:induction false} SearchFree<T>(cand: nat -> Option<T>, n: nat, stop: nat, taken: set<T>)
    requires Search(cand, n, stop, taken).Some?
    ensures Search(cand, n, stop, taken).value !in taken
    decreases stop - n
  {
    if cand(n).value !in taken {
    } else {
      SearchFree(cand, n + 1, stop, taken);
    }
  }

  /** The mesh at k has something to itself among the pins and the meshes before it. */
  ghost predicate Settles<T(!new)>(cand: nat -> Option<T>, fallback: nat -> T, pins: seq<Option<T>>, k: nat)
    requires k < |pins|
  {
    var taken := Taken(cand, fallback, pins, k);
    Stuck(cand, k, taken) ==> fallback(k) !in taken
  }

  ghost predicate Alone<T>(r: seq<T>, k: nat)
    requires k < |r|
  {
    forall m :: 0 <= m < |r| && m != k ==> r[m] != r[k]
  }

  lemma TakenHolds<T>(cand: nat -> Option<T>, fallback: nat -> T, pins: seq<Option<T>>, k: nat, m: nat)
    requires k <= |pins| && m < |pins| && (m < k || pins[m].Some?)
    ensures Resolve(cand, fallback, pins)[m] in Taken(cand, fallback, pins, k)
  {
    if pins[m].Some? {
      ResolvePinned(cand, fallback, pins, m);
      assert pins[m].value in Pinned(pins);
    }
  }

  lemma TakenIsHeld<T>(cand: nat -> Option<T>, fallback: nat -> T, pins: seq<Option<T>>, k: nat, v: T) returns (m: nat)
    requires k <= |pins| && v in Taken(cand, fallback, pins, k)
    ensures m < |pins| && (m < k || pins[m].Some?) && Resolve(cand, fallback, pins)[m] == v
  {
    if v in Pinned(pins) {
      m :| m < |pins| && pins[m] == Some(v);
      ResolvePinned(cand, fallback, pins, m);
    } else {
      m :| 0 <= m < k && Resolve(cand, fallback, pins)[m] == v;
    }
  }

  lemma OwnTaken<T(!new)>(cand: nat -> Option<T>, fallback: nat -> T, pins: seq<Option<T>>, k: nat)
    requires k < |pins| && pins[k].None?
    ensures Resolve(cand, fallback, pins)[k] !in Taken(cand, fallback, pins, k) <==> Settles(cand, fallback, pins, k)
  {
    hide Taken, Resolve, Stuck, Search;
    var taken := Taken(cand, fallback, pins, k);
    GetsFreeSlot(cand, fallback, pins, k);
    FreeSlotLands(cand, fallback, k, taken, fallback(k));
    if Search(cand, k, k + MaxMeshes, taken).Some? {
      SearchFree(cand, k, k + MaxMeshes, taken);
    }
  }

  lemma GetsFreeSlot<T>(cand: nat -> Option<T>, fallback: nat -> T, pins: seq<Option<T>>, k: nat)
    requires k < |pins| && pins[k].None?
    ensures Resolve(cand, fallback, pins)[k] == FreeSlot(cand, fallback, k, Taken(cand, fallback, pins, k))
  {
    FillAt(cand, fallback, pins, 0, Pinned(pins), k);
  }

  /** Exactly when every mesh without a pin has what nobody else has: when none comes to a
      place where nothing in reach is free and what its position gives is taken. */
  lemma ApartExact<T(!new)>(cand: nat -> Option<T>, fallback: nat -> T, pins: seq<Option<T>>)
    ensures (forall k :: 0 <= k < |pins| && pins[k].None? ==> Alone(Resolve(cand, fallback, pins), k)) <==>
              (forall k :: 0 <= k < |pins| && pins[k].None? ==> Settles(cand, fallback, pins, k))
  {
    hide Taken, Resolve, Settles;
    var r := Resolve(cand, fallback, pins);
    if forall k :: 0 <= k < |pins| && pins[k].None? ==> Alone(r, k) {
      forall k | 0 <= k < |pins| && pins[k].None?
        ensures Settles(cand, fallback, pins, k)
      {
        OwnTaken(cand, fallback, pins, k);
        if r[k] in Taken(cand, fallback, pins, k) {
          var m := TakenIsHeld(cand, fallback, pins, k, r[k]);
          assert false;
        }
      }
    }
    if forall k :: 0 <= k < |pins| && pins[k].None? ==> Settles(cand, fallback, pins, k) {
      forall k, m | 0 <= k < |pins| && pins[k].None? && 0 <= m < |pins| && m != k
        ensures r[m] != r[k]
      {
        OwnTaken(cand, fallback, pins, k);
        if m < k || pins[m].Some? {
          TakenHolds(cand, fallback, pins, k, m);
        } else {
          OwnTaken(cand, fallback, pins, m);
          TakenHolds(cand, fallback, pins, m, k);
        }
      }
    }
  }

  // ---------------------------------------------------------------- few meshes

  /** The candidates in reach of a position are all there, and all different. */
  ghost predicate Distinct<T(!new)>(cand: nat -> Option<T>, k: nat) {
    && (forall x :: k <= x < k + 64 ==> cand(x).Some?)
    && (forall x, y :: k <= x < y < k + 64 ==> cand(x) != cand(y))
  }

  /** The first n of them. */
  ghost function Cands<T>(cand: nat -> Option<T>, k: nat, n: nat): set<T> {
    set x | k <= x < k + n && cand(x).Some? :: cand(x).value
  }

  lemma CandsNext<T>(cand: nat -> Option<T>, k: nat, n: nat)
    requires cand(k + n).Some?
    ensures Cands(cand, k, n + 1) == Cands(cand, k, n) + {cand(k + n).value}
  {
  }

  lemma CandNew<T(!new)>(cand: nat -> Option<T>, k: nat, n: nat)
    requires Distinct(cand, k) && n < 64
    ensures cand(k + n).Some? && cand(k + n).value !in Cands(cand, k, n)
  {
    forall x | k <= x < k + n && cand(x).Some?
      ensures cand(x).value != cand(k + n).value
    {
      assert cand(x) != cand(k + n);
    }
  }

  lemma {:induction false} CandsMany<T(!new)>(cand: nat -> Option<T>, k: nat, n: nat)
    requires Distinct(cand, k) && n <= 64
    ensures |Cands(cand, k, n)| == n
  {
    if n == 0 {
      assert Cands(cand, k, 0) == {};
    } else {
      hide Distinct, Cands;
      CandsMany(cand, k, n - 1);
      CandNew(cand, k, n - 1);
      CandsNext(cand, k, n - 1);
    }
  }

  /** What all but one of the places hold: fewer things than there are places. */
  ghost function Others<T>(r: seq<T>, k: nat, n: nat): set<T>
    requires n <= |r|
  {
    set m | 0 <= m < n && m != k :: r[m]
  }

  lemma {:induction false} OthersFew<T>(r: seq<T>, k: nat, n: nat)
    requires n <= |r|
    ensures |Others(r, k, n)| <= if k < n then n - 1 else n
  {
    if n == 0 {
      assert Others(r, k, 0) == {};
    } else {
      OthersFew(r, k, n - 1);
      if n - 1 == k {
        assert Others(r, k, n) == Others(r, k, n - 1);
      } else {
        assert Others(r, k, n) == Others(r, k, n - 1) + {r[n - 1]};
      }
    }
  }

  lemma TakenOthers<T>(cand: nat -> Option<T>, fallback: nat -> T, pins: seq<Option<T>>, k: nat)
    requires k < |pins| && pins[k].None?
    ensures |Taken(cand, fallback, pins, k)| <= |pins| - 1
  {
    hide Resolve;
    var r, taken := Resolve(cand, fallback, pins), Taken(cand, fallback, pins, k);
    forall v | v in taken
      ensures v in Others(r, k, |pins|)
    {
      var m := TakenIsHeld(cand, fallback, pins, k, v);
      assert r[m] == v && m != k;
    }
    OthersFew(r, k, |pins|);
    SmallerSet(taken, Others(r, k, |pins|));
  }

  lemma {:induction false} SmallerSet<T>(a: set<T>, b: set<T>)
    requires a <= b
    ensures |a| <= |b|
  {
    if a == {} {
    } else {
      var x :| x in a;
      SmallerSet(a - {x}, b - {x});
    }
  }

  lemma {:induction false} NoneFree<T>(cand: nat -> Option<T>, n: nat, stop: nat, taken: set<T>)
    requires n <= stop && Search(cand, n, stop, taken).None? && forall x :: n <= x < stop ==> cand(x).Some?
    ensures forall x :: n <= x < stop ==> cand(x).value in taken
    decreases stop - n
  {
    if n == stop {
    } else {
      NoneFree(cand, n + 1, stop, taken);
    }
  }

  /** With no more than sixty-four meshes every one without a pin has what no other has. */
  lemma FewAreApart<T(!new)>(cand: nat -> Option<T>, fallback: nat -> T, pins: seq<Option<T>>)
    requires |pins| <= 64 && forall k: nat :: k < |pins| && pins[k].None? ==> Distinct(cand, k)
    ensures forall k :: 0 <= k < |pins| && pins[k].None? ==> Alone(Resolve(cand, fallback, pins), k)
  {
    hide Resolve, Alone, Stuck, Distinct, Taken;
    forall k | 0 <= k < |pins| && pins[k].None?
      ensures Settles(cand, fallback, pins, k)
    {
      FewSettle(cand, fallback, pins, k);
    }
    ApartExact(cand, fallback, pins);
  }

  lemma FewSettle<T(!new)>(cand: nat -> Option<T>, fallback: nat -> T, pins: seq<Option<T>>, k: nat)
    requires k < |pins| <= 64 && pins[k].None? && Distinct(cand, k)
    ensures Settles(cand, fallback, pins, k)
  {
    var taken := Taken(cand, fallback, pins, k);
    TakenOthers(cand, fallback, pins, k);
    FreeSlotLands(cand, fallback, k, taken, fallback(k));
    hide Taken, Resolve, Stuck;
    if Stuck(cand, k, taken) {
      NoneFree(cand, k, k + 64, taken);
      CandsMany(cand, k, 64);
      SmallerSet(Cands(cand, k, 64), taken);
      assert false;
    }
  }
}
