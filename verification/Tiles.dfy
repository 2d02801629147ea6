/** The tile tables of Source/gendung.cpp: the isometric order of the dungeon
    squares and the sort of the level's frames by how often they are used. */
module Tiles {
  import opened Counting

  // ------------------------------------------------------ the isometric order

  function Tri(s: nat): nat {
    s * (s + 1) / 2
  }

  /** `IsometricCoord` for a dungeon of n by n squares (n is 112 in the game). */
  function IsometricCoord(n: nat, x: nat, y: nat): int
    requires x < n && y < n
  {
    if x < n - y then LowerFormula(x, y) else n * n - LowerFormula(n - x - 1, n - y - 1) - 1
  }

  function LowerFormula(x: nat, y: nat): int {
    (y + y * y + x * (x + 2 * y + 3)) / 2
  }

  /** The diagonal that place k of the triangle lies on. */
  function Diagonal(k: nat): (s: nat)
    ensures Tri(s) <= k < Tri(s + 1)
  {
    TriGrows(k);
    if k == 0 then 0
    else
      var s := Diagonal(k - 1);
      TriStep(s); TriStep(s + 1);
      if k == Tri(s + 1) then s + 1 else s
  }

  lemma TriStep(s: nat)
    ensures Tri(s + 1) == Tri(s) + s + 1
  {
    assert (s + 1) * (s + 2) == s * (s + 1) + 2 * (s + 1);
  }

  lemma {:induction false} TriGrows(s: nat)
    ensures Tri(s) >= s
  {
    if s > 0 {
      TriStep(s - 1);
      TriGrows(s - 1);
    }
  }

  lemma TriMonotone(s: nat, t: nat)
    requires s <= t
    ensures Tri(s) <= Tri(t)
    decreases t - s
  {
    if s < t {
      TriStep(s);
      TriMonotone(s + 1, t);
    }
  }

  /** Below the anti-diagonal the formula is Cantor's: diagonals in turn, each by x. */
  lemma CantorForm(x: nat, y: nat)
    ensures LowerFormula(x, y) == Tri(x + y) + x
  {
    assert y + y * y + x * (x + 2 * y + 3) == (x + y) * (x + y + 1) + 2 * x;
  }

  lemma SquareIsTwoTriangles(n: nat)
    requires n > 0
    ensures n * n == Tri(n) + Tri(n - 1)
  {
    TriStep(n - 1);
    assert 2 * Tri(n - 1) == (n - 1) * n by { EvenProduct(n - 1); }
    assert n * n == (n - 1) * n + n;
  }

  lemma {:induction false} EvenProduct(s: nat)
    ensures s * (s + 1) == 2 * Tri(s)
  {
    if s > 0 {
      EvenProduct(s - 1);
      TriStep(s - 1);
      assert s * (s + 1) == (s - 1) * s + 2 * s;
    }
  }

  /** The square at place k: the reading of the order backwards. */
  function SquareAt(n: nat, k: nat): (int, int)
  {
    if k < Tri(n) then
      var s := Diagonal(k);
      (k - Tri(s), s - (k - Tri(s)))
    else if k < n * n then
      var m := n * n - 1 - k;
      var s := Diagonal(m);
      (n - 1 - (m - Tri(s)), n - 1 - (s - (m - Tri(s))))
    else (0, 0)
  }

  /** Every square has its own place in 0..n*n-1 ... */
  lemma PlaceOfSquare(n: nat, x: nat, y: nat)
    requires x < n && y < n
    ensures 0 <= IsometricCoord(n, x, y) < n * n
    ensures SquareAt(n, IsometricCoord(n, x, y)) == (x, y)
  {
    hide Tri, Diagonal;
    SquareIsTwoTriangles(n);
    if x < n - y {
      PlaceInTriangle(n, x, y);
      assert IsometricCoord(n, x, y) == Tri(x + y) + x by { CantorForm(x, y); }
    } else {
      PlaceInTriangle(n - 1, n - x - 1, n - y - 1);
      assert IsometricCoord(n, x, y) == n * n - 1 - (Tri(2 * n - 2 - x - y) + n - x - 1) by {
        CantorForm(n - x - 1, n - y - 1);
      }
    }
  }

  lemma PlaceInTriangle(n: nat, x: nat, y: nat)
    requires x + y < n
    ensures Tri(x + y) + x < Tri(n) && Diagonal(Tri(x + y) + x) == x + y
  {
    DiagonalOf(x + y, x);
    TriStep(x + y);
    TriMonotone(x + y + 1, n);
  }

  /** ... and every place belongs to a square. */
  lemma SquareOfPlace(n: nat, k: nat)
    requires k < n * n
    ensures var (x, y) := SquareAt(n, k); 0 <= x < n && 0 <= y < n && IsometricCoord(n, x, y) == k
  {
    hide Tri, Diagonal, LowerFormula;
    SquareIsTwoTriangles(n);
    if k < Tri(n) { SquareOfNumber(n, k); } else { SquareOfNumber(n - 1, n * n - 1 - k); }
  }

  /** Cantor's pairing read back: the square of number k in a triangle of n diagonals. */
  lemma SquareOfNumber(n: nat, k: nat)
    requires k < Tri(n)
    ensures var s := Diagonal(k); var x, y := k - Tri(s), s - (k - Tri(s));
            0 <= x && 0 <= y && x + y < n && LowerFormula(x, y) == k
  {
    var s := Diagonal(k);
    DiagonalBound(s, k, n);
    TriStep(s);
    CantorForm(k - Tri(s), s - (k - Tri(s)));
  }

  // ------------------------------------------------------ the order of the places

  /** Turned by half a turn, a square goes to the place counted from the end. */
  lemma HalfTurn(n: nat, x: nat, y: nat)
    requires x < n && y < n
    ensures IsometricCoord(n, x, y) + IsometricCoord(n, n - 1 - x, n - 1 - y) == n * n - 1
  {
    if x + y == n - 1 {
      hide LowerFormula;
      CantorForm(x, y);
      CantorForm(y, x);
      EvenProduct(n - 1);
      assert (n - 1) * n + n == n * n;
    }
  }

  /** Diagonals come in turn, from the corner (0, 0), and on each the squares by x. */
  predicate Precedes(x: nat, y: nat, u: nat, v: nat) {
    x + y < u + v || (x + y == u + v && x < u)
  }

  lemma PlacesInOrder(n: nat, x: nat, y: nat, u: nat, v: nat)
    requires x < n && y < n && u < n && v < n
    ensures IsometricCoord(n, x, y) < IsometricCoord(n, u, v) <==> Precedes(x, y, u, v)
  {
    hide IsometricCoord;
    if Precedes(x, y, u, v) {
      EarlierPlace(n, x, y, u, v);
    } else if Precedes(u, v, x, y) {
      EarlierPlace(n, u, v, x, y);
    }
  }

  lemma EarlierPlace(n: nat, x: nat, y: nat, u: nat, v: nat)
    requires x < n && y < n && u < n && v < n && Precedes(x, y, u, v)
    ensures IsometricCoord(n, x, y) < IsometricCoord(n, u, v)
  {
    hide LowerFormula, Tri;
    SquareIsTwoTriangles(n);
    if u + v < n {
      EarlierInTriangle(x, y, u, v);
    } else if x + y < n {
      PlaceInTriangle(n, x, y);
      CantorForm(x, y);
      PlaceInTriangle(n - 1, n - u - 1, n - v - 1);
      CantorForm(n - u - 1, n - v - 1);
    } else {
      EarlierInTriangle(n - u - 1, n - v - 1, n - x - 1, n - y - 1);
    }
  }

  lemma EarlierInTriangle(x: nat, y: nat, u: nat, v: nat)
    requires Precedes(x, y, u, v)
    ensures LowerFormula(x, y) < LowerFormula(u, v)
  {
    hide LowerFormula, Tri;
    CantorForm(x, y);
    CantorForm(u, v);
    TriStep(x + y);
    if x + y < u + v { TriMonotone(x + y + 1, u + v); }
  }

  lemma DiagonalOf(s: nat, x: nat)
    requires x <= s
    ensures Diagonal(Tri(s) + x) == s
  {
    var t := Diagonal(Tri(s) + x);
    TriStep(s);
    if t < s { TriMonotone(t + 1, s); }
    if t > s { TriMonotone(s + 1, t); }
  }

  lemma DiagonalBound(s: nat, k: nat, n: nat)
    requires Tri(s) <= k < Tri(n)
    ensures s < n
  {
    if s >= n { TriMonotone(n, s); }
  }

  /** `SetSpeedCels` moves every square to its place; nothing is lost or overwritten. */
  method SetSpeedCels<T>(map1: array<T>, map2: array2<T>, n: nat)
    requires map1.Length == n * n && map2.Length0 == n && map2.Length1 == n
    modifies map1
    ensures forall x, y :: 0 <= x < n && 0 <= y < n ==>
      0 <= IsometricCoord(n, x, y) < n * n && map1[IsometricCoord(n, x, y)] == map2[x, y]
    ensures forall k :: 0 <= k < n * n ==>
      var (x, y) := SquareAt(n, k); 0 <= x < n && 0 <= y < n && map1[k] == map2[x, y]
    ensures forall x, y, u, v :: 0 <= x < n && 0 <= y < n && 0 <= u < n && 0 <= v < n ==>
      (IsometricCoord(n, x, y) < IsometricCoord(n, u, v) <==> Precedes(x, y, u, v))
  {
    hide IsometricCoord, SquareAt;
    AllPlaces(n);
    for x := 0 to n
      invariant forall a, b :: 0 <= a < x && 0 <= b < n ==> map1[IsometricCoord(n, a, b)] == map2[a, b]
    {
      for y := 0 to n
        invariant forall a, b :: 0 <= a < n && 0 <= b < n && (a < x || (a == x && b < y)) ==>
          map1[IsometricCoord(n, a, b)] == map2[a, b]
      {
        map1[IsometricCoord(n, x, y)] := map2[x, y];
      }
    }
    forall k | 0 <= k < n * n
      ensures var (x, y) := SquareAt(n, k); 0 <= x < n && 0 <= y < n && map1[k] == map2[x, y]
    {
      SquareOfPlace(n, k);
    }
    forall x, y, u, v | 0 <= x < n && 0 <= y < n && 0 <= u < n && 0 <= v < n
      ensures IsometricCoord(n, x, y) < IsometricCoord(n, u, v) <==> Precedes(x, y, u, v)
    {
      PlacesInOrder(n, x, y, u, v);
    }
  }

  lemma AllPlaces(n: nat)
    ensures forall x, y :: 0 <= x < n && 0 <= y < n ==>
      0 <= IsometricCoord(n, x, y) < n * n && SquareAt(n, IsometricCoord(n, x, y)) == (x, y)
  {
    forall x, y | 0 <= x < n && 0 <= y < n
      ensures 0 <= IsometricCoord(n, x, y) < n * n && SquareAt(n, IsometricCoord(n, x, y)) == (x, y)
    {
      PlaceOfSquare(n, x, y);
    }
  }

  // ------------------------------------------------------ the frame tables

  /** The entries lo..hi of s never increase. */
  ghost predicate NonIncreasing(s: seq<int>, lo: int, hi: int) {
    forall a, b :: lo <= a < b <= hi && 0 <= a && b < |s| ==> s[a] >= s[b]
  }

  /** now lists the entries of was in the order p, followed by the untouched rest. */
  ghost predicate Reordered(was: seq<int>, now: seq<int>, p: seq<int>) {
    && |was| == |now| && |p| <= |was| && IsPermutation(p)
    && (forall k :: 0 <= k < |p| ==> now[k] == was[p[k]])
    && (forall k :: |p| <= k < |now| ==> now[k] == was[k])
  }

  /** Equal counts keep their order. */
  ghost predicate Stable(now: seq<int>, p: seq<int>)
    requires |p| <= |now|
  {
    forall j, k :: 0 <= j < k < |p| && now[j] == now[k] ==> p[j] < p[k]
  }

  function Swapped<T>(s: seq<T>, i: int): seq<T>
    requires 0 <= i && i + 1 < |s|
  {
    s[i := s[i + 1]][i + 1 := s[i]]
  }

  lemma SwapReorders(was: seq<int>, now: seq<int>, p: seq<int>, i: int)
    requires Reordered(was, now, p) && 0 <= i && i + 1 < |p|
    ensures Reordered(was, Swapped(now, i), Swapped(p, i))
  {}

  lemma SwapStable(now: seq<int>, p: seq<int>, i: int)
    requires |p| <= |now| && Stable(now, p) && 0 <= i && i + 1 < |p| && now[i] != now[i + 1]
    ensures Stable(Swapped(now, i), Swapped(p, i))
  {}

  /** There is only one stable non-increasing order of a table. */
  lemma {:induction false} StableOrderIsUnique(was: seq<int>, p: seq<int>, q: seq<int>)
    requires IsPermutation(p) && IsPermutation(q) && |p| == |q| == |was|
    requires forall j, k :: 0 <= j < k < |p| ==> Before(was, p[j], p[k])
    requires forall j, k :: 0 <= j < k < |q| ==> Before(was, q[j], q[k])
    ensures p == q
  {
    forall m | 0 <= m < |p| ensures p[m] == q[m] {
      SamePlace(was, p, q, m);
    }
  }

  /** Entry a comes before entry b: more often used, or as often and earlier in the table. */
  predicate Before(was: seq<int>, a: int, b: int)
    requires 0 <= a < |was| && 0 <= b < |was|
  {
    was[a] > was[b] || (was[a] == was[b] && a < b)
  }

  lemma {:induction false} SamePlace(was: seq<int>, p: seq<int>, q: seq<int>, m: nat)
    requires IsPermutation(p) && IsPermutation(q) && |p| == |q| == |was| && m < |p|
    requires forall j, k :: 0 <= j < k < |p| ==> Before(was, p[j], p[k])
    requires forall j, k :: 0 <= j < k < |q| ==> Before(was, q[j], q[k])
    ensures p[m] == q[m]
  {
    // the m-th entry of either order is the first one not among the m entries before it
    forall i | 0 <= i < m ensures p[i] == q[i] {
      SamePlace(was, p, q, i);
    }
    var j := PlaceIn(q, p[m]);
    var k := PlaceIn(p, q[m]);
    // were they different, each would come before the other
  }

  /** A permutation reaches every place. */
  lemma PlaceIn(p: seq<int>, v: int) returns (k: int)
    requires IsPermutation(p) && 0 <= v < |p|
    ensures 0 <= k < |p| && p[k] == v
  {
    var all := Below(|p|);
    if v !in p { DistinctCount(p, all - {v}); }
    k :| 0 <= k < |p| && p[k] == v;
  }

  class FrameTables {
    const level_frame_count: array<int>
    const tile_defs: array<int>
    const level_frame_types: array<int>
    const level_frame_sizes: array<int>

    constructor (n: nat)
      ensures Shapes() && level_frame_count.Length == n
      ensures fresh(level_frame_count) && fresh(tile_defs) && fresh(level_frame_types) && fresh(level_frame_sizes)
    {
      level_frame_count := new int[n];
      tile_defs := new int[n];
      level_frame_types := new int[n];
      level_frame_sizes := new int[n];
    }

    predicate Shapes() {
      && level_frame_count.Length == tile_defs.Length == level_frame_types.Length == level_frame_sizes.Length
      && level_frame_count != tile_defs && level_frame_count != level_frame_types
      && level_frame_count != level_frame_sizes
      && tile_defs != level_frame_types && tile_defs != level_frame_sizes && level_frame_types != level_frame_sizes
    }

    method SwapTile(i: int)
      requires Shapes() && 0 <= i && i + 1 < level_frame_count.Length
      modifies level_frame_count, tile_defs, level_frame_types, level_frame_sizes
      ensures level_frame_count[..] == Swapped(old(level_frame_count[..]), i)
      ensures tile_defs[..] == Swapped(old(tile_defs[..]), i)
      ensures level_frame_types[..] == Swapped(old(level_frame_types[..]), i)
      ensures level_frame_sizes[..] == Swapped(old(level_frame_sizes[..]), i)
    {
      var swap := level_frame_count[i];
      level_frame_count[i] := level_frame_count[i + 1];
      level_frame_count[i + 1] := swap;
      swap := tile_defs[i];
      tile_defs[i] := tile_defs[i + 1];
      tile_defs[i + 1] := swap;
      swap := level_frame_types[i];
      level_frame_types[i] := level_frame_types[i + 1];
      level_frame_types[i + 1] := swap;
      swap := level_frame_sizes[i];
      level_frame_sizes[i] := level_frame_sizes[i + 1];
      level_frame_sizes[i + 1] := swap;
    }

    /** All four tables are in the order p of what they were. */
    ghost predicate Together(was: Tables, p: seq<int>)
      reads level_frame_count, tile_defs, level_frame_types, level_frame_sizes
    {
      && Reordered(was.counts, level_frame_count[..], p) && Reordered(was.defs, tile_defs[..], p)
      && Reordered(was.types, level_frame_types[..], p) && Reordered(was.sizes, level_frame_sizes[..], p)
    }

    ghost function Now(): Tables
      reads level_frame_count, tile_defs, level_frame_types, level_frame_sizes
    {
      Tables(level_frame_count[..], tile_defs[..], level_frame_types[..], level_frame_sizes[..])
    }

    /** One exchange, with its trace in the permutation. */
    method ExchangeTile(i: int, ghost was: Tables, ghost p: seq<int>)
      requires Shapes() && 0 <= i && i + 1 < |p| <= level_frame_count.Length && Together(was, p)
      requires Stable(level_frame_count[..], p) && level_frame_count[i] != level_frame_count[i + 1]
      modifies level_frame_count, tile_defs, level_frame_types, level_frame_sizes
      ensures Together(was, Swapped(p, i)) && Stable(level_frame_count[..], Swapped(p, i))
      ensures level_frame_count[i] == old(level_frame_count[i + 1])
        && level_frame_count[i + 1] == old(level_frame_count[i])
      ensures forall k :: 0 <= k < level_frame_count.Length && k != i && k != i + 1 ==>
        level_frame_count[k] == old(level_frame_count[k])
    {
      hide Reordered, Stable;
      SwapReorders(was.counts, level_frame_count[..], p, i);
      SwapReorders(was.defs, tile_defs[..], p, i);
      SwapReorders(was.types, level_frame_types[..], p, i);
      SwapReorders(was.sizes, level_frame_sizes[..], p, i);
      SwapStable(level_frame_count[..], p, i);
      ghost var c := level_frame_count[..];
      SwapTile(i);
      assert forall k :: 0 <= k < |c| ==> level_frame_count[..][k] == Swapped(c, i)[k];
    }

    /** Sorts entries 0..frames by falling count, stably and all tables alike,
        although it stops after the first pass without an exchange. */
    method SortTiles(frames: nat) returns (ghost p: seq<int>)
      requires Shapes() && frames < level_frame_count.Length
      modifies level_frame_count, tile_defs, level_frame_types, level_frame_sizes
      ensures |p| == frames + 1 && Together(old(Now()), p)
      ensures NonIncreasing(level_frame_count[..], 0, frames)
      ensures Stable(level_frame_count[..], p)
    {
      hide Together, Stable;
      ghost var was := Now();
      p := seq(frames + 1, k => k);
      StartTogether(p);
      var doneflag := false;
      var last := frames;
      while last > 0 && !doneflag
        invariant 0 <= last <= frames && |p| == frames + 1 && Together(was, p) && Stable(level_frame_count[..], p)
        invariant forall a, b :: 0 <= a < b <= frames && last < b ==> level_frame_count[a] >= level_frame_count[b]
        invariant doneflag ==> forall a, b :: 0 <= a < b <= frames ==> level_frame_count[a] >= level_frame_count[b]
        decreases last, !doneflag
      {
        doneflag := true;
        for i := 0 to last
          invariant |p| == frames + 1 && Together(was, p) && Stable(level_frame_count[..], p)
          invariant forall a, b :: 0 <= a < b <= frames && last < b ==> level_frame_count[a] >= level_frame_count[b]
          invariant forall a :: 0 <= a < i ==> level_frame_count[a] >= level_frame_count[i]
          invariant doneflag ==> forall a, b :: 0 <= a < b <= i ==> level_frame_count[a] >= level_frame_count[b]
        {
          if level_frame_count[i] < level_frame_count[i + 1] {
            ExchangeTile(i, was, p);
            p := Swapped(p, i);
            doneflag := false;
          }
        }
        last := last - 1;
      }
    }

    lemma StartTogether(p: seq<int>)
      requires Shapes() && |p| <= level_frame_count.Length && forall k :: 0 <= k < |p| ==> p[k] == k
      ensures Together(Now(), p) && Stable(level_frame_count[..], p)
    {}
  }

  datatype Tables = Tables(counts: seq<int>, defs: seq<int>, types: seq<int>, sizes: seq<int>)

  /** What the sort promises fixes the order: it is the one that puts entries with
      larger counts first and equal ones as they were. */
  lemma SortedStablyIsBefore(was: seq<int>, now: seq<int>, p: seq<int>)
    requires Reordered(was, now, p) && |p| == |was| && Stable(now, p) && NonIncreasing(now, 0, |now| - 1)
    ensures forall j, k :: 0 <= j < k < |p| ==> Before(was, p[j], p[k])
  {
    forall j, k | 0 <= j < k < |p| ensures Before(was, p[j], p[k]) {
      assert now[j] == was[p[j]] && now[k] == was[p[k]];
    }
  }
}
