/** The 10x4 inventory grid of Source/inv.cpp: a cell holds 0, or the number of
    the item that covers it, negated everywhere but in the item's bottom-left cell. */
module InvGrid {
  import opened CInt
  import opened Counting

  const COLUMNS := 10
  const ROWS := 4
  const CELLS := 40  // NUM_INV_GRID_ELEM

  datatype Rect = Rect(x: int, y: int, w: int, h: int) {
    predicate Fits() {
      0 <= x && 0 <= y && 1 <= w && 1 <= h && x + w <= COLUMNS && y + h <= ROWS
    }

    predicate Has(k: int) {
      x <= k % COLUMNS < x + w && y <= k / COLUMNS < y + h
    }

    /** The bottom-left cell. */
    function Anchor(): int {
      x + COLUMNS * (y + h - 1)
    }
  }

  // ------------------------------------------------------ what the loops do

  function Placed(g: seq<int>, r: Rect, a: int): (g': seq<int>)
    ensures |g'| == |g|
  {
    seq(|g|, k requires 0 <= k < |g| => if r.Has(k) then (if k == r.Anchor() then a else -a) else g[k])
  }

  function Erased(g: seq<int>, a: int): (g': seq<int>)
    ensures |g'| == |g|
  {
    seq(|g|, k requires 0 <= k < |g| => if g[k] == a || g[k] == -a then 0 else g[k])
  }

  function Relabelled(g: seq<int>, from: int, to: int): (g': seq<int>)
    ensures |g'| == |g|
  {
    seq(|g|, k requires 0 <= k < |g| => if g[k] == from then to else if g[k] == -from then -to else g[k])
  }

  // ------------------------------------------------------ the grid invariant

  /** Item a covers exactly its rectangle, with the positive entry bottom-left. */
  ghost predicate Covers(g: seq<int>, r: Rect, a: int) {
    && r.Fits()
    && forall k :: 0 <= k < |g| ==> (Abs(g[k]) == a <==> r.Has(k)) && (g[k] == a <==> k == r.Anchor())
  }

  /** The grid shows the items 1..|rects|, each on its rectangle, and nothing else. */
  ghost predicate Shows(g: seq<int>, rects: seq<Rect>) {
    && |g| == CELLS
    && (forall k :: 0 <= k < CELLS ==> Abs(g[k]) <= |rects|)
    && (forall a :: 0 <= a < |rects| ==> Covers(g, rects[a], a + 1))
  }

  /** The same while item `hole` is off the grid. */
  ghost predicate ShowsBut(g: seq<int>, rects: seq<Rect>, hole: int) {
    && |g| == CELLS
    && (forall k :: 0 <= k < CELLS ==> Abs(g[k]) <= |rects| && Abs(g[k]) != hole + 1)
    && (forall a :: 0 <= a < |rects| && a != hole ==> Covers(g, rects[a], a + 1))
  }

  ghost predicate Free(g: seq<int>, r: Rect) {
    forall k :: 0 <= k < |g| && r.Has(k) ==> g[k] == 0
  }

  /** Where the items stand determines the grid. */
  lemma GridOfRects(g: seq<int>, h: seq<int>, rects: seq<Rect>)
    requires Shows(g, rects) && Shows(h, rects)
    ensures g == h
  {
    forall k | 0 <= k < CELLS ensures g[k] == h[k] {
      SameCell(g, h, rects, k);
      SameCell(h, g, rects, k);
    }
  }

  lemma SameCell(g: seq<int>, h: seq<int>, rects: seq<Rect>, k: int)
    requires Shows(g, rects) && Shows(h, rects) && 0 <= k < CELLS
    ensures g[k] != 0 ==> g[k] == h[k]
  {
    if g[k] != 0 {
      var a := Abs(g[k]);
      assert Covers(g, rects[a - 1], a) && Covers(h, rects[a - 1], a);
    }
  }

  lemma AnchorIsInside(r: Rect)
    requires r.Fits()
    ensures 0 <= r.Anchor() < CELLS && r.Has(r.Anchor())
  {}

  lemma PlaceShows(g: seq<int>, rects: seq<Rect>, a: int, r: Rect)
    requires 0 <= a < |rects| && ShowsBut(g, rects, a) && r.Fits() && Free(g, r)
    ensures Shows(Placed(g, r, a + 1), rects[a := r])
  {
    var g', rects' := Placed(g, r, a + 1), rects[a := r];
    AnchorIsInside(r);
    forall b | 0 <= b < |rects'| ensures Covers(g', rects'[b], b + 1) {
      if b != a { assert Covers(g, rects[b], b + 1); }
    }
  }

  lemma EraseShows(g: seq<int>, rects: seq<Rect>, a: int)
    requires 0 <= a < |rects| && Shows(g, rects)
    ensures ShowsBut(Erased(g, a + 1), rects, a)
  {
    forall b | 0 <= b < |rects| && b != a ensures Covers(Erased(g, a + 1), rects[b], b + 1) {
      assert Covers(g, rects[b], b + 1);
    }
  }

  lemma RoomForOneMore(g: seq<int>, rects: seq<Rect>, r: Rect)
    requires Shows(g, rects)
    ensures ShowsBut(g, rects + [r], |rects|)
  {
    forall b | 0 <= b < |rects| ensures Covers(g, (rects + [r])[b], b + 1) {
      assert Covers(g, rects[b], b + 1);
    }
  }

  lemma RelabelCovers(g: seq<int>, r: Rect, b: int, from: int, to: int)
    requires Covers(g, r, b) && 0 < b && 0 < from && 0 < to != from && b != to
    requires forall k :: 0 <= k < |g| ==> Abs(g[k]) != to
    ensures Covers(Relabelled(g, from, to), r, if b == from then to else b)
  {}

  /** Removal: the last item takes over the number of the one that left. */
  lemma MoveLastShows(g: seq<int>, rects: seq<Rect>, a: int)
    requires 0 <= a < |rects| && ShowsBut(g, rects, a)
    ensures var n := |rects| - 1;
            if a == n then Shows(g, rects[..n]) else Shows(Relabelled(g, n + 1, a + 1), rects[..n][a := rects[n]])
  {
    hide Covers;
    var n := |rects| - 1;
    if a != n {
      var g', rects' := Relabelled(g, n + 1, a + 1), rects[..n][a := rects[n]];
      forall b | 0 <= b < n ensures Covers(g', rects'[b], b + 1) {
        var from := if b == a then n else b;
        RelabelCovers(g, rects[from], from + 1, n + 1, a + 1);
      }
    }
  }

  /** Pigeonhole: the items stand on different cells, so the list cannot
      overflow, and an empty cell leaves a slot for one more. */
  lemma ListNeverOverflows(g: seq<int>, rects: seq<Rect>)
    requires Shows(g, rects)
    ensures |rects| <= CELLS
    ensures (exists k :: 0 <= k < CELLS && g[k] == 0) ==> |rects| < CELLS
  {
    var anchors := seq(|rects|, a requires 0 <= a < |rects| => rects[a].Anchor());
    forall a | 0 <= a < |rects| ensures 0 <= anchors[a] < CELLS && g[anchors[a]] == a + 1 {
      assert Covers(g, rects[a], a + 1);
      AnchorIsInside(rects[a]);
    }
    var cells := Below(CELLS);
    DistinctCount(anchors, cells);
    if k :| 0 <= k < CELLS && g[k] == 0 {
      DistinctCount(anchors, cells - {k});
    }
  }

  /** The reading of the grid without rectangles: the positive entries are in
      bijection with the items, and every other cell of an item is to the right
      of or above its positive entry. */
  lemma PositiveEntriesAreItems(g: seq<int>, rects: seq<Rect>)
    requires Shows(g, rects)
    ensures forall k :: 0 <= k < CELLS && g[k] > 0 ==> g[k] <= |rects|
    ensures forall j, k :: 0 <= j < CELLS && 0 <= k < CELLS && g[j] == g[k] > 0 ==> j == k
    ensures forall a :: 1 <= a <= |rects| ==> a in g
    ensures forall k :: 0 <= k < CELLS && g[k] < 0 ==> -g[k] in g && -g[k] <= |rects|
  {
    forall a | 1 <= a <= |rects| ensures a in g {
      assert Covers(g, rects[a - 1], a);
      AnchorIsInside(rects[a - 1]);
      assert g[rects[a - 1].Anchor()] == a;
    }
    forall j, k | 0 <= j < CELLS && 0 <= k < CELLS && g[j] == g[k] > 0 ensures j == k {
      assert Covers(g, rects[g[j] - 1], g[j]);
    }
  }
}
