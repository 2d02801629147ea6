/** What the smoothing passes of Source/drlg_l3.cpp make of a floor. */
module Smoothing {
  import opened Grid
  import opened Rooms

  // ------------------------------------------------- diagonals

  /** The top-left cells of the 2x2 squares of the grid. */
  predicate SquareAt(c: Cell) {
    0 <= c.x < DMAXX - 1 && 0 <= c.y < DMAXY - 1
  }

  /** A square that was dug on a diagonal is not dug on that diagonal only. */
  ghost predicate Mended(s: set<Cell>, t: set<Cell>, c: Cell) {
    var right, below, across := Cell(c.x + 1, c.y), Cell(c.x, c.y + 1), Cell(c.x + 1, c.y + 1);
    && (c in s && across in s ==> right in t || below in t)
    && (right in s && below in s ==> c in t || across in t)
  }

  /** c is a corner of a square whose two cells beside c are dug, and the one across was not. */
  ghost predicate Elbow(s: set<Cell>, t: set<Cell>, c: Cell) {
    exists dx, dy :: (dx == 1 || dx == -1) && (dy == 1 || dy == -1) && ElbowAt(s, t, c, dx, dy)
  }

  ghost predicate ElbowAt(s: set<Cell>, t: set<Cell>, c: Cell, dx: int, dy: int) {
    Cell(c.x + dx, c.y) in t && Cell(c.x, c.y + dy) in t && Cell(c.x + dx, c.y + dy) !in s
  }

  /** What DRLG_L3FillDiags makes of s: every square is mended, and nothing else is dug. */
  ghost predicate DiagsFilled(s: set<Cell>, t: set<Cell>) {
    && s <= t
    && (forall c :: SquareAt(c) ==> Mended(s, t, c))
    && (forall c :: c in t && c !in s ==> Elbow(s, t, c))
  }

  /** The same while the scan has reached (i, j). */
  ghost predicate DiagsScanned(s: set<Cell>, t: set<Cell>, i: int, j: int) {
    && s <= t
    && (forall c :: SquareAt(c) && (c.y < j || (c.y == j && c.x < i)) ==> Mended(s, t, c))
    && (forall c :: c in t && c !in s ==> Elbow(s, t, c))
  }

  lemma DiagsNext(s: set<Cell>, t: set<Cell>, u: set<Cell>, i: int, j: int)
    requires DiagsScanned(s, t, i, j) && SquareAt(Cell(i, j)) && t <= u && Mended(t, u, Cell(i, j))
    requires forall c :: c in u && c !in t ==> Elbow(t, u, c)
    ensures DiagsScanned(s, u, i + 1, j)
  {
    forall c | c in u && c !in s ensures Elbow(s, u, c) {
      if c in t {
        var dx, dy :| (dx == 1 || dx == -1) && (dy == 1 || dy == -1) && ElbowAt(s, t, c, dx, dy);
        assert ElbowAt(s, u, c, dx, dy);
      } else {
        var dx, dy :| (dx == 1 || dx == -1) && (dy == 1 || dy == -1) && ElbowAt(t, u, c, dx, dy);
        assert ElbowAt(s, u, c, dx, dy);
      }
    }
    forall c | SquareAt(c) && (c.y < j || (c.y == j && c.x < i + 1)) ensures Mended(s, u, c) {
      if c.y == j && c.x == i { assert c == Cell(i, j); } else { assert Mended(s, t, c); }
    }
  }

  /** One corner of the square at (i, j) was dug, between the two others. */
  lemma DiagMended(s: set<Cell>, t: set<Cell>, i: int, j: int, c: Cell, dx: int, dy: int)
    requires DiagsScanned(s, t, i, j) && SquareAt(Cell(i, j))
    requires (dx == 1 || dx == -1) && (dy == 1 || dy == -1)
    requires c == Cell(if dx == 1 then i else i + 1, if dy == 1 then j else j + 1)
    requires ElbowAt(t, t, c, dx, dy) && c !in t
    ensures DiagsScanned(s, t + {c}, i + 1, j)
  {
    assert ElbowAt(t, t + {c}, c, dx, dy);
    DiagsNext(s, t, t + {c}, i, j);
  }

  // ------------------------------------------------- pits

  /** Cells whose eight neighbours are all in s, but which are not. */
  ghost function Pits(s: set<Cell>): set<Cell> {
    set c | c in Board() && INNER.Has(c) && c !in s && Ringed(s, c)
  }

  ghost predicate Ringed(s: set<Cell>, c: Cell) {
    forall d :: Adjacent(true, c, d) ==> d in s
  }

  lemma RingOf(s: set<Cell>, i: int, j: int)
    requires Ringed(s, Cell(i, j))
    ensures Cell(i, j - 1) in s && Cell(i - 1, j - 1) in s && Cell(i + 1, j - 1) in s
    ensures Cell(i + 1, j) in s && Cell(i - 1, j) in s
    ensures Cell(i, j + 1) in s && Cell(i - 1, j + 1) in s && Cell(i + 1, j + 1) in s
  {
    var c := Cell(i, j);
    assert Adjacent(true, c, Cell(i, j - 1)) && Adjacent(true, c, Cell(i - 1, j - 1))
      && Adjacent(true, c, Cell(i + 1, j - 1));
    assert Adjacent(true, c, Cell(i + 1, j)) && Adjacent(true, c, Cell(i - 1, j));
    assert Adjacent(true, c, Cell(i, j + 1)) && Adjacent(true, c, Cell(i - 1, j + 1))
      && Adjacent(true, c, Cell(i + 1, j + 1));
  }

  /** Filling pits neither makes new pits nor removes others: their neighbours are all floor. */
  lemma PitIsStillPit(s: set<Cell>, t: set<Cell>, c: Cell)
    requires INNER.Has(c) && s <= t <= s + Pits(s)
    ensures c !in t ==> (c in Pits(s) <==> Ringed(t, c))
  {
    if c !in t && Ringed(t, c) {
      forall d | Adjacent(true, c, d) ensures d in s {
        assert d in t && Adjacent(true, d, c);
      }
    }
  }

  lemma PitsGrow(s: set<Cell>, b: Box)
    requires Within(s, b)
    ensures Within(s + Pits(s), b)
    ensures GrownFrom(false, s, s + Pits(s))
  {
    var t := s + Pits(s);
    forall c | c in t ensures Rooted(false, s, t, c) && b.Has(c) {
      if c in s { ConnectedSelf(false, t, c); } else { PitHangsOn(s, t, b, c); }
    }
  }

  lemma PitHangsOn(s: set<Cell>, t: set<Cell>, b: Box, c: Cell)
    requires Within(s, b) && c in Pits(s) && s <= t && c in t
    ensures Rooted(false, s, t, c) && b.Has(c)
  {
    RingOf(s, c.x, c.y);
    var d := Cell(c.x - 1, c.y);
    ConnectedSelf(false, t, d);
    ConnectedStep(false, t, d, d, c);
    assert b.Has(d) && b.Has(Cell(c.x + 1, c.y));
    assert b.Has(Cell(c.x, c.y - 1)) && b.Has(Cell(c.x, c.y + 1));
  }

  // ------------------------------------------------- straight edges

  /** Which side of a line of floor a straightening scan may fill. */
  datatype Side = Above | Below | Leftward | Rightward

  /** The k-th cell a scan of this line may fill, and the floor it needs beside it. */
  function Target(side: Side, line: int, k: int): Cell {
    match side
    case Above => Cell(k, line)
    case Below => Cell(k, line + 1)
    case Leftward => Cell(line, k)
    case Rightward => Cell(line + 1, k)
  }

  function Support(side: Side, line: int, k: int): Cell {
    match side
    case Above => Cell(k, line + 1)
    case Below => Cell(k, line)
    case Leftward => Cell(line + 1, k)
    case Rightward => Cell(line, k)
  }

  /** How far a scan can carry floor: one row against its direction, but all
      the way to the last row along it. */
  function Spread(side: Side, b: Box): Box {
    match side
    case Above => b.(top := b.top - 1)
    case Below => b.(bottom := DMAXY - 1)
    case Leftward => b.(left := b.left - 1)
    case Rightward => b.(right := DMAXX - 1)
  }

  /** An empty cell beside floor. */
  ghost predicate Open(s: set<Cell>, side: Side, line: int, k: int) {
    Target(side, line, k) !in s && Support(side, line, k) in s
  }

  /** A run of more than three such cells that ends before the scan does. */
  ghost predicate LongRun(s: set<Cell>, side: Side, line: int, a: int, b: int) {
    && 0 <= a && a + 3 < b
    && (forall k :: a <= k < b ==> Open(s, side, line, k))
    && !Open(s, side, line, b) && (a == 0 || !Open(s, side, line, a - 1))
  }

  ghost predicate InLongRun(s: set<Cell>, side: Side, line: int, n: int, c: Cell) {
    exists a, k, b :: 0 <= a <= k < b < n && c == Target(side, line, k) && LongRun(s, side, line, a, b)
  }

  const SCAN := 37  // how far each line is scanned

  /** The cells of the long runs that end before place n. */
  ghost function LongRuns(s: set<Cell>, side: Side, line: int, n: int): set<Cell> {
    set c | c in Board() && InLongRun(s, side, line, n, c)
  }

  ghost function RunCells(side: Side, line: int, a: int, b: int): set<Cell> {
    set k | a <= k < b :: Target(side, line, k)
  }

  /** The scan moves on by one place, with xs open cells behind it. */
  lemma RunEnds(s: set<Cell>, side: Side, line: int, i: int, xs: int)
    requires 0 <= line < DMAXX - 1 && 0 <= xs <= i < SCAN
    requires forall k :: i - xs <= k < i ==> Open(s, side, line, k)
    requires i == xs || !Open(s, side, line, i - xs - 1)
    ensures LongRuns(s, side, line, i + 1)
         == LongRuns(s, side, line, i)
            + if xs > 3 && !Open(s, side, line, i) then RunCells(side, line, i - xs, i) else {}
  {
    hide Open, Target, LongRun;
    var ended := if xs > 3 && !Open(s, side, line, i) then RunCells(side, line, i - xs, i) else {};
    forall c ensures c in LongRuns(s, side, line, i + 1) <==> c in LongRuns(s, side, line, i) || c in ended {
      if c in LongRuns(s, side, line, i + 1) && c !in LongRuns(s, side, line, i) {
        var a, k, b :| 0 <= a <= k < b < i + 1 && c == Target(side, line, k) && LongRun(s, side, line, a, b);
        TheRun(s, side, line, i, xs, a);
      }
      if c in ended {
        IsTheRun(s, side, line, i, xs);
        var k :| i - xs <= k < i && c == Target(side, line, k);
        TargetOnBoard(side, line, k);
      }
    }
  }

  lemma TargetOnBoard(side: Side, line: int, k: int)
    requires 0 <= line < DMAXX - 1 && 0 <= k < SCAN
    ensures Target(side, line, k) in Board()
  {}

  lemma IsTheRun(s: set<Cell>, side: Side, line: int, i: int, xs: int)
    requires 3 < xs <= i && !Open(s, side, line, i)
    requires forall k :: i - xs <= k < i ==> Open(s, side, line, k)
    requires i == xs || !Open(s, side, line, i - xs - 1)
    ensures LongRun(s, side, line, i - xs, i)
  {}

  lemma TheRun(s: set<Cell>, side: Side, line: int, i: int, xs: int, a: int)
    requires 0 <= xs <= i && LongRun(s, side, line, a, i)
    requires forall k :: i - xs <= k < i ==> Open(s, side, line, k)
    requires i == xs || !Open(s, side, line, i - xs - 1)
    ensures a == i - xs && xs > 3 && !Open(s, side, line, i)
  {
    hide Open;
    var edge, before := Open(s, side, line, i - xs - 1), Open(s, side, line, a - 1);
  }

  lemma NoRunsYet(s: set<Cell>, side: Side, line: int)
    ensures LongRuns(s, side, line, 0) == {}
  {}

  /** The cells of a line's long runs are empty cells of one line, each beside floor. */
  lemma LongRunsOnLine(s: set<Cell>, side: Side, line: int)
    ensures forall c :: c in LongRuns(s, side, line, SCAN) ==>
      exists k :: 0 <= k < SCAN && c == Target(side, line, k) && Open(s, side, line, k)
  {}

  /** Filling runs before place i does not change what place k, from i on, sees. */
  lemma StillOpen(s: set<Cell>, t: set<Cell>, side: Side, line: int, i: int, k: int)
    requires s <= t <= s + LongRuns(s, side, line, i) && i <= k
    ensures Open(t, side, line, k) <==> Open(s, side, line, k)
  {}

  /** Nor what the run that has just ended sees. */
  lemma RunStillOpen(s: set<Cell>, t: set<Cell>, side: Side, line: int, i: int, xs: int)
    requires s <= t <= s + LongRuns(s, side, line, i) && 0 <= xs <= i
    requires forall k :: i - xs <= k < i ==> Open(s, side, line, k)
    ensures forall k :: i - xs <= k < i ==> Open(t, side, line, k)
  {
    forall k | i - xs <= k < i ensures Open(t, side, line, k) {
      assert Open(s, side, line, k);
    }
  }

  /** What a scan of the first n lines can make of s: on each line some cells of its long
      runs are dug, before the next line is looked at. */
  ghost predicate Straightens(s: set<Cell>, t: set<Cell>, side: Side, n: nat)
    decreases n
  {
    if n == 0 then t == s
    else exists u :: Straightens(s, u, side, n - 1) && u <= t <= u + LongRuns(u, side, n - 1, SCAN)
  }

  /** What it makes of s at most. */
  ghost function Straightened(s: set<Cell>, side: Side, n: nat): set<Cell> {
    if n == 0 then s
    else var u := Straightened(s, side, n - 1); u + LongRuns(u, side, n - 1, SCAN)
  }

  /** The four scans in order. */
  ghost predicate FourScans(s: set<Cell>, a: set<Cell>, b: set<Cell>, c: set<Cell>, t: set<Cell>) {
    && Straightens(s, a, Above, DMAXY - 1) && Straightens(a, b, Below, DMAXY - 1)
    && Straightens(b, c, Leftward, DMAXX - 1) && Straightens(c, t, Rightward, DMAXX - 1)
  }

  ghost predicate StraightsFilled(s: set<Cell>, t: set<Cell>) {
    exists a, b, c :: FourScans(s, a, b, c, t)
  }

  ghost function StraightenedAll(s: set<Cell>): set<Cell> {
    Straightened(Straightened(Straightened(Straightened(s, Above, DMAXY - 1), Below, DMAXY - 1),
                              Leftward, DMAXX - 1), Rightward, DMAXX - 1)
  }

  /** What the four passes make of s at most. */
  ghost predicate SmoothedMost(s: set<Cell>, t: set<Cell>) {
    exists a :: DiagsFilled(s, a) && DiagsFilled(StraightenedAll(a + Pits(a)), t)
  }

  /** What the four passes can make of s. */
  ghost predicate Smoothed(s: set<Cell>, t: set<Cell>) {
    exists a, b :: DiagsFilled(s, a) && StraightsFilled(a + Pits(a), b) && DiagsFilled(b, t)
  }
}
