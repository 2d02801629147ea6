/** Wyvill's symmetric double-step line (`DrawLine` in Source/engine.cpp): two
    pens start at the ends and walk toward each other, two columns a step, and
    one decision variable picks the pattern for both of them. */
module Line {
  import opened CInt

  datatype Pixel = Pixel(x: int, y: int)

  // ---------------------------------------------------------------- meaning

  /** The pen moves along x unless the line is steeper than 45 degrees. */
  predicate Steep(a: Pixel, b: Pixel) {
    Abs(b.y - a.y) > Abs(b.x - a.x)
  }

  function Span(a: Pixel, b: Pixel): nat {
    Max(Abs(b.x - a.x), Abs(b.y - a.y))
  }

  function Major(steep: bool, p: Pixel): int {
    if steep then p.y else p.x
  }

  function Minor(steep: bool, p: Pixel): int {
    if steep then p.x else p.y
  }

  /** Twice the signed area of the triangle a, b, p: zero on the ideal line,
      and Span(a, b) for each whole pixel off it along the minor axis. */
  function Cross(a: Pixel, b: Pixel, p: Pixel): int {
    (b.x - a.x) * (p.y - a.y) - (b.y - a.y) * (p.x - a.x)
  }

  predicate Between(m: int, n: int, k: int) {
    m <= k <= n || n <= k <= m
  }

  /** Half a pixel of slack, measured along the minor axis. */
  predicate OnLine(a: Pixel, b: Pixel, p: Pixel) {
    && Between(Major(Steep(a, b), a), Major(Steep(a, b), b), Major(Steep(a, b), p))
    && 2 * Abs(Cross(a, b, p)) <= Span(a, b)
  }

  /** What a drawing of the segment from a to b is: one pixel in each column of
      the major axis, and each of them within half a pixel of the ideal line. */
  ghost predicate IsLine(a: Pixel, b: Pixel, ps: seq<Pixel>) {
    var steep := Steep(a, b);
    && |ps| == Span(a, b) + 1
    && (forall i :: 0 <= i < |ps| ==> OnLine(a, b, ps[i]))
    && (forall i, j :: 0 <= i < j < |ps| ==> Major(steep, ps[i]) != Major(steep, ps[j]))
    && (forall m :: Between(Major(steep, a), Major(steep, b), m) ==>
          exists i :: 0 <= i < |ps| && Major(steep, ps[i]) == m)
  }

  /** Cross along and across the major axis. */
  lemma CrossByAxis(a: Pixel, b: Pixel, p: Pixel)
    ensures var s := Steep(a, b);
            var u, v := Major(s, p) - Major(s, a), Minor(s, p) - Minor(s, a);
            Abs(Cross(a, b, p)) == Abs((Major(s, b) - Major(s, a)) * v - (Minor(s, b) - Minor(s, a)) * u)
  {}

  lemma AbsOfProduct(n: int, k: int)
    ensures Abs(n * k) == Abs(n) * Abs(k)
  {
    assert (-n) * k == -(n * k) && n * (-k) == -(n * k);
    assert (-n) * (-k) == n * k;
  }

  lemma NatMultiple(n: nat, k: nat)
    ensures k >= 1 ==> n * k >= n
    ensures k >= 2 ==> n * k >= 2 * n
  {
    assert n * k == n + n * (k - 1);
    assert n * k == 2 * n + n * (k - 2);
  }

  lemma MultipleSize(n: int, k: int)
    ensures k != 0 ==> Abs(n * k) >= Abs(n)
    ensures Abs(k) >= 2 ==> Abs(n * k) >= 2 * Abs(n)
  {
    AbsOfProduct(n, k);
    NatMultiple(Abs(n), Abs(k));
  }

  lemma SmallMultiple(n: int, v: int)
    requires n != 0 && 2 * Abs(n * v) <= Abs(n)
    ensures v == 0
  {
    MultipleSize(n, v);
  }

  /** A drawing passes through both of its ends. */
  lemma LineHitsEnds(a: Pixel, b: Pixel, ps: seq<Pixel>)
    requires a != b && IsLine(a, b, ps)
    ensures a in ps && b in ps
  {
    assert Between(Major(Steep(a, b), a), Major(Steep(a, b), b), Major(Steep(a, b), a));
    assert Between(Major(Steep(a, b), a), Major(Steep(a, b), b), Major(Steep(a, b), b));
    var i :| 0 <= i < |ps| && Major(Steep(a, b), ps[i]) == Major(Steep(a, b), a);
    var j :| 0 <= j < |ps| && Major(Steep(a, b), ps[j]) == Major(Steep(a, b), b);
    assert OnLine(a, b, ps[i]) && OnLine(a, b, ps[j]);
    hide OnLine, IsLine;
    OnLineAtEnds(a, b, ps[i]);
    OnLineAtEnds(a, b, ps[j]);
  }

  lemma OnLineAtEnds(a: Pixel, b: Pixel, p: Pixel)
    requires a != b && OnLine(a, b, p)
    ensures Major(Steep(a, b), p) == Major(Steep(a, b), a) ==> p == a
    ensures Major(Steep(a, b), p) == Major(Steep(a, b), b) ==> p == b
  {
    var s := Steep(a, b);
    CrossByAxis(a, b, p);
    hide Cross;
    EndColumn(Major(s, b) - Major(s, a), Minor(s, b) - Minor(s, a),
              Major(s, p) - Major(s, a), Minor(s, p) - Minor(s, a));
  }

  lemma EndColumn(n: int, m: int, u: int, v: int)
    requires n != 0 && 2 * Abs(n * v - m * u) <= Abs(n)
    ensures u == 0 ==> v == 0
    ensures u == n ==> v == m
  {
    if u == 0 {
      SmallMultiple(n, v);
    } else if u == n {
      assert n * v - m * u == n * (v - m);
      SmallMultiple(n, v - m);
    }
  }

  /** A drawing has no gaps and never turns back: from one column to the next
      the pen stays or moves one row, toward the far end. */
  lemma LineIsMonotoneAndConnected(a: Pixel, b: Pixel, ps: seq<Pixel>, p: Pixel, q: Pixel)
    requires a != b && IsLine(a, b, ps) && p in ps && q in ps
    requires Major(Steep(a, b), q) == Major(Steep(a, b), p) + 1
    ensures var s := Steep(a, b);
            var k, n, m := Minor(s, q) - Minor(s, p), Major(s, b) - Major(s, a), Minor(s, b) - Minor(s, a);
            -1 <= k <= 1 && (k != 0 ==> m != 0 && (k > 0) == ((m > 0) == (n > 0)))
  {
    var s := Steep(a, b);
    assert OnLine(a, b, p) && OnLine(a, b, q);
    CrossByAxis(a, b, p);
    CrossByAxis(a, b, q);
    NextRow(Major(s, b) - Major(s, a), Minor(s, b) - Minor(s, a), Major(s, p) - Major(s, a),
            Minor(s, p) - Minor(s, a), Minor(s, q) - Minor(s, p));
  }

  lemma NextRow(n: int, m: int, u: int, v: int, k: int)
    requires n != 0 && Abs(m) <= Abs(n)
    requires 2 * Abs(n * v - m * u) <= Abs(n) && 2 * Abs(n * (v + k) - m * (u + 1)) <= Abs(n)
    ensures -1 <= k <= 1 && (k != 0 ==> m != 0 && (k > 0) == ((m > 0) == (n > 0)))
  {
    assert n * (v + k) - m * (u + 1) == (n * v - m * u) + n * k - m;
    if m == 0 {
      SmallMultiple(n, v);
      SmallMultiple(n, v + k);
    } else if m == n || m == -n {
      NextRowDiagonal(n, m, u, v, k);
    } else {
      MultipleSize(n, k);
    }
  }

  lemma NextRowDiagonal(n: int, m: int, u: int, v: int, k: int)
    requires n != 0 && (m == n || m == -n)
    requires 2 * Abs(n * v - m * u) <= Abs(n) && 2 * Abs(n * (v + k) - m * (u + 1)) <= Abs(n)
    ensures k == if m == n then 1 else -1
  {
    DiagonalRow(n, m, u, v);
    DiagonalRow(n, m, u + 1, v + k);
  }

  lemma DiagonalRow(n: int, m: int, u: int, v: int)
    requires n != 0 && (m == n || m == -n) && 2 * Abs(n * v - m * u) <= Abs(n)
    ensures v == if m == n then u else -u
  {
    if m == n {
      SmallMultiple(n, v - u) by { assert n * (v - u) == n * v - n * u; }
    } else {
      SmallMultiple(n, v + u) by { assert n * (v + u) == n * v + n * u && (-n) * u == -(n * u); }
    }
  }

  /** Two drawings of one segment differ only where the ideal line runs exactly
      half way between two pixels, and there by one pixel. */
  lemma LineIsUniqueUpToTies(a: Pixel, b: Pixel, ps: seq<Pixel>, qs: seq<Pixel>, p: Pixel, q: Pixel)
    requires a != b && IsLine(a, b, ps) && IsLine(a, b, qs) && p in ps && q in qs
    requires Major(Steep(a, b), p) == Major(Steep(a, b), q)
    ensures p == q || (2 * Abs(Cross(a, b, p)) == 2 * Abs(Cross(a, b, q)) == Span(a, b)
                       && Abs(Minor(Steep(a, b), p) - Minor(Steep(a, b), q)) == 1)
  {
    var s := Steep(a, b);
    assert OnLine(a, b, p) && OnLine(a, b, q);
    CrossByAxis(a, b, p);
    CrossByAxis(a, b, q);
    SameColumn(Major(s, b) - Major(s, a), Minor(s, b) - Minor(s, a), Major(s, p) - Major(s, a),
               Minor(s, p) - Minor(s, a), Minor(s, q) - Minor(s, p));
  }

  lemma SameColumn(n: int, m: int, u: int, v: int, k: int)
    requires n != 0
    requires 2 * Abs(n * v - m * u) <= Abs(n) && 2 * Abs(n * (v + k) - m * u) <= Abs(n)
    ensures k == 0 || (Abs(k) == 1 && 2 * Abs(n * v - m * u) == Abs(n) == 2 * Abs(n * (v + k) - m * u))
  {
    assert n * (v + k) - m * u == (n * v - m * u) + n * k;
    MultipleSize(n, k);
  }

  // ------------------------------------------------- the normalised octant

  /** The line after the octant is normalised: it runs from (x, y) over dx
      columns and rises dy <= dx rows, in the direction of step. */
  datatype Frame = Frame(x: int, y: int, dx: int, dy: int, step: int, steep: bool) {
    predicate Valid() {
      1 <= dx && 0 <= dy <= dx && (step == 1 || step == -1)
    }

    /** Rows risen by a row offset. */
    function Rise(dv: int): int {
      if step == 1 then dv else -dv
    }

    /** How far row h is above the ideal line at column u, in units of 1/dx row. */
    function Err(u: int, h: int): int {
      dx * h - dy * u
    }

    /** h is the row nearest to the line at column u; of two it is the upper or the lower. */
    predicate Near(u: int, h: int, upper: bool) {
      if upper then -dx < 2 * Err(u, h) <= dx else -dx <= 2 * Err(u, h) < dx
    }

    predicate Gentle() {
      2 * dy < dx
    }

    /** Which of two nearest rows a pen takes for the r-th plot of a round that has k plots
        before it, as seen in the direction the pen walks in: on gentle lines always the
        one that rises; on steep lines only for its first column, where the backward pen
        does not rise when the line ends there. */
    predicate PenRises(r: nat, k: nat) {
      Gentle() || r == 0 || (r == 2 && k < dx)
    }

    /** The same for the k-th plot, as seen from the start. */
    predicate Upper(k: nat) {
      if k < 2 then true
      else if (k - 2) % 4 < 2 then PenRises((k - 2) % 4, k) else !PenRises((k - 2) % 4, k)
    }

    /** `p` is what the k-th plot of the walk must be. */
    predicate Fits(k: nat, p: Pixel) {
      && Major(steep, p) - x == Column(dx, k)
      && Near(Column(dx, k), Rise(Minor(steep, p) - y), Upper(k))
    }
  }

  /** `engine_draw_pixel` plots (sy, sx) when gbRotateMap is set. */
  function Plot(rotate: bool, sx: int, sy: int): Pixel {
    if rotate then Pixel(sy, sx) else Pixel(sx, sy)
  }

  /** The column of the k-th plot: both ends, then two steps of the forward pen
      and two of the backward pen in turn. */
  function Column(dx: int, k: nat): int {
    if k == 0 then 0
    else if k == 1 then dx
    else
      var q, r := (k - 2) / 4, (k - 2) % 4;
      if r < 2 then 2 * q + 1 + r else dx - (2 * q + r - 1)
  }

  /** The plot that lands in column u. */
  function PlotOf(dx: nat, u: nat): nat
    requires u <= dx
  {
    if u == 0 then 0
    else if u == dx then 1
    else
      var forward := 2 * ((dx - 1) / 4) + Min((dx - 1) % 4, 2);
      if u <= forward then 2 + 4 * ((u - 1) / 2) + (u - 1) % 2
      else 4 + 4 * ((dx - u - 1) / 2) + (dx - u - 1) % 2
  }

  lemma ColumnOfPlot(dx: nat, u: nat)
    requires 1 <= dx && u <= dx
    ensures PlotOf(dx, u) <= dx && Column(dx, PlotOf(dx, u)) == u
  {
    PlotInRange(dx, u);
    if 0 < u < dx {
      ForwardColumn(dx, u);
      BackwardColumn(dx, u);
      hide Column;
    }
  }

  lemma ForwardColumn(dx: nat, u: nat)
    requires 1 <= u
    ensures Column(dx, 2 + 4 * ((u - 1) / 2) + (u - 1) % 2) == u
  {
    QuadIndex((u - 1) / 2, (u - 1) % 2);
  }

  lemma BackwardColumn(dx: nat, u: nat)
    requires u < dx
    ensures Column(dx, 4 + 4 * ((dx - u - 1) / 2) + (dx - u - 1) % 2) == u
  {
    QuadIndex((dx - u - 1) / 2, 2 + (dx - u - 1) % 2);
  }

  lemma PlotInRange(dx: nat, u: nat)
    requires 1 <= dx && u <= dx
    ensures PlotOf(dx, u) <= dx
  {
    if 0 < u < dx {
      ForwardPlots((u - 1) / 2, (u - 1) % 2, (dx - 1) / 4, (dx - 1) % 4);
      BackwardPlots((dx - u - 1) / 2, (dx - u - 1) % 2, (dx - 1) / 4, (dx - 1) % 4);
    }
  }

  lemma ForwardPlots(q: nat, r: nat, t: nat, s: nat)
    requires r < 2 && s < 4
    ensures 2 * q + r + 1 <= 2 * t + Min(s, 2) ==> 2 + 4 * q + r <= 4 * t + s + 1
  {}

  lemma BackwardPlots(q: nat, r: nat, t: nat, s: nat)
    requires r < 2 && s < 4
    ensures 2 * q + r + 1 <= 2 * t + s - Min(s, 2) ==> 4 + 4 * q + r <= 4 * t + s + 1
  {}

  lemma PlotOfColumn(dx: nat, k: nat)
    requires 1 <= dx && k <= dx
    ensures 0 <= Column(dx, k) <= dx && PlotOf(dx, Column(dx, k)) == k
  {
    if 2 <= k {
      var q, r := (k - 2) / 4, (k - 2) % 4;
      hide PlotOf;
      if r < 2 { PlotForward(dx, q, r); } else { PlotBackward(dx, q, r - 2); }
    }
  }

  lemma PlotForward(dx: nat, q: nat, r: nat)
    requires r < 2 && 2 + 4 * q + r <= dx
    ensures 2 * q + 1 + r <= dx && PlotOf(dx, 2 * q + 1 + r) == 2 + 4 * q + r
  {
    HalfIndex(q, r);
    ForwardReach(q, r, (dx - 1) / 4, (dx - 1) % 4);
  }

  lemma PlotBackward(dx: nat, q: nat, r: nat)
    requires r < 2 && 4 + 4 * q + r <= dx
    ensures 0 <= dx - (2 * q + 1 + r) && PlotOf(dx, dx - (2 * q + 1 + r)) == 4 + 4 * q + r
  {
    HalfIndex(q, r);
    BackwardReach(q, r, (dx - 1) / 4, (dx - 1) % 4);
  }

  lemma ForwardReach(q: nat, r: nat, t: nat, s: nat)
    requires r < 2 && s < 4
    ensures 2 + 4 * q + r <= 4 * t + s + 1 ==> 2 * q + 1 + r <= 2 * t + Min(s, 2)
  {}

  lemma BackwardReach(q: nat, r: nat, t: nat, s: nat)
    requires r < 2 && s < 4
    ensures 4 + 4 * q + r <= 4 * t + s + 1 ==> 4 * t + s + 1 - (2 * q + 1 + r) > 2 * t + Min(s, 2)
  {}

  lemma HalfIndex(q: nat, r: nat)
    requires r < 2
    ensures (2 * q + r) / 2 == q && (2 * q + r) % 2 == r
  {}

  lemma QuadIndex(q: nat, r: nat)
    requires r < 4
    ensures (4 * q + r) / 4 == q && (4 * q + r) % 4 == r
  {}

  lemma Mirror(f: Frame, u: int, h: int, upper: bool)
    requires f.Near(u, h, upper)
    ensures f.Near(f.dx - u, f.dy - h, !upper)
  {
    assert f.dx * (f.dy - h) == f.dx * f.dy - f.dx * h && f.dy * (f.dx - u) == f.dy * f.dx - f.dy * u;
  }

  ghost predicate AllFit(f: Frame, ps: seq<Pixel>) {
    forall k :: 0 <= k < |ps| ==> f.Fits(k, ps[k])
  }

  /** The k-th plot fits when the forward pen makes it u columns in and h rows up. */
  lemma ForwardFits(f: Frame, k: nat, u: int, h: int, sx: int, sy: int)
    requires f.Valid() && Column(f.dx, k) == u && f.Near(u, h, f.Upper(k))
    requires sx == f.x + u && f.Rise(sy - f.y) == h
    ensures f.Fits(k, Plot(f.steep, sx, sy))
  {}

  /** ... or when the backward pen makes it u columns and h rows short of the end. */
  lemma BackwardFits(f: Frame, k: nat, u: int, h: int, sx: int, sy: int)
    requires f.Valid() && Column(f.dx, k) == f.dx - u && f.Near(u, h, !f.Upper(k))
    requires sx == f.x + f.dx - u && f.Rise(sy - f.y) == f.dy - h
    ensures f.Fits(k, Plot(f.steep, sx, sy))
  {
    Mirror(f, u, h, !f.Upper(k));
  }

  /** The octant of a segment: it starts at the end with the smaller coordinate along the
      major axis, and at a if they are the same. */
  function FrameOf(a: Pixel, b: Pixel): Frame {
    var steep := Steep(a, b);
    var first := if Major(steep, a) > Major(steep, b) then b else a;
    Frame(Major(steep, first), Minor(steep, first), Span(a, b), Min(Abs(b.x - a.x), Abs(b.y - a.y)),
          if (b.x < a.x) == (b.y < a.y) then 1 else -1, steep)
  }

  /** It starts at one end and, over its columns and rows, reaches the other. */
  lemma FrameJoinsEnds(a: Pixel, b: Pixel)
    requires a != b
    ensures var f := FrameOf(a, b);
            var start, end := Plot(f.steep, f.x, f.y), Plot(f.steep, f.x + f.dx, f.y + f.Rise(f.dy));
            f.Valid() && ((start, end) == (a, b) || (start, end) == (b, a))
  {}

  /** What fits is determined, ties included. */
  lemma FitsIsUnique(f: Frame, k: nat, p: Pixel, q: Pixel)
    requires f.Valid() && f.Fits(k, p) && f.Fits(k, q)
    ensures p == q
  {
    hide Column, Frame.Upper, Frame.Near;
    NearIsUnique(f, Column(f.dx, k), f.Rise(Minor(f.steep, p) - f.y), f.Rise(Minor(f.steep, q) - f.y), f.Upper(k));
  }

  lemma NearIsUnique(f: Frame, u: int, g: int, h: int, upper: bool)
    requires f.Valid() && f.Near(u, g, upper) && f.Near(u, h, upper)
    ensures g == h
  {
    assert f.Err(u, g) - f.Err(u, h) == f.dx * (g - h);
    LessThanOne(f.dx, g - h);
  }

  lemma LessThanOne(n: int, k: int)
    requires n > 0 && -n < n * k < n
    ensures k == 0
  {
    MultipleSize(n, k);
  }

  /** The order of the plots and the pixels are those of `AllFit`, and no others. */
  lemma DrawingIsUnique(f: Frame, ps: seq<Pixel>, qs: seq<Pixel>)
    requires f.Valid() && |ps| == |qs| && AllFit(f, ps) && AllFit(f, qs)
    ensures ps == qs
  {
    forall k | 0 <= k < |ps| ensures ps[k] == qs[k] {
      FitsIsUnique(f, k, ps[k], qs[k]);
    }
  }

  /** A tie: (3, 0) is as near to the line from (0, 0) to (6, 1) as (3, 1), which is drawn. */
  lemma TieRises()
    ensures var a, b := Pixel(0, 0), Pixel(6, 1);
            && OnLine(a, b, Pixel(3, 0)) && OnLine(a, b, Pixel(3, 1))
            && FrameOf(a, b).Fits(6, Pixel(3, 1)) && !FrameOf(a, b).Fits(6, Pixel(3, 0))
  {
    assert FrameOf(Pixel(0, 0), Pixel(6, 1)) == Frame(0, 0, 6, 1, 1, false);
    SixthPlot();
    hide FrameOf, Column, Frame.Upper;
  }

  lemma SixthPlot()
    ensures Column(6, 6) == 3 && Frame(0, 0, 6, 1, 1, false).Upper(6)
  {}

  /** From the octant back to the screen. */
  lemma FrameIsLine(a: Pixel, b: Pixel, ps: seq<Pixel>)
    requires a != b && |ps| == Span(a, b) + 1 && AllFit(FrameOf(a, b), ps)
    ensures IsLine(a, b, ps)
  {
    var f := FrameOf(a, b);
    FrameJoinsEnds(a, b);
    FitsMakeLine(a, b, f, ps);
  }

  lemma FitsMakeLine(a: Pixel, b: Pixel, f: Frame, ps: seq<Pixel>)
    requires f.Valid() && f.steep == Steep(a, b) && f.dx == Span(a, b)
    requires Plot(f.steep, f.x, f.y) == a || Plot(f.steep, f.x, f.y) == b
    requires Plot(f.steep, f.x + f.dx, f.y + (if f.step == 1 then f.dy else -f.dy))
          == if Plot(f.steep, f.x, f.y) == a then b else a
    requires |ps| == f.dx + 1
    requires AllFit(f, ps)
    ensures IsLine(a, b, ps)
  {
    hide Cross, Column, PlotOf, Frame.Near;
    forall k | 0 <= k < |ps| ensures OnLine(a, b, ps[k]) {
      PlotOfColumn(f.dx, k);
      FitsIsOnLine(a, b, f, k, ps[k]);
    }
    forall i, j | 0 <= i < j < |ps|
      ensures Major(f.steep, ps[i]) != Major(f.steep, ps[j])
    {
      PlotOfColumn(f.dx, i);
      PlotOfColumn(f.dx, j);
    }
    forall m | Between(Major(f.steep, a), Major(f.steep, b), m)
      ensures exists i :: 0 <= i < |ps| && Major(f.steep, ps[i]) == m
    {
      ColumnOfPlot(f.dx, m - f.x);
      assert f.Fits(PlotOf(f.dx, m - f.x), ps[PlotOf(f.dx, m - f.x)]);
    }
  }

  lemma FitsIsOnLine(a: Pixel, b: Pixel, f: Frame, k: nat, p: Pixel)
    requires f.Valid() && f.steep == Steep(a, b) && f.dx == Span(a, b)
    requires Plot(f.steep, f.x, f.y) == a || Plot(f.steep, f.x, f.y) == b
    requires Plot(f.steep, f.x + f.dx, f.y + (if f.step == 1 then f.dy else -f.dy))
          == if Plot(f.steep, f.x, f.y) == a then b else a
    requires f.Fits(k, p) && 0 <= Column(f.dx, k) <= f.dx
    ensures OnLine(a, b, p)
  {
    var u, v := Major(f.steep, p) - f.x, Minor(f.steep, p) - f.y;
    var w := if f.step == 1 then f.dy else -f.dy;
    var start, end := Plot(f.steep, f.x, f.y), Plot(f.steep, f.x + f.dx, f.y + w);
    CrossInFrame(f.x, f.y, f.dx, w, f.steep, p);
    CrossReversed(start, end, p);
    assert Abs(Cross(a, b, p)) == Abs(f.dx * v - w * u);
    RiseTurnsSign(f, u, v);
  }

  lemma CrossInFrame(x: int, y: int, dx: int, w: int, steep: bool, p: Pixel)
    ensures var area := dx * (Minor(steep, p) - y) - w * (Major(steep, p) - x);
            Cross(Plot(steep, x, y), Plot(steep, x + dx, y + w), p) == if steep then -area else area
  {
    if steep {
      assert Cross(Plot(steep, x, y), Plot(steep, x + dx, y + w), p) == w * (p.y - x) - dx * (p.x - y);
    } else {
      assert Cross(Plot(steep, x, y), Plot(steep, x + dx, y + w), p) == dx * (p.y - y) - w * (p.x - x);
    }
  }

  lemma CrossReversed(a: Pixel, b: Pixel, p: Pixel)
    ensures Cross(b, a, p) == -Cross(a, b, p)
  {
    var c, d, e, g := b.x - a.x, b.y - a.y, p.x - a.x, p.y - a.y;
    assert Cross(b, a, p) == (-c) * (g - d) - (-d) * (e - c);
    assert (-c) * (g - d) == -(c * g) + c * d;
    assert (-d) * (e - c) == -(d * e) + d * c;
  }

  lemma RiseTurnsSign(f: Frame, u: int, v: int)
    requires f.Valid()
    ensures var w := if f.step == 1 then f.dy else -f.dy;
            Abs(f.dx * v - w * u) == Abs(f.dx * f.Rise(v) - f.dy * u)
  {
    if f.step == -1 {
      assert f.dx * (-v) == -(f.dx * v) && (-f.dy) * u == -(f.dy * u);
    }
  }

  lemma ErrMoves(f: Frame, u: int, h: int)
    ensures f.Err(u + 1, h) == f.Err(u, h) - f.dy
    ensures f.Err(u + 2, h) == f.Err(u, h) - 2 * f.dy
    ensures f.Err(u + 1, h + 1) == f.Err(u, h) - f.dy + f.dx
    ensures f.Err(u + 2, h + 1) == f.Err(u, h) - 2 * f.dy + f.dx
    ensures f.Err(u + 2, h + 2) == f.Err(u, h) - 2 * f.dy + 2 * f.dx
  {
    assert f.dy * (u + 1) == f.dy * u + f.dy && f.dy * (u + 2) == f.dy * u + 2 * f.dy;
    assert f.dx * (h + 1) == f.dx * h + f.dx && f.dx * (h + 2) == f.dx * h + 2 * f.dx;
  }

  /** Four more plots, two by each pen, after i rounds: the forward pen rises to
      h1 and h2, the backward pen to g1 and h2 rows short of the end. */
  lemma RoundFits(f: Frame, ps: seq<Pixel>, i: nat, h1: int, h2: int, g1: int, ya: int, yb: int, za: int, zb: int)
    requires f.Valid() && |ps| == 2 + 4 * i && AllFit(f, ps)
    requires f.Near(2 * i + 1, h1, true) && f.Near(2 * i + 2, h2, f.Gentle())
    requires f.Near(2 * i + 1, g1, f.PenRises(2, 4 + 4 * i))
    requires f.Rise(ya - f.y) == h1 && f.Rise(yb - f.y) == h2
    requires f.Rise(za - f.y) == f.dy - g1 && f.Rise(zb - f.y) == f.dy - h2
    ensures AllFit(f, ps + [Plot(f.steep, f.x + 2 * i + 1, ya), Plot(f.steep, f.x + 2 * i + 2, yb),
                            Plot(f.steep, f.x + f.dx - 2 * i - 1, za), Plot(f.steep, f.x + f.dx - 2 * i - 2, zb)])
  {
    RoundColumns(f.dx, i);
    RoundUppers(f, i);
    hide Column, Frame.Near, AllFit, Frame.Gentle, Frame.Upper, Frame.PenRises;
    var pa, pb := Plot(f.steep, f.x + 2 * i + 1, ya), Plot(f.steep, f.x + 2 * i + 2, yb);
    var qa, qb := Plot(f.steep, f.x + f.dx - 2 * i - 1, za), Plot(f.steep, f.x + f.dx - 2 * i - 2, zb);
    ForwardFits(f, 2 + 4 * i, 2 * i + 1, h1, f.x + 2 * i + 1, ya);
    NextFits(f, ps, pa);
    ForwardFits(f, 3 + 4 * i, 2 * i + 2, h2, f.x + 2 * i + 2, yb);
    NextFits(f, ps + [pa], pb);
    BackwardFits(f, 4 + 4 * i, 2 * i + 1, g1, f.x + f.dx - 2 * i - 1, za);
    NextFits(f, ps + [pa] + [pb], qa);
    BackwardFits(f, 5 + 4 * i, 2 * i + 2, h2, f.x + f.dx - 2 * i - 2, zb);
    NextFits(f, ps + [pa] + [pb] + [qa], qb);
    assert ps + [pa] + [pb] + [qa] + [qb] == ps + [pa, pb, qa, qb];
  }

  lemma RoundColumns(dx: int, i: nat)
    ensures Column(dx, 2 + 4 * i) == 2 * i + 1 && Column(dx, 3 + 4 * i) == 2 * i + 2
    ensures Column(dx, 4 + 4 * i) == dx - (2 * i + 1) && Column(dx, 5 + 4 * i) == dx - (2 * i + 2)
  {
    QuadIndex(i, 0); QuadIndex(i, 1); QuadIndex(i, 2); QuadIndex(i, 3);
  }

  lemma RoundUppers(f: Frame, i: nat)
    ensures f.Upper(2 + 4 * i) && (f.Upper(3 + 4 * i) <==> f.Gentle())
    ensures (f.Upper(4 + 4 * i) <==> !f.PenRises(2, 4 + 4 * i)) && (f.Upper(5 + 4 * i) <==> !f.Gentle())
  {
    QuadIndex(i, 0); QuadIndex(i, 1); QuadIndex(i, 2); QuadIndex(i, 3);
  }

  lemma NextFits(f: Frame, ps: seq<Pixel>, p: Pixel)
    requires AllFit(f, ps) && f.Fits(|ps|, p)
    ensures AllFit(f, ps + [p])
  {}

  lemma PrefixFits(f: Frame, ps: seq<Pixel>, front: seq<Pixel>)
    requires AllFit(f, ps) && front <= ps
    ensures AllFit(f, front)
  {}

  lemma EndsFit(f: Frame, z: int)
    requires f.Valid() && f.Rise(z - f.y) == f.dy
    ensures AllFit(f, [Plot(f.steep, f.x, f.y), Plot(f.steep, f.x + f.dx, z)])
  {
    assert f.Err(0, 0) == 0;
    ForwardFits(f, 0, 0, 0, f.x, f.y);
    BackwardFits(f, 1, 0, 0, f.x + f.dx, z);
  }

  // ------------------------------------------------------------ the routine

  /** The decision variable of a gentle line u columns in and h rows up. */
  function GentleD(f: Frame, u: int, h: int): int {
    4 * f.dy - f.dx - 2 * f.Err(u, h)
  }

  function SteepD(f: Frame, u: int, h: int): int {
    4 * f.dy - 3 * f.dx - 2 * f.Err(u, h)
  }

  lemma GentlePatterns(f: Frame, u: int, h: int)
    requires f.Valid() && f.Gentle() && f.Near(u, h, true)
    ensures var D := GentleD(f, u, h);
            if D < 0 then
              f.Near(u + 1, h, true) && f.Near(u + 2, h, true) && GentleD(f, u + 2, h) == D + 4 * f.dy
            else
              && f.Near(u + 1, if D < 2 * f.dy then h else h + 1, true) && f.Near(u + 2, h + 1, true)
              && GentleD(f, u + 2, h + 1) == D + 4 * f.dy - 2 * f.dx
  {
    ErrMoves(f, u, h);
  }

  lemma SteepPatterns(f: Frame, u: int, h: int)
    requires f.Valid() && !f.Gentle() && f.Near(u, h, false)
    ensures var D := SteepD(f, u, h);
            if D > 0 then
              && f.Near(u + 1, h + 1, true) && f.Near(u + 1, h + 1, false) && f.Near(u + 2, h + 2, false)
              && SteepD(f, u + 2, h + 2) == D + 4 * (f.dy - f.dx)
            else
              && f.Near(u + 1, if D < 2 * (f.dy - f.dx) then h else h + 1, true)
              && f.Near(u + 1, if D <= 2 * (f.dy - f.dx) then h else h + 1, false)
              && f.Near(u + 2, h + 1, false)
              && SteepD(f, u + 2, h + 1) == D + 4 * f.dy - 2 * f.dx
  {
    ErrMoves(f, u, h);
    if f.dy == f.dx { DiagonalErr(f, u, h); }
  }

  /** On a diagonal the line meets the middle of every pixel. */
  lemma DiagonalErr(f: Frame, u: int, h: int)
    requires f.Valid() && f.dy == f.dx && f.Near(u, h, false)
    ensures f.Err(u, h) == 0
  {
    assert f.Err(u, h) == f.dx * (h - u);
    SmallMultiple(f.dx, h - u);
  }

  lemma StartOfLine(f: Frame)
    requires f.Valid()
    ensures f.Near(0, 0, true) && f.Near(0, 0, false)
    ensures GentleD(f, 0, 0) == 4 * f.dy - f.dx && SteepD(f, 0, 0) == 4 * f.dy - 3 * f.dx
  {
    assert f.Err(0, 0) == 0;
  }

  lemma StartOfD(f: Frame)
    ensures SteepD(f, 0, 0) == 4 * f.dy - 3 * f.dx
  {
    assert f.Err(0, 0) == 0;
  }

  /** The last one to three plots of a gentle line. */
  method LastGentle(ghost f: Frame, done: seq<Pixel>, ghost i: nat, ghost h: int, x: int, y: int, x1_: int, y1_: int,
                    D: int, c: int, step: int, rotate: bool, pixelsLeft: int)
    returns (plotted: seq<Pixel>)
    requires f.Valid() && f.step == step && f.steep == rotate && 1 <= pixelsLeft <= 3
    requires |done| == 2 + 4 * i && AllFit(f, done) && f.Near(2 * i, h, true)
    requires x == f.x + 2 * i && x1_ == f.x + f.dx - 2 * i
    requires f.Rise(y - f.y) == h && f.Rise(y1_ - f.y) == f.dy - h
    requires f.Gentle() && c == 2 * f.dy
    requires D == GentleD(f, 2 * i, h)
    ensures |plotted| == |done| + pixelsLeft && AllFit(f, plotted)
  {
    hide AllFit, Column, Frame.Near;
    GentlePatterns(f, 2 * i, h);
    if D < 0 {
      RoundFits(f, done, i, h, h, h, y, y, y1_, y1_);
      ghost var full :=
        done + [Plot(rotate, x + 1, y), Plot(rotate, x + 2, y), Plot(rotate, x1_ - 1, y1_), Plot(rotate, x1_ - 2, y1_)];
      plotted := done + [Plot(rotate, x + 1, y)];
      if pixelsLeft > 1 { plotted := plotted + [Plot(rotate, x + 2, y)]; }
      if pixelsLeft > 2 { plotted := plotted + [Plot(rotate, x1_ - 1, y1_)]; }
      PrefixFits(f, full, plotted);
    } else if D < c {
      RoundFits(f, done, i, h, h + 1, h, y, y + step, y1_, y1_ - step);
      ghost var full := done + [Plot(rotate, x + 1, y), Plot(rotate, x + 2, y + step), Plot(rotate, x1_ - 1, y1_),
                                Plot(rotate, x1_ - 2, y1_ - step)];
      plotted := done + [Plot(rotate, x + 1, y)];
      if pixelsLeft > 1 { plotted := plotted + [Plot(rotate, x + 2, y + step)]; }
      if pixelsLeft > 2 { plotted := plotted + [Plot(rotate, x1_ - 1, y1_)]; }
      PrefixFits(f, full, plotted);
    } else {
      RoundFits(f, done, i, h + 1, h + 1, h + 1, y + step, y + step, y1_ - step, y1_ - step);
      ghost var full := done + [Plot(rotate, x + 1, y + step), Plot(rotate, x + 2, y + step),
                                Plot(rotate, x1_ - 1, y1_ - step), Plot(rotate, x1_ - 2, y1_ - step)];
      plotted := done + [Plot(rotate, x + 1, y + step)];
      if pixelsLeft > 1 { plotted := plotted + [Plot(rotate, x + 2, y + step)]; }
      if pixelsLeft > 2 { plotted := plotted + [Plot(rotate, x1_ - 1, y1_ - step)]; }
      PrefixFits(f, full, plotted);
    }
  }

  /** The last one to three plots of a steep line. With equal ends the remainder of -1
      columns is not 0 either, and the first plot of the pattern is made. */
  method LastSteep(ghost f: Frame, done: seq<Pixel>, ghost i: nat, ghost h: int, x: int, y: int, x1_: int, y1_: int,
                    D: int, c: int, step: int, rotate: bool, pixelsLeft: int)
    returns (plotted: seq<Pixel>)
    requires -3 <= pixelsLeft <= 3 && pixelsLeft != 0
    requires pixelsLeft > 0 ==>
      && f.Valid() && f.step == step && f.steep == rotate
      && |done| == 2 + 4 * i && AllFit(f, done) && f.Near(2 * i, h, false)
      && x == f.x + 2 * i && x1_ == f.x + f.dx - 2 * i
      && f.Rise(y - f.y) == h && f.Rise(y1_ - f.y) == f.dy - h
      && !f.Gentle() && f.dx <= 4 + 4 * i && c == 2 * (f.dy - f.dx)
      && D == SteepD(f, 2 * i, h)
    ensures pixelsLeft > 0 ==> |plotted| == |done| + pixelsLeft && AllFit(f, plotted)
    ensures pixelsLeft < 0 ==> plotted == done + [Plot(rotate, x + 1, if D > 0 || D >= c then y + step else y)]
  {
    hide AllFit, Column, Frame.Near, SteepD;
    if pixelsLeft > 0 { SteepPatterns(f, 2 * i, h); }
    if D > 0 {
      plotted := done + [Plot(rotate, x + 1, y + step)];
      if pixelsLeft > 1 { plotted := plotted + [Plot(rotate, x + 2, y + 2 * step)]; }
      if pixelsLeft > 2 { plotted := plotted + [Plot(rotate, x1_ - 1, y1_ - step)]; }
      if pixelsLeft > 0 {
        RoundFits(f, done, i, h + 1, h + 2, h + 1, y + step, y + 2 * step, y1_ - step, y1_ - 2 * step);
        PrefixFits(f, done + [Plot(rotate, x + 1, y + step), Plot(rotate, x + 2, y + 2 * step),
                              Plot(rotate, x1_ - 1, y1_ - step), Plot(rotate, x1_ - 2, y1_ - 2 * step)], plotted);
      }
    } else if D < c {
      plotted := done + [Plot(rotate, x + 1, y)];
      if pixelsLeft > 1 { plotted := plotted + [Plot(rotate, x + 2, y + step)]; }
      if pixelsLeft > 2 { plotted := plotted + [Plot(rotate, x1_ - 1, y1_)]; }
      if pixelsLeft > 0 {
        RoundFits(f, done, i, h, h + 1, h, y, y + step, y1_, y1_ - step);
        PrefixFits(f, done + [Plot(rotate, x + 1, y), Plot(rotate, x + 2, y + step), Plot(rotate, x1_ - 1, y1_),
                              Plot(rotate, x1_ - 2, y1_ - step)], plotted);
      }
    } else {
      // rounding by the backward pen: only a strict excess makes it rise here
      var za := if D > c then y1_ - step else y1_;
      plotted := done + [Plot(rotate, x + 1, y + step)];
      if pixelsLeft > 1 { plotted := plotted + [Plot(rotate, x + 2, y + step)]; }
      if pixelsLeft > 2 { plotted := plotted + [Plot(rotate, x1_ - 1, za)]; }
      if pixelsLeft > 0 {
        RoundFits(f, done, i, h + 1, h + 1, if D > c then h + 1 else h, y + step, y + step, za, y1_ - step);
        PrefixFits(f, done + [Plot(rotate, x + 1, y + step), Plot(rotate, x + 2, y + step), Plot(rotate, x1_ - 1, za),
                              Plot(rotate, x1_ - 2, y1_ - step)], plotted);
      }
    }
  }

  /** The arm of DrawLine for slopes below 1/2. */
  method DrawGentle(ghost f: Frame, x0: int, y0: int, x1: int, y1: int, dx: int, dy: int, step: int, rotate: bool)
    returns (plotted: seq<Pixel>)
    requires f.Valid() && f == Frame(x0, y0, dx, dy, step, rotate)
    requires 4 * dy - 2 * dx < 0 && x1 == x0 + dx && f.Rise(y1 - y0) == dy
    ensures |plotted| == dx + 1 && AllFit(f, plotted)
  {
    hide AllFit, Column, Frame.Near, GentleD;
    var x, y, x1_, y1_ := x0, y0, x1, y1;
    var xend := Div(dx - 1, 4);
    var pixelsLeft := Mod(dx - 1, 4);
    plotted := [Plot(rotate, x, y), Plot(rotate, x1_, y1_)];
    EndsFit(f, y1);
    var incr2 := 4 * dy - 2 * dx;
    var c := 2 * dy;
    var incr1 := 2 * c;
    var D := incr1 - dx;
    ghost var h := 0;  // rows risen so far by either pen
    var i := 0;
    StartOfLine(f);
    while i < xend
      invariant 0 <= i <= xend && |plotted| == 2 + 4 * i
      invariant x == x0 + 2 * i && x1_ == x0 + dx - 2 * i
      invariant f.Rise(y - y0) == h && f.Rise(y1_ - y0) == dy - h
      invariant D == GentleD(f, 2 * i, h) && f.Near(2 * i, h, true)
      invariant AllFit(f, plotted)
    {
      GentlePatterns(f, 2 * i, h);
      x := x + 1;
      x1_ := x1_ - 1;
      if D < 0 {
        RoundFits(f, plotted, i, h, h, h, y, y, y1_, y1_);
        plotted := plotted + [Plot(rotate, x, y), Plot(rotate, x + 1, y),
                              Plot(rotate, x1_, y1_), Plot(rotate, x1_ - 1, y1_)];
        x, x1_ := x + 1, x1_ - 1;
        D := D + incr1;
      } else {
        if D < c {
          RoundFits(f, plotted, i, h, h + 1, h, y, y + step, y1_, y1_ - step);
          plotted := plotted + [Plot(rotate, x, y), Plot(rotate, x + 1, y + step),
                                Plot(rotate, x1_, y1_), Plot(rotate, x1_ - 1, y1_ - step)];
          x, y, x1_, y1_ := x + 1, y + step, x1_ - 1, y1_ - step;
        } else {
          RoundFits(f, plotted, i, h + 1, h + 1, h + 1, y + step, y + step, y1_ - step, y1_ - step);
          y, y1_ := y + step, y1_ - step;
          plotted := plotted + [Plot(rotate, x, y), Plot(rotate, x + 1, y),
                                Plot(rotate, x1_, y1_), Plot(rotate, x1_ - 1, y1_)];
          x, x1_ := x + 1, x1_ - 1;
        }
        D := D + incr2;
        h := h + 1;
      }
      i := i + 1;
    }
    if pixelsLeft != 0 {
      plotted := LastGentle(f, plotted, i, h, x, y, x1_, y1_, D, c, step, rotate, pixelsLeft);
    }
  }

  /** One turn of its loop: two plots by each pen. */
  method SteepRound(ghost f: Frame, done: seq<Pixel>, ghost i: nat, ghost h: int, x0: int, y0: int, x1: int, y1: int,
                    D: int, c: int, incr1: int, incr2: int, step: int, rotate: bool)
    returns (plotted: seq<Pixel>, x: int, y: int, x1_: int, y1_: int, D': int, ghost h': int)
    requires f.Valid() && f.step == step && f.steep == rotate
    requires |done| == 2 + 4 * i && AllFit(f, done) && f.Near(2 * i, h, false)
    requires x0 == f.x + 2 * i && x1 == f.x + f.dx - 2 * i
    requires f.Rise(y0 - f.y) == h && f.Rise(y1 - f.y) == f.dy - h
    requires !f.Gentle() && 4 + 4 * i < f.dx && c == 2 * (f.dy - f.dx) && incr1 == 2 * c && incr2 == 4 * f.dy - 2 * f.dx
    requires D == SteepD(f, 2 * i, h)
    ensures |plotted| == |done| + 4 && AllFit(f, plotted) && f.Near(2 * i + 2, h', false)
    ensures x == x0 + 2 && x1_ == x1 - 2
    ensures f.Rise(y - f.y) == h' && f.Rise(y1_ - f.y) == f.dy - h'
    ensures D' == SteepD(f, 2 * i + 2, h')
  {
    hide AllFit, Column, Frame.Near, SteepD, Plot;
    SteepPatterns(f, 2 * i, h);
    y, y1_ := y0, y1;
    x, x1_ := x0 + 1, x1 - 1;
    if D > 0 {
      RoundFits(f, done, i, h + 1, h + 2, h + 1, y + step, y + 2 * step, y1_ - step, y1_ - 2 * step);
      plotted := done + [Plot(rotate, x, y + step), Plot(rotate, x + 1, y + 2 * step),
                         Plot(rotate, x1_, y1_ - step), Plot(rotate, x1_ - 1, y1_ - 2 * step)];
      x, y, x1_, y1_ := x + 1, y + 2 * step, x1_ - 1, y1_ - 2 * step;
      D' := D + incr1;
      h' := h + 2;
    } else {
      if D < c {
        RoundFits(f, done, i, h, h + 1, h, y, y + step, y1_, y1_ - step);
        plotted := done + [Plot(rotate, x, y), Plot(rotate, x + 1, y + step),
                           Plot(rotate, x1_, y1_), Plot(rotate, x1_ - 1, y1_ - step)];
        x, y, x1_, y1_ := x + 1, y + step, x1_ - 1, y1_ - step;
      } else {
        RoundFits(f, done, i, h + 1, h + 1, h + 1, y + step, y + step, y1_ - step, y1_ - step);
        y, y1_ := y + step, y1_ - step;
        plotted := done + [Plot(rotate, x, y), Plot(rotate, x + 1, y),
                           Plot(rotate, x1_, y1_), Plot(rotate, x1_ - 1, y1_)];
        x, x1_ := x + 1, x1_ - 1;
      }
      D' := D + incr2;
      h' := h + 1;
    }
  }

  /** The arm of DrawLine for slopes of 1/2 and more, and for equal ends: nothing keeps
      them out, and `(dx - 1) / 4` and `(dx - 1) % 4` are then 0 and -1. */
  method DrawSteep(ghost f: Frame, x0: int, y0: int, x1: int, y1: int, dx: int, dy: int, step: int, rotate: bool)
    returns (plotted: seq<Pixel>)
    requires f == Frame(x0, y0, dx, dy, step, rotate) && 0 <= dy <= dx && (step == 1 || step == -1)
    requires 4 * dy - 2 * dx >= 0 && x1 == x0 + dx && f.Rise(y1 - y0) == dy
    ensures dx > 0 ==> |plotted| == dx + 1 && AllFit(f, plotted)
    ensures dx == 0 ==> plotted == [Plot(rotate, x0, y0), Plot(rotate, x0, y0), Plot(rotate, x0 + 1, y0 + step)]
  {
    hide AllFit, Column, Frame.Near, SteepD, Plot;
    var x, y, x1_, y1_ := x0, y0, x1, y1;
    var xend := Div(dx - 1, 4);
    var pixelsLeft := Mod(dx - 1, 4);
    plotted := [Plot(rotate, x, y), Plot(rotate, x1_, y1_)];
    if dx > 0 {
      EndsFit(f, y1);
      StartOfLine(f);
    }
    var incr2 := 4 * dy - 2 * dx;
    var c := 2 * (dy - dx);
    var incr1 := 2 * c;
    var D := incr1 + dx;
    ghost var h := 0;  // rows risen so far by either pen
    var i := 0;
    StartOfD(f);
    while i < xend
      invariant 0 <= i <= xend && |plotted| == 2 + 4 * i
      invariant i == 0 ==> h == 0 && y == y0 && plotted == [Plot(rotate, x0, y0), Plot(rotate, x1, y1)]
      invariant x == x0 + 2 * i && x1_ == x0 + dx - 2 * i
      invariant f.Rise(y - y0) == h && f.Rise(y1_ - y0) == dy - h
      invariant D == SteepD(f, 2 * i, h)
      invariant dx > 0 ==> f.Near(2 * i, h, false) && AllFit(f, plotted)
    {
      plotted, x, y, x1_, y1_, D, h := SteepRound(f, plotted, i, h, x, y, x1_, y1_, D, c, incr1, incr2, step, rotate);
      i := i + 1;
    }
    if pixelsLeft != 0 {
      plotted := LastSteep(f, plotted, i, h, x, y, x1_, y1_, D, c, step, rotate, pixelsLeft);
    }
  }

  /** DrawLine: a line by half-pixel error whenever its ends differ; with equal
      ends the remainder of -1 columns makes it plot a stray third pixel. */
  method DrawLine(a: Pixel, b: Pixel) returns (plotted: seq<Pixel>)
    ensures IsLine(a, b, plotted) <==> a != b
    ensures a != b ==> |plotted| == Span(a, b) + 1 && AllFit(FrameOf(a, b), plotted)
    ensures a == b ==> plotted == [a, a, Pixel(a.x + 1, a.y + 1)]
  {
    hide AllFit, IsLine, FrameOf;
    var x, y, x1_, y1_, dx, dy, step, rotate := Normalise(a, b);
    ghost var f := Frame(x, y, dx, dy, step, rotate);
    if 4 * dy - 2 * dx < 0 {
      plotted := DrawGentle(f, x, y, x1_, y1_, dx, dy, step, rotate);
    } else {
      plotted := DrawSteep(f, x, y, x1_, y1_, dx, dy, step, rotate);
    }
    if a != b { FrameIsLine(a, b, plotted); } else { NoLine(a, plotted); }
  }

  lemma NoLine(a: Pixel, ps: seq<Pixel>)
    requires |ps| == 3
    ensures !IsLine(a, a, ps)
  {}

  /** Its first steps: the axis of greatest movement becomes x, walked upward. */
  method Normalise(a: Pixel, b: Pixel)
    returns (x: int, y: int, x1_: int, y1_: int, dx: int, dy: int, step: int, rotate: bool)
    ensures Frame(x, y, dx, dy, step, rotate) == FrameOf(a, b)
    ensures 0 <= dy <= dx == Span(a, b) && (step == 1 || step == -1) && (dx == 0 <==> a == b)
    ensures x1_ == x + dx && y1_ == y + if step == 1 then dy else -dy
    ensures (Plot(rotate, x, y), Plot(rotate, x1_, y1_)) in {(a, b), (b, a)}
    ensures a == b ==> !rotate && step == 1 && x == a.x && y == a.y
  {
    var x0, y0, x1, y1 := a.x, a.y, b.x, b.y;
    var signX := if x1 - x0 < 0 then -1 else 1;
    var signY := if y1 - y0 < 0 then -1 else 1;
    dx, dy := (x1 - x0) * signX, (y1 - y0) * signY;
    step := if signX == signY then 1 else -1;
    rotate := false;
    if dy > dx {
      x0, y0 := y0, x0;
      x1, y1 := y1, x1;
      dx, dy := dy, dx;
      rotate := true;
    }
    x, y, x1_, y1_ := x0, y0, x1, y1;
    if x0 > x1 {
      x, y, x1_, y1_ := x1, y1, x0, y0;
    }
  }
}
