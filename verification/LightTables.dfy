/** The light tables of the game (`MakeLightTable` in Source/lighting.cpp), with its
    floating-point roots and quotients as exact integers. */
module LightTables {
  import opened CInt
  import opened Lamps

  /** The whole part of the square root. */
  function Root(n: nat): (r: nat)
    ensures r * r <= n < (r + 1) * (r + 1)
  {
    RootFrom(n, 0)
  }

  function RootFrom(n: nat, r: nat): (s: nat)
    requires r * r <= n
    ensures s * s <= n < (s + 1) * (s + 1)
    decreases n - r * r
  {
    if n < (r + 1) * (r + 1) then r else RootFrom(n, r + 1)
  }

  lemma RootAtLeast(n: nat, k: nat)
    requires k * k <= n
    ensures Root(n) >= k
  {
    SquareGrows(Root(n), k);
  }

  lemma RootOfSquare(k: nat)
    ensures Root(k * k) == k
  {
    SquareGrows(Root(k * k), k);
    SquareGrows(k, Root(k * k));
  }

  /** lightradius[k][l]: darkest beyond k + 1 squares, and up to there in proportion:
      `l * 15.0 / ((k + 1) * 8.0) + 0.5`, cut off. */
  function ShadeAt(k: nat, l: nat): (v: shade)
    ensures v <= 15
    ensures l >= 8 * (k + 1) ==> v == 15
  {
    if l > 8 * (k + 1) then 15 else Quotient(30 * l + 8 * (k + 1), 16 * (k + 1))
  }

  /** The shade is 15 * l / (8 * (k + 1)) to the nearest whole number, upward from a half. */
  lemma ShadeIsNearest(k: nat, l: nat)
    requires l <= 8 * (k + 1)
    ensures var whole := 8 * (k + 1); -whole < 2 * (ShadeAt(k, l) * whole - 15 * l) <= whole
  {
    var q := Quotient(30 * l + 8 * (k + 1), 16 * (k + 1));
    assert q * (16 * (k + 1)) == 2 * (q * (8 * (k + 1)));
  }

  function Quotient(a: nat, d: nat): (q: nat)
    requires d > 0 && 2 * a <= 31 * d
    ensures q <= 15 && q * d <= a < q * d + d
    ensures 2 * a == 31 * d ==> q == 15
  {
    DivBounds(a, d);
    MulStep(15, a / d, d);
    MulStep(a / d, 15, d);
    a / d
  }

  /** lightblock: eight times the distance to a light moved by m % 8 and m / 8 eighths. */
  function DistanceAt(m: nat, y: nat, x: nat): nat {
    Root(Square(8 * x - m % 8) + Square(8 * y - m / 8))
  }

  function Square(v: int): (s: nat)
    ensures s == v * v
  {
    assert v * v >= 0;
    v * v
  }

  function GameTables(): (t: Tables)
    ensures TablesOk(t)
  {
    Tables(seq(16, k requires 0 <= k < 16 => seq(128, l requires 0 <= l < 128 => ShadeAt(k, l))),
           seq(64, m requires 0 <= m < 64 =>
             seq(16, y requires 0 <= y < 16 => seq(16, x requires 0 <= x < 16 => DistanceAt(m, y, x)))))
  }

  lemma GameTablesAre()
    ensures forall k, l :: 0 <= k < 16 && 0 <= l < 128 ==> GameTables().lightradius[k][l] == ShadeAt(k, l)
    ensures forall m, y, x :: 0 <= m < 64 && 0 <= y < 16 && 0 <= x < 16 ==>
      GameTables().lightblock[m][y][x] == DistanceAt(m, y, x)
  {}

  // ------------------------------------------------------ the beam of a light

  /** The distance of (x, y) from the light, in eighths of a square along each axis. */
  function Across(l: Lamp, x: int): int {
    8 * (x - l.x) - l.xoff
  }

  function Down(l: Lamp, y: int): int {
    8 * (y - l.y) - l.yoff
  }

  function Distance(l: Lamp, x: int, y: int): nat {
    Root(Square(Across(l, x)) + Square(Down(l, y)))
  }

  function CentreX(l: Lamp): int {
    l.x - Borrow(l.xoff)
  }

  function CentreY(l: Lamp): int {
    l.y - Borrow(l.yoff)
  }

  /** The square is in the rows and columns that DoLighting goes through. */
  predicate InReach(l: Lamp, x: int, y: int)
    requires (x, y) != (CentreX(l), CentreY(l))
  {
    var q := QuarterOf(x - CentreX(l), y - CentreY(l));
    var p, n := RowCol(q, x - CentreX(l), y - CentreY(l)), Reach(q, CentreX(l), CentreY(l));
    0 <= p.0 < n.0 && 1 <= p.1 < n.1
  }

  /** Lights are round: through the four quarter turns of the tables, what counts is the
      distance to where the light is moved to. */
  lemma SpotIsRound(l: Lamp, x: int, y: int)
    requires LampOk(l)
    ensures (x, y) == (CentreX(l), CentreY(l)) ==> Spot(GameTables(), l, x, y) == 0
    ensures (x, y) != (CentreX(l), CentreY(l)) ==>
      Spot(GameTables(), l, x, y)
      == if InReach(l, x, y) && Distance(l, x, y) < 128 then ShadeAt(l.r, Distance(l, x, y)) else NOTHING
  {
    hide GameTables, ShadeAt, QuarterSpot, Distance, RowCol, Reach;
    if (x, y) != (CentreX(l), CentreY(l)) {
      QuarterIsRound(l, QuarterOf(x - CentreX(l), y - CentreY(l)), x, y);
    }
  }

  lemma QuarterIsRound(l: Lamp, q: int, x: int, y: int)
    requires LampOk(l) && 0 <= q < 4
    ensures var p, n := RowCol(q, x - CentreX(l), y - CentreY(l)), Reach(q, CentreX(l), CentreY(l));
            QuarterSpot(GameTables(), q, CentreX(l), CentreY(l), l.r, Wrap(l.xoff), Wrap(l.yoff), x, y)
            == if 0 <= p.0 < n.0 && 1 <= p.1 < n.1 && Distance(l, x, y) < 128 then ShadeAt(l.r, Distance(l, x, y))
              else NOTHING
  {
    hide GameTables, ShadeAt, Root, Square, Turned, RowCol;
    GameTablesAre();
    var p, n := RowCol(q, x - CentreX(l), y - CentreY(l)), Reach(q, CentreX(l), CentreY(l));
    if 0 <= p.0 < n.0 && 1 <= p.1 < n.1 {
      BeamIsRound(q, Wrap(l.xoff), Wrap(l.yoff), p.0, p.1);
      TurnsKeepDistance(l, q, x, y);
    }
  }

  lemma TurnsKeepDistance(l: Lamp, q: int, x: int, y: int)
    requires 0 <= q < 4
    ensures var p, o := RowCol(q, x - CentreX(l), y - CentreY(l)), Turned(q, Wrap(l.xoff), Wrap(l.yoff));
            Square(8 * p.1 - o.0) + Square(8 * p.0 - o.1) == Square(Across(l, x)) + Square(Down(l, y))
  {
    hide Square;
    var p, o := RowCol(q, x - CentreX(l), y - CentreY(l)), Turned(q, Wrap(l.xoff), Wrap(l.yoff));
    var u, v := 8 * p.1 - o.0, 8 * p.0 - o.1;
    SameSquare(u, Across(l, x));
    SameSquare(u, Down(l, y));
    SameSquare(v, Across(l, x));
    SameSquare(v, Down(l, y));
  }

  /** Straight ahead the distance is eight a square, less the offset. */
  lemma StraightAhead(l: Lamp, c: int)
    requires LampOk(l) && Indoors(l) && l.xoff >= 0 && l.yoff == 0 && 1 < c < 15
    ensures Spot(GameTables(), l, l.x + c, l.y) == ShadeAt(l.r, 8 * c - l.xoff)
  {
    hide GameTables, ShadeAt, Root, Spot;
    SpotIsRound(l, l.x + c, l.y);
    RootOfSquare(8 * c - l.xoff);
  }

  lemma BeamIsRound(q: int, xo: int, yo: int, row: int, col: int)
    requires 0 <= q < 4 && 0 <= xo < 8 && 0 <= yo < 8 && 0 <= row < 15 && 0 <= col < 15
    ensures var o := Turned(q, xo, yo);
            GameTables().lightblock[Wrap(o.0) + 8 * Wrap(o.1)][row + Borrow(o.1)][col + Borrow(o.0)]
            == Root(Square(8 * col - o.0) + Square(8 * row - o.1))
  {
    hide GameTables, Root, Square;
    GameTablesAre();
    var o := Turned(q, xo, yo);
    var m := Wrap(o.0) + 8 * Wrap(o.1);
    assert m % 8 == Wrap(o.0) && m / 8 == Wrap(o.1);
  }

  lemma SameSquare(u: int, v: int)
    ensures u == v || u == -v ==> Square(u) == Square(v)
  {}

  /** Darkness begins at 116/120 of r + 1 squares. */
  lemma DarkFrom(r: nat, d: nat)
    ensures ShadeAt(r, d) >= 15 <==> 15 * d >= 116 * (r + 1)
  {
    if d <= 8 * (r + 1) {
      MulStep(Quotient(30 * d + 8 * (r + 1), 16 * (r + 1)), 15, 16 * (r + 1));
    }
  }

  /** The beam stays in the half-open square around the light that DoUnLight takes back:
      the light is not moved too far toward larger x or y, or reaches farther than its
      rows and columns, or is one of two of the smallest lights. */
  predicate BeamInside(l: Lamp) {
    || l.r >= 14
    || (15 * l.xoff <= 4 * (l.r + 1) && 15 * l.yoff <= 4 * (l.r + 1))
    || (l.r == 0 && (l.xoff, l.yoff) in {(1, -4), (-4, 1)})
  }

  lemma BeamStaysInside(l: Lamp, x: int, y: int)
    requires LampOk(l) && BeamInside(l) && !InSquare(l.x, l.y, l.r, x, y)
    ensures Spot(GameTables(), l, x, y) >= 15
  {
    hide GameTables, ShadeAt, Spot, Root;
    SpotIsRound(l, x, y);
    DarkFrom(l.r, Distance(l, x, y));
    if l.r >= 14 {
      assert !InReach(l, x, y);
    } else {
      FarOutside(l, x, y);
    }
  }

  lemma FarOutside(l: Lamp, x: int, y: int)
    requires LampOk(l) && BeamInside(l) && l.r < 14 && !InSquare(l.x, l.y, l.r, x, y)
    ensures 15 * Distance(l, x, y) >= 116 * (l.r + 1)
  {
    hide Square;
    var u, v := Across(l, x), Down(l, y);
    AtLeastEach(u, v);
    if l.r == 0 && (l.xoff, l.yoff) in {(1, -4), (-4, 1)} {
      AtLeastEight(u, v);
    }
  }

  /** A distance is at least its parts. */
  lemma AtLeastEach(u: int, v: int)
    ensures Root(Square(u) + Square(v)) >= Abs(u) && Root(Square(u) + Square(v)) >= Abs(v)
  {
    SameSquare(u, Abs(u));
    SameSquare(v, Abs(v));
    RootAtLeast(Square(u) + Square(v), Abs(u));
    RootAtLeast(Square(u) + Square(v), Abs(v));
  }

  lemma AtLeastEight(u: int, v: int)
    ensures (Abs(u) >= 7 && Abs(v) >= 4) || (Abs(u) >= 4 && Abs(v) >= 7) ==> Root(Square(u) + Square(v)) >= 8
  {
    var a, b := Abs(u), Abs(v);
    SameSquare(u, a);
    SameSquare(v, b);
    SquareGrows(7, a);
    SquareGrows(4, a);
    SquareGrows(7, b);
    SquareGrows(4, b);
    if Square(u) + Square(v) >= 64 { RootAtLeast(Square(u) + Square(v), 8); }
  }

  /** Where the levels are: 16 squares from the edges of the map. */
  predicate Indoors(l: Lamp) {
    16 <= l.x < MAXDUN - 16 && 16 <= l.y < MAXDUN - 16
  }

  /** The square next to the light along an axis: at most half a square away. */
  function NextTo(off: int): int {
    if off > 4 then 1 else if off < -4 then -1 else 0
  }

  /** A beam that is not inside reaches the first column or row after the square. */
  lemma BeamLeaks(l: Lamp) returns (x: int, y: int)
    requires LampOk(l) && Indoors(l) && !BeamInside(l)
    ensures OnMap(x, y) && !InSquare(l.x, l.y, l.r, x, y) && Spot(GameTables(), l, x, y) < 15
  {
    hide GameTables, ShadeAt, Spot, Root, Square;
    var k := l.r + 1;
    if 15 * l.xoff > 4 * k && (l.r > 0 || l.xoff > 1 || NearRow(l.yoff) < 4) {
      x, y := l.x + k, l.y + NextTo(l.yoff);
      NearAxis(Across(l, x), Down(l, y), k);
    } else {
      x, y := l.x + NextTo(l.xoff), l.y + k;
      NearAxis(Down(l, y), Across(l, x), k);
    }
    SpotIsRound(l, x, y);
    DarkFrom(l.r, Distance(l, x, y));
  }

  /** The exact condition, for every light that can be on a level. */
  lemma BeamInsideIff(l: Lamp)
    requires LampOk(l) && Indoors(l)
    ensures BeamInside(l) <==>
      forall x, y :: OnMap(x, y) && !InSquare(l.x, l.y, l.r, x, y) ==> Spot(GameTables(), l, x, y) >= 15
  {
    hide GameTables, Spot, InSquare, OnMap;
    if BeamInside(l) {
      forall x, y | OnMap(x, y) && !InSquare(l.x, l.y, l.r, x, y) ensures Spot(GameTables(), l, x, y) >= 15 {
        BeamStaysInside(l, x, y);
      }
    } else {
      var x, y := BeamLeaks(l);
    }
  }

  function NearRow(off: int): int {
    Abs(8 * NextTo(off) - off)
  }

  /** Close to an axis the distance is that along the axis. */
  lemma NearAxis(u: int, v: int, k: nat)
    requires 0 < u && -4 <= v <= 4 && 15 * u < 116 * k
    requires u >= 8 || (k == 1 && (u < 7 || -4 < v < 4))
    ensures 15 * Root(Square(u) + Square(v)) < 116 * k && Root(Square(u) + Square(v)) <= Max(u, 7)
    ensures Root(Square(v) + Square(u)) == Root(Square(u) + Square(v))
  {
    SameSquare(v, Abs(v));
    SquareGrows(Abs(v), 4);
    SquareGrows(Abs(v), 3);
    if u >= 8 {
      assert (u + 1) * (u + 1) == u * u + 2 * u + 1;
      RootIs(Square(u) + Square(v), u);
    } else {
      SquareGrows(u, 7);
      SquareGrows(u, 6);
      RootAtMost(Square(u) + Square(v), 7);
    }
  }

  lemma RootIs(n: nat, k: nat)
    requires k * k <= n < (k + 1) * (k + 1)
    ensures Root(n) == k
  {
    RootAtLeast(n, k);
    RootAtMost(n, k);
  }

  lemma RootAtMost(n: nat, k: nat)
    requires n < (k + 1) * (k + 1)
    ensures Root(n) <= k
  {
    SquareGrows(k + 1, Root(n));
  }
}
