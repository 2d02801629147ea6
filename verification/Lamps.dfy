/** What a light does to the picture (`DoLighting`, `DoUnLight` in Source/lighting.cpp). */
module Lamps {
  import opened CInt

  const MAXDUN := 112  // MAXDUNX and MAXDUNY
  const MAXLIGHTS := 32

  /** Darkness, 0 being the brightest. */
  type shade = v: int | 0 <= v < 128

  /** Above every shade: no effect. */
  const NOTHING := 128

  /** The light tables: shade by radius and distance, and distance by offset, row and column. */
  datatype Tables = Tables(lightradius: seq<seq<shade>>, lightblock: seq<seq<seq<nat>>>)

  predicate TablesOk(t: Tables) {
    && |t.lightradius| == 16 && (forall r :: 0 <= r < 16 ==> |t.lightradius[r]| == 128)
    && |t.lightblock| == 64 && (forall m :: 0 <= m < 64 ==> |t.lightblock[m]| == 16)
    && forall m, y :: 0 <= m < 64 && 0 <= y < 16 ==> |t.lightblock[m][y]| == 16
  }

  /** A light on square (x, y), moved by eighths of a square. */
  datatype Lamp = Lamp(x: int, y: int, r: int, xoff: int, yoff: int)

  predicate LampOk(l: Lamp) {
    0 <= l.r < 16 && -8 <= l.xoff < 8 && -8 <= l.yoff < 8
  }

  predicate OnMap(x: int, y: int) {
    0 <= x < MAXDUN && 0 <= y < MAXDUN
  }

  function Wrap(v: int): int {
    if v < 0 then v + 8 else v
  }

  function Borrow(v: int): int {
    if v < 0 then 1 else 0
  }

  /** (a, b) after q quarter turns. */
  function Turned(q: int, a: int, b: int): (int, int) {
    if q == 0 then (a, b) else if q == 1 then (-b, a) else if q == 2 then (-a, -b) else (b, -a)
  }

  /** Row and column of a square in quarter q, given its distance from the light. */
  function RowCol(q: int, dx: int, dy: int): (int, int) {
    if q == 0 then (dy, dx) else if q == 1 then (dx, -dy) else if q == 2 then (-dy, -dx) else (-dx, dy)
  }

  predicate InQuarter(q: int, dx: int, dy: int) {
    RowCol(q, dx, dy).0 >= 0 && RowCol(q, dx, dy).1 >= 1
  }

  /** How far a quarter reaches towards the low and the high map edge. */
  function Near(c: int): int {
    if c - 15 < 0 then c + 1 else 15
  }

  function Far(c: int): int {
    if c + 15 > MAXDUN then MAXDUN - c else 15
  }

  /** The rows and columns of quarter q around (cx, cy). */
  function Reach(q: int, cx: int, cy: int): (int, int) {
    if q == 0 then (Near(cy), Far(cx))
    else if q == 1 then (Far(cy), Far(cx))
    else if q == 2 then (Far(cy), Near(cx))
    else (Near(cy), Near(cx))
  }

  /** The shade in this row and column of quarter q; (xo, yo) in 0..7 is the offset. */
  function Beam(t: Tables, r: int, q: int, xo: int, yo: int, row: int, col: int): (v: int)
    requires TablesOk(t) && 0 <= r < 16 && 0 <= q < 4 && 0 <= xo < 8 && 0 <= yo < 8
    requires 0 <= row < 15 && 0 <= col < 15
    ensures 0 <= v <= NOTHING
  {
    var o := Turned(q, xo, yo);
    var block := t.lightblock[Wrap(o.0) + 8 * Wrap(o.1)][row + Borrow(o.1)][col + Borrow(o.0)];
    if block < 128 then t.lightradius[r][block] else NOTHING
  }

  /** What quarter q of a light centred on (cx, cy) does on square (x, y). */
  function QuarterSpot(t: Tables, q: int, cx: int, cy: int, r: int, xo: int, yo: int, x: int, y: int): (v: int)
    requires TablesOk(t) && 0 <= r < 16 && 0 <= q < 4 && 0 <= xo < 8 && 0 <= yo < 8
    ensures 0 <= v <= NOTHING
  {
    var p, n := RowCol(q, x - cx, y - cy), Reach(q, cx, cy);
    if 0 <= p.0 < n.0 && 1 <= p.1 < n.1 then Beam(t, r, q, xo, yo, p.0, p.1) else NOTHING
  }

  /** The quarter that a square off the centre belongs to. */
  function QuarterOf(dx: int, dy: int): (q: int)
    requires (dx, dy) != (0, 0)
    ensures 0 <= q < 4
    ensures forall k :: 0 <= k < 4 ==> (InQuarter(k, dx, dy) <==> k == q)
  {
    if dx >= 1 && dy >= 0 then 0 else if dx >= 0 && dy <= -1 then 1 else if dx <= -1 && dy <= 0 then 2 else 3
  }

  /** What a light does on a square of the map. */
  function Spot(t: Tables, l: Lamp, x: int, y: int): (v: int)
    requires TablesOk(t) && LampOk(l)
    ensures 0 <= v <= NOTHING
  {
    var cx, cy := l.x - Borrow(l.xoff), l.y - Borrow(l.yoff);
    if (x, y) == (cx, cy) then 0
    else QuarterSpot(t, QuarterOf(x - cx, y - cy), cx, cy, l.r, Wrap(l.xoff), Wrap(l.yoff), x, y)
  }

  predicate InSquare(x0: int, y0: int, r: int, x: int, y: int) {
    x0 - (r + 1) <= x < x0 + (r + 1) && y0 - (r + 1) <= y < y0 + (r + 1)
  }

  // ------------------------------------------------------ several lights

  /** A square of shade b under the lights ls. */
  function RelitAt(t: Tables, b: int, ls: seq<Lamp>, x: int, y: int): int
    requires TablesOk(t) && forall l :: l in ls ==> LampOk(l)
  {
    if ls == [] then b else Min(RelitAt(t, b, ls[..|ls| - 1], x, y), Spot(t, ls[|ls| - 1], x, y))
  }

  /** It is the darkness before or that of some light, and none of these is brighter. */
  lemma {:induction false} RelitIsBrightest(t: Tables, b: int, ls: seq<Lamp>, x: int, y: int)
    requires TablesOk(t) && forall l :: l in ls ==> LampOk(l)
    ensures RelitAt(t, b, ls, x, y) <= b
    ensures forall l :: l in ls ==> RelitAt(t, b, ls, x, y) <= Spot(t, l, x, y)
    ensures RelitAt(t, b, ls, x, y) == b || exists l :: l in ls && RelitAt(t, b, ls, x, y) == Spot(t, l, x, y)
  {
    if ls != [] {
      RelitIsBrightest(t, b, ls[..|ls| - 1], x, y);
      assert ls == ls[..|ls| - 1] + [ls[|ls| - 1]];
    }
  }

  /** Neither the order of the lights nor repeating one changes the picture. */
  lemma RelitInAnyOrder(t: Tables, b: int, ls: seq<Lamp>, ks: seq<Lamp>, x: int, y: int)
    requires TablesOk(t) && (forall l :: l in ls ==> LampOk(l)) && forall l :: l in ls <==> l in ks
    ensures RelitAt(t, b, ls, x, y) == RelitAt(t, b, ks, x, y)
  {
    RelitIsBrightest(t, b, ls, x, y);
    RelitIsBrightest(t, b, ks, x, y);
  }

  // ------------------------------------------------------ drawing one light

  /** Another quarter turn: of the difference between (dx, dy) and (lx, ly). */
  method RotateRadius(dx: int, dy: int, lx: int, ly: int)
    returns (x': int, y': int, dx': int, dy': int, lx': int, ly': int, bx': int, by': int)
    ensures (dx' - lx', dy' - ly') == Turned(1, dx - lx, dy - ly)
    ensures x' == Wrap(dx' - lx') && y' == Wrap(dy' - ly') && bx' == Borrow(dx' - lx') && by' == Borrow(dy' - ly')
  {
    bx', by' := 0, 0;
    dx', dy' := 7 - dy, dx;
    lx', ly' := 7 - ly, lx;
    x', y' := dx' - lx', dy' - ly';
    if x' < 0 {
      x', bx' := x' + 8, 1;
    }
    if y' < 0 {
      y', by' := y' + 8, 1;
    }
  }

  /** One of the four loop nests of `DoLighting`. */
  method LightQuarter(dLight: array2<shade>, t: Tables, q: int, cx: int, cy: int, r: int, mult: int, blockX: int,
                      blockY: int,
                      rows: int, cols: int, ghost xo: int, ghost yo: int)
    requires TablesOk(t) && 0 <= r < 16 && 0 <= q < 4 && 0 <= xo < 8 && 0 <= yo < 8
    requires dLight.Length0 == MAXDUN && dLight.Length1 == MAXDUN
    requires var o := Turned(q, xo, yo);
      mult == Wrap(o.0) + 8 * Wrap(o.1) && blockX == Borrow(o.0) && blockY == Borrow(o.1)
    requires (rows, cols) == Reach(q, cx, cy)
    modifies dLight
    ensures forall i, j :: OnMap(i, j) ==>
      dLight[i, j] == Min(old(dLight[i, j]), QuarterSpot(t, q, cx, cy, r, xo, yo, i, j))
  {
    var y := 0;
    while y < rows
      invariant 0 <= y && (y <= rows || y == 0)
      invariant forall i, j :: OnMap(i, j) ==>
        dLight[i, j] == if RowCol(q, i - cx, j - cy).0 < y
          then Min(old(dLight[i, j]), QuarterSpot(t, q, cx, cy, r, xo, yo, i, j)) else old(dLight[i, j])
    {
      var x := 1;
      while x < cols
        invariant 1 <= x && (x <= cols || x == 1)
        invariant forall i, j :: OnMap(i, j) ==>
          dLight[i, j] == if Passed(RowCol(q, i - cx, j - cy), y, x)
            then Min(old(dLight[i, j]), QuarterSpot(t, q, cx, cy, r, xo, yo, i, j)) else old(dLight[i, j])
      {
        LightCell(dLight, t, q, cx, cy, r, mult, blockX, blockY, y, x, xo, yo);
        x := x + 1;
      }
      y := y + 1;
    }
  }

  predicate Passed(p: (int, int), y: int, x: int) {
    p.0 < y || (p.0 == y && p.1 < x)
  }

  method LightCell(dLight: array2<shade>, t: Tables, q: int, cx: int, cy: int, r: int, mult: int, blockX: int,
                   blockY: int,
                   y: int, x: int, ghost xo: int, ghost yo: int)
    requires TablesOk(t) && 0 <= r < 16 && 0 <= q < 4 && 0 <= xo < 8 && 0 <= yo < 8
    requires dLight.Length0 == MAXDUN && dLight.Length1 == MAXDUN
    requires var o := Turned(q, xo, yo);
      mult == Wrap(o.0) + 8 * Wrap(o.1) && blockX == Borrow(o.0) && blockY == Borrow(o.1)
    requires 0 <= y < Reach(q, cx, cy).0 && 1 <= x < Reach(q, cx, cy).1
    modifies dLight
    ensures forall i, j :: OnMap(i, j) ==>
      dLight[i, j] == if RowCol(q, i - cx, j - cy) == (y, x)
        then Min(old(dLight[i, j]), QuarterSpot(t, q, cx, cy, r, xo, yo, i, j)) else old(dLight[i, j])
  {
    CellIsLit(t, q, cx, cy, r, xo, yo, y, x);
    hide Reach, QuarterSpot;
    var radius_block := t.lightblock[mult][y + blockY][x + blockX];
    if radius_block < 128 {
      var temp_x := if q == 0 then cx + x else if q == 1 then cx + y else if q == 2 then cx - x else cx - y;
      var temp_y := if q == 0 then cy + y else if q == 1 then cy - x else if q == 2 then cy - y else cy + x;
      Brighten(dLight, temp_x, temp_y, t.lightradius[r][radius_block]);
    }
  }

  /** Squares off the map are left alone. */
  method Brighten(dLight: array2<shade>, temp_x: int, temp_y: int, v: shade)
    requires dLight.Length0 == MAXDUN && dLight.Length1 == MAXDUN
    modifies dLight
    ensures forall i, j :: OnMap(i, j) ==>
      dLight[i, j] == if i == temp_x && j == temp_y then Min(old(dLight[i, j]), v) else old(dLight[i, j])
  {
    if OnMap(temp_x, temp_y) {
      if v < dLight[temp_x, temp_y] {
        dLight[temp_x, temp_y] := v;
      }
    }
  }

  /** The square in this row and column of quarter q. */
  function CellAt(q: int, cx: int, cy: int, row: int, col: int): (int, int) {
    if q == 0 then (cx + col, cy + row) else if q == 1 then (cx + row, cy - col)
    else if q == 2 then (cx - col, cy - row) else (cx - row, cy + col)
  }

  lemma CellIsLit(t: Tables, q: int, cx: int, cy: int, r: int, xo: int, yo: int, row: int, col: int)
    requires TablesOk(t) && 0 <= r < 16 && 0 <= q < 4 && 0 <= xo < 8 && 0 <= yo < 8
    requires 0 <= row < Reach(q, cx, cy).0 && 1 <= col < Reach(q, cx, cy).1
    ensures row < 15 && col < 15
    ensures var (x, y) := CellAt(q, cx, cy, row, col);
            QuarterSpot(t, q, cx, cy, r, xo, yo, x, y) == Beam(t, r, q, xo, yo, row, col)
  {}

  /** What the four quarters together do. */
  function Around(t: Tables, cx: int, cy: int, r: int, xo: int, yo: int, x: int, y: int): int
    requires TablesOk(t) && 0 <= r < 16 && 0 <= xo < 8 && 0 <= yo < 8
  {
    Min(Min(QuarterSpot(t, 0, cx, cy, r, xo, yo, x, y), QuarterSpot(t, 1, cx, cy, r, xo, yo, x, y)),
        Min(QuarterSpot(t, 2, cx, cy, r, xo, yo, x, y), QuarterSpot(t, 3, cx, cy, r, xo, yo, x, y)))
  }

  /** Off the centre one quarter alone has an effect, and on the centre none. */
  lemma AroundIsSpot(t: Tables, l: Lamp, x: int, y: int)
    requires TablesOk(t) && LampOk(l)
    ensures var cx, cy := l.x - Borrow(l.xoff), l.y - Borrow(l.yoff);
            var a := Around(t, cx, cy, l.r, Wrap(l.xoff), Wrap(l.yoff), x, y);
            if (x, y) == (cx, cy) then a == NOTHING && Spot(t, l, x, y) == 0 else a == Spot(t, l, x, y)
  {
    hide Beam;
    var cx, cy := l.x - Borrow(l.xoff), l.y - Borrow(l.yoff);
    if (x, y) != (cx, cy) {
      var q := QuarterOf(x - cx, y - cy);
      forall k | 0 <= k < 4 && k != q
        ensures QuarterSpot(t, k, cx, cy, l.r, Wrap(l.xoff), Wrap(l.yoff), x, y) == NOTHING
      {
        assert !InQuarter(k, x - cx, y - cy);
      }
    }
  }

  /** `DoLighting`: every square gets the brighter of its shade and the light's. */
  method DoLighting(dLight: array2<shade>, t: Tables, l: Lamp)
    requires TablesOk(t) && LampOk(l) && dLight.Length0 == MAXDUN && dLight.Length1 == MAXDUN
    modifies dLight
    ensures forall i, j :: OnMap(i, j) ==> dLight[i, j] == Min(old(dLight[i, j]), Spot(t, l, i, j))
  {
    hide Around, Spot;
    var nXPos, nYPos, xoff, yoff := l.x, l.y, l.xoff, l.yoff;
    if xoff < 0 {
      xoff, nXPos := xoff + 8, nXPos - 1;
    }
    if yoff < 0 {
      yoff, nYPos := yoff + 8, nYPos - 1;
    }
    if OnMap(nXPos, nYPos) {
      dLight[nXPos, nYPos] := 0;
    }
    LightAround(dLight, t, nXPos, nYPos, l.r, xoff, yoff);
    forall i, j | OnMap(i, j)
      ensures dLight[i, j] == Min(old(dLight[i, j]), Spot(t, l, i, j))
    {
      AroundIsSpot(t, l, i, j);
    }
  }

  /** Its four loop nests. */
  method LightAround(dLight: array2<shade>, t: Tables, nXPos: int, nYPos: int, nRadius: int, xo: int, yo: int)
    requires TablesOk(t) && 0 <= nRadius < 16 && 0 <= xo < 8 && 0 <= yo < 8
    requires dLight.Length0 == MAXDUN && dLight.Length1 == MAXDUN
    modifies dLight
    ensures forall i, j :: OnMap(i, j) ==>
      dLight[i, j] == Min(old(dLight[i, j]), Around(t, nXPos, nYPos, nRadius, xo, yo, i, j))
  {
    hide QuarterSpot;
    var xoff, yoff, dist_x, dist_y, light_x, light_y, block_x, block_y := xo, yo, xo, yo, 0, 0, 0, 0;
    var min_x := if nXPos - 15 < 0 then nXPos + 1 else 15;
    var max_x := if nXPos + 15 > MAXDUN then MAXDUN - nXPos else 15;
    var min_y := if nYPos - 15 < 0 then nYPos + 1 else 15;
    var max_y := if nYPos + 15 > MAXDUN then MAXDUN - nYPos else 15;
    LightQuarter(dLight, t, 0, nXPos, nYPos, nRadius, xoff + 8 * yoff, 0, 0, min_y, max_x, xo, yo);
    xoff, yoff, dist_x, dist_y, light_x, light_y, block_x, block_y := RotateRadius(dist_x, dist_y, light_x, light_y);
    LightQuarter(dLight, t, 1, nXPos, nYPos, nRadius, xoff + 8 * yoff, block_x, block_y, max_y, max_x, xo, yo);
    xoff, yoff, dist_x, dist_y, light_x, light_y, block_x, block_y := RotateRadius(dist_x, dist_y, light_x, light_y);
    LightQuarter(dLight, t, 2, nXPos, nYPos, nRadius, xoff + 8 * yoff, block_x, block_y, max_y, min_x, xo, yo);
    xoff, yoff, dist_x, dist_y, light_x, light_y, block_x, block_y := RotateRadius(dist_x, dist_y, light_x, light_y);
    LightQuarter(dLight, t, 3, nXPos, nYPos, nRadius, xoff + 8 * yoff, block_x, block_y, min_y, min_x, xo, yo);
  }

  /** `DoUnLight` puts back the shades of the map without lights. */
  method DoUnLight(dLight: array2<shade>, dPreLight: array2<shade>, nXPos: int, nYPos: int, nRadius: int)
    requires dLight.Length0 == MAXDUN && dLight.Length1 == MAXDUN && dPreLight.Length0 == MAXDUN
      && dPreLight.Length1 == MAXDUN
    requires dLight != dPreLight
    modifies dLight
    ensures forall i, j :: OnMap(i, j) ==>
      dLight[i, j] == if InSquare(nXPos, nYPos, nRadius, i, j) then dPreLight[i, j] else old(dLight[i, j])
  {
    var r := nRadius + 1;
    var min_y, max_y, min_x, max_x := Max(nYPos - r, 0), Min(nYPos + r, MAXDUN), Max(nXPos - r, 0),
      Min(nXPos + r, MAXDUN);
    var y := min_y;
    while y < max_y
      invariant min_y <= y && (y <= max_y || y == min_y)
      invariant forall i, j :: OnMap(i, j) ==>
        dLight[i, j] == if min_x <= i < max_x && min_y <= j < y then dPreLight[i, j] else old(dLight[i, j])
    {
      var x := min_x;
      while x < max_x
        invariant min_x <= x && (x <= max_x || x == min_x)
        invariant forall i, j :: OnMap(i, j) ==>
          dLight[i, j] == if min_x <= i < max_x && min_y <= j && (j < y || (j == y && i < x)) then dPreLight[i, j]
            else old(dLight[i, j])
      {
        if OnMap(x, y) {
          dLight[x, y] := dPreLight[x, y];
        }
        x := x + 1;
      }
      y := y + 1;
    }
  }
}
