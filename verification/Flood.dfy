/** The region labels of the cathedral levels (`DRLG_L5FloodTVal` and `DRLG_L5FTVR`
    in Source/drlg_l1.cpp): an eight-way fill over 40x40 tiles that writes a
    112x112 map, where every tile owns a 2x2 block. The generators of levels
    2 and 4 carry the same code with another floor tile. */
module Flood {
  import opened Counting
  import opened Grid

  const MAXDUN := 112

  type Labels = map<Cell, int>

  /** The tiles whose eight neighbours are tiles too. */
  predicate Inside(c: Cell) {
    1 <= c.x < DMAXX - 1 && 1 <= c.y < DMAXY - 1
  }

  predicate InMap(m: Cell) {
    0 <= m.x < MAXDUN && 0 <= m.y < MAXDUN
  }

  ghost function Places(): (b: set<Cell>)
    ensures forall c :: c in b <==> InMap(c)
  {
    var b := set i, j | 0 <= i < MAXDUN && 0 <= j < MAXDUN :: Cell(i, j);
    assert forall c: Cell :: InMap(c) ==> c == Cell(c.x, c.y);
    b
  }

  // ------------------------------------------------------------- geometry

  /** The map place of a tile's top-left quarter. */
  function Corner(c: Cell): Cell {
    Cell(16 + 2 * c.x, 16 + 2 * c.y)
  }

  predicate InBlock(c: Cell, m: Cell) {
    Corner(c).x <= m.x <= Corner(c).x + 1 && Corner(c).y <= m.y <= Corner(c).y + 1
  }

  /** The tile's block and the ring of places around it. */
  predicate InHalo(c: Cell, m: Cell) {
    Corner(c).x - 1 <= m.x <= Corner(c).x + 2 && Corner(c).y - 1 <= m.y <= Corner(c).y + 2
  }

  ghost predicate Haloed(s: set<Cell>, m: Cell) {
    exists c :: c in s && InHalo(c, m)
  }

  ghost function Halo(s: set<Cell>): set<Cell> {
    set m | m in Places() && Haloed(s, m)
  }

  ghost function Block(c: Cell): set<Cell> {
    set m | m in Places() && InBlock(c, m)
  }

  /** The neighbour that direction d looks at (0 is the tile itself). */
  function Step(c: Cell, d: int): Cell {
    if d == 1 then Cell(c.x + 1, c.y)
    else if d == 2 then Cell(c.x - 1, c.y)
    else if d == 3 then Cell(c.x, c.y + 1)
    else if d == 4 then Cell(c.x, c.y - 1)
    else if d == 5 then Cell(c.x - 1, c.y - 1)
    else if d == 6 then Cell(c.x + 1, c.y - 1)
    else if d == 7 then Cell(c.x - 1, c.y + 1)
    else if d == 8 then Cell(c.x + 1, c.y + 1)
    else c
  }

  /** The quarters of tile c that face the tile a fill came from in direction d. */
  ghost function Facing(c: Cell, d: int): set<Cell> {
    var x, y := Corner(c).x, Corner(c).y;
    if d == 1 then {Cell(x, y), Cell(x, y + 1)}
    else if d == 2 then {Cell(x + 1, y), Cell(x + 1, y + 1)}
    else if d == 3 then {Cell(x, y), Cell(x + 1, y)}
    else if d == 4 then {Cell(x, y + 1), Cell(x + 1, y + 1)}
    else if d == 5 then {Cell(x + 1, y + 1)}
    else if d == 6 then {Cell(x, y + 1)}
    else if d == 7 then {Cell(x + 1, y)}
    else if d == 8 then {Cell(x, y)}
    else {}
  }

  /** The direction that writes place m of the ring around c (0 inside the block). */
  function Direction(c: Cell, m: Cell): int {
    var u, w := m.x - Corner(c).x, m.y - Corner(c).y;
    if 0 <= w <= 1 then (if u == 2 then 1 else if u == -1 then 2 else 0)
    else if 0 <= u <= 1 then (if w == 2 then 3 else 4)
    else if w == -1 then (if u == -1 then 5 else 6)
    else if u == -1 then 7 else 8
  }

  /** What the first k directions around c write on the neighbours. */
  ghost function Ring(c: Cell, k: nat): set<Cell> {
    set m | m in Places() && InHalo(c, m) && 1 <= Direction(c, m) <= k
  }

  lemma RingGrows(c: Cell, k: nat)
    requires Inside(c) && 1 <= k <= 8
    ensures Ring(c, k) == Ring(c, k - 1) + Facing(Step(c, k), k)
  {
    forall m ensures m in Facing(Step(c, k), k) <==> InHalo(c, m) && Direction(c, m) == k {}
  }

  ghost function Ahead(c: Cell, k: nat): set<Cell> {
    set d | k < d <= 8 :: Step(c, d)
  }

  lemma RingIsHalo(c: Cell)
    ensures Block(c) + Ring(c, 8) == Halo({c})
  {
    forall m | m in Places() ensures m in Halo({c}) <==> m in Block(c) + Ring(c, 8) {
      assert Haloed({c}, m) <==> InHalo(c, m);
    }
  }

  lemma HaloUnion(s: set<Cell>, t: set<Cell>)
    ensures Halo(s + t) == Halo(s) + Halo(t)
  {
    forall m | m in Places() ensures Haloed(s + t, m) <==> Haloed(s, m) || Haloed(t, m) {
      if Haloed(s, m) { var c :| c in s && InHalo(c, m); assert c in s + t; }
      if Haloed(t, m) { var c :| c in t && InHalo(c, m); assert c in s + t; }
    }
  }

  // ------------------------------------------------------------- labels

  ghost function Painted(t: Labels, p: set<Cell>, v: int): Labels {
    map m | m in t :: if m in p then v else t[m]
  }

  ghost function Label(t: Labels, c: Cell): int
    requires t.Keys == Places() && InGrid(c)
  {
    t[Corner(c)]
  }

  ghost function Unlabelled(t: Labels, floor: set<Cell>): set<Cell>
    requires t.Keys == Places() && floor <= Board()
  {
    set c | c in floor && Label(t, c) == 0
  }

  /** The four quarters of every floor tile agree. */
  ghost predicate Uniform(t: Labels, floor: set<Cell>)
    requires t.Keys == Places() && floor <= Board()
  {
    forall c, m :: c in floor && InBlock(c, m) ==> t[m] == Label(t, c)
  }

  /** Neighbouring floor tiles are both in the region now being labelled v
      (with v or still without a label) or both in older ones. */
  ghost predicate Apart(t: Labels, floor: set<Cell>, v: int)
    requires t.Keys == Places() && floor <= Board()
  {
    forall a, b :: a in floor && b in floor && Adjacent(true, a, b) ==>
      ((Label(t, a) == 0 || Label(t, a) == v) <==> (Label(t, b) == 0 || Label(t, b) == v))
  }

  ghost predicate Consistent(t: Labels, floor: set<Cell>, v: int) {
    && t.Keys == Places() && floor <= Board() && (forall c :: c in floor ==> Inside(c))
    && v != 0 && Uniform(t, floor) && Apart(t, floor, v)
  }

  // ------------------------------------------------------------- one fill

  /** What a call for tile c, coming from direction d, makes of the labels: the
      component of c (if c was still unlabelled) is labelled and so is everything
      around it; of a tile that stops the fill only the near quarters are. */
  ghost predicate Flooded(t: Labels, t': Labels, floor: set<Cell>, v: int, c: Cell, d: int) {
    && Consistent(t, floor, v) && Consistent(t', floor, v)
    && Drained(true, Unlabelled(t, floor), Unlabelled(t', floor), c)
    && t' == Painted(t, Halo(Unlabelled(t, floor) - Unlabelled(t', floor)) + Facing(c, d), v)
  }

  /** The state inside a call for c after its first k recursive calls. */
  ghost predicate Spreading(t0: Labels, t: Labels, floor: set<Cell>, v: int, c: Cell, k: nat) {
    && Consistent(t0, floor, v) && Consistent(t, floor, v)
    && c in floor && Label(t, c) == v
    && Draining(true, Unlabelled(t0, floor), Unlabelled(t, floor), c, Ahead(c, k))
    && t == Painted(t0, Halo(Unlabelled(t0, floor) - Unlabelled(t, floor) - {c}) + Block(c) + Ring(c, k), v)
  }

  lemma StopsHere(t: Labels, floor: set<Cell>, v: int, c: Cell, d: int)
    requires Consistent(t, floor, v) && InGrid(c) && c !in Unlabelled(t, floor)
    requires c in floor && 1 <= d <= 8 ==> Label(t, c) == v
    ensures Flooded(t, Painted(t, Facing(c, d), v), floor, v, c, d)
  {
    var t' := Painted(t, Facing(c, d), v);
    forall m | m in Facing(c, d) ensures InBlock(c, m) && 1 <= d <= 8 {}
    forall b, m | b in floor && InBlock(b, m) ensures t'[m] == t[m] {
      if m in Facing(c, d) { assert b == c; }
    }
    forall b | b in floor ensures Label(t', b) == Label(t, b) {
      assert InBlock(b, Corner(b));
    }
    assert Unlabelled(t', floor) == Unlabelled(t, floor);
    assert Halo({}) == {};
    assert Unlabelled(t, floor) - Unlabelled(t', floor) == {};
    assert Halo({}) + Facing(c, d) == Facing(c, d);
  }

  lemma SpreadStart(t: Labels, floor: set<Cell>, v: int, c: Cell)
    requires Consistent(t, floor, v) && c in Unlabelled(t, floor)
    ensures Spreading(t, Painted(t, Block(c), v), floor, v, c, 0)
    ensures Painted(t, Block(c), v).Keys == Places()
      && Unlabelled(Painted(t, Block(c), v), floor) < Unlabelled(t, floor)
  {
    var t' := Painted(t, Block(c), v);
    forall b, m | b in floor && InBlock(b, m) ensures t'[m] == if b == c then v else t[m] {}
    forall b | b in floor ensures Label(t', b) == if b == c then v else Label(t, b) {
      assert InBlock(b, Corner(b));
    }
    var s := Unlabelled(t, floor);
    assert Unlabelled(t', floor) == s - {c};
    forall b | Adjacent(true, c, b) ensures b in Ahead(c, 0) { AheadIsAround(c, b); }
    DrainStart(true, s, c, Ahead(c, 0));
    assert s - (s - {c}) - {c} == {};
    assert Halo({}) == {};
    assert Halo({}) + Block(c) + Ring(c, 0) == Block(c);
  }

  lemma AheadIsAround(c: Cell, b: Cell)
    requires Adjacent(true, c, b)
    ensures b in Ahead(c, 0)
  {
    var dx, dy := b.x - c.x, b.y - c.y;
    var d := if dy == 0 then (if dx == 1 then 1 else 2) else if dx == 0 then (if dy == 1 then 3 else 4)
             else if dy == -1 then (if dx == -1 then 5 else 6) else if dx == -1 then 7 else 8;
    assert b == Step(c, d);
  }

  lemma SpreadNext(t0: Labels, t: Labels, t': Labels, floor: set<Cell>, v: int, c: Cell, k: nat)
    requires 1 <= k <= 8 && Spreading(t0, t, floor, v, c, k - 1)
    requires Flooded(t, t', floor, v, Step(c, k), k)
    ensures Spreading(t0, t', floor, v, c, k)
    ensures Unlabelled(t', floor) < Unlabelled(t0, floor)
  {
    var s, left, next := Unlabelled(t0, floor), Unlabelled(t, floor), Unlabelled(t', floor);
    var h1, h2 := Halo(s - left - {c}), Halo(left - next);
    assert Draining(true, s, next, c, Ahead(c, k)) by { SpreadDrains(s, left, next, c, k); }
    assert t' == Painted(t0, Halo(s - next - {c}) + Block(c) + Ring(c, k), v) by {
      RingGrows(c, k);
      hide Draining, Consistent;
      SpreadHalo(s, left, next, c);
      PaintTwice(t0, t, t', h1 + Block(c) + Ring(c, k - 1), h2 + Facing(Step(c, k), k), v);
      assert h1 + Block(c) + Ring(c, k - 1) + (h2 + Facing(Step(c, k), k)) == (h1 + h2) + Block(c) + Ring(c, k);
    }
    assert Corner(c) in Places() && Label(t', c) == v;
  }

  /** A recursive call meets the demands of FTVR. */
  lemma SpreadCalls(t0: Labels, t: Labels, floor: set<Cell>, v: int, c: Cell, d: int)
    requires 1 <= d <= 8 && Spreading(t0, t, floor, v, c, d - 1)
    ensures Consistent(t0, floor, v) && Consistent(t, floor, v) && InGrid(Step(c, d))
    ensures Step(c, d) in floor && Label(t, Step(c, d)) != 0 ==> Label(t, Step(c, d)) == v
  {
    hide Draining, Halo, Block, Ring, Painted, Uniform;
    NeighbourLabel(t, floor, v, c, Step(c, d));
  }

  lemma NeighbourLabel(t: Labels, floor: set<Cell>, v: int, c: Cell, n: Cell)
    requires t.Keys == Places() && floor <= Board() && Apart(t, floor, v)
    requires c in floor && Label(t, c) == v && Adjacent(true, c, n)
    ensures n in floor && Label(t, n) != 0 ==> Label(t, n) == v
  {}

  lemma SpreadDrains(s: set<Cell>, left: set<Cell>, next: set<Cell>, c: Cell, k: nat)
    requires 1 <= k <= 8 && Draining(true, s, left, c, Ahead(c, k - 1))
    requires Drained(true, left, next, Step(c, k))
    ensures Draining(true, s, next, c, Ahead(c, k))
    ensures next <= left <= s
  {
    DrainStep(true, s, left, next, c, Step(c, k), Ahead(c, k - 1));
    assert Ahead(c, k - 1) - {Step(c, k)} <= Ahead(c, k);
  }

  lemma SpreadHalo(s: set<Cell>, left: set<Cell>, next: set<Cell>, c: Cell)
    requires next <= left <= s && c !in left
    ensures Halo(s - next - {c}) == Halo(s - left - {c}) + Halo(left - next)
  {
    HaloUnion(s - left - {c}, left - next);
    assert s - next - {c} == (s - left - {c}) + (left - next);
  }

  lemma PaintTwice(t0: Labels, t1: Labels, t2: Labels, p: set<Cell>, q: set<Cell>, v: int)
    requires t1 == Painted(t0, p, v) && t2 == Painted(t1, q, v)
    ensures t2 == Painted(t0, p + q, v)
  {}

  lemma SpreadEnd(t0: Labels, t: Labels, floor: set<Cell>, v: int, c: Cell, d: int)
    requires Spreading(t0, t, floor, v, c, 8)
    ensures Flooded(t0, t, floor, v, c, d)
  {
    var s, left := Unlabelled(t0, floor), Unlabelled(t, floor);
    assert Ahead(c, 8) == {};
    DrainEnd(true, s, left, c, Ahead(c, 8));
    SpreadPaint(s, left, c, d);
  }

  lemma SpreadPaint(s: set<Cell>, left: set<Cell>, c: Cell, d: int)
    requires InGrid(c) && c in s && c !in left
    ensures Halo(s - left - {c}) + Block(c) + Ring(c, 8) == Halo(s - left) + Facing(c, d)
  {
    RingIsHalo(c);
    FacingIsInBlock(c, d);
    HaloUnion(s - left - {c}, {c});
    assert s - left == (s - left - {c}) + {c};
    Absorbed(Halo(s - left - {c}), Block(c), Ring(c, 8), Facing(c, d));
  }

  lemma FacingIsInBlock(c: Cell, d: int)
    requires InGrid(c)
    ensures Facing(c, d) <= Block(c)
  {}

  lemma Absorbed(h: set<Cell>, b: set<Cell>, r: set<Cell>, f: set<Cell>)
    requires f <= b
    ensures h + b + r == h + (b + r) + f
  {}

  // ------------------------------------------------------------- the whole pass

  /** A signed char counts 1, 2, .., 127, -128, .., -1 and then 0. */
  function LabelOf(k: nat): int {
    (k + 1 + 128) % 256 - 128
  }

  function Increment(v: int): int {
    if v == 127 then -128 else v + 1
  }

  /** The labels of the first n regions are usable (distinct and not zero) iff n <= 255. */
  lemma LabelsLast(n: nat)
    ensures ((forall i :: 0 <= i < n ==> LabelOf(i) != 0)
             && (forall i, j :: 0 <= i < j < n ==> LabelOf(i) != LabelOf(j)))
            <==> n <= 255
  {
    if n > 255 { assert LabelOf(255) == 0; }
  }

  /** The first 127 regions are numbered from 1, the others from -128 up to -1. */
  lemma LabelValues(k: nat)
    ensures k < 127 ==> LabelOf(k) == k + 1
    ensures 127 <= k < 255 ==> LabelOf(k) == k - 255
  {}

  /** One component per region. */
  ghost function Regions(floor: set<Cell>): set<set<Cell>> {
    set c | c in floor :: Component(true, floor, c)
  }

  ghost predicate SeedsApart(floor: set<Cell>, seeds: seq<Cell>) {
    && (forall k :: 0 <= k < |seeds| ==> seeds[k] in floor)
    && (forall i, j :: 0 <= i < j < |seeds| ==> !Connected(true, floor, seeds[i], seeds[j]))
  }

  /** The k-th flooded region carries the k-th label, and nothing else is labelled. */
  ghost predicate RegionsLabelled(t: Labels, floor: set<Cell>, seeds: seq<Cell>)
    requires t.Keys == Places() && floor <= Board()
  {
    && (forall c, k :: 0 <= k < |seeds| && c in floor && Connected(true, floor, seeds[k], c) ==>
        Label(t, c) == LabelOf(k))
    && (forall c :: c in floor && Label(t, c) != 0 ==>
        exists k :: 0 <= k < |seeds| && Connected(true, floor, seeds[k], c))
  }

  /** A place is labelled iff it lies in the halo of a labelled floor tile, and
      then with the label of such a tile. */
  ghost predicate HaloLabelled(t: Labels, floor: set<Cell>)
    requires t.Keys == Places() && floor <= Board()
  {
    && (forall m :: InMap(m) && t[m] != 0 ==>
          exists c :: c in floor && InHalo(c, m) && Label(t, c) == t[m])
    && (forall m, c :: InMap(m) && c in floor && InHalo(c, m) && Label(t, c) != 0 ==> t[m] != 0)
  }

  ghost predicate Passed(t: Labels, floor: set<Cell>, seeds: seq<Cell>) {
    && t.Keys == Places() && floor <= Board() && (forall c :: c in floor ==> Inside(c))
    && Uniform(t, floor) && SeedsApart(floor, seeds)
    && RegionsLabelled(t, floor, seeds) && HaloLabelled(t, floor)
  }

  /** The components of the seeds, in the order they were flooded. */
  ghost function Flooding(floor: set<Cell>, seeds: seq<Cell>): (rs: seq<set<Cell>>)
    ensures |rs| == |seeds|
    ensures forall k :: 0 <= k < |rs| ==> rs[k] == Component(true, floor, seeds[k])
  {
    seq(|seeds|, k requires 0 <= k < |seeds| => Component(true, floor, seeds[k]))
  }

  lemma SeedsAreRegions(floor: set<Cell>, seeds: seq<Cell>)
    requires SeedsApart(floor, seeds)
    ensures |seeds| <= |Regions(floor)|
    ensures (forall r :: r in Regions(floor) ==> r in Flooding(floor, seeds)) ==> |seeds| == |Regions(floor)|
  {
    hide Component, Connected;
    var rs := Flooding(floor, seeds);
    forall i, j | 0 <= i < j < |rs| ensures rs[i] != rs[j] {
      SameComponent(true, floor, seeds[i], seeds[j]);
    }
    DistinctCount(rs, Regions(floor));
  }

  /** An unlabelled tile starts a new region, so its label is still fresh. */
  lemma NewRegion(t: Labels, floor: set<Cell>, seeds: seq<Cell>, c: Cell)
    requires Passed(t, floor, seeds) && c in Unlabelled(t, floor) && |Regions(floor)| <= 255
    ensures SeedsApart(floor, seeds + [c]) && |seeds| < 255
    ensures Consistent(t, floor, LabelOf(|seeds|))
  {
    LabelsLast(255);
    SeedsAreRegions(floor, seeds);
    hide Connected, Uniform, HaloLabelled, LabelOf, Regions;
    forall k | 0 <= k < |seeds| ensures !Connected(true, floor, seeds[k], c) {
      assert k < 255 && LabelOf(k) != 0;
    }
    SeedsAreRegions(floor, seeds + [c]);
    ApartFromOld(t, floor, seeds);
  }

  lemma ApartFromOld(t: Labels, floor: set<Cell>, seeds: seq<Cell>)
    requires t.Keys == Places() && floor <= Board() && |seeds| < 255
    requires RegionsLabelled(t, floor, seeds)
    ensures Apart(t, floor, LabelOf(|seeds|))
  {
    forall a, b | a in floor && b in floor && Adjacent(true, a, b)
      ensures Label(t, a) != LabelOf(|seeds|) && (Label(t, a) == 0 ==> Label(t, b) == 0)
    {
      OldOrNone(t, floor, seeds, a, b);
    }
  }

  lemma OldOrNone(t: Labels, floor: set<Cell>, seeds: seq<Cell>, a: Cell, b: Cell)
    requires t.Keys == Places() && floor <= Board() && |seeds| < 255
    requires RegionsLabelled(t, floor, seeds) && a in floor && b in floor && Adjacent(true, a, b)
    ensures Label(t, a) != LabelOf(|seeds|) && (Label(t, a) == 0 ==> Label(t, b) == 0)
  {
    LabelIsOfSeed(t, floor, seeds, a);
    if Label(t, b) != 0 { SpreadsToNeighbour(t, floor, seeds, b, a); }
  }

  lemma LabelIsOfSeed(t: Labels, floor: set<Cell>, seeds: seq<Cell>, a: Cell)
    requires t.Keys == Places() && floor <= Board() && |seeds| < 255
    requires RegionsLabelled(t, floor, seeds) && a in floor
    ensures Label(t, a) != LabelOf(|seeds|)
  {
    LabelsLast(255);
    hide Connected, LabelOf;
    if Label(t, a) != 0 {
      var k :| 0 <= k < |seeds| && Connected(true, floor, seeds[k], a);
      assert Label(t, a) == LabelOf(k);
    }
  }

  lemma SpreadsToNeighbour(t: Labels, floor: set<Cell>, seeds: seq<Cell>, b: Cell, a: Cell)
    requires t.Keys == Places() && floor <= Board() && |seeds| <= 255
    requires RegionsLabelled(t, floor, seeds) && a in floor && b in floor && Adjacent(true, b, a)
    requires Label(t, b) != 0
    ensures Label(t, a) == Label(t, b)
  {
    hide Connected;
    var k :| 0 <= k < |seeds| && Connected(true, floor, seeds[k], b);
    ConnectedStep(true, floor, seeds[k], b, a);
  }

  /** A fill from an unlabelled tile takes exactly its region. */
  lemma FillTakesRegion(t: Labels, t': Labels, floor: set<Cell>, seeds: seq<Cell>, v: int, c: Cell)
    requires t.Keys == Places() && floor <= Board() && |seeds| <= 255 && RegionsLabelled(t, floor, seeds)
    requires c in Unlabelled(t, floor) && Flooded(t, t', floor, v, c, 0)
    ensures Component(true, floor, c) <= Unlabelled(t, floor)
    ensures t' == Painted(t, Halo(Component(true, floor, c)), v) && Consistent(t', floor, v)
  {
    hide RegionsLabelled, Connected, Component, Closed, Drained, Halo, Uniform, Apart;
    var open, left, r := Unlabelled(t, floor), Unlabelled(t', floor), Component(true, floor, c);
    OpenIsClosed(t, floor, seeds);
    DrainedRegion(floor, open, left, c);
    assert Halo(r) + Facing(c, 0) == Halo(r);
  }

  lemma DrainedRegion(floor: set<Cell>, open: set<Cell>, left: set<Cell>, c: Cell)
    requires open <= floor && c in open && Closed(true, floor, open) && Drained(true, open, left, c)
    ensures Component(true, floor, c) <= open && open - left == Component(true, floor, c)
  {
    ComponentInClosed(true, floor, open, c);
    DrainedIsComponent(true, open, left, c);
  }

  lemma OpenIsClosed(t: Labels, floor: set<Cell>, seeds: seq<Cell>)
    requires t.Keys == Places() && floor <= Board() && |seeds| <= 255 && RegionsLabelled(t, floor, seeds)
    ensures Closed(true, floor, Unlabelled(t, floor))
  {
    hide RegionsLabelled;
    var open := Unlabelled(t, floor);
    forall a, b | a in open && b in floor && Adjacent(true, a, b) ensures b in open {
      if b !in open { SpreadsToNeighbour(t, floor, seeds, b, a); }
    }
  }

  /** The halo of a region touches no floor tile outside it. */
  lemma HaloMissesOthers(floor: set<Cell>, c: Cell, b: Cell)
    requires floor <= Board() && c in floor && b in floor
    ensures Corner(b) in Halo(Component(true, floor, c)) <==> b in Component(true, floor, c)
  {
    var r := Component(true, floor, c);
    assert InMap(Corner(b)) && InHalo(b, Corner(b));
    if Haloed(r, Corner(b)) {
      var a :| a in r && InHalo(a, Corner(b));
      if a != b {
        assert Adjacent(true, a, b);
        ConnectedStep(true, floor, c, a, b);
      }
    }
  }

  lemma RegionDone(t: Labels, t': Labels, floor: set<Cell>, seeds: seq<Cell>, c: Cell)
    requires Passed(t, floor, seeds) && c in Unlabelled(t, floor) && |Regions(floor)| <= 255
    requires Flooded(t, t', floor, LabelOf(|seeds|), c, 0)
    ensures Passed(t', floor, seeds + [c])
    ensures Component(true, floor, c) <= Unlabelled(t, floor)
    ensures t' == Painted(t, Halo(Component(true, floor, c)), LabelOf(|seeds|))
    ensures forall b :: b in floor && (Label(t, b) != 0 || b == c) ==> Label(t', b) != 0
  {
    hide Flooded, Connected, LabelOf, SeedsApart, RegionsLabelled, HaloLabelled, Apart, Uniform, Painted, Halo, Regions;
    var v, r := LabelOf(|seeds|), Component(true, floor, c);
    NewRegion(t, floor, seeds, c);
    FillTakesRegion(t, t', floor, seeds, v, c);
    ConnectedSelf(true, floor, c);
    Relabelled(t, t', floor, v, c);
    RelabelledRegions(t, t', floor, seeds, c);
    RelabelledHalo(t, t', floor, r, v);
  }

  lemma Relabelled(t: Labels, t': Labels, floor: set<Cell>, v: int, c: Cell)
    requires t.Keys == t'.Keys == Places() && floor <= Board() && c in floor
    requires t' == Painted(t, Halo(Component(true, floor, c)), v)
    ensures forall b :: b in floor ==> Label(t', b) == if b in Component(true, floor, c) then v else Label(t, b)
  {
    forall b | b in floor ensures Label(t', b) == if b in Component(true, floor, c) then v else Label(t, b) {
      HaloMissesOthers(floor, c, b);
    }
  }

  lemma RelabelledRegions(t: Labels, t': Labels, floor: set<Cell>, seeds: seq<Cell>, c: Cell)
    requires t.Keys == t'.Keys == Places() && floor <= Board() && RegionsLabelled(t, floor, seeds) && c in floor
    requires SeedsApart(floor, seeds + [c])
    requires forall b :: b in floor ==>
      Label(t', b) == if b in Component(true, floor, c) then LabelOf(|seeds|) else Label(t, b)
    ensures RegionsLabelled(t', floor, seeds + [c])
  {
    hide Connected, LabelOf;
    var more := seeds + [c];
    forall b, k | 0 <= k < |more| && b in floor && Connected(true, floor, more[k], b)
      ensures Label(t', b) == LabelOf(k)
    {
      if k < |seeds| && b in Component(true, floor, c) {
        assert more[k] == seeds[k] && !Connected(true, floor, more[k], more[|seeds|]);
        ConnectedSym(true, floor, c, b);
        ConnectedTrans(true, floor, more[k], b, c);
      }
    }
    forall b | b in floor && Label(t', b) != 0
      ensures exists k :: 0 <= k < |more| && Connected(true, floor, more[k], b) {
      if b in Component(true, floor, c) {
        assert Connected(true, floor, more[|seeds|], b);
      } else {
        var k :| 0 <= k < |seeds| && Connected(true, floor, seeds[k], b);
        assert Connected(true, floor, more[k], b);
      }
    }
  }

  lemma RelabelledHalo(t: Labels, t': Labels, floor: set<Cell>, r: set<Cell>, v: int)
    requires t.Keys == t'.Keys == Places() && r <= floor <= Board() && v != 0 && HaloLabelled(t, floor)
    requires t' == Painted(t, Halo(r), v)
    requires forall b :: b in floor ==> Label(t', b) == if b in r then v else Label(t, b)
    ensures HaloLabelled(t', floor)
  {
    forall m | InMap(m) && t'[m] != 0 ensures exists c :: c in floor && InHalo(c, m) && Label(t', c) == t'[m] {
      if Haloed(r, m) {
        var c :| c in r && InHalo(c, m);
        assert c in floor;
      } else {
        var c :| c in floor && InHalo(c, m) && Label(t, c) == t[m];
        assert c !in r;
      }
    }
    forall m, c | InMap(m) && c in floor && InHalo(c, m) && Label(t', c) != 0 ensures t'[m] != 0 {
      if c in r { assert Haloed(r, m); }
    }
  }

  // ------------------------------------------------------------- the exact picture

  /** Row by row, and each row from the left. */
  predicate Scanned(a: Cell, b: Cell) {
    a.y < b.y || (a.y == b.y && a.x < b.x)
  }

  /** No tile of its region is met before the seed. */
  ghost predicate IsFirst(floor: set<Cell>, c: Cell) {
    c in floor && forall b :: b in floor && Connected(true, floor, c, b) ==> !Scanned(b, c)
  }

  /** The first tiles of the regions, in the order they are met before tile c. */
  ghost predicate InScanOrder(floor: set<Cell>, seeds: seq<Cell>, c: Cell) {
    && (forall k :: 0 <= k < |seeds| ==> IsFirst(floor, seeds[k]) && Scanned(seeds[k], c))
    && (forall i, j :: 0 <= i < j < |seeds| ==> Scanned(seeds[i], seeds[j]))
  }

  /** An empty map on which the halos of the regions are painted one after the other, each
      with its label: where two halos meet, the later region has the place. */
  ghost function Picture(floor: set<Cell>, seeds: seq<Cell>): (t: Labels)
    ensures t.Keys == Places()
  {
    if seeds == [] then map m | m in Places() :: 0
    else
      var n := |seeds| - 1;
      Painted(Picture(floor, seeds[..n]), Halo(Component(true, floor, seeds[n])), LabelOf(n))
  }

  lemma PictureNext(floor: set<Cell>, seeds: seq<Cell>, c: Cell)
    ensures Picture(floor, seeds + [c])
         == Painted(Picture(floor, seeds), Halo(Component(true, floor, c)), LabelOf(|seeds|))
  {
    hide Painted, Halo, Component, LabelOf;
    assert (seeds + [c])[..|seeds|] == seeds;
  }

  /** The place m belongs to the last region whose halo it lies in, and to none otherwise. */
  lemma {:induction false} PictureAt(floor: set<Cell>, seeds: seq<Cell>, m: Cell, k: int)
    requires InMap(m) && -1 <= k < |seeds|
    requires k >= 0 ==> m in Halo(Component(true, floor, seeds[k]))
    requires forall j :: k < j < |seeds| ==> m !in Halo(Component(true, floor, seeds[j]))
    ensures Picture(floor, seeds)[m] == if k >= 0 then LabelOf(k) else 0
  {
    hide Halo, Component, LabelOf;
    if seeds != [] && k < |seeds| - 1 {
      PictureAt(floor, seeds[..|seeds| - 1], m, k);
    }
  }

  lemma SeedIsFirst(t: Labels, floor: set<Cell>, seeds: seq<Cell>, c: Cell)
    requires t.Keys == Places() && floor <= Board() && InGrid(c)
    requires LabelledBefore(t, floor, c.x, c.y) && InScanOrder(floor, seeds, c)
    requires c in floor && Component(true, floor, c) <= Unlabelled(t, floor)
    ensures InScanOrder(floor, seeds + [c], Cell(c.x + 1, c.y))
  {
    hide Connected;
    forall b | b in floor && Connected(true, floor, c, b) ensures !Scanned(b, c) {
      assert b in Component(true, floor, c);
    }
  }

  lemma NoSeedYet(floor: set<Cell>, seeds: seq<Cell>, c: Cell)
    requires InScanOrder(floor, seeds, c)
    ensures InScanOrder(floor, seeds, Cell(c.x + 1, c.y))
  {}

  /** The scan has reached (i, j): what is labelled, by whom, and in what order. */
  ghost predicate Scanning(t: Labels, floor: set<Cell>, seeds: seq<Cell>, i: int, j: int) {
    && t.Keys == Places() && floor <= Board() && Passed(t, floor, seeds) && LabelledBefore(t, floor, i, j)
    && InScanOrder(floor, seeds, Cell(i, j)) && t == Picture(floor, seeds)
  }

  lemma NothingScanned(t: Labels, floor: set<Cell>)
    requires t.Keys == Places() && floor <= Board() && (forall c :: c in floor ==> Inside(c))
    requires forall m :: m in t ==> t[m] == 0
    ensures Scanning(t, floor, [], 0, 0) && LabelOf(0) == 1
  {
    NothingPassed(t, floor);
  }

  lemma RowDone(t: Labels, floor: set<Cell>, seeds: seq<Cell>, j: int)
    requires Scanning(t, floor, seeds, DMAXX, j)
    ensures Scanning(t, floor, seeds, 0, j + 1)
  {
    hide Passed, Picture;
  }

  lemma ScanComplete(t: Labels, floor: set<Cell>, seeds: seq<Cell>)
    requires Scanning(t, floor, seeds, 0, DMAXY) && |Regions(floor)| <= 255
    ensures t.Keys == Places() && floor <= Board()
    ensures AllLabelled(t, floor) && Uniform(t, floor) && LabelsAreRegions(t, floor) && HaloLabelled(t, floor)
    ensures |seeds| == |Regions(floor)| && InScanOrder(floor, seeds, Cell(0, DMAXY)) && t == Picture(floor, seeds)
  {
    hide Passed, Picture, Uniform, HaloLabelled, LabelsAreRegions, InScanOrder, Regions;
    PassIsComplete(t, floor, seeds);
    PassedHas(t, floor, seeds);
  }

  lemma NextLabel(k: nat)
    ensures LabelOf(k + 1) == Increment(LabelOf(k))
  {}

  lemma NothingPassed(t: Labels, floor: set<Cell>)
    requires t.Keys == Places() && floor <= Board() && (forall c :: c in floor ==> Inside(c))
    requires forall m :: m in t ==> t[m] == 0
    ensures Passed(t, floor, [])
  {}

  /** Every floor tile that a row-by-row scan meets before (i, j) is labelled. */
  ghost predicate LabelledBefore(t: Labels, floor: set<Cell>, i: int, j: int)
    requires t.Keys == Places() && floor <= Board()
  {
    forall c :: c in floor && (c.y < j || (c.y == j && c.x < i)) ==> Label(t, c) != 0
  }

  lemma PassedHas(t: Labels, floor: set<Cell>, seeds: seq<Cell>)
    requires Passed(t, floor, seeds)
    ensures t.Keys == Places() && floor <= Board() && Uniform(t, floor) && HaloLabelled(t, floor)
  {}

  ghost predicate AllLabelled(t: Labels, floor: set<Cell>)
    requires t.Keys == Places() && floor <= Board()
  {
    forall c :: c in floor ==> Label(t, c) != 0
  }

  /** Two floor tiles carry the same label exactly when they hang together. */
  ghost predicate LabelsAreRegions(t: Labels, floor: set<Cell>)
    requires t.Keys == Places() && floor <= Board()
  {
    forall a, b :: a in floor && b in floor ==> (Label(t, a) == Label(t, b) <==> Connected(true, floor, a, b))
  }

  lemma PassIsComplete(t: Labels, floor: set<Cell>, seeds: seq<Cell>)
    requires Passed(t, floor, seeds) && AllLabelled(t, floor) && |Regions(floor)| <= 255
    ensures LabelsAreRegions(t, floor) && |seeds| == |Regions(floor)|
  {
    SeedsAreRegions(floor, seeds);
    EveryRegionHasSeed(t, floor, seeds);
    hide Uniform, HaloLabelled, LabelOf, Connected, SeedsApart, RegionsLabelled, Regions;
    forall a, b | a in floor && b in floor ensures Label(t, a) == Label(t, b) <==> Connected(true, floor, a, b) {
      SameLabel(t, floor, seeds, a, b);
    }
  }

  lemma SameLabel(t: Labels, floor: set<Cell>, seeds: seq<Cell>, a: Cell, b: Cell)
    requires t.Keys == Places() && floor <= Board() && |seeds| <= 255
    requires RegionsLabelled(t, floor, seeds) && a in floor && b in floor && Label(t, a) != 0 && Label(t, b) != 0
    ensures Label(t, a) == Label(t, b) <==> Connected(true, floor, a, b)
  {
    LabelsLast(255);
    hide LabelOf, Connected;
    var i := SeedOf(t, floor, seeds, a);
    var j := SeedOf(t, floor, seeds, b);
    if i == j {
      ConnectedSym(true, floor, seeds[i], a);
      ConnectedTrans(true, floor, a, seeds[i], b);
    } else if Connected(true, floor, a, b) {
      ConnectedTrans(true, floor, seeds[i], a, b);
    }
  }

  lemma SeedOf(t: Labels, floor: set<Cell>, seeds: seq<Cell>, a: Cell) returns (k: nat)
    requires t.Keys == Places() && floor <= Board()
    requires RegionsLabelled(t, floor, seeds) && a in floor && Label(t, a) != 0
    ensures k < |seeds| && Connected(true, floor, seeds[k], a) && Label(t, a) == LabelOf(k)
  {
    hide LabelOf, Connected;
    k :| 0 <= k < |seeds| && Connected(true, floor, seeds[k], a);
  }

  lemma EveryRegionHasSeed(t: Labels, floor: set<Cell>, seeds: seq<Cell>)
    requires t.Keys == Places() && floor <= Board() && SeedsApart(floor, seeds)
    requires RegionsLabelled(t, floor, seeds) && AllLabelled(t, floor)
    ensures |seeds| == |Regions(floor)|
  {
    hide Component, Connected, RegionsLabelled;
    forall r | r in Regions(floor) ensures r in Flooding(floor, seeds) {
      var c :| c in floor && r == Component(true, floor, c);
      var k := SeedOf(t, floor, seeds, c);
      SameComponent(true, floor, seeds[k], c);
      assert Flooding(floor, seeds)[k] == r;
    }
    SeedsAreRegions(floor, seeds);
  }

  // ------------------------------------------------------------- too many regions

  ghost function TileOf(floor: set<Cell>, r: set<Cell>): (c: Cell)
    requires r in Regions(floor)
    ensures c in floor && r == Component(true, floor, c)
  {
    var c :| c in floor && r == Component(true, floor, c);
    c
  }

  /** Labels that are signed chars and not 0 tell no more than 255 regions apart. So the
      bound that FloodTVal asks for is the one that any such labelling needs. */
  lemma FewRegions(t: Labels, floor: set<Cell>)
    requires t.Keys == Places() && floor <= Board() && forall m :: m in t ==> -128 <= t[m] < 128
    requires AllLabelled(t, floor) && LabelsAreRegions(t, floor)
    ensures |Regions(floor)| <= 255
  {
    hide Component, Regions;
    var rs := Listing(Regions(floor));
    var labels := seq(|rs|, i requires 0 <= i < |rs| => Label(t, TileOf(floor, rs[i])) + 128);
    forall i, j | 0 <= i < j < |rs| ensures labels[i] != labels[j] {
      var a, b := TileOf(floor, rs[i]), TileOf(floor, rs[j]);
      if Connected(true, floor, a, b) { SameComponent(true, floor, a, b); }
    }
    var all := Below(256);
    DistinctCount(labels, all - {128});
  }

  /** Floor on every second tile of every second row: 19 by 19 tiles that do not touch. */
  ghost predicate IsScattered(c: Cell) {
    1 <= c.x <= 37 && 1 <= c.y <= 37 && c.x % 2 == 1 && c.y % 2 == 1
  }

  ghost function Scattered(): (floor: set<Cell>)
    ensures floor <= Board() && forall c :: c in floor <==> IsScattered(c)
  {
    set c | c in Board() && IsScattered(c)
  }

  lemma OddTilesApart(a: Cell, b: Cell)
    requires IsScattered(a) && IsScattered(b)
    ensures !Adjacent(true, a, b)
  {}

  lemma ScatteredApart(a: Cell, b: Cell)
    requires a in Scattered() && b in Scattered() && a != b
    ensures !Connected(true, Scattered(), a, b)
  {
    forall c | c in Scattered() ensures !Adjacent(true, a, c) { OddTilesApart(a, c); }
    forall p | Joins(true, Scattered(), p, a, b) ensures false {
      ClosedHoldsPaths(true, Scattered(), {a}, p);
    }
  }

  /** A map inside the ring that no labelling by signed chars can serve. */
  lemma TooManyRegions()
    ensures forall c :: c in Scattered() ==> Inside(c)
    ensures |Regions(Scattered())| >= 361
    ensures forall t: Labels :: t.Keys == Places() && (forall m :: m in t ==> -128 <= t[m] < 128) ==>
      !(AllLabelled(t, Scattered()) && LabelsAreRegions(t, Scattered()))
  {
    hide Regions, Connected;
    var floor := Scattered();
    var seeds := seq(361, k requires 0 <= k < 361 => Cell(1 + 2 * (k % 19), 1 + 2 * (k / 19)));
    forall i, j | 0 <= i < j < 361 ensures !Connected(true, floor, seeds[i], seeds[j]) {
      assert i == 19 * (i / 19) + i % 19 && j == 19 * (j / 19) + j % 19;
      ScatteredApart(seeds[i], seeds[j]);
    }
    SeedsAreRegions(floor, seeds);
    forall t: Labels | t.Keys == Places()
      && (forall m :: m in t ==> -128 <= t[m] < 128) && AllLabelled(t, floor) && LabelsAreRegions(t, floor)
      ensures false
    {
      FewRegions(t, floor);
    }
  }

  class Transparency {
    const floorTile: int
    const dungeon: array2<int>
    const dTransVal: array2<int>
    var TransVal: int

    constructor (tile: int)
      ensures Valid() && fresh(dungeon) && fresh(dTransVal) && TransVal == 1
      ensures floorTile == tile && forall m :: m in T() ==> T()[m] == 0
    {
      floorTile := tile;
      dungeon := new int[DMAXX, DMAXY]((i, j) => 0);
      dTransVal := new int[MAXDUN, MAXDUN]((i, j) => 0);
      TransVal := 1;
    }

    ghost predicate Valid() {
      && dungeon.Length0 == DMAXX && dungeon.Length1 == DMAXY && dungeon != dTransVal
      && dTransVal.Length0 == MAXDUN && dTransVal.Length1 == MAXDUN
    }

    ghost function Floor(): (s: set<Cell>)
      requires Valid()
      reads dungeon
      ensures s <= Board()
    {
      set c | c in Board() && dungeon[c.x, c.y] == floorTile
    }

    ghost function T(): (t: Labels)
      requires Valid()
      reads dTransVal
      ensures t.Keys == Places()
    {
      map m | m in Places() :: dTransVal[m.x, m.y]
    }

    /** The pass over a fresh label map labels every floor tile with its region,
        writes nothing but halos, and counts the regions in TransVal. A signed
        char has labels for 255 regions, so it is no map's labelling that has
        more (FewRegions); the 256th region would get the label 0. */
    method FloodTVal() returns (ghost seeds: seq<Cell>)
      requires Valid() && TransVal == 1 && (forall m :: m in T() ==> T()[m] == 0)
      requires (forall c :: c in Floor() ==> Inside(c)) && |Regions(Floor())| <= 255
      modifies dTransVal, this`TransVal
      ensures AllLabelled(T(), Floor()) && Uniform(T(), Floor())
      ensures LabelsAreRegions(T(), Floor())
      ensures HaloLabelled(T(), Floor())
      ensures |seeds| == |Regions(Floor())| && TransVal == LabelOf(|seeds|)
      ensures InScanOrder(Floor(), seeds, Cell(0, DMAXY)) && T() == Picture(Floor(), seeds)
    {
      hide Scanning, AllLabelled, Uniform, HaloLabelled, LabelOf, Regions, LabelsAreRegions, InScanOrder, Picture;
      seeds := [];
      NothingScanned(T(), Floor());
      var yy := 16;
      for j := 0 to DMAXY
        invariant yy == 16 + 2 * j && TransVal == LabelOf(|seeds|) && Scanning(T(), Floor(), seeds, 0, j)
      {
        seeds := FloodRow(j, yy, seeds);
        yy := yy + 2;
      }
      ScanComplete(T(), Floor(), seeds);
    }

    /** One row of the scan. */
    method FloodRow(j: int, yy: int, ghost seeds: seq<Cell>) returns (ghost more: seq<Cell>)
      requires Valid() && 0 <= j < DMAXY && yy == 16 + 2 * j && |Regions(Floor())| <= 255
      requires TransVal == LabelOf(|seeds|) && Scanning(T(), Floor(), seeds, 0, j)
      modifies dTransVal, this`TransVal
      ensures TransVal == LabelOf(|more|) && Scanning(T(), Floor(), more, 0, j + 1)
    {
      hide Scanning, LabelOf, Regions;
      more := seeds;
      var xx := 16;
      for i := 0 to DMAXX
        invariant xx == 16 + 2 * i && TransVal == LabelOf(|more|) && Scanning(T(), Floor(), more, i, j)
      {
        more := FloodTile(i, j, xx, yy, more);
        xx := xx + 2;
      }
      RowDone(T(), Floor(), more, j);
    }

    /** The test and the fill for one tile of the scan. */
    method FloodTile(i: int, j: int, xx: int, yy: int, ghost seeds: seq<Cell>) returns (ghost more: seq<Cell>)
      requires Valid() && InGrid(Cell(i, j)) && xx == 16 + 2 * i && yy == 16 + 2 * j
      requires TransVal == LabelOf(|seeds|) && Scanning(T(), Floor(), seeds, i, j) && |Regions(Floor())| <= 255
      modifies dTransVal, this`TransVal
      ensures TransVal == LabelOf(|more|) && Scanning(T(), Floor(), more, i + 1, j)
    {
      hide Passed, LabelOf, Regions, Flooded, Consistent, InScanOrder, Picture, Painted, Halo, Component;
      more := seeds;
      ghost var c, t := Cell(i, j), T();
      assert Corner(c) == Cell(xx, yy);
      if dungeon[i, j] == floorTile && dTransVal[xx, yy] == 0 {
        NewRegion(t, Floor(), seeds, c);
        FTVR(i, j, xx, yy, 0);
        RegionDone(t, T(), Floor(), seeds, c);
        SeedIsFirst(t, Floor(), seeds, c);
        PictureNext(Floor(), seeds, c);
        NextLabel(|seeds|);
        TransVal := Increment(TransVal);
        more := seeds + [c];
      } else {
        NoSeedYet(Floor(), seeds, c);
      }
    }

    method FTVR(i: int, j: int, x: int, y: int, d: int)
      requires Valid() && InGrid(Cell(i, j)) && x == 16 + 2 * i && y == 16 + 2 * j && 0 <= d <= 8
      requires Consistent(T(), Floor(), TransVal)
      requires Cell(i, j) in Floor() && 1 <= d && Label(T(), Cell(i, j)) != 0 ==> Label(T(), Cell(i, j)) == TransVal
      modifies dTransVal
      ensures Flooded(old(T()), T(), Floor(), TransVal, Cell(i, j), d)
      decreases Unlabelled(T(), Floor()), 1
    {
      hide Spreading, Flooded, Block, Painted, Facing;
      ghost var t, c := T(), Cell(i, j);
      assert Corner(c) == Cell(x, y);
      if dTransVal[x, y] != 0 || dungeon[i, j] != floorTile {
        StopsHere(t, Floor(), TransVal, c, d);
        WriteFacing(x, y, c, d);
      } else {
        WriteBlock(x, y, c);
        SpreadStart(t, Floor(), TransVal, c);
        NextAll(i, j, x, y, t, c);
        SpreadEnd(t, T(), Floor(), TransVal, c, d);
      }
    }

    /** The eight recursive calls. */
    method NextAll(i: int, j: int, x: int, y: int, ghost t: Labels, ghost c: Cell)
      requires Valid() && c == Cell(i, j) && x == 16 + 2 * i && y == 16 + 2 * j
      requires t.Keys == Places() && Unlabelled(T(), Floor()) < Unlabelled(t, Floor())
      requires Spreading(t, T(), Floor(), TransVal, c, 0)
      modifies dTransVal
      ensures Spreading(t, T(), Floor(), TransVal, c, 8)
      decreases Unlabelled(t, Floor()), 0
    {
      hide Spreading, Unlabelled, Places;
      Next(i + 1, j, x + 2, y, 1, t, c);
      Next(i - 1, j, x - 2, y, 2, t, c);
      Next(i, j + 1, x, y + 2, 3, t, c);
      Next(i, j - 1, x, y - 2, 4, t, c);
      Next(i - 1, j - 1, x - 2, y - 2, 5, t, c);
      Next(i + 1, j - 1, x + 2, y - 2, 6, t, c);
      Next(i - 1, j + 1, x - 2, y + 2, 7, t, c);
      Next(i + 1, j + 1, x + 2, y + 2, 8, t, c);
    }

    /** A recursive call of FTVR, as a step of the fill from c that began with labels t. */
    method Next(i: int, j: int, x: int, y: int, d: int, ghost t: Labels, ghost c: Cell)
      requires Valid() && x == 16 + 2 * i && y == 16 + 2 * j && 1 <= d <= 8
      requires Cell(i, j) == Step(c, d) && Spreading(t, T(), Floor(), TransVal, c, d - 1)
      modifies dTransVal
      ensures Spreading(t, T(), Floor(), TransVal, c, d)
      ensures t.Keys == Places() && Unlabelled(T(), Floor()) < Unlabelled(t, Floor())
      decreases Unlabelled(T(), Floor()), 2
    {
      ghost var t1 := T();
      SpreadCalls(t, t1, Floor(), TransVal, c, d);
      hide Spreading, Flooded, Consistent;
      FTVR(i, j, x, y, d);
      SpreadNext(t, t1, T(), Floor(), TransVal, c, d);
    }

    /** The stop branch: the quarters that face the tile the call came from. */
    method WriteFacing(x: int, y: int, ghost c: Cell, d: int)
      requires Valid() && InGrid(c) && Corner(c) == Cell(x, y) && 0 <= d <= 8
      modifies dTransVal
      ensures T() == Painted(old(T()), Facing(c, d), TransVal)
    {
      if d == 1 {
        dTransVal[x, y] := TransVal;
        dTransVal[x, y + 1] := TransVal;
      }
      if d == 2 {
        dTransVal[x + 1, y] := TransVal;
        dTransVal[x + 1, y + 1] := TransVal;
      }
      if d == 3 {
        dTransVal[x, y] := TransVal;
        dTransVal[x + 1, y] := TransVal;
      }
      if d == 4 {
        dTransVal[x, y + 1] := TransVal;
        dTransVal[x + 1, y + 1] := TransVal;
      }
      if d == 5 { dTransVal[x + 1, y + 1] := TransVal; }
      if d == 6 { dTransVal[x, y + 1] := TransVal; }
      if d == 7 { dTransVal[x + 1, y] := TransVal; }
      if d == 8 { dTransVal[x, y] := TransVal; }
    }

    method WriteBlock(x: int, y: int, ghost c: Cell)
      requires Valid() && InGrid(c) && Corner(c) == Cell(x, y)
      modifies dTransVal
      ensures T() == Painted(old(T()), Block(c), TransVal)
    {
      dTransVal[x, y] := TransVal;
      dTransVal[x + 1, y] := TransVal;
      dTransVal[x, y + 1] := TransVal;
      dTransVal[x + 1, y + 1] := TransVal;
    }
  }
}
