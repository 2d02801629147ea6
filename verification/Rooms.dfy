/** The plan of a cave (Source/drlg_l3.cpp): blocks that grow out of blocks. */
module Rooms {
  import opened Grid

  datatype Box = Box(left: int, top: int, right: int, bottom: int) {
    predicate Has(c: Cell) {
      left <= c.x <= right && top <= c.y <= bottom
    }

    function Inside(): Box {
      Box(left + 1, top + 1, right - 1, bottom - 1)
    }
  }

  ghost predicate Within(s: set<Cell>, b: Box) {
    forall c :: c in s ==> b.Has(c)
  }

  /** Rooms are only dug here (the guard of DRLG_L3FillRoom). */
  const DIGGABLE := Box(2, 2, 33, 37)
  /** What lies inside the outer ring. */
  const INNER := Box(1, 1, DMAXX - 2, DMAXY - 2)

  /** A room can be dug where it is in range and nothing was dug. */
  ghost predicate CanDig(s: set<Cell>, b: Box) {
    && DIGGABLE.left <= b.left && b.right <= DIGGABLE.right && DIGGABLE.top <= b.top && b.bottom <= DIGGABLE.bottom
    && forall c :: c in s ==> !b.Has(c)
  }

  lemma CanDigLess(s: set<Cell>, t: set<Cell>, b: Box)
    requires s <= t && CanDig(t, b)
    ensures CanDig(s, b)
  {}

  /** The border of a rectangle, and what the two loops over it have passed. */
  ghost function Rim(b: Box): set<Cell> {
    set c | c in Board() && b.Has(c) && !b.Inside().Has(c)
  }

  ghost function Sides(b: Box, j: int): set<Cell> {
    set c | c in Board() && b.Has(c) && (c.x == b.left || c.x == b.right) && c.y < j
  }

  ghost function Ends(b: Box, i: int): set<Cell> {
    set c | c in Board() && b.Has(c) && (c.y == b.top || c.y == b.bottom) && c.x < i
  }

  lemma NextOfSides(b: Box, j: int)
    requires InGrid(Cell(b.left, j)) && InGrid(Cell(b.right, j)) && b.top <= j <= b.bottom && b.left <= b.right
    ensures Sides(b, j + 1) == Sides(b, j) + {Cell(b.left, j), Cell(b.right, j)}
  {}

  lemma NextOfEnds(b: Box, i: int)
    requires InGrid(Cell(i, b.top)) && InGrid(Cell(i, b.bottom)) && b.left <= i <= b.right && b.top <= b.bottom
    ensures Ends(b, i + 1) == Ends(b, i) + {Cell(i, b.top), Cell(i, b.bottom)}
  {}

  lemma RimParts(b: Box)
    ensures Rim(b) == Sides(b, b.bottom + 1) + Ends(b, b.right + 1)
    ensures Sides(b, b.top) == {} && Ends(b, b.left) == {}
  {}

  // ------------------------------------------------- where blocks are tried

  /** How far a block of this size is moved along the edge it grows from: forward if it is
      smaller than the obstacle, backward if it is larger. */
  predicate Slid(k: int, size: int, obs: int) {
    if size < obs then 0 <= k < size else if size == obs then k == 0 else -size < k <= 0
  }

  /** The rectangles DRLG_L3CreateBlock may try from corner (x, y): above, to the right,
      below or to the left of it, three or four cells to the far side. */
  predicate Abuts(x: int, y: int, obs: int, dir: int, r: Box) {
    var w, h := r.right - r.left, r.bottom - r.top;
    && 3 <= w <= 4 && 3 <= h <= 4
    && if dir == 0 then r.bottom == y - 1 && Slid(r.left - x, w, obs)
       else if dir == 1 then r.left == x + 1 && Slid(r.top - y, h, obs)
       else if dir == 2 then r.top == y + 1 && Slid(r.left - x, w, obs)
       else r.right == x - 1 && Slid(r.top - y, h, obs)
  }

  /** A block, the direction it grew in, and whether it goes on growing. */
  datatype Room = Room(box: Box, dir: int, grows: bool)

  const NOWHERE := 4  // the first room grew from nothing

  function Back(dir: int): int {
    if dir == 0 then 2 else if dir == 1 then 3 else if dir == 2 then 0 else if dir == 3 then 1 else -1
  }

  /** The corner of a block that its neighbour in direction dir is measured from. */
  function CornerX(b: Box, dir: int): int {
    if dir == 1 then b.right else b.left
  }

  function CornerY(b: Box, dir: int): int {
    if dir == 2 then b.bottom else b.top
  }

  /** The size compared with: for a neighbour above or below it is the block's height. */
  function Obstacle(b: Box, dir: int): int {
    if dir == 0 || dir == 2 then b.bottom - b.top else b.right - b.left
  }

  predicate Neighbour(b: Box, dir: int, r: Box) {
    Abuts(CornerX(b, dir), CornerY(b, dir), Obstacle(b, dir), dir, r)
  }

  /** Blocks are three or four cells to the far side, and the first room two by two. */
  predicate BlockSized(b: Box) {
    var w, h := b.right - b.left, b.bottom - b.top;
    (3 <= w <= 4 && 3 <= h <= 4) || w == h == 2
  }

  /** Neighbours share a stretch of edge. */
  lemma NeighboursTouch(b: Box, dir: int, r: Box)
    requires 0 <= dir < 4 && Neighbour(b, dir, r) && BlockSized(b)
    ensures BlockSized(r)
    ensures if dir == 0 || dir == 2 then r.left <= b.right && b.left <= r.right
            else r.top <= b.bottom && b.top <= r.bottom
    ensures dir == 0 ==> r.bottom + 1 == b.top
    ensures dir == 1 ==> b.right + 1 == r.left
    ensures dir == 2 ==> b.bottom + 1 == r.top
    ensures dir == 3 ==> r.right + 1 == b.left
  {}

  /** p has a child r: a block that grew from it, and not back to where p came from. */
  predicate Child(p: Room, r: Room) {
    p.grows && 0 <= r.dir < 4 && r.dir != Back(p.dir) && Neighbour(p.box, r.dir, r.box)
  }

  // ------------------------------------------------- plans

  ghost predicate HasParent(rooms: seq<Room>, k: int)
    requires 0 <= k < |rooms|
  {
    exists j :: 0 <= j < k && Child(rooms[j], rooms[k])
  }

  /** Every room but the first grew from an earlier one. */
  ghost predicate Grows(rooms: seq<Room>) {
    forall k :: 1 <= k < |rooms| ==> HasParent(rooms, k)
  }

  lemma GrowsJoin(a: seq<Room>, j: int, b: seq<Room>)
    requires Grows(a) && Grows(b) && 0 <= j < |a| && (b != [] ==> Child(a[j], b[0]))
    ensures Grows(a + b)
  {
    var all := a + b;
    forall k | 1 <= k < |all| ensures HasParent(all, k) {
      if k < |a| {
        assert HasParent(a, k);
        var i :| 0 <= i < k && Child(a[i], a[k]);
        assert Child(all[i], all[k]);
      } else if k == |a| {
        assert Child(all[j], all[k]);
      } else {
        assert HasParent(b, k - |a|);
        var i :| 0 <= i < k - |a| && Child(b[i], b[k - |a|]);
        assert Child(all[|a| + i], all[k]);
      }
    }
  }

  ghost predicate InRoom(rooms: seq<Room>, c: Cell) {
    exists r :: r in rooms && r.box.Has(c)
  }

  /** Digging the rooms, in this order, made t out of s: of each room at least the inside,
      at most all, and where nothing had been dug before. */
  ghost predicate Digs(s: set<Cell>, t: set<Cell>, rooms: seq<Room>) {
    && s <= t
    && (forall c :: c in t ==> c in s || InRoom(rooms, c))
    && (forall r, c :: r in rooms && r.box.Inside().Has(c) ==> c in t)
    && (forall r :: r in rooms ==> CanDig(s, r.box))
    && (forall j, k, c :: 0 <= j < k < |rooms| && rooms[j].box.Inside().Has(c) ==> !rooms[k].box.Has(c))
  }

  lemma DigsNothing(s: set<Cell>)
    ensures Digs(s, s, []) && Grows([]) && AllFull(s, [], false) && AllFull(s, [], true) && Solid(s, [])
  {}

  lemma DigsJoin(s: set<Cell>, u: set<Cell>, t: set<Cell>, a: seq<Room>, b: seq<Room>)
    requires Digs(s, u, a) && Digs(u, t, b)
    ensures Digs(s, t, a + b)
  {
    forall c | c in t ensures c in s || InRoom(a + b, c) {
      if c !in s {
        if InRoom(b, c) {
          var r :| r in b && r.box.Has(c);
          assert r in a + b;
        } else {
          var r :| r in a && r.box.Has(c);
          assert r in a + b;
        }
      }
    }
    forall r | r in a + b ensures CanDig(s, r.box) {
      if r in b { CanDigLess(s, u, r.box); }
    }
    forall j, k, c | 0 <= j < k < |a + b| && (a + b)[j].box.Inside().Has(c) ensures !(a + b)[k].box.Has(c) {
      if j < |a| <= k {
        assert a[j] in a && c in u && b[k - |a|] in b;
      }
    }
  }

  // ------------------------------------------------- the whole plan

  ghost function Cells(b: Box): set<Cell> {
    set c | c in Board() && b.Has(c)
  }

  predicate IsStart(r: Room) {
    && r.dir == NOWHERE && r.grows && 10 <= r.box.left < 30 && 10 <= r.box.top < 30
    && r.box.right == r.box.left + 2 && r.box.bottom == r.box.top + 2
  }

  ghost function Hall(x: int, y: int): set<Cell> {
    Cells(Box(x, y, x + 12, y + 12))
  }

  ghost predicate IsHall(hall: set<Cell>) {
    exists x, y :: 10 <= x < 20 && 10 <= y < 20 && hall == Hall(x, y)
  }

  /** A cave before it is smoothed: the rooms of a plan around a first one, and the hall of
      the anvil if it is wanted. */
  ghost predicate CaveOf(plan: seq<Room>, dug: set<Cell>, floor: set<Cell>, anvil: bool) {
    && plan != [] && IsStart(plan[0]) && Grows(plan) && Digs({}, dug, plan)
    && dug <= floor && if anvil then exists hall :: IsHall(hall) && floor == dug + hall else floor == dug
  }

  lemma CaveIsInside(plan: seq<Room>, dug: set<Cell>, floor: set<Cell>, anvil: bool)
    requires CaveOf(plan, dug, floor, anvil)
    ensures Within(floor, DIGGABLE)
  {
    forall c | c in floor ensures DIGGABLE.Has(c) {
      if c in dug {
        var r :| r in plan && r.box.Has(c);
        assert CanDig({}, r.box);
      }
    }
  }

  // ------------------------------------------------- where growth ends

  /** What is tried when every random number is the highest one. */
  function LargestBlock(x: int, y: int, obs: int, dir: int): Box {
    var k := if obs < 4 then -3 else 0;
    if dir == 0 then Box(x + k, y - 5, x + k + 4, y - 1)
    else if dir == 1 then Box(x + 1, y + k, x + 5, y + k + 4)
    else if dir == 2 then Box(x + k, y + 1, x + k + 4, y + 5)
    else Box(x - 5, y + k, x - 1, y + k + 4)
  }

  /** A rectangle that could be tried from there is not, or no longer, free. */
  ghost predicate Stopped(t: set<Cell>, x: int, y: int, obs: int, dir: int, highest: bool) {
    exists r :: Abuts(x, y, obs, dir, r) && !CanDig(t, r) && (highest ==> r == LargestBlock(x, y, obs, dir))
  }

  ghost predicate Tried(t: set<Cell>, b: Box, d: int, highest: bool) {
    Stopped(t, CornerX(b, d), CornerY(b, d), Obstacle(b, d), d, highest)
  }

  /** A room that goes on growing does so in all its directions. */
  ghost predicate Full(t: set<Cell>, r: Room, highest: bool) {
    && (highest ==> r.grows)
    && (r.grows ==> forall d :: 0 <= d < 4 && d != Back(r.dir) ==> Tried(t, r.box, d, highest))
  }

  ghost predicate AllFull(t: set<Cell>, rooms: seq<Room>, highest: bool) {
    forall r :: r in rooms ==> Full(t, r, highest)
  }

  /** All of the rooms is dug, rims and corners included. */
  ghost predicate Solid(t: set<Cell>, rooms: seq<Room>) {
    forall r, c :: r in rooms && r.box.Has(c) ==> c in t
  }

  ghost predicate FullSoFar(t: set<Cell>, r: Room, done: set<int>, highest: bool) {
    forall d :: d in done ==> Tried(t, r.box, d, highest)
  }

  lemma StillTried(t: set<Cell>, u: set<Cell>, b: Box, d: int, highest: bool)
    requires Tried(t, b, d, highest) && t <= u
    ensures Tried(u, b, d, highest)
  {
    var x, y, obs := CornerX(b, d), CornerY(b, d), Obstacle(b, d);
    var r :| Abuts(x, y, obs, d, r) && !CanDig(t, r) && (highest ==> r == LargestBlock(x, y, obs, d));
    if CanDig(u, r) { CanDigLess(t, u, r); }
  }

  lemma StillFull(t: set<Cell>, u: set<Cell>, r: Room, done: set<int>, highest: bool)
    requires FullSoFar(t, r, done, highest) && t <= u
    ensures FullSoFar(u, r, done, highest)
  {
    forall d | d in done ensures Tried(u, r.box, d, highest) {
      StillTried(t, u, r.box, d, highest);
    }
  }

  lemma AllStillFull(t: set<Cell>, u: set<Cell>, rooms: seq<Room>, highest: bool)
    requires AllFull(t, rooms, highest) && t <= u
    ensures AllFull(u, rooms, highest)
  {
    forall r, d | r in rooms && r.grows && 0 <= d < 4 && d != Back(r.dir) ensures Tried(u, r.box, d, highest) {
      assert Full(t, r, highest);
      StillTried(t, u, r.box, d, highest);
    }
    forall r | r in rooms ensures Full(u, r, highest) {
      assert Full(t, r, highest);
    }
  }

  // ------------------------------------------------- a plan in progress

  /** s became t by digging the rooms of `plan`; from its first room the directions of
      `done` were tried, and if `highest`, with the highest numbers. */
  ghost predicate Growing(s: set<Cell>, t: set<Cell>, plan: seq<Room>, done: set<int>, highest: bool) {
    && Digs(s, t, plan) && Grows(plan) && plan != []
    && AllFull(t, plan[1..], highest) && FullSoFar(t, plan[0], done, highest)
    && (highest ==> Solid(t, plan))
  }

  lemma FirstRoom(s: set<Cell>, t: set<Cell>, r: Room, highest: bool)
    requires CanDig(s, r.box)
    requires forall c :: c in t ==> c in s || r.box.Has(c)
    requires forall c :: c in s || r.box.Inside().Has(c) ==> c in t
    requires highest ==> forall c :: r.box.Has(c) ==> c in t
    ensures Growing(s, t, [r], {}, highest)
  {
    forall c | c in t && c !in s ensures InRoom([r], c) {
      assert r in [r];
    }
  }

  lemma NextBranch(s: set<Cell>, t: set<Cell>, u: set<Cell>, plan: seq<Room>, more: seq<Room>, done: set<int>, d: int,
                   highest: bool)
    requires Growing(s, t, plan, done, highest) && Digs(t, u, more) && Grows(more)
    requires more != [] ==> Child(plan[0], more[0])
    requires AllFull(u, more, highest) && Tried(u, plan[0].box, d, highest) && (highest ==> Solid(u, more))
    ensures Growing(s, u, plan + more, done + {d}, highest) && (plan + more)[0] == plan[0]
  {
    DigsJoin(s, t, u, plan, more);
    GrowsJoin(plan, 0, more);
    assert t <= u;
    AllStillFull(t, u, plan[1..], highest);
    StillFull(t, u, plan[0], done, highest);
    assert (plan + more)[1..] == plan[1..] + more;
  }

  /** All directions were tried, if the first room goes on growing. */
  lemma Finished(s: set<Cell>, t: set<Cell>, plan: seq<Room>, done: set<int>, highest: bool)
    requires Growing(s, t, plan, done, highest) && (highest ==> plan[0].grows)
    requires plan[0].grows ==> forall d :: 0 <= d < 4 && d != Back(plan[0].dir) ==> d in done
    ensures plan != [] && Digs(s, t, plan) && Grows(plan) && AllFull(t, plan, highest) && (highest ==> Solid(t, plan))
  {
    assert plan == [plan[0]] + plan[1..];
  }
}
