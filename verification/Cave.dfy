/** The cave generator of Source/drlg_l3.cpp: rooms grown by mutual recursion,
    smoothing passes, and the unguarded fill that tests connectivity. */
module Cave {
  import opened Grid
  import opened Rng
  import opened CInt
  import opened Rooms
  import opened Smoothing

  class Generator {
    const dungeon: array2<int>
    const lockout: array2<bool>
    const dice: Dice
    var lockoutcnt: int

    constructor (dice: Dice)
      ensures Valid() && fresh(dungeon) && fresh(lockout) && Floor() == {} && this.dice == dice
    {
      this.dice := dice;
      dungeon := new int[DMAXX, DMAXY]((i, j) => 0);
      lockout := new bool[DMAXX, DMAXY]((i, j) => false);
      lockoutcnt := 0;
    }

    ghost predicate Valid()
      reads dungeon
    {
      && dungeon.Length0 == lockout.Length0 == DMAXX && dungeon.Length1 == lockout.Length1 == DMAXY
      && forall i, j :: 0 <= i < DMAXX && 0 <= j < DMAXY ==> dungeon[i, j] == 0 || dungeon[i, j] == 1
    }

    /** The dug cells. */
    ghost function Floor(): (s: set<Cell>)
      requires dungeon.Length0 == DMAXX && dungeon.Length1 == DMAXY
      reads dungeon
    {
      set c | c in Board() && dungeon[c.x, c.y] != 0
    }

    /** The cells the fill has not reached. */
    ghost function Locked(): set<Cell>
      requires lockout.Length0 == DMAXX && lockout.Length1 == DMAXY
      reads lockout
    {
      set c | c in Board() && lockout[c.x, c.y]
    }

    /** `dungeon[i][j] = v` */
    method Put(i: int, j: int, v: int)
      requires Valid() && InGrid(Cell(i, j)) && (v == 0 || v == 1)
      modifies dungeon
      ensures Valid()
      ensures Floor() == if v == 1 then old(Floor()) + {Cell(i, j)} else old(Floor()) - {Cell(i, j)}
    {
      dungeon[i, j] := v;
    }

    // ------------------------------------------------------- growing rooms

    /** The sum test of DRLG_L3FillRoom: no cell of the rectangle is dug. */
    method IsEmpty(r: Box) returns (empty: bool)
      requires Valid() && 0 <= r.left <= r.right < DMAXX && 0 <= r.top <= r.bottom < DMAXY
      ensures empty <==> forall c :: c in Floor() ==> !r.Has(c)
    {
      var v := 0;
      for j := r.top to r.bottom + 1
        invariant v >= 0
        invariant v == 0 <==> forall c :: c in Floor() ==> !Box(r.left, r.top, r.right, j - 1).Has(c)
      {
        for i := r.left to r.right + 1
          invariant v >= 0
          invariant v == 0 <==> forall c :: c in Floor() ==>
            !Box(r.left, r.top, r.right, j - 1).Has(c) && !Box(r.left, j, i - 1, j).Has(c)
        {
          assert dungeon[i, j] != 0 <==> Cell(i, j) in Floor();
          v := v + dungeon[i, j];
        }
      }
      empty := v == 0;
    }

    /** Digs exactly the inside of the rectangle. */
    method DigInside(r: Box)
      requires Valid() && 0 <= r.left <= r.right < DMAXX && 0 <= r.top <= r.bottom < DMAXY
      modifies dungeon
      ensures Valid()
      ensures forall c :: c in Floor() <==>
        c in old(Floor()) || Box(r.left + 1, r.top + 1, r.right - 1, r.bottom - 1).Has(c)
    {
      var j := r.top + 1;
      while j < r.bottom
        invariant Valid() && r.top < j
        invariant forall c :: c in Floor() <==>
          c in old(Floor()) || Box(r.left + 1, r.top + 1, r.right - 1, Min(j, r.bottom) - 1).Has(c)
      {
        var i := r.left + 1;
        while i < r.right
          invariant Valid() && r.left < i
          invariant forall c :: c in Floor() <==>
            || c in old(Floor()) || Box(r.left + 1, r.top + 1, r.right - 1, j - 1).Has(c)
            || Box(r.left + 1, j, Min(i, r.right) - 1, j).Has(c)
        {
          Put(i, j, 1);
          i := i + 1;
        }
        j := j + 1;
      }
    }

    /** `if (random(0, 2) != 0) dungeon[i][j] = 1` */
    method Toss(i: int, j: int)
      requires Valid() && InGrid(Cell(i, j))
      modifies dungeon
      ensures Valid() && old(Floor()) <= Floor() <= old(Floor()) + {Cell(i, j)}
      ensures dice.Highest? ==> Floor() == old(Floor()) + {Cell(i, j)}
    {
      var coin := Random(dice, 2);
      if coin != 0 { Put(i, j, 1); }
    }

    /** Digs any part of the rectangle's rim, or all of it. */
    method DigRim(r: Box)
      requires Valid() && 0 <= r.left <= r.right < DMAXX && 0 <= r.top <= r.bottom < DMAXY
      modifies dungeon
      ensures Valid() && old(Floor()) <= Floor() <= old(Floor()) + Rim(r)
      ensures dice.Highest? ==> Floor() == old(Floor()) + Rim(r)
    {
      hide Sides, Ends, Rim, Floor;
      ghost var s := Floor();
      RimParts(r);
      for j := r.top to r.bottom + 1
        invariant Valid() && s <= Floor() <= s + Sides(r, j)
        invariant dice.Highest? ==> Floor() == s + Sides(r, j)
      {
        NextOfSides(r, j);
        Toss(r.left, j);
        Toss(r.right, j);
      }
      s := Floor();
      for i := r.left to r.right + 1
        invariant Valid() && s <= Floor() <= s + Ends(r, i)
        invariant dice.Highest? ==> Floor() == s + Ends(r, i)
      {
        NextOfEnds(r, i);
        Toss(i, r.top);
        Toss(i, r.bottom);
      }
    }

    /** A room is dug exactly where it fits and nothing was dug yet; its rim is random. */
    method FillRoom(x1: int, y1: int, x2: int, y2: int) returns (filled: bool)
      requires Valid() && x1 <= x2 && y1 <= y2
      modifies dungeon
      ensures Valid()
      ensures filled <==> CanDig(old(Floor()), Box(x1, y1, x2, y2))
      ensures !filled ==> Floor() == old(Floor())
      ensures filled ==> forall c :: c in Floor() ==> c in old(Floor()) || Box(x1, y1, x2, y2).Has(c)
      ensures filled ==> forall c :: c in old(Floor()) || Box(x1, y1, x2, y2).Inside().Has(c) ==> c in Floor()
      ensures filled && dice.Highest? ==> forall c :: Box(x1, y1, x2, y2).Has(c) ==> c in Floor()
    {
      if x1 <= 1 || x2 >= 34 || y1 <= 1 || y2 >= 38 {
        return false;
      }
      filled := IsEmpty(Box(x1, y1, x2, y2));
      if filled {
        DigInside(Box(x1, y1, x2, y2));
        DigRim(Box(x1, y1, x2, y2));
      }
    }

    /** The rectangle DRLG_L3CreateBlock tries next to its parent's corner. */
    method ChooseBlock(x: int, y: int, obs: int, dir: int) returns (r: Box, blksizex: int, blksizey: int)
      requires 2 <= obs <= 4 && 0 <= dir <= 3
      ensures 3 <= blksizex <= 4 && 3 <= blksizey <= 4
      ensures r.right == r.left + blksizex && r.bottom == r.top + blksizey
      ensures Abuts(x, y, obs, dir, r)
      ensures dice.Highest? ==> r == LargestBlock(x, y, obs, dir)
    {
      blksizex := Random(dice, 2);
      blksizex := blksizex + 3;
      blksizey := Random(dice, 2);
      blksizey := blksizey + 3;
      var x1, y1, x2, y2 := 0, 0, 0, 0;
      if dir == 0 {
        y2 := y - 1;
        y1 := y2 - blksizey;
        x1 := Slide(x, blksizex, obs);
        x2 := blksizex + x1;
      }
      if dir == 3 {
        x2 := x - 1;
        x1 := x2 - blksizex;
        y1 := Slide(y, blksizey, obs);
        y2 := y1 + blksizey;
      }
      if dir == 2 {
        y1 := y + 1;
        y2 := y1 + blksizey;
        x1 := Slide(x, blksizex, obs);
        x2 := blksizex + x1;
      }
      if dir == 1 {
        x1 := x + 1;
        x2 := x1 + blksizex;
        y1 := Slide(y, blksizey, obs);
        y2 := y1 + blksizey;
      }
      r := Box(x1, y1, x2, y2);
    }

    /** The offset along the shared edge: forward for a block smaller than the
        obstacle, backward for a larger one. */
    method Slide(at: int, size: int, obs: int) returns (from: int)
      requires 0 < size
      ensures Slid(from - at, size, obs)
      ensures dice.Highest? && size > obs ==> from == at - (size - 1)
    {
      from := at;
      if size < obs {
        var k := Random(dice, size);
        from := k + at;
      }
      if size > obs {
        var k := Random(dice, size);
        from := at - k;
      }
    }

    /** Terminates for every random outcome: each room it digs fills cells that were empty.
        The rooms form a tree. Without a room, the rectangle that was tried could not be dug;
        each room that goes on growing tries all its directions, and so do all rooms when the
        numbers are the highest. */
    method CreateBlock(x: int, y: int, obs: int, dir: int) returns (ghost rooms: seq<Room>)
      requires Valid() && 2 <= obs <= 4 && 0 <= dir <= 3
      modifies dungeon
      ensures Valid() && Digs(old(Floor()), Floor(), rooms) && Grows(rooms)
      ensures rooms != [] ==> rooms[0].dir == dir && Abuts(x, y, obs, dir, rooms[0].box)
      ensures Stopped(Floor(), x, y, obs, dir, dice.Highest?) && AllFull(Floor(), rooms, dice.Highest?)
      ensures dice.Highest? ==> Solid(Floor(), rooms)
      decreases Board() - Floor(), 1
    {
      hide Digs, Grows, AllFull, Solid, Growing, CanDig;
      ghost var s, done := Floor(), {};
      var r, blksizex, blksizey := ChooseBlock(x, y, obs, dir);
      var filled := FillRoom(r.left, r.top, r.right, r.bottom);
      if filled {
        NowFilled(s, Floor(), r);
        var contflag := Random(dice, 4);
        rooms := [Room(r, dir, contflag != 0)];
        FirstRoom(s, Floor(), rooms[0], dice.Highest?);
        if contflag != 0 && dir != 2 { rooms, done := Branch(r.left, r.top, blksizey, 0, s, rooms, done); }
        if contflag != 0 && dir != 3 { rooms, done := Branch(r.right, r.top, blksizex, 1, s, rooms, done); }
        if contflag != 0 && dir != 0 { rooms, done := Branch(r.left, r.bottom, blksizey, 2, s, rooms, done); }
        if contflag != 0 && dir != 1 { rooms, done := Branch(r.left, r.top, blksizex, 3, s, rooms, done); }
        Finished(s, Floor(), rooms, done, dice.Highest?);
      } else {
        rooms := [];
        DigsNothing(s);
      }
      assert Abuts(x, y, obs, dir, r) && !CanDig(Floor(), r);
    }

    /** The recursive call for a block that grows from the first room of the plan. */
    method Branch(x: int, y: int, obs: int, dir: int, ghost s: set<Cell>, ghost plan: seq<Room>, ghost done: set<int>)
      returns (ghost rooms: seq<Room>, ghost done': set<int>)
      requires Valid() && 2 <= obs <= 4 && 0 <= dir <= 3
      requires Growing(s, Floor(), plan, done, dice.Highest?)
      requires plan[0].grows && dir != Back(plan[0].dir) && obs == Obstacle(plan[0].box, dir)
      requires x == CornerX(plan[0].box, dir) && y == CornerY(plan[0].box, dir)
      modifies dungeon
      ensures Valid() && old(Floor()) <= Floor()
      ensures Growing(s, Floor(), rooms, done', dice.Highest?) && rooms[0] == plan[0] && done' == done + {dir}
      decreases Board() - Floor(), 2
    {
      hide Grows, AllFull, Solid, CanDig;
      ghost var t := Floor();
      ghost var more := CreateBlock(x, y, obs, dir);
      NextBranch(s, t, Floor(), plan, more, done, dir, dice.Highest?);
      rooms, done' := plan + more, done + {dir};
    }

    // ------------------------------------------------------- smoothing

    /** Writes v over an empty cell next to a dug one. */
    method Grow(c: Cell, v: int, ghost from: Cell, ghost start: set<Cell>)
      requires Valid() && InGrid(c) && c !in Floor() && (v == 0 || v == 1)
      requires from in Floor() && Adjacent(false, from, c) && GrownFrom(false, start, Floor())
      modifies dungeon
      ensures Valid() && Floor() == old(Floor()) + if v == 1 then {c} else {}
      ensures GrownFrom(false, start, Floor())
    {
      Put(c.x, c.y, v);
      assert Floor() == if v == 1 then old(Floor()) + {c} else old(Floor());
      if v == 1 { GrownByNeighbour(false, start, old(Floor()), from, c); }
    }

    /** Digs one corner of every 2x2 square that is dug only on a diagonal. */
    method FillDiags(ghost b: Box)
      requires Valid() && Within(Floor(), b)
      modifies dungeon
      ensures Valid() && Within(Floor(), b) && GrownFrom(false, old(Floor()), Floor())
      ensures DiagsFilled(old(Floor()), Floor())
    {
      hide GrownFrom, Mended, Elbow;
      ghost var start := Floor();
      GrownSelf(false, start);
      for j := 0 to DMAXY - 1
        invariant Valid() && Within(Floor(), b) && GrownFrom(false, start, Floor())
        invariant DiagsScanned(start, Floor(), 0, j)
      {
        for i := 0 to DMAXX - 1
          invariant Valid() && Within(Floor(), b) && GrownFrom(false, start, Floor())
          invariant DiagsScanned(start, Floor(), i, j)
        {
          FillDiag(i, j, b, start);
        }
      }
    }

    method FillDiag(i: int, j: int, ghost b: Box, ghost start: set<Cell>)
      requires Valid() && SquareAt(Cell(i, j)) && Within(Floor(), b)
      requires GrownFrom(false, start, Floor()) && DiagsScanned(start, Floor(), i, j)
      modifies dungeon
      ensures Valid() && Within(Floor(), b)
      ensures GrownFrom(false, start, Floor()) && DiagsScanned(start, Floor(), i + 1, j)
    {
      hide GrownFrom, DiagsScanned, Elbow;
      ghost var s := Floor();
      var v := dungeon[i + 1, j + 1] + 2 * dungeon[i, j + 1] + 4 * dungeon[i + 1, j] + 8 * dungeon[i, j];
      if v == 6 {
        assert Cell(i, j + 1) in s && Cell(i + 1, j) in s;
        var coin := Random(dice, 2);
        if coin == 0 {
          Grow(Cell(i, j), 1, Cell(i, j + 1), start);
          DiagMended(start, s, i, j, Cell(i, j), 1, 1);
        } else {
          Grow(Cell(i + 1, j + 1), 1, Cell(i + 1, j), start);
          DiagMended(start, s, i, j, Cell(i + 1, j + 1), -1, -1);
        }
      } else if v == 9 {
        assert Cell(i, j) in s && Cell(i + 1, j + 1) in s;
        var coin := Random(dice, 2);
        if coin == 0 {
          Grow(Cell(i + 1, j), 1, Cell(i, j), start);
          DiagMended(start, s, i, j, Cell(i + 1, j), -1, 1);
        } else {
          Grow(Cell(i, j + 1), 1, Cell(i, j), start);
          DiagMended(start, s, i, j, Cell(i, j + 1), 1, -1);
        }
      } else {
        DiagsNext(start, s, s, i, j);
      }
    }

    /** The test of DRLG_L3FillSingles: an empty cell with three dug cells above,
        two beside and three below. */
    method IsSingle(i: int, j: int) returns (single: bool)
      requires Valid() && INNER.Has(Cell(i, j))
      ensures single <==> Cell(i, j) !in Floor() && Ringed(Floor(), Cell(i, j))
    {
      single := dungeon[i, j] == 0
        && dungeon[i, j - 1] + dungeon[i - 1, j - 1] + dungeon[i + 1, j - 1] == 3
        && dungeon[i + 1, j] + dungeon[i - 1, j] == 2
        && dungeon[i, j + 1] + dungeon[i - 1, j + 1] + dungeon[i + 1, j + 1] == 3;
      if Ringed(Floor(), Cell(i, j)) { RingOf(Floor(), i, j); }
    }

    method FillSingle(i: int, j: int, ghost start: set<Cell>)
      requires Valid() && INNER.Has(Cell(i, j)) && Floor() == start + Part(Pits(start), i, j)
      modifies dungeon
      ensures Valid() && Floor() == start + Part(Pits(start), i + 1, j)
    {
      hide Ringed, Pits, Part;
      PartCell(Pits(start), i, j);
      PartIsPart(Pits(start), i, j);
      PitIsStillPit(start, Floor(), Cell(i, j));
      var single := IsSingle(i, j);
      if single {
        Put(i, j, 1);
      }
    }

    /** Digs exactly the pits, although it fills them while it scans. */
    method FillSingles()
      requires Valid()
      modifies dungeon
      ensures Valid() && Floor() == old(Floor()) + Pits(old(Floor()))
    {
      hide Ringed, Pits, Part;
      ghost var start := Floor();
      PitsOfRow(start, 1);
      for j := 1 to DMAXY - 1
        invariant Valid() && Floor() == start + Part(Pits(start), 0, j)
      {
        PitsOfRow(start, j);
        for i := 1 to DMAXX - 1
          invariant Valid() && Floor() == start + Part(Pits(start), i, j)
        {
          FillSingle(i, j, start);
        }
      }
    }

    /** One line of a scan of DRLG_L3FillStraights: runs longer than three, once
        ended, may be filled at random. */
    method FillStraight(side: Side, line: int, ghost start: set<Cell>)
      requires Valid() && 0 <= line < DMAXX - 1 && GrownFrom(false, start, Floor())
      modifies dungeon
      ensures Valid() && GrownFrom(false, start, Floor())
      ensures old(Floor()) <= Floor() <= old(Floor()) + LongRuns(old(Floor()), side, line, SCAN)
      ensures dice.Highest? ==> Floor() == old(Floor()) + LongRuns(old(Floor()), side, line, SCAN)
    {
      hide GrownFrom, LongRuns, Open;
      ghost var s := Floor();
      NoRunsYet(s, side, line);
      var xs, xc := 0, 0;
      for i := 0 to SCAN
        invariant Valid() && GrownFrom(false, start, Floor())
        invariant s <= Floor() <= s + LongRuns(s, side, line, i)
        invariant dice.Highest? ==> Floor() == s + LongRuns(s, side, line, i)
        invariant 0 <= xs <= i && (xs > 0 ==> xc + xs == i)
        invariant forall k :: i - xs <= k < i ==> Open(s, side, line, k)
        invariant i == xs || !Open(s, side, line, i - xs - 1)
      {
        RunEnds(s, side, line, i, xs);
        StillOpen(s, Floor(), side, line, i, i);
        var open := IsOpen(side, line, i);
        if open {
          if xs == 0 { xc := i; }
          xs := xs + 1;
        } else {
          if xs > 3 {
            var coin := Random(dice, 2);
            if coin != 0 {
              RunStillOpen(s, Floor(), side, line, i, xs);
              FillRun(side, line, xc, i, start);
            }
          }
          xs := 0;
        }
      }
    }

    method IsOpen(side: Side, line: int, i: int) returns (open: bool)
      requires Valid() && 0 <= line < DMAXX - 1 && 0 <= i < SCAN
      ensures open <==> Open(Floor(), side, line, i)
    {
      var c, d := Target(side, line, i), Support(side, line, i);
      open := dungeon[c.x, c.y] == 0 && dungeon[d.x, d.y] == 1;
    }

    /** Fills any part of a run of empty cells beside floor. */
    method FillRun(side: Side, line: int, xc: int, i: int, ghost start: set<Cell>)
      requires Valid() && 0 <= line < DMAXX - 1 && 0 <= xc <= i < SCAN && GrownFrom(false, start, Floor())
      requires forall k :: xc <= k < i ==> Open(Floor(), side, line, k)
      modifies dungeon
      ensures Valid() && GrownFrom(false, start, Floor())
      ensures old(Floor()) <= Floor() <= old(Floor()) + RunCells(side, line, xc, i)
      ensures dice.Highest? ==> Floor() == old(Floor()) + RunCells(side, line, xc, i)
    {
      hide GrownFrom;
      ghost var s := Floor();
      for k := xc to i
        invariant Valid() && GrownFrom(false, start, Floor())
        invariant s <= Floor() <= s + RunCells(side, line, xc, k)
        invariant dice.Highest? ==> Floor() == s + RunCells(side, line, xc, k)
      {
        assert RunCells(side, line, xc, k + 1) == RunCells(side, line, xc, k) + {Target(side, line, k)};
        assert Open(s, side, line, k) && Target(side, line, k) !in RunCells(side, line, xc, k);
        var v := Random(dice, 2);
        Grow(Target(side, line, k), v, Support(side, line, k), start);
      }
    }

    /** One of the four scans: rows from above and from below, then columns. */
    method FillSide(side: Side, ghost b: Box)
      requires Valid() && Within(Floor(), b)
      modifies dungeon
      ensures Valid() && Within(Floor(), Spread(side, b)) && GrownFrom(false, old(Floor()), Floor())
      ensures Straightens(old(Floor()), Floor(), side, DMAXX - 1)
      ensures dice.Highest? ==> Floor() == Straightened(old(Floor()), side, DMAXX - 1)
    {
      hide GrownFrom, InLongRun;
      ghost var start := Floor();
      GrownSelf(false, start);
      for line := 0 to DMAXX - 1
        invariant Valid() && GrownFrom(false, start, Floor())
        invariant Straightens(start, Floor(), side, line)
        invariant dice.Highest? ==> Floor() == Straightened(start, side, line)
        invariant Within(Floor(), Spread(side, b))
        invariant side.Above? ==> forall c :: c in Floor() && c.y >= line ==> c in start
        invariant side.Leftward? ==> forall c :: c in Floor() && c.x >= line ==> c in start
      {
        ghost var u := Floor();
        FillStraight(side, line, start);
        LongRunsOnLine(u, side, line);
        assert Straightens(start, u, side, line);
      }
    }

    method FillStraights(ghost b: Box)
      requires Valid() && Within(Floor(), b)
      modifies dungeon
      ensures Valid() && GrownFrom(false, old(Floor()), Floor())
      ensures Within(Floor(), Box(b.left - 1, b.top - 1, DMAXX - 1, DMAXY - 1))
      ensures StraightsFilled(old(Floor()), Floor())
      ensures dice.Highest? ==> Floor() == StraightenedAll(old(Floor()))
    {
      hide GrownFrom, Straightens, Straightened;
      ghost var s0 := Floor();
      FillSide(Above, b);
      ghost var s1 := Floor();
      FillSide(Below, Box(b.left, b.top - 1, b.right, b.bottom));
      ghost var s2 := Floor();
      GrownTrans(false, s0, s1, s2);
      FillSide(Leftward, Box(b.left, b.top - 1, b.right, DMAXY - 1));
      ghost var s3 := Floor();
      GrownTrans(false, s0, s2, s3);
      FillSide(Rightward, Box(b.left - 1, b.top - 1, b.right, DMAXY - 1));
      GrownTrans(false, s0, s3, Floor());
      assert FourScans(s0, s1, s2, s3, Floor());
    }

    /** The four smoothing passes in order: floor that was one component stays one. */
    method Smooth(ghost b: Box)
      requires Valid() && Within(Floor(), b)
      modifies dungeon
      ensures Valid() && GrownFrom(false, old(Floor()), Floor())
      ensures OneComponent(false, old(Floor())) ==> OneComponent(false, Floor())
      ensures Within(Floor(), Box(b.left - 1, b.top - 1, DMAXX - 1, DMAXY - 1))
      ensures Smoothed(old(Floor()), Floor())
      ensures dice.Highest? ==> SmoothedMost(old(Floor()), Floor())
    {
      hide GrownFrom, OneComponent, DiagsFilled, StraightsFilled, StraightenedAll, Pits;
      ghost var s0 := Floor();
      FillDiags(b);
      ghost var s1 := Floor();
      FillSingles();
      ghost var s2 := Floor();
      PitsGrow(s1, b);
      GrownTrans(false, s0, s1, s2);
      FillStraights(b);
      ghost var s3 := Floor();
      GrownTrans(false, s0, s2, s3);
      FillDiags(Box(b.left - 1, b.top - 1, DMAXX - 1, DMAXY - 1));
      GrownTrans(false, s0, s3, Floor());
      if OneComponent(false, s0) { GrownStaysConnected(false, s0, Floor()); }
    }

    method Edges()
      requires Valid()
      modifies dungeon
      ensures Valid()
      ensures forall c :: c in Floor() <==> c in old(Floor()) && c.x != DMAXX - 1 && c.y != DMAXY - 1
    {
      for j := 0 to DMAXY
        invariant Valid()
        invariant forall c :: c in Floor() <==> c in old(Floor()) && !(c.x == DMAXX - 1 && c.y < j)
      {
        Put(DMAXX - 1, j, 0);
      }
      ghost var s := Floor();
      for i := 0 to DMAXX
        invariant Valid()
        invariant forall c :: c in Floor() <==> c in s && !(c.y == DMAXY - 1 && c.x < i)
      {
        Put(i, DMAXY - 1, 0);
      }
    }

    method FloorArea(x1: int, y1: int, x2: int, y2: int)
      requires Valid() && 0 <= x1 <= x2 < DMAXX && 0 <= y1 <= y2 < DMAXY
      modifies dungeon
      ensures Valid()
      ensures forall c :: c in Floor() <==> c in old(Floor()) || Box(x1, y1, x2, y2).Has(c)
    {
      for j := y1 to y2 + 1
        invariant Valid()
        invariant forall c :: c in Floor() <==> c in old(Floor()) || Box(x1, y1, x2, j - 1).Has(c)
      {
        for i := x1 to x2 + 1
          invariant Valid()
          invariant forall c :: c in Floor() <==>
            c in old(Floor()) || Box(x1, y1, x2, j - 1).Has(c) || Box(x1, j, i - 1, j).Has(c)
        {
          Put(i, j, 1);
        }
      }
    }

    // ------------------------------------------------------- connectivity

    /** The recursive fill. It has no bounds test of its own: it stays in the
        array because no locked cell lies on the outer ring. */
    method LockRec(x: int, y: int)
      requires lockout.Length0 == DMAXX && lockout.Length1 == DMAXY
      requires InGrid(Cell(x, y)) && Within(Locked(), INNER)
      modifies lockout, this`lockoutcnt
      ensures Drained(false, old(Locked()), Locked(), Cell(x, y))
      ensures lockoutcnt == old(lockoutcnt) + |old(Locked()) - Locked()|
      decreases Locked(), 1
    {
      hide Drained, Draining;
      ghost var s, c, base := Locked(), Cell(x, y), lockoutcnt;
      if !lockout[x, y] {
        NothingDrained(s, c);
        return;
      }
      Unlock(x, y);
      lockoutcnt := lockoutcnt + 1;
      LockAround(x, y, s, base);
      DrainEnd(false, s, Locked(), c, {});
    }

    /** The four recursive calls. */
    method LockAround(x: int, y: int, ghost s: set<Cell>, ghost base: int)
      requires lockout.Length0 == DMAXX && lockout.Length1 == DMAXY && Within(s, INNER)
      requires Cell(x, y) in s && Locked() == s - {Cell(x, y)} && Counted(lockoutcnt, base, s, Locked())
      modifies lockout, this`lockoutcnt
      ensures Draining(false, s, Locked(), Cell(x, y), {}) && Counted(lockoutcnt, base, s, Locked())
      decreases Locked(), 3
    {
      hide Draining, Adjacent, Within, Locked, Counted;
      ghost var c := Cell(x, y);
      ghost var four, three, two, one := Neighbours(x, y);
      DrainStart(false, s, c, four);
      LockNext(x, y - 1, s, c, four, three, base);
      LockNext(x, y + 1, s, c, three, two, base);
      LockNext(x - 1, y, s, c, two, one, base);
      LockNext(x + 1, y, s, c, one, {}, base);
    }

    /** `lockout[x][y] = FALSE` */
    method Unlock(x: int, y: int)
      requires lockout.Length0 == DMAXX && lockout.Length1 == DMAXY && InGrid(Cell(x, y)) && Cell(x, y) in Locked()
      modifies lockout
      ensures Locked() == old(Locked()) - {Cell(x, y)}
      ensures |old(Locked()) - Locked()| == 1
    {
      lockout[x, y] := false;
      assert old(Locked()) - Locked() == {Cell(x, y)};
    }

    /** One of the four: the fill from c has `todo` to do before it and `rest` after it. */
    method LockNext(x: int, y: int, ghost s: set<Cell>, ghost c: Cell, ghost todo: set<Cell>, ghost rest: set<Cell>,
        ghost base: int)
      requires lockout.Length0 == DMAXX && lockout.Length1 == DMAXY && Within(s, INNER)
      requires Draining(false, s, Locked(), c, todo) && Adjacent(false, c, Cell(x, y)) && todo <= rest + {Cell(x, y)}
      requires Counted(lockoutcnt, base, s, Locked())
      modifies lockout, this`lockoutcnt
      ensures Locked() <= old(Locked())
      ensures Draining(false, s, Locked(), c, rest) && Counted(lockoutcnt, base, s, Locked())
      decreases Locked(), 2
    {
      hide Draining, Drained, Adjacent, Within, Locked, Counted;
      ghost var left, count := Locked(), lockoutcnt;
      LockReady(s, left, c, Cell(x, y), todo);
      LockRec(x, y);
      LockNote(s, left, Locked(), c, Cell(x, y), todo, rest);
      LockCount(s, left, Locked(), base, count);
    }

    /** `lockout[i][j] = v`, while a scan has reached (i, j). */
    method SetLock(i: int, j: int, v: bool)
      requires lockout.Length0 == DMAXX && lockout.Length1 == DMAXY && InGrid(Cell(i, j))
      modifies lockout
      ensures Part(Locked(), i + 1, j) == Part(old(Locked()), i, j) + if v then {Cell(i, j)} else {}
    {
      ghost var was := Locked();
      lockout[i, j] := v;
      assert Locked() == if v then was + {Cell(i, j)} else was - {Cell(i, j)};
    }

    /** The first half of DRLG_L3Lockout: copies the floor and picks its last cell. */
    method LockFloor() returns (t: int, fx: int, fy: int)
      requires Valid()
      modifies lockout
      ensures Locked() == Floor() && t == |Floor()|
      ensures t != 0 ==> Cell(fx, fy) in Floor()
    {
      hide Part;
      t, fx, fy := 0, 0, 0;
      ghost var s := Floor();
      PartRow(s, 0);
      PartRow(Locked(), 0);
      for j := 0 to DMAXY
        invariant Part(Locked(), 0, j) == Part(s, 0, j) && t == |Part(s, 0, j)|
        invariant t != 0 ==> Cell(fx, fy) in s
      {
        for i := 0 to DMAXX
          invariant Part(Locked(), i, j) == Part(s, i, j) && t == |Part(s, i, j)|
          invariant t != 0 ==> Cell(fx, fy) in s
        {
          PartCell(s, i, j);
          if dungeon[i, j] != 0 {
            SetLock(i, j, true);
            fx := i;
            fy := j;
            t := t + 1;
          } else {
            SetLock(i, j, false);
          }
        }
        PartRow(s, j);
        PartRow(Locked(), j);
      }
      PartAll(s);
      PartAll(Locked());
    }

    /** DRLG_L3Lockout answers whether the floor is one 4-connected component. Its
        start cell is only set when there is floor, which its caller has checked. */
    method Lockout() returns (connected: bool)
      requires Valid() && Within(Floor(), INNER) && Floor() != {}
      modifies lockout, this`lockoutcnt
      ensures connected <==> OneComponent(false, Floor())
    {
      var t, fx, fy := LockFloor();
      assert t != 0;
      lockoutcnt := 0;
      ghost var s := Floor();
      LockRec(fx, fy);
      DrainedIsComponent(false, s, Locked(), Cell(fx, fy));
      ComponentIsAll(false, s, Cell(fx, fy));
      ghost var taken := Component(false, s, Cell(fx, fy));
      assert s - Locked() == taken;
      if |taken| == |s| { SubsetOfEqualSize(taken, s); }
      connected := t == lockoutcnt;
    }

    method InitL3Dungeon()
      requires Valid()
      modifies dungeon
      ensures Valid() && Floor() == {}
    {
      for j := 0 to DMAXY
        invariant Valid() && Part(Floor(), 0, j) == {}
      {
        PartRow(Floor(), j);
        for i := 0 to DMAXX
          invariant Valid() && Part(Floor(), i, j) == {}
        {
          Put(i, j, 0);
          PartCell(Floor(), i, j);
        }
        PartRow(Floor(), j);
      }
      assert Floor() == Part(Floor(), 0, DMAXY);
    }

    /** The rooms of one attempt of DRLG_L3's innermost loop, around a first one. */
    method DigRooms() returns (ghost plan: seq<Room>)
      requires Valid() && Floor() == {}
      modifies dungeon
      ensures Valid() && plan != [] && IsStart(plan[0]) && Grows(plan) && Digs({}, Floor(), plan)
      ensures AllFull(Floor(), plan, dice.Highest?) && (dice.Highest? ==> Solid(Floor(), plan))
    {
      hide Digs, Grows, AllFull, Solid, Growing;
      var x1 := Random(dice, 20);
      var y1 := Random(dice, 20);
      x1, y1 := x1 + 10, y1 + 10;
      var x2, y2 := x1 + 2, y1 + 2;
      var filled := FillRoom(x1, y1, x2, y2);
      ghost var done := {};
      plan := [Room(Box(x1, y1, x2, y2), NOWHERE, true)];
      FirstRoom({}, Floor(), plan[0], dice.Highest?);
      plan, done := Branch(x1, y1, 2, 0, {}, plan, done);
      plan, done := Branch(x2, y1, 2, 1, {}, plan, done);
      plan, done := Branch(x1, y2, 2, 2, {}, plan, done);
      plan, done := Branch(x1, y1, 2, 3, {}, plan, done);
      Finished({}, Floor(), plan, done, dice.Highest?);
    }

    /** The cave before it is smoothed. */
    method DigCave(anvil: bool) returns (ghost plan: seq<Room>, ghost dug: set<Cell>)
      requires Valid()
      modifies dungeon
      ensures Valid() && CaveOf(plan, dug, Floor(), anvil)
      ensures AllFull(dug, plan, dice.Highest?) && (dice.Highest? ==> Solid(dug, plan))
    {
      hide Digs, Grows, AllFull, Solid;
      InitL3Dungeon();
      plan := DigRooms();
      dug := Floor();
      if anvil {
        var x1 := Random(dice, 10);
        var y1 := Random(dice, 10);
        x1, y1 := x1 + 10, y1 + 10;
        FloorArea(x1, y1, x1 + 12, y1 + 12);
        ghost var hall := Hall(x1, y1);
        assert IsHall(hall) && Floor() == dug + hall;
      }
    }

    /** One attempt of DRLG_L3's innermost loop, up to its connectivity verdict.
        Whatever the random source says, no pass leaves the array, the outer ring
        stays clear, and the verdict is exact. The cave is that of `plan`, smoothed,
        without its last row and column. */
    method Attempt(anvil: bool)
      returns (found: bool, ghost plan: seq<Room>, ghost dug: set<Cell>, ghost rough: set<Cell>,
               ghost smooth: set<Cell>)
      requires Valid()
      modifies dungeon, lockout, this`lockoutcnt
      ensures Valid() && Within(Floor(), INNER)
      ensures found <==> |Floor()| >= 600 && OneComponent(false, Floor())
      ensures CaveOf(plan, dug, rough, anvil) && Smoothed(rough, smooth)
      ensures forall c :: c in Floor() <==> c in smooth && c.x != DMAXX - 1 && c.y != DMAXY - 1
      ensures AllFull(dug, plan, dice.Highest?)
      ensures dice.Highest? ==> Solid(dug, plan) && SmoothedMost(rough, smooth)
    {
      hide OneComponent, GrownFrom, CaveOf, Smoothed, SmoothedMost, AllFull, Solid;
      plan, dug := DigCave(anvil);
      rough := Floor();
      CaveIsInside(plan, dug, rough, anvil);
      Smooth(DIGGABLE);
      smooth := Floor();
      Edges();
      var area := GetFloorArea();
      if area >= 600 {
        found := Lockout();
      } else {
        found := false;
      }
    }

    method GetFloorArea() returns (gfa: int)
      requires Valid()
      ensures gfa == |Floor()|
    {
      hide Part;
      gfa := 0;
      ghost var s := Floor();
      PartRow(s, 0);
      for j := 0 to DMAXY
        invariant gfa == |Part(s, 0, j)|
      {
        for i := 0 to DMAXX
          invariant gfa == |Part(s, i, j)|
        {
          PartCell(s, i, j);
          assert dungeon[i, j] != 0 <==> Cell(i, j) in s;
          gfa := gfa + dungeon[i, j];
        }
        PartRow(s, j);
      }
      PartAll(s);
    }
  }

  /** A room that was dug cannot be dug again. */
  lemma NowFilled(s: set<Cell>, t: set<Cell>, r: Box)
    requires CanDig(s, r) && 3 <= r.right - r.left && 3 <= r.bottom - r.top
    requires forall c :: c in s || r.Inside().Has(c) ==> c in t
    ensures s < t && t <= Board() ==> Board() - t < Board() - s
    ensures s < t && forall u :: t <= u ==> !CanDig(u, r)
  {
    assert r.Inside().Has(Cell(r.left + 1, r.top + 1)) && r.Has(Cell(r.left + 1, r.top + 1));
  }

  /** The cells of s that a row-by-row scan meets before (i, j). */
  ghost function Part(s: set<Cell>, i: int, j: int): set<Cell> {
    set c | c in s && InGrid(c) && (c.y < j || (c.y == j && c.x < i))
  }

  /** The neighbours still to be called on, before each of the four calls. */
  lemma Neighbours(x: int, y: int) returns (four: set<Cell>, three: set<Cell>, two: set<Cell>, one: set<Cell>)
    ensures forall b :: Adjacent(false, Cell(x, y), b) ==> b in four
    ensures Adjacent(false, Cell(x, y), Cell(x, y - 1)) && four <= three + {Cell(x, y - 1)}
    ensures Adjacent(false, Cell(x, y), Cell(x, y + 1)) && three <= two + {Cell(x, y + 1)}
    ensures Adjacent(false, Cell(x, y), Cell(x - 1, y)) && two <= one + {Cell(x - 1, y)}
    ensures Adjacent(false, Cell(x, y), Cell(x + 1, y)) && one <= {Cell(x + 1, y)}
  {
    one := {Cell(x + 1, y)};
    two := one + {Cell(x - 1, y)};
    three := two + {Cell(x, y + 1)};
    four := three + {Cell(x, y - 1)};
  }

  /** The counter is base plus the cells taken from s. */
  ghost predicate Counted(count: int, base: int, s: set<Cell>, left: set<Cell>) {
    count == base + |s - left|
  }

  lemma PartIsPart(s: set<Cell>, i: int, j: int)
    ensures Part(s, i, j) <= s
  {}

  lemma PartCell(s: set<Cell>, i: int, j: int)
    requires InGrid(Cell(i, j))
    ensures Part(s, i + 1, j) == Part(s, i, j) + if Cell(i, j) in s then {Cell(i, j)} else {}
    ensures |Part(s, i + 1, j)| == |Part(s, i, j)| + if Cell(i, j) in s then 1 else 0
  {
    assert Part(s, i + 1, j) == Part(s, i, j) + if Cell(i, j) in s then {Cell(i, j)} else {};
  }

  lemma PartRow(s: set<Cell>, j: int)
    ensures Part(s, DMAXX, j) == Part(s, 0, j + 1)
    ensures Part(s, 0, 0) == {}
  {}

  lemma PitsOfRow(s: set<Cell>, j: int)
    ensures Part(Pits(s), 1, j) == Part(Pits(s), 0, j)
    ensures Part(Pits(s), DMAXX - 1, j) == Part(Pits(s), 0, j + 1)
    ensures Part(Pits(s), 0, 1) == {}
    ensures Part(Pits(s), 0, DMAXY - 1) == Pits(s)
  {}

  lemma PartAll(s: set<Cell>)
    requires s <= Board()
    ensures Part(s, 0, DMAXY) == s
  {}

  lemma SubsetOfEqualSize(a: set<Cell>, b: set<Cell>)
    requires a <= b && |a| == |b|
    ensures a == b
  {
    assert |b - a| == |b| - |a|;
  }

  lemma NothingDrained(s: set<Cell>, c: Cell)
    requires c !in s
    ensures Drained(false, s, s, c) && |s - s| == 0
  {
    assert s - s == {};
  }

  lemma LockReady(s: set<Cell>, left: set<Cell>, c: Cell, n: Cell, todo: set<Cell>)
    requires Within(s, INNER) && Draining(false, s, left, c, todo) && Adjacent(false, c, n)
    ensures InGrid(n) && Within(left, INNER)
  {}

  lemma LockNote(s: set<Cell>, left: set<Cell>, next: set<Cell>, c: Cell, n: Cell, todo: set<Cell>, rest: set<Cell>)
    requires Draining(false, s, left, c, todo) && Adjacent(false, c, n) && Drained(false, left, next, n)
    requires todo <= rest + {n}
    ensures Draining(false, s, next, c, rest) && next <= left <= s
  {
    DrainStep(false, s, left, next, c, n, todo);
  }

  lemma LockCount(s: set<Cell>, left: set<Cell>, next: set<Cell>, base: int, count: int)
    requires next <= left <= s && Counted(count, base, s, left)
    ensures Counted(count + |left - next|, base, s, next)
  {
    assert s - next == (s - left) + (left - next);
  }
}
