/** Connectivity over the cells of a grid, with or without diagonal steps. */
module Grid {

  datatype Cell = Cell(x: int, y: int)

  /** The tiles of a level. */
  const DMAXX := 40
  const DMAXY := 40

  predicate InGrid(c: Cell) {
    0 <= c.x < DMAXX && 0 <= c.y < DMAXY
  }

  ghost function Board(): (b: set<Cell>)
    ensures forall c :: c in b <==> InGrid(c)
  {
    var b := set i, j | 0 <= i < DMAXX && 0 <= j < DMAXY :: Cell(i, j);
    assert forall c: Cell :: InGrid(c) ==> c == Cell(c.x, c.y);
    b
  }

  predicate Adjacent(diagonal: bool, a: Cell, b: Cell) {
    var dx, dy := b.x - a.x, b.y - a.y;
    -1 <= dx <= 1 && -1 <= dy <= 1 && a != b && (diagonal || dx == 0 || dy == 0)
  }

  ghost predicate IsPath(diagonal: bool, s: set<Cell>, p: seq<Cell>) {
    && p != []
    && (forall i :: 0 <= i < |p| ==> p[i] in s)
    && (forall i :: 0 < i < |p| ==> Adjacent(diagonal, p[i - 1], p[i]))
  }

  ghost predicate Joins(diagonal: bool, s: set<Cell>, p: seq<Cell>, a: Cell, b: Cell) {
    IsPath(diagonal, s, p) && p[0] == a && p[|p| - 1] == b
  }

  ghost predicate Connected(diagonal: bool, s: set<Cell>, a: Cell, b: Cell) {
    exists p :: Joins(diagonal, s, p, a, b)
  }

  ghost function Component(diagonal: bool, s: set<Cell>, a: Cell): set<Cell> {
    set b | b in s && Connected(diagonal, s, a, b)
  }

  /** The cells of s form one component (or none). */
  ghost predicate OneComponent(diagonal: bool, s: set<Cell>) {
    forall a, b :: a in s && b in s ==> Connected(diagonal, s, a, b)
  }

  // ------------------------------------------------- an equivalence relation

  lemma ConnectedSelf(diagonal: bool, s: set<Cell>, a: Cell)
    requires a in s
    ensures Connected(diagonal, s, a, a)
  {
    assert Joins(diagonal, s, [a], a, a);
  }

  lemma ConnectedEnds(diagonal: bool, s: set<Cell>, a: Cell, b: Cell)
    requires Connected(diagonal, s, a, b)
    ensures a in s && b in s
  {}

  lemma ConnectedStep(diagonal: bool, s: set<Cell>, a: Cell, b: Cell, c: Cell)
    requires Connected(diagonal, s, a, b) && Adjacent(diagonal, b, c) && c in s
    ensures Connected(diagonal, s, a, c)
  {
    var p :| Joins(diagonal, s, p, a, b);
    assert Joins(diagonal, s, p + [c], a, c);
  }

  lemma ConnectedTrans(diagonal: bool, s: set<Cell>, a: Cell, b: Cell, c: Cell)
    requires Connected(diagonal, s, a, b) && Connected(diagonal, s, b, c)
    ensures Connected(diagonal, s, a, c)
  {
    var p :| Joins(diagonal, s, p, a, b);
    var q :| Joins(diagonal, s, q, b, c);
    assert Joins(diagonal, s, p + q[1..], a, c);
  }

  lemma ConnectedSym(diagonal: bool, s: set<Cell>, a: Cell, b: Cell)
    requires Connected(diagonal, s, a, b)
    ensures Connected(diagonal, s, b, a)
  {
    var p :| Joins(diagonal, s, p, a, b);
    var q := seq(|p|, i requires 0 <= i < |p| => p[|p| - 1 - i]);
    assert Joins(diagonal, s, q, b, a);
  }

  lemma ConnectedMono(diagonal: bool, s: set<Cell>, t: set<Cell>, a: Cell, b: Cell)
    requires s <= t && Connected(diagonal, s, a, b)
    ensures Connected(diagonal, t, a, b)
  {
    var p :| Joins(diagonal, s, p, a, b);
    assert Joins(diagonal, t, p, a, b);
  }

  // ---------------------------------------------------------- closed subsets

  /** No step inside s leads out of `part`. */
  ghost predicate Closed(diagonal: bool, s: set<Cell>, part: set<Cell>) {
    forall a, b :: a in part && b in s && Adjacent(diagonal, a, b) ==> b in part
  }

  lemma {:induction false} ClosedHoldsPaths(diagonal: bool, s: set<Cell>, part: set<Cell>, p: seq<Cell>)
    requires Closed(diagonal, s, part) && IsPath(diagonal, s, p) && p[0] in part
    ensures p[|p| - 1] in part
  {
    if |p| > 1 {
      ClosedHoldsPaths(diagonal, s, part, p[1..]);
    }
  }

  lemma {:induction false} ClosedHoldsWholePaths(diagonal: bool, s: set<Cell>, part: set<Cell>, p: seq<Cell>)
    requires Closed(diagonal, s, part) && IsPath(diagonal, s, p) && p[0] in part
    ensures IsPath(diagonal, part, p)
  {
    if |p| > 1 {
      ClosedHoldsWholePaths(diagonal, s, part, p[1..]);
      assert forall i :: 0 < i < |p| ==> p[i] == p[1..][i - 1];
    }
  }

  /** A component can be found inside any closed part that holds its start. */
  lemma ComponentInClosed(diagonal: bool, s: set<Cell>, part: set<Cell>, a: Cell)
    requires part <= s && a in part && Closed(diagonal, s, part)
    ensures Component(diagonal, part, a) == Component(diagonal, s, a)
  {
    forall b | b in s && Connected(diagonal, s, a, b) ensures Connected(diagonal, part, a, b) && b in part {
      var p :| Joins(diagonal, s, p, a, b);
      ClosedHoldsWholePaths(diagonal, s, part, p);
      assert Joins(diagonal, part, p, a, b);
    }
    forall b | b in part && Connected(diagonal, part, a, b) ensures Connected(diagonal, s, a, b) {
      ConnectedMono(diagonal, part, s, a, b);
    }
  }

  /** A closed part that can be reached from one of its cells is that cell's component. */
  lemma ClosedIsComponent(diagonal: bool, s: set<Cell>, part: set<Cell>, a: Cell)
    requires part <= s && a in part && Closed(diagonal, s, part)
    requires forall b :: b in part ==> Connected(diagonal, s, a, b)
    ensures part == Component(diagonal, s, a)
  {
    forall b | b in Component(diagonal, s, a) ensures b in part {
      var p :| Joins(diagonal, s, p, a, b);
      ClosedHoldsPaths(diagonal, s, part, p);
    }
  }

  lemma ComponentIsAll(diagonal: bool, s: set<Cell>, a: Cell)
    requires a in s
    ensures Component(diagonal, s, a) == s <==> OneComponent(diagonal, s)
  {
    if Component(diagonal, s, a) == s {
      forall b, c | b in s && c in s ensures Connected(diagonal, s, b, c) {
        assert b in Component(diagonal, s, a) && c in Component(diagonal, s, a);
        ConnectedSym(diagonal, s, a, b);
        ConnectedTrans(diagonal, s, b, a, c);
      }
    }
  }

  /** Components of one set are equal or disjoint. */
  lemma SameComponent(diagonal: bool, s: set<Cell>, a: Cell, b: Cell)
    requires a in s && b in s
    ensures Component(diagonal, s, a) == Component(diagonal, s, b) <==> Connected(diagonal, s, a, b)
    ensures !Connected(diagonal, s, a, b) ==> Component(diagonal, s, a) !! Component(diagonal, s, b)
  {
    ConnectedSelf(diagonal, s, b);
    if Connected(diagonal, s, a, b) {
      ConnectedSym(diagonal, s, a, b);
      forall c | c in s ensures Connected(diagonal, s, a, c) <==> Connected(diagonal, s, b, c) {
        if Connected(diagonal, s, a, c) { ConnectedTrans(diagonal, s, b, a, c); }
        if Connected(diagonal, s, b, c) { ConnectedTrans(diagonal, s, a, b, c); }
      }
    } else {
      assert b !in Component(diagonal, s, a) && b in Component(diagonal, s, b);
      forall c | c in Component(diagonal, s, a) && c in Component(diagonal, s, b) ensures false {
        ConnectedSym(diagonal, s, b, c);
        ConnectedTrans(diagonal, s, a, c, b);
      }
    }
  }

  // ------------------------------------------------------------ flood fills

  /** What a recursive fill from c leaves of s: everything it took is reachable
      from c, and nothing next to what it took is left. */
  ghost predicate Drained(diagonal: bool, s: set<Cell>, left: set<Cell>, c: Cell) {
    && left <= s && c !in left
    && (forall b :: b in s && b !in left ==> Connected(diagonal, s, c, b))
    && (forall a, b :: a in s && a !in left && Adjacent(diagonal, a, b) ==> b !in left)
  }

  lemma DrainedIsComponent(diagonal: bool, s: set<Cell>, left: set<Cell>, c: Cell)
    requires Drained(diagonal, s, left, c)
    ensures c in s ==> left == s - Component(diagonal, s, c)
    ensures c !in s ==> left == s
  {
    if c in s {
      ClosedIsComponent(diagonal, s, s - left, c);
      assert left == s - (s - left);
    } else {
      forall b | b in s ensures b in left {
        if b !in left {
          ConnectedEnds(diagonal, s, c, b);
        }
      }
    }
  }

  /** A fill in progress from c: some neighbours of c are done, the rest are not. */
  ghost predicate Draining(diagonal: bool, s: set<Cell>, left: set<Cell>, c: Cell, todo: set<Cell>) {
    && c in s && left <= s && c !in left
    && (forall b :: b in s && b !in left ==> Connected(diagonal, s, c, b))
    && (forall a, b :: a in s && a !in left && a != c && Adjacent(diagonal, a, b) ==> b !in left)
    && (forall b :: Adjacent(diagonal, c, b) && b !in todo ==> b !in left)
  }

  lemma DrainStart(diagonal: bool, s: set<Cell>, c: Cell, todo: set<Cell>)
    requires c in s
    requires forall b :: Adjacent(diagonal, c, b) ==> b in todo
    ensures Draining(diagonal, s, s - {c}, c, todo)
  {
    ConnectedSelf(diagonal, s, c);
  }

  /** One recursive call, from the neighbour n, brings the fill from c further. */
  lemma DrainStep(diagonal: bool, s: set<Cell>, left: set<Cell>, next: set<Cell>, c: Cell, n: Cell, todo: set<Cell>)
    requires Draining(diagonal, s, left, c, todo) && Adjacent(diagonal, c, n)
    requires Drained(diagonal, left, next, n)
    ensures Draining(diagonal, s, next, c, todo - {n})
  {
    forall b | b in s - next ensures Connected(diagonal, s, c, b) {
      if b in left {
        ConnectedEnds(diagonal, left, n, b);
        ConnectedMono(diagonal, left, s, n, b);
        ConnectedSelf(diagonal, s, c);
        ConnectedStep(diagonal, s, c, c, n);
        ConnectedTrans(diagonal, s, c, n, b);
      }
    }
  }

  lemma DrainEnd(diagonal: bool, s: set<Cell>, left: set<Cell>, c: Cell, todo: set<Cell>)
    requires Draining(diagonal, s, left, c, todo) && todo == {}
    ensures Drained(diagonal, s, left, c)
  {}

  // ------------------------------------------------- growth keeps connection

  /** c hangs together, through t, with some cell of s. */
  ghost predicate Rooted(diagonal: bool, s: set<Cell>, t: set<Cell>, c: Cell) {
    exists a :: a in s && Connected(diagonal, t, a, c)
  }

  /** t grew out of s: nothing was lost, and every cell of t hangs together
      with some cell of s. */
  ghost predicate GrownFrom(diagonal: bool, s: set<Cell>, t: set<Cell>) {
    s <= t && forall c :: c in t ==> Rooted(diagonal, s, t, c)
  }

  lemma GrownSelf(diagonal: bool, s: set<Cell>)
    ensures GrownFrom(diagonal, s, s)
  {
    forall c | c in s ensures Rooted(diagonal, s, s, c) {
      ConnectedSelf(diagonal, s, c);
    }
  }

  lemma RootedMono(diagonal: bool, s: set<Cell>, t: set<Cell>, u: set<Cell>, c: Cell)
    requires t <= u && Rooted(diagonal, s, t, c)
    ensures Rooted(diagonal, s, u, c)
  {
    var a :| a in s && Connected(diagonal, t, a, c);
    ConnectedMono(diagonal, t, u, a, c);
  }

  lemma RootedStep(diagonal: bool, s: set<Cell>, t: set<Cell>, b: Cell, c: Cell)
    requires Rooted(diagonal, s, t, b) && Adjacent(diagonal, b, c) && c in t
    ensures Rooted(diagonal, s, t, c)
  {
    var a :| a in s && Connected(diagonal, t, a, b);
    ConnectedStep(diagonal, t, a, b, c);
  }

  lemma RootedTrans(diagonal: bool, s: set<Cell>, t: set<Cell>, u: set<Cell>, c: Cell)
    requires GrownFrom(diagonal, s, t) && t <= u && Rooted(diagonal, t, u, c)
    ensures Rooted(diagonal, s, u, c)
  {
    hide Connected;
    var b :| b in t && Connected(diagonal, u, b, c);
    RootedMono(diagonal, s, t, u, b);
    var a :| a in s && Connected(diagonal, u, a, b);
    ConnectedTrans(diagonal, u, a, b, c);
  }

  lemma GrownByNeighbour(diagonal: bool, s: set<Cell>, t: set<Cell>, b: Cell, c: Cell)
    requires GrownFrom(diagonal, s, t) && b in t && Adjacent(diagonal, b, c)
    ensures GrownFrom(diagonal, s, t + {c})
  {
    hide Rooted;
    forall d | d in t + {c} ensures Rooted(diagonal, s, t + {c}, d) {
      RootedMono(diagonal, s, t, t + {c}, if d in t then d else b);
      if d !in t { RootedStep(diagonal, s, t + {c}, b, c); }
    }
  }

  lemma GrownTrans(diagonal: bool, s: set<Cell>, t: set<Cell>, u: set<Cell>)
    requires GrownFrom(diagonal, s, t) && GrownFrom(diagonal, t, u)
    ensures GrownFrom(diagonal, s, u)
  {
    hide Rooted;
    forall d | d in u ensures Rooted(diagonal, s, u, d) {
      RootedTrans(diagonal, s, t, u, d);
    }
  }

  /** Growing never splits: what was in one component stays in one component. */
  lemma GrownStaysConnected(diagonal: bool, s: set<Cell>, t: set<Cell>)
    requires GrownFrom(diagonal, s, t) && OneComponent(diagonal, s)
    ensures OneComponent(diagonal, t)
  {
    hide Connected, Rooted;
    forall b, c | b in t && c in t ensures Connected(diagonal, t, b, c) {
      JoinedByRoots(diagonal, s, t, b, c);
    }
  }

  lemma JoinedByRoots(diagonal: bool, s: set<Cell>, t: set<Cell>, b: Cell, c: Cell)
    requires s <= t && OneComponent(diagonal, s) && Rooted(diagonal, s, t, b) && Rooted(diagonal, s, t, c)
    ensures Connected(diagonal, t, b, c)
  {
    hide Connected;
    var a :| a in s && Connected(diagonal, t, a, b);
    var d :| d in s && Connected(diagonal, t, d, c);
    ConnectedMono(diagonal, s, t, a, d);
    ConnectedSym(diagonal, t, a, b);
    ConnectedTrans(diagonal, t, b, a, d);
    ConnectedTrans(diagonal, t, b, d, c);
  }
}
