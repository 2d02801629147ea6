/** The light list of Source/lighting.cpp: slots, and the pass that redraws the lights. */
module Lights {
  import opened CInt
  import opened Lamps
  import opened LightTables
  import Counting

  /** A slot: the light, whether it is to go, and where it has to be taken back. */
  datatype Light = Light(lx: int, ly: int, lradius: int, ldel: bool, lunflag: bool, lunx: int, luny: int, lunr: int,
                         xoff: int, yoff: int)

  function LampOf(l: Light): Lamp {
    Lamp(l.lx, l.ly, l.lradius, l.xoff, l.yoff)
  }

  /** Every slot number once. */
  predicate Permutation(a: seq<int>) {
    |a| == MAXLIGHTS && Counting.IsPermutation(a)
  }

  /** All 32 slots are in a permutation. */
  lemma EverySlotListed(a: seq<int>, id: int)
    requires Permutation(a) && 0 <= id < MAXLIGHTS
    ensures id in a
  {
    var all := Counting.Below(MAXLIGHTS);
    if id !in a {
      Counting.DistinctCount(a, all - {id});
    }
  }

  /** The first n entries. */
  function Ids(a: seq<int>, n: nat): (s: set<int>)
    requires n <= |a|
  {
    set k | 0 <= k < n :: a[k]
  }

  lemma IdCount(a: seq<int>, n: nat)
    requires Permutation(a) && n <= MAXLIGHTS
    ensures |Ids(a, n)| == n
  {
    forall x | x in a[..n] ensures x in Ids(a, n) {
      var k :| 0 <= k < n && a[k] == x;
    }
    Counting.DistinctCount(a[..n], Ids(a, n));
  }

  /** A square to be taken back: under a light that goes, or under where one has been. */
  predicate Stale(l: Light, x: int, y: int) {
    (l.ldel && InSquare(l.lx, l.ly, l.lradius, x, y)) || (l.lunflag && InSquare(l.lunx, l.luny, l.lunr, x, y))
  }

  predicate Covered(lights: seq<Light>, ids: set<int>, x: int, y: int)
    requires forall id :: id in ids ==> 0 <= id < |lights|
  {
    exists id :: id in ids && Stale(lights[id], x, y)
  }

  /** The lights that stay, in the order of the list. */
  function Kept(lights: seq<Light>, a: seq<int>, n: nat): (ls: seq<Lamp>)
    requires n <= |a| && forall k :: 0 <= k < n ==> 0 <= a[k] < |lights|
  {
    if n == 0 then []
    else Kept(lights, a, n - 1) + if lights[a[n - 1]].ldel then [] else [LampOf(lights[a[n - 1]])]
  }

  lemma {:induction false} KeptAre(lights: seq<Light>, a: seq<int>, n: nat)
    requires n <= |a| && forall k :: 0 <= k < n ==> 0 <= a[k] < |lights|
    ensures forall l :: l in Kept(lights, a, n) <==>
      exists id :: id in Ids(a, n) && !lights[id].ldel && l == LampOf(lights[id])
  {
    if n > 0 {
      KeptAre(lights, a, n - 1);
      assert Ids(a, n) == Ids(a, n - 1) + {a[n - 1]};
    }
  }

  predicate AllOk(lights: seq<Light>, ids: set<int>) {
    forall id :: id in ids ==> 0 <= id < |lights| && LampOk(LampOf(lights[id]))
  }

  /** Square (x, y) of the redrawn picture: `shade` where nothing is stale, `pre` where
      something is, under the lights that stay. */
  ghost function Redrawn(t: Tables, shade: int, pre: int, lights: seq<Light>, a: seq<int>, n: nat, x: int, y: int): int
    requires TablesOk(t) && n <= |a| && AllOk(lights, Ids(a, n))
  {
    assert forall k :: 0 <= k < n ==> a[k] in Ids(a, n);
    KeptAre(lights, a, n);
    RelitAt(t, if Covered(lights, Ids(a, n), x, y) then pre else shade, Kept(lights, a, n), x, y)
  }

  /** The picture depends on which lights are live, not on their order in the list. */
  lemma RedrawnInAnyOrder(t: Tables, shade: int, pre: int, lights: seq<Light>, a: seq<int>, n: nat, b: seq<int>,
                          m: nat, x: int, y: int)
    requires TablesOk(t) && n <= |a| && m <= |b| && Ids(a, n) == Ids(b, m) && AllOk(lights, Ids(a, n))
    ensures Redrawn(t, shade, pre, lights, a, n, x, y) == Redrawn(t, shade, pre, lights, b, m, x, y)
  {
    hide Kept, RelitAt, Ids;
    SlotsOk(lights, a, n);
    SlotsOk(lights, b, m);
    KeptAre(lights, a, n);
    KeptAre(lights, b, m);
    var p := if Covered(lights, Ids(a, n), x, y) then pre else shade;
    RelitInAnyOrder(t, p, Kept(lights, a, n), Kept(lights, b, m), x, y);
  }

  lemma SlotsOk(lights: seq<Light>, a: seq<int>, n: nat)
    requires n <= |a| && AllOk(lights, Ids(a, n))
    ensures forall k :: 0 <= k < n ==> 0 <= a[k] < |lights|
  {
    assert forall k :: 0 <= k < n ==> a[k] in Ids(a, n);
  }

  /** Marks where the light is as a place to be taken back. */
  function Moved(l: Light): Light {
    l.(lunflag := true, lunx := l.lx, luny := l.ly, lunr := l.lradius)
  }

  /** What the pass over this slot does about a lamp that was drawn before: it draws it
      again, or takes back the square around it. */
  predicate Tracks(slot: Light, l: Lamp) {
    || (!slot.ldel && LampOf(slot) == l)
    || (slot.ldel && (slot.lx, slot.ly, slot.lradius) == (l.x, l.y, l.r))
    || (slot.lunflag && (slot.lunx, slot.luny, slot.lunr) == (l.x, l.y, l.r))
  }

  predicate LampsOk(ls: seq<Lamp>) {
    forall l :: l in ls ==> LampOk(l)
  }

  /** Square (x, y) is taken back, or no lamp drawn before makes it brighter than the new
      picture is. */
  ghost predicate NothingLeft(t: Tables, pre: int, drawn: seq<Lamp>, lights: seq<Light>, a: seq<int>, n: nat, x: int,
                              y: int)
    requires TablesOk(t) && n <= |a| && AllOk(lights, Ids(a, n)) && LampsOk(drawn)
  {
    || Covered(lights, Ids(a, n), x, y)
    || forall l :: l in drawn ==> Spot(t, l, x, y) >= Fresh(t, pre, lights, a, n, x, y)
  }

  /** Square (x, y) of a picture drawn from scratch. */
  ghost function Fresh(t: Tables, pre: int, lights: seq<Light>, a: seq<int>, n: nat, x: int, y: int): int
    requires TablesOk(t) && n <= |a| && AllOk(lights, Ids(a, n))
  {
    KeptOk(lights, a, n);
    RelitAt(t, pre, Kept(lights, a, n), x, y)
  }

  lemma KeptOk(lights: seq<Light>, a: seq<int>, n: nat)
    requires n <= |a| && AllOk(lights, Ids(a, n))
    ensures forall k :: 0 <= k < n ==> 0 <= a[k] < |lights|
    ensures LampsOk(Kept(lights, a, n))
  {
    SlotsOk(lights, a, n);
    KeptAre(lights, a, n);
  }

  /** A square redrawn over the lamps of the last picture is as if drawn from scratch
      exactly when nothing of them is left. */
  lemma RedrawnIsFresh(t: Tables, pre: int, drawn: seq<Lamp>, lights: seq<Light>, a: seq<int>, n: nat, x: int, y: int)
    requires TablesOk(t) && n <= |a| && AllOk(lights, Ids(a, n)) && LampsOk(drawn)
    ensures Redrawn(t, RelitAt(t, pre, drawn, x, y), pre, lights, a, n, x, y) == Fresh(t, pre, lights, a, n, x, y)
            <==> NothingLeft(t, pre, drawn, lights, a, n, x, y)
  {
    hide Kept, RelitAt, Ids, Covered, Spot;
    KeptOk(lights, a, n);
    var kept, old' := Kept(lights, a, n), RelitAt(t, pre, drawn, x, y);
    RelitIsBrightest(t, pre, drawn, x, y);
    RelitIsBrightest(t, pre, kept, x, y);
    RelitIsBrightest(t, old', kept, x, y);
  }

  /** What a caller can see beforehand is enough: every lamp drawn before is tracked by a
      live slot, and none of them reaches out of the square that is taken back for it. */
  lemma TrackedLeaveNothing(t: Tables, pre: int, drawn: seq<Lamp>, lights: seq<Light>, a: seq<int>, n: nat, x: int,
                            y: int)
    requires TablesOk(t) && n <= |a| && AllOk(lights, Ids(a, n)) && LampsOk(drawn)
    requires forall l :: l in drawn ==> exists id :: id in Ids(a, n) && Tracks(lights[id], l)
    requires forall l :: l in drawn && !InSquare(l.x, l.y, l.r, x, y) ==> Spot(t, l, x, y) >= pre
    ensures NothingLeft(t, pre, drawn, lights, a, n, x, y)
  {
    hide Kept, RelitAt, Ids, Spot, InSquare;
    KeptOk(lights, a, n);
    KeptAre(lights, a, n);
    RelitIsBrightest(t, pre, Kept(lights, a, n), x, y);
    forall l | l in drawn && !Covered(lights, Ids(a, n), x, y)
      ensures Spot(t, l, x, y) >= Fresh(t, pre, lights, a, n, x, y)
    {
      var id :| id in Ids(a, n) && Tracks(lights[id], l);
      assert !Stale(lights[id], x, y);
    }
  }

  class Lighting {
    const lightactive: array<int>
    const LightList: array<Light>
    const dLight: array2<shade>
    const dPreLight: array2<shade>
    const tables: Tables
    var numlights: int
    var dolighting: bool
    var lightflag: bool
    ghost var drawn: seq<Lamp>  // the lamps of the picture in dLight

    ghost predicate Shaped() {
      && lightactive.Length == MAXLIGHTS && LightList.Length == MAXLIGHTS && TablesOk(tables) && dLight != dPreLight
      && dLight.Length0 == MAXDUN && dLight.Length1 == MAXDUN && dPreLight.Length0 == MAXDUN
      && dPreLight.Length1 == MAXDUN
    }

    ghost function Live(): set<int>
      requires Shaped() && 0 <= numlights <= MAXLIGHTS
      reads this, lightactive
    {
      Ids(lightactive[..], numlights)
    }

    /** The list is a permutation of the slots with the live ones in front, and unless a
        pass is due no live light waits to be deleted or taken back. */
    ghost predicate Valid()
      reads this, lightactive, LightList
    {
      && LampsOk(drawn)
      && Shaped() && 0 <= numlights <= MAXLIGHTS && Permutation(lightactive[..])
      && AllOk(LightList[..], Live())
      && (!dolighting ==> forall id :: id in Live() ==> !LightList[..][id].ldel && !LightList[..][id].lunflag)
    }

    /** The picture is the map's own shades under the lamps drawn on it. */
    ghost predicate Accurate()
      requires Valid()
      reads this, lightactive, LightList, dLight, dPreLight
    {
      forall x, y :: OnMap(x, y) ==> dLight[x, y] == RelitAt(tables, dPreLight[x, y], drawn, x, y)
    }

    /** The lamps drawn on it are those of the live lights. */
    ghost predicate ShowsLive()
      requires Valid()
      reads this, lightactive, LightList
    {
      forall l :: l in drawn <==> exists id :: id in Live() && l == LampOf(LightList[..][id])
    }

    /** Each of them is redrawn or taken back by the next pass. */
    ghost predicate Tracked()
      requires Valid()
      reads this, lightactive, LightList
    {
      forall l :: l in drawn ==> exists id :: id in Live() && Tracks(LightList[..][id], l)
    }

    /** None of them reaches out of its own square. */
    ghost predicate Enclosed()
      requires Valid()
      reads this, lightactive, LightList, dPreLight
    {
      forall l, x, y :: l in drawn && OnMap(x, y) && !InSquare(l.x, l.y, l.r, x, y) ==>
        Spot(tables, l, x, y) >= dPreLight[x, y]
    }

    /** The next pass leaves nothing of them behind. */
    ghost predicate TakesBack()
      requires Valid()
      reads this, lightactive, LightList, dPreLight
    {
      forall x, y :: OnMap(x, y) ==>
        NothingLeft(tables, dPreLight[x, y], drawn, LightList[..], lightactive[..], numlights, x, y)
    }

    lemma TrackedTakesBack()
      requires Valid() && Tracked() && Enclosed()
      ensures TakesBack()
    {
      forall x, y | OnMap(x, y)
        ensures NothingLeft(tables, dPreLight[x, y], drawn, LightList[..], lightactive[..], numlights, x, y)
      {
        TrackedLeaveNothing(tables, dPreLight[x, y], drawn, LightList[..], lightactive[..], numlights, x, y);
      }
    }

    /** With the game's tables, lamps that are not moved too far for their radius reach no
        further than their squares. */
    lemma BeamsAreEnclosed()
      requires Valid() && tables == GameTables()
      requires forall l :: l in drawn ==> BeamInside(l)
      requires forall x, y :: OnMap(x, y) ==> dPreLight[x, y] <= 15
      ensures Enclosed()
    {
      hide GameTables, Spot, BeamInside;
      forall l, x, y | l in drawn && OnMap(x, y) && !InSquare(l.x, l.y, l.r, x, y)
        ensures Spot(tables, l, x, y) >= dPreLight[x, y]
      {
        BeamStaysInside(l, x, y);
      }
    }

    constructor (t: Tables, pre: array2<shade>)
      requires TablesOk(t) && pre.Length0 == MAXDUN && pre.Length1 == MAXDUN
      ensures Valid() && Live() == {} && fresh(this) && dPreLight == pre
    {
      tables, dPreLight := t, pre;
      lightactive := new int[MAXLIGHTS](i => i);
      LightList := new Light[MAXLIGHTS](_ => Light(0, 0, 0, false, false, 0, 0, 0, 0, 0));
      dLight := new shade[MAXDUN, MAXDUN]((i, j) => 0);
      numlights, dolighting, lightflag, drawn := 0, false, false, [];
    }

    /** `InitLighting` */
    method InitLighting()
      requires Shaped()
      modifies this, lightactive
      ensures Valid() && Live() == {} && !dolighting && !lightflag
    {
      numlights, dolighting, lightflag, drawn := 0, false, false, [];
      for i := 0 to MAXLIGHTS
        invariant forall k :: 0 <= k < i ==> lightactive[k] == k
        invariant numlights == 0 && !dolighting && !lightflag && drawn == []
      {
        lightactive[i] := i;
      }
    }

    /** `SavePreLighting`: whatever is in the picture now is the map's own. */
    method SavePreLighting()
      requires Valid()
      modifies this`drawn, dPreLight
      ensures Valid() && Accurate() && Tracked() && drawn == []
      ensures forall x, y :: OnMap(x, y) ==> dPreLight[x, y] == dLight[x, y]
    {
      drawn := [];
      forall x, y | 0 <= x < MAXDUN && 0 <= y < MAXDUN {
        dPreLight[x, y] := dLight[x, y];
      }
    }

    /** `AddLight`: a slot that no live light has, or -1 when there is none. */
    method AddLight(x: int, y: int, r: int) returns (lid: int)
      requires Valid() && 0 <= r < 16
      modifies this`numlights, this`dolighting, LightList
      ensures Valid()
      ensures old(Tracked()) ==> Tracked()
      ensures lid == -1 <==> lightflag || |old(Live())| == MAXLIGHTS
      ensures lid == -1 ==>
        Live() == old(Live()) && LightList[..] == old(LightList[..]) && dolighting == old(dolighting)
      ensures lid != -1 ==>
        && 0 <= lid < MAXLIGHTS && lid !in old(Live()) && Live() == old(Live()) + {lid} && dolighting
        && LampOf(LightList[lid]) == Lamp(x, y, r, 0, 0) && !LightList[lid].ldel && !LightList[lid].lunflag
        && forall id :: 0 <= id < MAXLIGHTS && id != lid ==> LightList[id] == old(LightList[id])
    {
      hide Ids, Permutation;
      IdCount(lightactive[..], numlights);
      SlotsFit(lightactive[..]);
      if lightflag {
        return -1;
      }
      lid := -1;
      if numlights < MAXLIGHTS {
        NextId(lightactive[..], numlights);
        lid := lightactive[numlights];
        numlights := numlights + 1;
        var l := LightList[lid];
        LightList[lid] := l.(lx := x, ly := y, lradius := r, xoff := 0, yoff := 0, ldel := false, lunflag := false);
        dolighting := true;
      }
    }

    /** `AddUnLight` */
    method AddUnLight(i: int)
      requires Valid() && (i == -1 || 0 <= i < MAXLIGHTS)
      modifies this`dolighting, LightList
      ensures Valid() && Live() == old(Live()) && (old(Tracked()) ==> Tracked())
      ensures lightflag || i == -1 ==> LightList[..] == old(LightList[..]) && dolighting == old(dolighting)
      ensures !lightflag && i != -1 ==>
        dolighting && LightList[..] == old(LightList[..])[i := old(LightList[i]).(ldel := true)]
    {
      if lightflag || i == -1 {
        return;
      }
      LightList[i] := LightList[i].(ldel := true);
      dolighting := true;
    }

    /** `ChangeLight` */
    method ChangeLight(i: int, x: int, y: int, r: int)
      requires Valid() && (i == -1 || 0 <= i < MAXLIGHTS) && 0 <= r < 16
      modifies this`dolighting, LightList
      ensures Valid() && Live() == old(Live())
      ensures lightflag || i == -1 ==> LightList[..] == old(LightList[..]) && dolighting == old(dolighting)
      ensures !lightflag && i != -1 ==>
        && dolighting
        && LightList[..] == old(LightList[..])[i := Moved(old(LightList[i])).(lx := x, ly := y, lradius := r)]
      ensures old(Tracked()) && (i == -1 || !old(LightList[i]).lunflag) ==> Tracked()
    {
      if lightflag || i == -1 {
        return;
      }
      var l := LightList[i];
      LightList[i] := l.(lunflag := true, lunx := l.lx, luny := l.ly, lunr := l.lradius);
      LightList[i] := LightList[i].(lx := x, ly := y, lradius := r);
      dolighting := true;
    }

    /** `ChangeLightOff` */
    method ChangeLightOff(i: int, x: int, y: int)
      requires Valid() && (i == -1 || 0 <= i < MAXLIGHTS) && -8 <= x < 8 && -8 <= y < 8
      modifies this`dolighting, LightList
      ensures Valid() && Live() == old(Live())
      ensures lightflag || i == -1 ==> LightList[..] == old(LightList[..]) && dolighting == old(dolighting)
      ensures !lightflag && i != -1 ==>
        dolighting && LightList[..] == old(LightList[..])[i := Moved(old(LightList[i])).(xoff := x, yoff := y)]
      ensures old(Tracked()) && (i == -1 || !old(LightList[i]).lunflag) ==> Tracked()
    {
      if lightflag || i == -1 {
        return;
      }
      var l := LightList[i];
      LightList[i] := l.(lunflag := true, lunx := l.lx, luny := l.ly, lunr := l.lradius);
      LightList[i] := LightList[i].(xoff := x, yoff := y);
      dolighting := true;
    }

    /** First loop of `ProcessLightList`: takes back what is stale. */
    method Unlight()
      requires Shaped() && 0 <= numlights <= MAXLIGHTS && Permutation(lightactive[..])
      modifies dLight, LightList
      ensures forall x, y :: OnMap(x, y) ==>
        dLight[x, y] == if Covered(old(LightList[..]), Live(), x, y) then dPreLight[x, y] else old(dLight[x, y])
      ensures LightList[..] == Cleared(old(LightList[..]), Live())
    {
      hide Permutation, Ids, Cleared, Covered, Stale;
      ghost var lights, a := LightList[..], lightactive[..];
      NoIds(lights, a);
      SlotsFit(a);
      for i := 0 to numlights
        invariant forall x, y :: OnMap(x, y) ==>
          dLight[x, y] == if Covered(lights, Ids(a, i), x, y) then dPreLight[x, y] else old(dLight[x, y])
        invariant LightList[..] == Cleared(lights, Ids(a, i))
      {
        OneMoreId(lights, a, i);
        assert LightList[..][lightactive[i]] == lights[lightactive[i]];
        UnlightOne(lightactive[i]);
      }
    }

    method UnlightOne(j: int)
      requires Shaped() && 0 <= j < MAXLIGHTS
      modifies dLight, LightList
      ensures forall x, y :: OnMap(x, y) ==>
        dLight[x, y] == if Stale(old(LightList[j]), x, y) then dPreLight[x, y] else old(dLight[x, y])
      ensures LightList[..] == old(LightList[..])[j := old(LightList[j]).(lunflag := false)]
    {
      hide InSquare;
      if LightList[j].ldel {
        DoUnLight(dLight, dPreLight, LightList[j].lx, LightList[j].ly, LightList[j].lradius);
      }
      if LightList[j].lunflag {
        DoUnLight(dLight, dPreLight, LightList[j].lunx, LightList[j].luny, LightList[j].lunr);
        LightList[j] := LightList[j].(lunflag := false);
      }
    }

    /** Second loop: draws the lights that stay. */
    method Relight()
      requires Shaped() && 0 <= numlights <= MAXLIGHTS && AllOk(LightList[..], Live())
      modifies dLight
      ensures forall k :: 0 <= k < numlights ==> 0 <= lightactive[..][k] < MAXLIGHTS
      ensures forall l :: l in Kept(LightList[..], lightactive[..], numlights) ==> LampOk(l)
      ensures forall x, y :: OnMap(x, y) ==>
        dLight[x, y] == RelitAt(tables, old(dLight[x, y]), Kept(LightList[..], lightactive[..], numlights), x, y)
    {
      hide AllOk, Ids, Kept, RelitAt, Spot;
      ghost var lights, a := LightList[..], lightactive[..];
      SlotsOk(lights, a, numlights);
      KeptMore(tables, lights, a, 0, numlights);
      for i := 0 to numlights
        invariant forall l :: l in Kept(lights, a, i) ==> LampOk(l)
        invariant forall x, y :: OnMap(x, y) ==>
          dLight[x, y] == RelitAt(tables, old(dLight[x, y]), Kept(lights, a, i), x, y)
      {
        KeptMore(tables, lights, a, i, numlights);
        assert LightList[lightactive[i]] == lights[a[i]];
        var j := lightactive[i];
        if !LightList[j].ldel {
          DoLighting(dLight, tables, LampOf(LightList[j]));
        }
      }
    }

    /** Third loop: swaps the deleted lights behind the live ones. */
    method Remove()
      requires Shaped() && 0 <= numlights <= MAXLIGHTS && Permutation(lightactive[..])
      modifies this`numlights, lightactive
      ensures 0 <= numlights <= MAXLIGHTS && Permutation(lightactive[..])
      ensures forall id :: id in Live() <==> id in old(Live()) && !LightList[..][id].ldel
    {
      ghost var all := Live();
      ghost var n := numlights;
      var i := 0;
      while i < numlights
        invariant 0 <= i <= numlights <= n && Permutation(lightactive[..]) && Ids(lightactive[..], n) == all
        invariant forall k :: 0 <= k < i ==> !LightList[..][lightactive[..][k]].ldel
        invariant forall k :: numlights <= k < n ==> LightList[..][lightactive[..][k]].ldel
        decreases numlights - i
      {
        if LightList[lightactive[i]].ldel {
          numlights := numlights - 1;
          SwapSlots(i, numlights, n);
        } else {
          i := i + 1;
        }
      }
    }

    method SwapSlots(i: int, j: int, ghost n: int)
      requires 0 <= i <= j < n <= MAXLIGHTS && Permutation(lightactive[..])
      requires lightactive.Length == MAXLIGHTS
      modifies lightactive
      ensures Permutation(lightactive[..]) && Ids(lightactive[..], n) == old(Ids(lightactive[..], n))
      ensures lightactive[..] == old(lightactive[..])[i := old(lightactive[j])][j := old(lightactive[i])]
    {
      ghost var a := lightactive[..];
      var temp := lightactive[j];
      lightactive[j] := lightactive[i];
      lightactive[i] := temp;
      assert lightactive[..] == a[i := a[j]][j := a[i]];
      SwapKeeps(a, i, j, n);
    }

    /** The three loops. */
    method Redraw()
      requires Valid()
      modifies this`numlights, lightactive, LightList, dLight
      ensures 0 <= numlights <= MAXLIGHTS && Permutation(lightactive[..])
      ensures forall id :: id in Live() <==> id in old(Live()) && !old(LightList[..])[id].ldel
      ensures LightList[..] == Cleared(old(LightList[..]), old(Live()))
      ensures forall x, y :: OnMap(x, y) ==>
        dLight[x, y] == Redrawn(tables, old(dLight[x, y]), dPreLight[x, y], old(LightList[..]), old(lightactive[..]),
                                old(numlights), x, y)
    {
      hide Ids, Permutation, Covered, Kept, RelitAt, AllOk, Cleared;
      ghost var lights, a, n := LightList[..], lightactive[..], numlights;
      SlotsOk(lights, a, n);
      KeptAre(lights, a, n);
      ClearedKeeps(lights, a, n);
      SlotsFit(a);
      Unlight();
      Relight();
      assert LightList[..] == Cleared(lights, Ids(a, n));
      Remove();
      assert LightList[..] == Cleared(lights, Ids(a, n));
    }

    /** The picture after the loops is as if drawn from scratch exactly when the pass took
        back what was left over. */
    method RedrawAll()
      requires Valid()
      modifies this`numlights, this`drawn, lightactive, LightList, dLight
      ensures 0 <= numlights <= MAXLIGHTS && Permutation(lightactive[..])
      ensures forall id :: id in Live() <==> id in old(Live()) && !old(LightList[..])[id].ldel
      ensures LightList[..] == Cleared(old(LightList[..]), old(Live()))
      ensures forall x, y :: OnMap(x, y) ==>
        dLight[x, y] == Redrawn(tables, old(dLight[x, y]), dPreLight[x, y], old(LightList[..]), old(lightactive[..]),
                                old(numlights), x, y)
      ensures forall k :: 0 <= k < old(numlights) ==> 0 <= old(lightactive[..])[k] < MAXLIGHTS
      ensures LampsOk(drawn) && drawn == Kept(old(LightList[..]), old(lightactive[..]), old(numlights))
      ensures old(Accurate()) ==>
        ((forall x, y :: OnMap(x, y) ==> dLight[x, y] == RelitAt(tables, dPreLight[x, y], drawn, x, y)) <==>
         old(TakesBack()))
    {
      hide Ids, Permutation, Covered, Kept, RelitAt, AllOk, Cleared, Redrawn, Fresh, NothingLeft, Spot;
      ghost var lights, a, n, before, accurate := LightList[..], lightactive[..], numlights, drawn, Accurate();
      KeptOk(lights, a, n);
      label start:
      Redraw();
      drawn := Kept(lights, a, n);
      forall x, y | OnMap(x, y) && accurate
        ensures dLight[x, y] == RelitAt(tables, dPreLight[x, y], drawn, x, y) <==>
          NothingLeft(tables, dPreLight[x, y], before, lights, a, n, x, y)
      {
        assert old(dLight[x, y]) == RelitAt(tables, dPreLight[x, y], before, x, y);
        RedrawnIsFresh(tables, dPreLight[x, y], before, lights, a, n, x, y);
        FreshIs(tables, dPreLight[x, y], lights, a, n, x, y);
      }
    }

    /** `ProcessLightList`: redraws, and keeps exactly the lights that are not deleted. */
    method ProcessLightList()
      requires Valid()
      modifies this`numlights, this`dolighting, this`drawn, lightactive, LightList, dLight
      ensures Valid()
      ensures lightflag ==>
        Live() == old(Live()) && LightList[..] == old(LightList[..]) && dolighting == old(dolighting)
      ensures !lightflag ==> !dolighting
      ensures !lightflag ==> forall id :: id in Live() <==> id in old(Live()) && !old(LightList[..])[id].ldel
      ensures !lightflag && old(dolighting) ==> LightList[..] == Cleared(old(LightList[..]), old(Live()))
      ensures lightflag || !old(dolighting) ==> LightList[..] == old(LightList[..]) && drawn == old(drawn)
      ensures forall x, y :: OnMap(x, y) ==>
        dLight[x, y] == if lightflag || !old(dolighting) then old(dLight[x, y])
                        else Redrawn(tables, old(dLight[x, y]), dPreLight[x, y], old(LightList[..]),
                                     old(lightactive[..]), old(numlights), x, y)
      ensures !lightflag && old(dolighting) ==> ShowsLive() && Tracked()
      ensures !lightflag && old(dolighting) && old(Accurate()) ==> (Accurate() <==> old(TakesBack()))
      ensures old(Accurate()) && old(Tracked()) && old(Enclosed()) ==> Accurate() && Tracked()
    {
      hide Ids, Permutation, Covered, Kept, RelitAt, Redrawn, NothingLeft, Spot;
      if lightflag {
        return;
      }
      if old(Tracked()) && old(Enclosed()) { TrackedTakesBack(); }
      if dolighting {
        ghost var lights, a, n := LightList[..], lightactive[..], numlights;
        RedrawAll();
        KeptAre(lights, a, n);
        KeptAreLive(lights, a, n, LightList[..], Live());
      }
      dolighting := false;
    }
  }

  lemma FreshIs(t: Tables, pre: int, lights: seq<Light>, a: seq<int>, n: nat, x: int, y: int)
    requires TablesOk(t) && n <= |a| && AllOk(lights, Ids(a, n))
    ensures forall k :: 0 <= k < n ==> 0 <= a[k] < |lights|
    ensures LampsOk(Kept(lights, a, n))
    ensures Fresh(t, pre, lights, a, n, x, y) == RelitAt(t, pre, Kept(lights, a, n), x, y)
  {
    KeptOk(lights, a, n);
  }

  /** After a pass the live slots show exactly the lamps it drew. */
  lemma KeptAreLive(lights: seq<Light>, a: seq<int>, n: nat, lights': seq<Light>, live': set<int>)
    requires n <= |a| && AllOk(lights, Ids(a, n)) && lights' == Cleared(lights, Ids(a, n))
    requires forall id :: id in live' <==> id in Ids(a, n) && !lights[id].ldel
    ensures forall k :: 0 <= k < n ==> 0 <= a[k] < |lights|
    ensures AllOk(lights', live') && forall id :: id in live' ==> !lights'[id].ldel && !lights'[id].lunflag
    ensures forall l :: l in Kept(lights, a, n) <==> exists id :: id in live' && l == LampOf(lights'[id])
    ensures forall l :: l in Kept(lights, a, n) ==> exists id :: id in live' && Tracks(lights'[id], l)
  {
    KeptOk(lights, a, n);
    KeptAre(lights, a, n);
    forall l | l in Kept(lights, a, n)
      ensures exists id :: id in live' && l == LampOf(lights'[id])
      ensures exists id :: id in live' && Tracks(lights'[id], l)
    {
      var id :| id in Ids(a, n) && !lights[id].ldel && l == LampOf(lights[id]);
      assert id in live' && LampOf(lights'[id]) == l && Tracks(lights'[id], l);
    }
  }

  /** With the flag that something is to be taken back cleared for these slots. */
  function Cleared(lights: seq<Light>, ids: set<int>): (r: seq<Light>)
    ensures |r| == |lights|
  {
    seq(|lights|, j requires 0 <= j < |lights| => if j in ids then lights[j].(lunflag := false) else lights[j])
  }

  /** Clearing that flag changes neither the lights nor which of them stay. */
  lemma {:induction false} ClearedKeeps(lights: seq<Light>, a: seq<int>, n: nat)
    requires n <= |a| && forall k :: 0 <= k < n ==> 0 <= a[k] < |lights|
    ensures forall ids :: Kept(Cleared(lights, ids), a, n) == Kept(lights, a, n)
    ensures forall ids, id :: 0 <= id < |lights| ==> Cleared(lights, ids)[id].ldel == lights[id].ldel
    ensures forall ids, js :: AllOk(lights, js) ==> AllOk(Cleared(lights, ids), js)
  {
    if n > 0 { ClearedKeeps(lights, a, n - 1); }
  }

  lemma NoIds(lights: seq<Light>, a: seq<int>)
    ensures Ids(a, 0) == {} && Cleared(lights, {}) == lights && forall x, y :: !Covered(lights, {}, x, y)
  {}

  lemma SlotsFit(a: seq<int>)
    requires Permutation(a)
    ensures |a| == MAXLIGHTS && forall n, id :: 0 <= n <= |a| && id in Ids(a, n) ==> 0 <= id < MAXLIGHTS
  {}

  lemma NextId(a: seq<int>, i: nat)
    requires Permutation(a) && i < MAXLIGHTS
    ensures |a| == MAXLIGHTS && 0 <= a[i] < MAXLIGHTS && a[i] !in Ids(a, i) && Ids(a, i + 1) == Ids(a, i) + {a[i]}
  {}

  lemma OneMoreId(lights: seq<Light>, a: seq<int>, i: nat)
    requires Permutation(a) && |lights| == MAXLIGHTS && i < MAXLIGHTS
    ensures |a| == MAXLIGHTS && 0 <= a[i] < MAXLIGHTS
    ensures forall id :: id in Ids(a, i) || id in Ids(a, i + 1) ==> 0 <= id < MAXLIGHTS
    ensures Cleared(lights, Ids(a, i))[a[i]] == lights[a[i]]
    ensures Cleared(lights, Ids(a, i + 1)) == Cleared(lights, Ids(a, i))[a[i] := lights[a[i]].(lunflag := false)]
    ensures forall x, y :: Covered(lights, Ids(a, i + 1), x, y) <==>
      Covered(lights, Ids(a, i), x, y) || Stale(lights[a[i]], x, y)
  {
    assert Ids(a, i + 1) == Ids(a, i) + {a[i]};
    assert a[i] !in Ids(a, i);
  }

  lemma KeptMore(t: Tables, lights: seq<Light>, a: seq<int>, i: nat, n: nat)
    requires TablesOk(t) && i <= n <= |a| && AllOk(lights, Ids(a, n))
    ensures forall k :: 0 <= k < n ==> 0 <= a[k] < |lights|
    ensures i == 0 ==> Kept(lights, a, i) == [] && forall b, x, y :: RelitAt(t, b, [], x, y) == b
    ensures i < n ==> LampOk(LampOf(lights[a[i]]))
    ensures i < n && lights[a[i]].ldel ==> Kept(lights, a, i + 1) == Kept(lights, a, i)
    ensures i < n && !lights[a[i]].ldel && (forall l :: l in Kept(lights, a, i) ==> LampOk(l)) ==>
      && Kept(lights, a, i + 1) == Kept(lights, a, i) + [LampOf(lights[a[i]])]
      && forall b, x, y ::
           RelitAt(t, b, Kept(lights, a, i + 1), x, y)
           == Min(RelitAt(t, b, Kept(lights, a, i), x, y), Spot(t, LampOf(lights[a[i]]), x, y))
  {
    SlotsOk(lights, a, n);
    if i < n { assert a[i] in Ids(a, n); }
  }

  lemma SwapKeeps(a: seq<int>, i: int, j: int, n: int)
    requires Permutation(a) && 0 <= i <= j < n <= MAXLIGHTS
    ensures var b := a[i := a[j]][j := a[i]]; Permutation(b) && Ids(b, n) == Ids(a, n)
  {
    var b := a[i := a[j]][j := a[i]];
    assert b[i] == a[j] && b[j] == a[i];
    forall x | x in Ids(a, n) ensures x in Ids(b, n) {
      var k :| 0 <= k < n && a[k] == x;
      assert b[if k == i then j else if k == j then i else k] == x;
    }
  }

  // ------------------------------------------------------ pictures that are not fresh

  /** A light of radius r in the middle of (x, y), as AddLight leaves it. */
  function Added(x: int, y: int, r: int): Light {
    Light(x, y, r, false, false, 0, 0, 0, 0, 0)
  }

  lemma OneLamp(t: Tables, pre: int, slot: Light, x: int, y: int)
    requires TablesOk(t) && LampOk(LampOf(slot)) && !slot.ldel
    ensures Ids([0], 1) == {0} && Kept([slot], [0], 1) == [LampOf(slot)] && AllOk([slot], Ids([0], 1))
    ensures Fresh(t, pre, [slot], [0], 1, x, y) == Min(pre, Spot(t, LampOf(slot), x, y))
    ensures Covered([slot], Ids([0], 1), x, y) <==> Stale(slot, x, y)
    ensures forall l :: LampOk(l) ==> RelitAt(t, pre, [l], x, y) == Min(pre, Spot(t, l, x, y))
  {
    var a := [0];
    assert a[0] == 0 && a[0] in Ids(a, 1);
    assert Kept([slot], [0], 0) == [];
    forall l | LampOk(l) ensures RelitAt(t, pre, [l], x, y) == Min(pre, Spot(t, l, x, y)) {
      assert [l][..0] == [];
    }
    assert [LampOf(slot)][..0] == [];
  }

  /** One change is too many for a lamp moved by half a square: its beam reaches the first
      column that the half-open square around it leaves out. */
  lemma OneChangeLeavesLight()
    ensures var t, was := GameTables(), Added(50, 50, 10).(xoff := 4);
            var slot := Moved(was).(lx := 49);
            && AllOk([slot], Ids([0], 1))
            && Tracks(slot, LampOf(was)) && Spot(t, LampOf(was), 61, 50) == 14 < 15
            && Redrawn(t, RelitAt(t, 15, [LampOf(was)], 61, 50), 15, [slot], [0], 1, 61, 50) == 14
            && Fresh(t, 15, [slot], [0], 1, 61, 50) == 15
  {
    hide GameTables, Spot;
    var t, was := GameTables(), Added(50, 50, 10).(xoff := 4);
    var slot := Moved(was).(lx := 49);
    OneLamp(t, 15, slot, 61, 50);
    OneLamp(t, 14, slot, 61, 50);
    StraightAhead(LampOf(was), 11);
    StraightAhead(LampOf(slot), 12);
    assert ShadeAt(10, 84) == 14 && ShadeAt(10, 92) == 15;
  }

  lemma NoLamp(t: Tables, pre: int, slot: Light, x: int, y: int)
    requires TablesOk(t) && LampOk(LampOf(slot)) && slot.ldel
    ensures Ids([0], 1) == {0} && AllOk([slot], Ids([0], 1)) && Fresh(t, pre, [slot], [0], 1, x, y) == pre
    ensures forall shade :: Redrawn(t, shade, pre, [slot], [0], 1, x, y) == if Stale(slot, x, y) then pre else shade
    ensures RelitAt(t, pre, [LampOf(slot)], x, y) == Min(pre, Spot(t, LampOf(slot), x, y))
  {
    var a := [0];
    assert a[0] == 0 && a[0] in Ids(a, 1);
    assert Kept([slot], [0], 0) == [] && Kept([slot], [0], 1) == [];
    assert [LampOf(slot)][..0] == [];
  }

  /** When the only lamp goes, the pass leaves the map's own picture exactly if the lamp's
      beam stays in its square: the condition on radius and offset cannot be weakened. */
  lemma DeletedLampIsGone(slot: Light)
    requires LampOk(LampOf(slot)) && Indoors(LampOf(slot)) && slot.ldel && !slot.lunflag
    ensures AllOk([slot], Ids([0], 1))
    ensures BeamInside(LampOf(slot)) <==> forall x, y :: OnMap(x, y) ==>
      Redrawn(GameTables(), RelitAt(GameTables(), 15, [LampOf(slot)], x, y), 15, [slot], [0], 1, x, y)
      == Fresh(GameTables(), 15, [slot], [0], 1, x, y)
  {
    hide GameTables, Spot, BeamInside, Redrawn, Fresh, RelitAt, OnMap, InSquare, Ids, AllOk;
    var t, l := GameTables(), LampOf(slot);
    NoLamp(t, 15, slot, 0, 0);
    BeamInsideIff(l);
    forall x, y
      ensures Redrawn(t, RelitAt(t, 15, [l], x, y), 15, [slot], [0], 1, x, y) == Fresh(t, 15, [slot], [0], 1, x, y)
              <==> InSquare(l.x, l.y, l.r, x, y) || Spot(t, l, x, y) >= 15
    {
      NoLamp(t, 15, slot, x, y);
    }
  }

  /** Two changes are too many for any lamp: only the place in between is taken back. */
  lemma TwoChangesLeaveLight(t: Tables)
    requires TablesOk(t)
    ensures var was := Added(50, 50, 5);
            var slot := Moved(Moved(was).(lx := 70)).(lx := 90);
            && AllOk([slot], Ids([0], 1))
            && !Tracks(slot, LampOf(was))
            && Redrawn(t, RelitAt(t, 15, [LampOf(was)], 50, 50), 15, [slot], [0], 1, 50, 50) == 0
            && Fresh(t, 15, [slot], [0], 1, 50, 50) == 15
  {
    var was := Added(50, 50, 5);
    var slot := Moved(Moved(was).(lx := 70)).(lx := 90);
    OneLamp(t, 15, slot, 50, 50);
    OneLamp(t, 0, slot, 50, 50);
    assert QuarterOf(-40, 0) == 2;
  }
}
