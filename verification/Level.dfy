/** `SaveLevel` and `LoadLevel` of Source/loadsave.cpp. */
module Level {
  import opened CInt
  import opened Stream

  const MAXDUN := 112
  const DMAX := 40
  const MAXMONSTERS := 200
  const MAXOBJECTS := 127
  const MAXITEMS := 127

  type Map = seq<seq<int32>>

  /** A level in memory, by value. */
  datatype Contents = Contents(
    town: bool,
    nummonsters: int32, numitems: int32, nobjects: int32,
    monstactive: seq<int32>, objectactive: seq<int32>, objectavail: seq<int32>,
    itemactive: seq<int32>, itemavail: seq<int32>,
    monster: seq<Record>, object_: seq<Record>, item: seq<Record>,
    dDead: Map, dFlags: Map, dItem: Map, dMonster: Map, dObject: Map, dLight: Map, dPreLight: Map,
    automapview: Map, dMissile: Map)

  /** Counts and active entries that name records; of the monsters and objects only away
      from the town, where these tables are not used. Active objects and items are kept
      in single bytes, which is enough for their numbers. */
  predicate Sound(c: Contents) {
    && Listed(c.itemactive, c.numitems, c.item) && |c.item| <= 128
    && (c.town || (Listed(c.monstactive, c.nummonsters, c.monster) && Listed(c.objectactive, c.nobjects, c.object_)
                   && |c.object_| <= 128))
  }

  predicate MapOk(g: Map, w: int, h: int) {
    |g| == h && forall j :: 0 <= j < h ==> |g[j]| == w
  }

  predicate SizeOk(recs: seq<Record>, n: int, size: int) {
    |recs| == n && forall r :: r in recs ==> |r| == size
  }

  /** The shape of every level: records have a fixed size. */
  predicate LevelShape(c: Contents, monsterSize: nat, objectSize: nat, itemSize: nat) {
    && |c.monstactive| == MAXMONSTERS && |c.objectactive| == |c.objectavail| == MAXOBJECTS
    && |c.itemactive| == |c.itemavail| == MAXITEMS
    && SizeOk(c.monster, MAXMONSTERS, monsterSize) && SizeOk(c.object_, MAXOBJECTS, objectSize)
    && SizeOk(c.item, MAXITEMS + 1, itemSize)
    && MapOk(c.dDead, MAXDUN, MAXDUN) && MapOk(c.dFlags, MAXDUN, MAXDUN) && MapOk(c.dItem, MAXDUN, MAXDUN)
    && MapOk(c.dMonster, MAXDUN, MAXDUN) && MapOk(c.dObject, MAXDUN, MAXDUN) && MapOk(c.dLight, MAXDUN, MAXDUN)
    && MapOk(c.dPreLight, MAXDUN, MAXDUN) && MapOk(c.automapview, DMAX, DMAX) && MapOk(c.dMissile, MAXDUN, MAXDUN)
  }

  function CountBytes(c: Contents): seq<byte> {
    Enc(Word, c.nummonsters) + (Enc(Word, c.numitems) + Enc(Word, c.nobjects))
  }

  function CreatureBytes(c: Contents): seq<byte>
    requires Sound(c)
  {
    if c.town then []
    else
      RowBytes(Word, c.monstactive) + (RecordBytes(c.monstactive[..c.nummonsters], c.monster)
      + (RowBytes(Byte, c.objectactive)
         + (RowBytes(Byte, c.objectavail) + RecordBytes(c.objectactive[..c.nobjects], c.object_))))
  }

  function ItemBytes(c: Contents): seq<byte>
    requires Sound(c)
  {
    RowBytes(Byte, c.itemactive) + (RowBytes(Byte, c.itemavail) + RecordBytes(c.itemactive[..c.numitems], c.item))
  }

  function FloorBytes(c: Contents): seq<byte> {
    GridBytes(Flags, c.dFlags) + GridBytes(Byte, c.dItem)
  }

  function DungeonBytes(c: Contents): seq<byte> {
    if c.town then []
    else
      GridBytes(Word, c.dMonster) + (GridBytes(Byte, c.dObject) + (GridBytes(Byte, c.dLight)
      + (GridBytes(Byte, c.dPreLight) + GridBytes(Truth, c.automapview))))
  }

  /** The last grid, which the reader leaves unread. */
  function Unread(c: Contents): seq<byte> {
    if c.town then [] else GridBytes(Byte, c.dMissile)
  }

  function DeadBytes(c: Contents): seq<byte> {
    if c.town then [] else GridBytes(Byte, c.dDead)
  }

  /** The file of a level. */
  function LevelBytes(c: Contents): seq<byte>
    requires Sound(c)
  {
    DeadBytes(c)
    + (CountBytes(c) + (CreatureBytes(c) + (ItemBytes(c) + (FloorBytes(c) + (DungeonBytes(c) + Unread(c))))))
  }

  lemma DungeonParts(c: Contents, rest: seq<byte>)
    ensures DungeonBytes(c) + rest ==
      if c.town then rest
      else
        GridBytes(Word, c.dMonster) + (GridBytes(Byte, c.dObject) + (GridBytes(Byte, c.dLight)
        + (GridBytes(Byte, c.dPreLight) + (GridBytes(Truth, c.automapview) + rest))))
  {
    hide GridBytes;
    if c.town {
      assert [] + rest == rest;
    } else {
      JoinFive(GridBytes(Word, c.dMonster), GridBytes(Byte, c.dObject), GridBytes(Byte, c.dLight),
               GridBytes(Byte, c.dPreLight), GridBytes(Truth, c.automapview), rest);
    }
  }

  predicate Zero(g: Map) {
    forall j, i :: 0 <= j < |g| && 0 <= i < |g[j]| ==> g[j][i] == 0
  }

  /** What `now` has of the saved level c, loaded over `before`. */
  ghost predicate Restored(before: Contents, c: Contents, now: Contents)
    requires Sound(c)
  {
    && now.town == c.town
    && now.nummonsters == c.nummonsters && now.numitems == c.numitems && now.nobjects == c.nobjects
    && now.itemactive == KeptRow(Byte, c.itemactive) && now.itemavail == KeptRow(Byte, c.itemavail)
    && Refilled(c.itemactive, c.numitems, before.item, c.item, now.item)
    && now.dFlags == KeptGrid(Flags, c.dFlags) && now.dItem == KeptGrid(Byte, c.dItem)
    && now.dDead == (if c.town then before.dDead else KeptGrid(Byte, c.dDead))
    && CreaturesRestored(c, before.monstactive, before.objectactive, before.objectavail, before.monster, before.object_,
                         now.monstactive, now.objectactive, now.objectavail, now.monster, now.object_)
    && MapRestored(c, DungeonMaps(before), DungeonMaps(now))
  }

  ghost predicate CreaturesRestored(c: Contents, ma: seq<int32>, oa: seq<int32>, ov: seq<int32>, m: seq<Record>,
                                    o: seq<Record>,
                                    ma': seq<int32>, oa': seq<int32>, ov': seq<int32>, m': seq<Record>, o': seq<Record>)
    requires Sound(c)
  {
    if c.town then (ma', oa', ov', m', o') == (ma, oa, ov, m, o)
    else
      && ma' == c.monstactive && oa' == KeptRow(Byte, c.objectactive) && ov' == KeptRow(Byte, c.objectavail)
      && Refilled(c.monstactive, c.nummonsters, m, c.monster, m')
      && Refilled(c.objectactive, c.nobjects, o, c.object_, o')
  }

  /** The maps that are only kept away from the town. */
  datatype Maps = Maps(dMonster: Map, dObject: Map, dLight: Map, dPreLight: Map, automapview: Map, dMissile: Map)

  function DungeonMaps(c: Contents): Maps {
    Maps(c.dMonster, c.dObject, c.dLight, c.dPreLight, c.automapview, c.dMissile)
  }

  ghost predicate MapRestored(c: Contents, before: Maps, now: Maps) {
    if c.town then now == before
    else
      && now.dMonster == c.dMonster && now.dObject == KeptGrid(Byte, c.dObject)
      && now.dLight == KeptGrid(Byte, c.dLight)
      && now.dPreLight == KeptGrid(Byte, c.dPreLight) && now.automapview == KeptGrid(Truth, c.automapview)
      && Zero(now.dMissile)
  }

  predicate Zeros(vs: seq<int32>) {
    forall i :: 0 <= i < |vs| ==> vs[i] == 0
  }

  predicate Blank(g: Map, n: int) {
    MapOk(g, n, n) && Zero(g)
  }

  ghost predicate Distinct<T>(xs: seq<T>) {
    forall i, j :: 0 <= i < j < |xs| ==> xs[i] != xs[j]
  }

  ghost predicate NewTablesAre(ts: seq<array<int32>>, ns: seq<nat>)
    reads ts
  {
    |ts| <= |ns| && Distinct(ts) && forall i :: 0 <= i < |ts| ==> ts[i].Length == ns[i] && Zeros(ts[i][..])
  }

  method NewTables(ns: seq<nat>) returns (ts: seq<array<int32>>)
    ensures |ts| == |ns| && NewTablesAre(ts, ns) && fresh(ts)
  {
    ts := [];
    for k := 0 to |ns|
      invariant |ts| == k && NewTablesAre(ts, ns) && fresh(ts)
    {
      var a := new int32[ns[k]](_ => 0);
      ts := ts + [a];
    }
  }

  ghost predicate NewRecordsAre(rs: seq<array<Record>>, ns: seq<nat>, sizes: seq<nat>)
    reads rs
  {
    && |rs| <= |ns| == |sizes| && Distinct(rs)
    && forall i :: 0 <= i < |rs| ==> rs[i].Length == ns[i] && forall k :: 0 <= k < ns[i] ==> |rs[i][k]| == sizes[i]
  }

  method NewRecords(ns: seq<nat>, sizes: seq<nat>) returns (rs: seq<array<Record>>)
    requires |ns| == |sizes|
    ensures |rs| == |ns| && NewRecordsAre(rs, ns, sizes) && fresh(rs)
  {
    rs := [];
    for k := 0 to |ns|
      invariant |rs| == k && NewRecordsAre(rs, ns, sizes) && fresh(rs)
    {
      var a := new Record[ns[k]](_ => seq(sizes[k], _ => 0));
      rs := rs + [a];
    }
  }

  ghost predicate NewGridsAre(gs: seq<array2<int32>>, ns: seq<nat>)
    reads gs
  {
    |gs| <= |ns| && Distinct(gs)
      && forall i :: 0 <= i < |gs| ==> gs[i].Length0 == gs[i].Length1 == ns[i] && NoRows(gs[i])
  }

  method NewGrids(ns: seq<nat>) returns (gs: seq<array2<int32>>)
    ensures |gs| == |ns| && NewGridsAre(gs, ns) && fresh(gs)
  {
    gs := [];
    for k := 0 to |ns|
      invariant |gs| == k && NewGridsAre(gs, ns) && fresh(gs)
    {
      var g := new int32[ns[k], ns[k]]((i, j) => 0);
      gs := gs + [g];
    }
  }

  ghost predicate NoRows(a: array2<int32>)
    reads a
  {
    forall i, j :: 0 <= i < a.Length0 && 0 <= j < a.Length1 ==> a[i, j] == 0
  }

  lemma BlankRows(a: array2<int32>, n: nat)
    requires a.Length0 == a.Length1 == n && NoRows(a)
    ensures Blank(Rows(a), n)
  {}

  class World {
    var town: bool
    var nummonsters: int32
    var numitems: int32
    var nobjects: int32
    const monstactive: array<int32>
    const objectactive: array<int32>
    const objectavail: array<int32>
    const itemactive: array<int32>
    const itemavail: array<int32>
    const monster: array<Record>
    const object_: array<Record>
    const item: array<Record>
    const dDead: array2<int32>
    const dFlags: array2<int32>
    const dItem: array2<int32>
    const dMonster: array2<int32>
    const dObject: array2<int32>
    const dLight: array2<int32>
    const dPreLight: array2<int32>
    const automapview: array2<int32>
    const dMissile: array2<int32>
    ghost const tableNumber: array<int32> -> int
    ghost const gridNumber: array2<int32> -> int
    const monsterSize: nat
    const objectSize: nat
    const itemSize: nat

    /** The tables are different arrays: each has its own number. */
    ghost predicate Separate() {
      && tableNumber(monstactive) == 0 && tableNumber(objectactive) == 1 && tableNumber(objectavail) == 2
      && tableNumber(itemactive) == 3 && tableNumber(itemavail) == 4
      && monster != object_ && monster != item && object_ != item
      && gridNumber(dDead) == 0 && gridNumber(dFlags) == 1 && gridNumber(dItem) == 2 && gridNumber(dMonster) == 3
      && gridNumber(dObject) == 4
      && gridNumber(dLight) == 5 && gridNumber(dPreLight) == 6 && gridNumber(automapview) == 7
      && gridNumber(dMissile) == 8
    }

    ghost predicate Sized(g: array2<int32>, n: int) {
      g.Length0 == n && g.Length1 == n
    }

    ghost predicate Shaped() {
      && Separate()
      && monstactive.Length == MAXMONSTERS && objectactive.Length == MAXOBJECTS && objectavail.Length == MAXOBJECTS
      && itemactive.Length == MAXITEMS && itemavail.Length == MAXITEMS
      && monster.Length == MAXMONSTERS && object_.Length == MAXOBJECTS && item.Length == MAXITEMS + 1
      && Sized(dDead, MAXDUN) && Sized(dFlags, MAXDUN) && Sized(dItem, MAXDUN) && Sized(dMonster, MAXDUN)
      && Sized(dObject, MAXDUN)
      && Sized(dLight, MAXDUN) && Sized(dPreLight, MAXDUN) && Sized(automapview, DMAX) && Sized(dMissile, MAXDUN)
    }

    constructor (town: bool, tables: seq<array<int32>>, records: seq<array<Record>>, sizes: seq<nat>,
                 grids: seq<array2<int32>>)
      requires |tables| == 5 && |records| == 3 && |sizes| == 3 && |grids| == 9
      requires Distinct(tables) && Distinct(records) && Distinct(grids)
      ensures this.town == town && (nummonsters, numitems, nobjects) == (0, 0, 0) && Separate()
      ensures [monstactive, objectactive, objectavail, itemactive, itemavail] == tables
      ensures [monster, object_, item] == records && [monsterSize, objectSize, itemSize] == sizes
      ensures [dDead, dFlags, dItem, dMonster, dObject, dLight, dPreLight, automapview, dMissile] == grids
    {
      this.town := town;
      nummonsters, numitems, nobjects := 0, 0, 0;
      monstactive, objectactive, objectavail, itemactive, itemavail :=
        tables[0], tables[1], tables[2], tables[3], tables[4];
      monster, object_, item := records[0], records[1], records[2];
      monsterSize, objectSize, itemSize := sizes[0], sizes[1], sizes[2];
      dDead, dFlags, dItem, dMonster, dObject := grids[0], grids[1], grids[2], grids[3], grids[4];
      dLight, dPreLight, automapview, dMissile := grids[5], grids[6], grids[7], grids[8];
      var t0, t1, t2, t3 := tables[0], tables[1], tables[2], tables[3];
      tableNumber := a => if a == t0 then 0 else if a == t1 then 1 else if a == t2 then 2 else if a == t3 then 3 else 4;
      var g0, g1, g2, g3, g4, g5, g6, g7 := grids[0], grids[1], grids[2], grids[3], grids[4], grids[5], grids[6],
        grids[7];
      gridNumber := g => if g == g0 then 0 else if g == g1 then 1 else if g == g2 then 2 else if g == g3 then 3
                         else if g == g4 then 4 else if g == g5 then 5 else if g == g6 then 6 else if g == g7 then 7
                              else 8;
    }

    /** An empty level. */
    static method Empty(town: bool, monsterSize: nat, objectSize: nat, itemSize: nat) returns (w: World)
      ensures fresh(w) && w.Shaped() && w.Ready() && w.town == town
      ensures (w.monsterSize, w.objectSize, w.itemSize) == (monsterSize, objectSize, itemSize)
    {
      hide Zeros, NoRows, World.Ready, World.IsBlank;
      var tables := NewTables([MAXMONSTERS, MAXOBJECTS, MAXOBJECTS, MAXITEMS, MAXITEMS]);
      var records := NewRecords([MAXMONSTERS, MAXOBJECTS, MAXITEMS + 1], [monsterSize, objectSize, itemSize]);
      var grids := NewGrids([MAXDUN, MAXDUN, MAXDUN, MAXDUN, MAXDUN, MAXDUN, MAXDUN, DMAX, MAXDUN]);
      w := new World(town, tables, records, [monsterSize, objectSize, itemSize], grids);
      w.EmptyIsBlank(tables, records, grids);
      w.BlankIsReady();
    }

    lemma EmptyIsBlank(tables: seq<array<int32>>, records: seq<array<Record>>, grids: seq<array2<int32>>)
      requires (nummonsters, numitems, nobjects) == (0, 0, 0) && Separate()
      requires [monstactive, objectactive, objectavail, itemactive, itemavail] == tables
      requires [monster, object_, item] == records
      requires [dDead, dFlags, dItem, dMonster, dObject, dLight, dPreLight, automapview, dMissile] == grids
      requires NewTablesAre(tables, [MAXMONSTERS, MAXOBJECTS, MAXOBJECTS, MAXITEMS, MAXITEMS])
      requires NewRecordsAre(records, [MAXMONSTERS, MAXOBJECTS, MAXITEMS + 1], [monsterSize, objectSize, itemSize])
      requires NewGridsAre(grids, [MAXDUN, MAXDUN, MAXDUN, MAXDUN, MAXDUN, MAXDUN, MAXDUN, DMAX, MAXDUN])
      ensures Shaped() && IsBlank()
    {
      hide Zeros, NoRows;
      assert forall i :: 0 <= i < 5 ==> tables[i] == [monstactive, objectactive, objectavail, itemactive, itemavail][i];
      assert tables[0].Length == MAXMONSTERS && tables[1].Length == MAXOBJECTS && tables[2].Length == MAXOBJECTS
        && tables[3].Length == MAXITEMS && tables[4].Length == MAXITEMS;
      assert records[0].Length == MAXMONSTERS && records[1].Length == MAXOBJECTS && records[2].Length == MAXITEMS + 1;
      assert Sized(grids[0], MAXDUN) && Sized(grids[1], MAXDUN) && Sized(grids[2], MAXDUN) && Sized(grids[3], MAXDUN)
        && Sized(grids[4], MAXDUN);
      assert Sized(grids[5], MAXDUN) && Sized(grids[6], MAXDUN) && Sized(grids[7], DMAX) && Sized(grids[8], MAXDUN);
    }

    /** Nothing in it. */
    ghost predicate IsBlank()
      reads this, objectactive, objectavail, itemactive, itemavail, monster, object_, item,
            dDead, dFlags, dItem, dMonster, dObject, dLight, dPreLight, automapview, dMissile
    {
      && (nummonsters, numitems, nobjects) == (0, 0, 0)
      && Zeros(objectactive[..]) && Zeros(objectavail[..]) && Zeros(itemactive[..]) && Zeros(itemavail[..])
      && (forall i :: 0 <= i < monster.Length ==> |monster[i]| == monsterSize)
      && (forall i :: 0 <= i < object_.Length ==> |object_[i]| == objectSize)
      && (forall i :: 0 <= i < item.Length ==> |item[i]| == itemSize)
      && NoRows(dDead) && NoRows(dFlags) && NoRows(dItem) && NoRows(dMonster) && NoRows(dObject)
      && NoRows(dLight) && NoRows(dPreLight) && NoRows(automapview) && NoRows(dMissile)
    }

    /** An empty level can be saved and loaded. */
    lemma BlankIsReady()
      requires Shaped() && IsBlank()
      ensures Ready()
    {
      hide Rows, NoRows;
      BlankRows(dDead, MAXDUN);
      BlankRows(dFlags, MAXDUN);
      BlankRows(dItem, MAXDUN);
      BlankRows(dMonster, MAXDUN);
      BlankRows(dObject, MAXDUN);
      BlankRows(dLight, MAXDUN);
      BlankRows(dPreLight, MAXDUN);
      BlankRows(automapview, DMAX);
      BlankRows(dMissile, MAXDUN);
    }

    /** The level in memory can be saved and loaded. */
    ghost predicate Ready()
      reads this, monstactive, objectactive, objectavail, itemactive, itemavail, monster, object_, item,
            dDead, dFlags, dItem, dMonster, dObject, dLight, dPreLight, automapview, dMissile
    {
      Sound(Now()) && InRange(Now()) && LevelShape(Now(), monsterSize, objectSize, itemSize)
    }

    ghost function Now(): Contents
      reads this, monstactive, objectactive, objectavail, itemactive, itemavail, monster, object_, item,
            dDead, dFlags, dItem, dMonster, dObject, dLight, dPreLight, automapview, dMissile
    {
      Contents(town, nummonsters, numitems, nobjects,
               monstactive[..], objectactive[..], objectavail[..], itemactive[..], itemavail[..],
               monster[..], object_[..], item[..],
               Rows(dDead), Rows(dFlags), Rows(dItem), Rows(dMonster), Rows(dObject), Rows(dLight), Rows(dPreLight),
               Rows(automapview), Rows(dMissile))
    }

    ghost function MapsNow(): Maps
      reads dMonster, dObject, dLight, dPreLight, automapview, dMissile
    {
      Maps(Rows(dMonster), Rows(dObject), Rows(dLight), Rows(dPreLight), Rows(automapview), Rows(dMissile))
    }

    lemma TownNow()
      ensures Now().town == town
    {}

    method SaveCounts(b: Buffer)
      requires b.Valid() && b.tbuff + |CountBytes(Now())| <= b.bytes.Length
      modifies b`tbuff, b.bytes
      ensures b.Valid() && b.Done() == old(b.Done()) + CountBytes(Now())
    {
      hide Enc;
      b.Save(Word, nummonsters);
      b.Save(Word, numitems);
      b.Save(Word, nobjects);
    }

    method SaveCreatures(b: Buffer)
      requires Sound(Now()) && !town && b.Valid() && b.tbuff + |CreatureBytes(Now())| <= b.bytes.Length
      modifies b`tbuff, b.bytes
      ensures b.Valid() && b.Done() == old(b.Done()) + CreatureBytes(Now())
    {
      hide RowBytes, RecordBytes, Rows;
      Join5(b.Done(), RowBytes(Word, monstactive[..]), RecordBytes(monstactive[..nummonsters], monster[..]),
            RowBytes(Byte, objectactive[..]), RowBytes(Byte, objectavail[..]),
            RecordBytes(objectactive[..nobjects], object_[..]));
      assert monstactive[..][..nummonsters] == monstactive[..nummonsters]
        && objectactive[..][..nobjects] == objectactive[..nobjects];
      b.SaveTable(Word, monstactive);
      b.SaveRecords(monstactive, nummonsters, monster);
      b.SaveTable(Byte, objectactive);
      b.SaveTable(Byte, objectavail);
      b.SaveRecords(objectactive, nobjects, object_);
    }

    method SaveItems(b: Buffer)
      requires Sound(Now()) && b.Valid() && b.tbuff + |ItemBytes(Now())| <= b.bytes.Length
      modifies b`tbuff, b.bytes
      ensures b.Valid() && b.Done() == old(b.Done()) + ItemBytes(Now())
    {
      hide RowBytes, RecordBytes, Rows;
      b.SaveTable(Byte, itemactive);
      b.SaveTable(Byte, itemavail);
      b.SaveRecords(itemactive, numitems, item);
    }

    method SaveFloor(b: Buffer)
      requires b.Valid() && b.tbuff + |FloorBytes(Now())| <= b.bytes.Length
      modifies b`tbuff, b.bytes
      ensures b.Valid() && b.Done() == old(b.Done()) + FloorBytes(Now())
    {
      hide GridBytes, Rows;
      b.SaveGrid(Flags, dFlags);
      b.SaveGrid(Byte, dItem);
    }

    method SaveDungeon(b: Buffer)
      requires !town && b.Valid() && b.tbuff + |DungeonBytes(Now()) + Unread(Now())| <= b.bytes.Length
      modifies b`tbuff, b.bytes
      ensures b.Valid() && b.Done() == old(b.Done()) + (DungeonBytes(Now()) + Unread(Now()))
    {
      hide GridBytes, Rows;
      Join6(b.Done(), GridBytes(Word, Rows(dMonster)), GridBytes(Byte, Rows(dObject)), GridBytes(Byte, Rows(dLight)),
            GridBytes(Byte, Rows(dPreLight)), GridBytes(Truth, Rows(automapview)), GridBytes(Byte, Rows(dMissile)));
      b.SaveGrid(Word, dMonster);
      b.SaveGrid(Byte, dObject);
      b.SaveGrid(Byte, dLight);
      b.SaveGrid(Byte, dPreLight);
      b.SaveGrid(Truth, automapview);
      b.SaveGrid(Byte, dMissile);
    }

    /** `SaveLevel`, into a buffer that is large enough. */
    method SaveLevel(b: Buffer)
      requires Sound(Now()) && b.tbuff == 0 && |LevelBytes(Now())| <= b.bytes.Length
      modifies b`tbuff, b.bytes
      ensures b.Valid() && b.Done() == LevelBytes(Now())
    {
      hide DeadBytes, CountBytes, CreatureBytes, ItemBytes, FloorBytes, GridBytes, DungeonBytes, Unread, Rows, Sound;
      ghost var c := Now();
      TownAndDungeon(c);
      JoinAll(DeadBytes(c), CountBytes(c), CreatureBytes(c), ItemBytes(c), FloorBytes(c), DungeonBytes(c) + Unread(c));
      assert b.Done() == [];
      if !town {
        b.SaveGrid(Byte, dDead);
      }
      assert b.Done() == DeadBytes(c) && Now() == c;
      SaveCounts(b);
      if !town {
        SaveCreatures(b);
      }
      assert b.Done() == DeadBytes(c) + CountBytes(c) + CreatureBytes(c) && Now() == c;
      SaveItems(b);
      SaveFloor(b);
      if !town {
        SaveDungeon(b);
      }
    }

    /** What the parts of a level that are loaded one after the other have in common: nothing. */
    lemma HeadIsApart()
      requires Shaped()
      ensures itemactive !in [monstactive, objectactive, objectavail]
        && itemavail !in [monstactive, objectactive, objectavail]
      ensures monster != item && object_ != item
      ensures dDead !in [dFlags, dItem, dMonster, dObject, dLight, dPreLight, automapview, dMissile]
    {}

    lemma CreaturesAreApart()
      requires Shaped()
      ensures monstactive !in [objectactive, objectavail] && monster != object_
    {}

    lemma FloorIsApart()
      requires Shaped()
      ensures dFlags !in [dMonster, dObject, dLight, dPreLight, automapview, dMissile]
      ensures dItem !in [dMonster, dObject, dLight, dPreLight, automapview, dMissile]
    {}

    lemma MapsAreApart()
      requires Shaped()
      ensures dMissile !in [dMonster, dObject, dLight, dPreLight, automapview]
      ensures dMonster !in [dLight, dPreLight, automapview] && dObject !in [dLight, dPreLight, automapview]
    {}

    method LoadCounts(b: Buffer, ghost c: Contents, ghost rest: seq<byte>)
      requires b.Valid() && b.Left() == CountBytes(c) + rest
      modifies b`tbuff, `nummonsters, `numitems, `nobjects
      ensures b.Valid() && b.Left() == rest
      ensures nummonsters == c.nummonsters && numitems == c.numitems && nobjects == c.nobjects
    {
      hide Enc;
      JoinThree(Enc(Word, c.nummonsters), Enc(Word, c.numitems), Enc(Word, c.nobjects), rest);
      nummonsters := b.Load(Word, c.nummonsters, Enc(Word, c.numitems) + (Enc(Word, c.nobjects) + rest));
      numitems := b.Load(Word, c.numitems, Enc(Word, c.nobjects) + rest);
      nobjects := b.Load(Word, c.nobjects, rest);
    }

    lemma ItemArrays(c: Contents)
      requires Shaped() && Sound(c) && LevelShape(c, monsterSize, objectSize, itemSize)
      ensures itemactive != itemavail && itemactive.Length == |c.itemactive| && itemavail.Length == |c.itemavail|
        && item.Length == |c.item|
      ensures 0 <= c.numitems <= |c.itemactive| && Listed(c.itemactive, c.numitems, c.item) && |c.item| <= 128
      ensures forall r :: r in c.item ==> |r| == itemSize
    {}

    method LoadItems(b: Buffer, ghost c: Contents, ghost rest: seq<byte>)
      requires Shaped() && Sound(c) && LevelShape(c, monsterSize, objectSize, itemSize) && numitems == c.numitems
      requires b.Valid() && b.Left() == ItemBytes(c) + rest
      modifies b`tbuff, itemactive, itemavail, item
      ensures b.Valid() && b.Left() == rest
      ensures itemactive[..] == KeptRow(Byte, c.itemactive) && itemavail[..] == KeptRow(Byte, c.itemavail)
      ensures Refilled(c.itemactive, c.numitems, old(item[..]), c.item, item[..])
    {
      hide RowBytes, RecordBytes, KeptRow, Refilled, Shaped, LevelShape, Sound, Listed;
      ItemArrays(c);
      ghost var p, q, r := RowBytes(Byte, c.itemactive), RowBytes(Byte, c.itemavail),
        RecordBytes(c.itemactive[..c.numitems], c.item);
      JoinThree(p, q, r, rest);
      b.LoadTable(Byte, itemactive, c.itemactive, q + (r + rest));
      b.LoadTable(Byte, itemavail, c.itemavail, r + rest);
      ActiveKept(c.itemactive, c.numitems, c.item);
      assert itemactive[..numitems] == KeptRow(Byte, c.itemactive)[..c.numitems];
      b.LoadRecords(itemactive, numitems, itemSize, item, c.item, rest);
    }

    method LoadMonsters(b: Buffer, ghost c: Contents, ghost rest: seq<byte>)
      requires Shaped() && Sound(c) && !c.town && LevelShape(c, monsterSize, objectSize, itemSize)
        && nummonsters == c.nummonsters
      requires b.Valid()
        && b.Left() == RowBytes(Word, c.monstactive) + (RecordBytes(c.monstactive[..c.nummonsters], c.monster) + rest)
      modifies b`tbuff, monstactive, monster
      ensures b.Valid() && b.Left() == rest
      ensures monstactive[..] == c.monstactive
        && Refilled(c.monstactive, c.nummonsters, old(monster[..]), c.monster, monster[..])
    {
      hide RowBytes, RecordBytes, KeptRow, Refilled;
      WordsKept(c.monstactive);
      b.LoadTable(Word, monstactive, c.monstactive, RecordBytes(c.monstactive[..c.nummonsters], c.monster) + rest);
      assert monstactive[..nummonsters] == c.monstactive[..c.nummonsters];
      b.LoadRecords(monstactive, nummonsters, monsterSize, monster, c.monster, rest);
    }

    lemma ObjectArrays(c: Contents)
      requires Shaped() && Sound(c) && !c.town && LevelShape(c, monsterSize, objectSize, itemSize)
      ensures objectactive != objectavail && objectactive.Length == |c.objectactive|
        && objectavail.Length == |c.objectavail|
      ensures 0 <= c.nobjects <= |c.objectactive| && Listed(c.objectactive, c.nobjects, c.object_)
      ensures object_.Length == |c.object_| <= 128 && forall r :: r in c.object_ ==> |r| == objectSize
    {}

    method LoadObjects(b: Buffer, ghost c: Contents, ghost rest: seq<byte>)
      requires Shaped() && Sound(c) && !c.town && LevelShape(c, monsterSize, objectSize, itemSize)
        && nobjects == c.nobjects
      requires b.Valid()
      requires b.Left() == RowBytes(Byte, c.objectactive)
        + (RowBytes(Byte, c.objectavail) + (RecordBytes(c.objectactive[..c.nobjects], c.object_) + rest))
      modifies b`tbuff, objectactive, objectavail, object_
      ensures b.Valid() && b.Left() == rest
      ensures objectactive[..] == KeptRow(Byte, c.objectactive) && objectavail[..] == KeptRow(Byte, c.objectavail)
      ensures Refilled(c.objectactive, c.nobjects, old(object_[..]), c.object_, object_[..])
    {
      hide RowBytes, RecordBytes, KeptRow, Refilled, Shaped, LevelShape, Sound, Listed;
      ObjectArrays(c);
      ghost var last := RecordBytes(c.objectactive[..c.nobjects], c.object_) + rest;
      b.LoadTable(Byte, objectactive, c.objectactive, RowBytes(Byte, c.objectavail) + last);
      b.LoadTable(Byte, objectavail, c.objectavail, last);
      ActiveKept(c.objectactive, c.nobjects, c.object_);
      assert objectactive[..nobjects] == KeptRow(Byte, c.objectactive)[..c.nobjects];
      b.LoadRecords(objectactive, nobjects, objectSize, object_, c.object_, rest);
    }

    method LoadCreatures(b: Buffer, ghost c: Contents, ghost rest: seq<byte>)
      requires Shaped() && Sound(c) && c.town == town && LevelShape(c, monsterSize, objectSize, itemSize)
      requires nummonsters == c.nummonsters && nobjects == c.nobjects
      requires b.Valid() && b.Left() == CreatureBytes(c) + rest
      modifies b`tbuff, monstactive, monster, objectactive, objectavail, object_
      ensures b.Valid() && b.Left() == rest
      ensures CreaturesRestored(c, old(monstactive[..]), old(objectactive[..]), old(objectavail[..]), old(monster[..]),
                                old(object_[..]),
                                monstactive[..], objectactive[..], objectavail[..], monster[..], object_[..])
    {
      hide RowBytes, RecordBytes, KeptRow, Refilled, Shaped, LevelShape;
      CreaturesAreApart();
      if town {
        assert [] + rest == rest;
        return;
      }
      ghost var p, q := RowBytes(Word, c.monstactive), RecordBytes(c.monstactive[..c.nummonsters], c.monster);
      ghost var r, s, t := RowBytes(Byte, c.objectactive), RowBytes(Byte, c.objectavail),
        RecordBytes(c.objectactive[..c.nobjects], c.object_);
      JoinFive(p, q, r, s, t, rest);
      LoadMonsters(b, c, r + (s + (t + rest)));
      LoadObjects(b, c, rest);
    }

    method LoadFloor(b: Buffer, ghost c: Contents, ghost rest: seq<byte>)
      requires Shaped() && LevelShape(c, monsterSize, objectSize, itemSize) && b.Valid()
        && b.Left() == FloorBytes(c) + rest
      modifies b`tbuff, dFlags, dItem
      ensures b.Valid() && b.Left() == rest
      ensures Rows(dFlags) == KeptGrid(Flags, c.dFlags) && Rows(dItem) == KeptGrid(Byte, c.dItem)
    {
      hide GridBytes, KeptGrid, Rows;
      assert FloorBytes(c) + rest == GridBytes(Flags, c.dFlags) + (GridBytes(Byte, c.dItem) + rest);
      b.LoadGrid(Flags, dFlags, c.dFlags, GridBytes(Byte, c.dItem) + rest);
      b.LoadGrid(Byte, dItem, c.dItem, rest);
    }

    method LoadLights(b: Buffer, ghost c: Contents, ghost rest: seq<byte>)
      requires Shaped() && LevelShape(c, monsterSize, objectSize, itemSize) && b.Valid()
      requires b.Left()
        == GridBytes(Byte, c.dLight) + (GridBytes(Byte, c.dPreLight) + (GridBytes(Truth, c.automapview) + rest))
      modifies b`tbuff, dLight, dPreLight, automapview
      ensures b.Valid() && b.Left() == rest
      ensures Rows(dLight) == KeptGrid(Byte, c.dLight) && Rows(dPreLight) == KeptGrid(Byte, c.dPreLight)
      ensures Rows(automapview) == KeptGrid(Truth, c.automapview)
    {
      hide GridBytes, KeptGrid, Rows;
      b.LoadGrid(Byte, dLight, c.dLight, GridBytes(Byte, c.dPreLight) + (GridBytes(Truth, c.automapview) + rest));
      b.LoadGrid(Byte, dPreLight, c.dPreLight, GridBytes(Truth, c.automapview) + rest);
      b.LoadGrid(Truth, automapview, c.automapview, rest);
    }

    method LoadPlaces(b: Buffer, ghost c: Contents, ghost rest: seq<byte>)
      requires Shaped() && LevelShape(c, monsterSize, objectSize, itemSize) && b.Valid()
      requires b.Left() == GridBytes(Word, c.dMonster) + (GridBytes(Byte, c.dObject) + rest)
      modifies b`tbuff, dMonster, dObject
      ensures b.Valid() && b.Left() == rest
      ensures Rows(dMonster) == c.dMonster && Rows(dObject) == KeptGrid(Byte, c.dObject)
    {
      hide GridBytes, KeptGrid, Rows;
      WordMapKept(c.dMonster);
      b.LoadGrid(Word, dMonster, c.dMonster, GridBytes(Byte, c.dObject) + rest);
      b.LoadGrid(Byte, dObject, c.dObject, rest);
    }

    method LoadDungeon(b: Buffer, ghost c: Contents, ghost rest: seq<byte>)
      requires Shaped() && c.town == town && LevelShape(c, monsterSize, objectSize, itemSize)
      requires b.Valid() && b.Left() == DungeonBytes(c) + rest
      modifies b`tbuff, dMonster, dObject, dLight, dPreLight, automapview, dMissile
      ensures b.Valid() && b.Left() == rest
      ensures MapRestored(c, old(MapsNow()), MapsNow())
    {
      hide GridBytes, DungeonBytes, KeptGrid, Rows, Zero, Shaped, LevelShape;
      MapsAreApart();
      DungeonParts(c, rest);
      if town { return; }
      ghost var after :=
        GridBytes(Byte, c.dLight) + (GridBytes(Byte, c.dPreLight) + (GridBytes(Truth, c.automapview) + rest));
      LoadPlaces(b, c, after);
      LoadLights(b, c, rest);
      ClearMissiles();
    }


    /** The last loop does not read what was saved. */
    method ClearMissiles()
      modifies dMissile
      ensures Zero(Rows(dMissile))
    {
      for j := 0 to dMissile.Length1
        invariant forall i, m :: 0 <= i < dMissile.Length0 && 0 <= m < j ==> dMissile[i, m] == 0
      {
        for i := 0 to dMissile.Length0
          invariant forall i, m :: 0 <= i < dMissile.Length0 && 0 <= m < j ==> dMissile[i, m] == 0
          invariant forall n :: 0 <= n < i ==> dMissile[n, j] == 0
        {
          dMissile[i, j] := 0;
        }
      }
    }

    method LoadDead(b: Buffer, ghost c: Contents, ghost rest: seq<byte>)
      requires Shaped() && LevelShape(c, monsterSize, objectSize, itemSize) && c.town == town
      requires b.Valid() && b.Left() == DeadBytes(c) + rest
      modifies b`tbuff, dDead
      ensures b.Valid() && b.Left() == rest
      ensures Rows(dDead) == if c.town then old(Rows(dDead)) else KeptGrid(Byte, c.dDead)
    {
      hide GridBytes, KeptGrid, Rows;
      if !town {
        b.LoadGrid(Byte, dDead, c.dDead, rest);
      } else {
        assert [] + rest == rest;
      }
    }

    /** Up to the objects. */
    method LoadHead(b: Buffer, ghost c: Contents, ghost rest: seq<byte>)
      requires Shaped() && Sound(c) && LevelShape(c, monsterSize, objectSize, itemSize) && c.town == town
      requires b.Valid() && b.Left() == DeadBytes(c) + (CountBytes(c) + (CreatureBytes(c) + rest))
      modifies b`tbuff, `nummonsters, `numitems, `nobjects, dDead, monstactive, monster, objectactive, objectavail,
        object_
      ensures b.Valid() && b.Left() == rest
      ensures nummonsters == c.nummonsters && numitems == c.numitems && nobjects == c.nobjects
      ensures Rows(dDead) == if c.town then old(Rows(dDead)) else KeptGrid(Byte, c.dDead)
      ensures CreaturesRestored(c, old(monstactive[..]), old(objectactive[..]), old(objectavail[..]), old(monster[..]),
                                old(object_[..]),
                                monstactive[..], objectactive[..], objectavail[..], monster[..], object_[..])
    {
      hide DeadBytes, CountBytes, CreatureBytes, KeptGrid, Rows, CreaturesRestored, Shaped, LevelShape, Sound;
      LoadDead(b, c, CountBytes(c) + (CreatureBytes(c) + rest));
      LoadCounts(b, c, CreatureBytes(c) + rest);
      LoadCreatures(b, c, rest);
    }

    /** From the items on. */
    method LoadTail(b: Buffer, ghost c: Contents, ghost rest: seq<byte>)
      requires Shaped() && Sound(c) && LevelShape(c, monsterSize, objectSize, itemSize) && c.town == town
        && numitems == c.numitems
      requires b.Valid() && b.Left() == ItemBytes(c) + (FloorBytes(c) + (DungeonBytes(c) + rest))
      modifies b`tbuff, itemactive, itemavail, item, dFlags, dItem, dMonster, dObject, dLight, dPreLight, automapview,
        dMissile
      ensures b.Valid() && b.Left() == rest
      ensures itemactive[..] == KeptRow(Byte, c.itemactive) && itemavail[..] == KeptRow(Byte, c.itemavail)
      ensures Refilled(c.itemactive, c.numitems, old(item[..]), c.item, item[..])
      ensures Rows(dFlags) == KeptGrid(Flags, c.dFlags) && Rows(dItem) == KeptGrid(Byte, c.dItem)
      ensures MapRestored(c, old(MapsNow()), MapsNow())
    {
      hide ItemBytes, FloorBytes, DungeonBytes, KeptGrid, KeptRow, Rows, Refilled, MapRestored, MapsNow;
      hide Shaped, LevelShape, Sound;
      FloorIsApart();
      LoadItems(b, c, FloorBytes(c) + (DungeonBytes(c) + rest));
      LoadFloor(b, c, DungeonBytes(c) + rest);
      LoadDungeon(b, c, rest);
    }

    /** `LoadLevel`: everything saved is back, except three flag bits, the missiles, and
        what a signed char does not hold. The reader ends before the missiles. */
    method LoadLevel(b: Buffer, ghost c: Contents)
      requires Shaped() && Sound(c) && LevelShape(c, monsterSize, objectSize, itemSize) && c.town == town
      requires b.Valid() && b.Left() == LevelBytes(c)
      modifies b`tbuff, `nummonsters, `numitems, `nobjects
      modifies monstactive, monster, objectactive, objectavail, object_, itemactive, itemavail, item
      modifies dDead, dFlags, dItem, dMonster, dObject, dLight, dPreLight, automapview, dMissile
      ensures b.Valid() && b.Left() == Unread(c)
      ensures Restored(old(Now()), c, Now())
    {
      hide DeadBytes, CountBytes, CreatureBytes, ItemBytes, FloorBytes, DungeonBytes, Unread;
      hide KeptGrid, KeptRow, Rows, Refilled, CreaturesRestored, MapRestored, Shaped, LevelShape, Sound;
      HeadIsApart();
      LoadHead(b, c, ItemBytes(c) + (FloorBytes(c) + (DungeonBytes(c) + Unread(c))));
      LoadTail(b, c, Unread(c));
    }
  }

  /** Leaving a level and coming back: the bytes that were saved are read into another
      buffer, whatever is in memory by then. */
  method LeaveAndReturn(from: World, to: World, b: Buffer) returns (ghost saved: Contents)
    requires from.Shaped() && from.Ready() && to.Shaped() && to.town == from.town
    requires (to.monsterSize, to.objectSize, to.itemSize) == (from.monsterSize, from.objectSize, from.itemSize)
    requires b.tbuff == 0 && |LevelBytes(from.Now())| <= b.bytes.Length
    modifies b`tbuff, b.bytes
    modifies to`nummonsters, to`numitems, to`nobjects
    modifies to.monstactive, to.monster, to.objectactive, to.objectavail, to.object_, to.itemactive, to.itemavail,
      to.item
    modifies to.dDead, to.dFlags, to.dItem, to.dMonster, to.dObject, to.dLight, to.dPreLight, to.automapview,
      to.dMissile
    ensures saved == old(from.Now()) && SameLevel(saved, to.Now())
  {
    hide World.Shaped, World.Now, LevelBytes, SameLevel, Sound, InRange, LevelShape, Restored;
    saved := from.Now();
    from.TownNow();
    from.SaveLevel(b);
    var file := b.bytes[..b.tbuff];
    ghost var before := to.Now();
    var r := new Buffer.Filled(file);
    to.LoadLevel(r, saved);
    LoadedIsSaved(before, saved, to.Now());
  }

  /** Every value fits its type in memory: signed chars, and truth values 0 and 1. */
  predicate Chars(g: Map) {
    forall j, i :: 0 <= j < |g| && 0 <= i < |g[j]| ==> -128 <= g[j][i] < 128
  }

  predicate Truths(g: Map) {
    forall j, i :: 0 <= j < |g| && 0 <= i < |g[j]| ==> g[j][i] == 0 || g[j][i] == 1
  }

  predicate SlotNumbers(vs: seq<int32>) {
    forall i :: 0 <= i < |vs| ==> -128 <= vs[i] < 128
  }

  predicate InRange(c: Contents) {
    && SlotNumbers(c.itemactive) && SlotNumbers(c.itemavail) && SlotNumbers(c.objectactive)
    && SlotNumbers(c.objectavail)
    && Chars(c.dDead) && Chars(c.dFlags) && Chars(c.dItem) && Chars(c.dObject) && Chars(c.dLight) && Chars(c.dPreLight)
    && Truths(c.automapview)
  }

  /** The records with the first n listed numbers are the saved ones. */
  predicate SameRecords(active: seq<int32>, n: int, saved: seq<Record>, now: seq<Record>) {
    && n <= |active| && |now| == |saved|
    && forall i :: 0 <= i < n ==> 0 <= active[i] < |now| && now[active[i]] == saved[active[i]]
  }

  lemma TableKept(vs: seq<int32>)
    requires SlotNumbers(vs)
    ensures KeptRow(Byte, vs) == vs
  {}

  lemma MapKept(g: Map)
    ensures Chars(g) ==> KeptGrid(Byte, g) == g
    ensures Truths(g) ==> KeptGrid(Truth, g) == g
  {
    forall j | 0 <= j < |g|
      ensures Chars(g) ==> KeptRow(Byte, g[j]) == g[j]
      ensures Truths(g) ==> KeptRow(Truth, g[j]) == g[j]
    {}
  }

  /** now has every counter, table, record in use and map of c, but of the flags three
      bits less, and no missiles. */
  predicate SameLevel(c: Contents, now: Contents) {
    && (now.nummonsters, now.numitems, now.nobjects) == (c.nummonsters, c.numitems, c.nobjects)
    && now.itemactive == c.itemactive && now.itemavail == c.itemavail && now.dItem == c.dItem
    && SameRecords(c.itemactive, c.numitems, c.item, now.item)
    && SameFlags(c.dFlags, now.dFlags)
    && (!c.town ==>
          && (now.monstactive, now.objectactive, now.objectavail) == (c.monstactive, c.objectactive, c.objectavail)
          && (now.dDead, now.dMonster, now.dObject, now.dLight, now.dPreLight)
             == (c.dDead, c.dMonster, c.dObject, c.dLight, c.dPreLight)
          && now.automapview == c.automapview && Zero(now.dMissile)
          && SameRecords(c.monstactive, c.nummonsters, c.monster, now.monster)
          && SameRecords(c.objectactive, c.nobjects, c.object_, now.object_))
  }

  predicate SameFlags(g: Map, g': Map) {
    && |g'| == |g|
    && forall j :: 0 <= j < |g| ==> |g'[j]| == |g[j]| && forall i :: 0 <= i < |g[j]| ==> g'[j][i] == 8 * (g[j][i] / 8)
  }

  /** A saved level comes back as it was: every counter, table, record in use and map
      but the flags, which lose three bits, and the missiles, which are gone. */
  lemma LoadedIsSaved(before: Contents, c: Contents, now: Contents)
    requires Sound(c) && InRange(c) && Restored(before, c, now)
    ensures SameLevel(c, now)
  {
    hide KeptGrid, KeptRow, Chars, Truths, Zero, SlotNumbers, SameRecords, SameFlags;
    TableKept(c.itemactive);
    TableKept(c.itemavail);
    TableKept(c.objectactive);
    TableKept(c.objectavail);
    MapKept(c.dDead);
    MapKept(c.dItem);
    MapKept(c.dObject);
    MapKept(c.dLight);
    MapKept(c.dPreLight);
    MapKept(c.automapview);
    FlagsKept(c.dFlags);
    RecordsKept(c.itemactive, c.numitems, before.item, c.item, now.item);
    if !c.town {
      RecordsKept(c.monstactive, c.nummonsters, before.monster, c.monster, now.monster);
      RecordsKept(c.objectactive, c.nobjects, before.object_, c.object_, now.object_);
    }
  }

  lemma FlagsKept(g: Map)
    requires Chars(g)
    ensures SameFlags(g, KeptGrid(Flags, g))
  {
    hide Kept;
    forall v: int32 | -128 <= v < 128 ensures Kept(Flags, v) == 8 * (v / 8) { KeptInRange(v); }
  }

  lemma RecordsKept(active: seq<int32>, n: int, before: seq<Record>, saved: seq<Record>, now: seq<Record>)
    requires Listed(active, n, saved) && Refilled(active, n, before, saved, now)
    ensures SameRecords(active, n, saved, now)
  {
    forall i | 0 <= i < n
      ensures 0 <= active[i] < |now| && now[active[i]] == saved[active[i]] { assert active[..n][i] == active[i]; }
  }

  lemma JoinAll(p: seq<byte>, q: seq<byte>, r: seq<byte>, s: seq<byte>, t: seq<byte>, u: seq<byte>)
    ensures p + (q + (r + (s + (t + u)))) == p + q + r + s + t + u
    ensures |p + q + r + s + t + u| == |p| + |q| + |r| + |s| + |t| + |u|
  {}

  lemma JoinThree(p: seq<byte>, q: seq<byte>, r: seq<byte>, rest: seq<byte>)
    ensures (p + (q + r)) + rest == p + (q + (r + rest))
  {}

  lemma JoinFive(p: seq<byte>, q: seq<byte>, r: seq<byte>, s: seq<byte>, t: seq<byte>, rest: seq<byte>)
    ensures (p + (q + (r + (s + t)))) + rest == p + (q + (r + (s + (t + rest))))
  {}

  lemma WordsKept(vs: seq<int32>)
    ensures KeptRow(Word, vs) == vs
  {}

  lemma WordMapKept(g: Map)
    ensures KeptGrid(Word, g) == g
  {
    forall j | 0 <= j < |g| ensures KeptGrid(Word, g)[j] == g[j] { WordsKept(g[j]); }
  }

  /** The numbers of the records in use survive in single bytes. */
  lemma ActiveKept(active: seq<int32>, n: int, recs: seq<Record>)
    requires Listed(active, n, recs) && |recs| <= 128
    ensures KeptRow(Byte, active)[..n] == active[..n] && Listed(KeptRow(Byte, active), n, recs)
    ensures forall before, now :: Refilled(KeptRow(Byte, active), n, before, recs, now) ==>
      Refilled(active, n, before, recs, now)
  {
    forall i | 0 <= i < n ensures KeptRow(Byte, active)[i] == active[i] { assert active[..n][i] == active[i]; }
  }

  lemma TownAndDungeon(c: Contents)
    requires Sound(c)
    ensures c.town ==> DeadBytes(c) == [] && CreatureBytes(c) == [] && DungeonBytes(c) == [] && Unread(c) == []
    ensures !c.town ==> DeadBytes(c) == GridBytes(Byte, c.dDead)
  {}

  lemma Join5(d: seq<byte>, p: seq<byte>, q: seq<byte>, r: seq<byte>, s: seq<byte>, t: seq<byte>)
    ensures d + p + q + r + s + t == d + (p + (q + (r + (s + t))))
    ensures |p + (q + (r + (s + t)))| == |p| + |q| + |r| + |s| + |t|
  {}

  lemma Join6(d: seq<byte>, p: seq<byte>, q: seq<byte>, r: seq<byte>, s: seq<byte>, t: seq<byte>, u: seq<byte>)
    ensures d + p + q + r + s + t + u == d + ((p + (q + (r + (s + t)))) + u)
    ensures |(p + (q + (r + (s + t)))) + u| == |p| + |q| + |r| + |s| + |t| + |u|
  {}
}
