/** A player's inventory (Source/inv.cpp): the body slots, the belt, the grid
    with its item list, and the item on the cursor. */
module Inventory {
  import opened CInt
  import opened Counting
  import opened InvGrid

  const ITYPE_SHIELD := 5
  const ITYPE_GOLD := 11
  const ITYPE_NONE := -1
  const ILOC_ONEHAND := 1
  const ILOC_TWOHAND := 2
  const ILOC_ARMOR := 3
  const ILOC_HELM := 4
  const ILOC_RING := 5
  const ILOC_AMULET := 6
  const ILOC_UNEQUIPABLE := 7
  const ILOC_BELT := 8
  const ICLASS_WEAPON := 1
  const INVLOC_HEAD := 0
  const INVLOC_RING_LEFT := 1
  const INVLOC_RING_RIGHT := 2
  const INVLOC_AMULET := 3
  const INVLOC_HAND_LEFT := 4
  const INVLOC_HAND_RIGHT := 5
  const INVLOC_CHEST := 6
  const NUM_INVLOC := 7
  const MAXBELTITEMS := 8
  const GOLD_SMALL_LIMIT := 1000
  const GOLD_MEDIUM_LIMIT := 2500
  const GOLD_MAX_LIMIT := 5000
  const ICURS_GOLD_SMALL := 4
  const ICURS_GOLD_MEDIUM := 5
  const ICURS_GOLD_LARGE := 6
  const CURSOR_HAND := 1
  const CURSOR_FIRSTITEM := 12

  /** The fields of ItemStruct the inventory looks at; `usable` is the flag of the
      item's kind and `rest` everything that no inventory operation touches. */
  datatype Item = Item(itype: int, curs: int, value: int, class_: int, loc: int, usable: bool, rest: int) {
    predicate Present() { itype != ITYPE_NONE }
    predicate IsGold() { itype == ITYPE_GOLD }

    /** Cells across and down (InvItemWidth and InvItemHeight, in cells of 28 pixels). */
    function W(): int { if curs < 75 then 1 else 2 }
    function H(): int {
      if curs < 50 then 1 else if curs < 56 then 2 else if curs < 75 then 3 else if curs < 100 then 2 else 3
    }

    /** What the item tables guarantee: a known picture, and gold as 1x1 piles that
        cannot be worn. */
    predicate Ok() {
      0 <= curs < 168 && (IsGold() ==> loc == ILOC_UNEQUIPABLE
                                        && ICURS_GOLD_SMALL <= curs <= ICURS_GOLD_LARGE && 0 <= value <= GOLD_MAX_LIMIT)
    }
  }

  function PileCursor(value: int): int {
    if value >= GOLD_MEDIUM_LIMIT then ICURS_GOLD_LARGE
    else if value <= GOLD_SMALL_LIMIT then ICURS_GOLD_SMALL
    else ICURS_GOLD_MEDIUM
  }

  // ------------------------------------------------------ counting items

  ghost function One(i: Item): multiset<Item> {
    if i.Present() && !i.IsGold() then multiset{i} else multiset{}
  }

  function Coins(i: Item): int {
    if i.IsGold() then i.value else 0
  }

  /** The items of a list other than gold. */
  ghost function NonGold(s: seq<Item>): multiset<Item> {
    if s == [] then multiset{} else NonGold(s[..|s| - 1]) + One(s[|s| - 1])
  }

  function Gold(s: seq<Item>): int {
    if s == [] then 0 else Gold(s[..|s| - 1]) + Coins(s[|s| - 1])
  }

  lemma {:induction false} CountUpdate(s: seq<Item>, i: int, v: Item)
    requires 0 <= i < |s|
    ensures NonGold(s[i := v]) + One(s[i]) == NonGold(s) + One(v)
    ensures Gold(s[i := v]) + Coins(s[i]) == Gold(s) + Coins(v)
  {
    hide One;
    var n := |s| - 1;
    if i == n {
      assert s[i := v][..n] == s[..n];
      Shuffle(NonGold(s[..n]), One(v), One(s[i]));
    } else {
      assert s[i := v][..n] == s[..n][i := v];
      CountUpdate(s[..n], i, v);
      Shuffle(NonGold(s[..n][i := v]), One(s[n]), One(s[i]));
      Shuffle(NonGold(s[..n]), One(s[n]), One(v));
    }
  }

  lemma Shuffle(a: multiset<Item>, b: multiset<Item>, c: multiset<Item>)
    ensures a + b + c == a + c + b
  {}

  lemma CountAppend(s: seq<Item>, v: Item)
    ensures NonGold(s + [v]) == NonGold(s) + One(v)
    ensures Gold(s + [v]) == Gold(s) + Coins(v)
  {
    assert (s + [v])[..|s|] == s;
  }

  /** The list after entry i is removed: the last entry moves into its place. */
  function Without(s: seq<Item>, i: int): seq<Item>
    requires 0 <= i < |s|
  {
    if i == |s| - 1 then s[..i] else s[..|s| - 1][i := s[|s| - 1]]
  }

  lemma CountWithout(s: seq<Item>, i: int)
    requires 0 <= i < |s|
    ensures NonGold(Without(s, i)) + One(s[i]) == NonGold(s)
    ensures Gold(Without(s, i)) + Coins(s[i]) == Gold(s)
  {
    hide One;
    var n := |s| - 1;
    if i < n { CountUpdate(s[..n], i, s[n]); }
  }

  /** Exchanging two entries loses nothing. */
  lemma CountSwap(s: seq<Item>, i: int, j: int)
    requires 0 <= i < |s| && 0 <= j < |s| && i != j
    ensures NonGold(s[i := s[j]][j := s[i]]) == NonGold(s) && Gold(s[i := s[j]][j := s[i]]) == Gold(s)
  {
    CountUpdate(s, i, s[j]);
    CountUpdate(s[i := s[j]], j, s[i]);
    Cancel(NonGold(s[i := s[j]][j := s[i]]), NonGold(s), One(s[j]));
  }

  // ------------------------------------------------------ the hands

  /** The two hands never hold two items of one class, and a two-hander is in
      the left hand with the right hand empty. */
  predicate HandsFit(left: Item, right: Item) {
    && (left.Present() && right.Present() ==> left.class_ != right.class_)
    && (left.Present() && left.loc == ILOC_TWOHAND ==> !right.Present())
    && (right.Present() ==> right.loc != ILOC_TWOHAND)
  }

  ghost predicate SizesFit(rects: seq<Rect>, list: seq<Item>) {
    && |rects| == |list|
    && forall a :: 0 <= a < |list| ==> rects[a].w == list[a].W() && rects[a].h == list[a].H()
  }

  ghost predicate AllOk(s: seq<Item>) {
    forall a :: 0 <= a < |s| ==> s[a].Present() ==> s[a].Ok()
  }

  /** Worn items are in order, and gold is not worn. */
  ghost predicate WornOk(s: seq<Item>) {
    forall a :: 0 <= a < |s| ==> (s[a].Present() ==> s[a].Ok()) && !s[a].IsGold()
  }

  ghost predicate AllPresent(s: seq<Item>) {
    forall a :: 0 <= a < |s| ==> s[a].Present()
  }

  class Player {
    const InvGrid: array<int>
    const InvList: array<Item>
    const InvBody: array<Item>
    const SpdList: array<Item>
    var numInv: int
    var HoldItem: Item
    var pGold: int
    var pcurs: int
    ghost var rects: seq<Rect>  // where each item of the list stands

    constructor (nothing: Item)
      requires !nothing.Present()
      ensures Valid() && fresh(InvGrid) && fresh(InvList) && fresh(InvBody) && fresh(SpdList)
      ensures numInv == 0 && pcurs == CURSOR_HAND
    {
      InvGrid := new int[CELLS](_ => 0);
      InvList := new Item[CELLS](_ => nothing);
      InvBody := new Item[NUM_INVLOC](_ => nothing);
      SpdList := new Item[MAXBELTITEMS](_ => nothing);
      numInv, HoldItem, pGold, pcurs, rects := 0, nothing, 0, CURSOR_HAND, [];
      new;
      NoGold(SpdList[..]);
    }

    predicate Shapes() {
      && InvGrid.Length == InvList.Length == CELLS && InvBody.Length == NUM_INVLOC && SpdList.Length == MAXBELTITEMS
      && InvList != InvBody && InvList != SpdList && InvBody != SpdList
    }

    predicate Sized()
      reads this`numInv
    {
      Shapes() && 0 <= numInv <= CELLS
    }

    ghost function List(): seq<Item>
      requires Sized()
      reads this`numInv, InvList
    {
      InvList[..numInv]
    }

    ghost function Contents(): Bag
      requires Sized()
      reads this`numInv, this`rects, InvList
    {
      Bag(List(), rects)
    }

    /** The grid and the item list agree. */
    ghost predicate GridOk()
      reads this`numInv, this`rects, InvGrid, InvList
    {
      && Sized()
      && Shows(InvGrid[..], rects) && SizesFit(rects, List()) && AllOk(List()) && AllPresent(List())
    }

    ghost predicate BodyOk()
      reads InvBody
    {
      Shapes() && WornOk(InvBody[..]) && HandsFit(InvBody[INVLOC_HAND_LEFT], InvBody[INVLOC_HAND_RIGHT])
    }

    ghost predicate HoldOk()
      reads this`HoldItem
    {
      HoldItem.Present() && HoldItem.Ok()
    }

    /** What the panel shows as the player's gold is the gold in belt and grid. */
    ghost predicate GoldOk()
      reads this`numInv, this`pGold, InvList, SpdList
    {
      Sized() && pGold == Gold(SpdList[..]) + Gold(List())
    }

    /** By how much the panel shows too much. */
    ghost function GoldError(): (e: int)
      requires Sized()
      reads this`numInv, this`pGold, InvList, SpdList
      ensures e == 0 <==> GoldOk()
    {
      pGold - Gold(SpdList[..]) - Gold(List())
    }

    /** All but the hand. */
    ghost predicate Settled()
      reads this`numInv, this`rects, this`pGold, InvGrid, InvList, InvBody, SpdList
    {
      Sized() && GridOk() && BodyOk() && AllOk(SpdList[..]) && GoldOk()
    }

    ghost predicate Valid()
      reads this, InvGrid, InvList, InvBody, SpdList
    {
      && Settled()
      && (pcurs >= CURSOR_FIRSTITEM ==> HoldOk())
    }

    /** Everything the player carries that is not gold. */
    ghost function Kept(): multiset<Item>
      requires Sized()
      reads this, InvList, InvBody, SpdList
    {
      NonGold(InvBody[..]) + NonGold(SpdList[..]) + NonGold(List()) + InHand(pcurs, HoldItem)
    }

    /** The gold in piles and in hand. */
    ghost function Wealth(): int
      requires Sized()
      reads this, InvList, SpdList
    {
      Gold(SpdList[..]) + Gold(List()) + CoinsInHand(pcurs, HoldItem)
    }

    lemma EntryOk(i: int)
      requires Sized() && GridOk() && 0 <= i < numInv
      ensures List()[i].Present() && List()[i].Ok()
    {}

    lemma CellOk(k: int)
      requires Sized() && GridOk() && 0 <= k < CELLS
      ensures Abs(InvGrid[k]) <= numInv && |List()| == |rects|
    {}

    // ---------------------------------------------------- loops over the grid

    method PlaceRect(x0: int, y0: int, sx: int, sy: int, a: int)
      requires InvGrid.Length == CELLS && Rect(x0, y0, sx, sy).Fits()
      modifies InvGrid
      ensures InvGrid[..] == Placed(old(InvGrid[..]), Rect(x0, y0, sx, sy), a)
    {
      ghost var r, g := Rect(x0, y0, sx, sy), InvGrid[..];
      var yy := 10 * y0;
      for j := 0 to sy
        invariant yy == 10 * (y0 + j)
        invariant forall k :: 0 <= k < CELLS ==>
          InvGrid[k] == if Rect(x0, y0, sx, j).Has(k) then (if k == r.Anchor() then a else -a) else g[k]
      {
        var xx := x0;
        for i := 0 to sx
          invariant xx == x0 + i
          invariant forall k :: 0 <= k < CELLS ==>
            InvGrid[k] == if Rect(x0, y0, sx, j).Has(k) || Rect(x0, y0 + j, i, 1).Has(k)
                          then (if k == r.Anchor() then a else -a) else g[k]
        {
          if i != 0 || j != sy - 1 {
            InvGrid[xx + yy] := -a;
          } else {
            InvGrid[xx + yy] := a;
          }
          xx := xx + 1;
        }
        yy := yy + 10;
      }
    }

    method EraseItem(a: int)
      requires InvGrid.Length == CELLS
      modifies InvGrid
      ensures InvGrid[..] == Erased(old(InvGrid[..]), a)
    {
      for i := 0 to CELLS
        invariant forall k :: 0 <= k < CELLS ==>
          InvGrid[k] == if k < i then Erased(old(InvGrid[..]), a)[k] else old(InvGrid[..])[k]
      {
        if InvGrid[i] == a || InvGrid[i] == -a {
          InvGrid[i] := 0;
        }
      }
    }

    method RelabelItem(from: int, to: int)
      requires InvGrid.Length == CELLS && 0 < from && 0 < to
      modifies InvGrid
      ensures InvGrid[..] == Relabelled(old(InvGrid[..]), from, to)
    {
      for i := 0 to CELLS
        invariant forall k :: 0 <= k < CELLS ==>
          InvGrid[k] == if k < i then Relabelled(old(InvGrid[..]), from, to)[k] else old(InvGrid[..])[k]
      {
        if InvGrid[i] == from {
          InvGrid[i] := to;
        }
        if InvGrid[i] == -from {
          InvGrid[i] := -to;
        }
      }
    }

    /** The scan of AutoPlace: is the rectangle at cell ii inside the grid and free? */
    method ScanFree(ii: int, sx: int, sy: int) returns (done: bool)
      requires InvGrid.Length == CELLS && 1 <= sx && 1 <= sy
      ensures done <==> RectAt(ii, sx, sy).Fits() && Free(InvGrid[..], RectAt(ii, sx, sy))
    {
      ghost var r := RectAt(ii, sx, sy);
      done := true;
      var yy := 10 * Div(ii, 10);
      if yy < 0 { yy := 0; }
      var j := 0;
      while j < sy && done
        invariant 0 <= j <= sy && yy == 10 * (r.y + j) && r.y >= 0
        invariant done ==>
          (j > 0 ==> r.y + j <= ROWS && r.x + sx <= COLUMNS) && Free(InvGrid[..], Rect(r.x, r.y, sx, j))
        invariant !done ==> !(r.Fits() && Free(InvGrid[..], r))
      {
        if yy >= 40 {
          done := false;
        } else {
          var xx := Mod(ii, 10);
          if xx < 0 { xx := 0; }
          done := FreeRow(xx, yy, sx);
          RowsOfRect(InvGrid[..], r, j);
        }
        yy := yy + 10;
        j := j + 1;
      }
    }

    /** One row of that scan: sx cells from column x0 on. */
    method FreeRow(x0: int, yy: int, sx: int) returns (done: bool)
      requires InvGrid.Length == CELLS && 0 <= x0 < COLUMNS && 0 <= yy < CELLS && yy % 10 == 0 && 1 <= sx
      ensures done <==> x0 + sx <= COLUMNS && Free(InvGrid[..], Rect(x0, yy / 10, sx, 1))
    {
      done := true;
      var xx, i := x0, 0;
      while i < sx && done
        invariant 0 <= i <= sx && xx == x0 + i
        invariant done ==> xx <= COLUMNS && Free(InvGrid[..], Rect(x0, yy / 10, i, 1))
        invariant !done ==> x0 + sx > COLUMNS || !Free(InvGrid[..], Rect(x0, yy / 10, sx, 1))
      {
        if xx < 10 {
          done := InvGrid[xx + yy] == 0;
          assert Rect(x0, yy / 10, sx, 1).Has(xx + yy);
        } else {
          done := false;
        }
        xx := xx + 1;
        i := i + 1;
      }
    }

    /** Puts the held item into the grid at cell ii, if its rectangle is free. */
    method AutoPlace(ii: int, sx: int, sy: int, saveflag: bool) returns (done: bool)
      requires GridOk() && 1 <= sx && 1 <= sy
      requires saveflag ==> HoldOk() && sx == HoldItem.W() && sy == HoldItem.H()
      modifies this`numInv, this`rects, InvGrid, InvList
      ensures GridOk()
      ensures done <==> RectAt(ii, sx, sy).Fits() && Free(old(InvGrid[..]), RectAt(ii, sx, sy))
      ensures done && saveflag ==> List() == old(List()) + [HoldItem] && rects == old(rects) + [RectAt(ii, sx, sy)]
      ensures !(done && saveflag) ==> InvGrid[..] == old(InvGrid[..]) && InvList[..] == old(InvList[..])
                                      && numInv == old(numInv) && rects == old(rects)
    {
      done := ScanFree(ii, sx, sy);
      if done && saveflag {
        AppendRect(RectAt(ii, sx, sy), HoldItem);
      }
    }

    /** Appends an entry to the list and puts it on the free rectangle r. */
    method AppendRect(r: Rect, entry: Item)
      requires GridOk() && r.Fits() && Free(InvGrid[..], r)
      requires entry.Present() && entry.Ok() && r.w == entry.W() && r.h == entry.H()
      modifies this`numInv, this`rects, InvGrid, InvList
      ensures GridOk() && List() == old(List()) + [entry] && rects == old(rects) + [r]
    {
      hide Shows, ShowsBut, SizesFit, AllOk, AllPresent, Free, Placed;
      ghost var list, g, was := List(), InvGrid[..], rects;
      FreeMeansRoom(g, was, r);
      EntriesWith(was, list, r, entry);
      InvList[numInv] := entry;
      numInv := numInv + 1;
      PlaceRect(r.x, r.y, r.w, r.h, numInv);
      RoomForOneMore(g, was, r);
      PlaceShows(g, was + [r], numInv - 1, r);
      rects := was + [r];
      assert rects[numInv - 1 := r] == rects;
      assert List() == list + [entry];
    }

    // ---------------------------------------------------- removal

    /** Takes entry iv off the grid and out of the list; the last entry moves into
        its place and takes over its number. */
    method RemoveEntry(iv: int)
      requires GridOk() && 0 <= iv < numInv
      modifies this`numInv, this`rects, InvGrid, InvList
      ensures Sized() && GridOk()
      ensures |old(List())| == |old(rects)| && Contents() == old(Contents()).Less(iv + 1)
    {
      hide Shows, ShowsBut, Erased, Relabelled, SizesFit, AllOk, AllPresent;
      ghost var list, was := List(), rects;
      EntriesWithout(was, list, iv);
      EraseItem(iv + 1);
      EraseShows(old(InvGrid[..]), rects, iv);
      MoveLastShows(InvGrid[..], rects, iv);
      numInv := numInv - 1;
      rects := RectsWithout(was, iv);
      if numInv > 0 && numInv != iv {
        InvList[iv] := InvList[numInv];
        RelabelItem(numInv + 1, iv + 1);
      }
      assert List() == Without(list, iv);
    }

    /** RemoveInvItem loses exactly the removed entry. `_pGold` is not recomputed, so it
        is off by what the entry was worth, on top of what it was off before. */
    method RemoveInvItem(iv: int)
      requires GridOk() && 0 <= iv < numInv
      modifies this`numInv, this`rects, InvGrid, InvList
      ensures GridOk() && |old(List())| == |old(rects)| && Contents() == old(Contents()).Less(iv + 1)
      ensures Kept() + One(old(List())[iv]) == old(Kept())
      ensures Wealth() + Coins(old(List())[iv]) == old(Wealth())
      ensures GoldError() == old(GoldError()) + Coins(old(List())[iv])
    {
      hide Shows, SizesFit, AllOk, AllPresent, Without, NonGold, Gold, One, InHand, CoinsInHand;
      ghost var list, body, belt := List(), InvBody[..], SpdList[..];
      RemoveEntry(iv);
      assert InvBody[..] == body && SpdList[..] == belt;
      CountWithout(list, iv);
      Regroup(NonGold(body), NonGold(belt), NonGold(List()), InHand(pcurs, HoldItem), One(list[iv]));
    }

    method CalculateGold() returns (gold: int)
      requires Sized()
      ensures gold == Gold(SpdList[..]) + Gold(List())
    {
      gold := 0;
      for i := 0 to MAXBELTITEMS
        invariant gold == Gold(SpdList[..i])
      {
        assert SpdList[..i + 1][..i] == SpdList[..i];
        if SpdList[i].IsGold() { gold := gold + SpdList[i].value; }
      }
      assert SpdList[..MAXBELTITEMS] == SpdList[..];
      for i := 0 to numInv
        invariant gold == Gold(SpdList[..]) + Gold(InvList[..i])
      {
        assert InvList[..i + 1][..i] == InvList[..i];
        if InvList[i].IsGold() { gold := gold + InvList[i].value; }
      }
    }

    // ---------------------------------------------------- gold

    /** Adds v coins to pile i. */
    method Merge(i: int, v: int)
      requires GridOk() && 0 <= i < numInv && HasRoom(List()[i], v) && 0 <= v
      modifies InvList
      ensures GridOk() && List() == old(List())[i := Merged(old(List())[i], v)]
      ensures NonGold(List()) == old(NonGold(List())) && Gold(List()) == old(Gold(List())) + v
    {
      hide Shows, SizesFit, AllOk, AllPresent;
      ghost var list := List();
      var pile := InvList[i].(value := v + InvList[i].value);
      if pile.value >= GOLD_MEDIUM_LIMIT { pile := pile.(curs := ICURS_GOLD_LARGE); }
      else if pile.value <= GOLD_SMALL_LIMIT { pile := pile.(curs := ICURS_GOLD_SMALL); }
      else { pile := pile.(curs := ICURS_GOLD_MEDIUM); }
      MergeCounts(rects, list, i, v);
      assert pile == Merged(list[i], v);
      hide NonGold, Gold, Merged;
      InvList[i] := pile;
      assert List() == list[i := Merged(list[i], v)];
    }

    /** Puts one 1x1 entry on the empty cell k. */
    method AppendCell(k: int, entry: Item)
      requires GridOk() && 0 <= k < CELLS && InvGrid[k] == 0
      requires entry.Present() && entry.Ok() && entry.W() == 1 && entry.H() == 1
      modifies this`numInv, this`rects, InvGrid, InvList
      ensures GridOk() && List() == old(List()) + [entry]
      ensures rects == old(rects) + [CellRect(k)]
    {
      hide Shows, ShowsBut, SizesFit, AllOk, AllPresent, Placed, Free;
      ghost var list, g, was, r := List(), InvGrid[..], rects, CellRect(k);
      OneCellPlaced(g, k, numInv + 1);
      FreeMeansRoom(g, was, r);
      EntriesWith(was, list, r, entry);
      InvList[numInv] := entry;
      numInv := numInv + 1;
      InvGrid[k] := numInv;
      assert InvGrid[..] == g[k := numInv];
      RoomForOneMore(g, was, r);
      PlaceShows(g, was + [r], numInv - 1, r);
      rects := was + [r];
      assert rects[numInv - 1 := r] == rects;
      assert List() == list + [entry];
    }

    /** Held gold goes to the first pile with room for all of it, else to the last
        empty cell of the grid, else nowhere. */
    method GoldAutoPlace() returns (done: bool)
      requires GridOk() && HoldOk() && HoldItem.IsGold()
      modifies this`numInv, this`rects, this`pGold, InvGrid, InvList
      ensures GridOk() && NonGold(List()) == old(NonGold(List()))
      ensures done ==> GoldOk() && Gold(List()) == old(Gold(List())) + HoldItem.value
      ensures !done ==> InvGrid[..] == old(InvGrid[..]) && List() == old(List()) && pGold == old(pGold)
      ensures done <==>
        (exists i :: 0 <= i < old(numInv) && HasRoom(old(List())[i], HoldItem.value)) || 0 in old(InvGrid[..])
      ensures !done ==> rects == old(rects)
      ensures forall i :: 0 <= i < old(numInv) && FirstRoom(old(List()), i, HoldItem.value) ==>
        && List() == old(List())[i := Merged(old(List())[i], HoldItem.value)]
        && InvGrid[..] == old(InvGrid[..]) && rects == old(rects)
      ensures (forall i :: 0 <= i < old(numInv) ==> !HasRoom(old(List())[i], HoldItem.value)) ==>
        forall k :: LastEmpty(old(InvGrid[..]), k) ==>
          Contents() == old(Contents()).With(Merged(HoldItem, 0), CellRect(k))
    {
      hide Shows, SizesFit, AllOk, AllPresent, Merged, NonGold, Gold;
      ghost var list, g := List(), InvGrid[..];
      var v := HoldItem.value;
      done := false;
      var i := 0;
      while i < numInv && !done
        invariant numInv == |list| && 0 <= i <= numInv && GridOk() && InvGrid[..] == g
        invariant !done ==> List() == list && pGold == old(pGold) && forall k :: 0 <= k < i ==> !HasRoom(list[k], v)
        invariant rects == old(rects)
        invariant done ==> i > 0 && HasRoom(list[i - 1], v) && (forall k :: 0 <= k < i - 1 ==> !HasRoom(list[k], v))
                           && List() == list[i - 1 := Merged(list[i - 1], v)] && GoldOk()
                           && NonGold(List()) == NonGold(list) && Gold(List()) == Gold(list) + v
      {
        if InvList[i].IsGold() {
          if v + InvList[i].value <= GOLD_MAX_LIMIT {
            Merge(i, v);
            pGold := CalculateGold();
            done := true;
          }
        }
        i := i + 1;
      }
      if done { return; }
      i := 0;
      while i < numInv && !done
        invariant 0 <= i <= numInv && !done && List() == list
        invariant forall k :: 0 <= k < |list| ==> !list[k].IsGold() || v + list[k].value > GOLD_MAX_LIMIT
      {
        // a pile with room would have been found above
        if InvList[i].IsGold() && InvList[i].value < GOLD_MAX_LIMIT {
          if v + InvList[i].value <= GOLD_MAX_LIMIT {
            assert false;
          }
        }
        i := i + 1;
      }
      done := NewPile();
    }

    /** Its third loop: a new pile on the last empty cell. */
    method NewPile() returns (done: bool)
      requires GridOk() && HoldOk() && HoldItem.IsGold()
      modifies this`numInv, this`rects, this`pGold, InvGrid, InvList
      ensures GridOk() && (done <==> 0 in old(InvGrid[..]))
      ensures !done ==> InvGrid[..] == old(InvGrid[..]) && Contents() == old(Contents()) && pGold == old(pGold)
      ensures forall k :: LastEmpty(old(InvGrid[..]), k) ==>
        Contents() == old(Contents()).With(Merged(HoldItem, 0), CellRect(k))
      ensures NonGold(List()) == old(NonGold(List()))
      ensures done ==> GoldOk() && Gold(List()) == old(Gold(List())) + HoldItem.value
    {
      hide Shows, SizesFit, AllOk, AllPresent, Merged, NonGold, Gold;
      ghost var list, g := List(), InvGrid[..];
      var v := HoldItem.value;
      done := false;
      var i := 39;
      while i >= 0 && !done
        invariant -1 <= i <= 39 && GridOk()
        invariant !done ==>
          && List() == list && InvGrid[..] == g && pGold == old(pGold) && rects == old(rects)
          && forall k :: i < k < CELLS ==> g[k] != 0
        invariant done ==> GoldOk() && i + 1 < CELLS && LastEmpty(g, i + 1)
                           && Contents() == old(Contents()).With(Merged(HoldItem, 0), CellRect(i + 1))
                           && NonGold(List()) == NonGold(list) && Gold(List()) == Gold(list) + v
      {
        if InvGrid[i] == 0 {
          assert g[i] == 0;
          var entry := HoldItem;
          if v >= GOLD_MEDIUM_LIMIT { entry := entry.(curs := ICURS_GOLD_LARGE); }
          else if v <= GOLD_SMALL_LIMIT { entry := entry.(curs := ICURS_GOLD_SMALL); }
          else { entry := entry.(curs := ICURS_GOLD_MEDIUM); }
          PileOfHand(HoldItem, entry);
          AppendCell(i, entry);
          CountAppend(list, entry);
          PileCounts(list, entry);
          pGold := CalculateGold();
          done := true;
        }
        i := i - 1;
      }
    }

    // ---------------------------------------------------- weapons

    /** A weapon goes to a free hand as long as no hand holds a weapon. */
    method WeaponAutoPlace() returns (done: bool)
      requires BodyOk() && HoldOk() && !HoldItem.IsGold() && HoldItem.class_ == ICLASS_WEAPON
      modifies InvBody
      ensures BodyOk()
      ensures var left, right := old(InvBody[INVLOC_HAND_LEFT]), old(InvBody[INVLOC_HAND_RIGHT]);
              var free := if HoldItem.loc == ILOC_TWOHAND then !left.Present() && !right.Present()
                          else !(left.Present() && left.class_ == ICLASS_WEAPON)
                               && !(right.Present() && right.class_ == ICLASS_WEAPON)
                               && (!left.Present() || (!right.Present() && left.loc != ILOC_TWOHAND));
              var slot := if left.Present() then INVLOC_HAND_RIGHT else INVLOC_HAND_LEFT;
              && (done <==> free)
              && InvBody[..] == if free then old(InvBody[..])[slot := HoldItem] else old(InvBody[..])
      ensures done ==> NonGold(InvBody[..]) == old(NonGold(InvBody[..])) + One(HoldItem)
    {
      hide WornOk, NonGold, One, Item.IsGold, Item.Ok;
      if HoldItem.loc != ILOC_TWOHAND {
        if InvBody[INVLOC_HAND_LEFT].Present() && InvBody[INVLOC_HAND_LEFT].class_ == ICLASS_WEAPON { return false; }
        if InvBody[INVLOC_HAND_RIGHT].Present() && InvBody[INVLOC_HAND_RIGHT].class_ == ICLASS_WEAPON { return false; }
        if !InvBody[INVLOC_HAND_LEFT].Present() {
          Wear(INVLOC_HAND_LEFT);
          return true;
        }
        if !InvBody[INVLOC_HAND_RIGHT].Present() && InvBody[INVLOC_HAND_LEFT].loc != ILOC_TWOHAND {
          Wear(INVLOC_HAND_RIGHT);
          return true;
        }
      } else if !InvBody[INVLOC_HAND_LEFT].Present() && !InvBody[INVLOC_HAND_RIGHT].Present() {
        Wear(INVLOC_HAND_LEFT);
        return true;
      }
      return false;
    }

    /** `InvBody[slot] = HoldItem` on an empty slot. */
    method Wear(slot: int)
      requires Shapes() && 0 <= slot < NUM_INVLOC && !InvBody[slot].Present() && HoldOk() && !HoldItem.IsGold()
        && WornOk(InvBody[..])
      modifies InvBody
      ensures InvBody[..] == old(InvBody[..])[slot := HoldItem] && WornOk(InvBody[..])
      ensures NonGold(InvBody[..]) == old(NonGold(InvBody[..])) + One(HoldItem)
    {
      ghost var body := InvBody[..];
      CountUpdate(body, slot, HoldItem);
      InvBody[slot] := HoldItem;
      assert InvBody[..] == body[slot := HoldItem];
    }

    // ---------------------------------------------------- paste: the body

    /** What the player would carry with the cursor at cn. */
    ghost function KeptWith(cn: int): multiset<Item>
      requires Sized()
      reads this, InvList, InvBody, SpdList
    {
      NonGold(InvBody[..]) + NonGold(SpdList[..]) + NonGold(List()) + InHand(cn, HoldItem)
    }

    ghost function WealthWith(cn: int): int
      requires Sized()
      reads this, InvList, SpdList
    {
      Gold(SpdList[..]) + Gold(List()) + CoinsInHand(cn, HoldItem)
    }

    /** SwapItem between a filled body slot and the hand; the new cursor shows what came out. */
    method SwapBody(slot: int) returns (cn: int)
      requires Shapes() && 0 <= slot < NUM_INVLOC && InvBody[slot].Present() && HoldOk() && !HoldItem.IsGold()
        && WornOk(InvBody[..])
      modifies InvBody, this`HoldItem
      ensures InvBody[..] == old(InvBody[..])[slot := old(HoldItem)] && HoldItem == old(InvBody[slot])
      ensures cn == HoldItem.curs + CURSOR_FIRSTITEM && HoldOk() && !HoldItem.IsGold() && WornOk(InvBody[..])
      ensures NonGold(InvBody[..]) + InHand(cn, HoldItem) == old(NonGold(InvBody[..])) + One(old(HoldItem))
    {
      ghost var body := InvBody[..];
      CountUpdate(body, slot, HoldItem);
      InvBody[slot], HoldItem := HoldItem, InvBody[slot];
      cn := HoldItem.curs + CURSOR_FIRSTITEM;
      assert InvBody[..] == body[slot := old(HoldItem)];
    }

    /** The paste cases for head, rings, amulet and chest. */
    method PasteSlot(slot: int) returns (cn: int)
      requires BodyOk() && HoldOk() && !HoldItem.IsGold() && 0 <= slot < NUM_INVLOC
      modifies InvBody, this`HoldItem
      ensures InvBody[..] == old(InvBody[..])[slot := old(HoldItem)]
      ensures old(InvBody[slot]).Present() ==> HoldItem == old(InvBody[slot]) && cn == HoldItem.curs + CURSOR_FIRSTITEM
      ensures !old(InvBody[slot]).Present() ==> HoldItem == old(HoldItem) && cn == CURSOR_HAND
      ensures WornOk(InvBody[..]) && HoldOk() && !HoldItem.IsGold()
      ensures NonGold(InvBody[..]) + InHand(cn, HoldItem) == old(NonGold(InvBody[..])) + One(old(HoldItem))
    {
      hide WornOk, NonGold, One;
      if !InvBody[slot].Present() {
        Wear(slot);
        cn := CURSOR_HAND;
      } else {
        cn := SwapBody(slot);
      }
    }

    /** A one-handed item goes where OneHandTarget says; what was there comes to the
        hand, and so does a two-hander when its empty right side is used. */
    method PasteOneHand(r: int) returns (cn: int)
      requires BodyOk() && HoldOk() && HoldItem.loc == ILOC_ONEHAND && 7 <= r <= 18
      modifies InvBody, this`HoldItem
      ensures BodyOk() && HoldOk() && !HoldItem.IsGold()
      ensures var left, right := old(InvBody[INVLOC_HAND_LEFT]), old(InvBody[INVLOC_HAND_RIGHT]);
              var target := OneHandTarget(r, left, right, old(HoldItem));
              if target == INVLOC_HAND_RIGHT && left.Present() && left.loc == ILOC_TWOHAND then
                InvBody[..] == old(InvBody[..])[INVLOC_HAND_LEFT := right][INVLOC_HAND_RIGHT := old(HoldItem)]
                && HoldItem == left && cn == left.curs + CURSOR_FIRSTITEM
              else
                InvBody[..] == old(InvBody[..])[target := old(HoldItem)]
                && (if old(InvBody[..])[target].Present()
                    then HoldItem == old(InvBody[..])[target] && cn == HoldItem.curs + CURSOR_FIRSTITEM
                    else cn == CURSOR_HAND)
      ensures NonGold(InvBody[..]) + InHand(cn, HoldItem) == old(NonGold(InvBody[..])) + One(old(HoldItem))
    {
      hide WornOk, NonGold, One;
      if r <= 12 {
        if !InvBody[INVLOC_HAND_LEFT].Present() {
          if !InvBody[INVLOC_HAND_RIGHT].Present() || InvBody[INVLOC_HAND_RIGHT].class_ != HoldItem.class_ {
            Wear(INVLOC_HAND_LEFT);
            cn := CURSOR_HAND;
          } else {
            cn := SwapBody(INVLOC_HAND_RIGHT);
          }
          return;
        }
        if !InvBody[INVLOC_HAND_RIGHT].Present() || InvBody[INVLOC_HAND_RIGHT].class_ != HoldItem.class_ {
          cn := SwapBody(INVLOC_HAND_LEFT);
          return;
        }
        cn := SwapBody(INVLOC_HAND_RIGHT);
        return;
      }
      if !InvBody[INVLOC_HAND_RIGHT].Present() {
        if !InvBody[INVLOC_HAND_LEFT].Present() || InvBody[INVLOC_HAND_LEFT].loc != ILOC_TWOHAND {
          if !InvBody[INVLOC_HAND_LEFT].Present() || InvBody[INVLOC_HAND_LEFT].class_ != HoldItem.class_ {
            Wear(INVLOC_HAND_RIGHT);
            cn := CURSOR_HAND;
            return;
          }
          cn := SwapBody(INVLOC_HAND_LEFT);
          return;
        }
        ExchangeHands();
        cn := SwapBody(INVLOC_HAND_RIGHT);
        return;
      }
      if InvBody[INVLOC_HAND_LEFT].Present() && InvBody[INVLOC_HAND_LEFT].class_ == HoldItem.class_ {
        cn := SwapBody(INVLOC_HAND_LEFT);
        return;
      }
      cn := SwapBody(INVLOC_HAND_RIGHT);
    }

    /** SwapItem between the two hands. */
    method ExchangeHands()
      requires Shapes() && WornOk(InvBody[..])
      modifies InvBody
      ensures WornOk(InvBody[..]) && NonGold(InvBody[..]) == old(NonGold(InvBody[..]))
      ensures var left, right := old(InvBody[INVLOC_HAND_LEFT]), old(InvBody[INVLOC_HAND_RIGHT]);
              InvBody[..] == old(InvBody[..])[INVLOC_HAND_LEFT := right][INVLOC_HAND_RIGHT := left]
    {
      ghost var body := InvBody[..];
      CountSwap(body, INVLOC_HAND_LEFT, INVLOC_HAND_RIGHT);
      InvBody[INVLOC_HAND_LEFT], InvBody[INVLOC_HAND_RIGHT] := InvBody[INVLOC_HAND_RIGHT], InvBody[INVLOC_HAND_LEFT];
      ghost var left, right := body[INVLOC_HAND_LEFT], body[INVLOC_HAND_RIGHT];
      assert InvBody[..] == body[INVLOC_HAND_LEFT := right][INVLOC_HAND_RIGHT := left];
    }

    /** `InvBody[slot]._itype = ITYPE_NONE` */
    method TakeOff(slot: int)
      requires Shapes() && 0 <= slot < NUM_INVLOC && WornOk(InvBody[..])
      modifies InvBody
      ensures WornOk(InvBody[..])
      ensures InvBody[..] == old(InvBody[..])[slot := old(InvBody[slot]).(itype := ITYPE_NONE)]
      ensures NonGold(InvBody[..]) + One(old(InvBody[slot])) == old(NonGold(InvBody[..]))
    {
      ghost var body := InvBody[..];
      CountUpdate(body, slot, body[slot].(itype := ITYPE_NONE));
      InvBody[slot] := InvBody[slot].(itype := ITYPE_NONE);
      assert InvBody[..] == body[slot := body[slot].(itype := ITYPE_NONE)];
    }

    /** When both hands are full, the shield (else the left item) goes to the first
        place in the grid that takes it. The held item is lent away for the search
        and comes back. */
    method StowOne() returns (done2h: bool)
      requires GridOk() && BodyOk() && HoldOk() && pcurs >= CURSOR_FIRSTITEM
      requires InvBody[INVLOC_HAND_LEFT].Present() && InvBody[INVLOC_HAND_RIGHT].Present()
      modifies InvBody, this`HoldItem, this`pcurs, this`numInv, this`rects, InvGrid, InvList
      ensures GridOk() && BodyOk() && HoldItem == old(HoldItem) && pcurs == HoldItem.curs + CURSOR_FIRSTITEM
      ensures var slot := StowSlot(old(InvBody[..]));
              var moved := old(InvBody[..])[slot];
              && (done2h <==> HasPlace(old(InvGrid[..]), moved))
              && (done2h ==> Stowed(old(Contents()), Contents(), old(InvGrid[..]), moved)
                             && InvBody[..] == old(InvBody[..])[slot := moved.(itype := ITYPE_NONE)])
      ensures !done2h ==>
        InvBody[..] == old(InvBody[..]) && InvGrid[..] == old(InvGrid[..]) && Contents() == old(Contents())
      ensures NonGold(InvBody[..]) + NonGold(List()) == old(NonGold(InvBody[..]) + NonGold(List()))
      ensures Gold(List()) == old(Gold(List()))
    {
      hide Shows, SizesFit, AllOk, AllPresent, Free, NonGold, One, Gold;
      ghost var bag, list, g, body := Contents(), List(), InvGrid[..], InvBody[..];
      var tempitem := HoldItem;
      if InvBody[INVLOC_HAND_RIGHT].itype == ITYPE_SHIELD {
        HoldItem := InvBody[INVLOC_HAND_RIGHT];
      } else {
        HoldItem := InvBody[INVLOC_HAND_LEFT];
      }
      ghost var moved := HoldItem;
      pcurs := HoldItem.curs + CURSOR_FIRSTITEM;
      done2h := false;
      var i := 0;
      while i < CELLS && !done2h
        invariant 0 <= i <= CELLS && GridOk() && HoldItem == moved && InvBody[..] == body
        invariant !done2h ==> InvGrid[..] == g && Contents() == bag
        invariant !done2h ==> forall k :: 0 <= k < i ==> !TakesAt(g, moved, k)
        invariant done2h ==>
          i > 0 && FirstPlace(g, moved, i - 1) && Contents() == bag.With(moved, RectAt(i - 1, moved.W(), moved.H()))
      {
        done2h := AutoPlace(i, HoldItem.W(), HoldItem.H(), true);
        assert done2h <==> TakesAt(g, moved, i);
        i := i + 1;
      }
      HoldItem := tempitem;
      pcurs := HoldItem.curs + CURSOR_FIRSTITEM;
      assert InvBody[..] == body;
      if done2h {
        if InvBody[INVLOC_HAND_RIGHT].itype == ITYPE_SHIELD {
          TakeOff(INVLOC_HAND_RIGHT);
        } else {
          TakeOff(INVLOC_HAND_LEFT);
        }
        CountAppend(list, moved);
        Hop(NonGold(InvBody[..]), NonGold(list), One(moved));
      }
    }

    /** A two-hander ends up alone in the hands. Of two items already there, one
        must first go to the grid; the other, or the only one, comes to the cursor. */
    method PasteTwoHand() returns (placed: bool, cn: int)
      requires GridOk() && BodyOk() && HoldOk() && HoldItem.loc == ILOC_TWOHAND && pcurs >= CURSOR_FIRSTITEM
      modifies InvBody, this`HoldItem, this`pcurs, this`numInv, this`rects, InvGrid, InvList
      ensures GridOk() && BodyOk() && HoldOk()
      ensures var left, right := old(InvBody[INVLOC_HAND_LEFT]), old(InvBody[INVLOC_HAND_RIGHT]);
              var moved := old(InvBody[..])[StowSlot(old(InvBody[..]))];
              if left.Present() && right.Present() then
                && (placed <==> HasPlace(old(InvGrid[..]), moved))
                && (placed ==> Stowed(old(Contents()), Contents(), old(InvGrid[..]), moved)
                               && HoldItem == if moved == left then right else left)
              else
                && placed && Contents() == old(Contents())
                && HoldItem == if left.Present() then left else if right.Present() then right else old(HoldItem)
      ensures placed ==> InvBody[INVLOC_HAND_LEFT] == old(HoldItem) && !InvBody[INVLOC_HAND_RIGHT].Present()
                         && forall i :: 0 <= i < NUM_INVLOC && i != INVLOC_HAND_LEFT && i != INVLOC_HAND_RIGHT ==>
                            InvBody[i] == old(InvBody[i])
      ensures placed ==> cn == if old(InvBody[INVLOC_HAND_LEFT]).Present() || old(InvBody[INVLOC_HAND_RIGHT]).Present()
                               then HoldItem.curs + CURSOR_FIRSTITEM else CURSOR_HAND
      ensures placed ==> NonGold(InvBody[..]) + NonGold(List()) + InHand(cn, HoldItem)
                         == old(NonGold(InvBody[..]) + NonGold(List())) + One(old(HoldItem))
      ensures !placed ==>
        InvBody[..] == old(InvBody[..]) && HoldItem == old(HoldItem) && InvGrid[..] == old(InvGrid[..])
                          && Contents() == old(Contents()) && pcurs == HoldItem.curs + CURSOR_FIRSTITEM
      ensures Gold(List()) == old(Gold(List())) && !HoldItem.IsGold()
    {
      hide Shows, SizesFit, AllOk, AllPresent, Free, NonGold, One, Gold, HasPlace, InHand;
      placed, cn := true, CURSOR_HAND;
      ghost var hold := HoldItem;
      if InvBody[INVLOC_HAND_LEFT].Present() && InvBody[INVLOC_HAND_RIGHT].Present() {
        placed := StowOne();
        if !placed { return; }
      }
      ghost var bag := NonGold(List());
      if InvBody[INVLOC_HAND_LEFT].Present() || InvBody[INVLOC_HAND_RIGHT].Present() {
        if !InvBody[INVLOC_HAND_LEFT].Present() {
          ExchangeHands();
        }
        ghost var before := NonGold(InvBody[..]);
        cn := SwapBody(INVLOC_HAND_LEFT);
        Exchange(NonGold(InvBody[..]), before, bag, InHand(cn, HoldItem), One(hold));
      } else {
        ghost var before := NonGold(InvBody[..]);
        Wear(INVLOC_HAND_LEFT);
        NoneInHand(HoldItem);
        Exchange(NonGold(InvBody[..]), before, bag, InHand(cn, HoldItem), One(hold));
      }
    }

    // ---------------------------------------------------- paste: the grid

    /** The scan of CheckInvPaste: the rectangle must lie in the grid and meet at
        most one item, which is then `it`. */
    method ScanOverlap(ii: int, sx: int, sy: int) returns (done: bool, it: int)
      requires InvGrid.Length == CELLS && 0 <= ii < CELLS && 1 <= sx && 1 <= sy
      ensures done ==> PasteRect(ii, sx, sy).Fits() && OnlyItem(InvGrid[..], PasteRect(ii, sx, sy), it)
      ensures done && it != 0 ==> Meets(InvGrid[..], PasteRect(ii, sx, sy), it)
      ensures !done ==> !PasteRect(ii, sx, sy).Fits() || TwoItems(InvGrid[..], PasteRect(ii, sx, sy))
    {
      ghost var r, g, c := PasteRect(ii, sx, sy), InvGrid[..], 0;  // c: where `it` was first met
      done, it := true, 0;
      var yy := 10 * (ii / 10 - (sy - 1) / 2);
      if yy < 0 { yy := 0; }
      var j := 0;
      while j < sy && done
        invariant 0 <= j <= sy && yy == 10 * (r.y + j)
        invariant it >= 0 && 0 <= c < CELLS && (it != 0 ==> r.Has(c) && Abs(g[c]) == it)
        invariant done ==> (j > 0 ==> r.y + j <= ROWS && r.x + sx <= COLUMNS) && OnlyItem(g, Rect(r.x, r.y, sx, j), it)
        invariant !done ==> !r.Fits() || TwoItems(g, r)
      {
        if yy >= CELLS {
          done := false;
        } else {
          var xx := ii % 10 - (sx - 1) / 2;
          if xx < 0 { xx := 0; }
          done, it, c := ScanRow(xx, yy, it, sx, c, r, j);
        }
        yy := yy + 10;
        j := j + 1;
      }
    }

    /** One row of that scan, from column xx. */
    method ScanRow(x0: int, yy: int, was: int, sx: int, ghost c0: int, ghost r: Rect, ghost j: int)
      returns (done: bool, it: int, ghost c: int)
      requires InvGrid.Length == CELLS && 0 <= x0 < COLUMNS && x0 == r.x && sx == r.w && 1 <= sx
      requires 0 <= yy < CELLS && yy == 10 * (r.y + j) && 0 <= j < r.h && 0 <= r.y
      requires was >= 0 && 0 <= c0 < CELLS && (was != 0 ==> r.Has(c0) && Abs(InvGrid[c0]) == was)
      requires OnlyItem(InvGrid[..], Rect(r.x, r.y, sx, j), was)
      ensures it >= 0 && 0 <= c < CELLS && (it != 0 ==> r.Has(c) && Abs(InvGrid[c]) == it)
      ensures done ==> r.x + sx <= COLUMNS && OnlyItem(InvGrid[..], Rect(r.x, r.y, sx, j + 1), it)
      ensures !done ==> !r.Fits() || TwoItems(InvGrid[..], r)
    {
      hide OnlyItem, TwoItems;
      done, it, c := true, was, c0;
      ghost var g := InvGrid[..];
      OnlyItemEmpty(g, Rect(r.x, r.y + j, 0, 1), it);
      var xx := x0;
      var i := 0;
      while i < sx && done
        invariant 0 <= i <= sx && xx == r.x + i
        invariant it >= 0 && 0 <= c < CELLS && (it != 0 ==> r.Has(c) && Abs(g[c]) == it)
        invariant done ==>
          xx <= COLUMNS && OnlyItem(g, Rect(r.x, r.y, sx, j), it) && OnlyItem(g, Rect(r.x, r.y + j, i, 1), it)
        invariant !done ==> !r.Fits() || TwoItems(g, r)
      {
        if xx >= 10 {
          done := false;
        } else {
          assert r.Has(xx + yy) && g[xx + yy] == InvGrid[xx + yy];
          if InvGrid[xx + yy] != 0 {
            var iv := InvGrid[xx + yy];
            if iv < 0 { iv := -iv; }
            if it != 0 {
              if it != iv {
                MeetsTwo(g, r, c, xx + yy);
                done := false;
              }
            } else {
              OnlyItemNamed(g, Rect(r.x, r.y, sx, j), iv);
              OnlyItemNamed(g, Rect(r.x, r.y + j, i, 1), iv);
              it := iv;
              c := xx + yy;
            }
          }
          if done { OnlyItemNextCell(g, r, j, i, it); }
        }
        xx := xx + 1;
        i := i + 1;
      }
      if done { OnlyItemNextRow(g, r, j, it); }
    }

    /** The held item takes the place of entry il, on rectangle r; the entry comes to the hand. */
    method ReplaceEntry(il: int, r: Rect) returns (cn: int)
      requires GridOk() && HoldOk() && 0 <= il < numInv && r.Fits()
      requires r.w == HoldItem.W() && r.h == HoldItem.H() && OnlyItem(InvGrid[..], r, il + 1)
      modifies this`HoldItem, this`rects, InvGrid, InvList
      ensures GridOk() && HoldOk() && |old(List())| == |old(rects)|
      ensures Contents() == old(Contents()).Replaced(il + 1, old(HoldItem), r) && HoldItem == old(List())[il]
      ensures cn == HoldItem.curs + CURSOR_FIRSTITEM
      ensures NonGold(List()) + InHand(cn, HoldItem) == old(NonGold(List())) + One(old(HoldItem))
      ensures Gold(List()) + Coins(HoldItem) == old(Gold(List())) + Coins(old(HoldItem))
    {
      hide Shows, ShowsBut, SizesFit, AllOk, AllPresent, Free, OnlyItem, NonGold, Gold, Placed, Erased;
      ghost var list, g, was, hold := List(), InvGrid[..], rects, HoldItem;
      EntriesReplaced(was, list, il, r, hold);
      CountUpdate(list, il, hold);
      FreedBy(g, r, il + 1);
      InvList[il], HoldItem := HoldItem, InvList[il];
      cn := HoldItem.curs + CURSOR_FIRSTITEM;
      EraseItem(il + 1);
      EraseShows(g, was, il);
      PlaceShows(InvGrid[..], was, il, r);
      PlaceRect(r.x, r.y, r.w, r.h, il + 1);
      rects := was[il := r];
      assert List() == list[il := hold];
    }

    /** Held gold on cell ii: onto an empty cell, into a pile (what does not fit
        stays in the hand), or in exchange for another item. */
    method PasteGold(ii: int) returns (cn: int)
      requires Sized() && GridOk() && HoldOk() && HoldItem.IsGold() && 0 <= ii < CELLS && GoldOk()
      modifies this`HoldItem, this`rects, this`numInv, this`pGold, InvGrid, InvList
      ensures Sized() && GridOk() && GoldOk() && HoldOk()
      ensures GoldPasted(old(Contents()), Contents(), ii, old(InvGrid[ii]), old(HoldItem), HoldItem, cn)
      ensures NonGold(List()) + InHand(cn, HoldItem) == old(NonGold(List()))
      ensures Gold(List()) + CoinsInHand(cn, HoldItem) == old(Gold(List())) + old(HoldItem.value)
    {
      hide GridOk, GoldOk, NonGold, Gold, Merged, PilePasted;
      CellOk(ii);
      var it := 0;
      if InvGrid[ii] != 0 {
        var iv := InvGrid[ii];
        if iv > 0 {
          if !InvList[iv - 1].IsGold() { it := iv; }
        } else {
          it := -iv;
        }
      }
      if it == 0 {
        if InvGrid[ii] > 0 {
          cn := PasteOnPile(InvGrid[ii] - 1);
        } else {
          DropPile(ii);
          cn := CURSOR_HAND;
        }
      } else {
        cn := TradeGold(ii, it);
      }
    }

    /** Held gold becomes a new pile on the empty cell ii. */
    method DropPile(ii: int)
      requires Sized() && GridOk() && HoldOk() && HoldItem.IsGold() && 0 <= ii < CELLS && GoldOk() && InvGrid[ii] == 0
      modifies this`rects, this`numInv, this`pGold, InvGrid, InvList
      ensures Sized() && GridOk() && GoldOk()
      ensures Contents() == old(Contents()).With(Merged(HoldItem, 0), CellRect(ii))
      ensures NonGold(List()) == old(NonGold(List())) && Gold(List()) == old(Gold(List())) + HoldItem.value
    {
      hide Shows, SizesFit, AllOk, AllPresent, NonGold, Gold;
      ghost var list, belt := List(), SpdList[..];
      var entry := HoldItem.(curs := PileCursor(HoldItem.value));
      PileOfHand(HoldItem, entry);
      PileCounts(list, entry);
      AppendCell(ii, entry);
      assert SpdList[..] == belt;
      pGold := pGold + HoldItem.value;
    }

    /** Held gold takes the place of item `it`, which covers cell ii. */
    method TradeGold(ii: int, it: int) returns (cn: int)
      requires Sized() && GridOk() && HoldOk() && HoldItem.IsGold() && 0 <= ii < CELLS && GoldOk()
      requires 1 <= it <= numInv && Abs(InvGrid[ii]) == it
      modifies this`HoldItem, this`rects, this`pGold, InvGrid, InvList
      ensures Sized() && GridOk() && GoldOk() && HoldOk()
      ensures |old(List())| == |old(rects)| && HoldItem == old(List())[it - 1]
      ensures Contents() == old(Contents()).Replaced(it, old(HoldItem), CellRect(ii))
      ensures cn == HoldItem.curs + CURSOR_FIRSTITEM
      ensures NonGold(List()) + InHand(cn, HoldItem) == old(NonGold(List()))
      ensures Gold(List()) + Coins(HoldItem) == old(Gold(List())) + old(HoldItem.value)
    {
      hide Shows, SizesFit, AllOk, AllPresent, OnlyItem, NonGold, Gold;
      OneCellOnly(InvGrid[..], ii);
      GoldIsSmall(HoldItem);
      ghost var belt := SpdList[..];
      pGold := pGold + HoldItem.value;
      cn := ReplaceEntry(it - 1, CellRect(ii));
      assert SpdList[..] == belt;
      if HoldItem.IsGold() {
        pGold := CalculateGold();
      }
    }

    /** Merging the held gold into pile il, up to the limit of a pile. */
    method PasteOnPile(il: int) returns (cn: int)
      requires Sized() && GridOk() && HoldOk() && HoldItem.IsGold() && 0 <= il < numInv && List()[il].IsGold()
        && GoldOk()
      modifies this`HoldItem, this`pGold, InvList
      ensures Sized() && GridOk() && GoldOk() && HoldOk() && HoldItem.IsGold()
      ensures PilePasted(old(List()), List(), il, old(HoldItem), HoldItem, cn)
      ensures NonGold(List()) == old(NonGold(List()))
      ensures Gold(List()) + CoinsInHand(cn, HoldItem) == old(Gold(List())) + old(HoldItem.value)
    {
      hide GridOk, GoldOk, NonGold, Gold, Merged;
      EntryOk(il);
      var gt := InvList[il].value;
      var ig := HoldItem.value + gt;
      if ig <= GOLD_MAX_LIMIT {
        cn := CURSOR_HAND;
        MergeAndCount(il, HoldItem.value);
      } else {
        ig := GOLD_MAX_LIMIT - gt;
        MergeAndCount(il, ig);  // fills the pile to GOLD_MAX_LIMIT
        cn := KeepChange(ig);
      }
    }

    /** Takes ig coins from the held gold; the cursor numbers are the pictures of piles. */
    method KeepChange(ig: int) returns (cn: int)
      requires HoldOk() && HoldItem.IsGold() && 0 <= ig < HoldItem.value
      modifies this`HoldItem
      ensures HoldItem == old(HoldItem).(value := old(HoldItem.value) - ig) && HoldOk()
      ensures cn == PileCursor(HoldItem.value) + CURSOR_FIRSTITEM
    {
      HoldItem := HoldItem.(value := HoldItem.value - ig);
      if HoldItem.value >= GOLD_MEDIUM_LIMIT { cn := 18; }
      else if HoldItem.value <= GOLD_SMALL_LIMIT { cn := 16; }
      else { cn := 17; }
    }

    method MergeAndCount(i: int, v: int)
      requires Sized() && GridOk() && GoldOk() && 0 <= i < numInv && HasRoom(List()[i], v) && 0 <= v
      modifies InvList, this`pGold
      ensures Sized() && GridOk() && GoldOk() && List() == old(List())[i := Merged(old(List())[i], v)]
      ensures NonGold(List()) == old(NonGold(List())) && Gold(List()) == old(Gold(List())) + v
    {
      hide Shows, SizesFit, AllOk, AllPresent, NonGold, Gold, Merged, HasRoom;
      ghost var belt := SpdList[..];
      Merge(i, v);
      assert SpdList[..] == belt;
      pGold := pGold + v;
    }

    /** Any other held item on cell ii: on free cells it joins the list, over one item
        it takes that item's place, and otherwise nothing happens. */
    method PasteItem(ii: int) returns (done: bool, cn: int)
      requires Sized() && GridOk() && HoldOk() && !HoldItem.IsGold() && 0 <= ii < CELLS && GoldOk()
      modifies this`HoldItem, this`rects, this`numInv, this`pGold, InvGrid, InvList
      ensures Sized() && GridOk() && GoldOk() && HoldOk()
      ensures var r := PasteRect(ii, old(HoldItem).W(), old(HoldItem).H());
              && (done <==> r.Fits() && !TwoItems(old(InvGrid[..]), r))
              && (done ==> ItemPasted(old(Contents()), Contents(), old(InvGrid[..]), r, old(HoldItem), HoldItem, cn))
      ensures !done ==> InvGrid[..] == old(InvGrid[..]) && Contents() == old(Contents()) && HoldItem == old(HoldItem)
      ensures done ==> NonGold(List()) + InHand(cn, HoldItem) == old(NonGold(List())) + One(old(HoldItem))
      ensures done ==> Gold(List()) + CoinsInHand(cn, HoldItem) == old(Gold(List()))
    {
      hide Shows, AllOk, AllPresent, OnlyItem, TwoItems, Meets, Free, NonGold, Gold, One;
      ghost var g, list, belt, hold := InvGrid[..], List(), SpdList[..], HoldItem;
      var it;
      cn := CURSOR_HAND;
      done, it := ScanOverlap(ii, HoldItem.W(), HoldItem.H());
      var r := PasteRect(ii, HoldItem.W(), HoldItem.H());
      if !done { return; }
      OneMeansNotTwo(g, r, it);
      NoCoins(HoldItem);
      if it == 0 {
        FreeIfNone(g, r);
        CountAppend(list, HoldItem);
        AppendRect(r, HoldItem);
        NoneInHand(HoldItem);
      } else {
        NotFree(g, r, it);
        OverlapIsEntry(g, rects, r, it);
        cn := ReplaceEntry(it - 1, r);
      }
      assert SpdList[..] == belt;
      if it != 0 && HoldItem.IsGold() {
        pGold := CalculateGold();
      }
    }

    // ---------------------------------------------------- paste: the belt

    /** Onto belt slot ii; its item, if any, comes to the hand. (Gold cannot get here:
        the guard of CheckInvPaste turns it away.) */
    method PasteBelt(ii: int) returns (cn: int)
      requires Sized() && HoldOk() && !HoldItem.IsGold() && 0 <= ii < MAXBELTITEMS && GoldOk() && AllOk(SpdList[..])
      modifies this`HoldItem, this`pGold, SpdList
      ensures GoldOk() && HoldOk() && AllOk(SpdList[..])
      ensures SpdList[..] == old(SpdList[..])[ii := old(HoldItem)]
      ensures if old(SpdList[ii]).Present() then HoldItem == old(SpdList[ii]) && cn == HoldItem.curs + CURSOR_FIRSTITEM
              else HoldItem == old(HoldItem) && cn == CURSOR_HAND
      ensures NonGold(SpdList[..]) + InHand(cn, HoldItem) == old(NonGold(SpdList[..])) + One(old(HoldItem))
      ensures Gold(SpdList[..]) + CoinsInHand(cn, HoldItem) == old(Gold(SpdList[..]))
    {
      hide NonGold, Gold, One;
      ghost var belt, list := SpdList[..], List();
      CountUpdate(belt, ii, HoldItem);
      NoCoins(HoldItem);
      if !SpdList[ii].Present() {
        OneOfNothing(SpdList[ii]);
        SpdList[ii] := HoldItem;
        cn := CURSOR_HAND;
      } else {
        SpdList[ii], HoldItem := HoldItem, SpdList[ii];
        cn := HoldItem.curs + CURSOR_FIRSTITEM;
      }
      assert SpdList[..] == belt[ii := old(HoldItem)];
      assert List() == list;
      if cn != CURSOR_HAND && HoldItem.IsGold() {
        pGold := CalculateGold();
      }
    }

    // ---------------------------------------------------- paste and cut

    /** The paste cases for slots that are worn, chosen by the slot's kind. */
    method PasteWorn(r: int, il: int) returns (placed: bool, cn: int)
      requires Settled() && HoldOk() && pcurs >= CURSOR_FIRSTITEM && HoldItem.loc == il
      requires 0 <= r <= 24 && (il == SlotLoc(r) || (il == ILOC_TWOHAND && SlotLoc(r) == ILOC_ONEHAND))
      modifies InvBody, this`HoldItem, this`pcurs, this`numInv, this`rects, InvGrid, InvList
      ensures Settled() && HoldOk()
      ensures placed ==> KeptWith(cn) == old(Kept()) && WealthWith(cn) == old(Wealth()) && pGold == old(pGold)
      ensures !placed ==>
        il == ILOC_TWOHAND && Kept() == old(Kept()) && Wealth() == old(Wealth()) && pcurs >= CURSOR_FIRSTITEM
      ensures placed ==> WornPasted(old(InvBody[..]), InvBody[..], r, il, old(HoldItem), HoldItem, cn)
      ensures placed <==> !Crowded(old(InvBody[..]), old(InvGrid[..]), il)
      ensures if placed && il == ILOC_TWOHAND && TwoHeld(old(InvBody[..]))
              then Stowed(old(Contents()), Contents(), old(InvGrid[..]), old(InvBody[..])[StowSlot(old(InvBody[..]))])
              else Contents() == old(Contents())
      ensures !placed ==>
        InvBody[..] == old(InvBody[..]) && HoldItem == old(HoldItem) && InvGrid[..] == old(InvGrid[..])
                          && pcurs == HoldItem.curs + CURSOR_FIRSTITEM
    {
      hide Shows, SizesFit, AllOk, AllPresent, HandsFit, WornOk, NonGold, Gold, One, HasPlace;
      ghost var belt, list, body, hold := SpdList[..], List(), InvBody[..], HoldItem;
      WornIsNotGold(HoldItem);
      placed := true;
      if il == ILOC_TWOHAND {
        placed, cn := PasteTwoHand();
        assert SpdList[..] == belt && InvBody[..][INVLOC_HAND_LEFT] == InvBody[INVLOC_HAND_LEFT];
        assert InvBody[..][INVLOC_HAND_RIGHT] == InvBody[INVLOC_HAND_RIGHT];
        if placed {
          Rejoin(NonGold(InvBody[..]), NonGold(belt), NonGold(List()), InHand(cn, HoldItem), NonGold(body),
                 NonGold(list), One(hold));
        }
        return;
      }
      if il == ILOC_ONEHAND {
        cn := PasteOneHand(r);
      } else {
        var slot := INVLOC_CHEST;
        if il == ILOC_HELM { slot := INVLOC_HEAD; }
        if il == ILOC_RING { slot := if r == 4 then INVLOC_RING_LEFT else INVLOC_RING_RIGHT; }
        if il == ILOC_AMULET { slot := INVLOC_AMULET; }
        cn := PasteSlot(slot);
      }
      assert SpdList[..] == belt && List() == list;
      Exchange(NonGold(InvBody[..]), NonGold(body), NonGold(list), InHand(cn, HoldItem), One(hold));
      Rejoin(NonGold(InvBody[..]), NonGold(belt), NonGold(list), InHand(cn, HoldItem), NonGold(body), NonGold(list),
             One(hold));
    }

    /** One click with an item on the cursor, on slot rectangle r: whatever happens,
        nothing is lost or made, and the inventory stays in order. `stat` is the
        held item's stat flag. */
    method CheckInvPaste(r: int, stat: bool)
      requires Valid() && pcurs >= CURSOR_FIRSTITEM && 0 <= r <= 72
      modifies this, InvGrid, InvList, InvBody, SpdList
      ensures Valid() && Kept() == old(Kept()) && Wealth() == old(Wealth())
      ensures !Welcome(old(HoldItem), r, stat) ==> unchanged(this, InvGrid, InvList, InvBody, SpdList)
      ensures Welcome(old(HoldItem), r, stat) && r <= 24 ==>
        var loc := old(HoldItem).loc;
        if Crowded(old(InvBody[..]), old(InvGrid[..]), loc)
        then InvBody[..] == old(InvBody[..]) && HoldItem == old(HoldItem) && InvGrid[..] == old(InvGrid[..])
             && Contents() == old(Contents())
        else
          && WornPasted(old(InvBody[..]), InvBody[..], r, loc, old(HoldItem), HoldItem, pcurs)
          && if loc == ILOC_TWOHAND && TwoHeld(old(InvBody[..]))
             then Stowed(old(Contents()), Contents(), old(InvGrid[..]), old(InvBody[..])[StowSlot(old(InvBody[..]))])
             else Contents() == old(Contents())
      ensures r < 65 ==> SpdList[..] == old(SpdList[..])
      ensures r > 24 ==> InvBody[..] == old(InvBody[..])
      ensures r >= 65 ==> Contents() == old(Contents()) && InvGrid[..] == old(InvGrid[..])
      ensures Welcome(old(HoldItem), r, stat) && r >= 65 ==>
        SlotPasted(old(SpdList[..]), SpdList[..], r - 65, old(HoldItem), HoldItem, pcurs)
      ensures 25 <= r <= 64 && old(HoldItem).IsGold() ==>
        GoldPasted(old(Contents()), Contents(), r - 25, old(InvGrid[r - 25]), old(HoldItem), HoldItem, pcurs)
      ensures 25 <= r <= 64 && !old(HoldItem).IsGold() ==>
        var rect := PasteRect(r - 25, old(HoldItem).W(), old(HoldItem).H());
        if rect.Fits() && !TwoItems(old(InvGrid[..]), rect)
        then ItemPasted(old(Contents()), Contents(), old(InvGrid[..]), rect, old(HoldItem), HoldItem, pcurs)
        else InvGrid[..] == old(InvGrid[..]) && Contents() == old(Contents()) && HoldItem == old(HoldItem)
             && pcurs == old(pcurs)
    {
      hide GridOk, BodyOk, GoldOk, AllOk, NonGold, Gold, One, GoldPasted, ItemPasted, TwoItems, WornPasted, Crowded,
        TwoHeld;
      var il := ILOC_UNEQUIPABLE;
      if 0 <= r <= 3 { il := ILOC_HELM; }
      if 4 <= r <= 5 { il := ILOC_RING; }
      if r == 6 { il := ILOC_AMULET; }
      if 7 <= r <= 18 { il := ILOC_ONEHAND; }
      if 19 <= r <= 24 { il := ILOC_ARMOR; }
      if 65 <= r <= 72 { il := ILOC_BELT; }
      assert il == SlotLoc(r);
      var done := false;
      if HoldItem.loc == il { done := true; }
      if il == ILOC_ONEHAND && HoldItem.loc == ILOC_TWOHAND {
        il := ILOC_TWOHAND;
        done := true;
      }
      if HoldItem.loc == ILOC_UNEQUIPABLE && il == ILOC_BELT {
        if HoldItem.W() == 1 && HoldItem.H() == 1 {
          done := true;
          if !HoldItem.usable { done := false; }
          if !stat { done := false; }
          if HoldItem.IsGold() { done := false; }
        }
      }
      if il == ILOC_UNEQUIPABLE {
        PasteGrid(r);
        return;
      }
      if !done { return; }
      if il != ILOC_BELT && !stat { return; }
      if il == ILOC_BELT {
        PasteOnBelt(r);
      } else {
        var placed, cn := PasteWorn(r, il);
        if placed { pcurs := cn; }
      }
    }

    /** The grid cases, up to setting the cursor. */
    method PasteGrid(r: int)
      requires Settled() && HoldOk() && pcurs >= CURSOR_FIRSTITEM && 25 <= r <= 64
      modifies this, InvGrid, InvList
      ensures Settled() && HoldOk() && Kept() == old(Kept()) && Wealth() == old(Wealth())
      ensures old(HoldItem).IsGold() ==>
        GoldPasted(old(Contents()), Contents(), r - 25, old(InvGrid[r - 25]), old(HoldItem), HoldItem, pcurs)
      ensures !old(HoldItem).IsGold() ==>
        var rect := PasteRect(r - 25, old(HoldItem).W(), old(HoldItem).H());
        if rect.Fits() && !TwoItems(old(InvGrid[..]), rect)
        then ItemPasted(old(Contents()), Contents(), old(InvGrid[..]), rect, old(HoldItem), HoldItem, pcurs)
        else InvGrid[..] == old(InvGrid[..]) && Contents() == old(Contents()) && HoldItem == old(HoldItem)
             && pcurs == old(pcurs)
    {
      hide GridOk, AllOk, WornOk, HandsFit, NonGold, Gold, One, GoldPasted, ItemPasted, TwoItems;
      ghost var belt, body, list, hold := SpdList[..], InvBody[..], List(), HoldItem;
      var cn;
      if HoldItem.IsGold() {
        cn := PasteGold(r - 25);
        GoldIsNoItem(hold);
      } else {
        var done;
        NoCoins(hold);
        done, cn := PasteItem(r - 25);
        if !done {
          assert SpdList[..] == belt && InvBody[..] == body;
          return;
        }
      }
      assert SpdList[..] == belt && InvBody[..] == body;
      Exchange(NonGold(List()), NonGold(list), NonGold(body) + NonGold(belt), InHand(cn, HoldItem), One(hold));
      pcurs := cn;
    }

    /** The belt case, up to setting the cursor. */
    method PasteOnBelt(r: int)
      requires Settled() && HoldOk() && !HoldItem.IsGold() && pcurs >= CURSOR_FIRSTITEM && 65 <= r <= 72
      modifies this`HoldItem, this`pGold, this`pcurs, SpdList
      ensures Settled() && HoldOk() && Kept() == old(Kept()) && Wealth() == old(Wealth())
      ensures SlotPasted(old(SpdList[..]), SpdList[..], r - 65, old(HoldItem), HoldItem, pcurs)
    {
      hide GridOk, AllOk, WornOk, HandsFit, NonGold, Gold, One;
      ghost var belt, body, list, hold := SpdList[..], InvBody[..], List(), HoldItem;
      NoCoins(hold);
      var cn := PasteBelt(r - 65);
      assert List() == list && InvBody[..] == body;
      Exchange(NonGold(SpdList[..]), NonGold(belt), NonGold(body), InHand(cn, HoldItem), One(hold));
      Rejoin(NonGold(body), NonGold(list), NonGold(SpdList[..]), InHand(cn, HoldItem), NonGold(body), NonGold(belt),
             One(hold));
      Shuffle(NonGold(body), NonGold(list), NonGold(SpdList[..]));
      Shuffle(NonGold(body), NonGold(list), NonGold(belt));
      pcurs := cn;
    }

    /** A worn item to the hand. */
    method CutBody(slot: int)
      requires Settled() && 0 <= slot < NUM_INVLOC && pcurs < CURSOR_FIRSTITEM && !HoldItem.Present()
      modifies this`HoldItem, this`pcurs, InvBody
      ensures Settled() && (pcurs >= CURSOR_FIRSTITEM ==> HoldOk()) && Kept() == old(Kept())
        && Wealth() == old(Wealth())
      ensures if old(InvBody[slot]).Present() then
                HoldOk() && HoldItem == old(InvBody[slot]) && pcurs == HoldItem.curs + CURSOR_FIRSTITEM
                && InvBody[..] == old(InvBody[..])[slot := HoldItem.(itype := ITYPE_NONE)]
              else InvBody[..] == old(InvBody[..]) && pcurs == old(pcurs)
    {
      hide GridOk, AllOk, NonGold, Gold, One;
      ghost var body, list, belt := InvBody[..], List(), SpdList[..];
      if InvBody[slot].Present() {
        HoldItem := InvBody[slot];
        TakeOff(slot);
        assert List() == list && SpdList[..] == belt;
        NoCoins(HoldItem);
        pcurs := HoldItem.curs + CURSOR_FIRSTITEM;
        Lifted(NonGold(InvBody[..]), NonGold(belt), NonGold(list), One(HoldItem), NonGold(body));
      }
    }

    /** The cases of CheckInvCut for slots that are worn. */
    static method WornSlot(r: int) returns (slot: int)
      requires 0 <= r <= 24
      ensures slot == BodySlot(r)
    {
      slot := INVLOC_HEAD;
      if r == 4 { slot := INVLOC_RING_LEFT; }
      if r == 5 { slot := INVLOC_RING_RIGHT; }
      if r == 6 { slot := INVLOC_AMULET; }
      if 7 <= r <= 12 { slot := INVLOC_HAND_LEFT; }
      if 13 <= r <= 18 { slot := INVLOC_HAND_RIGHT; }
      if 19 <= r { slot := INVLOC_CHEST; }
    }

    /** Entry iv comes off the list into the hand. */
    method TakeEntry(iv: int)
      requires GridOk() && 0 <= iv < numInv
      modifies this`HoldItem, this`numInv, this`rects, InvGrid, InvList
      ensures Sized() && GridOk() && HoldOk() && |old(List())| == |old(rects)|
      ensures HoldItem == old(List())[iv] && Contents() == old(Contents()).Less(iv + 1)
      ensures NonGold(List()) + One(HoldItem) == old(NonGold(List()))
      ensures Gold(List()) + Coins(HoldItem) == old(Gold(List()))
    {
      hide Shows, SizesFit, AllOk, AllPresent, NonGold, Gold, One, Without;
      ghost var list := List();
      EntryOk(iv);
      HoldItem := InvList[iv];
      RemoveEntry(iv);
      CountWithout(list, iv);
    }

    /** An entry of the grid to the hand. */
    method CutGrid(cell: int)
      requires Settled() && 0 <= cell < CELLS && pcurs < CURSOR_FIRSTITEM && !HoldItem.Present()
      modifies this, InvGrid, InvList
      ensures Settled() && (pcurs >= CURSOR_FIRSTITEM ==> HoldOk()) && Kept() == old(Kept())
        && Wealth() == old(Wealth())
      ensures var g := old(InvGrid[cell]);
              if g != 0 then
                && 1 <= Abs(g) <= old(numInv)
                && |old(List())| == |old(rects)|
                && HoldOk() && HoldItem == old(List())[Abs(g) - 1] && Contents() == old(Contents()).Less(Abs(g))
                && pcurs == HoldItem.curs + CURSOR_FIRSTITEM
              else InvGrid[..] == old(InvGrid[..]) && Contents() == old(Contents()) && pcurs == old(pcurs)
    {
      hide GridOk, AllOk, WornOk, HandsFit, NonGold, Gold, One, Without;
      ghost var body, list, belt := InvBody[..], List(), SpdList[..];
      var ii := InvGrid[cell];
      if ii != 0 {
        CellOk(cell);
        var iv := ii;
        if ii <= 0 { iv := -ii; }
        TakeEntry(iv - 1);
        assert InvBody[..] == body && SpdList[..] == belt;
        pcurs := HoldItem.curs + CURSOR_FIRSTITEM;
        Exchange(NonGold(List()), NonGold(list), NonGold(body) + NonGold(belt), One(HoldItem), multiset{});
        if HoldItem.IsGold() {
          pGold := CalculateGold();
        }
      }
    }

    /** A belt item to the hand. */
    method CutBelt(offs: int)
      requires Settled() && 0 <= offs < MAXBELTITEMS && pcurs < CURSOR_FIRSTITEM && !HoldItem.Present()
      modifies this`HoldItem, this`pcurs, this`pGold, SpdList
      ensures Settled() && (pcurs >= CURSOR_FIRSTITEM ==> HoldOk()) && Kept() == old(Kept())
        && Wealth() == old(Wealth())
      ensures if old(SpdList[offs]).Present() then
                HoldOk() && HoldItem == old(SpdList[offs]) && pcurs == HoldItem.curs + CURSOR_FIRSTITEM
                && SpdList[..] == old(SpdList[..])[offs := HoldItem.(itype := ITYPE_NONE)]
              else SpdList[..] == old(SpdList[..]) && pcurs == old(pcurs)
    {
      hide GridOk, WornOk, HandsFit, NonGold, Gold;
      ghost var body, list, belt := InvBody[..], List(), SpdList[..];
      if SpdList[offs].Present() {
        HoldItem := SpdList[offs];
        CountUpdate(belt, offs, HoldItem.(itype := ITYPE_NONE));
        SpdList[offs] := SpdList[offs].(itype := ITYPE_NONE);
        assert SpdList[..] == belt[offs := HoldItem.(itype := ITYPE_NONE)];
        assert List() == list && InvBody[..] == body;
        pcurs := HoldItem.curs + CURSOR_FIRSTITEM;
        Exchange(NonGold(SpdList[..]), NonGold(belt), NonGold(body), One(HoldItem), multiset{});
        LiftedBelt(NonGold(body), NonGold(SpdList[..]), NonGold(list), One(HoldItem), NonGold(belt));
        if HoldItem.IsGold() {
          pGold := CalculateGold();
        }
      }
    }

    /** One click with an empty cursor: the item under it, if any, comes to the hand. */
    method CheckInvCut(r: int)
      requires Valid() && pcurs < CURSOR_FIRSTITEM && 0 <= r <= 72
      modifies this, InvGrid, InvList, InvBody, SpdList
      ensures Valid() && Kept() == old(Kept()) && Wealth() == old(Wealth())
      ensures if r <= 24 then SlotCut(old(InvBody[..]), InvBody[..], BodySlot(r), HoldItem, old(pcurs), pcurs)
              else InvBody[..] == old(InvBody[..])
      ensures if 25 <= r <= 64
              then EntryCut(old(Contents()), Contents(), old(InvGrid[r - 25]), HoldItem, old(pcurs), pcurs)
              else Contents() == old(Contents()) && InvGrid[..] == old(InvGrid[..])
      ensures if r >= 65 then SlotCut(old(SpdList[..]), SpdList[..], r - 65, HoldItem, old(pcurs), pcurs)
              else SpdList[..] == old(SpdList[..])
    {
      hide GridOk, BodyOk, GoldOk, AllOk, NonGold, Gold, One;
      HoldItem := HoldItem.(itype := ITYPE_NONE);
      if r <= 24 {
        var slot := WornSlot(r);
        CutBody(slot);
      } else if r <= 64 {
        CutGrid(r - 25);
      } else {
        CutBelt(r - 65);
      }
    }
  }

  /** The guard of CheckInvPaste for slots outside the grid; the grid itself turns
      items away only for lack of room. */
  predicate Welcome(hold: Item, r: int, stat: bool) {
    if 25 <= r <= 64 then true
    else if r >= 65 then
      hold.loc == ILOC_BELT
      || (hold.loc == ILOC_UNEQUIPABLE && hold.W() == 1 && hold.H() == 1 && hold.usable && stat && !hold.IsGold())
    else stat && (hold.loc == SlotLoc(r) || (hold.loc == ILOC_TWOHAND && SlotLoc(r) == ILOC_ONEHAND))
  }

  lemma GoldIsNoItem(i: Item)
    requires i.IsGold()
    ensures One(i) == multiset{}
  {}

  lemma Lifted(b': multiset<Item>, p: multiset<Item>, l: multiset<Item>, h: multiset<Item>, b: multiset<Item>)
    requires b' + h == b
    ensures b' + p + l + h == b + p + l
  {
    assert b' + p + l + h == (b' + h) + p + l;
  }

  lemma LiftedBelt(b: multiset<Item>, p': multiset<Item>, l: multiset<Item>, h: multiset<Item>, p: multiset<Item>)
    requires p' + h == p
    ensures b + p' + l + h == b + p + l
  {
    assert b + p' + l + h == b + (p' + h) + l;
  }

  /** The kind of slot behind slot rectangle r. */
  function SlotLoc(r: int): int {
    if 0 <= r <= 3 then ILOC_HELM
    else if 4 <= r <= 5 then ILOC_RING
    else if r == 6 then ILOC_AMULET
    else if 7 <= r <= 18 then ILOC_ONEHAND
    else if 19 <= r <= 24 then ILOC_ARMOR
    else if 65 <= r <= 72 then ILOC_BELT
    else ILOC_UNEQUIPABLE
  }

  /** The body slot behind slot rectangle r. */
  function BodySlot(r: int): int {
    if r <= 3 then INVLOC_HEAD
    else if r == 4 then INVLOC_RING_LEFT
    else if r == 5 then INVLOC_RING_RIGHT
    else if r == 6 then INVLOC_AMULET
    else if r <= 12 then INVLOC_HAND_LEFT
    else if r <= 18 then INVLOC_HAND_RIGHT
    else INVLOC_CHEST
  }

  lemma WornIsNotGold(i: Item)
    requires i.Ok() && i.loc != ILOC_UNEQUIPABLE
    ensures !i.IsGold() && Coins(i) == 0
  {}

  /** What the list holds, and where each of its items stands. */
  datatype Bag = Bag(list: seq<Item>, rects: seq<Rect>) {
    function With(item: Item, r: Rect): Bag {
      Bag(list + [item], rects + [r])
    }

    /** Another item in the place of item a, standing on r; nothing else moves. */
    function Replaced(a: int, item: Item, r: Rect): Bag
      requires 1 <= a <= |list| == |rects|
    {
      Bag(list[a - 1 := item], rects[a - 1 := r])
    }

    /** Item a is gone, and the last one has taken over its number. */
    function Less(a: int): Bag
      requires 1 <= a <= |list| == |rects|
    {
      Bag(Without(list, a - 1), RectsWithout(rects, a - 1))
    }
  }

  /** A non-gold item pasted on rectangle r: it stands there, and if an item was met,
      that one is in hand. */
  ghost predicate ItemPasted(bag: Bag, bag': Bag, g: seq<int>, r: Rect, hold: Item, hold': Item, cn: int) {
    && |bag.list| == |bag.rects|
    && if Free(g, r) then
         bag' == bag.With(hold, r) && hold' == hold && cn == CURSOR_HAND
       else
         exists a :: 1 <= a <= |bag.list| && OnlyItem(g, r, a)
           && bag' == bag.Replaced(a, hold, r) && hold' == bag.list[a - 1] && cn == hold'.curs + CURSOR_FIRSTITEM
  }

  lemma OneMeansNotTwo(g: seq<int>, r: Rect, it: int)
    requires OnlyItem(g, r, it)
    ensures !TwoItems(g, r)
  {}

  lemma OverlapIsEntry(g: seq<int>, rects: seq<Rect>, r: Rect, it: int)
    requires Shows(g, rects) && Meets(g, r, it)
    ensures it <= |rects|
  {}

  lemma FreeIfNone(g: seq<int>, r: Rect)
    requires OnlyItem(g, r, 0)
    ensures Free(g, r)
  {}

  lemma NoCoins(hold: Item)
    requires !hold.IsGold()
    ensures Coins(hold) == 0
  {}

  lemma OneOfNothing(i: Item)
    requires !i.Present()
    ensures One(i) == multiset{} && Coins(i) == 0
  {}

  /** The rectangle CheckInvPaste aims at from cell ii. */
  function PasteRect(ii: int, sx: int, sy: int): Rect {
    Rect(Max(ii % 10 - (sx - 1) / 2, 0), Max(ii / 10 - (sy - 1) / 2, 0), sx, sy)
  }

  /** The cells of r are empty or belong to item `it` (which is 0 only if all are empty). */
  ghost predicate OnlyItem(g: seq<int>, r: Rect, it: int) {
    it >= 0 && forall k :: 0 <= k < |g| && r.Has(k) ==> g[k] == 0 || Abs(g[k]) == it
  }

  /** Held gold meets pile il: all that fits moves over, the rest stays in the hand. */
  predicate PilePasted(list: seq<Item>, list': seq<Item>, il: int, hold: Item, hold': Item, cn: int) {
    && 0 <= il < |list|
    && var moved := Min(hold.value, GOLD_MAX_LIMIT - list[il].value);
       && list' == list[il := Merged(list[il], moved)]
       && (if moved == hold.value then hold' == hold && cn == CURSOR_HAND
           else hold' == hold.(value := hold.value - moved) && cn == PileCursor(hold.value - moved) + CURSOR_FIRSTITEM)
  }

  function CellRect(k: int): Rect {
    Rect(k % 10, k / 10, 1, 1)
  }

  /** The whole of pasting gold on cell k, which shows g. */
  predicate GoldPasted(bag: Bag, bag': Bag, k: int, g: int, hold: Item, hold': Item, cn: int) {
    && |bag.list| == |bag.rects|
    && if g == 0 then
         bag' == bag.With(Merged(hold, 0), CellRect(k)) && hold' == hold && cn == CURSOR_HAND
       else
         && Abs(g) <= |bag.list|
         && if g > 0 && bag.list[g - 1].IsGold() then
              PilePasted(bag.list, bag'.list, g - 1, hold, hold', cn) && bag'.rects == bag.rects
            else
              && bag' == bag.Replaced(Abs(g), hold, CellRect(k))
              && hold' == bag.list[Abs(g) - 1] && cn == hold'.curs + CURSOR_FIRSTITEM
  }

  ghost predicate Meets(g: seq<int>, r: Rect, it: int) {
    exists k :: 0 <= k < |g| && r.Has(k) && Abs(g[k]) == it
  }

  lemma NotFree(g: seq<int>, r: Rect, it: int)
    requires it != 0 && Meets(g, r, it)
    ensures !Free(g, r)
  {}

  /** Two different items reach into r. */
  ghost predicate TwoItems(g: seq<int>, r: Rect) {
    exists j, k :: 0 <= j < |g| && 0 <= k < |g| && r.Has(j) && r.Has(k) && g[j] != 0 && g[k] != 0
      && Abs(g[j]) != Abs(g[k])
  }

  lemma OnlyItemEmpty(g: seq<int>, r: Rect, it: int)
    requires it >= 0 && r.w == 0
    ensures OnlyItem(g, r, it)
  {}

  lemma OnlyItemNamed(g: seq<int>, r: Rect, it: int)
    requires OnlyItem(g, r, 0) && it >= 0
    ensures OnlyItem(g, r, it)
  {}

  lemma OnlyItemNextCell(g: seq<int>, r: Rect, j: int, i: int, it: int)
    requires |g| == CELLS && 0 <= r.x && 0 <= r.y && 0 <= j && 0 <= i && r.x + i < COLUMNS && r.y + j < ROWS
    requires OnlyItem(g, Rect(r.x, r.y + j, i, 1), it)
    requires var v := g[r.x + i + 10 * (r.y + j)]; v == 0 || Abs(v) == it
    ensures OnlyItem(g, Rect(r.x, r.y + j, i + 1, 1), it)
  {
    forall k | 0 <= k < |g| && Rect(r.x, r.y + j, i + 1, 1).Has(k) ensures g[k] == 0 || Abs(g[k]) == it {
      if !Rect(r.x, r.y + j, i, 1).Has(k) { assert k == r.x + i + 10 * (r.y + j); }
    }
  }

  lemma OnlyItemNextRow(g: seq<int>, r: Rect, j: int, it: int)
    requires OnlyItem(g, Rect(r.x, r.y, r.w, j), it) && OnlyItem(g, Rect(r.x, r.y + j, r.w, 1), it)
    ensures OnlyItem(g, Rect(r.x, r.y, r.w, j + 1), it)
  {
    forall k | 0 <= k < |g| && Rect(r.x, r.y, r.w, j + 1).Has(k) ensures g[k] == 0 || Abs(g[k]) == it {
      assert Rect(r.x, r.y, r.w, j).Has(k) || Rect(r.x, r.y + j, r.w, 1).Has(k);
    }
  }

  lemma MeetsTwo(g: seq<int>, r: Rect, j: int, k: int)
    requires 0 <= j < |g| && 0 <= k < |g| && r.Has(j) && r.Has(k) && g[j] != 0 && g[k] != 0 && Abs(g[j]) != Abs(g[k])
    ensures TwoItems(g, r)
  {}

  lemma OneCellOnly(g: seq<int>, k: int)
    requires |g| == CELLS && 0 <= k < CELLS
    ensures CellRect(k).Fits() && OnlyItem(g, CellRect(k), Abs(g[k]))
  {}

  lemma FreedBy(g: seq<int>, r: Rect, it: int)
    requires OnlyItem(g, r, it)
    ensures Free(Erased(g, it), r)
  {}

  lemma GoldIsSmall(gold: Item)
    requires gold.Ok() && gold.IsGold()
    ensures gold.W() == 1 && gold.H() == 1
  {}

  lemma EntriesReplaced(rects: seq<Rect>, list: seq<Item>, i: int, r: Rect, entry: Item)
    requires SizesFit(rects, list) && AllOk(list) && AllPresent(list) && 0 <= i < |list|
    requires entry.Present() && entry.Ok() && r.w == entry.W() && r.h == entry.H()
    ensures |rects| == |list| && SizesFit(rects[i := r], list[i := entry])
    ensures AllOk(list[i := entry]) && AllPresent(list[i := entry]) && list[i].Present() && list[i].Ok()
  {}

  lemma Exchange(x': multiset<Item>, x: multiset<Item>, y: multiset<Item>, h': multiset<Item>, h: multiset<Item>)
    requires x' + h' == x + h
    ensures x' + y + h' == x + y + h && y + x' + h' == y + x + h
  {
    assert x' + y + h' == (x' + h') + y && x + y + h == (x + h) + y;
    assert y + x' + h' == (x' + h') + y && y + x + h == (x + h) + y;
  }

  lemma Rejoin(b': multiset<Item>, p: multiset<Item>, l': multiset<Item>, h': multiset<Item>,
               b: multiset<Item>, l: multiset<Item>, h: multiset<Item>)
    requires b' + l' + h' == b + l + h
    ensures b' + p + l' + h' == b + p + l + h
  {
    assert b' + p + l' + h' == (b' + l' + h') + p && b + p + l + h == (b + l + h) + p;
  }

  lemma Hop(x: multiset<Item>, y: multiset<Item>, m: multiset<Item>)
    ensures x + (y + m) == (x + m) + y
  {}

  lemma NoneInHand(hold: Item)
    ensures InHand(CURSOR_HAND, hold) == multiset{}
  {}

  /** What slot i held, if anything, is in hand, and the slot is empty. */
  predicate SlotCut(slots: seq<Item>, slots': seq<Item>, i: int, hold: Item, pcurs: int, pcurs': int)
    requires 0 <= i < |slots|
  {
    if slots[i].Present() then
      hold == slots[i] && pcurs' == hold.curs + CURSOR_FIRSTITEM && slots' == slots[i := hold.(itype := ITYPE_NONE)]
    else slots' == slots && pcurs' == pcurs
  }

  /** The entry that grid value g names, if any, is in hand, and out of the list. */
  predicate EntryCut(bag: Bag, bag': Bag, g: int, hold: Item, pcurs: int, pcurs': int) {
    if g == 0 then bag' == bag && pcurs' == pcurs
    else
      && 1 <= Abs(g) <= |bag.list| == |bag.rects| && hold == bag.list[Abs(g) - 1]
      && pcurs' == hold.curs + CURSOR_FIRSTITEM && bag' == bag.Less(Abs(g))
  }

  predicate TwoHeld(body: seq<Item>)
    requires |body| == NUM_INVLOC
  {
    body[INVLOC_HAND_LEFT].Present() && body[INVLOC_HAND_RIGHT].Present()
  }

  /** A two-hander finds both hands full and no place in the grid for the item to stow. */
  ghost predicate Crowded(body: seq<Item>, g: seq<int>, il: int)
    requires |body| == NUM_INVLOC
  {
    il == ILOC_TWOHAND && TwoHeld(body) && !HasPlace(g, body[StowSlot(body)])
  }

  /** The held item is worn as its kind demands, and what had to give way is in hand. */
  ghost predicate WornPasted(body: seq<Item>, body': seq<Item>, r: int, il: int, hold: Item, hold': Item, cn: int)
    requires |body| == |body'| == NUM_INVLOC
  {
    var left, right := body[INVLOC_HAND_LEFT], body[INVLOC_HAND_RIGHT];
    if il == ILOC_TWOHAND then
      && body'[INVLOC_HAND_LEFT] == hold && !body'[INVLOC_HAND_RIGHT].Present()
      && (forall i :: 0 <= i < NUM_INVLOC && i != INVLOC_HAND_LEFT && i != INVLOC_HAND_RIGHT ==> body'[i] == body[i])
      && hold' == (if left.Present() && right.Present() then (if body[StowSlot(body)] == left then right else left)
                   else if left.Present() then left else if right.Present() then right else hold)
      && cn == if left.Present() || right.Present() then hold'.curs + CURSOR_FIRSTITEM else CURSOR_HAND
    else if il == ILOC_ONEHAND then
      var target := OneHandTarget(r, left, right, hold);
      if target == INVLOC_HAND_RIGHT && left.Present() && left.loc == ILOC_TWOHAND then
        body' == body[INVLOC_HAND_LEFT := right][INVLOC_HAND_RIGHT := hold] && hold' == left
        && cn == left.curs + CURSOR_FIRSTITEM
      else SlotPasted(body, body', target, hold, hold', cn)
    else SlotPasted(body, body', BodySlot(r), hold, hold', cn)
  }

  /** The held item is in the slot; the slot's own item, if any, is in hand. */
  predicate SlotPasted(slots: seq<Item>, slots': seq<Item>, slot: int, hold: Item, hold': Item, cn: int)
    requires 0 <= slot < |slots|
  {
    && slots' == slots[slot := hold]
    && if slots[slot].Present() then hold' == slots[slot] && cn == hold'.curs + CURSOR_FIRSTITEM else cn == CURSOR_HAND
  }

  /** The slot a two-hander clears by way of the grid: the right one if it is a shield. */
  function StowSlot(body: seq<Item>): int
    requires |body| == NUM_INVLOC
  {
    if body[INVLOC_HAND_RIGHT].itype == ITYPE_SHIELD then INVLOC_HAND_RIGHT else INVLOC_HAND_LEFT
  }

  /** If a hand holds a shield, it is a shield that gives way; otherwise the left item. */
  lemma ShieldGivesWay(body: seq<Item>)
    requires |body| == NUM_INVLOC && TwoHeld(body)
    ensures StowSlot(body) == INVLOC_HAND_LEFT || StowSlot(body) == INVLOC_HAND_RIGHT
    ensures if ITYPE_SHIELD in [body[INVLOC_HAND_LEFT].itype, body[INVLOC_HAND_RIGHT].itype]
            then body[StowSlot(body)].itype == ITYPE_SHIELD else StowSlot(body) == INVLOC_HAND_LEFT
  {}

  ghost predicate TakesAt(g: seq<int>, item: Item, k: int) {
    RectAt(k, item.W(), item.H()).Fits() && Free(g, RectAt(k, item.W(), item.H()))
  }

  /** k is the first cell of the grid that can. */
  ghost predicate FirstPlace(g: seq<int>, item: Item, k: int) {
    0 <= k < CELLS && TakesAt(g, item, k) && forall j :: 0 <= j < k ==> !TakesAt(g, item, j)
  }

  /** The item stands at the end of the list, on the first place that could take it. */
  ghost predicate Stowed(bag: Bag, bag': Bag, g: seq<int>, item: Item) {
    exists k :: FirstPlace(g, item, k) && bag' == bag.With(item, RectAt(k, item.W(), item.H()))
  }

  /** Some cell of the grid can take the item. */
  ghost predicate HasPlace(g: seq<int>, item: Item) {
    exists k :: 0 <= k < CELLS && TakesAt(g, item, k)
  }

  /** Where a one-handed item pasted on slot rectangle r goes: to that hand, unless
      the other hand holds an item of its class (a two-hander on the left does
      not count when the right side was asked for). */
  function OneHandTarget(r: int, left: Item, right: Item, hold: Item): int {
    if r <= 12 then
      if right.Present() && right.class_ == hold.class_ then INVLOC_HAND_RIGHT else INVLOC_HAND_LEFT
    else
      if left.Present() && left.loc != ILOC_TWOHAND && left.class_ == hold.class_ then INVLOC_HAND_LEFT
      else INVLOC_HAND_RIGHT
  }

  predicate HasRoom(pile: Item, v: int) {
    pile.IsGold() && v + pile.value <= GOLD_MAX_LIMIT
  }

  ghost predicate FirstRoom(list: seq<Item>, i: int, v: int)
    requires 0 <= i < |list|
  {
    HasRoom(list[i], v) && forall k :: 0 <= k < i ==> !HasRoom(list[k], v)
  }

  /** A pile after v more coins, with the picture of its size. */
  function Merged(pile: Item, v: int): Item {
    pile.(value := pile.value + v, curs := PileCursor(pile.value + v))
  }

  /** k is the last empty cell. */
  ghost predicate LastEmpty(g: seq<int>, k: int) {
    0 <= k < |g| && g[k] == 0 && forall j :: k < j < |g| ==> g[j] != 0
  }

  lemma MergeCounts(rects: seq<Rect>, list: seq<Item>, i: int, v: int)
    requires SizesFit(rects, list) && AllOk(list) && AllPresent(list)
    requires 0 <= i < |list| && HasRoom(list[i], v) && 0 <= v
    ensures var more := list[i := Merged(list[i], v)];
            && SizesFit(rects, more) && AllOk(more) && AllPresent(more)
            && NonGold(more) == NonGold(list) && Gold(more) == Gold(list) + v
  {
    MergeKeepsOk(rects, list, i, v);
    hide SizesFit, AllOk, AllPresent;
    CountUpdate(list, i, Merged(list[i], v));
    Cancel(NonGold(list[i := Merged(list[i], v)]), NonGold(list), One(list[i]));
  }

  lemma MergeKeepsOk(rects: seq<Rect>, list: seq<Item>, i: int, v: int)
    requires SizesFit(rects, list) && AllOk(list) && AllPresent(list)
    requires 0 <= i < |list| && HasRoom(list[i], v) && 0 <= v
    ensures var more := list[i := Merged(list[i], v)]; SizesFit(rects, more) && AllOk(more) && AllPresent(more)
  {
    assert list[i].Ok();
  }

  lemma PileOfHand(hold: Item, entry: Item)
    requires hold.Ok() && hold.IsGold() && entry == hold.(curs := PileCursor(hold.value))
    ensures entry == Merged(hold, 0) && entry.Present() && entry.Ok() && entry.W() == 1 && entry.H() == 1
  {}

  lemma PileCounts(list: seq<Item>, entry: Item)
    requires entry.IsGold()
    ensures NonGold(list + [entry]) == NonGold(list) && Gold(list + [entry]) == Gold(list) + entry.value
  {
    CountAppend(list, entry);
  }

  lemma OneCellPlaced(g: seq<int>, k: int, a: int)
    requires |g| == CELLS && 0 <= k < CELLS && g[k] == 0
    ensures var r := CellRect(k); r.Fits() && Free(g, r) && Placed(g, r, a) == g[k := a]
  {
    var r := CellRect(k);
    assert forall j :: 0 <= j < CELLS ==> (r.Has(j) <==> j == k);
  }

  lemma FreeMeansRoom(g: seq<int>, rects: seq<Rect>, r: Rect)
    requires Shows(g, rects) && r.Fits() && Free(g, r)
    ensures |rects| < CELLS
  {
    AnchorIsInside(r);
    ListNeverOverflows(g, rects);
  }

  lemma EntriesWith(rects: seq<Rect>, list: seq<Item>, r: Rect, entry: Item)
    requires SizesFit(rects, list) && AllOk(list) && AllPresent(list)
    requires entry.Present() && entry.Ok() && r.w == entry.W() && r.h == entry.H()
    ensures |rects| == |list| && SizesFit(rects + [r], list + [entry])
    ensures AllOk(list + [entry]) && AllPresent(list + [entry])
  {}

  function RectsWithout(rects: seq<Rect>, i: int): seq<Rect>
    requires 0 <= i < |rects|
  {
    if i == |rects| - 1 then rects[..i] else rects[..|rects| - 1][i := rects[|rects| - 1]]
  }

  lemma EntriesWithout(rects: seq<Rect>, list: seq<Item>, i: int)
    requires SizesFit(rects, list) && AllOk(list) && AllPresent(list) && 0 <= i < |list|
    ensures |rects| == |list| && SizesFit(RectsWithout(rects, i), Without(list, i))
    ensures AllOk(Without(list, i)) && AllPresent(Without(list, i))
  {}

  lemma Regroup(b: multiset<Item>, p: multiset<Item>, l: multiset<Item>, h: multiset<Item>, x: multiset<Item>)
    ensures b + p + l + h + x == b + p + (l + x) + h
  {}

  /** A rectangle is free row by row. */
  lemma RowsOfRect(g: seq<int>, r: Rect, j: int)
    requires 0 <= j < r.h
    ensures Free(g, Rect(r.x, r.y, r.w, j + 1)) <==>
      Free(g, Rect(r.x, r.y, r.w, j)) && Free(g, Rect(r.x, r.y + j, r.w, 1))
    ensures Free(g, r) ==> Free(g, Rect(r.x, r.y, r.w, j + 1))
  {}

  /** The rectangle AutoPlace tries at cell ii. */
  function RectAt(ii: int, sx: int, sy: int): Rect {
    Rect(Max(Mod(ii, 10), 0), Max(Div(ii, 10), 0), sx, sy)
  }

  /** The item on the cursor counts only while the cursor shows an item. */
  ghost function InHand(cursor: int, hold: Item): multiset<Item> {
    if cursor >= CURSOR_FIRSTITEM then One(hold) else multiset{}
  }

  function CoinsInHand(cursor: int, hold: Item): int {
    if cursor >= CURSOR_FIRSTITEM then Coins(hold) else 0
  }

  lemma {:induction false} NoGold(s: seq<Item>)
    requires forall a :: 0 <= a < |s| ==> !s[a].Present()
    ensures Gold(s) == 0 && NonGold(s) == multiset{}
  {
    if s != [] { NoGold(s[..|s| - 1]); }
  }
}
