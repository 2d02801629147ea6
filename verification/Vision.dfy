/** The vision list of Source/lighting.cpp. */
module Vision {
  import opened Counting

  const MAXVISION := 32

  datatype Sight = Sight(lx: int, ly: int, lradius: int, lid: int, ldel: bool, lunflag: bool, lunx: int, luny: int,
                         lunr: int, mine: bool)

  /** The entries that stay, with how often each occurs. */
  function Unflagged(s: seq<Sight>): multiset<Sight> {
    if s == [] then multiset{} else Unflagged(s[..|s| - 1]) + One(s[|s| - 1])
  }

  function One(v: Sight): multiset<Sight> {
    if v.ldel then multiset{} else multiset{v}
  }

  lemma Exchange(a: multiset<Sight>, b: multiset<Sight>, l: multiset<Sight>, o: multiset<Sight>, v: multiset<Sight>)
    requires a + o == b + v
    ensures (a + l) + o == (b + l) + v
  {
    calc {
      (a + l) + o;
      (a + o) + l;
      (b + v) + l;
      (b + l) + v;
    }
  }

  lemma {:induction false} UnflaggedUpdate(s: seq<Sight>, i: int, v: Sight)
    requires 0 <= i < |s|
    ensures Unflagged(s[i := v]) + One(s[i]) == Unflagged(s) + One(v)
    decreases |s|
  {
    hide One;
    var n := |s| - 1;
    if i == n {
      assert s[i := v][..n] == s[..n];
      assert Unflagged(s[i := v]) == Unflagged(s[..n]) + One(v);
    } else {
      UnflaggedUpdate(s[..n], i, v);
      assert s[i := v][..n] == s[..n][i := v];
      Exchange(Unflagged(s[..n][i := v]), Unflagged(s[..n]), One(s[n]), One(s[i]), One(v));
    }
  }

  /** A list without flagged entries stays as it is. */
  lemma {:induction false} UnflaggedAll(s: seq<Sight>)
    requires forall k :: 0 <= k < |s| ==> !s[k].ldel
    ensures Unflagged(s) == multiset(s)
  {
    if s != [] {
      UnflaggedAll(s[..|s| - 1]);
      assert s == s[..|s| - 1] + [s[|s| - 1]];
    }
  }

  /** Exactly the entries without the flag are counted, each as often as it occurs. */
  lemma {:induction false} UnflaggedCounts(s: seq<Sight>, v: Sight)
    ensures Unflagged(s)[v] == if v.ldel then 0 else multiset(s)[v]
  {
    if s != [] {
      UnflaggedCounts(s[..|s| - 1], v);
      assert s == s[..|s| - 1] + [s[|s| - 1]];
    }
  }

  /** The last entry in the place of entry i, one entry fewer. */
  function Replaced(s: seq<Sight>, i: int): (r: seq<Sight>)
    requires 0 <= i < |s|
    ensures |r| == |s| - 1
  {
    s[i := s[|s| - 1]][..|s| - 1]
  }

  lemma LastOne(s: seq<Sight>)
    requires s != []
    ensures Unflagged(s) == Unflagged(s[..|s| - 1]) + One(s[|s| - 1])
  {}

  lemma NotCounted(v: Sight)
    requires v.ldel
    ensures One(v) == multiset{} && forall a: multiset<Sight> :: a + One(v) == a
  {}

  lemma ReplacedDropsOne(s: seq<Sight>, i: int)
    requires 0 <= i < |s| && s[i].ldel
    ensures Unflagged(Replaced(s, i)) == Unflagged(s)
  {
    hide Unflagged, One;
    var n := |s| - 1;
    var t := s[i := s[n]];
    UnflaggedUpdate(s, i, s[n]);
    LastOne(t);
    NotCounted(s[i]);
    assert t[n] == s[n] && t[..n] == Replaced(s, i);
    Cancel(Unflagged(t[..n]), Unflagged(s), One(s[n]));
  }

  function Seen(v: Sight): Sight {
    v.(lunflag := false)
  }

  class VisionMap {
    const VisionList: array<Sight>
    var numvision: int
    var dovision: bool
    var visionid: int

    /** Entries in use have different ids, all handed out before. */
    ghost predicate Valid()
      reads this, VisionList
    {
      && VisionList.Length == MAXVISION && 0 <= numvision <= MAXVISION
      && (forall k :: 0 <= k < numvision ==> VisionList[k].lid < visionid)
      && forall j, k :: 0 <= j < k < numvision ==> VisionList[j].lid != VisionList[k].lid
    }

    ghost function Entries(): seq<Sight>
      requires VisionList.Length == MAXVISION && 0 <= numvision <= MAXVISION
      reads this, VisionList
    {
      VisionList[..numvision]
    }

    constructor ()
      ensures Valid() && Entries() == [] && visionid == 1 && !dovision
    {
      VisionList := new Sight[MAXVISION](_ => Sight(0, 0, 0, 0, false, false, 0, 0, 0, false));
      numvision, dovision, visionid := 0, false, 1;
    }

    /** `AddVision`: a new id, never in use before; with a full list any number. */
    method AddVision(x: int, y: int, r: int, mine: bool) returns (vid: int)
      requires Valid()
      modifies this, VisionList
      ensures Valid()
      ensures visionid == old(visionid) + if old(numvision) < MAXVISION then 1 else 0
      ensures old(numvision) == MAXVISION ==> Entries() == old(Entries()) && dovision == old(dovision)
      ensures old(numvision) < MAXVISION ==>
        && vid == old(visionid) && dovision && (forall v :: v in old(Entries()) ==> v.lid != vid)
        && |Entries()| == |old(Entries())| + 1 && Entries()[..old(numvision)] == old(Entries())
        && var v := Entries()[old(numvision)];
           (v.lx, v.ly, v.lradius, v.lid, v.ldel, v.lunflag, v.mine) == (x, y, r, vid, false, false, mine)
    {
      vid := *;
      if numvision < MAXVISION {
        vid := visionid;
        visionid := visionid + 1;
        var v := VisionList[numvision];
        VisionList[numvision] :=
          v.(lx := x, ly := y, lradius := r, lid := vid, ldel := false, lunflag := false, mine := mine);
        numvision := numvision + 1;
        dovision := true;
      }
    }

    /** `ChangeVisionRadius`: exactly the entries with this id. */
    method ChangeVisionRadius(id: int, r: int)
      requires Valid()
      modifies this`dovision, VisionList
      ensures Valid()
      ensures forall k :: 0 <= k < numvision ==>
        VisionList[k] == if old(VisionList[k]).lid == id then Widened(old(VisionList[k]), r) else old(VisionList[k])
      ensures dovision <==> old(dovision) || exists k :: 0 <= k < numvision && old(VisionList[k]).lid == id
    {
      for i := 0 to numvision
        invariant forall k :: 0 <= k < MAXVISION ==>
          VisionList[k] == if k < i && old(VisionList[k]).lid == id then Widened(old(VisionList[k]), r)
            else old(VisionList[k])
        invariant dovision <==> old(dovision) || exists k :: 0 <= k < i && old(VisionList[k]).lid == id
      {
        if VisionList[i].lid == id {
          var v := VisionList[i];
          VisionList[i] := v.(lunflag := true, lunx := v.lx, luny := v.ly, lunr := v.lradius, lradius := r);
          dovision := true;
        }
      }
    }

    static function Widened(v: Sight, r: int): Sight {
      v.(lunflag := true, lunx := v.lx, luny := v.ly, lunr := v.lradius, lradius := r)
    }

    /** `ProcessVisionList`: the entries that stay are exactly those without the flag. */
    method ProcessVisionList()
      requires Valid()
      modifies this`numvision, this`dovision, VisionList
      ensures Valid() && !dovision
      ensures !old(dovision) ==> Entries() == old(Entries())
      ensures old(dovision) ==> multiset(Entries()) == Unflagged(AllSeen(old(Entries())))
    {
      if dovision {
        Seeing();
        Delete();
      }
      dovision := false;
    }

    static function AllSeen(s: seq<Sight>): (r: seq<Sight>)
      ensures |r| == |s|
    {
      seq(|s|, k requires 0 <= k < |s| => Seen(s[k]))
    }

    /** Its first loop, without what happens on the map. */
    method Seeing()
      requires Valid()
      modifies VisionList
      ensures Valid() && Entries() == AllSeen(old(Entries()))
    {
      for i := 0 to numvision
        invariant forall k :: 0 <= k < MAXVISION ==>
          VisionList[k] == if k < i then Seen(old(VisionList[k])) else old(VisionList[k])
      {
        if VisionList[i].lunflag {
          VisionList[i] := VisionList[i].(lunflag := false);
        }
      }
    }

    /** Its deletion loop. The pass over the list skips the entry it has just moved, so
        passes are made until one deletes nothing. */
    method Delete()
      requires Valid()
      modifies this`numvision, VisionList
      ensures Valid()
      ensures multiset(Entries()) == Unflagged(old(Entries()))
    {
      ghost var all := Unflagged(Entries());
      var delflag := true;
      while delflag
        invariant Valid() && Unflagged(Entries()) == all
        invariant !delflag ==> forall k :: 0 <= k < numvision ==> !VisionList[k].ldel
        decreases numvision, delflag
      {
        delflag := DeletePass();
      }
      UnflaggedAll(Entries());
    }

    method DeletePass() returns (delflag: bool)
      requires Valid()
      modifies this`numvision, VisionList
      ensures Valid() && Unflagged(Entries()) == old(Unflagged(Entries()))
      ensures delflag ==> numvision < old(numvision)
      ensures !delflag ==> numvision == old(numvision) && forall k :: 0 <= k < numvision ==> !VisionList[k].ldel
    {
      hide Unflagged;
      delflag := false;
      var i := 0;
      while i < numvision
        invariant 0 <= i && Valid() && Unflagged(Entries()) == old(Unflagged(Entries()))
        invariant delflag ==> numvision < old(numvision)
        invariant !delflag ==>
          && numvision == old(numvision) && i <= numvision
          && forall k :: 0 <= k < i ==> !VisionList[k].ldel
        decreases numvision - i
      {
        if VisionList[i].ldel {
          ghost var s := Entries();
          ReplacedDropsOne(s, i);
          numvision := numvision - 1;
          if numvision > 0 && i != numvision {
            VisionList[i] := VisionList[numvision];
          }
          assert Entries() == Replaced(s, i);
          delflag := true;
        }
        i := i + 1;
      }
    }
  }
}
