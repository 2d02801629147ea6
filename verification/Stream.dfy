/** The save buffer of Source/loadsave.cpp and its cursor `tbuff`. */
module Stream {

  import opened CInt

  type int32 = v: int | -0x8000_0000 <= v < 0x8000_0000

  /** How a value is written: BSave, BSave with three flag bits cleared, WSave, OSave. */
  datatype Kind = Byte | Flags | Word | Truth

  /** v & ~(BFLAG_MISSILE | BFLAG_VISIBLE | BFLAG_DEAD_PLAYER) */
  function Masked(v: int): int {
    v - v % 8
  }

  function Enc(k: Kind, v: int32): (bs: seq<byte>)
    ensures |bs| == Size(k)
  {
    match k
    case Byte => [(v % 256) as byte]
    case Flags => [(Masked(v) % 256) as byte]
    case Word => [(v / 0x100_0000 % 256) as byte, (v / 0x1_0000 % 256) as byte, (v / 0x100 % 256) as byte,
                  (v % 256) as byte]
    case Truth => [if v != 0 then 1 else 0]
  }

  function Size(k: Kind): nat {
    if k == Word then 4 else 1
  }

  /** What reading back gives. */
  function Kept(k: Kind, v: int32): int32 {
    match k
    case Byte => Char(v)
    case Flags => Char(Masked(v))
    case Word => v
    case Truth => if v != 0 then 1 else 0
  }

  function Dec(k: Kind, bs: seq<byte>): int32
    requires |bs| == Size(k)
  {
    match k
    case Byte => Char(bs[0] as int)
    case Flags => Char(bs[0] as int)
    case Word => Int(0x100_0000 * bs[0] as int + 0x1_0000 * bs[1] as int + 0x100 * bs[2] as int + bs[3] as int)
    case Truth => if bs[0] == 1 then 1 else 0
  }

  /** 32 bits as a signed number. */
  function Int(u: int): int32
    requires 0 <= u < 0x1_0000_0000
  {
    if u < 0x8000_0000 then u else u - 0x1_0000_0000
  }

  /** Reading back what was written: words as they were, bytes as signed chars, truth
      values as 0 or 1. */
  lemma DecOfEnc(k: Kind, v: int32)
    ensures Dec(k, Enc(k, v)) == Kept(k, v)
  {
    match k
    case Byte => CharOfByte(v);
    case Flags => CharOfByte(Masked(v));
    case Word => WordOfDigits(v);
    case Truth =>
  }

  lemma CharOfByte(v: int)
    ensures Char(v % 256) == Char(v)
  {
    assert v == 256 * (v / 256) + v % 256;
  }

  lemma WordOfDigits(v: int32)
    ensures Dec(Word, Enc(Word, v)) == v
  {
    Digits(v);
    var bs := Enc(Word, v);
    assert bs[0] as int == v / 0x100_0000 % 256 && bs[1] as int == v / 0x1_0000 % 256;
    assert bs[2] as int == v / 0x100 % 256 && bs[3] as int == v % 256;
  }

  lemma Digits(v: int32)
    ensures var u :=
      0x100_0000 * (v / 0x100_0000 % 256) + 0x1_0000 * (v / 0x1_0000 % 256) + 0x100 * (v / 0x100 % 256) + v % 256;
            u == if v < 0 then v + 0x1_0000_0000 else v
  {
    var a, b, c := v / 0x100, v / 0x1_0000, v / 0x100_0000;
    assert b == a / 0x100 && c == b / 0x100;
    assert v == 0x100 * a + v % 256 && a == 0x100 * b + a % 256 && b == 0x100 * c + b % 256;
    assert -128 <= c < 128 && c % 256 == if v < 0 then c + 256 else c;
  }

  /** Within a signed char nothing is lost; and the flags keep all bits but three. */
  lemma KeptInRange(v: int32)
    requires -128 <= v < 128
    ensures Kept(Byte, v) == v
    ensures Kept(Flags, v) % 8 == 0 && Kept(Flags, v) / 8 == v / 8
  {}

  /** The number that these bytes are the digits of, the most significant first. */
  function BigEndian(bs: seq<byte>): nat {
    if bs == [] then 0 else 256 * BigEndian(bs[..|bs| - 1]) + bs[|bs| - 1] as int
  }

  /** What stands in the file: words as 32 bits, most significant byte first; bytes as their
      low 8 bits, of flags without the lowest three; truth values as 1 or 0. */
  lemma FileBytes(v: int32)
    ensures BigEndian(Enc(Word, v)) == if v < 0 then v + 0x1_0000_0000 else v
    ensures Enc(Byte, v) == [(v % 256) as byte] && Enc(Truth, v) == [if v == 0 then 0 else 1]
    ensures Enc(Flags, v)[0] as int % 8 == 0 && Enc(Flags, v)[0] as int / 8 == v % 256 / 8
  {
    Digits(v);
    var bs := Enc(Word, v);
    FourDigits(bs[0], bs[1], bs[2], bs[3]);
    LowBits(v);
  }

  lemma FourDigits(a: byte, b: byte, c: byte, d: byte)
    ensures BigEndian([a, b, c, d])
         == 0x100_0000 * a as int + 0x1_0000 * b as int + 0x100 * c as int + d as int
  {
    assert [a, b, c, d] == [a, b, c] + [d] && [a, b, c] == [a, b] + [c] && [a, b] == [a] + [b] && [a] == [] + [a];
    NextDigit([a, b, c], d);
    NextDigit([a, b], c);
    NextDigit([a], b);
    NextDigit([], a);
  }

  lemma NextDigit(bs: seq<byte>, d: byte)
    ensures BigEndian([]) == 0 && BigEndian(bs + [d]) == 256 * BigEndian(bs) + d as int
  {
    assert (bs + [d])[..|bs|] == bs;
  }

  lemma LowBits(v: int)
    ensures Masked(v) % 256 % 8 == 0 && Masked(v) % 256 / 8 == v % 256 / 8
  {
    var q, b, e := v / 256, v % 256 / 8, v % 256 % 8;
    assert v == 256 * q + 8 * b + e && 0 <= b < 32;
    Eighths(32 * q + b, e);
    Bytes(q, 8 * b);
    Eighths(b, 0);
  }

  lemma Eighths(k: int, e: nat)
    requires e < 8
    ensures (8 * k + e) % 8 == e && (8 * k + e) / 8 == k
  {}

  lemma Bytes(k: int, e: nat)
    requires e < 256
    ensures (256 * k + e) % 256 == e
  {}

  /** A stored char comes back as the signed number with the same low 8 bits. */
  lemma CharIsSigned(v: int32)
    ensures -128 <= Kept(Byte, v) < 128 && Kept(Byte, v) % 256 == v % 256
  {}

  function Concat(ps: seq<seq<byte>>): seq<byte> {
    if ps == [] then [] else ps[0] + Concat(ps[1..])
  }

  lemma {:induction false} ConcatJoin(ps: seq<seq<byte>>, qs: seq<seq<byte>>)
    ensures Concat(ps + qs) == Concat(ps) + Concat(qs)
  {
    hide Concat;
    ConcatFirst(ps);
    ConcatFirst(ps + qs);
    if ps == [] {
      assert ps + qs == qs && [] + Concat(qs) == Concat(qs);
    } else {
      ConcatJoin(ps[1..], qs);
      assert (ps + qs)[1..] == ps[1..] + qs;
      Associative(ps[0], Concat(ps[1..]), Concat(qs));
    }
  }

  lemma ConcatFirst(ps: seq<seq<byte>>)
    ensures Concat(ps) == if ps == [] then [] else ps[0] + Concat(ps[1..])
  {}

  lemma Associative(p: seq<byte>, q: seq<byte>, r: seq<byte>)
    ensures (p + q) + r == p + (q + r)
  {}

  /** The first i parts and the next. */
  lemma ConcatStep(ps: seq<seq<byte>>, i: int)
    requires 0 <= i < |ps|
    ensures Concat(ps[..i + 1]) == Concat(ps[..i]) + ps[i]
    ensures |Concat(ps[..i + 1])| <= |Concat(ps)|
    ensures Concat(ps[i..]) == ps[i] + Concat(ps[i + 1..])
  {
    assert ps[..i + 1] == ps[..i] + [ps[i]] && Concat([ps[i]]) == ps[i] + Concat([]);
    ConcatJoin(ps[..i], [ps[i]]);
    assert ps == ps[..i + 1] + ps[i + 1..];
    ConcatJoin(ps[..i + 1], ps[i + 1..]);
    assert ps[i..][1..] == ps[i + 1..];
  }

  lemma ConcatEnds(ps: seq<seq<byte>>)
    ensures ps[..|ps|] == ps && ps[0..] == ps && Concat(ps[..0]) == [] && Concat(ps[|ps|..]) == []
  {}

  function RowParts(k: Kind, vs: seq<int32>): (ps: seq<seq<byte>>)
    ensures |ps| == |vs|
  {
    seq(|vs|, i requires 0 <= i < |vs| => Enc(k, vs[i]))
  }

  function RowBytes(k: Kind, vs: seq<int32>): seq<byte> {
    Concat(RowParts(k, vs))
  }

  function KeptRow(k: Kind, vs: seq<int32>): (r: seq<int32>)
    ensures |r| == |vs|
  {
    seq(|vs|, i requires 0 <= i < |vs| => Kept(k, vs[i]))
  }

  function GridParts(k: Kind, g: seq<seq<int32>>): (ps: seq<seq<byte>>)
    ensures |ps| == |g|
  {
    seq(|g|, j requires 0 <= j < |g| => RowBytes(k, g[j]))
  }

  /** The rows one after the other. */
  function GridBytes(k: Kind, g: seq<seq<int32>>): seq<byte> {
    Concat(GridParts(k, g))
  }

  /** In a grid of w columns, one byte each, square (i, j) is byte w * j + i. */
  lemma {:induction false} ByteOfSquare(k: Kind, g: seq<seq<int32>>, w: nat, i: nat, j: nat)
    requires Size(k) == 1 && j < |g| && i < w && forall m :: 0 <= m < |g| ==> |g[m]| == w
    ensures w * j + i < |GridBytes(k, g)| && GridBytes(k, g)[w * j + i] == Enc(k, g[j][i])[0]
    decreases j
  {
    hide Concat, RowBytes, Enc;
    var ps := GridParts(k, g);
    ConcatFirst(ps);
    RowLength(k, g[0]);
    if j == 0 {
      ByteOfEntry(k, g[0], i);
    } else {
      assert GridParts(k, g[1..]) == ps[1..];
      ByteOfSquare(k, g[1..], w, i, j - 1);
      assert w * j == w + w * (j - 1);
    }
  }

  lemma {:induction false} RowLength(k: Kind, vs: seq<int32>)
    requires Size(k) == 1
    ensures |RowBytes(k, vs)| == |vs|
  {
    hide Concat, Enc;
    ConcatFirst(RowParts(k, vs));
    if vs != [] {
      assert RowParts(k, vs)[1..] == RowParts(k, vs[1..]);
      RowLength(k, vs[1..]);
    }
  }

  lemma {:induction false} ByteOfEntry(k: Kind, vs: seq<int32>, i: nat)
    requires Size(k) == 1 && i < |vs|
    ensures i < |RowBytes(k, vs)| && RowBytes(k, vs)[i] == Enc(k, vs[i])[0]
  {
    hide Concat, Enc;
    RowLength(k, vs);
    ConcatFirst(RowParts(k, vs));
    assert RowParts(k, vs)[1..] == RowParts(k, vs[1..]);
    if i > 0 { ByteOfEntry(k, vs[1..], i - 1); }
  }

  function KeptGrid(k: Kind, g: seq<seq<int32>>): (r: seq<seq<int32>>)
    ensures |r| == |g|
  {
    seq(|g|, j requires 0 <= j < |g| => KeptRow(k, g[j]))
  }

  /** A record as copied by memcpy. */
  type Record = seq<byte>

  function RecordParts(ids: seq<int32>, recs: seq<Record>): (ps: seq<seq<byte>>)
    requires forall i :: 0 <= i < |ids| ==> 0 <= ids[i] < |recs|
    ensures |ps| == |ids|
  {
    seq(|ids|, i requires 0 <= i < |ids| => recs[ids[i]])
  }

  /** The records with these numbers. */
  function RecordBytes(ids: seq<int32>, recs: seq<Record>): seq<byte>
    requires forall i :: 0 <= i < |ids| ==> 0 <= ids[i] < |recs|
  {
    Concat(RecordParts(ids, recs))
  }

  /** The first n entries name records. */
  predicate Listed(active: seq<int32>, n: int, recs: seq<Record>) {
    0 <= n <= |active| && forall i :: 0 <= i < n ==> 0 <= active[..n][i] < |recs|
  }

  /** The saved records with the first n listed numbers, over the records before. */
  ghost predicate Refilled(active: seq<int32>, n: int, before: seq<Record>, saved: seq<Record>, now: seq<Record>)
    requires Listed(active, n, saved)
  {
    && |now| == |before| == |saved|
    && (forall i :: 0 <= i < n ==> now[active[..n][i]] == saved[active[..n][i]])
    && forall id :: 0 <= id < |now| && id !in active[..n] ==> now[id] == before[id]
  }

  /** Row j of a grid holds the squares (0, j), (1, j), ... */
  ghost function Row(a: array2<int32>, j: int): (r: seq<int32>)
    requires 0 <= j < a.Length1
    reads a
    ensures |r| == a.Length0
  {
    seq(a.Length0, i requires 0 <= i < a.Length0 reads a => a[i, j])
  }

  ghost function Rows(a: array2<int32>): (g: seq<seq<int32>>)
    reads a
    ensures |g| == a.Length1
  {
    seq(a.Length1, j requires 0 <= j < a.Length1 reads a => Row(a, j))
  }

  class Buffer {
    const bytes: array<byte>
    var tbuff: nat

    ghost predicate Valid()
      reads this
    {
      tbuff <= bytes.Length
    }

    /** What has been written, and what is left to be read. */
    ghost function Done(): (s: seq<byte>)
      requires Valid()
      reads this, bytes
      ensures |s| == tbuff
    {
      bytes[..tbuff]
    }

    ghost function Left(): (s: seq<byte>)
      requires Valid()
      reads this, bytes
      ensures |s| == bytes.Length - tbuff
    {
      bytes[tbuff..]
    }

    constructor (capacity: nat)
      ensures Valid() && fresh(bytes) && bytes.Length == capacity && tbuff == 0
    {
      bytes := new byte[capacity];
      tbuff := 0;
    }

    /** A file read from disk. */
    constructor Filled(file: seq<byte>)
      ensures Valid() && fresh(this) && fresh(bytes) && tbuff == 0 && Left() == file
    {
      bytes := new byte[|file|](i requires 0 <= i < |file| => file[i]);
      tbuff := 0;
      new;
      assert bytes[..] == file;
    }

    /** `BSave`, `WSave` or `OSave` */
    method Save(k: Kind, v: int32)
      requires Valid() && tbuff + Size(k) <= bytes.Length
      modifies this`tbuff, bytes
      ensures Valid() && Done() == old(Done()) + Enc(k, v)
    {
      match k {
        case Byte =>
          bytes[tbuff] := (v % 256) as byte;
        case Flags =>
          bytes[tbuff] := (Masked(v) % 256) as byte;
        case Word =>
          bytes[tbuff] := (v / 0x100_0000 % 256) as byte;
          bytes[tbuff + 1] := (v / 0x1_0000 % 256) as byte;
          bytes[tbuff + 2] := (v / 0x100 % 256) as byte;
          bytes[tbuff + 3] := (v % 256) as byte;
        case Truth =>
          bytes[tbuff] := if v != 0 then 1 else 0;
      }
      tbuff := tbuff + Size(k);
    }

    /** `BLoad`, `WLoad` or `OLoad`, from a buffer that goes on with a value so written. */
    method Load(k: Kind, ghost was: int32, ghost rest: seq<byte>) returns (v: int32)
      requires Valid() && Left() == Enc(k, was) + rest
      modifies this`tbuff
      ensures Valid() && Left() == rest && v == Kept(k, was)
    {
      DecOfEnc(k, was);
      assert bytes[tbuff..][..Size(k)] == Enc(k, was);
      v := Dec(k, bytes[tbuff..tbuff + Size(k)]);
      tbuff := tbuff + Size(k);
    }

    method SaveTable(k: Kind, a: array<int32>)
      requires Valid() && tbuff + |RowBytes(k, a[..])| <= bytes.Length
      modifies this`tbuff, bytes
      ensures Valid() && Done() == old(Done()) + RowBytes(k, a[..])
    {
      hide Concat, Enc;
      ghost var ps := RowParts(k, a[..]);
      ConcatEnds(ps);
      for i := 0 to a.Length
        invariant Valid() && Done() == old(Done()) + Concat(ps[..i])
      {
        ConcatStep(ps, i);
        Save(k, a[i]);
      }
    }

    method LoadTable(k: Kind, a: array<int32>, ghost was: seq<int32>, ghost rest: seq<byte>)
      requires Valid() && |was| == a.Length && Left() == RowBytes(k, was) + rest
      modifies this`tbuff, a
      ensures Valid() && Left() == rest && a[..] == KeptRow(k, was)
    {
      hide Concat, Enc, Kept;
      ghost var ps := RowParts(k, was);
      ConcatEnds(ps);
      for i := 0 to a.Length
        invariant Valid() && Left() == Concat(ps[i..]) + rest
        invariant forall j :: 0 <= j < i ==> a[j] == Kept(k, was[j])
      {
        ConcatStep(ps, i);
        assert ps[i] + Concat(ps[i + 1..]) + rest == ps[i] + (Concat(ps[i + 1..]) + rest);
        a[i] := Load(k, was[i], Concat(ps[i + 1..]) + rest);
      }
    }

    method SaveRow(k: Kind, a: array2<int32>, j: int)
      requires 0 <= j < a.Length1 && Valid() && tbuff + |RowBytes(k, Row(a, j))| <= bytes.Length
      modifies this`tbuff, bytes
      ensures Valid() && Done() == old(Done()) + RowBytes(k, Row(a, j))
    {
      hide Concat, Enc;
      ghost var ps := RowParts(k, Row(a, j));
      ConcatEnds(ps);
      for i := 0 to a.Length0
        invariant Valid() && Done() == old(Done()) + Concat(ps[..i])
      {
        ConcatStep(ps, i);
        Save(k, a[i, j]);
      }
    }

    method SaveGrid(k: Kind, a: array2<int32>)
      requires Valid() && tbuff + |GridBytes(k, Rows(a))| <= bytes.Length
      modifies this`tbuff, bytes
      ensures Valid() && Done() == old(Done()) + GridBytes(k, Rows(a))
    {
      hide Concat, RowBytes, Row;
      ghost var ps := GridParts(k, Rows(a));
      ConcatEnds(ps);
      for j := 0 to a.Length1
        invariant Valid() && Done() == old(Done()) + Concat(ps[..j])
      {
        ConcatStep(ps, j);
        SaveRow(k, a, j);
      }
    }

    method LoadRow(k: Kind, a: array2<int32>, j: int, ghost was: seq<int32>, ghost rest: seq<byte>)
      requires 0 <= j < a.Length1 && Valid() && |was| == a.Length0 && Left() == RowBytes(k, was) + rest
      modifies this`tbuff, a
      ensures Valid() && Left() == rest && Row(a, j) == KeptRow(k, was)
      ensures forall m :: 0 <= m < a.Length1 && m != j ==> Row(a, m) == old(Row(a, m))
    {
      hide Concat, Enc, Kept;
      ghost var ps := RowParts(k, was);
      ConcatEnds(ps);
      for i := 0 to a.Length0
        invariant Valid() && Left() == Concat(ps[i..]) + rest
        invariant forall m :: 0 <= m < i ==> a[m, j] == Kept(k, was[m])
        invariant forall i, m :: 0 <= i < a.Length0 && 0 <= m < a.Length1 && m != j ==> a[i, m] == old(a[i, m])
      {
        ConcatStep(ps, i);
        assert ps[i] + Concat(ps[i + 1..]) + rest == ps[i] + (Concat(ps[i + 1..]) + rest);
        var v := Load(k, was[i], Concat(ps[i + 1..]) + rest);
        a[i, j] := v;
      }
    }

    method LoadGrid(k: Kind, a: array2<int32>, ghost was: seq<seq<int32>>, ghost rest: seq<byte>)
      requires Valid() && |was| == a.Length1 && (forall j :: 0 <= j < |was| ==> |was[j]| == a.Length0)
      requires Left() == GridBytes(k, was) + rest
      modifies this`tbuff, a
      ensures Valid() && Left() == rest && Rows(a) == KeptGrid(k, was)
    {
      hide Concat, RowBytes, KeptRow, Row;
      ghost var ps := GridParts(k, was);
      ConcatEnds(ps);
      for j := 0 to a.Length1
        invariant Valid() && Left() == Concat(ps[j..]) + rest
        invariant forall m :: 0 <= m < j ==> Row(a, m) == KeptRow(k, was[m])
      {
        ConcatStep(ps, j);
        assert ps[j] + Concat(ps[j + 1..]) + rest == ps[j] + (Concat(ps[j + 1..]) + rest);
        LoadRow(k, a, j, was[j], Concat(ps[j + 1..]) + rest);
      }
    }

    /** memcpy of a record to the buffer */
    method SaveRecord(r: Record)
      requires Valid() && tbuff + |r| <= bytes.Length
      modifies this`tbuff, bytes
      ensures Valid() && Done() == old(Done()) + r
    {
      for i := 0 to |r|
        invariant tbuff == old(tbuff) && bytes[..tbuff + i] == old(Done()) + r[..i]
      {
        bytes[tbuff + i] := r[i];
        assert bytes[..tbuff + i + 1] == old(Done()) + r[..i] + [r[i]];
      }
      tbuff := tbuff + |r|;
    }

    method SaveRecords(active: array<int32>, n: int, recs: array<Record>)
      requires Valid() && 0 <= n <= active.Length && forall i :: 0 <= i < n ==> 0 <= active[..n][i] < recs.Length
      requires tbuff + |RecordBytes(active[..n], recs[..])| <= bytes.Length
      modifies this`tbuff, bytes
      ensures Valid() && Done() == old(Done()) + RecordBytes(active[..n], recs[..])
    {
      hide Concat;
      ghost var ps := RecordParts(active[..n], recs[..]);
      ConcatEnds(ps);
      for i := 0 to n
        invariant Valid() && Done() == old(Done()) + Concat(ps[..i])
      {
        ConcatStep(ps, i);
        SaveRecord(recs[active[i]]);
      }
    }

    /** memcpy of a record from the buffer */
    method LoadRecord(size: nat, ghost was: Record, ghost rest: seq<byte>) returns (r: Record)
      requires Valid() && |was| == size && Left() == was + rest
      modifies this`tbuff
      ensures Valid() && Left() == rest && r == was
    {
      assert Left()[..size] == was && Left()[size..] == rest;
      r := bytes[tbuff..tbuff + size];
      tbuff := tbuff + size;
    }

    method LoadRecords(active: array<int32>, n: int, size: nat, recs: array<Record>, ghost was: seq<Record>,
                       ghost rest: seq<byte>)
      requires Valid() && |was| == recs.Length && forall r :: r in was ==> |r| == size
      requires Listed(active[..], n, was)
      requires Left() == RecordBytes(active[..n], was) + rest
      modifies this`tbuff, recs
      ensures Valid() && Left() == rest
      ensures Refilled(active[..], n, old(recs[..]), was, recs[..])
    {
      hide Concat;
      assert active[..][..n] == active[..n];
      ghost var ps := RecordParts(active[..n], was);
      ConcatEnds(ps);
      for i := 0 to n
        invariant Valid() && Left() == Concat(ps[i..]) + rest
        invariant forall j :: 0 <= j < i ==> recs[active[j]] == was[active[j]]
        invariant forall id :: 0 <= id < recs.Length && id !in active[..i] ==> recs[id] == old(recs[id])
      {
        ConcatStep(ps, i);
        assert ps[i] + Concat(ps[i + 1..]) + rest == ps[i] + (Concat(ps[i + 1..]) + rest);
        var r := LoadRecord(size, ps[i], Concat(ps[i + 1..]) + rest);
        recs[active[i]] := r;
        assert active[..i + 1] == active[..i] + [active[i]];
      }
    }
  }
}
