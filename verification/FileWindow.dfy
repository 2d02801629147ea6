/** The windowed read cache of Source/jsfs.cpp (class ReadOnlyFile). */
module FileWindow {

  import opened CInt

  const MAX_CHUNK := 0x20_0000
  const SIZE_T := 0x1_0000_0000  // size_t has 32 bits
  const EOF := -1

  datatype Mode = Set | Cur | End

  // ------------------------------------------------------ a file without a cache

  /** What a read of up to n bytes at pos gives. */
  function ReadAt(file: seq<byte>, pos: nat, n: nat): (r: seq<byte>)
    ensures |r| <= n
  {
    if pos >= |file| then [] else if n + pos > |file| then file[pos..] else file[pos..pos + n]
  }

  function CharAt(file: seq<byte>, pos: nat): int {
    if pos >= |file| then EOF else file[pos] as int
  }

  /** Where a seek leads: not before the start, but possibly past the end. */
  function SeekTo(file: seq<byte>, at: nat, pos: int, mode: Mode): nat {
    var p := match mode case Set => pos case Cur => pos + at case End => pos + |file|;
    (if p < 0 then 0 else p) % SIZE_T
  }

  datatype Op = GetcOp | ReadOp(n: nat) | SeekOp(pos: int, mode: Mode)

  datatype Result = Char(c: int) | Bytes(bs: seq<byte>) | At(pos: nat)

  function After(file: seq<byte>, pos: nat, op: Op): nat {
    match op
    case GetcOp => if pos >= |file| then pos else pos + 1
    case ReadOp(n) => pos + |ReadAt(file, pos, n)|
    case SeekOp(p, mode) => SeekTo(file, pos, p, mode)
  }

  function ResultOf(file: seq<byte>, pos: nat, op: Op): Result {
    match op
    case GetcOp => Char(CharAt(file, pos))
    case ReadOp(n) => Bytes(ReadAt(file, pos, n))
    case SeekOp(p, mode) => At(SeekTo(file, pos, p, mode))
  }

  /** What a list of operations answers, from this position on. */
  function Answers(file: seq<byte>, pos: nat, ops: seq<Op>): seq<Result>
    decreases |ops|
  {
    if ops == [] then [] else [ResultOf(file, pos, ops[0])] + Answers(file, After(file, pos, ops[0]), ops[1..])
  }

  function PosAfter(file: seq<byte>, pos: nat, ops: seq<Op>): nat
    decreases |ops|
  {
    if ops == [] then pos else PosAfter(file, After(file, pos, ops[0]), ops[1..])
  }

  /** Buffer sizes that do not overflow a size_t. */
  predicate Fitting(file: seq<byte>, pos: nat, ops: seq<Op>)
    decreases |ops|
  {
    ops != [] ==>
      && (ops[0].ReadOp? && pos < |file| ==> ops[0].n + pos < SIZE_T)
      && Fitting(file, After(file, pos, ops[0]), ops[1..])
  }

  lemma {:induction false} MoreAnswers(file: seq<byte>, pos: nat, ops: seq<Op>, op: Op)
    ensures Answers(file, pos, ops + [op]) == Answers(file, pos, ops) + [ResultOf(file, PosAfter(file, pos, ops), op)]
    ensures PosAfter(file, pos, ops + [op]) == After(file, PosAfter(file, pos, ops), op)
    decreases |ops|
  {
    if ops == [] {
      assert ([] + [op])[1..] == [];
    } else {
      MoreAnswers(file, After(file, pos, ops[0]), ops[1..], op);
      assert (ops + [op])[1..] == ops[1..] + [op];
    }
  }

  lemma {:induction false} FittingNext(file: seq<byte>, pos: nat, ops: seq<Op>, i: int)
    requires 0 <= i < |ops| && Fitting(file, pos, ops)
    ensures var p := PosAfter(file, pos, ops[..i]); ops[i].ReadOp? && p < |file| ==> ops[i].n + p < SIZE_T
    decreases i
  {
    if i == 0 {
      assert ops[..0] == [];
    } else {
      FittingNext(file, After(file, pos, ops[0]), ops[1..], i - 1);
      assert ops[..i][1..] == ops[1..][..i - 1];
    }
  }

  /** Two reads in a row give what one read of both sizes gives, and leave the same position. */
  lemma ReadSplits(file: seq<byte>, pos: nat, n: nat, m: nat)
    ensures var p := After(file, pos, ReadOp(n));
            ReadAt(file, pos, n) + ReadAt(file, p, m) == ReadAt(file, pos, n + m)
            && After(file, p, ReadOp(m)) == After(file, pos, ReadOp(n + m))
  {}

  lemma Within(file: seq<byte>, l: nat, len: nat, a: nat, size: nat)
    requires l + len <= |file| && a + size <= len
    ensures file[l..l + len][a..a + size] == file[l + a..l + a + size]
  {
    var w, v := file[l..l + len][a..a + size], file[l + a..l + a + size];
    forall k | 0 <= k < size ensures w[k] == v[k] {
      assert file[l..l + len][a + k] == file[l + a + k];
    }
  }

  // ------------------------------------------------------ the cached file

  class ReadOnlyFile {
    var pos_: nat
    var data_: seq<byte>
    var loadPos_: nat
    const size_: nat
    const file: seq<byte>  // what get_file_contents reads

    /** The window holds what the file has in its place. */
    ghost predicate Valid()
      reads this
    {
      && size_ == |file| < SIZE_T && pos_ < SIZE_T
      && loadPos_ + |data_| <= |file| && data_ == file[loadPos_..loadPos_ + |data_|]
    }

    constructor (contents: seq<byte>)
      requires |contents| < SIZE_T
      ensures Valid() && file == contents && pos_ == 0
    {
      file, size_ := contents, |contents|;
      pos_, data_, loadPos_ := 0, [], 0;
    }

    method GetFileContents(offset: nat, size: nat) returns (bytes: seq<byte>)
      requires offset + size <= |file|
      ensures bytes == file[offset..offset + size]
    {
      bytes := file[offset..offset + size];
    }

    /** Loads the window at the position. */
    method Reload()
      requires Valid() && pos_ < size_
      modifies this`loadPos_, this`data_
      ensures Valid() && loadPos_ == pos_
      ensures |data_| == if MAX_CHUNK < size_ - pos_ then MAX_CHUNK else size_ - pos_
    {
      loadPos_ := pos_;
      data_ := GetFileContents(loadPos_, if MAX_CHUNK < size_ - pos_ then MAX_CHUNK else size_ - pos_);
    }

    method Getc() returns (c: int)
      requires Valid()
      modifies this
      ensures Valid() && c == CharAt(file, old(pos_)) && pos_ == After(file, old(pos_), GetcOp)
    {
      if pos_ >= size_ {
        return EOF;
      }
      if !(pos_ >= loadPos_ && pos_ < loadPos_ + |data_|) {
        Reload();
      }
      c := data_[pos_ - loadPos_] as int;
      pos_ := pos_ + 1;
    }

    method Tell() returns (p: nat)
      ensures p == pos_
    {
      p := pos_;
    }

    method Seek(pos: int, mode: Mode)
      requires Valid()
      modifies this`pos_
      ensures Valid() && pos_ == SeekTo(file, old(pos_), pos, mode)
    {
      var p := pos;
      match mode {
        case Cur => p := p + pos_;
        case End => p := p + size_;
        case Set =>
      }
      if p < 0 {
        p := 0;
      }
      pos_ := p % SIZE_T;
    }

    /** The three ways to the bytes: the window, a new window, or past it. */
    method Fetch(size: nat) returns (bytes: seq<byte>)
      requires Valid() && pos_ < size_ && pos_ + size <= size_
      modifies this`loadPos_, this`data_
      ensures Valid() && bytes == file[pos_..pos_ + size]
    {
      if pos_ >= loadPos_ && pos_ + size <= loadPos_ + |data_| {
        Within(file, loadPos_, |data_|, pos_ - loadPos_, size);
        bytes := data_[pos_ - loadPos_..pos_ - loadPos_ + size];
      } else if size <= MAX_CHUNK {
        Reload();
        Within(file, loadPos_, |data_|, 0, size);
        bytes := data_[..size];
      } else {
        bytes := GetFileContents(pos_, size);
      }
    }

    /** Reads into ptr; gives the number of bytes. */
    method Read(ptr: array<byte>, size0: nat) returns (n: nat)
      requires Valid() && size0 <= ptr.Length && (pos_ < |file| ==> size0 + pos_ < SIZE_T)
      modifies this, ptr
      ensures Valid() && n == |ReadAt(file, old(pos_), size0)| && pos_ == After(file, old(pos_), ReadOp(size0))
      ensures ptr[..n] == ReadAt(file, old(pos_), size0)
      ensures forall k :: n <= k < ptr.Length ==> ptr[k] == old(ptr[k])
    {
      if pos_ >= size_ {
        return 0;
      }
      var size := size0;
      if size + pos_ > size_ {
        size := size_ - pos_;
      }
      var bytes := Fetch(size);
      forall k | 0 <= k < size {
        ptr[k] := bytes[k];
      }
      assert ptr[..size] == bytes;
      pos_ := pos_ + size;
      n := size;
    }

    /** Any run of operations answers as the file without a cache does. */
    method Play(ops: seq<Op>) returns (rs: seq<Result>)
      requires Valid() && Fitting(file, pos_, ops)
      modifies this
      ensures Valid() && rs == Answers(file, old(pos_), ops) && pos_ == PosAfter(file, old(pos_), ops)
    {
      ghost var start := pos_;
      rs := [];
      for i := 0 to |ops|
        invariant Valid() && rs == Answers(file, start, ops[..i]) && pos_ == PosAfter(file, start, ops[..i])
      {
        assert ops[..i + 1] == ops[..i] + [ops[i]];
        MoreAnswers(file, start, ops[..i], ops[i]);
        FittingNext(file, start, ops, i);
        var r := Perform(ops[i]);
        rs := rs + [r];
      }
      assert ops[..|ops|] == ops;
    }

    method Perform(op: Op) returns (r: Result)
      requires Valid() && (op.ReadOp? && pos_ < |file| ==> op.n + pos_ < SIZE_T)
      modifies this
      ensures Valid() && r == ResultOf(file, old(pos_), op) && pos_ == After(file, old(pos_), op)
    {
      match op {
        case GetcOp =>
          var c := Getc();
          r := Char(c);
        case ReadOp(n) =>
          var ptr := new byte[n];
          var m := Read(ptr, n);
          r := Bytes(ptr[..m]);
        case SeekOp(p, mode) =>
          Seek(p, mode);
          var at := Tell();
          r := At(at);
      }
    }
  }
}
