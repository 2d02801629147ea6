/** The CEL decoders of Source/engine.cpp. A control byte below 128 is followed by
    that many pixels; any other leaves a gap. Rows go up the buffer. */
module Cel {
  import opened CInt
  import opened Sprite

  /** An opaque pixel of a sprite: rows count upward from the lowest one. */
  datatype Pix = Pix(row: nat, col: int, value: byte)

  /** The stream s fills whole rows of w pixels, with i pixels left in the first. */
  ghost predicate WellFormed(s: seq<byte>, i: int, w: int)
    decreases |s|, i == 0
  {
    if i == 0 then s == [] || (w > 0 && WellFormed(s, w, w))
    else
      && s != [] && 0 < i
      && if s[0] < 128 then s[0] <= i && 1 + s[0] <= |s| && WellFormed(s[1 + s[0]..], i - s[0], w)
         else 256 - s[0] <= i && WellFormed(s[1..], i - (256 - s[0]), w)
  }

  ghost function Run(bytes: seq<byte>, row: nat, col: int): (ps: seq<Pix>)
    ensures |ps| == |bytes|
  {
    seq(|bytes|, k requires 0 <= k < |bytes| => Pix(row, col + k, bytes[k]))
  }

  /** Pixel by pixel, what the stream draws. */
  ghost function Pixels(s: seq<byte>, i: int, w: int, row: nat): seq<Pix>
    requires WellFormed(s, i, w)
    decreases |s|, i == 0
  {
    if i == 0 then (if s == [] then [] else Pixels(s, w, w, row + 1))
    else if s[0] < 128 then Run(s[1..1 + s[0]], row, w - i) + Pixels(s[1 + s[0]..], i - s[0], w, row)
    else Pixels(s[1..], i - (256 - s[0]), w, row)
  }

  /** A frame: nothing, or rows from row 0 on. */
  ghost predicate FrameOk(s: seq<byte>, w: int) {
    w > 0 && (s == [] || WellFormed(s, w, w))
  }

  ghost function Frame(s: seq<byte>, w: int): seq<Pix>
    requires FrameOk(s, w)
  {
    if s == [] then [] else Pixels(s, w, w, 0)
  }

  /** Where a pixel goes, if the lowest left one goes to dst. */
  function Place(dst: int, p: Pix): int {
    dst - BUFFER_WIDTH * p.row + p.col
  }

  /** The writes that draw ps through table t. */
  ghost function Drawn(ps: seq<Pix>, dst: int, t: Table): (ws: seq<Write>)
    ensures |ws| == |ps|
  {
    seq(|ps|, k requires 0 <= k < |ps| => Write(Place(dst, ps[k]), t[ps[k].value]))
  }

  /** The pixels of the checkerboard. */
  predicate Shows(p: Pix) {
    (p.row + p.col) % 2 == 1
  }

  ghost function Shown(ps: seq<Pix>): seq<Pix> {
    if ps == [] then []
    else Shown(ps[..|ps| - 1]) + if Shows(ps[|ps| - 1]) then [ps[|ps| - 1]] else []
  }

  lemma DrawnMore(ps: seq<Pix>, p: Pix, dst: int, t: Table)
    ensures Drawn(ps + [p], dst, t) == Drawn(ps, dst, t) + [Write(Place(dst, p), t[p.value])]
  {}

  lemma {:induction false} ShownMore(ps: seq<Pix>, qs: seq<Pix>)
    ensures Shown(ps + qs) == Shown(ps) + Shown(qs)
  {
    if qs == [] {
      assert ps + qs == ps;
    } else {
      var n := |qs| - 1;
      ShownMore(ps, qs[..n]);
      assert (ps + qs)[..|ps + qs| - 1] == ps + qs[..n];
    }
  }

  predicate Earlier(p: Pix, q: Pix) {
    p.row < q.row || (p.row == q.row && p.col < q.col)
  }

  predicate InOrder(ps: seq<Pix>, w: int) {
    && (forall p :: p in ps ==> 0 <= p.col < w)
    && forall j, k :: 0 <= j < k < |ps| ==> Earlier(ps[j], ps[k])
  }

  /** None of the pixels is before this place. */
  predicate NoneBefore(ps: seq<Pix>, row: nat, col: int) {
    forall p :: p in ps ==> !Earlier(p, Pix(row, col, 0))
  }

  /** The pixels come row by row and left to right, inside the sprite's columns. */
  lemma {:induction false} PixelsInOrder(s: seq<byte>, i: int, w: int, row: nat)
    requires WellFormed(s, i, w) && 0 <= i <= w
    ensures InOrder(Pixels(s, i, w, row), w) && NoneBefore(Pixels(s, i, w, row), row, w - i)
    decreases |s|, i == 0
  {
    hide Run, InOrder, NoneBefore;
    if i == 0 {
      if s == [] { NoPixels(w, row); } else { PixelsInOrder(s, w, w, row + 1); }
      LaterStill(Pixels(s, i, w, row), row, w);
    } else if s[0] < 128 {
      PixelsInOrder(s[1 + s[0]..], i - s[0], w, row);
      OrderJoins(s[1..1 + s[0]], row, w - i, w, Pixels(s[1 + s[0]..], i - s[0], w, row));
    } else {
      PixelsInOrder(s[1..], i - (256 - s[0]), w, row);
      FurtherOn(Pixels(s[1..], i - (256 - s[0]), w, row), row, w - i, 256 - s[0]);
    }
  }

  lemma NoPixels(w: int, row: nat)
    ensures InOrder([], w) && NoneBefore([], row + 1, 0)
  {}

  lemma LaterStill(ps: seq<Pix>, row: nat, col: int)
    requires NoneBefore(ps, row + 1, 0)
    ensures NoneBefore(ps, row, col)
  {}

  lemma FurtherOn(ps: seq<Pix>, row: nat, col: int, n: nat)
    requires NoneBefore(ps, row, col + n)
    ensures NoneBefore(ps, row, col)
  {}

  lemma OrderJoins(bytes: seq<byte>, row: nat, col: int, w: int, rest: seq<Pix>)
    requires 0 <= col && col + |bytes| <= w
    requires InOrder(rest, w) && NoneBefore(rest, row, col + |bytes|)
    ensures InOrder(Run(bytes, row, col) + rest, w) && NoneBefore(Run(bytes, row, col) + rest, row, col)
  {
    var run := Run(bytes, row, col);
    forall j, k | 0 <= j < |run| && 0 <= k < |rest| ensures Earlier(run[j], rest[k]) {
      assert !Earlier(rest[k], Pix(row, col + |bytes|, 0));
    }
  }

  /** In a sprite no wider than the buffer no two pixels share an address, so the
      picture is simply: each pixel's value at its place, and nothing else touched. */
  lemma {:induction false} PaintedIsPicture(b0: seq<byte>, b: seq<byte>, ps: seq<Pix>, w: int, dst: int, t: Table)
    requires Painted(b0, b, ps, dst, t) && w <= BUFFER_WIDTH
    requires forall p :: p in ps ==> 0 <= p.col < w
    requires forall j, k :: 0 <= j < k < |ps| ==> Earlier(ps[j], ps[k])
    ensures |b| == |b0|
    ensures forall p :: p in ps ==> 0 <= Place(dst, p) < |b| && b[Place(dst, p)] == t[p.value]
    ensures forall at :: 0 <= at < |b| && (forall p :: p in ps ==> Place(dst, p) != at) ==> b[at] == b0[at]
    decreases |ps|
  {
    hide Painted;
    if ps == [] {
      NothingElsePainted(b0, b, dst, t);
    } else {
      var front, last := ps[..|ps| - 1], ps[|ps| - 1];
      assert ps == front + [last];
      var b1 := BeforeLast(b0, b, front, last, dst, t);
      PaintedIsPicture(b0, b1, front, w, dst, t);
      forall p | p in front ensures Place(dst, p) != Place(dst, last) {
        var j :| 0 <= j < |front| && front[j] == p;
        assert Earlier(ps[j], ps[|ps| - 1]);
        PlacesDiffer(dst, p, last, w);
      }
    }
  }

  lemma NothingElsePainted(b0: seq<byte>, b: seq<byte>, dst: int, t: Table)
    requires Painted(b0, b, [], dst, t)
    ensures b == b0
  {}

  /** The buffer before the last pixel was painted. */
  lemma BeforeLast(b0: seq<byte>, b: seq<byte>, front: seq<Pix>, last: Pix, dst: int, t: Table) returns (b1: seq<byte>)
    requires Painted(b0, b, front + [last], dst, t)
    ensures Painted(b0, b1, front, dst, t) && |b1| == |b0| && 0 <= Place(dst, last) < |b1|
    ensures b == b1[Place(dst, last) := t[last.value]]
  {
    DrawnMore(front, last, dst, t);
    WrittenMore(b0, Drawn(front, dst, t), Write(Place(dst, last), t[last.value]));
    b1 := Written(b0, Drawn(front, dst, t));
  }

  lemma PlacesDiffer(dst: int, p: Pix, q: Pix, w: int)
    requires Earlier(p, q) && 0 <= p.col < w <= BUFFER_WIDTH && 0 <= q.col < w
    ensures Place(dst, p) != Place(dst, q)
  {}

  /** The checkerboard keeps exactly the pixels in odd places. */
  lemma {:induction false} ShownExactly(ps: seq<Pix>)
    ensures forall p :: p in Shown(ps) <==> p in ps && Shows(p)
  {
    if ps != [] {
      ShownExactly(ps[..|ps| - 1]);
      assert ps == ps[..|ps| - 1] + [ps[|ps| - 1]];
    }
  }

  lemma {:induction false} ShownInOrder(ps: seq<Pix>, w: int)
    requires InOrder(ps, w)
    ensures InOrder(Shown(ps), w)
  {
    if ps != [] {
      var front, last := ps[..|ps| - 1], ps[|ps| - 1];
      ShownInOrder(front, w);
      ShownExactly(front);
      forall p | p in front ensures Earlier(p, last) {
        var j :| 0 <= j < |front| && front[j] == p;
        assert Earlier(ps[j], ps[|ps| - 1]);
      }
    }
  }

  lemma FrameInOrder(src: seq<byte>, w: int)
    requires FrameOk(src, w)
    ensures InOrder(Frame(src, w), w)
  {
    if src != [] { PixelsInOrder(src, w, w, 0); }
  }

  /** The plain picture: each pixel of the frame at its place through the table. */
  lemma PlainPicture(b0: seq<byte>, b: seq<byte>, src: seq<byte>, w: int, dst: int, t: Table)
    requires FrameOk(src, w) && w <= BUFFER_WIDTH && Painted(b0, b, Frame(src, w), dst, t)
    ensures |b| == |b0|
    ensures forall p :: p in Frame(src, w) ==> 0 <= Place(dst, p) < |b| && b[Place(dst, p)] == t[p.value]
    ensures forall at :: 0 <= at < |b| && (forall p :: p in Frame(src, w) ==> Place(dst, p) != at) ==> b[at] == b0[at]
  {
    FrameInOrder(src, w);
    PaintedIsPicture(b0, b, Frame(src, w), w, dst, t);
  }

  /** The see-through picture: a pixel of the frame is drawn if it is in an odd place,
      and what was under it before stays if it is in an even one. */
  lemma CheckerboardPicture(b0: seq<byte>, b: seq<byte>, src: seq<byte>, w: int, dst: int, t: Table)
    requires FrameOk(src, w) && w <= BUFFER_WIDTH && Painted(b0, b, Shown(Frame(src, w)), dst, t)
    ensures |b| == |b0|
    ensures forall p :: p in Frame(src, w) && 0 <= Place(dst, p) < |b| ==>
      b[Place(dst, p)] == if (p.row + p.col) % 2 == 1 then t[p.value] else b0[Place(dst, p)]
    ensures forall at :: 0 <= at < |b| && (forall p :: p in Frame(src, w) ==> Place(dst, p) != at) ==> b[at] == b0[at]
  {
    hide Painted, Frame, Shown;
    var ps := Frame(src, w);
    FrameInOrder(src, w);
    ShownInOrder(ps, w);
    ShownExactly(ps);
    PaintedIsPicture(b0, b, Shown(ps), w, dst, t);
    forall p, q | p in ps && q in Shown(ps) && p != q ensures Place(dst, p) != Place(dst, q) {
      var j, k :| 0 <= j < |ps| && 0 <= k < |ps| && ps[j] == p && ps[k] == q;
      if j < k { PlacesDiffer(dst, p, q, w); } else { PlacesDiffer(dst, q, p, w); }
    }
  }

  /** The address parity that the decoder tests is the parity of row plus column. */
  lemma ParityIsCheckerboard(base: int, dst: int, p: Pix)
    ensures var shift := ((base + dst) % 2 + p.row) % 2;
            (base + Place(dst, p)) % 2 != shift <==> Shows(p)
  {
    assert (base + Place(dst, p)) % 2 == (base + dst + p.col) % 2 by {
      assert base + Place(dst, p) == base + dst + p.col + 2 * (-384 * p.row);
    }
  }

  // ------------------------------------------------------ the decoders

  /** How far a decoder is: `done` is decoded, and the rest of the frame is what the
      stream from pos on says. */
  ghost predicate Decoding(src: seq<byte>, w: int, pos: int, i: int, row: nat, done: seq<Pix>) {
    && FrameOk(src, w) && 0 <= pos <= |src| && 0 <= i <= w
    && WellFormed(src[pos..], i, w) && done + Pixels(src[pos..], i, w, row) == Frame(src, w)
  }

  /** The buffer shows what is decoded. */
  ghost predicate Painted(b0: seq<byte>, b: seq<byte>, ps: seq<Pix>, dst: int, t: Table) {
    InBuffer(Drawn(ps, dst, t), |b0|) && b == Written(b0, Drawn(ps, dst, t))
  }

  lemma PaintedMore(b0: seq<byte>, b: seq<byte>, ps: seq<Pix>, p: Pix, dst: int, t: Table)
    requires Painted(b0, b, ps, dst, t) && 0 <= Place(dst, p) < |b0|
    ensures |b| == |b0| && Painted(b0, b[Place(dst, p) := t[p.value]], ps + [p], dst, t)
  {
    DrawnMore(ps, p, dst, t);
    var ws, x := Drawn(ps, dst, t), Write(Place(dst, p), t[p.value]);
    assert InBuffer(ws + [x], |b0|);
    WrittenMore(b0, ws, x);
  }

  /** What the first control byte says. */
  lemma FirstControl(s: seq<byte>, i: int, w: int, row: nat)
    requires WellFormed(s, i, w) && i > 0
    ensures s != []
    ensures s[0] < 128 ==>
      && s[0] <= i && 1 + s[0] <= |s| && WellFormed(s[1 + s[0]..], i - s[0], w)
      && Pixels(s, i, w, row) == Run(s[1..1 + s[0]], row, w - i) + Pixels(s[1 + s[0]..], i - s[0], w, row)
    ensures s[0] >= 128 ==>
      && 256 - s[0] <= i && WellFormed(s[1..], i - (256 - s[0]), w)
      && Pixels(s, i, w, row) == Pixels(s[1..], i - (256 - s[0]), w, row)
  {}

  lemma NextControl(src: seq<byte>, w: int, pos: int, i: int, row: nat, done: seq<Pix>)
    requires Decoding(src, w, pos, i, row, done) && i > 0
    ensures pos < |src|
    ensures src[pos] < 128 ==>
      && src[pos] <= i && pos + 1 + src[pos] <= |src|
      && Decoding(src, w, pos + 1 + src[pos], i - src[pos], row,
                  done + Run(src[pos + 1..pos + 1 + src[pos]], row, w - i))
    ensures src[pos] >= 128 ==> 256 - src[pos] <= i && Decoding(src, w, pos + 1, i - (256 - src[pos]), row, done)
  {
    hide Run, WellFormed, Pixels;
    var s := src[pos..];
    FirstControl(s, i, w, row);
    if s[0] < 128 {
      assert s[1 + s[0]..] == src[pos + 1 + s[0]..] && s[1..1 + s[0]] == src[pos + 1..pos + 1 + s[0]];
      var run := Run(s[1..1 + s[0]], row, w - i);
      assert done + (run + Pixels(s[1 + s[0]..], i - s[0], w, row))
        == done + run + Pixels(s[1 + s[0]..], i - s[0], w, row);
    } else {
      assert s[1..] == src[pos + 1..];
    }
  }

  lemma NextRow(src: seq<byte>, w: int, pos: int, row: nat, done: seq<Pix>)
    requires Decoding(src, w, pos, 0, row, done)
    ensures pos < |src| ==> Decoding(src, w, pos, w, row + 1, done)
    ensures pos == |src| ==> done == Frame(src, w)
  {}

  /** All pixels of the frame land in a buffer of n bytes. */
  ghost predicate Fits(src: seq<byte>, w: int, dst: int, n: int)
    requires FrameOk(src, w)
  {
    forall p :: p in Frame(src, w) ==> 0 <= Place(dst, p) < n
  }

  /** A run of n pixels from this place lands in a buffer of len bytes. */
  predicate RunFits(at: int, n: int, len: int) {
    n > 0 ==> 0 <= at && at + n <= len
  }

  lemma RunOfFrameFits(src: seq<byte>, w: int, pos: int, i: int, row: nat, done: seq<Pix>, dst: int, n: int)
    requires Decoding(src, w, pos, i, row, done) && i > 0 && pos < |src| && src[pos] < 128
    requires Fits(src, w, dst, n)
    ensures src[pos] <= i && pos + 1 + src[pos] <= |src|
    ensures RunFits(Place(dst, Pix(row, w - i, 0)), src[pos], n)
  {
    NextControl(src, w, pos, i, row, done);
    var c := src[pos];
    var run := Run(src[pos + 1..pos + 1 + c], row, w - i);
    if c > 0 {
      assert done + run <= Frame(src, w);
      assert Frame(src, w)[|done|] == run[0] && Frame(src, w)[|done| + c - 1] == run[c - 1];
      assert run[0] in Frame(src, w) && run[c - 1] in Frame(src, w);
    }
  }

  lemma RunMore(bytes: seq<byte>, row: nat, col: int, c: int)
    requires 0 <= c < |bytes|
    ensures Run(bytes[..c + 1], row, col) == Run(bytes[..c], row, col) + [Pix(row, col + c, bytes[c])]
  {}

  /** Writes the next pixel of a run. */
  method Put(buf: array<byte>, at: int, value: byte, ghost b0: seq<byte>, ghost ps: seq<Pix>, ghost run: seq<byte>,
             ghost row: nat, ghost col: int, ghost c: int, ghost dst: int, ghost t: Table)
    requires 0 <= c < |run| && at == Place(dst, Pix(row, col + c, run[c])) && 0 <= at < buf.Length && value == t[run[c]]
    requires Painted(b0, buf[..], ps + Run(run[..c], row, col), dst, t)
    modifies buf
    ensures Painted(b0, buf[..], ps + Run(run[..c + 1], row, col), dst, t)
  {
    hide Painted;
    ghost var p := Pix(row, col + c, run[c]);
    RunMore(run, row, col, c);
    PaintedLength(b0, buf[..], ps + Run(run[..c], row, col), dst, t);
    PaintedMore(b0, buf[..], ps + Run(run[..c], row, col), p, dst, t);
    ghost var was := buf[..];
    buf[at] := value;
    assert buf[..] == was[at := value];
    assert ps + (Run(run[..c], row, col) + [p]) == ps + Run(run[..c], row, col) + [p];
  }

  lemma PaintedLength(b0: seq<byte>, b: seq<byte>, ps: seq<Pix>, dst: int, t: Table)
    requires Painted(b0, b, ps, dst, t)
    ensures |b| == |b0|
  {}

  /** The unrolled copy of a run through a table: one pixel, then two, then fours. */
  method CopyRun(buf: array<byte>, at: int, src: seq<byte>, pos: int, n: int, tbl: Table,
                 ghost b0: seq<byte>, ghost ps: seq<Pix>, ghost row: nat, ghost col: int, ghost dst: int)
    requires 0 <= pos && 0 <= n && pos + n <= |src| && at == Place(dst, Pix(row, col, 0))
    requires RunFits(at, n, buf.Length) && Painted(b0, buf[..], ps, dst, tbl)
    modifies buf
    ensures Painted(b0, buf[..], ps + Run(src[pos..pos + n], row, col), dst, tbl)
  {
    hide Painted, Run;
    ghost var run := src[pos..pos + n];
    var width, s, d := n, pos, at;
    RunStart(ps, run, row, col);
    if width % 2 == 1 {
      Put(buf, d, tbl[src[s]], b0, ps, run, row, col, s - pos, dst, tbl);
      s, d := s + 1, d + 1;
    }
    width := width / 2;
    if width % 2 == 1 {
      Put(buf, d, tbl[src[s]], b0, ps, run, row, col, s - pos, dst, tbl);
      Put(buf, d + 1, tbl[src[s + 1]], b0, ps, run, row, col, s - pos + 1, dst, tbl);
      s, d := s + 2, d + 2;
    }
    width := width / 2;
    while width > 0
      invariant 0 <= width && s + 4 * width == pos + n && pos <= s && d == at + (s - pos)
      invariant Painted(b0, buf[..], ps + Run(run[..s - pos], row, col), dst, tbl)
    {
      Put(buf, d, tbl[src[s]], b0, ps, run, row, col, s - pos, dst, tbl);
      Put(buf, d + 1, tbl[src[s + 1]], b0, ps, run, row, col, s - pos + 1, dst, tbl);
      Put(buf, d + 2, tbl[src[s + 2]], b0, ps, run, row, col, s - pos + 2, dst, tbl);
      Put(buf, d + 3, tbl[src[s + 3]], b0, ps, run, row, col, s - pos + 3, dst, tbl);
      s, d := s + 4, d + 4;
      width := width - 1;
    }
    assert run[..n] == run;
  }

  lemma RunStart(ps: seq<Pix>, run: seq<byte>, row: nat, col: int)
    ensures ps + Run(run[..0], row, col) == ps
  {}

  /** `CelDecDatLightOnly`: the frame drawn pixel by pixel through the table. With the
      identity table this is `CelDrawDatOnly`. */
  method CelDecDatLightOnly(buf: array<byte>, pDecodeTo: int, src: seq<byte>, nWidth: int, tbl: Table)
    requires FrameOk(src, nWidth) && Fits(src, nWidth, pDecodeTo, buf.Length)
    modifies buf
    ensures Painted(old(buf[..]), buf[..], Frame(src, nWidth), pDecodeTo, tbl)
  {
    hide Painted, Fits, WellFormed, Frame, Pixels;
    ghost var b0, done, row := buf[..], [], 0;
    var pos, dst := 0, pDecodeTo;
    NothingPainted(b0, pDecodeTo, tbl);
    FrameStart(src, nWidth);
    while pos != |src|
      invariant 0 <= pos <= |src| && dst == Place(pDecodeTo, Pix(row, 0, 0))
      invariant pos < |src| ==> Decoding(src, nWidth, pos, nWidth, row, done)
      invariant pos == |src| ==> done == Frame(src, nWidth)
      invariant Painted(b0, buf[..], done, pDecodeTo, tbl)
      decreases |src| - pos
    {
      var i := nWidth;
      ghost var from := pos;
      while i != 0
        invariant from <= pos && (i < nWidth ==> from < pos)
        invariant 0 <= pos <= |src| && 0 <= i <= nWidth && Decoding(src, nWidth, pos, i, row, done)
        invariant dst == Place(pDecodeTo, Pix(row, nWidth - i, 0))
        invariant Painted(b0, buf[..], done, pDecodeTo, tbl)
        decreases |src| - pos
      {
        NextControl(src, nWidth, pos, i, row, done);
        var width := src[pos];
        if width < 128 {
          RunOfFrameFits(src, nWidth, pos, i, row, done, pDecodeTo, buf.Length);
          CopyRun(buf, dst, src, pos + 1, width, tbl, b0, done, row, nWidth - i, pDecodeTo);
          done := done + Run(src[pos + 1..pos + 1 + width], row, nWidth - i);
          i := i - width;
          pos := pos + 1 + width;
          dst := dst + width;
        } else {
          width := 256 - width;
          dst := dst + width;
          i := i - width;
          pos := pos + 1;
        }
      }
      NextRow(src, nWidth, pos, row, done);
      dst := dst - (BUFFER_WIDTH + nWidth);
      row := row + 1;
    }
  }

  lemma NothingPainted(b0: seq<byte>, dst: int, t: Table)
    ensures Painted(b0, b0, [], dst, t)
  {}

  lemma FrameStart(src: seq<byte>, w: int)
    requires FrameOk(src, w)
    ensures src != [] ==> Decoding(src, w, 0, w, 0, [])
    ensures src == [] ==> Frame(src, w) == []
  {
    assert src[0..] == src;
  }

  // ------------------------------------------------------ the checkerboard

  /** The checkerboard buffer after the pixels ps: those that show are drawn. */
  ghost predicate Chequered(b0: seq<byte>, b: seq<byte>, ps: seq<Pix>, dst: int, t: Table) {
    Painted(b0, b, Shown(ps), dst, t)
  }

  lemma ChequeredNext(b0: seq<byte>, b: seq<byte>, ps: seq<Pix>, run: seq<byte>, row: nat, col: int, c: int, dst: int,
                      t: Table)
    requires 0 <= c < |run| && Chequered(b0, b, ps + Run(run[..c], row, col), dst, t)
    ensures |b| == |b0|
    ensures var p := Pix(row, col + c, run[c]); var next := ps + Run(run[..c + 1], row, col);
            && (!Shows(p) ==> Chequered(b0, b, next, dst, t))
            && (Shows(p) && 0 <= Place(dst, p) < |b| ==> Chequered(b0, b[Place(dst, p) := t[p.value]], next, dst, t))
  {
    hide Painted, Run;
    var p, now := Pix(row, col + c, run[c]), ps + Run(run[..c], row, col);
    RunMore(run, row, col, c);
    assert ps + Run(run[..c + 1], row, col) == now + [p];
    ShownMore(now, [p]);
    PaintedLength(b0, b, Shown(now), dst, t);
    assert Shown([p]) == if Shows(p) then [p] else [];
    if Shows(p) {
      if 0 <= Place(dst, p) < |b| { PaintedMore(b0, b, Shown(now), p, dst, t); }
    } else {
      assert Shown(now) + [] == Shown(now);
    }
  }

  /** Passes two pixels of a run, drawing the first of them or the second. */
  method Pair(buf: array<byte>, d: int, first: bool, src: seq<byte>, s: int, tbl: Table,
              ghost b0: seq<byte>, ghost ps: seq<Pix>, ghost pos: int, ghost n: int, ghost row: nat, ghost col: int,
              ghost dst: int)
    requires 0 <= pos <= s && s + 2 <= pos + n <= |src|
    requires d == Place(dst, Pix(row, col + (s - pos), 0)) && 0 <= d && d + 2 <= buf.Length
    requires first <==> Shows(Pix(row, col + (s - pos), 0))
    requires Chequered(b0, buf[..], ps + Run(src[pos..pos + n][..s - pos], row, col), dst, tbl)
    modifies buf
    ensures Chequered(b0, buf[..], ps + Run(src[pos..pos + n][..s + 2 - pos], row, col), dst, tbl)
  {
    hide Chequered, Run;
    ghost var was, run := buf[..], src[pos..pos + n];
    ChequeredNext(b0, was, ps, run, row, col, s - pos, dst, tbl);
    if first {
      buf[d] := tbl[src[s]];
      assert buf[..] == was[d := tbl[src[s]]];
    } else {
      buf[d + 1] := tbl[src[s + 1]];
      assert buf[..] == was[d + 1 := tbl[src[s + 1]]];
    }
    ChequeredNext(b0, if first then buf[..] else was, ps, run, row, col, s + 1 - pos, dst, tbl);
  }

  /** Two pairs: the body of the unrolled loops. */
  method TwoPairs(buf: array<byte>, d: int, first: bool, src: seq<byte>, s: int, tbl: Table,
                  ghost b0: seq<byte>, ghost ps: seq<Pix>, ghost pos: int, ghost n: int, ghost row: nat,
                  ghost col: int, ghost dst: int)
    requires 0 <= pos <= s && s + 4 <= pos + n <= |src|
    requires d == Place(dst, Pix(row, col + (s - pos), 0)) && 0 <= d && d + 4 <= buf.Length
    requires first <==> Shows(Pix(row, col + (s - pos), 0))
    requires Chequered(b0, buf[..], ps + Run(src[pos..pos + n][..s - pos], row, col), dst, tbl)
    modifies buf
    ensures Chequered(b0, buf[..], ps + Run(src[pos..pos + n][..s + 4 - pos], row, col), dst, tbl)
  {
    hide Chequered, Run;
    Pair(buf, d, first, src, s, tbl, b0, ps, pos, n, row, col, dst);
    Pair(buf, d + 2, first, src, s + 2, tbl, b0, ps, pos, n, row, col, dst);
  }

  /** L_EVEN (first) and L_ODD: the rest of a run in pairs, then in twos of pairs. */
  method Pairs(buf: array<byte>, d0: int, first: bool, src: seq<byte>, s0: int, w0: int, tbl: Table,
               ghost b0: seq<byte>, ghost ps: seq<Pix>, ghost pos: int, ghost n: int, ghost row: nat, ghost col: int,
               ghost dst: int)
    requires 0 <= pos <= s0 && 0 <= w0 && s0 + 2 * (w0 / 2) == pos + n && pos + n <= |src|
    requires d0 == Place(dst, Pix(row, col + (s0 - pos), 0)) && (w0 >= 2 ==> 0 <= d0 && d0 + 2 * (w0 / 2) <= buf.Length)
    requires first <==> Shows(Pix(row, col + (s0 - pos), 0))
    requires Chequered(b0, buf[..], ps + Run(src[pos..pos + n][..s0 - pos], row, col), dst, tbl)
    modifies buf
    ensures Chequered(b0, buf[..], ps + Run(src[pos..pos + n], row, col), dst, tbl)
  {
    hide Chequered, Run;
    ghost var run := src[pos..pos + n];
    var s, d := s0, d0;
    var width := w0 / 2;
    if width % 2 == 1 {
      Pair(buf, d, first, src, s, tbl, b0, ps, pos, n, row, col, dst);
      s, d := s + 2, d + 2;
    }
    width := width / 2;
    while width > 0
      invariant 0 <= width && s + 4 * width == pos + n && s0 <= s && d == d0 + (s - s0) && (s - s0) % 2 == 0
      invariant Chequered(b0, buf[..], ps + Run(run[..s - pos], row, col), dst, tbl)
    {
      TwoPairs(buf, d, first, src, s, tbl, b0, ps, pos, n, row, col, dst);
      s, d := s + 4, d + 4;
      width := width - 1;
    }
    assert run[..n] == run;
  }

  /** The run of the goto-driven decoder: `even` says whether the low address bit
      equals shift, that is, whether the first pixel is hidden. */
  method ChequerRun(buf: array<byte>, at: int, even: bool, src: seq<byte>, pos: int, n: int, tbl: Table,
                    ghost b0: seq<byte>, ghost ps: seq<Pix>, ghost row: nat, ghost col: int, ghost dst: int)
    requires 0 <= pos && 0 <= n && pos + n <= |src| && at == Place(dst, Pix(row, col, 0)) && RunFits(at, n, buf.Length)
    requires even <==> !Shows(Pix(row, col, 0))
    requires Chequered(b0, buf[..], ps, dst, tbl)
    modifies buf
    ensures Chequered(b0, buf[..], ps + Run(src[pos..pos + n], row, col), dst, tbl)
  {
    hide Chequered, Run;
    ghost var run := src[pos..pos + n];
    RunStart(ps, run, row, col);
    if even {
      if n % 2 == 0 {
        Pairs(buf, at, false, src, pos, n, tbl, b0, ps, pos, n, row, col, dst);
      } else {
        ChequeredNext(b0, buf[..], ps, run, row, col, 0, dst, tbl);
        Pairs(buf, at + 1, true, src, pos + 1, n, tbl, b0, ps, pos, n, row, col, dst);
      }
    } else {
      if n % 2 == 0 {
        Pairs(buf, at, true, src, pos, n, tbl, b0, ps, pos, n, row, col, dst);
      } else {
        ghost var was := buf[..];
        ChequeredNext(b0, was, ps, run, row, col, 0, dst, tbl);
        buf[at] := tbl[src[pos]];
        assert buf[..] == was[at := tbl[run[0]]];
        Pairs(buf, at + 1, false, src, pos + 1, n, tbl, b0, ps, pos, n, row, col, dst);
      }
    }
  }

  /** `CelDecDatLightTrans`: of the frame, exactly the pixels in odd places (row plus
      column) are drawn, through the table. `base` is the address of the buffer. */
  method CelDecDatLightTrans(buf: array<byte>, base: nat, pDecodeTo: int, src: seq<byte>, nWidth: int, tbl: Table)
    requires FrameOk(src, nWidth) && Fits(src, nWidth, pDecodeTo, buf.Length)
    modifies buf
    ensures Painted(old(buf[..]), buf[..], Shown(Frame(src, nWidth)), pDecodeTo, tbl)
  {
    hide Chequered, Fits, WellFormed, Frame, Pixels, Painted, Run, Shown;
    ghost var b0, done, row := buf[..], [], 0;
    var pos, dst := 0, pDecodeTo;
    var shift := (base + dst) % 2;
    NothingChequered(b0, pDecodeTo, tbl);
    FrameStart(src, nWidth);
    while pos != |src|
      invariant 0 <= pos <= |src| && dst == Place(pDecodeTo, Pix(row, 0, 0))
        && shift == ((base + pDecodeTo) % 2 + row) % 2
      invariant pos < |src| ==> Decoding(src, nWidth, pos, nWidth, row, done)
      invariant pos == |src| ==> done == Frame(src, nWidth)
      invariant Chequered(b0, buf[..], done, pDecodeTo, tbl)
      decreases |src| - pos
    {
      var i := nWidth;
      ghost var from := pos;
      while i != 0
        invariant from <= pos && (i < nWidth ==> from < pos)
        invariant 0 <= pos <= |src| && 0 <= i <= nWidth && Decoding(src, nWidth, pos, i, row, done)
        invariant dst == Place(pDecodeTo, Pix(row, nWidth - i, 0))
        invariant Chequered(b0, buf[..], done, pDecodeTo, tbl)
        decreases |src| - pos
      {
        NextControl(src, nWidth, pos, i, row, done);
        var width := src[pos];
        if width < 128 {
          RunOfFrameFits(src, nWidth, pos, i, row, done, pDecodeTo, buf.Length);
          ParityIsCheckerboard(base, pDecodeTo, Pix(row, nWidth - i, 0));
          ChequerRun(buf, dst, (base + dst) % 2 == shift, src, pos + 1, width, tbl, b0, done, row, nWidth - i,
                     pDecodeTo);
          done := done + Run(src[pos + 1..pos + 1 + width], row, nWidth - i);
          i := i - width;
          pos := pos + 1 + width;
          dst := dst + width;
        } else {
          width := 256 - width;
          dst := dst + width;
          i := i - width;
          pos := pos + 1;
        }
      }
      NextRow(src, nWidth, pos, row, done);
      dst := dst - (BUFFER_WIDTH + nWidth);
      shift := (shift + 1) % 2;
      row := row + 1;
    }
    ChequeredMeans(b0, buf[..], done, pDecodeTo, tbl);
  }

  lemma NothingChequered(b0: seq<byte>, dst: int, t: Table)
    ensures Chequered(b0, b0, [], dst, t)
  {}

  lemma ChequeredMeans(b0: seq<byte>, b: seq<byte>, ps: seq<Pix>, dst: int, t: Table)
    requires Chequered(b0, b, ps, dst, t)
    ensures Painted(b0, b, Shown(ps), dst, t)
  {}
}
