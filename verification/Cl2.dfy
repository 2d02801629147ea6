/** The CL2 decoders of Source/engine.cpp: Cl2DecDatFrm1, Cl2DecDatLightTbl1 and Cl2ApplyTrans. */
module Cl2 {
  import opened CInt
  import opened Sprite

  /** A control byte is a signed char: n >= 0 skips n pixels; -n with n <= 65 is followed
      by n pixels; -n with n > 65 is followed by the one value of n - 65 pixels.
      -128 has no positive counterpart in a signed char and is in no stream. */
  function Count(c: byte): int
    requires c >= 128
  {
    256 - c
  }

  function Payload(c: byte): int {
    if c < 128 then 0 else if Count(c) > 65 then 1 else Count(c)
  }

  predicate WellFormed(s: seq<byte>) {
    s == [] || (s[0] != 128 && 1 + Payload(s[0]) <= |s| && WellFormed(s[1 + Payload(s[0])..]))
  }

  function Repeat(v: byte, n: nat): (vs: seq<byte>)
    ensures |vs| == n
  {
    seq(n, _ => v)
  }

  /** The values that the first command of s draws. */
  function Drawn(s: seq<byte>): seq<byte>
    requires s != [] && WellFormed(s)
  {
    if s[0] < 128 then []
    else if Count(s[0]) > 65 then Repeat(s[1], Count(s[0]) - 65)
    else s[1..1 + Count(s[0])]
  }

  function Rest(s: seq<byte>): seq<byte>
    requires s != [] && WellFormed(s)
  {
    s[1 + Payload(s[0])..]
  }

  /** Where the decoder is: the next address, and what is left of the row. */
  datatype Cursor = Cursor(dst: int, w: int)

  function EndRow(c: Cursor, nWidth: int): Cursor {
    if c.w == 0 then Cursor(c.dst - (BUFFER_WIDTH + nWidth), nWidth) else c
  }

  /** The skipping loop, with its signed char width. */
  function Skipped(c: Cursor, width: int, nWidth: int): (c': Cursor)
    requires nWidth > 0 && c.w != 0
    ensures c'.w != 0
    decreases c.w < 0, if width < 0 then -width else width
  {
    if width == 0 then c
    else if width > c.w then Skipped(EndRow(Cursor(c.dst + c.w, 0), nWidth), Char(width - c.w), nWidth)
    else EndRow(Cursor(c.dst + width, c.w - width), nWidth)
  }

  /** The cursor after n drawn values. */
  function Advanced(c: Cursor, n: int, nWidth: int): Cursor {
    EndRow(Cursor(c.dst + n, c.w - n), nWidth)
  }

  function Next(s: seq<byte>, c: Cursor, nWidth: int): (c': Cursor)
    requires s != [] && WellFormed(s) && nWidth > 0 && c.w != 0
    ensures c'.w != 0
  {
    if s[0] < 128 then Skipped(c, s[0], nWidth) else Advanced(c, |Drawn(s)|, nWidth)
  }

  function Run(at: int, vs: seq<byte>, t: Table): (ws: seq<Write>)
    ensures |ws| == |vs|
  {
    seq(|vs|, k requires 0 <= k < |vs| => Write(at + k, t[vs[k]]))
  }

  /** All writes of a decoder with table t, in order. */
  function Writes(s: seq<byte>, c: Cursor, nWidth: int, t: Table): seq<Write>
    requires WellFormed(s) && nWidth > 0 && c.w != 0
    decreases |s|
  {
    if s == [] then []
    else Run(c.dst, Drawn(s), t) + Writes(Rest(s), Next(s, c, nWidth), nWidth, t)
  }

  // ------------------------------------------------------ translating a frame

  function Mapped(vs: seq<byte>, t: Table): (r: seq<byte>)
    ensures |r| == |vs|
  {
    seq(|vs|, k requires 0 <= k < |vs| => t[vs[k]])
  }

  /** The stream with every value, but no control byte, sent through t. */
  function Translated(s: seq<byte>, t: Table): (r: seq<byte>)
    requires WellFormed(s)
    ensures |r| == |s|
    decreases |s|
  {
    if s == [] then []
    else [s[0]] + Mapped(s[1..1 + Payload(s[0])], t) + Translated(Rest(s), t)
  }

  lemma TranslatedParts(s: seq<byte>, t: Table)
    requires s != [] && WellFormed(s)
    ensures var r, n := Translated(s, t), Payload(s[0]);
            r[0] == s[0] && r[1..1 + n] == Mapped(s[1..1 + n], t) && r[1 + n..] == Translated(Rest(s), t)
  {}

  lemma {:induction false} TranslatedIsWellFormed(s: seq<byte>, t: Table)
    requires WellFormed(s)
    ensures WellFormed(Translated(s, t))
    ensures s != [] ==>
      Drawn(Translated(s, t)) == Mapped(Drawn(s), t) && Rest(Translated(s, t)) == Translated(Rest(s), t)
    decreases |s|
  {
    if s != [] {
      TranslatedIsWellFormed(Rest(s), t);
      TranslatedParts(s, t);
    }
  }

  lemma RunOfMapped(at: int, vs: seq<byte>, t: Table, u: Table)
    ensures Run(at, Mapped(vs, t), u) == Run(at, vs, Composed(t, u))
  {}

  /** Decoding a translated frame is decoding the frame through the composed table. */
  lemma {:induction false} DecodeOfTranslated(s: seq<byte>, c: Cursor, nWidth: int, t: Table, u: Table)
    requires WellFormed(s) && nWidth > 0 && c.w != 0
    ensures WellFormed(Translated(s, t))
    ensures Writes(Translated(s, t), c, nWidth, u) == Writes(s, c, nWidth, Composed(t, u))
    decreases |s|
  {
    TranslatedIsWellFormed(s, t);
    if s != [] {
      hide WellFormed, Skipped;
      RunOfMapped(c.dst, Drawn(s), t, u);
      DecodeOfTranslated(Rest(s), Next(s, c, nWidth), nWidth, t, u);
    }
  }

  /** Translating by t and then by u is translating by their composition. */
  lemma {:induction false} TranslatedTwice(s: seq<byte>, t: Table, u: Table)
    requires WellFormed(s)
    ensures WellFormed(Translated(s, t))
    ensures Translated(Translated(s, t), u) == Translated(s, Composed(t, u))
    decreases |s|
  {
    TranslatedIsWellFormed(s, t);
    if s != [] {
      TranslatedTwice(Rest(s), t, u);
      TranslatedParts(s, t);
      var n := Payload(s[0]);
      assert Mapped(Mapped(s[1..1 + n], t), u) == Mapped(s[1..1 + n], Composed(t, u));
    }
  }

  lemma ComposedWithIdentity(t: Table)
    ensures Composed(t, Identity()) == t && Composed(Identity(), t) == t
  {}

  /** The decoder with a table paints what the plain decoder paints from the translated frame. */
  lemma LightIsTranslateThenPlain(b: seq<byte>, s: seq<byte>, dst: int, nWidth: int, t: Table)
    requires WellFormed(s) && nWidth > 0 && InBuffer(Writes(s, Cursor(dst, nWidth), nWidth, t), |b|)
    ensures WellFormed(Translated(s, t))
    ensures InBuffer(Writes(Translated(s, t), Cursor(dst, nWidth), nWidth, Identity()), |b|)
    ensures Written(b, Writes(Translated(s, t), Cursor(dst, nWidth), nWidth, Identity()))
      == Written(b, Writes(s, Cursor(dst, nWidth), nWidth, t))
  {
    DecodeOfTranslated(s, Cursor(dst, nWidth), nWidth, t, Identity());
    ComposedWithIdentity(t);
  }

  // ------------------------------------------------------ pixel by pixel

  datatype Dot = Gap | Ink(value: byte)

  /** The dots of the frame, one after the other. */
  function Dots(s: seq<byte>): seq<Dot>
    requires WellFormed(s)
    decreases |s|
  {
    if s == [] then []
    else (if s[0] < 128 then seq(s[0], _ => Gap)
          else seq(|Drawn(s)|, k requires 0 <= k < |Drawn(s)| => Ink(Drawn(s)[k]))) + Dots(Rest(s))
  }

  /** Draws a list of dots on rows of nWidth, starting at this place. Row 0 begins at
      dst, and each further row one buffer line above. */
  function PixelByPixel(ds: seq<Dot>, row: nat, col: nat, dst: int, nWidth: nat, t: Table): seq<Write> {
    if ds == [] then []
    else
      (if ds[0].Ink? then [Write(dst - BUFFER_WIDTH * row + col, t[ds[0].value])] else [])
      + if col + 1 == nWidth then PixelByPixel(ds[1..], row + 1, 0, dst, nWidth, t)
        else PixelByPixel(ds[1..], row, col + 1, dst, nWidth, t)
  }

  /** The place n dots on. */
  function Onward(row: nat, col: nat, n: nat, nWidth: nat): (p: (nat, nat))
    requires col < nWidth
    ensures p.1 < nWidth
    decreases n
  {
    if col + n < nWidth then (row, col + n) else Onward(row + 1, 0, n - (nWidth - col), nWidth)
  }

  /** Counted row by row, that place is n dots later. */
  lemma {:induction false} OnwardCounts(row: nat, col: nat, n: nat, nWidth: nat)
    requires col < nWidth
    ensures var p := Onward(row, col, n, nWidth); p.0 * nWidth + p.1 == row * nWidth + col + n
    decreases n
  {
    if col + n >= nWidth {
      OnwardCounts(row + 1, 0, n - (nWidth - col), nWidth);
      assert (row + 1) * nWidth == row * nWidth + nWidth;
    }
  }

  /** No drawn run goes past the end of its row. */
  predicate RunsFitRows(s: seq<byte>, row: nat, col: nat, nWidth: nat)
    requires WellFormed(s) && col < nWidth
    decreases |s|
  {
    s == [] || (col + |Drawn(s)| <= nWidth
    && var n := if s[0] < 128 then s[0] else |Drawn(s)|;
       var p := Onward(row, col, n, nWidth);
       RunsFitRows(Rest(s), p.0, p.1, nWidth))
  }

  function At(row: nat, col: nat, dst: int, nWidth: nat): Cursor {
    Cursor(dst - BUFFER_WIDTH * row + col, nWidth - col)
  }

  lemma {:induction false} SkippedIsOnward(row: nat, col: nat, n: nat, dst: int, nWidth: nat)
    requires col < nWidth && n < 128
    ensures var p := Onward(row, col, n, nWidth);
      Skipped(At(row, col, dst, nWidth), n, nWidth) == At(p.0, p.1, dst, nWidth)
    decreases n
  {
    if n > nWidth - col {
      SkippedIsOnward(row + 1, 0, n - (nWidth - col), dst, nWidth);
    }
  }

  lemma {:induction false} GapsMove(n: nat, rest: seq<Dot>, row: nat, col: nat, dst: int, nWidth: nat, t: Table)
    requires col < nWidth
    ensures var p := Onward(row, col, n, nWidth);
            PixelByPixel(seq(n, _ => Gap) + rest, row, col, dst, nWidth, t)
              == PixelByPixel(rest, p.0, p.1, dst, nWidth, t)
    decreases n
  {
    hide Onward;
    OnwardStep(row, col, n, nWidth);
    GapsParts(n, rest);
    if n > 0 {
      if col + 1 == nWidth { GapsMove(n - 1, rest, row + 1, 0, dst, nWidth, t); }
      else { GapsMove(n - 1, rest, row, col + 1, dst, nWidth, t); }
    }
  }

  lemma GapsParts(n: nat, rest: seq<Dot>)
    ensures n == 0 ==> seq(n, _ => Gap) + rest == rest
    ensures n > 0 ==> (seq(n, _ => Gap) + rest)[0] == Gap
    ensures n > 0 ==> (seq(n, _ => Gap) + rest)[1..] == seq(n - 1, _ => Gap) + rest
  {}

  function Inks(vs: seq<byte>): (ds: seq<Dot>)
    ensures |ds| == |vs|
  {
    seq(|vs|, k requires 0 <= k < |vs| => Ink(vs[k]))
  }

  lemma OnwardStep(row: nat, col: nat, n: nat, nWidth: nat)
    requires col < nWidth
    ensures n == 0 ==> Onward(row, col, n, nWidth) == (row, col)
    ensures n > 0 && col + 1 == nWidth ==> Onward(row, col, n, nWidth) == Onward(row + 1, 0, n - 1, nWidth)
    ensures n > 0 && col + 1 < nWidth ==> Onward(row, col, n, nWidth) == Onward(row, col + 1, n - 1, nWidth)
  {}

  lemma FirstWrite(at: int, vs: seq<byte>, t: Table)
    requires vs != []
    ensures Run(at, vs, t) == [Write(at, t[vs[0]])] + Run(at + 1, vs[1..], t)
  {}

  lemma FirstInk(ds: seq<Dot>, row: nat, col: nat, dst: int, nWidth: nat, t: Table)
    requires ds != [] && ds[0].Ink?
    ensures PixelByPixel(ds, row, col, dst, nWidth, t) == [Write(dst - BUFFER_WIDTH * row + col, t[ds[0].value])]
              + if col + 1 == nWidth then PixelByPixel(ds[1..], row + 1, 0, dst, nWidth, t)
                else PixelByPixel(ds[1..], row, col + 1, dst, nWidth, t)
  {}

  lemma {:induction false} InksDraw(vs: seq<byte>, rest: seq<Dot>, row: nat, col: nat, dst: int, nWidth: nat, t: Table)
    requires col < nWidth && col + |vs| <= nWidth
    ensures var p := Onward(row, col, |vs|, nWidth);
            PixelByPixel(Inks(vs) + rest, row, col, dst, nWidth, t)
            == Run(dst - BUFFER_WIDTH * row + col, vs, t) + PixelByPixel(rest, p.0, p.1, dst, nWidth, t)
    decreases |vs|
  {
    hide PixelByPixel, Onward, Run;
    var ds, at := Inks(vs) + rest, dst - BUFFER_WIDTH * row + col;
    OnwardStep(row, col, |vs|, nWidth);
    if vs == [] {
      assert ds == rest;
    } else {
      assert ds[1..] == Inks(vs[1..]) + rest;
      FirstInk(ds, row, col, dst, nWidth, t);
      FirstWrite(at, vs, t);
      if |vs| == 1 && col + 1 == nWidth {
        assert ds[1..] == rest;
        OnwardStep(row + 1, 0, 0, nWidth);
      } else {
        InksDraw(vs[1..], rest, row, col + 1, dst, nWidth, t);
      }
    }
  }

  lemma NoDots(row: nat, col: nat, dst: int, nWidth: nat, t: Table)
    ensures PixelByPixel([], row, col, dst, nWidth, t) == []
  {}

  lemma UnfoldStream(s: seq<byte>, c: Cursor, nWidth: int, t: Table)
    requires WellFormed(s) && nWidth > 0 && c.w != 0
    ensures s == [] ==> Dots(s) == [] && Writes(s, c, nWidth, t) == []
    ensures s != [] ==>
      && Writes(s, c, nWidth, t) == Run(c.dst, Drawn(s), t) + Writes(Rest(s), Next(s, c, nWidth), nWidth, t)
      && (s[0] < 128 ==> Dots(s) == seq(s[0], _ => Gap) + Dots(Rest(s)) && Run(c.dst, Drawn(s), t) == [])
      && (s[0] >= 128 ==> Dots(s) == Inks(Drawn(s)) + Dots(Rest(s)))
  {
    if s != [] && s[0] >= 128 {
      assert seq(|Drawn(s)|, k requires 0 <= k < |Drawn(s)| => Ink(Drawn(s)[k])) == Inks(Drawn(s));
    }
  }

  /** When no run goes past its row, decoding is drawing the dots one by one. */
  lemma {:induction false} FittingRunsArePixels(s: seq<byte>, row: nat, col: nat, dst: int, nWidth: nat, t: Table)
    requires WellFormed(s) && col < nWidth && RunsFitRows(s, row, col, nWidth)
    ensures Writes(s, At(row, col, dst, nWidth), nWidth, t) == PixelByPixel(Dots(s), row, col, dst, nWidth, t)
    decreases |s|
  {
    hide Skipped, PixelByPixel, Run, Onward, Writes, Dots;
    UnfoldStream(s, At(row, col, dst, nWidth), nWidth, t);
    if s == [] {
      NoDots(row, col, dst, nWidth, t);
    } else {
      var n := if s[0] < 128 then s[0] else |Drawn(s)|;
      var p := Onward(row, col, n, nWidth);
      FittingRunsArePixels(Rest(s), p.0, p.1, dst, nWidth, t);
      if s[0] < 128 {
        SkippedIsOnward(row, col, n, dst, nWidth);
        GapsMove(n, Dots(Rest(s)), row, col, dst, nWidth, t);
      } else {
        InksDraw(Drawn(s), Dots(Rest(s)), row, col, dst, nWidth, t);
        AdvancedIsOnward(row, col, n, dst, nWidth);
      }
    }
  }

  /** A run that goes on past its row is written where the row would go on, and not
      on the next row. */
  lemma CrossingRunIsNoRow(s: seq<byte>, row: nat, col: nat, dst: int, nWidth: nat, t: Table)
    requires s != [] && WellFormed(s) && col < nWidth && col + |Drawn(s)| > nWidth
    ensures Writes(s, At(row, col, dst, nWidth), nWidth, t) != PixelByPixel(Dots(s), row, col, dst, nWidth, t)
  {
    hide Skipped, PixelByPixel, Onward, Writes, Dots;
    UnfoldStream(s, At(row, col, dst, nWidth), nWidth, t);
    var vs, k := Drawn(s), nWidth - col;
    var rest := Inks(vs[k..]) + Dots(Rest(s));
    assert Inks(vs) + Dots(Rest(s)) == Inks(vs[..k]) + rest;
    InksDraw(vs[..k], rest, row, col, dst, nWidth, t);
    OnwardToNextRow(row, col, k, nWidth);
    FirstInk(rest, row + 1, 0, dst, nWidth, t);
    var at := dst - BUFFER_WIDTH * row + col;
    assert Writes(s, At(row, col, dst, nWidth), nWidth, t)[k] == Run(at, vs, t)[k];
  }

  lemma SameTail(front: seq<Write>, xs: seq<Write>, ys: seq<Write>)
    ensures [] + xs == xs && [] + ys == ys
    ensures front + xs == front + ys ==> xs == ys
  {
    assert (front + xs)[|front|..] == xs && (front + ys)[|front|..] == ys;
  }

  lemma OnwardToNextRow(row: nat, col: nat, n: nat, nWidth: nat)
    requires col < nWidth && col + n == nWidth
    ensures Onward(row, col, n, nWidth) == (row + 1, 0)
  {}

  lemma {:induction false} PixelsNeedFittingRuns(s: seq<byte>, row: nat, col: nat, dst: int, nWidth: nat, t: Table)
    requires WellFormed(s) && col < nWidth
    requires Writes(s, At(row, col, dst, nWidth), nWidth, t) == PixelByPixel(Dots(s), row, col, dst, nWidth, t)
    ensures RunsFitRows(s, row, col, nWidth)
    decreases |s|
  {
    hide Skipped, PixelByPixel, Run, Onward, Writes, Dots;
    if s != [] {
      UnfoldStream(s, At(row, col, dst, nWidth), nWidth, t);
      if col + |Drawn(s)| > nWidth {
        CrossingRunIsNoRow(s, row, col, dst, nWidth, t);
      } else {
        var n := if s[0] < 128 then s[0] else |Drawn(s)|;
        var p := Onward(row, col, n, nWidth);
        if s[0] < 128 {
          SkippedIsOnward(row, col, n, dst, nWidth);
          GapsMove(n, Dots(Rest(s)), row, col, dst, nWidth, t);
        } else {
          InksDraw(Drawn(s), Dots(Rest(s)), row, col, dst, nWidth, t);
          AdvancedIsOnward(row, col, n, dst, nWidth);
        }
        SameTail(Run(At(row, col, dst, nWidth).dst, Drawn(s), t), Writes(Rest(s), At(p.0, p.1, dst, nWidth), nWidth, t),
                 PixelByPixel(Dots(Rest(s)), p.0, p.1, dst, nWidth, t));
        PixelsNeedFittingRuns(Rest(s), p.0, p.1, dst, nWidth, t);
      }
    }
  }

  /** Decoding is drawing the dots one by one exactly when no run goes past its row. */
  lemma WritesArePixels(s: seq<byte>, row: nat, col: nat, dst: int, nWidth: nat, t: Table)
    requires WellFormed(s) && col < nWidth
    ensures Writes(s, At(row, col, dst, nWidth), nWidth, t) == PixelByPixel(Dots(s), row, col, dst, nWidth, t)
            <==> RunsFitRows(s, row, col, nWidth)
  {
    hide Skipped, PixelByPixel, Onward, Writes, Dots, RunsFitRows;
    if RunsFitRows(s, row, col, nWidth) {
      FittingRunsArePixels(s, row, col, dst, nWidth, t);
    } else if Writes(s, At(row, col, dst, nWidth), nWidth, t) == PixelByPixel(Dots(s), row, col, dst, nWidth, t) {
      PixelsNeedFittingRuns(s, row, col, dst, nWidth, t);
    }
  }

  /** Three values in rows of two: the third stays on the first row's line. */
  lemma CrossingStream(dst: int, t: Table)
    ensures var s := [253, 7, 8, 9];
            && WellFormed(s) && !RunsFitRows(s, 0, 0, 2)
            && Writes(s, Cursor(dst, 2), 2, t) == [Write(dst, t[7]), Write(dst + 1, t[8]), Write(dst + 2, t[9])]
            && PixelByPixel(Dots(s), 0, 0, dst, 2, t)
               == [Write(dst, t[7]), Write(dst + 1, t[8]), Write(dst - BUFFER_WIDTH, t[9])]
  {
    var s: seq<byte> := [253, 7, 8, 9];
    assert Rest(s) == [] && Drawn(s) == [7, 8, 9];
    assert Dots(s) == [Ink(7), Ink(8), Ink(9)];
    assert Dots(s)[1..] == [Ink(8), Ink(9)] && Dots(s)[1..][1..] == [Ink(9)] && Dots(s)[1..][1..][1..] == [];
    assert PixelByPixel([Ink(9)], 1, 0, dst, 2, t) == [Write(dst - BUFFER_WIDTH, t[9])];
    assert PixelByPixel([Ink(8), Ink(9)], 0, 1, dst, 2, t)
      == [Write(dst + 1, t[8])] + PixelByPixel([Ink(9)], 1, 0, dst, 2, t);
  }

  lemma AdvancedIsOnward(row: nat, col: nat, n: nat, dst: int, nWidth: nat)
    requires col < nWidth && col + n <= nWidth
    ensures var p := Onward(row, col, n, nWidth);
      Advanced(At(row, col, dst, nWidth), n, nWidth) == At(p.0, p.1, dst, nWidth)
  {}

  // ------------------------------------------------------ the decoders

  /** Draws vs[..n] one value after the other. */
  lemma RunMore(b: seq<byte>, b0: seq<byte>, at: int, vs: seq<byte>, k: int, t: Table)
    requires 0 <= k < |vs| && InBuffer(Run(at, vs, t), |b0|)
    requires InBuffer(Run(at, vs[..k], t), |b0|) && b == Written(b0, Run(at, vs[..k], t))
    ensures 0 <= at + k < |b0| && InBuffer(Run(at, vs[..k + 1], t), |b0|)
    ensures b[at + k := t[vs[k]]] == Written(b0, Run(at, vs[..k + 1], t))
  {
    hide Written;
    var w := Write(at + k, t[vs[k]]);
    assert Run(at, vs, t)[k] == w;
    assert Run(at, vs[..k + 1], t) == Run(at, vs[..k], t) + [w];
    WrittenMore(b0, Run(at, vs[..k], t), w);
  }

  /** `while (width) { *dst = fill; ... }` */
  method Fill(buf: array<byte>, at: int, n: nat, fill: byte, ghost v: byte, ghost t: Table)
    requires fill == t[v] && InBuffer(Run(at, Repeat(v, n), t), buf.Length)
    modifies buf
    ensures buf[..] == Written(old(buf[..]), Run(at, Repeat(v, n), t))
  {
    hide Run, Written, InBuffer;
    ghost var vs, b0 := Repeat(v, n), buf[..];
    RunStart(b0, at, vs, t);
    var width, dst := n, at;
    while width != 0
      invariant 0 <= width <= n && dst == at + (n - width)
      invariant InBuffer(Run(at, vs[..n - width], t), |b0|) && buf[..] == Written(b0, Run(at, vs[..n - width], t))
      decreases width
    {
      ghost var was := buf[..];
      RunMore(was, b0, at, vs, n - width, t);
      buf[dst] := fill;
      assert buf[..] == was[dst := fill];
      dst, width := dst + 1, width - 1;
    }
    assert vs[..n] == vs;
  }

  /** `while (width) { *dst = pTable[*src]; ... }` */
  method Copy(buf: array<byte>, at: int, s: seq<byte>, pos: nat, n: nat, t: Table)
    requires pos + n <= |s| && InBuffer(Run(at, s[pos..pos + n], t), buf.Length)
    modifies buf
    ensures buf[..] == Written(old(buf[..]), Run(at, s[pos..pos + n], t))
  {
    hide Run, Written, InBuffer;
    ghost var vs, b0 := s[pos..pos + n], buf[..];
    RunStart(b0, at, vs, t);
    var width, dst, src := n, at, pos;
    while width != 0
      invariant 0 <= width <= n && dst == at + (n - width) && src == pos + (n - width)
      invariant InBuffer(Run(at, vs[..n - width], t), |b0|) && buf[..] == Written(b0, Run(at, vs[..n - width], t))
      decreases width
    {
      ghost var was := buf[..];
      RunMore(was, b0, at, vs, n - width, t);
      buf[dst] := t[s[src]];
      assert buf[..] == was[dst := t[s[src]]];
      src, dst, width := src + 1, dst + 1, width - 1;
    }
    assert vs[..n] == vs;
  }

  lemma RunStart(b: seq<byte>, at: int, vs: seq<byte>, t: Table)
    ensures Run(at, vs[..0], t) == [] && InBuffer([], |b|) && Written(b, []) == b
  {}

  /** The decoder is at pos with cursor c; its writes so far are `done`. */
  ghost predicate Decoding(src: seq<byte>, pos: int, c: Cursor, nWidth: int, t: Table, done: seq<Write>,
                           all: seq<Write>) {
    && 0 <= pos <= |src| && WellFormed(src[pos..]) && nWidth > 0 && c.w != 0
    && all == done + Writes(src[pos..], c, nWidth, t)
  }

  lemma Step(src: seq<byte>, pos: int, c: Cursor, nWidth: int, t: Table, done: seq<Write>, all: seq<Write>)
    requires Decoding(src, pos, c, nWidth, t, done, all) && pos < |src|
    ensures src[pos] != 128 && pos + 1 + Payload(src[pos]) <= |src|
    ensures var vs := Drawn(src[pos..]);
            && (src[pos] < 128 ==> vs == [])
            && (src[pos] >= 128 && Count(src[pos]) > 65 ==> vs == Repeat(src[pos + 1], Count(src[pos]) - 65))
            && (src[pos] >= 128 && Count(src[pos]) <= 65 ==> vs == src[pos + 1..pos + 1 + Count(src[pos])])
            && Decoding(src, pos + 1 + Payload(src[pos]), Next(src[pos..], c, nWidth), nWidth, t,
                        done + Run(c.dst, vs, t), all)
  {
    hide Run, Skipped;
    var s := src[pos..];
    assert Rest(s) == src[pos + 1 + Payload(src[pos])..];
    var run := Run(c.dst, Drawn(s), t);
    assert done + (run + Writes(Rest(s), Next(s, c, nWidth), nWidth, t))
      == done + run + Writes(Rest(s), Next(s, c, nWidth), nWidth, t);
  }

  lemma Finished(src: seq<byte>, c: Cursor, nWidth: int, t: Table, done: seq<Write>, all: seq<Write>)
    requires Decoding(src, |src|, c, nWidth, t, done, all)
    ensures done == all
  {}

  lemma RunInBuffer(b0: seq<byte>, done: seq<Write>, run: seq<Write>, all: seq<Write>)
    requires done + run <= all && InBuffer(all, |b0|)
    ensures InBuffer(done, |b0|) && InBuffer(run, |b0|) && InBuffer(done + run, |b0|)
    ensures Written(b0, done + run) == Written(Written(b0, done), run)
  {
    InBufferPrefix(all, done + run, |b0|);
    WrittenJoin(b0, done, run);
  }

  /** One turn of the skipping loop, and why there is a last one. */
  lemma SkipStep(dst: int, w: int, width: int, nWidth: int)
    requires nWidth > 0 && w != 0
    ensures width == 0 ==> Skipped(Cursor(dst, w), width, nWidth) == Cursor(dst, w)
    ensures width != 0 && width <= w ==>
      Skipped(Cursor(dst, w), width, nWidth) == EndRow(Cursor(dst + width, w - width), nWidth)
    ensures width != 0 && width > w ==>
      && Skipped(Cursor(dst, w), width, nWidth) == Skipped(EndRow(Cursor(dst + w, 0), nWidth), Char(width - w), nWidth)
      && (w > 0 ==> -width < Char(width - w) < width)
  {}

  /** The skipping loop of both decoders. */
  method Skip(c: Cursor, n: nat, nWidth: int) returns (c': Cursor)
    requires nWidth > 0 && c.w != 0 && n < 128
    ensures c' == Skipped(c, n, nWidth)
  {
    hide Skipped, Char;
    var width, dst, w := n, c.dst, c.w;
    while width != 0
      invariant w != 0 && Skipped(Cursor(dst, w), width, nWidth) == Skipped(c, n, nWidth)
      decreases w < 0, if width < 0 then -width else width
    {
      SkipStep(dst, w, width, nWidth);
      if width > w {
        dst := dst + w;
        width := Char(width - w);
        w := 0;
      } else {
        dst := dst + width;
        w := w - width;
        width := 0;
      }
      if w == 0 {
        w := nWidth;
        dst := dst - (BUFFER_WIDTH + w);
      }
      SkipStep(dst, w, 0, nWidth);
    }
    SkipStep(dst, w, width, nWidth);
    c' := Cursor(dst, w);
  }

  lemma IdentityKeeps()
    ensures forall v: byte :: Identity()[v] == v
  {}

  /** `while (width) { *dst = *src; ... }` */
  method CopyPlain(buf: array<byte>, at: int, s: seq<byte>, pos: nat, n: nat)
    requires pos + n <= |s| && InBuffer(Run(at, s[pos..pos + n], Identity()), buf.Length)
    modifies buf
    ensures buf[..] == Written(old(buf[..]), Run(at, s[pos..pos + n], Identity()))
  {
    hide Run, Written, InBuffer, Identity;
    IdentityKeeps();
    ghost var vs, b0, t := s[pos..pos + n], buf[..], Identity();
    RunStart(b0, at, vs, t);
    var width, dst, src := n, at, pos;
    while width != 0
      invariant 0 <= width <= n && dst == at + (n - width) && src == pos + (n - width)
      invariant InBuffer(Run(at, vs[..n - width], t), |b0|) && buf[..] == Written(b0, Run(at, vs[..n - width], t))
      decreases width
    {
      ghost var was := buf[..];
      RunMore(was, b0, at, vs, n - width, t);
      buf[dst] := s[src];
      assert buf[..] == was[dst := s[src]];
      src, dst, width := src + 1, dst + 1, width - 1;
    }
    assert vs[..n] == vs;
  }

  /** `Cl2DecDatFrm1`: no table at all. */
  method Cl2DecDatFrm1(buf: array<byte>, pDecodeTo: int, src: seq<byte>, nWidth: int)
    requires WellFormed(src) && nWidth > 0
      && InBuffer(Writes(src, Cursor(pDecodeTo, nWidth), nWidth, Identity()), buf.Length)
    modifies buf
    ensures buf[..] == Written(old(buf[..]), Writes(src, Cursor(pDecodeTo, nWidth), nWidth, Identity()))
  {
    hide WellFormed, Writes, InBuffer, Run, Written, Skipped, Identity;
    IdentityKeeps();
    ghost var all, done, b0 := Writes(src, Cursor(pDecodeTo, nWidth), nWidth, Identity()), [], buf[..];
    var pos, nDataSize, dst, w := 0, |src|, pDecodeTo, nWidth;
    assert src[0..] == src;
    RunStart(b0, 0, [], Identity());
    while nDataSize != 0
      invariant nDataSize == |src| - pos && Decoding(src, pos, Cursor(dst, w), nWidth, Identity(), done, all)
      invariant InBuffer(done, |b0|) && buf[..] == Written(b0, done)
      decreases nDataSize
    {
      Step(src, pos, Cursor(dst, w), nWidth, Identity(), done, all);
      ghost var run := Run(dst, Drawn(src[pos..]), Identity());
      RunInBuffer(b0, done, run, all);
      done := done + run;
      var width: int := if src[pos] < 128 then src[pos] else src[pos] as int - 256;
      pos, nDataSize := pos + 1, nDataSize - 1;
      if width < 0 {
        width := -width;
        if width > 65 {
          width := width - 65;
          nDataSize := nDataSize - 1;
          var fill := src[pos];
          w := w - width;
          Fill(buf, dst, width, fill, src[pos], Identity());
          pos := pos + 1;
        } else {
          nDataSize := nDataSize - width;
          w := w - width;
          CopyPlain(buf, dst, src, pos, width);
          pos := pos + width;
        }
        dst := dst + width;
        if w == 0 {
          w := nWidth;
          dst := dst - (BUFFER_WIDTH + w);
        }
      } else {
        var c := Skip(Cursor(dst, w), width, nWidth);
        dst, w := c.dst, c.w;
        RunStart(buf[..], 0, [], Identity());
      }
    }
    Finished(src, Cursor(dst, w), nWidth, Identity(), done, all);
  }

  /** `Cl2DecDatLightTbl1`: every value goes through the table. */
  method Cl2DecDatLightTbl1(buf: array<byte>, pDecodeTo: int, src: seq<byte>, nWidth: int, pTable: Table)
    requires WellFormed(src) && nWidth > 0
      && InBuffer(Writes(src, Cursor(pDecodeTo, nWidth), nWidth, pTable), buf.Length)
    modifies buf
    ensures buf[..] == Written(old(buf[..]), Writes(src, Cursor(pDecodeTo, nWidth), nWidth, pTable))
  {
    hide WellFormed, Writes, InBuffer, Run, Written, Skipped;
    ghost var all, done, b0 := Writes(src, Cursor(pDecodeTo, nWidth), nWidth, pTable), [], buf[..];
    var pos, nDataSize, dst, w := 0, |src|, pDecodeTo, nWidth;
    assert src[0..] == src;
    RunStart(b0, 0, [], pTable);
    while nDataSize != 0
      invariant nDataSize == |src| - pos && Decoding(src, pos, Cursor(dst, w), nWidth, pTable, done, all)
      invariant InBuffer(done, |b0|) && buf[..] == Written(b0, done)
      decreases nDataSize
    {
      Step(src, pos, Cursor(dst, w), nWidth, pTable, done, all);
      ghost var run := Run(dst, Drawn(src[pos..]), pTable);
      RunInBuffer(b0, done, run, all);
      done := done + run;
      var width: int := if src[pos] < 128 then src[pos] else src[pos] as int - 256;
      pos, nDataSize := pos + 1, nDataSize - 1;
      if width < 0 {
        width := -width;
        if width > 65 {
          width := width - 65;
          nDataSize := nDataSize - 1;
          var fill := pTable[src[pos]];
          w := w - width;
          Fill(buf, dst, width, fill, src[pos], pTable);
          pos := pos + 1;
        } else {
          nDataSize := nDataSize - width;
          w := w - width;
          Copy(buf, dst, src, pos, width, pTable);
          pos := pos + width;
        }
        dst := dst + width;
        if w == 0 {
          w := nWidth;
          dst := dst - (BUFFER_WIDTH + w);
        }
      } else {
        var c := Skip(Cursor(dst, w), width, nWidth);
        dst, w := c.dst, c.w;
        RunStart(buf[..], 0, [], pTable);
      }
    }
    Finished(src, Cursor(dst, w), nWidth, pTable, done, all);
  }

  // ------------------------------------------------------ Cl2ApplyTrans

  function Dword(p: seq<byte>, at: int): int
    requires 0 <= at && at + 4 <= |p|
  {
    p[at] as int + 0x100 * p[at + 1] as int + 0x1_0000 * p[at + 2] as int + 0x100_0000 * p[at + 3] as int
  }

  /** The number that these bytes are the digits of, the least significant first. */
  function LittleEndian(bs: seq<byte>): nat {
    if bs == [] then 0 else bs[0] as int + 256 * LittleEndian(bs[1..])
  }

  lemma DwordIsLittleEndian(p: seq<byte>, at: int)
    requires 0 <= at && at + 4 <= |p|
    ensures Dword(p, at) == LittleEndian(p[at..at + 4])
  {
    FirstDigit(p, at, at + 4);
    FirstDigit(p, at + 1, at + 4);
    FirstDigit(p, at + 2, at + 4);
    FirstDigit(p, at + 3, at + 4);
    assert p[at + 4..at + 4] == [];
  }

  lemma FirstDigit(p: seq<byte>, i: int, j: int)
    requires 0 <= i < j <= |p|
    ensures LittleEndian(p[i..j]) == p[i] as int + 256 * LittleEndian(p[i + 1..j])
  {
    assert p[i..j][1..] == p[i + 1..j];
  }

  /** Where the stream of frame i begins and ends: the frame table at the start of the
      sheet gives the frames' offsets, and each frame has a header of 10 bytes. */
  function Start(p: seq<byte>, i: int): int
    requires 0 <= i && 4 * i + 4 <= |p|
  {
    Dword(p, 4 * i) + 10
  }

  function End(p: seq<byte>, i: int): int
    requires 0 <= i && 4 * i + 8 <= |p|
  {
    Dword(p, 4 * i + 4)
  }

  /** A sheet of nCel frames, one after the other behind the frame table. */
  ghost predicate Sheet(p: seq<byte>, nCel: nat) {
    && 4 * nCel + 8 <= |p|
    && (forall i :: 1 <= i <= nCel ==>
        4 * nCel + 8 <= Start(p, i) <= End(p, i) <= |p| && WellFormed(p[Start(p, i)..End(p, i)]))
    && forall i, j :: 1 <= i < j <= nCel ==> End(p, i) <= Start(p, j)
  }

  /** Frames 1..n of sheet p went through t; nothing else changed. */
  ghost predicate SheetTranslated(p: seq<byte>, q: seq<byte>, nCel: nat, n: nat, t: Table)
    requires Sheet(p, nCel) && n <= nCel
  {
    && |q| == |p|
    && (forall i :: 1 <= i <= n ==> q[Start(p, i)..End(p, i)] == Translated(p[Start(p, i)..End(p, i)], t))
    && forall k :: 0 <= k < |p| && (forall i :: 1 <= i <= n ==> !(Start(p, i) <= k < End(p, i))) ==> q[k] == p[k]
  }

  /** `*dst = ttbl[*dst]` for the n bytes from `at`. */
  method TranslateRun(p: array<byte>, at: nat, n: nat, ttbl: Table)
    requires at + n <= p.Length
    modifies p
    ensures p[..] == old(p[..at]) + Mapped(old(p[at..at + n]), ttbl) + old(p[at + n..])
  {
    var dst, width := at, n;
    while width != 0
      invariant 0 <= width <= n && dst == at + (n - width)
      invariant forall k :: 0 <= k < p.Length ==> p[k] == if at <= k < dst then ttbl[old(p[k])] else old(p[k])
      decreases width
    {
      p[dst] := ttbl[p[dst]];
      dst, width := dst + 1, width - 1;
    }
  }

  /** The first command of s, translated. */
  function Command(s: seq<byte>, t: Table): (c: seq<byte>)
    requires s != [] && WellFormed(s)
    ensures |c| == 1 + Payload(s[0])
  {
    [s[0]] + Mapped(s[1..1 + Payload(s[0])], t)
  }

  lemma NextCommand(s: seq<byte>, t: Table, all: seq<byte>, done: seq<byte>)
    requires s != [] && WellFormed(s) && all == done + Translated(s, t)
    ensures WellFormed(Rest(s)) && all == done + Command(s, t) + Translated(Rest(s), t)
  {}

  /** Translating n bytes behind the control byte of the first command of `rest`. */
  lemma Patch(q: seq<byte>, q': seq<byte>, before: seq<byte>, done: seq<byte>, rest: seq<byte>, after: seq<byte>,
              n: nat, t: Table)
    requires q == before + done + rest + after && 1 + n <= |rest|
    requires var d := |before| + |done| + 1; q' == q[..d] + Mapped(q[d..d + n], t) + q[d + n..]
    ensures q' == before + (done + ([rest[0]] + Mapped(rest[1..1 + n], t))) + rest[1 + n..] + after
  {
    var d := |before| + |done| + 1;
    assert q[..d] == before + done + [rest[0]];
    assert q[d..d + n] == rest[1..1 + n];
    assert q[d + n..] == rest[1 + n..] + after;
  }

  /** The body of the inner loop: one command, in place. */
  method TranslateCommand(p: array<byte>, at: nat, size: nat, ttbl: Table,
                          ghost before: seq<byte>, ghost done: seq<byte>, ghost rest: seq<byte>, ghost after: seq<byte>)
    returns (dst: nat, nDataSize: int)
    requires p[..] == before + done + rest + after && |before| + |done| == at
    requires rest != [] && WellFormed(rest) && |rest| == size
    modifies p
    ensures p[..] == before + (done + Command(rest, ttbl)) + Rest(rest) + after
    ensures dst == at + 1 + Payload(rest[0]) && nDataSize == size - 1 - Payload(rest[0])
  {
    hide Mapped;
    assert rest[0] == p[..][at];
    ghost var was := p[..];
    var width: int := if p[at] < 128 then p[at] else p[at] as int - 256;
    dst, nDataSize := at + 1, size - 1;
    if width < 0 {
      width := -width;
      if width > 65 {
        nDataSize := nDataSize - 1;
        TranslateRun(p, dst, 1, ttbl);
        dst := dst + 1;
      } else {
        nDataSize := nDataSize - width;
        TranslateRun(p, dst, width, ttbl);
        dst := dst + width;
      }
    } else {
      assert was[at + 1..at + 1] == [] && was == was[..at + 1] + [] + was[at + 1..];
    }
    ghost var n := Payload(rest[0]);
    assert p[..] == was[..at + 1] + Mapped(was[at + 1..at + 1 + n], ttbl) + was[at + 1 + n..];
    Patch(was, p[..], before, done, rest, after, n, ttbl);
  }

  /** The inner loop of `Cl2ApplyTrans`: one frame, in place. */
  method TranslateFrame(p: array<byte>, start: nat, end: nat, ttbl: Table)
    requires start <= end <= p.Length && WellFormed(p[start..end])
    modifies p
    ensures p[..] == old(p[..start]) + Translated(old(p[start..end]), ttbl) + old(p[end..])
  {
    hide WellFormed, Translated, Mapped, Command;
    ghost var s, before, after, done := p[start..end], p[..start], p[end..], [];
    ghost var rest := s;
    var dst, nDataSize := start, end - start;
    assert p[..] == before + done + rest + after && done + Translated(s, ttbl) == Translated(s, ttbl);
    while nDataSize != 0
      invariant 0 <= dst && nDataSize == |rest| && |before| + |done| == dst
      invariant WellFormed(rest) && Translated(s, ttbl) == done + Translated(rest, ttbl)
      invariant p[..] == before + done + rest + after
      decreases nDataSize
    {
      NextCommand(rest, ttbl, Translated(s, ttbl), done);
      dst, nDataSize := TranslateCommand(p, dst, nDataSize, ttbl, before, done, rest, after);
      done, rest := done + Command(rest, ttbl), Rest(rest);
    }
    assert rest == [] && done + Translated(rest, ttbl) + rest == Translated(s, ttbl);
  }

  /** `Cl2ApplyTrans`: all frames of the sheet. */
  method Cl2ApplyTrans(p: array<byte>, ttbl: Table, nCel: nat)
    requires Sheet(p[..], nCel)
    modifies p
    ensures SheetTranslated(old(p[..]), p[..], nCel, nCel, ttbl)
  {
    hide WellFormed, Translated;
    ghost var q := p[..];
    var i := 1;
    while i <= nCel
      invariant 1 <= i <= nCel + 1 && SheetTranslated(q, p[..], nCel, i - 1, ttbl)
    {
      TableKept(q, p[..], nCel, i, ttbl);
      var dst := Dword(p[..], 4 * i) + 10;
      var nDataSize := Dword(p[..], 4 * i + 4) - Dword(p[..], 4 * i) - 10;
      ghost var was := p[..];
      assert p[dst..dst + nDataSize] == was[dst..dst + nDataSize];
      TranslateFrame(p, dst, dst + nDataSize, ttbl);
      OneMoreFrame(q, was, p[..], nCel, i, ttbl);
      i := i + 1;
    }
  }

  /** Translating frames leaves the frame table and the later frames alone. */
  lemma TableKept(q: seq<byte>, p: seq<byte>, nCel: nat, i: nat, t: Table)
    requires Sheet(q, nCel) && 1 <= i <= nCel && SheetTranslated(q, p, nCel, i - 1, t)
    ensures |p| == |q| && Start(p, i) == Start(q, i) && End(p, i) == End(q, i)
    ensures p[Start(q, i)..End(q, i)] == q[Start(q, i)..End(q, i)]
  {
    hide WellFormed, Translated;
    forall k | 0 <= k < 4 * nCel + 8 ensures p[k] == q[k] {}
    forall k | Start(q, i) <= k < End(q, i) ensures p[k] == q[k] {
      forall j | 1 <= j <= i - 1 ensures !(Start(q, j) <= k < End(q, j)) {}
    }
  }

  lemma SameSlice(p: seq<byte>, p': seq<byte>, n: int, lo: int, hi: int)
    requires 0 <= lo <= hi <= n <= |p| == |p'| && forall k :: 0 <= k < n ==> p'[k] == p[k]
    ensures p'[lo..hi] == p[lo..hi]
  {}

  lemma OneMoreFrame(q: seq<byte>, p: seq<byte>, p': seq<byte>, nCel: nat, i: nat, t: Table)
    requires Sheet(q, nCel) && 1 <= i <= nCel && SheetTranslated(q, p, nCel, i - 1, t)
    requires var s, e := Start(q, i), End(q, i); p[s..e] == q[s..e] && p' == p[..s] + Translated(p[s..e], t) + p[e..]
    ensures SheetTranslated(q, p', nCel, i, t)
  {
    hide WellFormed, Translated, Start, End;
    var s, e := Start(q, i), End(q, i);
    assert p'[s..e] == Translated(p[s..e], t);
    forall k | 0 <= k < s ensures p'[k] == p[k] {}
    forall j | 1 <= j < i ensures p'[Start(q, j)..End(q, j)] == p[Start(q, j)..End(q, j)] {
      assert End(q, j) <= s;
      SameSlice(p, p', s, Start(q, j), End(q, j));
    }
    forall k | 0 <= k < |q| && (forall j :: 1 <= j <= i ==> !(Start(q, j) <= k < End(q, j))) ensures p'[k] == q[k] {
      assert !(s <= k < e);
      assert p'[k] == p[k];
    }
  }

  /** After translating a sheet, each of its frames decodes without a table to what the
      original frame decodes to through the table. */
  lemma TranslatedSheetDecodes(p: seq<byte>, q: seq<byte>, nCel: nat, t: Table, i: nat, dst: int, nWidth: int)
    requires Sheet(p, nCel) && SheetTranslated(p, q, nCel, nCel, t) && 1 <= i <= nCel && nWidth > 0
    ensures |q| == |p| && Start(q, i) == Start(p, i) && End(q, i) == End(p, i)
    ensures var f, g, c := p[Start(p, i)..End(p, i)], q[Start(p, i)..End(p, i)], Cursor(dst, nWidth);
            WellFormed(g) && Writes(g, c, nWidth, Identity()) == Writes(f, c, nWidth, t)
  {
    hide WellFormed, Writes;
    forall k | 0 <= k < 4 * nCel + 8 ensures q[k] == p[k] {}
    DecodeOfTranslated(p[Start(p, i)..End(p, i)], Cursor(dst, nWidth), nWidth, t, Identity());
    ComposedWithIdentity(t);
  }
}
