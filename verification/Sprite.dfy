/** Sprite pixels and palette tables shared by the decoders of Source/engine.cpp. */
module Sprite {
  import opened CInt

  const BUFFER_WIDTH := 768

  /** A palette translation: 256 entries. */
  type Table = t: seq<byte> | |t| == 256 witness seq(256, i => 0)

  function Identity(): Table {
    seq(256, i requires 0 <= i < 256 => i as byte)
  }

  /** First t, then u. */
  function Composed(t: Table, u: Table): Table {
    seq(256, i requires 0 <= i < 256 => u[t[i]])
  }

  /** A byte written to the picture buffer. */
  datatype Write = Write(at: int, value: byte)

  predicate InBuffer(ws: seq<Write>, n: int) {
    forall k :: 0 <= k < |ws| ==> 0 <= ws[k].at < n
  }

  /** The buffer after the writes, in order. */
  function Written(b: seq<byte>, ws: seq<Write>): (b': seq<byte>)
    requires InBuffer(ws, |b|)
    ensures |b'| == |b|
  {
    if ws == [] then b
    else Written(b, ws[..|ws| - 1])[ws[|ws| - 1].at := ws[|ws| - 1].value]
  }

  lemma WrittenMore(b: seq<byte>, ws: seq<Write>, w: Write)
    requires InBuffer(ws + [w], |b|)
    ensures InBuffer(ws, |b|) && 0 <= w.at < |b| && Written(b, ws + [w]) == Written(b, ws)[w.at := w.value]
  {
    assert (ws + [w])[..|ws|] == ws;
    forall k | 0 <= k < |ws| ensures 0 <= ws[k].at < |b| { assert (ws + [w])[k] == ws[k]; }
    assert (ws + [w])[|ws|] == w;
  }

  lemma InBufferPrefix(ws: seq<Write>, vs: seq<Write>, n: int)
    requires vs <= ws && InBuffer(ws, n)
    ensures InBuffer(vs, n)
  {}

  lemma {:induction false} WrittenJoin(b: seq<byte>, ws: seq<Write>, vs: seq<Write>)
    requires InBuffer(ws + vs, |b|)
    ensures InBuffer(ws, |b|) && InBuffer(vs, |b|)
    ensures Written(b, ws + vs) == Written(Written(b, ws), vs)
    decreases |vs|
  {
    InBufferPrefix(ws + vs, ws, |b|);
    forall k | 0 <= k < |vs| ensures 0 <= vs[k].at < |b| { assert (ws + vs)[|ws| + k] == vs[k]; }
    if vs == [] {
      assert ws + vs == ws;
    } else {
      var front := vs[..|vs| - 1];
      assert (ws + vs)[..|ws + vs| - 1] == ws + front;
      InBufferPrefix(ws + vs, ws + front, |b|);
      WrittenJoin(b, ws, front);
    }
  }
}
