/** The save-file codec of Source/codec.cpp: 64-byte blocks under a keystream that
    chains through the hash of the plain text, and an 8-byte trailer with a checksum
    and the length of the last block. SHA-1 is any deterministic machine with a
    20-byte reading; codec_init_key is any function of the password. */
module Codec {

  type Octet = bv8

  const BLOCK := 64
  const SHA1HashSize := 20
  const TRAILER := 8

  datatype Hasher<!S(!new)> = Hasher(key: string -> S, feed: (S, seq<Octet>) -> S, digest: S -> seq<Octet>) {
    ghost predicate Ok() {
      forall s :: |digest(s)| == SHA1HashSize
    }
  }

  // ------------------------------------------------------ what the bytes mean

  /** `buf[j] ^= dst[j % SHA1HashSize]` over a block. */
  function Masked(block: seq<Octet>, dst: seq<Octet>): (r: seq<Octet>)
    requires |dst| == SHA1HashSize
    ensures |r| == |block|
  {
    seq(|block|, j requires 0 <= j < |block| => block[j] ^ dst[j % SHA1HashSize])
  }

  lemma MaskedTwice(block: seq<Octet>, dst: seq<Octet>)
    requires |dst| == SHA1HashSize
    ensures Masked(Masked(block, dst), dst) == block
  {}

  /** The message with its last block filled up with zeros. */
  function Padded(m: seq<Octet>): (p: seq<Octet>)
    ensures |p| % BLOCK == 0 && |m| <= |p| < |m| + BLOCK
    ensures |p| + TRAILER == GetEncodedLen(|m|) && p[..|m|] == m
    ensures forall j :: |m| <= j < |p| ==> p[j] == 0
  {
    m + seq((BLOCK - |m| % BLOCK) % BLOCK, _ => 0 as Octet)
  }

  /** `codec_get_encoded_len` */
  function GetEncodedLen(n: nat): nat {
    (if n % BLOCK != 0 then n + (BLOCK - n % BLOCK) else n) + TRAILER
  }

  /** The hash state after the plain text p. */
  ghost function Chain<S(!new)>(h: Hasher<S>, pw: string, p: seq<Octet>): S {
    if |p| < BLOCK then h.key(pw)
    else h.feed(Chain(h, pw, p[..|p| - BLOCK]), p[|p| - BLOCK..])
  }

  /** The cipher text of p. */
  ghost function Cipher<S(!new)>(h: Hasher<S>, pw: string, p: seq<Octet>): (w: seq<Octet>)
    requires h.Ok() && |p| % BLOCK == 0
    ensures |w| == |p|
  {
    if |p| < BLOCK then []
    else
      var front := p[..|p| - BLOCK];
      Cipher(h, pw, front) + Masked(p[|p| - BLOCK..], h.digest(Chain(h, pw, front)))
  }

  /** The plain text of w. */
  ghost function Plain<S(!new)>(h: Hasher<S>, pw: string, w: seq<Octet>): (p: seq<Octet>)
    requires h.Ok() && |w| % BLOCK == 0
    ensures |p| == |w|
  {
    if |w| < BLOCK then []
    else
      var front := Plain(h, pw, w[..|w| - BLOCK]);
      front + Masked(w[|w| - BLOCK..], h.digest(Chain(h, pw, front)))
  }

  ghost function Trailer<S(!new)>(h: Hasher<S>, pw: string, p: seq<Octet>, last: Octet): (t: seq<Octet>)
    requires h.Ok()
    ensures |t| == TRAILER
  {
    h.digest(Chain(h, pw, p))[..4] + [0, last, 0, 0]
  }

  /** The length of the last block: 64 when the message fills it, 0 without a message. */
  function LastChunk(n: nat): nat {
    if n == 0 then 0 else if n % BLOCK == 0 then BLOCK else n % BLOCK
  }

  ghost function Encoded<S(!new)>(h: Hasher<S>, pw: string, m: seq<Octet>): (w: seq<Octet>)
    requires h.Ok()
    ensures |w| == GetEncodedLen(|m|)
  {
    Cipher(h, pw, Padded(m)) + Trailer(h, pw, Padded(m), LastChunk(|m|) as Octet)
  }

  /** A file of whole blocks and a trailer. */
  predicate HasTrailer(w: seq<Octet>) {
    |w| >= TRAILER && (|w| - TRAILER) % BLOCK == 0
  }

  /** Its blocks. */
  function Body(w: seq<Octet>): (b: seq<Octet>)
    requires HasTrailer(w)
    ensures |b| == |w| - TRAILER && |b| % BLOCK == 0
  {
    w[..|w| - TRAILER]
  }

  /** What Decode accepts. */
  ghost predicate Accepted<S(!new)>(h: Hasher<S>, pw: string, w: seq<Octet>)
    requires h.Ok()
  {
    && |w| > TRAILER && HasTrailer(w)
    && var n := |w| - TRAILER;
       w[n + 4] == 0 && w[n..n + 4] == h.digest(Chain(h, pw, Plain(h, pw, Body(w))))[..4]
  }

  ghost function DecodedSize<S(!new)>(h: Hasher<S>, pw: string, w: seq<Octet>): int
    requires h.Ok()
  {
    if Accepted(h, pw, w) then |w| - TRAILER + w[|w| - 3] as int - BLOCK else 0
  }

  // ------------------------------------------------------ round trips

  /** The keystreams agree block by block, so deciphering undoes enciphering. */
  lemma {:induction false} PlainOfCipher<S(!new)>(h: Hasher<S>, pw: string, p: seq<Octet>)
    requires h.Ok() && |p| % BLOCK == 0
    ensures Plain(h, pw, Cipher(h, pw, p)) == p
  {
    hide Cipher, Plain, Chain, Masked;
    NothingYet(h, pw);
    if |p| >= BLOCK {
      var front, block := p[..|p| - BLOCK], p[|p| - BLOCK..];
      var dst := h.digest(Chain(h, pw, front));
      assert p == front + block;
      PlainOfCipher(h, pw, front);
      CipherMore(h, pw, front, block);
      PlainMore(h, pw, Cipher(h, pw, front), Masked(block, dst));
      MaskedTwice(block, dst);
    }
  }

  lemma {:induction false} CipherOfPlain<S(!new)>(h: Hasher<S>, pw: string, w: seq<Octet>)
    requires h.Ok() && |w| % BLOCK == 0
    ensures Cipher(h, pw, Plain(h, pw, w)) == w
  {
    hide Cipher, Plain, Chain, Masked;
    NothingYet(h, pw);
    if |w| >= BLOCK {
      var front, block := w[..|w| - BLOCK], w[|w| - BLOCK..];
      var dst := h.digest(Chain(h, pw, Plain(h, pw, front)));
      assert w == front + block;
      CipherOfPlain(h, pw, front);
      PlainMore(h, pw, front, block);
      CipherMore(h, pw, Plain(h, pw, front), Masked(block, dst));
      MaskedTwice(block, dst);
    }
  }

  /** The parts of an encoded file. */
  lemma EncodedParts<S(!new)>(h: Hasher<S>, pw: string, m: seq<Octet>)
    requires h.Ok()
    ensures var p, w := Padded(m), Encoded(h, pw, m); var n := |p|;
            && |w| == n + TRAILER && w[..n] == Cipher(h, pw, p)
            && w[n..n + 4] == h.digest(Chain(h, pw, p))[..4]
            && w[n + 4] == 0 && w[n + 5] == LastChunk(|m|) as Octet && w[n + 6] == 0 && w[n + 7] == 0
  {
    hide Cipher, Chain, Padded;
    var p, w := Padded(m), Encoded(h, pw, m);
    var t := Trailer(h, pw, p, LastChunk(|m|) as Octet);
    assert w == Cipher(h, pw, p) + t;
    assert w[|p|..|p| + 4] == t[..4];
  }

  /** Decoding an encoded message gives back its length and its bytes. */
  lemma DecodeOfEncode<S(!new)>(h: Hasher<S>, pw: string, m: seq<Octet>)
    requires h.Ok()
    ensures DecodedSize(h, pw, Encoded(h, pw, m)) == |m|
    ensures m != [] ==> Accepted(h, pw, Encoded(h, pw, m))
    ensures HasTrailer(Encoded(h, pw, m)) && |m| <= |Body(Encoded(h, pw, m))|
    ensures Plain(h, pw, Body(Encoded(h, pw, m)))[..|m|] == m
  {
    hide Cipher, Chain, Plain, Trailer, Encoded, Padded, LastChunk, GetEncodedLen;
    PlainOfCipher(h, pw, Padded(m));
    EncodedParts(h, pw, m);
    PaddedSize(m);
  }

  lemma PaddedSize(m: seq<Octet>)
    ensures 0 <= LastChunk(|m|) <= BLOCK
    ensures if m == [] then Padded(m) == [] else |Padded(m)| + LastChunk(|m|) - BLOCK == |m|
  {}

  /** A file is the encoding of a message exactly when it is accepted, names a length
      its last block can have, leaves the unused bytes zero and is padded with zeros;
      and then the message is what decoding returns. */
  lemma AcceptedIsEncoded<S(!new)>(h: Hasher<S>, pw: string, w: seq<Octet>)
    requires h.Ok() && |w| > TRAILER
    ensures (exists m :: w == Encoded(h, pw, m)) <==> Canonical(h, pw, w)
    ensures Canonical(h, pw, w) ==>
      HasTrailer(w) && 0 <= DecodedSize(h, pw, w) <= |Body(w)|
      && w == Encoded(h, pw, Plain(h, pw, Body(w))[..DecodedSize(h, pw, w)])
  {
    if Canonical(h, pw, w) {
      CanonicalIsEncoded(h, pw, w);
    }
    if m :| w == Encoded(h, pw, m) {
      EncodedIsCanonical(h, pw, m);
    }
  }

  ghost predicate Canonical<S(!new)>(h: Hasher<S>, pw: string, w: seq<Octet>)
    requires h.Ok()
  {
    && |w| > TRAILER && HasTrailer(w) && Accepted(h, pw, w)
    && 1 <= w[|w| - 3] as int <= BLOCK && w[|w| - 2] == 0 && w[|w| - 1] == 0
    && var p := Plain(h, pw, Body(w));
       forall j :: DecodedSize(h, pw, w) <= j < |p| ==> p[j] == 0
  }

  lemma CanonicalIsEncoded<S(!new)>(h: Hasher<S>, pw: string, w: seq<Octet>)
    requires h.Ok() && Canonical(h, pw, w)
    ensures HasTrailer(w) && 0 <= DecodedSize(h, pw, w) <= |Body(w)|
    ensures w == Encoded(h, pw, Plain(h, pw, Body(w))[..DecodedSize(h, pw, w)])
  {
    hide Cipher, Chain, Plain, Trailer, Padded;
    var n := |w| - TRAILER;
    var p, size := Plain(h, pw, Body(w)), DecodedSize(h, pw, w);
    PaddedAgain(p, size);
    LastChunkOf(n, size, w[n + 5] as int);
    CipherOfPlain(h, pw, Body(w));
    TrailerAgain(h, pw, w, p, w[n + 5]);
    assert w == Body(w) + w[n..];
  }

  lemma LastChunkOf(n: nat, size: nat, last: nat)
    requires n % BLOCK == 0 && 1 <= last <= BLOCK <= n && size == n + last - BLOCK
    ensures LastChunk(size) == last
  {}

  lemma PaddedAgain(p: seq<Octet>, n: nat)
    requires |p| % BLOCK == 0 && n <= |p| && |p| - n < BLOCK && forall j :: n <= j < |p| ==> p[j] == 0
    ensures Padded(p[..n]) == p
  {}

  lemma TrailerAgain<S(!new)>(h: Hasher<S>, pw: string, w: seq<Octet>, p: seq<Octet>, last: Octet)
    requires h.Ok() && |w| >= TRAILER
    requires var n := |w| - TRAILER; w[n..n + 4] == h.digest(Chain(h, pw, p))[..4] && w[n + 4] == 0 && w[n + 5] == last
    requires w[|w| - 2] == 0 && w[|w| - 1] == 0
    ensures w[|w| - TRAILER..] == Trailer(h, pw, p, last)
  {
    var n := |w| - TRAILER;
    assert w[n..] == w[n..n + 4] + [w[n + 4], w[n + 5], w[n + 6], w[n + 7]];
  }

  lemma EncodedIsCanonical<S(!new)>(h: Hasher<S>, pw: string, m: seq<Octet>)
    requires h.Ok() && m != []
    ensures Canonical(h, pw, Encoded(h, pw, m))
  {
    hide Cipher, Chain, Plain, Trailer, Encoded, Padded;
    DecodeOfEncode(h, pw, m);
    PlainOfCipher(h, pw, Padded(m));
    EncodedParts(h, pw, m);
  }

  /** The hash runs over the plain text, block by block, after the password's key. */
  lemma ChainMore<S(!new)>(h: Hasher<S>, pw: string, p: seq<Octet>, block: seq<Octet>)
    requires |p| % BLOCK == 0 && |block| == BLOCK
    ensures Chain(h, pw, []) == h.key(pw)
    ensures Chain(h, pw, p + block) == h.feed(Chain(h, pw, p), block)
  {
    assert (p + block)[..|p + block| - BLOCK] == p && (p + block)[|p + block| - BLOCK..] == block;
  }

  /** What byte k is enciphered with: byte k % 64 % 20 of the hash of the whole blocks before it. */
  ghost function KeyByte<S(!new)>(h: Hasher<S>, pw: string, p: seq<Octet>, k: nat): Octet
    requires h.Ok() && k < |p|
  {
    h.digest(Chain(h, pw, p[..k - k % BLOCK]))[k % BLOCK % SHA1HashSize]
  }

  lemma {:induction false} CipherBytes<S(!new)>(h: Hasher<S>, pw: string, p: seq<Octet>, k: nat)
    requires h.Ok() && |p| % BLOCK == 0 && k < |p|
    ensures Cipher(h, pw, p)[k] == p[k] ^ KeyByte(h, pw, p, k)
  {
    hide Cipher, Chain, KeyByte, Masked;
    var front, block := p[..|p| - BLOCK], p[|p| - BLOCK..];
    var dst := h.digest(Chain(h, pw, front));
    assert p == front + block;
    CipherMore(h, pw, front, block);
    if k < |front| {
      CipherBytes(h, pw, front, k);
      KeyByteInFront(h, pw, p, front, k);
      assert (Cipher(h, pw, front) + Masked(block, dst))[k] == Cipher(h, pw, front)[k];
    } else {
      KeyByteAtEnd(h, pw, front, block, k);
      MaskedAt(block, dst, k - |front|);
      assert (Cipher(h, pw, front) + Masked(block, dst))[k] == Masked(block, dst)[k - |front|];
    }
  }

  lemma MaskedAt(block: seq<Octet>, dst: seq<Octet>, j: nat)
    requires |dst| == SHA1HashSize && j < |block|
    ensures Masked(block, dst)[j] == block[j] ^ dst[j % SHA1HashSize]
  {}

  lemma KeyByteInFront<S(!new)>(h: Hasher<S>, pw: string, p: seq<Octet>, front: seq<Octet>, k: nat)
    requires h.Ok() && k < |front| && front <= p
    ensures KeyByte(h, pw, p, k) == KeyByte(h, pw, front, k)
  {
    assert front[..k - k % BLOCK] == p[..k - k % BLOCK];
  }

  lemma KeyByteAtEnd<S(!new)>(h: Hasher<S>, pw: string, front: seq<Octet>, block: seq<Octet>, k: nat)
    requires h.Ok() && |front| % BLOCK == 0 && |block| == BLOCK && |front| <= k < |front| + BLOCK
    ensures KeyByte(h, pw, front + block, k) == h.digest(Chain(h, pw, front))[(k - |front|) % SHA1HashSize]
  {
    assert k % BLOCK == k - |front|;
    assert (front + block)[..|front|] == front;
  }

  /** The same in the encoded file: padding and message alike are enciphered. */
  lemma EncodedBytes<S(!new)>(h: Hasher<S>, pw: string, m: seq<Octet>, k: nat)
    requires h.Ok() && k < |Padded(m)|
    ensures Encoded(h, pw, m)[k] == (if k < |m| then m[k] else 0) ^ KeyByte(h, pw, Padded(m), k)
  {
    hide Chain, Cipher, KeyByte, Trailer;
    CipherBytes(h, pw, Padded(m), k);
    assert k < |m| ==> Padded(m)[k] == Padded(m)[..|m|][k];
  }

  // ------------------------------------------------------ the routines

  lemma CipherMore<S(!new)>(h: Hasher<S>, pw: string, p: seq<Octet>, block: seq<Octet>)
    requires h.Ok() && |p| % BLOCK == 0 && |block| == BLOCK
    ensures Cipher(h, pw, p + block) == Cipher(h, pw, p) + Masked(block, h.digest(Chain(h, pw, p)))
    ensures Chain(h, pw, p + block) == h.feed(Chain(h, pw, p), block)
  {
    assert (p + block)[..|p + block| - BLOCK] == p && (p + block)[|p + block| - BLOCK..] == block;
  }

  lemma PlainMore<S(!new)>(h: Hasher<S>, pw: string, w: seq<Octet>, block: seq<Octet>)
    requires h.Ok() && |w| % BLOCK == 0 && |block| == BLOCK
    ensures Plain(h, pw, w + block) == Plain(h, pw, w) + Masked(block, h.digest(Chain(h, pw, Plain(h, pw, w))))
  {
    assert (w + block)[..|w + block| - BLOCK] == w && (w + block)[|w + block| - BLOCK..] == block;
  }

  /** `codec_encode`: encodes the first `size` bytes of the buffer in place. */
  method Encode<S(!new)>(h: Hasher<S>, pw: string, pbSrcDst: array<Octet>, size: nat)
    requires h.Ok() && pbSrcDst.Length == GetEncodedLen(size)
    modifies pbSrcDst
    ensures pbSrcDst[..] == Encoded(h, pw, old(pbSrcDst[..size]))
  {
    hide Cipher, Chain, Masked, Padded;
    ghost var m := pbSrcDst[..size];
    ghost var done: seq<Octet> := [];  // the plain text of the blocks so far
    NothingYet(h, pw);
    var state := h.key(pw);
    var last_chunk := 0;
    var pos := 0;
    var left := size;
    while left != 0
      invariant pos % BLOCK == 0 && 0 <= left <= size && pos <= pbSrcDst.Length - TRAILER
      invariant left != 0 ==> pos + left == size && forall k :: pos <= k < size ==> pbSrcDst[k] == m[k]
      invariant |done| == pos && done == (if left != 0 then m[..pos] else Padded(m))
      invariant state == Chain(h, pw, done) && pbSrcDst[..pos] == Cipher(h, pw, done)
      invariant left == 0 ==> pos == pbSrcDst.Length - TRAILER && last_chunk == LastChunk(size)
      decreases left
    {
      var chunk := if left < BLOCK then left else BLOCK;
      state, done := EncodeBlock(h, pw, pbSrcDst, pos, chunk, state, m);
      last_chunk := chunk;
      pos := pos + BLOCK;
      left := left - chunk;
    }
    var tmp := h.digest(state);
    Overwrite(pbSrcDst, pos, tmp[..4] + [0, last_chunk as Octet, 0, 0]);
    assert pbSrcDst[..] == pbSrcDst[..pos + TRAILER];
  }

  /** The plain text of the blocks up to pos + BLOCK. */
  ghost predicate IsNextPlain(m: seq<Octet>, pos: nat, more: seq<Octet>) {
    if pos + BLOCK >= |m| then more == Padded(m) else more == m[..pos + BLOCK]
  }

  /** One turn of that loop: hash the block, then mask it with the state before. */
  method EncodeBlock<S(!new)>(h: Hasher<S>, pw: string, a: array<Octet>, pos: nat, chunk: nat, state: S,
                              ghost m: seq<Octet>) returns (next: S, ghost more: seq<Octet>)
    requires h.Ok() && pos % BLOCK == 0 && pos < |m| && pos + BLOCK <= a.Length
    requires chunk == if |m| - pos < BLOCK then |m| - pos else BLOCK
    requires state == Chain(h, pw, m[..pos]) && a[..pos] == Cipher(h, pw, m[..pos])
    requires |m| <= a.Length && forall k :: pos <= k < |m| ==> a[k] == m[k]
    modifies a
    ensures |more| == pos + BLOCK && |more| % BLOCK == 0
    ensures IsNextPlain(m, pos, more)
    ensures next == Chain(h, pw, more) && a[..pos + BLOCK] == Cipher(h, pw, more)
    ensures forall k :: pos + BLOCK <= k < a.Length ==> a[k] == old(a[k])
    ensures pos + chunk == |m| ==> chunk == LastChunk(|m|)
  {
    hide Cipher, Chain, Masked, Padded;
    var buf := a[pos..pos + chunk];
    if chunk < BLOCK {
      buf := buf + seq(BLOCK - chunk, _ => 0 as Octet);
    }
    NextBlock(m, pos, chunk, buf);
    CipherMore(h, pw, m[..pos], buf);
    var dst := h.digest(state);
    next := h.feed(state, buf);
    more := m[..pos] + buf;
    buf := Masked(buf, dst);
    Overwrite(a, pos, buf);
  }

  /** `memcpy(&a[pos], bytes, |bytes|)` */
  method Overwrite(a: array<Octet>, pos: nat, bytes: seq<Octet>)
    requires pos + |bytes| <= a.Length
    modifies a
    ensures a[..pos + |bytes|] == old(a[..pos]) + bytes
    ensures forall k :: pos + |bytes| <= k < a.Length ==> a[k] == old(a[k])
  {
    for j := 0 to |bytes|
      invariant forall k :: 0 <= k < a.Length ==>
        a[k] == if pos <= k < pos + j then bytes[k - pos] else old(a[k])
    {
      a[pos + j] := bytes[j];
    }
  }

  /** `codec_decode`: deciphers whole blocks in place, accepted or not; returns the message
      length, or 0 for anything but an accepted file. */
  method Decode<S(!new)>(h: Hasher<S>, pw: string, pbSrcDst: array<Octet>, size: nat) returns (length: int)
    requires h.Ok() && size == pbSrcDst.Length
    modifies pbSrcDst
    ensures length == DecodedSize(h, pw, old(pbSrcDst[..]))
    ensures pbSrcDst[..] == if HasTrailer(old(pbSrcDst[..]))
                            then Plain(h, pw, Body(old(pbSrcDst[..]))) + old(pbSrcDst[size - TRAILER..])
                            else old(pbSrcDst[..])
  {
    hide Chain, Plain, Masked;
    ghost var w := pbSrcDst[..];
    NothingYet(h, pw);
    var state := h.key(pw);
    if size <= 8 { return 0; }
    var n := size - 8;
    if n % BLOCK != 0 { return 0; }
    var pos := 0;
    while pos != n
      invariant 0 <= pos <= n && pos % BLOCK == 0
      invariant pbSrcDst[..pos] == Plain(h, pw, w[..pos]) && state == Chain(h, pw, Plain(h, pw, w[..pos]))
      invariant forall k :: pos <= k < size ==> pbSrcDst[k] == w[k]
      decreases n - pos
    {
      state := DecodeBlock(h, pw, pbSrcDst, pos, state, w);
      pos := pos + BLOCK;
    }
    assert pbSrcDst[n..n + 4] == w[n..n + 4];
    assert pbSrcDst[..] == Plain(h, pw, Body(w)) + w[n..];
    var dst := h.digest(state);
    if pbSrcDst[n + 4] > 0 {
      length := 0;
    } else if pbSrcDst[n..n + 4] != dst[..4] {
      length := 0;
    } else {
      length := n + pbSrcDst[n + 5] as int - 64;
    }
  }

  /** One turn of that loop: unmask the block, then hash it. */
  method DecodeBlock<S(!new)>(h: Hasher<S>, pw: string, a: array<Octet>, pos: nat, state: S,
                              ghost w: seq<Octet>) returns (next: S)
    requires h.Ok() && pos % BLOCK == 0 && pos + BLOCK <= a.Length == |w|
    requires a[..pos] == Plain(h, pw, w[..pos]) && state == Chain(h, pw, Plain(h, pw, w[..pos]))
    requires forall k :: pos <= k < |w| ==> a[k] == w[k]
    modifies a
    ensures a[..pos + BLOCK] == Plain(h, pw, w[..pos + BLOCK]) && next == Chain(h, pw, Plain(h, pw, w[..pos + BLOCK]))
    ensures forall k :: pos + BLOCK <= k < a.Length ==> a[k] == old(a[k])
  {
    hide Chain, Plain, Masked, Cipher;
    var buf := a[pos..pos + BLOCK];
    PlainMore(h, pw, w[..pos], buf);
    assert w[..pos] + buf == w[..pos + BLOCK];
    var dst := h.digest(state);
    buf := Masked(buf, dst);
    CipherMore(h, pw, Plain(h, pw, w[..pos]), buf);
    next := h.feed(state, buf);
    Overwrite(a, pos, buf);
  }

  lemma NothingYet<S(!new)>(h: Hasher<S>, pw: string)
    requires h.Ok()
    ensures Chain(h, pw, []) == h.key(pw) && Cipher(h, pw, []) == [] && Plain(h, pw, []) == []
    ensures Padded([]) == []
  {}

  /** The block at pos of the padded message. */
  lemma NextBlock(m: seq<Octet>, pos: nat, chunk: nat, buf: seq<Octet>)
    requires pos % BLOCK == 0 && pos < |m|
    requires chunk == if |m| - pos < BLOCK then |m| - pos else BLOCK
    requires |buf| == BLOCK
    requires forall j :: 0 <= j < BLOCK ==> buf[j] == if j < chunk then m[pos + j] else 0
    ensures m[..pos] + buf == if pos + chunk == |m| then Padded(m) else m[..pos + BLOCK]
    ensures pos + chunk == |m| ==> chunk == LastChunk(|m|)
  {}
}
