/** Words and packets of an AXI4-Stream link (ARM IHI 0051A, sections 2.4 and 2.5).

    A word carries its bytes, one keep bit per byte, and the flag that ends a
    packet.  A packet is well formed when every word but the final one is full
    and the final word keeps a non-empty run of its lowest bytes. */
module Axis {
  newtype Byte = x: int | 0 <= x < 0x100

  datatype Word = Word(data: seq<Byte>, keep: seq<bool>, last: bool)

  predicate HasWidth(w: Word, n: nat) {
    |w.data| == n && |w.keep| == n
  }

  function Zeros(n: nat): (z: seq<Byte>)
    ensures |z| == n && forall i :: 0 <= i < n ==> z[i] == 0
  {
    seq(n, i => 0)
  }

  /** The keep bits of a word of `n` bytes of which the lowest `c` count. */
  function Mask(n: nat, c: nat): (m: seq<bool>)
    ensures |m| == n && forall i :: 0 <= i < n ==> m[i] == (i < c)
  {
    seq(n, i => i < c)
  }

  /** Positions `lo` up to `hi` of a register. */
  function Part<T>(s: seq<T>, lo: int, hi: int): (r: seq<T>)
    ensures 0 <= lo <= hi <= |s| ==> r == s[lo..hi]
  {
    if 0 <= lo <= hi <= |s| then s[lo..hi] else []
  }

  /** The bytes of `data` whose keep bit is set, in order. */
  function Kept(data: seq<Byte>, keep: seq<bool>): seq<Byte> {
    if data == [] || keep == [] then []
    else (if keep[0] then [data[0]] else []) + Kept(data[1..], keep[1..])
  }

  function Load(w: Word): seq<Byte> {
    Kept(w.data, w.keep)
  }

  function Bytes(p: seq<Word>): seq<Byte> {
    if p == [] then [] else Load(p[0]) + Bytes(p[1..])
  }

  predicate IsFull(w: Word, n: nat) {
    HasWidth(w, n) && w.keep == Mask(n, n)
  }

  predicate IsTail(w: Word, n: nat) {
    HasWidth(w, n) && |Load(w)| >= 1 && w.keep == Mask(n, |Load(w)|)
  }

  predicate IsPacket(p: seq<Word>, n: nat) {
    p != [] &&
    if |p| == 1 then p[0].last && IsTail(p[0], n)
    else !p[0].last && IsFull(p[0], n) && IsPacket(p[1..], n)
  }

  predicate AllPackets(ps: seq<seq<Word>>, n: nat) {
    forall k :: 0 <= k < |ps| ==> IsPacket(ps[k], n)
  }

  /** The final word, and no earlier one, carries the last flag. */
  predicate IsFrame(p: seq<Word>) {
    p != [] && if |p| == 1 then p[0].last else !p[0].last && IsFrame(p[1..])
  }

  function Flatten<T>(ps: seq<seq<T>>): seq<T> {
    if ps == [] then [] else ps[0] + Flatten(ps[1..])
  }

  /** Cuts a word stream after each last flag; an unfinished frame is left out. */
  function Frames(ws: seq<Word>): seq<seq<Word>> {
    if ws == [] then []
    else if ws[0].last then [[ws[0]]] + Frames(ws[1..])
    else
      var fs := Frames(ws[1..]);
      if fs == [] then [] else [[ws[0]] + fs[0]] + fs[1..]
  }

  function Payloads(ps: seq<seq<Word>>): seq<seq<Byte>> {
    seq(|ps|, i requires 0 <= i < |ps| => Bytes(ps[i]))
  }

  // Kept bytes

  lemma {:induction false} KeptConcat(d1: seq<Byte>, k1: seq<bool>, d2: seq<Byte>, k2: seq<bool>)
    requires |d1| == |k1| && |d2| == |k2|
    ensures Kept(d1 + d2, k1 + k2) == Kept(d1, k1) + Kept(d2, k2)
  {
    if d1 == [] {
      assert d1 + d2 == d2 && k1 + k2 == k2;
    } else {
      assert (d1 + d2)[1..] == d1[1..] + d2 && (k1 + k2)[1..] == k1[1..] + k2;
      KeptConcat(d1[1..], k1[1..], d2, k2);
    }
  }

  lemma {:induction false} KeptMask(d: seq<Byte>, c: nat)
    requires c <= |d|
    ensures Kept(d, Mask(|d|, c)) == d[..c]
  {
    if d != [] {
      var rest := if c == 0 then 0 else c - 1;
      assert Mask(|d|, c)[1..] == Mask(|d| - 1, rest);
      KeptMask(d[1..], rest);
    }
  }

  /** A word whose keep bits are a mask of `c` bytes carries its lowest `c` bytes. */
  lemma LoadMask(w: Word, n: nat, c: nat)
    requires HasWidth(w, n) && c <= n && w.keep == Mask(n, c)
    ensures Load(w) == w.data[..c]
    ensures c >= 1 ==> IsTail(w, n)
    ensures c == n ==> IsFull(w, n)
  {
    KeptMask(w.data, c);
  }

  lemma {:induction false} KeptBound(d: seq<Byte>, k: seq<bool>)
    ensures |Kept(d, k)| <= |d| && |Kept(d, k)| <= |k|
  {
    if d != [] && k != [] {
      KeptBound(d[1..], k[1..]);
    }
  }

  /** The number of bytes in the tail word, and what it keeps. */
  lemma TailLoad(w: Word, n: nat) returns (c: nat)
    requires IsTail(w, n)
    ensures 1 <= c <= n && w.keep == Mask(n, c) && Load(w) == w.data[..c]
  {
    c := |Load(w)|;
    KeptBound(w.data, w.keep);
    LoadMask(w, n, c);
  }

  // Packets and word streams

  lemma {:induction false} BytesConcat(p: seq<Word>, q: seq<Word>)
    ensures Bytes(p + q) == Bytes(p) + Bytes(q)
  {
    if p == [] {
      assert p + q == q;
    } else {
      assert (p + q)[1..] == p[1..] + q;
      BytesConcat(p[1..], q);
    }
  }

  lemma {:induction false} PacketIsFrame(p: seq<Word>, n: nat)
    requires IsPacket(p, n)
    ensures IsFrame(p)
  {
    if |p| > 1 {
      PacketIsFrame(p[1..], n);
    }
  }

  lemma {:induction false} PacketNonEmpty(p: seq<Word>, n: nat)
    requires IsPacket(p, n) && n >= 1
    ensures |p| == 1 ==> 1 <= |Bytes(p)| <= n && Bytes(p) == Load(p[0])
    ensures |p| > 1 ==> |Bytes(p)| > n && Load(p[0]) == p[0].data && Bytes(p) == p[0].data + Bytes(p[1..])
  {
    if |p| == 1 {
      assert Bytes(p) == Load(p[0]) + Bytes([]);
      KeptBound(p[0].data, p[0].keep);
    } else {
      LoadMask(p[0], n, n);
      PacketNonEmpty(p[1..], n);
    }
  }

  /** A frame at the front of a stream is the stream's first frame. */
  lemma {:induction false} FramesPeel(p: seq<Word>, rest: seq<Word>)
    requires IsFrame(p)
    ensures Frames(p + rest) == [p] + Frames(rest)
  {
    assert (p + rest)[1..] == p[1..] + rest;
    if |p| > 1 {
      FramesPeel(p[1..], rest);
      assert [p[0]] + p[1..] == p;
    } else {
      assert p == [p[0]];
    }
  }

  /** Cutting a stream of whole frames gives the frames back. */
  lemma {:induction false} FramesOfFlatten(ps: seq<seq<Word>>)
    requires forall i :: 0 <= i < |ps| ==> IsFrame(ps[i])
    ensures Frames(Flatten(ps)) == ps
  {
    if ps != [] {
      FramesOfFlatten(ps[1..]);
      FramesPeel(ps[0], Flatten(ps[1..]));
    }
  }

  lemma {:induction false} FlattenConcat<T>(a: seq<seq<T>>, b: seq<seq<T>>)
    ensures Flatten(a + b) == Flatten(a) + Flatten(b)
  {
    if a == [] {
      assert a + b == b;
    } else {
      assert (a + b)[1..] == a[1..] + b;
      FlattenConcat(a[1..], b);
    }
  }

  lemma PacketsAreFrames(ps: seq<seq<Word>>, n: nat)
    requires AllPackets(ps, n)
    ensures Frames(Flatten(ps)) == ps
  {
    forall i | 0 <= i < |ps| ensures IsFrame(ps[i]) {
      PacketIsFrame(ps[i], n);
    }
    FramesOfFlatten(ps);
  }

  lemma OneWord(w: Word)
    ensures Bytes([w]) == Load(w)
  {
    assert Bytes([w]) == Load(w) + Bytes([]);
  }

  lemma TailPacket(w: Word, n: nat)
    requires w.last && IsTail(w, n)
    ensures IsPacket([w], n) && Bytes([w]) == Load(w)
  {
    OneWord(w);
  }

  /** A full word in front of a packet. */
  lemma ConsWord(w: Word, q: seq<Word>, n: nat)
    requires IsFull(w, n) && !w.last && IsPacket(q, n)
    ensures IsPacket([w] + q, n) && Bytes([w] + q) == Load(w) + Bytes(q) && [w] + q != []
  {
    assert ([w] + q)[1..] == q;
  }

  lemma TwoWords(w: Word, e: Word, n: nat)
    requires IsFull(w, n) && !w.last && e.last && IsTail(e, n)
    ensures IsPacket([w, e], n) && Bytes([w, e]) == Load(w) + Load(e)
  {
    TailPacket(e, n);
    ConsWord(w, [e], n);
    assert [w] + [e] == [w, e];
  }

  /** Equal words, except for what lies under cleared keep bits. */
  predicate SameWords(p: seq<Word>, q: seq<Word>) {
    |p| == |q| && forall i :: 0 <= i < |p| ==> p[i].keep == q[i].keep && p[i].last == q[i].last && Load(p[i]) == Load(q[i])
  }

  /** Well-formed packets with the same bytes are cut into words in the same way. */
  lemma {:induction false} SameBytesSameWords(p: seq<Word>, q: seq<Word>, n: nat)
    requires n >= 1 && IsPacket(p, n) && IsPacket(q, n) && Bytes(p) == Bytes(q)
    ensures SameWords(p, q)
    decreases |p|
  {
    PacketNonEmpty(p, n);
    PacketNonEmpty(q, n);
    if |p| > 1 {
      assert Bytes(p)[..n] == p[0].data && Bytes(q)[..n] == q[0].data;
      assert Bytes(p)[n..] == Bytes(p[1..]) && Bytes(q)[n..] == Bytes(q[1..]);
      SameBytesSameWords(p[1..], q[1..], n);
      assert forall i :: 1 <= i < |p| ==> p[i] == p[1..][i - 1];
      assert forall i :: 1 <= i < |q| ==> q[i] == q[1..][i - 1];
    }
  }

  /** The frames of a prefix of a stream are a prefix of the stream's frames. */
  lemma {:induction false} FramesPrefix(a: seq<Word>, b: seq<Word>)
    requires a <= b
    ensures Frames(a) <= Frames(b)
  {
    if a != [] {
      assert a[1..] <= b[1..] && a[0] == b[0];
      FramesPrefix(a[1..], b[1..]);
    }
  }
}
