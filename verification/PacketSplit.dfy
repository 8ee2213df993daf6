/** The data half of the page-boundary splitter: `pkg_split` cuts the packet of a split command in two. */
module PacketSplit {
  import opened Axis
  import opened Streams

  /** How long the first piece is, and whether a second piece follows. */
  datatype Meta = Meta(length: nat, isSplit: bool)

  datatype Phase = PkgFirst | PkgSecond | Last

  datatype State = State(phase: Phase, meta: Meta, metaLoaded: bool, prev: Word)

  /** What one call does: the new state, the queues after it, and the word it sends. */
  datatype Fired = Fired(s: State, metas: seq<Meta>, data: seq<Word>, out: Word)

  datatype Outcome = Outcome(out: seq<Word>, s: State, metas: seq<Meta>, data: seq<Word>)

  /** The lengths that have a case in the switches. */
  predicate Cuttable(r: int) {
    r % 8 == 0 && 8 <= r <= 56
  }

  predicate Ready(s: State, metas: seq<Meta>, data: seq<Word>) {
    match s.phase
    case PkgFirst => data != [] && (metas != [] || s.metaLoaded)
    case PkgSecond => data != []
    case Last => true
  }

  predicate Idle(s: State) {
    s.phase == PkgFirst && !s.metaLoaded
  }

  predicate Bit(keep: seq<bool>, i: int) {
    0 <= i < |keep| && keep[i]
  }

  /** The word that spans two input words, cut `r` bytes into each. */
  function Straddle(prev: Word, cur: Word, r: int): Word {
    Word(Part(prev.data, r, 64) + Part(cur.data, 0, r), Part(prev.keep, r, 64) + Part(cur.keep, 0, r), !Bit(cur.keep, r))
  }

  /** The upper end of the carried word, moved to the bottom of a word of its own. */
  function Remainder(prev: Word, r: nat): Word {
    Word(Part(prev.data, r, 64) + Zeros(r), Part(prev.keep, r, 64) + Mask(r, 0), true)
  }

  /** One call that finds its inputs.  `u` is the content of a word the code never assigned. */
  function Step(s: State, metas: seq<Meta>, data: seq<Word>, u: Word): Fired
    requires Ready(s, metas, data)
  {
    match s.phase
    case PkgFirst =>
      var meta := if s.metaLoaded then s.meta else metas[0];
      var metas' := if s.metaLoaded then metas else metas[1..];
      var cur := data[0];
      var prev := Word(cur.data, cur.keep, s.prev.last);
      if meta.length > 64 then
        Fired(State(PkgFirst, meta.(length := meta.length - 64), true, prev), metas', data[1..],
              Word(cur.data, cur.keep, false))
      else
        var out := Word(cur.data, if Cuttable(meta.length) then Mask(64, meta.length) else cur.keep, true);
        var phase := if !meta.isSplit then PkgFirst else if cur.last then Last else PkgSecond;
        Fired(State(phase, meta, meta.isSplit, prev), metas', data[1..], out)
    case PkgSecond =>
      var cur := data[0];
      var out := if Cuttable(s.meta.length) then Straddle(s.prev, cur, s.meta.length) else cur;
      var prev := Word(cur.data, cur.keep, s.prev.last);
      var phase := if out.last then PkgFirst else if cur.last then Last else PkgSecond;
      Fired(State(phase, s.meta, !out.last && s.metaLoaded, prev), metas, data[1..], out)
    case Last =>
      var out := if Cuttable(s.meta.length) then Remainder(s.prev, s.meta.length)
                 else Word(u.data, u.keep, true);
      Fired(State(PkgFirst, s.meta, false, s.prev), metas, data, out)
  }

  /** Calls until the stage waits for input. */
  function Run(s: State, metas: seq<Meta>, data: seq<Word>, u: Word): (o: Outcome)
    ensures !Ready(o.s, o.metas, o.data)
    decreases 2 * |data| + (if s.phase == Last then 1 else 0)
  {
    if !Ready(s, metas, data) then Outcome([], s, metas, data)
    else
      var f := Step(s, metas, data, u);
      Prepend([f.out], Run(f.s, f.metas, f.data, u))
  }

  function Prepend(out: seq<Word>, o: Outcome): Outcome {
    o.(out := out + o.out)
  }

  lemma PrependConcat(a: seq<Word>, b: seq<Word>, o: Outcome)
    ensures Prepend(a, Prepend(b, o)) == Prepend(a + b, o)
  {
    assert a + (b + o.out) == (a + b) + o.out;
  }

  /** Loading the meta word before the first data word arrives changes nothing. */
  lemma RunLoads(s: State, meta: Meta, metas: seq<Meta>, data: seq<Word>, u: Word)
    requires Idle(s) && data != []
    ensures Run(s, [meta] + metas, data, u) == Run(s.(meta := meta, metaLoaded := true), metas, data, u)
  {
    assert ([meta] + metas)[1..] == metas;
  }

  lemma StepPops(s: State, metas: seq<Meta>, p: seq<Word>, rest: seq<Word>, u: Word)
    requires p != [] && s.phase != Last && Ready(s, metas, p + rest)
    ensures Step(s, metas, p + rest, u).data == p[1..] + rest
  {
    assert (p + rest)[1..] == p[1..] + rest;
  }

  /** One call on the first word of `p`, then the rest. */
  lemma Cons(s: State, metas: seq<Meta>, p: seq<Word>, rest: seq<Word>, u: Word, q: seq<Word>, o: Outcome)
    requires p != [] && s.phase != Last && Ready(s, metas, p + rest)
    requires var f := Step(s, metas, p + rest, u); Run(f.s, f.metas, p[1..] + rest, u) == Prepend(q, o)
    ensures Run(s, metas, p + rest, u) == Prepend([Step(s, metas, p + rest, u).out] + q, o)
  {
    StepPops(s, metas, p, rest, u);
    hide Step;
    PrependConcat([Step(s, metas, p + rest, u).out], q, o);
  }

  // A command that is not split

  /** The packet of an unsplit command leaves as it came, word for word. */
  lemma {:induction false} CopyPacket(s: State, metas: seq<Meta>, p: seq<Word>, rest: seq<Word>, u: Word)
    returns (t: State)
    requires s.phase == PkgFirst && s.metaLoaded && !s.meta.isSplit
    requires IsPacket(p, 64) && s.meta.length == |Bytes(p)|
    ensures Idle(t) && Run(s, metas, p + rest, u) == Prepend(p, Run(t, metas, rest, u))
    decreases |p|
  {
    PacketNonEmpty(p, 64);
    var f := Step(s, metas, p + rest, u);
    if |p| == 1 {
      var c := TailLoad(p[0], 64);
      t := f.s;
      assert p[1..] + rest == rest;
      Cons(s, metas, p, rest, u, [], Run(t, metas, rest, u));
    } else {
      t := CopyPacket(f.s, metas, p[1..], rest, u);
      Cons(s, metas, p, rest, u, p[1..], Run(t, metas, rest, u));
    }
    assert f.out == p[0] && [p[0]] + p[1..] == p;
  }

  // A command that is split

  lemma StraddleLoad(prev: Word, cur: Word, r: int, c: nat)
    requires Cuttable(r) && IsFull(prev, 64) && 1 <= c <= 64 && HasWidth(cur, 64) && cur.keep == Mask(64, c)
    ensures var out := Straddle(prev, cur, r);
            && out.last == (c <= r)
            && (c <= r ==> IsTail(out, 64) && Load(out) == prev.data[r..] + cur.data[..c])
            && (c > r ==> IsFull(out, 64) && Load(out) == prev.data[r..] + cur.data[..r])
  {
    var out := Straddle(prev, cur, r);
    var n := if c <= r then 64 - r + c else 64;
    assert out.keep == Mask(64, n);
    LoadMask(out, 64, n);
    assert out.data[..n] == prev.data[r..] + cur.data[..n - (64 - r)];
  }

  lemma RemainderLoad(prev: Word, r: nat, c: nat)
    requires Cuttable(r) && r < c <= 64 && HasWidth(prev, 64) && prev.keep == Mask(64, c)
    ensures var out := Remainder(prev, r); IsTail(out, 64) && Load(out) == prev.data[r..c]
  {
    var out := Remainder(prev, r);
    assert out.keep == Mask(64, c - r);
    LoadMask(out, 64, c - r);
    assert out.data == prev.data[r..64] + Zeros(r);
    assert out.data[..c - r] == prev.data[r..64][..c - r] == prev.data[r..c];
  }

  /** The remainder state sends the bytes of the carried word from the cut on. */
  lemma LastWord(s: State, metas: seq<Meta>, rest: seq<Word>, u: Word, c: nat) returns (q: seq<Word>, t: State)
    requires s.phase == Last && Cuttable(s.meta.length)
    requires s.meta.length < c <= 64 && HasWidth(s.prev, 64) && s.prev.keep == Mask(64, c)
    ensures Idle(t) && Run(s, metas, rest, u) == Prepend(q, Run(t, metas, rest, u))
    ensures IsPacket(q, 64) && Bytes(q) == s.prev.data[s.meta.length..c]
  {
    RemainderLoad(s.prev, s.meta.length, c);
    var f := Step(s, metas, rest, u);
    q, t := [f.out], f.s;
    OneWord(f.out);
  }

  lemma StepEnd(s: State, metas: seq<Meta>, w: Word, rest: seq<Word>, u: Word, c: nat)
    requires s.phase == PkgSecond && s.metaLoaded && IsFull(s.prev, 64)
    requires Cuttable(s.meta.length) && w.last && 1 <= c <= 64 && HasWidth(w, 64) && w.keep == Mask(64, c)
    ensures var f := Step(s, metas, [w] + rest, u);
            && f.s.meta == s.meta && HasWidth(f.s.prev, 64) && f.s.prev.data == w.data && f.s.prev.keep == w.keep
            && f.metas == metas
            && (c <= s.meta.length ==> Idle(f.s) && f.out.last && IsTail(f.out, 64)
                                       && Load(f.out) == s.prev.data[s.meta.length..] + w.data[..c])
            && (c > s.meta.length ==> f.s.phase == Last && !f.out.last && IsFull(f.out, 64)
                                      && Load(f.out) == s.prev.data[s.meta.length..] + w.data[..s.meta.length])
  {
    StraddleLoad(s.prev, w, s.meta.length, c);
  }

  /** The final word of a packet, cut in the middle: one output word or two. */
  lemma SecondPieceEnd(s: State, metas: seq<Meta>, w: Word, rest: seq<Word>, u: Word, c: nat)
    returns (q: seq<Word>, t: State)
    requires s.phase == PkgSecond && s.metaLoaded && IsFull(s.prev, 64)
    requires Cuttable(s.meta.length) && w.last && 1 <= c <= 64 && HasWidth(w, 64) && w.keep == Mask(64, c)
    ensures Idle(t) && Run(s, metas, [w] + rest, u) == Prepend(q, Run(t, metas, rest, u))
    ensures IsPacket(q, 64) && Bytes(q) == s.prev.data[s.meta.length..] + w.data[..c]
  {
    hide Step, Run, Straddle, Remainder, Load;
    StepEnd(s, metas, w, rest, u, c);
    var r := s.meta.length;
    var f := Step(s, metas, [w] + rest, u);
    OneWord(f.out);
    assert [w][1..] + rest == rest;
    if c <= r {
      q, t := [f.out], f.s;
      assert Prepend([], Run(t, metas, rest, u)) == Run(t, metas, rest, u);
      Cons(s, metas, [w], rest, u, [], Run(t, metas, rest, u));
      assert [f.out] + [] == [f.out];
    } else {
      var q';
      q', t := LastWord(f.s, metas, rest, u, c);
      q := [f.out] + q';
      Cons(s, metas, [w], rest, u, q', Run(t, metas, rest, u));
      assert w.data[..c] == w.data[..r] + w.data[r..c];
    }
  }

  lemma MiddleWord(s: State, metas: seq<Meta>, data: seq<Word>, u: Word)
    requires s.phase == PkgSecond && s.metaLoaded && IsFull(s.prev, 64) && Cuttable(s.meta.length)
    requires data != [] && IsFull(data[0], 64) && !data[0].last
    ensures var f := Step(s, metas, data, u);
            && IsFull(f.out, 64) && !f.out.last
            && Load(f.out) == s.prev.data[s.meta.length..] + data[0].data[..s.meta.length]
            && f.s == s.(prev := Word(data[0].data, data[0].keep, s.prev.last)) && f.metas == metas
  {
    StraddleLoad(s.prev, data[0], s.meta.length, 64);
  }

  lemma Regroup(a: seq<Byte>, d: seq<Byte>, r: nat, b: seq<Byte>)
    requires r <= |d|
    ensures (a + d[..r]) + (d[r..] + b) == a + (d + b)
  {
    assert d == d[..r] + d[r..];
  }

  /** The second piece: the carried bytes from the cut on, then the rest of the packet. */
  lemma {:induction false} SecondPiece(s: State, metas: seq<Meta>, p: seq<Word>, rest: seq<Word>, u: Word)
    returns (q: seq<Word>, t: State)
    requires s.phase == PkgSecond && s.metaLoaded && IsFull(s.prev, 64)
    requires Cuttable(s.meta.length) && IsPacket(p, 64)
    ensures Idle(t) && Run(s, metas, p + rest, u) == Prepend(q, Run(t, metas, rest, u))
    ensures IsPacket(q, 64) && Bytes(q) == s.prev.data[s.meta.length..] + Bytes(p)
    decreases |p|
  {
    PacketNonEmpty(p, 64);
    if |p| == 1 {
      var c := TailLoad(p[0], 64);
      assert p == [p[0]];
      q, t := SecondPieceEnd(s, metas, p[0], rest, u, c);
    } else {
      MiddleWord(s, metas, p + rest, u);
      var f := Step(s, metas, p + rest, u);
      var q';
      q', t := SecondPiece(f.s, metas, p[1..], rest, u);
      q := [f.out] + q';
      Cons(s, metas, p, rest, u, q', Run(t, metas, rest, u));
      Regroup(s.prev.data[s.meta.length..], p[0].data, s.meta.length, Bytes(p[1..]));
    }
  }

  /** Without a case, or when the cut falls between two words, the second piece is the remaining words. */
  lemma {:induction false} PassPacket(s: State, metas: seq<Meta>, p: seq<Word>, rest: seq<Word>, u: Word)
    returns (t: State)
    requires s.phase == PkgSecond && !Cuttable(s.meta.length) && IsPacket(p, 64)
    ensures Idle(t) && Run(s, metas, p + rest, u) == Prepend(p, Run(t, metas, rest, u))
    decreases |p|
  {
    var f := Step(s, metas, p + rest, u);
    if |p| == 1 {
      assert p[1..] + rest == rest;
      t := f.s;
      Cons(s, metas, p, rest, u, [], Run(t, metas, rest, u));
    } else {
      t := PassPacket(f.s, metas, p[1..], rest, u);
      Cons(s, metas, p, rest, u, p[1..], Run(t, metas, rest, u));
    }
    assert [p[0]] + p[1..] == p;
  }

  /** The word in which the first piece ends. */
  lemma CutWord(s: State, metas: seq<Meta>, data: seq<Word>, u: Word, c: nat)
    requires s.phase == PkgFirst && s.metaLoaded && s.meta.isSplit && data != []
    requires s.meta.length % 8 == 0 && 8 <= s.meta.length <= c <= 64
    requires HasWidth(data[0], 64) && data[0].keep == Mask(64, c)
    ensures var f := Step(s, metas, data, u);
            && IsPacket([f.out], 64) && Bytes([f.out]) == data[0].data[..s.meta.length]
            && f.metas == metas && f.s.phase == (if data[0].last then Last else PkgSecond)
            && f.s.meta == s.meta && f.s.metaLoaded
            && f.s.prev.data == data[0].data && f.s.prev.keep == data[0].keep
  {
    var out := Step(s, metas, data, u).out;
    LoadMask(out, 64, s.meta.length);
    OneWord(out);
  }

  /** What follows the word with the cut: the second piece. */
  lemma AfterCut(s: State, metas: seq<Meta>, p: seq<Word>, rest: seq<Word>, u: Word)
    returns (q: seq<Word>, t: State)
    requires s.phase == PkgSecond && s.metaLoaded && IsFull(s.prev, 64)
    requires s.meta.length % 8 == 0 && 8 <= s.meta.length <= 64 && IsPacket(p, 64)
    ensures Idle(t) && Run(s, metas, p + rest, u) == Prepend(q, Run(t, metas, rest, u))
    ensures IsPacket(q, 64) && Bytes(q) == s.prev.data[s.meta.length..] + Bytes(p)
  {
    if s.meta.length == 64 {
      t := PassPacket(s, metas, p, rest, u);
      q := p;
    } else {
      q, t := SecondPiece(s, metas, p, rest, u);
    }
  }

  /** The cut lies in the only word of the packet. */
  lemma CutSingle(s: State, metas: seq<Meta>, w: Word, rest: seq<Word>, u: Word)
    returns (q1: seq<Word>, q2: seq<Word>, t: State)
    requires s.phase == PkgFirst && s.metaLoaded && s.meta.isSplit
    requires w.last && IsTail(w, 64) && 8 <= s.meta.length < |Load(w)| && s.meta.length % 8 == 0
    ensures Idle(t) && Run(s, metas, [w] + rest, u) == Prepend(q1 + q2, Run(t, metas, rest, u))
    ensures IsPacket(q1, 64) && Bytes(q1) == Load(w)[..s.meta.length]
    ensures IsPacket(q2, 64) && Bytes(q2) == Load(w)[s.meta.length..]
  {
    var c := TailLoad(w, 64);
    CutWord(s, metas, [w] + rest, u, c);
    var f := Step(s, metas, [w] + rest, u);
    q1 := [f.out];
    q2, t := LastWord(f.s, metas, rest, u, c);
    assert [w][1..] + rest == rest;
    Cons(s, metas, [w], rest, u, q2, Run(t, metas, rest, u));
    assert w.data[..s.meta.length] == w.data[..c][..s.meta.length];
    assert w.data[s.meta.length..c] == w.data[..c][s.meta.length..];
  }

  /** The cut lies in a full word with more words behind it. */
  lemma CutFull(s: State, metas: seq<Meta>, p: seq<Word>, rest: seq<Word>, u: Word)
    returns (q1: seq<Word>, q2: seq<Word>, t: State)
    requires s.phase == PkgFirst && s.metaLoaded && s.meta.isSplit
    requires |p| > 1 && IsPacket(p, 64) && 8 <= s.meta.length <= 64 && s.meta.length % 8 == 0
    ensures Idle(t) && Run(s, metas, p + rest, u) == Prepend(q1 + q2, Run(t, metas, rest, u))
    ensures IsPacket(q1, 64) && Bytes(q1) == p[0].data[..s.meta.length]
    ensures IsPacket(q2, 64) && Bytes(q2) == p[0].data[s.meta.length..] + Bytes(p[1..])
  {
    CutWord(s, metas, p + rest, u, 64);
    var f := Step(s, metas, p + rest, u);
    q1 := [f.out];
    q2, t := AfterCut(f.s, metas, p[1..], rest, u);
    Cons(s, metas, p, rest, u, q2, Run(t, metas, rest, u));
  }

  lemma SliceConcat(d: seq<Byte>, b: seq<Byte>, r: nat)
    requires r <= |d|
    ensures (d + b)[..r] == d[..r] && (d + b)[r..] == d[r..] + b
  {
  }

  /** A split command whose cut is a multiple of eight bytes: two well-formed packets, the first of
      exactly `length` bytes, that together carry the bytes of the input packet.  The remainder state
      is then entered only with a length it has a case for. */
  lemma {:induction false} CutPacket(s: State, metas: seq<Meta>, p: seq<Word>, rest: seq<Word>, u: Word)
    returns (q1: seq<Word>, q2: seq<Word>, t: State)
    requires s.phase == PkgFirst && s.metaLoaded && s.meta.isSplit
    requires IsPacket(p, 64) && 1 <= s.meta.length < |Bytes(p)| && s.meta.length % 8 == 0
    ensures Idle(t) && Run(s, metas, p + rest, u) == Prepend(q1 + q2, Run(t, metas, rest, u))
    ensures IsPacket(q1, 64) && Bytes(q1) == Bytes(p)[..s.meta.length]
    ensures IsPacket(q2, 64) && Bytes(q2) == Bytes(p)[s.meta.length..]
    decreases |p|
  {
    var m := s.meta.length;
    PacketNonEmpty(p, 64);
    if |p| == 1 {
      assert p == [p[0]];
      q1, q2, t := CutSingle(s, metas, p[0], rest, u);
    } else if m <= 64 {
      q1, q2, t := CutFull(s, metas, p, rest, u);
      SliceConcat(p[0].data, Bytes(p[1..]), m);
    } else {
      var f := Step(s, metas, p + rest, u);
      var q1';
      q1', q2, t := CutPacket(f.s, metas, p[1..], rest, u);
      q1 := [f.out] + q1';
      Cons(s, metas, p, rest, u, q1' + q2, Run(t, metas, rest, u));
      assert f.out == p[0] && [f.out] + (q1' + q2) == q1 + q2;
      assert Bytes(p)[..m] == p[0].data + Bytes(p[1..])[..m - 64];
      assert Bytes(p)[m..] == Bytes(p[1..])[m - 64..];
    }
  }

  // A cut the switches have no case for

  lemma JunkWord(s: State, metas: seq<Meta>, rest: seq<Word>, u: Word) returns (q: seq<Word>, t: State)
    requires s.phase == Last
    ensures Idle(t) && Run(s, metas, rest, u) == Prepend(q, Run(t, metas, rest, u)) && IsFrame(q)
  {
    var f := Step(s, metas, rest, u);
    q, t := [f.out], f.s;
  }

  lemma MiscutHere(s: State, metas: seq<Meta>, p: seq<Word>, rest: seq<Word>, u: Word)
    returns (q1: seq<Word>, q2: seq<Word>, t: State)
    requires s.phase == PkgFirst && s.metaLoaded && s.meta.isSplit
    requires IsPacket(p, 64) && 1 <= s.meta.length < |Bytes(p)| && s.meta.length % 8 != 0 && s.meta.length < 64
    ensures Idle(t) && Run(s, metas, p + rest, u) == Prepend(q1 + q2, Run(t, metas, rest, u))
    ensures IsFrame(q1) && IsFrame(q2) && |Bytes(q1)| > s.meta.length
  {
    PacketNonEmpty(p, 64);
    var f := Step(s, metas, p + rest, u);
    q1 := [f.out];
    OneWord(f.out);
    assert f.out.last && Load(f.out) == Load(p[0]);
    assert f.s.meta == s.meta && f.s.phase == (if p[0].last then Last else PkgSecond) && f.metas == metas;
    if |p| == 1 {
      assert p[1..] + rest == rest;
      q2, t := JunkWord(f.s, metas, rest, u);
    } else {
      hide Step, Run;
      t := PassPacket(f.s, metas, p[1..], rest, u);
      q2 := p[1..];
      PacketIsFrame(q2, 64);
    }
    Cons(s, metas, p, rest, u, q2, Run(t, metas, rest, u));
  }

  /** With any other cut the last word of the first piece keeps bytes beyond the cut. */
  lemma {:induction false} MiscutPacket(s: State, metas: seq<Meta>, p: seq<Word>, rest: seq<Word>, u: Word)
    returns (q1: seq<Word>, q2: seq<Word>, t: State)
    requires s.phase == PkgFirst && s.metaLoaded && s.meta.isSplit
    requires IsPacket(p, 64) && 1 <= s.meta.length < |Bytes(p)| && s.meta.length % 8 != 0
    ensures Idle(t) && Run(s, metas, p + rest, u) == Prepend(q1 + q2, Run(t, metas, rest, u))
    ensures IsFrame(q1) && IsFrame(q2) && |Bytes(q1)| > s.meta.length
    decreases |p|
  {
    if s.meta.length < 64 {
      q1, q2, t := MiscutHere(s, metas, p, rest, u);
    } else {
      PacketNonEmpty(p, 64);
      var f := Step(s, metas, p + rest, u);
      var q1';
      q1', q2, t := MiscutPacket(f.s, metas, p[1..], rest, u);
      q1 := [f.out] + q1';
      Cons(s, metas, p, rest, u, q1' + q2, Run(t, metas, rest, u));
      assert f.out == p[0] && [f.out] + (q1' + q2) == q1 + q2;
    }
  }

  // A stream of packets

  /** The payload of one command, cut where its meta word says. */
  function Cut(meta: Meta, b: seq<Byte>): seq<seq<Byte>> {
    if meta.isSplit && meta.length <= |b| then [b[..meta.length], b[meta.length..]] else [b]
  }

  function CutAll(metas: seq<Meta>, bs: seq<seq<Byte>>): seq<seq<Byte>> {
    if metas == [] || bs == [] then [] else Cut(metas[0], bs[0]) + CutAll(metas[1..], bs[1..])
  }

  /** The packet has the length its command announced. */
  predicate Fits(meta: Meta, p: seq<Word>) {
    && IsPacket(p, 64)
    && (if meta.isSplit then 1 <= meta.length < |Bytes(p)| else meta.length == |Bytes(p)|)
  }

  predicate Matched(metas: seq<Meta>, ps: seq<seq<Word>>) {
    |metas| == |ps| && forall k :: 0 <= k < |ps| ==> Fits(metas[k], ps[k])
  }

  predicate Aligned(metas: seq<Meta>) {
    forall k :: 0 <= k < |metas| ==> (metas[k].isSplit ==> metas[k].length % 8 == 0)
  }

  predicate AllFrames(ps: seq<seq<Word>>) {
    forall k :: 0 <= k < |ps| ==> IsFrame(ps[k])
  }

  lemma TwoFrames(q1: seq<Word>, q2: seq<Word>)
    ensures Flatten([q1, q2]) == q1 + q2 && Payloads([q1, q2]) == [Bytes(q1), Bytes(q2)]
  {
    assert [q1, q2][1..] == [q2] && Flatten([q2]) == q2 + Flatten([]);
  }

  lemma OneFrame(q: seq<Word>)
    ensures Flatten([q]) == q && Payloads([q]) == [Bytes(q)]
  {
    assert Flatten([q]) == q + Flatten([]);
  }

  /** One command: the frames it sends, and when they carry what they should. */
  lemma OnePacket(s: State, meta: Meta, metas: seq<Meta>, p: seq<Word>, rest: seq<Word>, u: Word)
    returns (qs: seq<seq<Word>>, t: State)
    requires Idle(s) && Fits(meta, p)
    ensures Idle(t) && Run(s, [meta] + metas, p + rest, u) == Prepend(Flatten(qs), Run(t, metas, rest, u))
    ensures AllFrames(qs) && |qs| == (if meta.isSplit then 2 else 1)
    ensures (meta.isSplit ==> meta.length % 8 == 0) ==> AllPackets(qs, 64) && Payloads(qs) == Cut(meta, Bytes(p))
    ensures (meta.isSplit && meta.length % 8 != 0) ==> |Bytes(qs[0])| > meta.length
  {
    assert p != [];
    hide Run, Step, IsPacket, Bytes, Flatten, Payloads;
    RunLoads(s, meta, metas, p + rest, u);
    var s' := s.(meta := meta, metaLoaded := true);
    if !meta.isSplit {
      t := CopyPacket(s', metas, p, rest, u);
      qs := [p];
      PacketIsFrame(p, 64);
      OneFrame(p);
    } else {
      var q1, q2;
      if meta.length % 8 == 0 {
        q1, q2, t := CutPacket(s', metas, p, rest, u);
        PacketIsFrame(q1, 64);
        PacketIsFrame(q2, 64);
      } else {
        q1, q2, t := MiscutPacket(s', metas, p, rest, u);
      }
      qs := [q1, q2];
      TwoFrames(q1, q2);
    }
  }

  lemma AlignedTail(metas: seq<Meta>)
    requires metas != []
    ensures Aligned(metas) <==> (metas[0].isSplit ==> metas[0].length % 8 == 0) && Aligned(metas[1..])
  {
    assert metas == [metas[0]] + metas[1..];
  }

  lemma AllPacketsConcat(a: seq<seq<Word>>, b: seq<seq<Word>>)
    requires AllFrames(a) && AllFrames(b)
    ensures AllFrames(a + b) && Payloads(a + b) == Payloads(a) + Payloads(b)
    ensures AllPackets(a, 64) && AllPackets(b, 64) ==> AllPackets(a + b, 64)
  {
  }

  predicate SameLengths(a: seq<seq<Byte>>, b: seq<seq<Byte>>) {
    |a| == |b| && forall k :: 0 <= k < |a| ==> |a[k]| == |b[k]|
  }

  lemma SameLengthsSplit(a: seq<seq<Byte>>, b: seq<seq<Byte>>, c: seq<seq<Byte>>, d: seq<seq<Byte>>)
    requires |a| == |c| && SameLengths(a + b, c + d)
    ensures SameLengths(a, c) && SameLengths(b, d)
  {
    forall k | 0 <= k < |a| ensures |a[k]| == |c[k]| {
      assert (a + b)[k] == a[k] && (c + d)[k] == c[k];
    }
    forall k | 0 <= k < |b| ensures |b[k]| == |d[k]| {
      assert (a + b)[|a| + k] == b[k] && (c + d)[|a| + k] == d[k];
    }
  }

  /** The data path on any list of matching packets: everything is consumed, and every command yields one
      frame or two.  The frames carry the commands' payloads, cut where the commands were cut, when every cut
      is a multiple of eight bytes; when some cut is not, not even the frame lengths are right. */
  lemma {:induction false} SplitStream(s: State, metas: seq<Meta>, ps: seq<seq<Word>>, u: Word)
    returns (qs: seq<seq<Word>>, t: State)
    requires Idle(s) && Matched(metas, ps)
    ensures Idle(t) && Run(s, metas, Flatten(ps), u) == Outcome(Flatten(qs), t, [], [])
    ensures AllFrames(qs)
    ensures |qs| == |CutAll(metas, Payloads(ps))|
    ensures Aligned(metas) ==> AllPackets(qs, 64) && Payloads(qs) == CutAll(metas, Payloads(ps))
    ensures SameLengths(Payloads(qs), CutAll(metas, Payloads(ps))) ==> Aligned(metas)
    decreases |ps|
  {
    if ps == [] {
      qs, t := [], s;
    } else {
      hide Run, Step, IsPacket, IsFrame, Bytes;
      var one, mid, more;
      one, mid := OnePacket(s, metas[0], metas[1..], ps[0], Flatten(ps[1..]), u);
      more, t := SplitStream(mid, metas[1..], ps[1..], u);
      qs := one + more;
      assert [metas[0]] + metas[1..] == metas;
      FlattenConcat(one, more);
      AllPacketsConcat(one, more);
      AlignedTail(metas);
      assert Payloads(ps)[1..] == Payloads(ps[1..]);
      var cut := Cut(metas[0], Bytes(ps[0]));
      assert CutAll(metas, Payloads(ps)) == cut + CutAll(metas[1..], Payloads(ps[1..]));
      if SameLengths(Payloads(qs), CutAll(metas, Payloads(ps))) {
        SameLengthsSplit(Payloads(one), Payloads(more), cut, CutAll(metas[1..], Payloads(ps[1..])));
        assert |Payloads(one)[0]| == |cut[0]|;
      }
    }
  }

  // The stage as the code runs it

  class PkgSplit {
    var pbcState: Phase
    var meta: Meta
    var metaLoaded: bool
    var prevWord: Word

    constructor ()
      ensures pbcState == PkgFirst && !metaLoaded
    {
      pbcState, metaLoaded := PkgFirst, false;
      meta, prevWord := Meta(0, false), Word(Zeros(64), Mask(64, 0), false);
    }

    function View(): State
      reads this
    {
      State(pbcState, meta, metaLoaded, prevWord)
    }

    method Call(metaIn: Stream<Meta>, dataIn: Stream<Word>, dataOut: Stream<Word>, u: Word)
      requires dataIn != dataOut
      modifies this, metaIn, dataIn, dataOut
      ensures if old(Ready(View(), metaIn.items, dataIn.items)) then
                var f := old(Step(View(), metaIn.items, dataIn.items, u));
                && View() == f.s && metaIn.items == f.metas && dataIn.items == f.data
                && dataOut.items == old(dataOut.items) + [f.out]
              else
                && View() == old(View()) && metaIn.items == old(metaIn.items)
                && dataIn.items == old(dataIn.items) && dataOut.items == old(dataOut.items)
    {
      match pbcState {
        case PkgFirst =>
          if dataIn.items != [] && (metaIn.items != [] || metaLoaded) {
            First(metaIn, dataIn, dataOut);
          }
        case PkgSecond =>
          if dataIn.items != [] {
            Second(dataIn, dataOut);
          }
        case Last =>
          var sendWord := SwitchLast(u);
          dataOut.Write(sendWord);
          metaLoaded := false;
          pbcState := PkgFirst;
      }
    }

    method First(metaIn: Stream<Meta>, dataIn: Stream<Word>, dataOut: Stream<Word>)
      requires dataIn != dataOut && pbcState == PkgFirst
      requires dataIn.items != [] && (metaIn.items != [] || metaLoaded)
      modifies this, metaIn, dataIn, dataOut
      ensures var f := old(Step(View(), metaIn.items, dataIn.items, prevWord));
              && View() == f.s && metaIn.items == f.metas && dataIn.items == f.data
              && dataOut.items == old(dataOut.items) + [f.out]
    {
      if !metaLoaded {
        meta := metaIn.Read();
        metaLoaded := true;
      }
      var currWord := dataIn.Read();
      var keep, last := currWord.keep, false;
      if meta.length <= 64 {
        match meta.length {
          case 56 => keep := Mask(64, 56);
          case 48 => keep := Mask(64, 48);
          case 40 => keep := Mask(64, 40);
          case 32 => keep := Mask(64, 32);
          case 24 => keep := Mask(64, 24);
          case 16 => keep := Mask(64, 16);
          case 8 => keep := Mask(64, 8);
          case _ =>
        }
        last := true;
      }
      dataOut.Write(Word(currWord.data, keep, last));
      prevWord := Word(currWord.data, currWord.keep, prevWord.last);
      if meta.length > 64 {
        meta := meta.(length := meta.length - 64);
      } else if !meta.isSplit {
        metaLoaded := false;
      } else if currWord.last {
        pbcState := Last;
      } else {
        pbcState := PkgSecond;
      }
    }

    method Second(dataIn: Stream<Word>, dataOut: Stream<Word>)
      requires dataIn != dataOut && pbcState == PkgSecond && dataIn.items != []
      modifies this, dataIn, dataOut
      ensures var f := old(Step(View(), [], dataIn.items, prevWord));
              && View() == f.s && dataIn.items == f.data
              && dataOut.items == old(dataOut.items) + [f.out]
    {
      var currWord := dataIn.Read();
      var sendWord := SwitchSecond(currWord);
      dataOut.Write(sendWord);
      prevWord := Word(currWord.data, currWord.keep, prevWord.last);
      if sendWord.last {
        metaLoaded := false;
        pbcState := PkgFirst;
      } else if currWord.last {
        pbcState := Last;
      }
    }

    /** The seven cases of the second-piece switch are one cut at a byte position. */
    method SwitchSecond(currWord: Word) returns (sendWord: Word)
      ensures sendWord == if Cuttable(meta.length) then Straddle(prevWord, currWord, meta.length) else currWord
    {
      match meta.length {
        case 56 => sendWord := Word(Part(prevWord.data, 56, 64) + Part(currWord.data, 0, 56), Part(prevWord.keep, 56, 64) + Part(currWord.keep, 0, 56), !Bit(currWord.keep, 56));
        case 48 => sendWord := Word(Part(prevWord.data, 48, 64) + Part(currWord.data, 0, 48), Part(prevWord.keep, 48, 64) + Part(currWord.keep, 0, 48), !Bit(currWord.keep, 48));
        case 40 => sendWord := Word(Part(prevWord.data, 40, 64) + Part(currWord.data, 0, 40), Part(prevWord.keep, 40, 64) + Part(currWord.keep, 0, 40), !Bit(currWord.keep, 40));
        case 32 => sendWord := Word(Part(prevWord.data, 32, 64) + Part(currWord.data, 0, 32), Part(prevWord.keep, 32, 64) + Part(currWord.keep, 0, 32), !Bit(currWord.keep, 32));
        case 24 => sendWord := Word(Part(prevWord.data, 24, 64) + Part(currWord.data, 0, 24), Part(prevWord.keep, 24, 64) + Part(currWord.keep, 0, 24), !Bit(currWord.keep, 24));
        case 16 => sendWord := Word(Part(prevWord.data, 16, 64) + Part(currWord.data, 0, 16), Part(prevWord.keep, 16, 64) + Part(currWord.keep, 0, 16), !Bit(currWord.keep, 16));
        case 8 => sendWord := Word(Part(prevWord.data, 8, 64) + Part(currWord.data, 0, 8), Part(prevWord.keep, 8, 64) + Part(currWord.keep, 0, 8), !Bit(currWord.keep, 8));
        case _ => sendWord := currWord;
      }
    }

    /** The seven cases of the remainder switch; any other length leaves the word unassigned. */
    method SwitchLast(u: Word) returns (sendWord: Word)
      ensures sendWord == if Cuttable(meta.length) then Remainder(prevWord, meta.length) else Word(u.data, u.keep, true)
    {
      match meta.length {
        case 56 => sendWord := Word(Part(prevWord.data, 56, 64) + Zeros(56), Part(prevWord.keep, 56, 64) + Mask(56, 0), true);
        case 48 => sendWord := Word(Part(prevWord.data, 48, 64) + Zeros(48), Part(prevWord.keep, 48, 64) + Mask(48, 0), true);
        case 40 => sendWord := Word(Part(prevWord.data, 40, 64) + Zeros(40), Part(prevWord.keep, 40, 64) + Mask(40, 0), true);
        case 32 => sendWord := Word(Part(prevWord.data, 32, 64) + Zeros(32), Part(prevWord.keep, 32, 64) + Mask(32, 0), true);
        case 24 => sendWord := Word(Part(prevWord.data, 24, 64) + Zeros(24), Part(prevWord.keep, 24, 64) + Mask(24, 0), true);
        case 16 => sendWord := Word(Part(prevWord.data, 16, 64) + Zeros(16), Part(prevWord.keep, 16, 64) + Mask(16, 0), true);
        case 8 => sendWord := Word(Part(prevWord.data, 8, 64) + Zeros(8), Part(prevWord.keep, 8, 64) + Mask(8, 0), true);
        case _ => sendWord := Word(u.data, u.keep, true);
      }
    }
  }
}
