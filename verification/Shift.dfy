/** The byte shifters: `lshiftWordByOctet` makes room for `k` bytes at the front of every packet, and
    `rshiftWordByOctet` takes `k` bytes off it.  Words are `n` bytes wide and `k` is the offset. */
module Shift {
  import opened Axis
  import opened Runs
  import opened Streams

  /** `first` holds between packets, `rest` while the end of a packet still has to be sent. */
  datatype State = State(first: bool, rest: bool, prev: Word)

  predicate Idle(s: State) {
    s.first && !s.rest
  }

  predicate Ready(s: State, data: seq<Word>) {
    s.rest || data != []
  }

  predicate NoneSet(keep: seq<bool>) {
    forall i :: 0 <= i < |keep| ==> !keep[i]
  }

  // To the left

  /** The `k` bytes that go in front of the current word. */
  function CarryData(n: nat, k: nat, s: State): seq<Byte> {
    if s.first then Zeros(k) else Part(s.prev.data, n - k, n)
  }

  /** The literal that marks the new bytes as kept has 32 bits. */
  const ONES := 32

  function CarryKeep(n: nat, k: nat, s: State): seq<bool> {
    if s.first then Mask(k, if k <= ONES then k else ONES) else Part(s.prev.keep, n - k, n)
  }

  function LeftWord(n: nat, k: nat, s: State, cur: Word): Word {
    Word(CarryData(n, k, s) + Part(cur.data, 0, n - k), CarryKeep(n, k, s) + Part(cur.keep, 0, n - k),
         NoneSet(Part(cur.keep, n - k, n)))
  }

  function LeftRest(n: nat, k: nat, prev: Word): Word {
    if k > n then prev
    else Word(Part(prev.data, n - k, n) + Zeros(n - k), Part(prev.keep, n - k, n) + Mask(n - k, 0), true)
  }

  /** One call of `lshiftWordByOctet` that finds work. */
  function LeftStep(n: nat, k: nat, s: State, data: seq<Word>): Fired<State>
    requires Ready(s, data)
  {
    if s.rest then Fired(s.(rest := false), data, [LeftRest(n, k, s.prev)])
    else
      var cur := data[0];
      if k == 0 then Fired(s, data[1..], [cur])
      else
        var out := LeftWord(n, k, s, cur);
        Fired(State(cur.last, cur.last && !out.last, cur), data[1..], [out])
  }

  function LeftRun(n: nat, k: nat, s: State, data: seq<Word>): (o: Outcome<State>)
    decreases 2 * |data| + (if s.rest then 1 else 0)
  {
    if !Ready(s, data) then Outcome([], s)
    else
      var f := LeftStep(n, k, s, data);
      Prepend(f.out, LeftRun(n, k, f.s, f.data))
  }

  // To the right

  function RightWord(n: nat, k: nat, prev: Word, cur: Word): Word {
    Word(Part(prev.data, k, n) + Part(cur.data, 0, k), Part(prev.keep, k, n) + Part(cur.keep, 0, k),
         NoneSet(Part(cur.keep, k, n)))
  }

  function RightRest(n: nat, k: nat, prev: Word): Word {
    Word(Part(prev.data, k, n) + Zeros(k), Part(prev.keep, k, n) + Mask(k, 0), true)
  }

  /** One call of `rshiftWordByOctet` that finds work, for an offset of at least one. */
  function RightStep(n: nat, k: nat, s: State, data: seq<Word>): Fired<State>
    requires Ready(s, data)
  {
    if s.rest then Fired(s.(rest := false), data, [RightRest(n, k, s.prev)])
    else
      var cur := data[0];
      var out := if s.first then [] else [RightWord(n, k, s.prev, cur)];
      Fired(State(cur.last, cur.last && (out == [] || !out[0].last), cur), data[1..], out)
  }

  function RightRun(n: nat, k: nat, s: State, data: seq<Word>): (o: Outcome<State>)
    decreases 2 * |data| + (if s.rest then 1 else 0)
  {
    if !Ready(s, data) then Outcome([], s)
    else
      var f := RightStep(n, k, s, data);
      Prepend(f.out, RightRun(n, k, f.s, f.data))
  }

  /** What a whole stream becomes, from the state the shifters start in. */
  function Start(): State {
    State(true, false, Word([], [], false))
  }

  function LeftShift(n: nat, k: nat, ws: seq<Word>): seq<Word> {
    LeftRun(n, k, Start(), ws).out
  }

  function RightShift(n: nat, k: nat, ws: seq<Word>): seq<Word> {
    RightRun(n, k, Start(), ws).out
  }

  // Single words

  /** A word made of `k` kept bytes and the lowest bytes of a word that keeps `c`. */
  lemma LeftWordLoad(n: nat, k: nat, s: State, cur: Word, c: nat)
    requires 1 <= k < n && HasWidth(cur, n) && c <= n && cur.keep == Mask(n, c)
    requires |CarryData(n, k, s)| == k && CarryKeep(n, k, s) == Mask(k, k)
    ensures var w := LeftWord(n, k, s, cur);
            var m := if c <= n - k then c else n - k;
            && HasWidth(w, n) && w.keep == Mask(n, k + m) && (w.last <==> c <= n - k)
            && Load(w) == CarryData(n, k, s) + cur.data[..m]
  {
    var w := LeftWord(n, k, s, cur);
    var m := if c <= n - k then c else n - k;
    assert w.last <==> c <= n - k by {
      if c > n - k {
        assert Part(cur.keep, n - k, n)[0];
      }
    }
    assert w.keep == Mask(n, k + m);
    LoadMask(w, n, k + m);
  }

  lemma LeftRestLoad(n: nat, k: nat, prev: Word, c: nat)
    requires 1 <= k < n && HasWidth(prev, n) && n - k < c <= n && prev.keep == Mask(n, c)
    ensures var w := LeftRest(n, k, prev);
            w.last && IsTail(w, n) && Load(w) == prev.data[n - k..c]
  {
    var w := LeftRest(n, k, prev);
    assert w.keep == Mask(n, c - (n - k));
    LoadMask(w, n, c - (n - k));
  }

  lemma RightWordLoad(n: nat, k: nat, prev: Word, cur: Word, c: nat)
    requires 1 <= k < n && IsFull(prev, n) && HasWidth(cur, n) && c <= n && cur.keep == Mask(n, c)
    ensures var w := RightWord(n, k, prev, cur);
            var m := if c <= k then c else k;
            && HasWidth(w, n) && w.keep == Mask(n, n - k + m) && (w.last <==> c <= k)
            && Load(w) == prev.data[k..] + cur.data[..m]
  {
    var w := RightWord(n, k, prev, cur);
    var m := if c <= k then c else k;
    assert w.last <==> c <= k by {
      if c > k {
        assert Part(cur.keep, k, n)[0];
      }
    }
    assert w.keep == Mask(n, n - k + m);
    LoadMask(w, n, n - k + m);
  }

  lemma RightRestLoad(n: nat, k: nat, prev: Word, c: nat)
    requires 1 <= k < n && HasWidth(prev, n) && c <= n && prev.keep == Mask(n, c)
    ensures var w := RightRest(n, k, prev);
            && w.last && HasWidth(w, n)
            && Load(w) == (if c > k then prev.data[k..c] else []) && (IsTail(w, n) <==> c > k)
  {
    var w := RightRest(n, k, prev);
    var m := if c > k then c - k else 0;
    assert w.keep == Mask(n, m);
    LoadMask(w, n, m);
  }

  // Packets

  lemma Regroup(a: seq<Byte>, d: seq<Byte>, m: nat, b: seq<Byte>)
    requires m <= |d|
    ensures (a + d[..m]) + (d[m..] + b) == a + (d + b)
  {
  }

  lemma LeftCons(n: nat, k: nat, s: State, cur: Word, rest: seq<Word>)
    requires k > 0 && !s.rest
    ensures var w := LeftWord(n, k, s, cur);
            LeftRun(n, k, s, [cur] + rest) == Prepend([w], LeftRun(n, k, State(cur.last, cur.last && !w.last, cur), rest))
  {
    assert ([cur] + rest)[1..] == rest;
    hide LeftWord;
  }

  lemma RightCons(n: nat, k: nat, s: State, cur: Word, rest: seq<Word>)
    requires !s.rest && !s.first
    ensures var w := RightWord(n, k, s.prev, cur);
            RightRun(n, k, s, [cur] + rest) == Prepend([w], RightRun(n, k, State(cur.last, cur.last && !w.last, cur), rest))
  {
    assert ([cur] + rest)[1..] == rest;
    hide RightWord;
  }

  /** The bytes at the front of the next word are known. */
  predicate Carries(n: nat, k: nat, s: State) {
    !s.rest && |CarryData(n, k, s)| == k && CarryKeep(n, k, s) == Mask(k, k)
  }

  lemma LeftMiddle(n: nat, k: nat, s: State, cur: Word)
    requires 1 <= k < n && Carries(n, k, s) && IsFull(cur, n) && !cur.last
    ensures var w := LeftWord(n, k, s, cur);
            IsFull(w, n) && !w.last && Load(w) == CarryData(n, k, s) + cur.data[..n - k]
    ensures Carries(n, k, State(false, false, cur)) && CarryData(n, k, State(false, false, cur)) == cur.data[n - k..]
  {
    LeftWordLoad(n, k, s, cur, n);
    LoadMask(LeftWord(n, k, s, cur), n, n);
  }

  /** One packet on the left shifter: the carried bytes come first, then every byte of the packet. */
  lemma {:induction false} LeftPacket(n: nat, k: nat, s: State, p: seq<Word>, rest: seq<Word>)
    returns (q: seq<Word>, t: State)
    requires 1 <= k < n && Carries(n, k, s) && IsPacket(p, n)
    ensures Idle(t) && LeftRun(n, k, s, p + rest) == Prepend(q, LeftRun(n, k, t, rest))
    ensures IsPacket(q, n) && Bytes(q) == CarryData(n, k, s) + Bytes(p)
    decreases |p|
  {
    var cur := p[0];
    PacketNonEmpty(p, n);
    hide LeftRun, LeftWord, Bytes, CarryData, Carries;
    if |p| == 1 {
      assert p == [cur];
      q, t := LeftEnd(n, k, s, cur, rest);
    } else {
      var w := LeftWord(n, k, s, cur);
      LeftMiddle(n, k, s, cur);
      assert p + rest == [cur] + (p[1..] + rest);
      LeftCons(n, k, s, cur, p[1..] + rest);
      var q';
      q', t := LeftPacket(n, k, State(false, false, cur), p[1..], rest);
      q := [w] + q';
      ConsWord(w, q', n);
      hide *;
      PrependConcat([w], q', LeftRun(n, k, t, rest));
      Regroup(CarryData(n, k, s), cur.data, n - k, Bytes(p[1..]));
    }
  }

  /** The words that end a packet: one, or two when the kept bytes do not fit. */
  function LeftEndWords(n: nat, k: nat, s: State, cur: Word): seq<Word> {
    var w := LeftWord(n, k, s, cur);
    if w.last then [w] else [w, LeftRest(n, k, cur)]
  }

  lemma LeftEndLoad(n: nat, k: nat, s: State, cur: Word)
    requires 1 <= k < n && Carries(n, k, s) && cur.last && IsTail(cur, n)
    ensures IsPacket(LeftEndWords(n, k, s, cur), n)
    ensures Bytes(LeftEndWords(n, k, s, cur)) == CarryData(n, k, s) + Load(cur)
  {
    var c := TailLoad(cur, n);
    var w := LeftWord(n, k, s, cur);
    LeftWordLoad(n, k, s, cur, c);
    if c <= n - k {
      LoadMask(w, n, k + c);
      TailPacket(w, n);
    } else {
      LoadMask(w, n, n);
      var e := LeftRest(n, k, cur);
      LeftRestLoad(n, k, cur, c);
      TwoWords(w, e, n);
      hide LeftWord, LeftRest, Bytes, IsPacket, CarryData, CarryKeep;
      assert cur.data[..n - k] + cur.data[n - k..c] == cur.data[..c];
      assert (CarryData(n, k, s) + cur.data[..n - k]) + cur.data[n - k..c] == CarryData(n, k, s) + cur.data[..c];
    }
  }

  lemma LeftEnd(n: nat, k: nat, s: State, cur: Word, rest: seq<Word>) returns (q: seq<Word>, t: State)
    requires 1 <= k < n && Carries(n, k, s) && cur.last && IsTail(cur, n)
    ensures Idle(t) && LeftRun(n, k, s, [cur] + rest) == Prepend(q, LeftRun(n, k, t, rest))
    ensures IsPacket(q, n) && Bytes(q) == CarryData(n, k, s) + Load(cur)
  {
    LeftEndLoad(n, k, s, cur);
    var w, e := LeftWord(n, k, s, cur), LeftRest(n, k, cur);
    q, t := LeftEndWords(n, k, s, cur), State(true, false, cur);
    hide LeftRun, LeftWord, LeftRest, Bytes, IsPacket, CarryData, CarryKeep;
    LeftCons(n, k, s, cur, rest);
    if !w.last {
      LeftRestCons(n, k, cur, rest);
      PrependConcat([w], [e], LeftRun(n, k, t, rest));
      assert [w] + [e] == q;
    }
  }

  lemma LeftRestCons(n: nat, k: nat, prev: Word, rest: seq<Word>)
    ensures LeftRun(n, k, State(true, true, prev), rest)
            == Prepend([LeftRest(n, k, prev)], LeftRun(n, k, State(true, false, prev), rest))
  {
  }

  lemma RightRestCons(n: nat, k: nat, prev: Word, rest: seq<Word>)
    ensures RightRun(n, k, State(true, true, prev), rest)
            == Prepend([RightRest(n, k, prev)], RightRun(n, k, State(true, false, prev), rest))
  {
  }

  lemma RightMiddle(n: nat, k: nat, prev: Word, cur: Word)
    requires 1 <= k < n && IsFull(prev, n) && IsFull(cur, n)
    ensures var w := RightWord(n, k, prev, cur);
            IsFull(w, n) && !w.last && Load(w) == prev.data[k..] + cur.data[..k]
  {
    RightWordLoad(n, k, prev, cur, n);
    LoadMask(RightWord(n, k, prev, cur), n, n);
  }

  /** The rest of a packet on the right shifter, after a full word. */
  lemma {:induction false} RightTail(n: nat, k: nat, s: State, p: seq<Word>, rest: seq<Word>)
    returns (q: seq<Word>, t: State)
    requires 1 <= k < n && !s.rest && !s.first && IsFull(s.prev, n) && IsPacket(p, n)
    ensures Idle(t) && RightRun(n, k, s, p + rest) == Prepend(q, RightRun(n, k, t, rest))
    ensures IsPacket(q, n) && Bytes(q) == s.prev.data[k..] + Bytes(p)
    decreases |p|
  {
    var cur := p[0];
    PacketNonEmpty(p, n);
    hide RightRun, RightWord, Bytes;
    if |p| == 1 {
      assert p == [cur];
      q, t := RightEnd(n, k, s, cur, rest);
    } else {
      var w := RightWord(n, k, s.prev, cur);
      RightMiddle(n, k, s.prev, cur);
      assert p + rest == [cur] + (p[1..] + rest);
      RightCons(n, k, s, cur, p[1..] + rest);
      var q';
      q', t := RightTail(n, k, State(false, false, cur), p[1..], rest);
      q := [w] + q';
      ConsWord(w, q', n);
      hide *;
      PrependConcat([w], q', RightRun(n, k, t, rest));
      Regroup(s.prev.data[k..], cur.data, k, Bytes(p[1..]));
    }
  }

  lemma Resplit(a: seq<Byte>, d: seq<Byte>, k: nat, c: nat)
    requires k <= c <= |d|
    ensures (a + d[..k]) + d[k..c] == a + d[..c]
  {
    assert d[..k] + d[k..c] == d[..c];
  }

  function RightEndWords(n: nat, k: nat, prev: Word, cur: Word): seq<Word> {
    var w := RightWord(n, k, prev, cur);
    if w.last then [w] else [w, RightRest(n, k, cur)]
  }

  lemma RightEndLoad(n: nat, k: nat, prev: Word, cur: Word)
    requires 1 <= k < n && IsFull(prev, n) && cur.last && IsTail(cur, n)
    ensures IsPacket(RightEndWords(n, k, prev, cur), n)
    ensures Bytes(RightEndWords(n, k, prev, cur)) == prev.data[k..] + Load(cur)
  {
    var c := TailLoad(cur, n);
    var w := RightWord(n, k, prev, cur);
    RightWordLoad(n, k, prev, cur, c);
    if c <= k {
      LoadMask(w, n, n - k + c);
      TailPacket(w, n);
    } else {
      LoadMask(w, n, n);
      var e := RightRest(n, k, cur);
      RightRestLoad(n, k, cur, c);
      TwoWords(w, e, n);
      hide RightWord, RightRest, Bytes, IsPacket, IsFull, IsTail, Load;
      Resplit(prev.data[k..], cur.data, k, c);
    }
  }

  lemma RightEnd(n: nat, k: nat, s: State, cur: Word, rest: seq<Word>) returns (q: seq<Word>, t: State)
    requires 1 <= k < n && !s.rest && !s.first && IsFull(s.prev, n) && cur.last && IsTail(cur, n)
    ensures Idle(t) && RightRun(n, k, s, [cur] + rest) == Prepend(q, RightRun(n, k, t, rest))
    ensures IsPacket(q, n) && Bytes(q) == s.prev.data[k..] + Load(cur)
  {
    RightEndLoad(n, k, s.prev, cur);
    var w, e := RightWord(n, k, s.prev, cur), RightRest(n, k, cur);
    q, t := RightEndWords(n, k, s.prev, cur), State(true, false, cur);
    hide RightRun, RightWord, RightRest, Bytes, IsPacket;
    RightCons(n, k, s, cur, rest);
    if !w.last {
      RightRestCons(n, k, cur, rest);
      PrependConcat([w], [e], RightRun(n, k, t, rest));
      assert [w] + [e] == q;
    }
  }

  /** What is left of a payload without its first `k` bytes. */
  function Without(b: seq<Byte>, k: nat): seq<Byte> {
    if |b| <= k then [] else b[k..]
  }

  /** The first word of a packet is only carried. */
  lemma RightFirst(n: nat, k: nat, s: State, cur: Word, rest: seq<Word>)
    requires Idle(s)
    ensures RightRun(n, k, s, [cur] + rest) == RightRun(n, k, State(cur.last, cur.last, cur), rest)
  {
    assert ([cur] + rest)[1..] == rest;
    var o := RightRun(n, k, State(cur.last, cur.last, cur), rest);
    assert Prepend([], o) == o;
  }

  /** One packet on the right shifter: exactly its first `k` bytes are gone, and the frame sent is well formed exactly
      when there were more. */
  lemma {:induction false} RightPacket(n: nat, k: nat, s: State, p: seq<Word>, rest: seq<Word>) returns (q: seq<Word>, t: State)
    requires 1 <= k < n && Idle(s) && IsPacket(p, n)
    ensures Idle(t) && RightRun(n, k, s, p + rest) == Prepend(q, RightRun(n, k, t, rest))
    ensures IsFrame(q) && Bytes(q) == Without(Bytes(p), k)
    ensures IsPacket(q, n) <==> |Bytes(p)| > k
  {
    PacketNonEmpty(p, n);
    assert p[0].last && |p| == 1 ==> IsTail(p[0], n);
    hide RightRun, Bytes, IsPacket, IsTail, Load;
    if |p| == 1 {
      assert p + rest == [p[0]] + rest;
      RightFirst(n, k, s, p[0], rest);
      q, t := RightSingle(n, k, p[0], rest);
    } else {
      q, t := RightLong(n, k, s, p, rest);
      PacketIsFrame(q, n);
    }
  }

  lemma DropFront(d: seq<Byte>, b: seq<Byte>, k: nat)
    requires k <= |d|
    ensures (d + b)[k..] == d[k..] + b
  {
  }

  lemma RightLong(n: nat, k: nat, s: State, p: seq<Word>, rest: seq<Word>) returns (q: seq<Word>, t: State)
    requires 1 <= k < n && Idle(s) && IsPacket(p, n) && |p| > 1
    ensures Idle(t) && RightRun(n, k, s, p + rest) == Prepend(q, RightRun(n, k, t, rest))
    ensures IsPacket(q, n) && |Bytes(p)| > k && Bytes(q) == Bytes(p)[k..]
  {
    var cur := p[0];
    PacketNonEmpty(p, n);
    assert IsFull(cur, n) && !cur.last && IsPacket(p[1..], n);
    hide RightRun, Bytes, IsPacket;
    assert p + rest == [cur] + (p[1..] + rest);
    RightFirst(n, k, s, cur, p[1..] + rest);
    q, t := RightTail(n, k, State(false, false, cur), p[1..], rest);
    hide *;
    DropFront(cur.data, Bytes(p[1..]), k);
  }

  lemma RightSingle(n: nat, k: nat, cur: Word, rest: seq<Word>) returns (q: seq<Word>, t: State)
    requires 1 <= k < n && cur.last && IsTail(cur, n)
    ensures Idle(t) && RightRun(n, k, State(true, true, cur), rest) == Prepend(q, RightRun(n, k, t, rest))
    ensures IsFrame(q) && Bytes(q) == Without(Load(cur), k)
    ensures IsPacket(q, n) <==> |Load(cur)| > k
  {
    var c := TailLoad(cur, n);
    var e := RightRest(n, k, cur);
    RightRestLoad(n, k, cur, c);
    RightRestCons(n, k, cur, rest);
    q, t := [e], State(true, false, cur);
    assert Bytes(q) == Load(e) + Bytes([]);
  }

  // Whole streams

  lemma {:induction false} LeftStream(n: nat, k: nat, s: State, ps: seq<seq<Word>>) returns (qs: seq<seq<Word>>)
    requires 1 <= k < n && k <= ONES && Idle(s) && AllPackets(ps, n)
    ensures LeftRun(n, k, s, Flatten(ps)).out == Flatten(qs) && Idle(LeftRun(n, k, s, Flatten(ps)).s)
    ensures AllPackets(qs, n) && |qs| == |ps|
    ensures forall i :: 0 <= i < |ps| ==> Bytes(qs[i]) == Zeros(k) + Bytes(ps[i])
    decreases |ps|
  {
    if ps == [] {
      qs := [];
    } else {
      var q, t := LeftPacket(n, k, s, ps[0], Flatten(ps[1..]));
      assert CarryData(n, k, s) == Zeros(k);
      hide LeftRun, IsPacket, Bytes;
      var qs' := LeftStream(n, k, t, ps[1..]);
      qs := [q] + qs';
      assert forall i :: 1 <= i < |ps| ==> ps[i] == ps[1..][i - 1];
    }
  }

  lemma {:induction false} RightStream(n: nat, k: nat, s: State, ps: seq<seq<Word>>) returns (qs: seq<seq<Word>>)
    requires 1 <= k < n && Idle(s) && AllPackets(ps, n)
    ensures RightRun(n, k, s, Flatten(ps)).out == Flatten(qs) && Idle(RightRun(n, k, s, Flatten(ps)).s)
    ensures |qs| == |ps|
    ensures forall i :: 0 <= i < |ps| ==> RightOf(n, k, ps[i], qs[i])
    decreases |ps|
  {
    if ps == [] {
      qs := [];
    } else {
      var q, t := RightPacket(n, k, s, ps[0], Flatten(ps[1..]));
      assert RightOf(n, k, ps[0], q);
      hide RightRun, IsPacket, Bytes, RightOf;
      var qs' := RightStream(n, k, t, ps[1..]);
      qs := [q] + qs';
      assert forall i :: 1 <= i < |ps| ==> ps[i] == ps[1..][i - 1];
    }
  }

  /** The frame is the packet without its first `k` bytes. */
  predicate RightOf(n: nat, k: nat, p: seq<Word>, q: seq<Word>) {
    IsFrame(q) && Bytes(q) == Without(Bytes(p), k) && (IsPacket(q, n) <==> |Bytes(p)| > k)
  }

  /** The left shifter puts exactly `k` zero bytes in front of every packet and changes nothing else. */
  lemma LeftShiftPackets(n: nat, k: nat, ps: seq<seq<Word>>)
    requires 1 <= k < n && k <= ONES && AllPackets(ps, n)
    ensures var qs := Frames(LeftShift(n, k, Flatten(ps)));
            && Flatten(qs) == LeftShift(n, k, Flatten(ps)) && AllPackets(qs, n) && |qs| == |ps|
            && forall i :: 0 <= i < |ps| ==> Bytes(qs[i]) == Zeros(k) + Bytes(ps[i])
  {
    var qs := LeftStream(n, k, Start(), ps);
    PacketsAreFrames(qs, n);
  }

  lemma HoleNoMask(w: Word, n: nat, i: nat, j: nat)
    requires HasWidth(w, n) && i < j < n && !w.keep[i] && w.keep[j]
    ensures !IsFull(w, n) && !IsTail(w, n)
  {
  }

  lemma FirstWordHole(n: nat, k: nat, cur: Word)
    requires ONES < k < n && HasWidth(cur, n) && cur.keep[0]
    ensures var w := LeftWord(n, k, Start(), cur);
            HasWidth(w, n) && !w.keep[ONES] && w.keep[k]
  {
  }

  lemma FirstByteKept(p: seq<Word>, n: nat)
    requires n >= 1 && IsPacket(p, n)
    ensures HasWidth(p[0], n) && p[0].keep[0]
  {
    if |p| == 1 {
      var c := TailLoad(p[0], n);
    }
  }

  /** An offset of zero leaves every stream as it is, packets or not. */
  lemma {:induction false} LeftByNothing(n: nat, ws: seq<Word>)
    ensures LeftShift(n, 0, ws) == ws
    decreases |ws|
  {
    if ws != [] {
      LeftByNothing(n, ws[1..]);
      assert LeftRun(n, 0, Start(), ws) == Prepend([ws[0]], LeftRun(n, 0, Start(), ws[1..]));
    }
  }

  /** In words of more than 33 bytes, an offset beyond 32 would leave a hole in the keep bits of the first word. */
  lemma {:induction false} WideOffsetLeavesHole(n: nat, k: nat, p: seq<Word>, rest: seq<Word>)
    requires ONES < k < n && IsPacket(p, n)
    ensures var out := LeftShift(n, k, p + rest);
            out != [] && !IsFull(out[0], n) && !IsTail(out[0], n)
  {
    var cur := p[0];
    assert p + rest == [cur] + (p[1..] + rest);
    FirstByteKept(p, n);
    hide LeftRun, LeftWord, IsPacket, IsFull, IsTail;
    LeftCons(n, k, Start(), cur, p[1..] + rest);
    FirstWordHole(n, k, cur);
    HoleNoMask(LeftWord(n, k, Start(), cur), n, ONES, k);
  }

  /** The right shifter takes exactly the first `k` bytes off every packet, and sends one frame for each, which is a well-formed
      packet exactly when the packet was longer than `k` bytes. */
  lemma RightShiftPackets(n: nat, k: nat, ps: seq<seq<Word>>)
    requires 1 <= k < n && AllPackets(ps, n)
    ensures var qs := Frames(RightShift(n, k, Flatten(ps)));
            && Flatten(qs) == RightShift(n, k, Flatten(ps)) && |qs| == |ps|
            && forall i :: 0 <= i < |ps| ==> RightOf(n, k, ps[i], qs[i])
  {
    var qs := RightStream(n, k, Start(), ps);
    forall i | 0 <= i < |qs| ensures IsFrame(qs[i]) {
      assert RightOf(n, k, ps[i], qs[i]);
    }
    FramesOfFlatten(qs);
  }

  /** Shifting left and then right by the same offset gives back the packets, byte for byte. */
  lemma RoundTrip(n: nat, k: nat, ps: seq<seq<Word>>)
    requires 1 <= k < n && k <= ONES && AllPackets(ps, n)
    ensures var rs := Frames(RightShift(n, k, LeftShift(n, k, Flatten(ps))));
            && Flatten(rs) == RightShift(n, k, LeftShift(n, k, Flatten(ps)))
            && AllPackets(rs, n) && |rs| == |ps|
            && forall i :: 0 <= i < |ps| ==> Bytes(rs[i]) == Bytes(ps[i]) && SameWords(rs[i], ps[i])
  {
    LeftShiftPackets(n, k, ps);
    var qs := Frames(LeftShift(n, k, Flatten(ps)));
    RightShiftPackets(n, k, qs);
    var rs := Frames(RightShift(n, k, Flatten(qs)));
    forall i | 0 <= i < |ps| ensures IsPacket(rs[i], n) && Bytes(rs[i]) == Bytes(ps[i]) && SameWords(rs[i], ps[i]) {
      assert RightOf(n, k, qs[i], rs[i]);
      PacketNonEmpty(ps[i], n);
      assert Without(Zeros(k) + Bytes(ps[i]), k) == Bytes(ps[i]);
      SameBytesSameWords(rs[i], ps[i], n);
    }
  }

  // The shifters as the code runs them

  class LeftShifter {
    const n: nat
    var lsFirstWord: bool
    var lsWriteRemainder: bool
    var prevWord: Word

    constructor (n: nat)
      ensures this.n == n && View() == Start()
    {
      this.n := n;
      lsFirstWord, lsWriteRemainder, prevWord := true, false, Word([], [], false);
    }

    function View(): State
      reads this
    {
      State(lsFirstWord, lsWriteRemainder, prevWord)
    }

    method Call(offset: nat, input: Stream<Word>, output: Stream<Word>)
      requires input != output && offset < n
      modifies this, input, output
      ensures if old(Ready(View(), input.items)) then
                var f := old(LeftStep(n, offset, View(), input.items));
                View() == f.s && input.items == f.data && output.items == old(output.items) + f.out
              else
                View() == old(View()) && input.items == old(input.items) && output.items == old(output.items)
    {
      if lsWriteRemainder {
        output.Write(Word(Part(prevWord.data, n - offset, n) + Zeros(n - offset),
                          Part(prevWord.keep, n - offset, n) + Mask(n - offset, 0), true));
        lsWriteRemainder := false;
      } else if input.items != [] {
        var currWord := input.Read();
        if offset == 0 {
          output.Write(currWord);
        } else {
          var sendWord;
          if lsFirstWord {
            sendWord := Word(Zeros(offset) + Part(currWord.data, 0, n - offset),
                             Mask(offset, if offset <= ONES then offset else ONES) + Part(currWord.keep, 0, n - offset),
                             NoneSet(Part(currWord.keep, n - offset, n)));
          } else {
            sendWord := Word(Part(prevWord.data, n - offset, n) + Part(currWord.data, 0, n - offset),
                             Part(prevWord.keep, n - offset, n) + Part(currWord.keep, 0, n - offset),
                             NoneSet(Part(currWord.keep, n - offset, n)));
          }
          output.Write(sendWord);
          prevWord := currWord;
          lsFirstWord := false;
          if currWord.last {
            lsFirstWord := true;
            lsWriteRemainder := !sendWord.last;
          }
        }
      }
    }
  }

  class RightShifter {
    const n: nat
    var fsmRemainder: bool
    var rsFirstWord: bool
    var prevWord: Word

    constructor (n: nat)
      ensures this.n == n && View() == Start()
    {
      this.n := n;
      rsFirstWord, fsmRemainder, prevWord := true, false, Word([], [], false);
    }

    function View(): State
      reads this
    {
      State(rsFirstWord, fsmRemainder, prevWord)
    }

    method Call(offset: nat, input: Stream<Word>, output: Stream<Word>)
      requires input != output && 1 <= offset < n
      modifies this, input, output
      ensures if old(Ready(View(), input.items)) then
                var f := old(RightStep(n, offset, View(), input.items));
                View() == f.s && input.items == f.data && output.items == old(output.items) + f.out
              else
                View() == old(View()) && input.items == old(input.items) && output.items == old(output.items)
    {
      if fsmRemainder {
        output.Write(Word(Part(prevWord.data, offset, n) + Zeros(offset), Part(prevWord.keep, offset, n) + Mask(offset, 0), true));
        fsmRemainder := false;
      } else if input.items != [] {
        var currWord := input.Read();
        var sentLast := false;
        if !rsFirstWord {
          var sendWord := Word(Part(prevWord.data, offset, n) + Part(currWord.data, 0, offset),
                               Part(prevWord.keep, offset, n) + Part(currWord.keep, 0, offset),
                               NoneSet(Part(currWord.keep, offset, n)));
          sentLast := sendWord.last;
          output.Write(sendWord);
        }
        prevWord := currWord;
        rsFirstWord := false;
        if currWord.last {
          rsFirstWord := true;
          if !sentLast {
            fsmRemainder := true;
          }
        }
      }
    }
  }
}
