/** The width converters: `convertStreamToDoubleWidth` joins two words of `n` bytes into one of `2n`, and
    `convertStreamToHalfWidth` takes a word of `2n` bytes apart. */
module Width {
  import opened Axis
  import opened Runs
  import opened Streams

  // Doubling

  /** `even` holds when the lower half of `temp` is waiting for its upper half. */
  datatype Doubler = Doubler(even: bool, temp: Word)

  function DoubleStep(n: nat, s: Doubler, data: seq<Word>): Fired<Doubler>
    requires data != []
  {
    var cur := data[0];
    if !s.even then
      var low := Word(cur.data + Part(s.temp.data, n, 2 * n), cur.keep + Mask(n, 0), cur.last);
      if cur.last then
        var temp := low.(data := cur.data + Zeros(n));
        Fired(Doubler(false, temp), data[1..], [temp])
      else Fired(Doubler(true, low), data[1..], [])
    else
      var temp := Word(Part(s.temp.data, 0, n) + cur.data, Part(s.temp.keep, 0, n) + cur.keep, cur.last);
      Fired(Doubler(false, temp), data[1..], [temp])
  }

  function DoubleRun(n: nat, s: Doubler, data: seq<Word>): Outcome<Doubler>
    decreases |data|
  {
    if data == [] then Outcome([], s)
    else
      var f := DoubleStep(n, s, data);
      Prepend(f.out, DoubleRun(n, f.s, data[1..]))
  }

  // Halving

  datatype Halver = Halver(second: bool, cur: Word)

  predicate HalfReady(s: Halver, data: seq<Word>) {
    s.second || data != []
  }

  predicate KeepBit(keep: seq<bool>, i: int) {
    0 <= i < |keep| && keep[i]
  }

  function Low(n: nat, w: Word): Word {
    Word(Part(w.data, 0, n), Part(w.keep, 0, n), !KeepBit(w.keep, n))
  }

  function High(n: nat, w: Word): Word {
    Word(Part(w.data, n, 2 * n), Part(w.keep, n, 2 * n), w.last)
  }

  function HalfStep(n: nat, s: Halver, data: seq<Word>): Fired<Halver>
    requires HalfReady(s, data)
  {
    if s.second then Fired(s.(second := false), data, [High(n, s.cur)])
    else Fired(Halver(KeepBit(data[0].keep, n), data[0]), data[1..], [Low(n, data[0])])
  }

  function HalfRun(n: nat, s: Halver, data: seq<Word>): Outcome<Halver>
    decreases 2 * |data| + (if s.second then 1 else 0)
  {
    if !HalfReady(s, data) then Outcome([], s)
    else
      var f := HalfStep(n, s, data);
      Prepend(f.out, HalfRun(n, f.s, f.data))
  }

  /** What a whole stream becomes, from the states the converters start in. */
  function Double(n: nat, ws: seq<Word>): seq<Word> {
    DoubleRun(n, Doubler(false, Word(Zeros(2 * n), Mask(2 * n, 0), false)), ws).out
  }

  function Half(n: nat, ws: seq<Word>): seq<Word> {
    HalfRun(n, Halver(false, Word([], [], false)), ws).out
  }

  // What a packet becomes

  function Join(a: Word, b: Word): Word {
    Word(a.data + b.data, a.keep + b.keep, b.last)
  }

  function Alone(n: nat, a: Word): Word {
    Word(a.data + Zeros(n), a.keep + Mask(n, 0), a.last)
  }

  /** The words in pairs; an odd last word is alone. */
  function Joined(n: nat, p: seq<Word>): seq<Word> {
    if p == [] then []
    else if |p| == 1 then [Alone(n, p[0])]
    else [Join(p[0], p[1])] + Joined(n, p[2..])
  }

  /** The words in halves; an empty upper half is left out. */
  function Halves(n: nat, w: Word): seq<Word> {
    [Low(n, w)] + if KeepBit(w.keep, n) then [High(n, w)] else []
  }

  function Parted(n: nat, p: seq<Word>): seq<Word> {
    if p == [] then [] else Halves(n, p[0]) + Parted(n, p[1..])
  }

  lemma AloneTail(n: nat, a: Word)
    requires n >= 1 && IsTail(a, n) && a.last
    ensures IsTail(Alone(n, a), 2 * n) && Load(Alone(n, a)) == Load(a) && Halves(n, Alone(n, a)) == [a]
  {
    var c := TailLoad(a, n);
    var w := Alone(n, a);
    assert w.keep == Mask(2 * n, c);
    LoadMask(w, 2 * n, c);
    assert w.data[..c] == a.data[..c];
    assert !KeepBit(w.keep, n);
  }

  lemma JoinLoad(n: nat, a: Word, b: Word, c: nat)
    requires 1 <= c <= n && IsFull(a, n) && HasWidth(b, n) && b.keep == Mask(n, c)
    ensures var w := Join(a, b);
            HasWidth(w, 2 * n) && w.keep == Mask(2 * n, n + c) && Load(w) == Load(a) + Load(b)
    ensures !a.last ==> Halves(n, Join(a, b)) == [a, b]
  {
    var w := Join(a, b);
    assert w.keep == Mask(2 * n, n + c);
    LoadMask(w, 2 * n, n + c);
    LoadMask(a, n, n);
    LoadMask(b, n, c);
    assert w.data[..n + c] == a.data + b.data[..c];
    assert KeepBit(w.keep, n);
    assert Low(n, w) == Word(a.data, a.keep, false);
    assert High(n, w) == b;
  }

  lemma TailJoin(n: nat, a: Word, b: Word)
    requires n >= 1 && IsFull(a, n) && b.last && IsTail(b, n)
    ensures IsPacket([Join(a, b)], 2 * n) && Bytes([Join(a, b)]) == Load(a) + Load(b)
  {
    var c := TailLoad(b, n);
    JoinLoad(n, a, b, c);
    LoadMask(Join(a, b), 2 * n, n + c);
    TailPacket(Join(a, b), 2 * n);
  }

  lemma FullJoin(n: nat, a: Word, b: Word)
    requires n >= 1 && IsFull(a, n) && IsFull(b, n) && !b.last
    ensures IsFull(Join(a, b), 2 * n) && !Join(a, b).last && Load(Join(a, b)) == Load(a) + Load(b)
  {
    JoinLoad(n, a, b, n);
    LoadMask(Join(a, b), 2 * n, 2 * n);
  }

  lemma PairBytes(p: seq<Word>)
    requires |p| >= 2
    ensures Bytes(p) == (Load(p[0]) + Load(p[1])) + Bytes(p[2..])
  {
    assert p[1..][1..] == p[2..];
    hide Load;
    assert Bytes(p) == Load(p[0]) + (Load(p[1]) + Bytes(p[2..]));
  }

  lemma PairWords(p: seq<Word>, n: nat)
    requires |p| >= 2 && IsPacket(p, n)
    ensures IsFull(p[0], n) && (if |p| == 2 then p[1].last && IsTail(p[1], n)
                                else !p[1].last && IsFull(p[1], n) && IsPacket(p[2..], n))
  {
    hide IsFull, IsTail;
    assert p[1..][1..] == p[2..] && p[1..][0] == p[1] && IsPacket(p[1..], n);
  }

  /** Joining the words of a packet gives a packet with the same bytes. */
  lemma {:induction false} JoinedPacket(n: nat, p: seq<Word>)
    requires n >= 1 && IsPacket(p, n)
    ensures IsPacket(Joined(n, p), 2 * n) && Bytes(Joined(n, p)) == Bytes(p)
    decreases |p|
  {
    if |p| == 1 {
      AloneTail(n, p[0]);
      TailPacket(Alone(n, p[0]), 2 * n);
      assert p == [p[0]];
      OneWord(p[0]);
    } else {
      PairBytes(p);
      PairWords(p, n);
      var w, q := Join(p[0], p[1]), Joined(n, p[2..]);
      assert Joined(n, p) == [w] + q;
      if |p| == 2 {
        assert q == [] && [w] + q == [w] && Bytes(p[2..]) == [];
        TailJoin(n, p[0], p[1]);
      } else {
        hide IsPacket, Bytes, Join, IsFull, IsTail;
        FullJoin(n, p[0], p[1]);
        JoinedPacket(n, p[2..]);
        ConsWord(w, q, 2 * n);
      }
    }
  }

  /** Taking the joined words of a packet apart gives exactly its words back. */
  lemma {:induction false} PartedJoined(n: nat, p: seq<Word>)
    requires n >= 1 && IsPacket(p, n)
    ensures Parted(n, Joined(n, p)) == p
    decreases |p|
  {
    var q := Joined(n, p);
    if |p| == 1 {
      AloneTail(n, p[0]);
      assert q[1..] == [] && Parted(n, []) == [];
    } else {
      assert q[1..] == Joined(n, p[2..]);
      if |p| == 2 {
        var c := TailLoad(p[1], n);
        JoinLoad(n, p[0], p[1], c);
      } else {
        assert p[1..][1..] == p[2..];
        JoinLoad(n, p[0], p[1], n);
        PartedJoined(n, p[2..]);
      }
      assert [p[0], p[1]] + p[2..] == p;
    }
  }

  lemma HalvesFull(n: nat, w: Word)
    requires n >= 1 && IsFull(w, 2 * n) && !w.last
    ensures Halves(n, w) == [Low(n, w), High(n, w)]
    ensures IsFull(Low(n, w), n) && !Low(n, w).last && IsFull(High(n, w), n) && !High(n, w).last
    ensures Load(Low(n, w)) + Load(High(n, w)) == Load(w)
  {
    LoadMask(w, 2 * n, 2 * n);
    var a, b := Low(n, w), High(n, w);
    assert a.keep == Mask(n, n) && b.keep == Mask(n, n);
    LoadMask(a, n, n);
    LoadMask(b, n, n);
    assert a.data + b.data == w.data;
  }

  lemma HalvesTail(n: nat, w: Word)
    requires n >= 1 && IsTail(w, 2 * n) && w.last
    ensures IsPacket(Halves(n, w), n) && Bytes(Halves(n, w)) == Load(w)
  {
    var c := TailLoad(w, 2 * n);
    var a, b := Low(n, w), High(n, w);
    if c <= n {
      assert a.keep == Mask(n, c);
      LoadMask(a, n, c);
      TailPacket(a, n);
      assert a.data[..c] == w.data[..c];
    } else {
      assert a.keep == Mask(n, n) && b.keep == Mask(n, c - n);
      LoadMask(a, n, n);
      LoadMask(b, n, c - n);
      TwoWords(a, b, n);
      assert a.data + b.data[..c - n] == w.data[..c];
    }
  }

  lemma HalvesCons(n: nat, w: Word, q: seq<Word>)
    requires n >= 1 && IsFull(w, 2 * n) && !w.last && IsPacket(q, n)
    ensures IsPacket(Halves(n, w) + q, n) && Bytes(Halves(n, w) + q) == Load(w) + Bytes(q)
  {
    HalvesFull(n, w);
    var a, b := Low(n, w), High(n, w);
    hide *;
    ConsWord(b, q, n);
    ConsWord(a, [b] + q, n);
    assert [a, b] + q == [a] + ([b] + q);
  }

  lemma PartedOne(n: nat, w: Word)
    ensures Parted(n, [w]) == Halves(n, w)
  {
    assert [w][1..] == [];
  }

  /** Taking the words of a packet apart gives a packet with the same bytes. */
  lemma {:induction false} PartedPacket(n: nat, p: seq<Word>)
    requires n >= 1 && IsPacket(p, 2 * n)
    ensures IsPacket(Parted(n, p), n) && Bytes(Parted(n, p)) == Bytes(p)
    decreases |p|
  {
    if |p| == 1 {
      assert p == [p[0]];
      HalvesTail(n, p[0]);
      hide Halves, Bytes, IsPacket;
      OneWord(p[0]);
      PartedOne(n, p[0]);
    } else {
      hide Halves, IsFull;
      PartedPacket(n, p[1..]);
      HalvesCons(n, p[0], Parted(n, p[1..]));
    }
  }

  // Runs

  lemma DoubleCons(n: nat, s: Doubler, cur: Word, rest: seq<Word>)
    ensures DoubleRun(n, s, [cur] + rest)
            == Prepend(DoubleStep(n, s, [cur]).out, DoubleRun(n, DoubleStep(n, s, [cur]).s, rest))
  {
    assert ([cur] + rest)[1..] == rest && [cur][0] == ([cur] + rest)[0];
  }

  /** Two words that are not the end of a packet, or only the second of which is. */
  lemma DoublePair(n: nat, s: Doubler, a: Word, b: Word, rest: seq<Word>) returns (t: Doubler)
    requires !s.even && HasWidth(s.temp, 2 * n) && HasWidth(a, n) && HasWidth(b, n) && !a.last
    ensures !t.even && HasWidth(t.temp, 2 * n)
    ensures DoubleRun(n, s, [a] + ([b] + rest)) == Prepend([Join(a, b)], DoubleRun(n, t, rest))
  {
    DoubleCons(n, s, a, [b] + rest);
    var f := DoubleStep(n, s, [a]);
    DoubleCons(n, f.s, b, rest);
    t := DoubleStep(n, f.s, [b]).s;
    assert DoubleStep(n, f.s, [b]).out == [Join(a, b)];
    hide DoubleStep, DoubleRun;
    PrependConcat([], [Join(a, b)], DoubleRun(n, t, rest));
  }

  lemma DoubleAlone(n: nat, s: Doubler, a: Word, rest: seq<Word>) returns (t: Doubler)
    requires !s.even && HasWidth(s.temp, 2 * n) && HasWidth(a, n) && a.last
    ensures !t.even && HasWidth(t.temp, 2 * n)
    ensures DoubleRun(n, s, [a] + rest) == Prepend([Alone(n, a)], DoubleRun(n, t, rest))
  {
    DoubleCons(n, s, a, rest);
    t := DoubleStep(n, s, [a]).s;
  }

  /** One packet through the doubler: its words joined, and the state as it was before. */
  lemma {:induction false} DoublePacket(n: nat, s: Doubler, p: seq<Word>, rest: seq<Word>) returns (t: Doubler)
    requires n >= 1 && !s.even && HasWidth(s.temp, 2 * n) && IsPacket(p, n)
    ensures !t.even && HasWidth(t.temp, 2 * n)
    ensures DoubleRun(n, s, p + rest) == Prepend(Joined(n, p), DoubleRun(n, t, rest))
    decreases |p|
  {
    hide DoubleRun;
    if |p| == 1 {
      assert p == [p[0]];
      t := DoubleAlone(n, s, p[0], rest);
    } else {
      var a, b := p[0], p[1];
      assert p + rest == [a] + ([b] + (p[2..] + rest));
      var mid := DoublePair(n, s, a, b, p[2..] + rest);
      if |p| == 2 {
        t := mid;
        assert p[2..] + rest == rest && Joined(n, p) == [Join(a, b)] + Joined(n, []);
      } else {
        assert p[1..][1..] == p[2..];
        t := DoublePacket(n, mid, p[2..], rest);
        PrependConcat([Join(a, b)], Joined(n, p[2..]), DoubleRun(n, t, rest));
      }
    }
  }

  lemma HalfWord(n: nat, s: Halver, w: Word, rest: seq<Word>) returns (t: Halver)
    requires !s.second
    ensures !t.second && HalfRun(n, s, [w] + rest) == Prepend(Halves(n, w), HalfRun(n, t, rest))
  {
    assert ([w] + rest)[1..] == rest;
    t := Halver(false, w);
    var both := HalfRun(n, Halver(KeepBit(w.keep, n), w), rest);
    assert HalfRun(n, s, [w] + rest) == Prepend([Low(n, w)], both);
    if KeepBit(w.keep, n) {
      assert both == Prepend([High(n, w)], HalfRun(n, t, rest));
      PrependConcat([Low(n, w)], [High(n, w)], HalfRun(n, t, rest));
    }
  }

  /** Words through the halver: each in two halves, or one, and the state as it was before. */
  lemma {:induction false} HalfWords(n: nat, s: Halver, p: seq<Word>, rest: seq<Word>) returns (t: Halver)
    requires !s.second
    ensures !t.second && HalfRun(n, s, p + rest) == Prepend(Parted(n, p), HalfRun(n, t, rest))
    decreases |p|
  {
    if p == [] {
      t := s;
      assert p + rest == rest;
      assert Prepend([], HalfRun(n, s, rest)) == HalfRun(n, s, rest);
    } else {
      hide HalfRun, Halves;
      assert p + rest == [p[0]] + (p[1..] + rest);
      var mid := HalfWord(n, s, p[0], p[1..] + rest);
      t := HalfWords(n, mid, p[1..], rest);
      PrependConcat(Halves(n, p[0]), Parted(n, p[1..]), HalfRun(n, t, rest));
    }
  }

  // Whole streams

  function JoinedAll(n: nat, ps: seq<seq<Word>>): seq<seq<Word>> {
    seq(|ps|, i requires 0 <= i < |ps| => Joined(n, ps[i]))
  }

  function PartedAll(n: nat, ps: seq<seq<Word>>): seq<seq<Word>> {
    seq(|ps|, i requires 0 <= i < |ps| => Parted(n, ps[i]))
  }

  lemma {:induction false} DoubleStream(n: nat, s: Doubler, ps: seq<seq<Word>>)
    requires n >= 1 && !s.even && HasWidth(s.temp, 2 * n) && AllPackets(ps, n)
    ensures DoubleRun(n, s, Flatten(ps)).out == Flatten(JoinedAll(n, ps)) && !DoubleRun(n, s, Flatten(ps)).s.even
    decreases |ps|
  {
    if ps != [] {
      var t := DoublePacket(n, s, ps[0], Flatten(ps[1..]));
      hide DoubleRun, Joined, IsPacket;
      DoubleStream(n, t, ps[1..]);
      assert JoinedAll(n, ps)[1..] == JoinedAll(n, ps[1..]);
    }
  }

  lemma {:induction false} HalfStream(n: nat, s: Halver, ps: seq<seq<Word>>)
    requires !s.second
    ensures HalfRun(n, s, Flatten(ps)).out == Flatten(PartedAll(n, ps)) && !HalfRun(n, s, Flatten(ps)).s.second
    decreases |ps|
  {
    if ps != [] {
      var t := HalfWords(n, s, ps[0], Flatten(ps[1..]));
      hide HalfRun, Parted;
      HalfStream(n, t, ps[1..]);
      assert PartedAll(n, ps)[1..] == PartedAll(n, ps[1..]);
    }
  }

  /** Doubling keeps every packet and its bytes. */
  lemma DoublePackets(n: nat, ps: seq<seq<Word>>)
    requires n >= 1 && AllPackets(ps, n)
    ensures var qs := Frames(Double(n, Flatten(ps)));
            Flatten(qs) == Double(n, Flatten(ps)) && qs == JoinedAll(n, ps) && AllPackets(qs, 2 * n) && Payloads(qs) == Payloads(ps)
  {
    DoubleStream(n, Doubler(false, Word(Zeros(2 * n), Mask(2 * n, 0), false)), ps);
    var qs := JoinedAll(n, ps);
    forall i | 0 <= i < |ps| ensures IsPacket(qs[i], 2 * n) && Bytes(qs[i]) == Bytes(ps[i]) {
      JoinedPacket(n, ps[i]);
    }
    PacketsAreFrames(qs, 2 * n);
    assert Payloads(qs) == Payloads(ps);
  }

  /** Halving keeps every packet and its bytes. */
  lemma HalfPackets(n: nat, ps: seq<seq<Word>>)
    requires n >= 1 && AllPackets(ps, 2 * n)
    ensures var qs := Frames(Half(n, Flatten(ps)));
            Flatten(qs) == Half(n, Flatten(ps)) && qs == PartedAll(n, ps) && AllPackets(qs, n) && Payloads(qs) == Payloads(ps)
  {
    HalfStream(n, Halver(false, Word([], [], false)), ps);
    var qs := PartedAll(n, ps);
    forall i | 0 <= i < |ps| ensures IsPacket(qs[i], n) && Bytes(qs[i]) == Bytes(ps[i]) {
      PartedPacket(n, ps[i]);
    }
    PacketsAreFrames(qs, n);
    assert Payloads(qs) == Payloads(ps);
  }

  /** Doubling and then halving gives back every word exactly. */
  lemma HalfOfDouble(n: nat, ps: seq<seq<Word>>)
    requires n >= 1 && AllPackets(ps, n)
    ensures Half(n, Double(n, Flatten(ps))) == Flatten(ps)
  {
    DoublePackets(n, ps);
    HalfStream(n, Halver(false, Word([], [], false)), JoinedAll(n, ps));
    var rs := PartedAll(n, JoinedAll(n, ps));
    forall i | 0 <= i < |ps| ensures rs[i] == ps[i] {
      PartedJoined(n, ps[i]);
    }
    assert rs == ps;
  }

  /** Halving and then doubling gives back every packet, up to the bytes under cleared keep bits. */
  lemma DoubleOfHalf(n: nat, ps: seq<seq<Word>>)
    requires n >= 1 && AllPackets(ps, 2 * n)
    ensures var rs := Frames(Double(n, Half(n, Flatten(ps))));
            && Flatten(rs) == Double(n, Half(n, Flatten(ps))) && AllPackets(rs, 2 * n)
            && |rs| == |ps| && forall i :: 0 <= i < |ps| ==> SameWords(rs[i], ps[i])
  {
    HalfPackets(n, ps);
    var qs := PartedAll(n, ps);
    DoublePackets(n, qs);
    var rs := JoinedAll(n, qs);
    assert |Payloads(rs)| == |rs|;
    forall i | 0 <= i < |ps| ensures SameWords(rs[i], ps[i]) {
      assert Payloads(rs)[i] == Payloads(ps)[i];
      SameBytesSameWords(rs[i], ps[i], 2 * n);
    }
  }

  // The converters as the code runs them

  class DoubleWidth {
    const n: nat
    var even: nat
    var temp: Word

    constructor (n: nat)
      ensures this.n == n && Valid() && View() == Doubler(false, Word(Zeros(2 * n), Mask(2 * n, 0), false))
    {
      this.n := n;
      even, temp := 0, Word(Zeros(2 * n), Mask(2 * n, 0), false);
    }

    predicate Valid()
      reads this
    {
      even < 2 && HasWidth(temp, 2 * n)
    }

    function View(): Doubler
      reads this
    {
      Doubler(even == 1, temp)
    }

    method Call(input: Stream<Word>, output: Stream<Word>)
      requires Valid() && input != output && (input.items != [] ==> HasWidth(input.items[0], n))
      modifies this, input, output
      ensures Valid()
      ensures if old(input.items) != [] then
                var f := old(DoubleStep(n, View(), input.items));
                View() == f.s && input.items == f.data && output.items == old(output.items) + f.out
              else View() == old(View()) && input.items == [] && output.items == old(output.items)
    {
      if input.items != [] {
        var currWord := input.Read();
        if even == 0 {
          temp := Word(currWord.data + temp.data[n..], currWord.keep + Mask(n, 0), currWord.last);
          even := 1;
          if currWord.last {
            temp := Word(temp.data[..n] + Zeros(n), temp.keep[..n] + Mask(n, 0), temp.last);
            even := 0;
            output.Write(temp);
          }
        } else {
          temp := Word(temp.data[..n] + currWord.data, temp.keep[..n] + currWord.keep, currWord.last);
          output.Write(temp);
          even := 0;
        }
      }
    }
  }

  class HalfWidth {
    const n: nat
    var fsmSecond: bool
    var currWord: Word

    constructor (n: nat)
      ensures this.n == n && View() == Halver(false, Word([], [], false))
    {
      this.n := n;
      fsmSecond, currWord := false, Word([], [], false);
    }

    function View(): Halver
      reads this
    {
      Halver(fsmSecond, currWord)
    }

    method Call(input: Stream<Word>, output: Stream<Word>)
      requires input != output
      modifies this, input, output
      ensures if old(HalfReady(View(), input.items)) then
                var f := old(HalfStep(n, View(), input.items));
                View() == f.s && input.items == f.data && output.items == old(output.items) + f.out
              else View() == old(View()) && input.items == old(input.items) && output.items == old(output.items)
    {
      if !fsmSecond {
        if input.items != [] {
          currWord := input.Read();
          output.Write(Word(Part(currWord.data, 0, n), Part(currWord.keep, 0, n), !KeepBit(currWord.keep, n)));
          if KeepBit(currWord.keep, n) {
            fsmSecond := true;
          }
        }
      } else {
        output.Write(Word(Part(currWord.data, n, 2 * n), Part(currWord.keep, n, 2 * n), currWord.last));
        fsmSecond := false;
      }
    }
  }
}
