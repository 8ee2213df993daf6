/** The Ethernet frame padder: frames are filled up to 60 bytes, which with the four bytes of the frame check
    sequence make the minimum frame of sections 4.2.3.3 and 4.4.2 of IEEE 802.3.  Words are eight bytes. */
module Padding {
  import opened Axis
  import opened Runs
  import opened Streams

  /** `pad` is the state in which padding words are sent; `count` is the eight-bit word counter. */
  datatype State = State(pad: bool, count: nat)

  /** An eight-bit count. */
  function Count8(x: nat): (r: nat)
    ensures r < 256
  {
    x % 256
  }

  predicate Ready(s: State, data: seq<Word>) {
    s.pad || data != []
  }

  /** The keep bits read as a number. */
  function KeepValue(keep: seq<bool>): nat {
    if keep == [] then 0 else (if keep[0] then 1 else 0) + 2 * KeepValue(keep[1..])
  }

  /** The last word of a frame as word number `count`. */
  function EndWord(w: Word, count: nat): Word {
    if count < 8 then Word(w.data, Mask(8, 8), false)
    else if count == 8 && KeepValue(w.keep) < 0xF then Word(w.data, Mask(8, 4), w.last)
    else w
  }

  /** Padding word number `count`. */
  function PadWord(count: nat): Word {
    Word(Zeros(8), Mask(8, if count == 8 then 4 else 8), count == 8)
  }

  function Step(s: State, data: seq<Word>): Fired<State>
    requires Ready(s, data)
  {
    var count := Count8(s.count + 1);
    if s.pad then Fired(if count == 8 then State(false, 0) else State(true, count), data, [PadWord(count)])
    else
      var cur := data[0];
      if !cur.last then Fired(State(false, count), data[1..], [cur])
      else Fired(if count < 8 then State(true, count) else State(false, 0), data[1..], [EndWord(cur, count)])
  }

  /** Calls until the padder waits for input. */
  function Run(s: State, data: seq<Word>): Outcome<State>
    requires s.pad ==> s.count < 8
    decreases 10 * |data| + (if s.pad then 8 - s.count else 0)
  {
    if !Ready(s, data) then Outcome([], s)
    else
      var f := Step(s, data);
      Prepend(f.out, Run(f.s, f.data))
  }

  /** What a whole stream becomes, from the state the padder starts in. */
  function Pad(ws: seq<Word>): seq<Word> {
    Run(State(false, 0), ws).out
  }

  // What a frame becomes

  /** The padding words after word number `count`. */
  function PadWords(count: nat): seq<Word>
    requires count < 8
    decreases 8 - count
  {
    [PadWord(count + 1)] + if count == 7 then [] else PadWords(count + 1)
  }

  function EndWords(w: Word, count: nat): seq<Word> {
    [EndWord(w, count)] + if count < 8 then PadWords(count) else []
  }

  /** The frame, when `count` words of it have already passed. */
  function Padded(count: nat, p: seq<Word>): seq<Word>
    decreases |p|
  {
    var count' := Count8(count + 1);
    if p == [] then []
    else if |p| == 1 then EndWords(p[0], count')
    else [p[0]] + Padded(count', p[1..])
  }

  lemma PadStep(count: nat, rest: seq<Word>)
    requires count < 8
    ensures Run(State(true, count), rest)
            == Prepend([PadWord(count + 1)], Run(if count == 7 then State(false, 0) else State(true, count + 1), rest))
  {
    hide PadWord;
    assert Count8(count + 1) == count + 1;
    assert Step(State(true, count), rest)
        == Fired(if count == 7 then State(false, 0) else State(true, count + 1), rest, [PadWord(count + 1)]);
    hide Step;
  }

  lemma {:induction false} PadRun(count: nat, rest: seq<Word>)
    requires count < 8
    ensures Run(State(true, count), rest) == Prepend(PadWords(count), Run(State(false, 0), rest))
    decreases 8 - count
  {
    hide Run, PadWord;
    var w := PadWord(count + 1);
    PadStep(count, rest);
    if count == 7 {
      assert PadWords(7) == [w] + [];
    } else {
      PadRun(count + 1, rest);
      PrependConcat([w], PadWords(count + 1), Run(State(false, 0), rest));
    }
  }

  lemma EndRun(count: nat, w: Word, rest: seq<Word>)
    requires w.last
    ensures Run(State(false, count), [w] + rest) == Prepend(EndWords(w, Count8(count + 1)), Run(State(false, 0), rest))
  {
    var count' := Count8(count + 1);
    assert ([w] + rest)[1..] == rest;
    if count' < 8 {
      PadRun(count', rest);
      PrependConcat([EndWord(w, count')], PadWords(count'), Run(State(false, 0), rest));
    } else {
      assert EndWords(w, count') == [EndWord(w, count')];
    }
  }

  /** One frame through the padder, which is then as it was before the frame. */
  lemma {:induction false} FrameRun(count: nat, p: seq<Word>, rest: seq<Word>)
    requires IsFrame(p)
    ensures Run(State(false, count), p + rest) == Prepend(Padded(count, p), Run(State(false, 0), rest))
    decreases |p|
  {
    var w := p[0];
    if |p| == 1 {
      assert p == [w];
      EndRun(count, w, rest);
    } else {
      assert (p + rest)[1..] == p[1..] + rest;
      var count' := Count8(count + 1);
      FrameRun(count', p[1..], rest);
      hide EndWords;
      PrependConcat([w], Padded(count', p[1..]), Run(State(false, 0), rest));
    }
  }

  // The bytes of a padded frame

  function Ones(c: nat): nat {
    if c == 0 then 0 else 1 + 2 * Ones(c - 1)
  }

  lemma {:induction false} MaskValue(n: nat, c: nat)
    requires c <= n
    ensures KeepValue(Mask(n, c)) == Ones(c)
  {
    if n > 0 {
      var rest := if c == 0 then 0 else c - 1;
      assert Mask(n, c)[1..] == Mask(n - 1, rest);
      MaskValue(n - 1, rest);
    }
  }

  lemma {:induction false} OnesGrow(c: nat)
    ensures Ones(c) >= c && (Ones(c) < 0xF <==> c < 4)
  {
    if c > 4 {
      OnesGrow(c - 1);
    } else {
      assert Ones(1) == 1 && Ones(2) == 3 && Ones(3) == 7 && Ones(4) == 15;
    }
  }

  /** The number of bytes that the padding words after word number `count` bring. */
  function PadSize(count: nat): nat
    requires count < 8
  {
    8 * (8 - count) - 4
  }

  lemma PadWordLoad(count: nat)
    requires 1 <= count <= 8
    ensures var w := PadWord(count);
            if count == 8 then w.last && IsTail(w, 8) && Load(w) == Zeros(4)
            else !w.last && IsFull(w, 8) && Load(w) == Zeros(8)
  {
    LoadMask(PadWord(count), 8, if count == 8 then 4 else 8);
  }

  lemma {:induction false} PadWordsLoad(count: nat)
    requires count < 8
    ensures IsPacket(PadWords(count), 8) && Bytes(PadWords(count)) == Zeros(PadSize(count))
    decreases 8 - count
  {
    var w := PadWord(count + 1);
    PadWordLoad(count + 1);
    hide IsPacket, IsTail, IsFull, PadWord, Bytes, Load;
    if count == 7 {
      TailPacket(w, 8);
      assert PadWords(7) == [w];
    } else {
      PadWordsLoad(count + 1);
      ConsWord(w, PadWords(count + 1), 8);
    }
  }

  /** What follows the kept bytes of a last word of `c` bytes that is word number `count`: first bytes the word
      already carried without keeping them, then zeros. */
  function Filler(w: Word, c: nat, count: nat): seq<Byte> {
    if count < 8 then Part(w.data, c, 8) + Zeros(PadSize(count))
    else if count == 8 && c < 4 then Part(w.data, c, 4)
    else []
  }

  /** The last word of a frame, with the bytes it keeps. */
  predicate Ends(w: Word, c: nat) {
    w.last && HasWidth(w, 8) && 1 <= c <= 8 && w.keep == Mask(8, c)
  }

  lemma EndPadded(w: Word, count: nat, c: nat)
    requires Ends(w, c) && count < 8
    ensures IsPacket(EndWords(w, count), 8) && Bytes(EndWords(w, count)) == w.data + Zeros(PadSize(count))
  {
    var e := EndWord(w, count);
    LoadMask(e, 8, 8);
    PadWordsLoad(count);
    hide IsPacket, PadWords;
    ConsWord(e, PadWords(count), 8);
  }

  lemma EndOne(w: Word, count: nat, c: nat)
    requires Ends(w, c) && count >= 8
    ensures IsPacket(EndWords(w, count), 8)
    ensures Bytes(EndWords(w, count)) == w.data[..if count == 8 && c < 4 then 4 else c]
  {
    var e := EndWord(w, count);
    MaskValue(8, c);
    OnesGrow(c);
    LoadMask(e, 8, if count == 8 && c < 4 then 4 else c);
    TailPacket(e, 8);
    assert EndWords(w, count) == [e];
  }

  lemma EndLoad(w: Word, count: nat, c: nat)
    requires Ends(w, c)
    ensures IsPacket(EndWords(w, count), 8)
    ensures Bytes(EndWords(w, count)) == w.data[..c] + Filler(w, c, count)
  {
    if count < 8 {
      EndPadded(w, count, c);
      assert w.data == w.data[..c] + w.data[c..];
    } else {
      EndOne(w, count, c);
      if count == 8 && c < 4 {
        assert w.data[..4] == w.data[..c] + w.data[c..4];
      }
    }
    hide EndWords, IsPacket, Bytes;
  }

  /** The last word of a packet, and how many bytes it keeps. */
  lemma {:induction false} LastWord(p: seq<Word>) returns (c: nat)
    requires IsPacket(p, 8)
    ensures Ends(p[|p| - 1], c) && |Load(p[|p| - 1])| == c
    ensures |Bytes(p)| == 8 * (|p| - 1) + c
    decreases |p|
  {
    PacketNonEmpty(p, 8);
    if |p| == 1 {
      c := TailLoad(p[0], 8);
    } else {
      c := LastWord(p[1..]);
      assert p[1..][|p| - 2] == p[|p| - 1];
    }
  }

  /** A padded packet is a packet: all its bytes, then the filler. */
  lemma {:induction false} PaddedLoad(count: nat, p: seq<Word>, w: Word, c: nat, total: nat)
    requires IsPacket(p, 8) && w == p[|p| - 1] && Ends(w, c) && total == Count8(count + |p|)
    ensures IsPacket(Padded(count, p), 8) && Bytes(Padded(count, p)) == Bytes(p) + Filler(w, c, total)
    decreases |p|
  {
    hide Ends, Count8, Filler, Padded, Bytes;
    if |p| == 1 {
      assert p == [w];
      SingleWord(count, w, c);
    } else {
      LaterWord(count, p);
      CountOn(count, |p|);
      PaddedLoad(Count8(count + 1), p[1..], w, c, total);
      hide IsPacket;
      LongerPacket(p[0], Padded(Count8(count + 1), p[1..]), Bytes(p[1..]), Filler(w, c, total));
    }
  }

  lemma LongerPacket(w: Word, q: seq<Word>, b: seq<Byte>, fill: seq<Byte>)
    requires IsFull(w, 8) && !w.last && IsPacket(q, 8) && Bytes(q) == b + fill
    ensures IsPacket([w] + q, 8) && Bytes([w] + q) == (Load(w) + b) + fill
  {
    ConsWord(w, q, 8);
    hide *;
    Append(Load(w), b, fill);
  }

  lemma SingleWord(count: nat, w: Word, c: nat)
    requires Ends(w, c)
    ensures IsPacket(Padded(count, [w]), 8)
    ensures Bytes(Padded(count, [w])) == Bytes([w]) + Filler(w, c, Count8(count + 1))
  {
    LoadMask(w, 8, c);
    EndLoad(w, Count8(count + 1), c);
    hide Filler, EndWords, IsPacket;
    OneWord(w);
  }

  lemma LaterWord(count: nat, p: seq<Word>)
    requires |p| > 1 && IsPacket(p, 8)
    ensures Padded(count, p) == [p[0]] + Padded(Count8(count + 1), p[1..])
    ensures IsFull(p[0], 8) && !p[0].last && IsPacket(p[1..], 8) && Bytes(p) == Load(p[0]) + Bytes(p[1..])
  {
    hide IsFull, EndWords, Load;
  }

  lemma CountOn(count: nat, words: nat)
    requires words >= 1
    ensures Count8(Count8(count + 1) + (words - 1)) == Count8(count + words)
  {
  }

  lemma Append(a: seq<Byte>, b: seq<Byte>, c: seq<Byte>)
    ensures a + (b + c) == (a + b) + c && a <= a + b
  {
  }

  // Main results

  /** The frames that the eight-bit counter does not mistake for short ones. */
  predicate Countable(p: seq<Word>) {
    p != [] && (|p| <= 255 || Count8(|p|) > 8 || (Count8(|p|) == 8 && |Load(p[|p| - 1])| >= 4))
  }

  /** One frame: it stays well formed and starts with its own bytes, whatever its length; it gets the length it needs
      exactly when the counter does not mistake it. */
  lemma PadFrame(p: seq<Word>)
    requires IsPacket(p, 8)
    ensures var q := Padded(0, p);
            && IsPacket(q, 8) && Bytes(p) <= Bytes(q)
            && (|Bytes(q)| == (if |Bytes(p)| < 60 then 60 else |Bytes(p)|) <==> Countable(p))
            && (|p| % 256 > 8 ==> SameWords(q, p))
            && (|p| < 8 ==>
                  var w := p[|p| - 1];
                  Bytes(q) == Bytes(p) + (Part(w.data, |Load(w)|, 8) + Zeros(60 - 8 * |p|)))
  {
    assert Count8(|p|) == |p| % 256;
    var fill := PadBytes(p);
    var q := Padded(0, p);
    hide *;
    Append(Bytes(p), fill, []);
    if Count8(|p|) > 8 {
      assert Bytes(p) + [] == Bytes(p);
      SameBytesSameWords(q, p, 8);
    }
  }

  /** What comes after the bytes of the frame. */
  lemma PadBytes(p: seq<Word>) returns (fill: seq<Byte>)
    requires IsPacket(p, 8)
    ensures IsPacket(Padded(0, p), 8) && Bytes(Padded(0, p)) == Bytes(p) + fill
    ensures |Bytes(p)| + |fill| == (if |Bytes(p)| < 60 then 60 else |Bytes(p)|) <==> Countable(p)
    ensures Count8(|p|) > 8 ==> fill == []
    ensures |p| < 8 ==> fill == Part(p[|p| - 1].data, |Load(p[|p| - 1])|, 8) + Zeros(60 - 8 * |p|)
  {
    var c := LastWord(p);
    var count, w := Count8(|p|), p[|p| - 1];
    fill := Filler(w, c, count);
    FillerSize(w, c, count);
    LengthNeeded(|p|, c);
    assert count > 8 ==> fill == [];
    assert |p| < 8 ==> count == |p| && PadSize(count) == 60 - 8 * |p|;
    assert Countable(p) <==> |p| <= 255 || count > 8 || (count == 8 && c >= 4);
    hide *;
    PaddedLoad(0, p, w, c, count);
  }

  function FillSize(c: nat, count: nat): int {
    if count < 8 then 8 - c + PadSize(count) else if count == 8 && c < 4 then 4 - c else 0
  }

  lemma FillerSize(w: Word, c: nat, count: nat)
    requires Ends(w, c)
    ensures |Filler(w, c, count)| == FillSize(c, count)
  {
  }

  lemma LengthNeeded(words: nat, c: nat)
    requires words >= 1 && 1 <= c <= 8
    ensures var len, count := 8 * (words - 1) + c, Count8(words);
            len + FillSize(c, count) == (if len < 60 then 60 else len) <==> words <= 255 || count > 8 || (count == 8 && c >= 4)
  {
  }

  function PaddedAll(ps: seq<seq<Word>>): seq<seq<Word>> {
    seq(|ps|, i requires 0 <= i < |ps| => Padded(0, ps[i]))
  }

  lemma {:induction false} PadStream(ps: seq<seq<Word>>)
    requires forall i :: 0 <= i < |ps| ==> IsFrame(ps[i])
    ensures Run(State(false, 0), Flatten(ps)) == Outcome(Flatten(PaddedAll(ps)), State(false, 0))
    decreases |ps|
  {
    if ps != [] {
      FrameRun(0, ps[0], Flatten(ps[1..]));
      hide Run, Padded, IsFrame;
      PadStream(ps[1..]);
      assert PaddedAll(ps)[1..] == PaddedAll(ps[1..]);
    }
  }

  /** For every sequence of well-formed frames: one well-formed frame each, that starts with the bytes of its input
      and has as many bytes as needed exactly when the counter does not mistake it; frames of up to 255 words
      always get that length. */
  lemma PadFrames(ps: seq<seq<Word>>)
    requires AllPackets(ps, 8)
    ensures var qs := Frames(Pad(Flatten(ps)));
            && Flatten(qs) == Pad(Flatten(ps)) && AllPackets(qs, 8) && |qs| == |ps|
            && (forall i :: 0 <= i < |ps| ==> Bytes(ps[i]) <= Bytes(qs[i]))
            && (forall i :: 0 <= i < |ps| ==> (|Bytes(qs[i])| == (if |Bytes(ps[i])| < 60 then 60 else |Bytes(ps[i])|) <==> Countable(ps[i])))
            && (forall i :: 0 <= i < |ps| && |ps[i]| <= 255 ==> |Bytes(qs[i])| == (if |Bytes(ps[i])| < 60 then 60 else |Bytes(ps[i])|))
  {
    forall i | 0 <= i < |ps| ensures IsFrame(ps[i]) {
      PacketIsFrame(ps[i], 8);
    }
    PadStream(ps);
    var qs := PaddedAll(ps);
    hide Padded;
    forall i | 0 <= i < |ps|
      ensures IsPacket(qs[i], 8) && Bytes(ps[i]) <= Bytes(qs[i]) && (|Bytes(qs[i])| == (if |Bytes(ps[i])| < 60 then 60 else |Bytes(ps[i])|) <==> Countable(ps[i]))
    {
      PadFrame(ps[i]);
    }
    PacketsAreFrames(qs, 8);
  }

  // The padder as the code runs it

  class FramePadder {
    var state: nat
    var wordCounter: nat

    constructor ()
      ensures Valid() && View() == State(false, 0)
    {
      state, wordCounter := 0, 0;
    }

    predicate Valid()
      reads this
    {
      state < 2 && wordCounter < 256 && (state == 1 ==> wordCounter < 8)
    }

    function View(): State
      reads this
    {
      State(state == 1, wordCounter)
    }

    method Call(dataIn: Stream<Word>, dataOut: Stream<Word>)
      requires Valid() && dataIn != dataOut
      modifies this, dataIn, dataOut
      ensures Valid()
      ensures if old(Ready(View(), dataIn.items)) then
                var f := old(Step(View(), dataIn.items));
                View() == f.s && dataIn.items == f.data && dataOut.items == old(dataOut.items) + f.out
              else View() == old(View()) && dataIn.items == old(dataIn.items) && dataOut.items == old(dataOut.items)
    {
      if state == 0 {
        if dataIn.items != [] {
          var sendWord := dataIn.Read();
          wordCounter := (wordCounter + 1) % 256;
          if sendWord.last {
            if wordCounter < 8 {
              sendWord := sendWord.(keep := Mask(8, 8), last := false);
              state := 1;
            } else {
              if wordCounter == 8 && KeepValue(sendWord.keep) < 0xF {
                sendWord := sendWord.(keep := Mask(8, 4));
              }
              wordCounter := 0;
            }
          }
          dataOut.Write(sendWord);
        }
      } else {
        var sendWord := Word(Zeros(8), Mask(8, 8), false);
        wordCounter := (wordCounter + 1) % 256;
        if wordCounter == 8 {
          sendWord := sendWord.(keep := Mask(8, 4), last := true);
          wordCounter := 0;
          state := 0;
        }
        dataOut.Write(sendWord);
      }
    }
  }
}
