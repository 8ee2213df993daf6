/** Store-and-forward towards the Ethernet MAC: a write machine counts whole frames into a token queue, a read
    machine starts a frame only when a token says that all of it is in the data queue.  The two queues are ideal:
    they hold what was written, in order, up to their depth, and a flag shows a change on the next clock edge. */
module TxInterface {
  import opened Axis
  import opened Wrappers

  datatype WrState = WrIdle | Load
  datatype RdState = RdIdle | Push

  /** The registers, the data queue, the number of tokens, and the depths of the two queues. */
  datatype State = State(
    wr: WrState, rd: RdState, pkgPush: bool, wrEn: bool, rdEn: bool,
    data: seq<Word>, tokens: nat, depth: nat, tokenDepth: nat)

  /** What the neighbours drive in one cycle: the word offered, and whether the MAC is ready. */
  datatype Cycle = Cycle(offer: Option<Word>, ready: bool)

  function Reset(depth: nat, tokenDepth: nat): State {
    State(WrIdle, RdIdle, false, false, false, [], 0, depth, tokenDepth)
  }

  // The wires of a cycle

  predicate TakesWord(s: State, c: Cycle) {
    c.offer.Some? && s.tokens < s.tokenDepth && |s.data| < s.depth
  }

  predicate ValidToMac(s: State) {
    s.data != [] && s.pkgPush
  }

  predicate SendsWord(s: State, c: Cycle) {
    ValidToMac(s) && c.ready
  }

  // One clock edge

  function Clock(s: State, c: Cycle): State {
    var takes, sends := TakesWord(s, c), SendsWord(s, c);
    var loaded := s.wr == Load && takes && c.offer.value.last;
    var begins := s.rd == RdIdle && s.tokens > 0;
    var ends := s.rd == Push && sends && s.data[0].last;
    s.(wr := if takes && s.wr == WrIdle then Load else if loaded then WrIdle else s.wr,
       wrEn := loaded,
       rd := if begins then Push else if ends then RdIdle else s.rd,
       pkgPush := begins || (s.rd == Push && !ends),
       rdEn := begins,
       data := NextData(s, c),
       tokens := NextTokens(s))
  }

  function NextData(s: State, c: Cycle): seq<Word> {
    (if SendsWord(s, c) then s.data[1..] else s.data) + if TakesWord(s, c) then [c.offer.value] else []
  }

  /** A write to the full queue and a read from the empty one have no effect. */
  function NextTokens(s: State): nat {
    (if s.rdEn && s.tokens > 0 then s.tokens - 1 else s.tokens) + if s.wrEn && s.tokens < s.tokenDepth then 1 else 0
  }

  /** The state after a run of cycles from reset, the words taken in, and the words the MAC received. */
  function Reached(s: State, cs: seq<Cycle>): State {
    if cs == [] then s else Clock(Reached(s, cs[..|cs| - 1]), cs[|cs| - 1])
  }

  function Taken(s: State, cs: seq<Cycle>): seq<Word> {
    if cs == [] then []
    else
      var (q, c) := (Reached(s, cs[..|cs| - 1]), cs[|cs| - 1]);
      Taken(s, cs[..|cs| - 1]) + if TakesWord(q, c) then [c.offer.value] else []
  }

  function Sent(s: State, cs: seq<Cycle>): seq<Word> {
    if cs == [] then []
    else
      var (q, c) := (Reached(s, cs[..|cs| - 1]), cs[|cs| - 1]);
      Sent(s, cs[..|cs| - 1]) + if SendsWord(q, c) then [q.data[0]] else []
  }

  // Counting frames

  function Bit(b: bool): nat {
    if b then 1 else 0
  }

  function Lasts(ws: seq<Word>): nat {
    if ws == [] then 0 else Lasts(ws[..|ws| - 1]) + Bit(ws[|ws| - 1].last)
  }

  /** A frame of a single word: it ends on the word it starts with. */
  predicate ShortFrameAt(ws: seq<Word>, i: int) {
    0 <= i < |ws| && ws[i].last && (i == 0 || ws[i - 1].last)
  }

  predicate NoShortFrame(ws: seq<Word>) {
    forall i :: 0 <= i < |ws| ==> !ShortFrameAt(ws, i)
  }

  /** Where the write machine is after the words. */
  function WrAfter(ws: seq<Word>): WrState {
    if ws == [] then WrIdle
    else if WrAfter(ws[..|ws| - 1]) == WrIdle then Load
    else if ws[|ws| - 1].last then WrIdle
    else Load
  }

  /** The last words that the write machine meets while idle, and does not count. */
  function Missed(ws: seq<Word>): nat {
    if ws == [] then 0
    else Missed(ws[..|ws| - 1]) + Bit(ws[|ws| - 1].last && WrAfter(ws[..|ws| - 1]) == WrIdle)
  }

  lemma {:induction false} LastsConcat(a: seq<Word>, b: seq<Word>)
    ensures Lasts(a + b) == Lasts(a) + Lasts(b)
    decreases |b|
  {
    if b == [] {
      assert a + b == a;
    } else {
      assert (a + b)[..|a + b| - 1] == a + b[..|b| - 1];
      LastsConcat(a, b[..|b| - 1]);
    }
  }

  lemma {:induction false} LastsZero(ws: seq<Word>)
    ensures Lasts(ws) == 0 <==> forall i :: 0 <= i < |ws| ==> !ws[i].last
  {
    if ws != [] {
      LastsZero(ws[..|ws| - 1]);
    }
  }

  lemma LastsOne(w: Word)
    ensures Lasts([w]) == Bit(w.last)
  {
    assert [w][..0] == [];
  }

  /** No last word is missed exactly when no frame is a single word. */
  lemma {:induction false} MissedNone(ws: seq<Word>)
    ensures Missed(ws) == 0 <==> NoShortFrame(ws)
    ensures NoShortFrame(ws) ==> (WrAfter(ws) == WrIdle <==> ws == [] || ws[|ws| - 1].last)
  {
    if ws != [] {
      var before := ws[..|ws| - 1];
      MissedNone(before);
      assert forall i :: 0 <= i < |before| ==> (ShortFrameAt(ws, i) <==> ShortFrameAt(before, i));
      if NoShortFrame(before) {
        assert ShortFrameAt(ws, |ws| - 1) <==> ws[|ws| - 1].last && WrAfter(before) == WrIdle;
        assert NoShortFrame(ws) <==> !ShortFrameAt(ws, |ws| - 1);
      }
    }
  }

  // What every cycle keeps

  /** What the two machines and the token queue agree on, whatever arrives. */
  predicate Control(s: State) {
    && s.tokenDepth > 0 && s.tokens <= s.tokenDepth && |s.data| <= s.depth
    && (s.pkgPush <==> s.rd == Push)
    && (s.wrEn ==> s.wr == WrIdle && s.tokens < s.tokenDepth)
    && (s.rdEn ==> s.rd == Push && s.tokens >= 1)
  }

  /** The frames that the tokens, the enables in flight and the read machine stand for. */
  function Promised(s: State): int {
    s.tokens + Bit(s.wrEn) - Bit(s.rdEn) + Bit(s.rd == Push)
  }

  lemma ControlKept(s: State, c: Cycle)
    requires Control(s) && (s.rd == Push ==> s.data != [])
    ensures Control(Clock(s, c))
  {
  }

  /** The last words in the queue grow and shrink with what the tokens promise, except for a last word taken while
      the write machine is idle: that one is counted nowhere. */
  lemma BalanceKept(s: State, c: Cycle)
    requires Control(s) && Promised(s) <= Lasts(s.data)
    ensures var q := Clock(s, c);
            Lasts(q.data) - Promised(q)
            == Lasts(s.data) - Promised(s) + Bit(s.wr == WrIdle && TakesWord(s, c) && c.offer.value.last)
  {
    var kept := if SendsWord(s, c) then s.data[1..] else s.data;
    if SendsWord(s, c) {
      LastsConcat([s.data[0]], s.data[1..]);
      assert [s.data[0]] + s.data[1..] == s.data;
      LastsOne(s.data[0]);
    }
    if TakesWord(s, c) {
      LastsConcat(kept, [c.offer.value]);
      LastsOne(c.offer.value);
    } else {
      assert kept + [] == kept;
    }
  }

  /** Holds in every reachable state, for all traffic. */
  ghost predicate Inv(s: State, taken: seq<Word>, sent: seq<Word>) {
    && Control(s)
    && s.wr == WrAfter(taken)
    && sent + s.data == taken
    && Lasts(s.data) == Promised(s) + Missed(taken)
    && (s.rd == RdIdle ==> sent == [] || sent[|sent| - 1].last)
  }

  lemma InvReset(depth: nat, tokenDepth: nat)
    requires tokenDepth > 0
    ensures Inv(Reset(depth, tokenDepth), [], [])
  {
  }

  /** A frame being sent has its last word in the queue. */
  lemma PushHasFrame(s: State, taken: seq<Word>, sent: seq<Word>)
    requires Inv(s, taken, sent)
    ensures 0 <= Promised(s) <= Lasts(s.data)
    ensures s.rd == Push ==> Lasts(s.data) >= 1 && s.data != []
  {
  }

  lemma WrFollows(s: State, c: Cycle, taken: seq<Word>)
    requires s.wr == WrAfter(taken) && TakesWord(s, c)
    ensures var t := taken + [c.offer.value];
            && Clock(s, c).wr == WrAfter(t)
            && Missed(t) == Missed(taken) + Bit(s.wr == WrIdle && c.offer.value.last)
  {
    var t := taken + [c.offer.value];
    assert t[..|t| - 1] == taken;
  }

  lemma QueueKept(s: State, c: Cycle, taken: seq<Word>, sent: seq<Word>)
    requires sent + s.data == taken
    ensures sent + (if SendsWord(s, c) then [s.data[0]] else []) + Clock(s, c).data
            == taken + if TakesWord(s, c) then [c.offer.value] else []
  {
    var put := if TakesWord(s, c) then [c.offer.value] else [];
    if SendsWord(s, c) {
      assert s.data == [s.data[0]] + s.data[1..];
      assert Clock(s, c).data == s.data[1..] + put;
    } else {
      assert Clock(s, c).data == s.data + put;
    }
    hide *;
  }

  lemma BoundaryKept(s: State, c: Cycle, sent: seq<Word>)
    requires Control(s) && (s.rd == RdIdle ==> sent == [] || sent[|sent| - 1].last)
    ensures var sent' := sent + if SendsWord(s, c) then [s.data[0]] else [];
            Clock(s, c).rd == RdIdle ==> sent' == [] || sent'[|sent'| - 1].last
  {
  }

  lemma WrKept(s: State, c: Cycle, taken: seq<Word>)
    requires s.wr == WrAfter(taken)
    ensures var t := taken + if TakesWord(s, c) then [c.offer.value] else [];
            && Clock(s, c).wr == WrAfter(t)
            && Missed(t) == Missed(taken) + Bit(s.wr == WrIdle && TakesWord(s, c) && c.offer.value.last)
  {
    if TakesWord(s, c) {
      WrFollows(s, c, taken);
    } else {
      assert taken + [] == taken;
    }
  }

  lemma InvKept(s: State, c: Cycle, taken: seq<Word>, sent: seq<Word>)
    requires Inv(s, taken, sent)
    ensures Inv(Clock(s, c), taken + (if TakesWord(s, c) then [c.offer.value] else []),
                sent + if SendsWord(s, c) then [s.data[0]] else [])
  {
    PushHasFrame(s, taken, sent);
    hide Clock, TakesWord, SendsWord, Control, Promised, Lasts, Missed, WrAfter;
    ControlKept(s, c);
    BalanceKept(s, c);
    WrKept(s, c, taken);
    QueueKept(s, c, taken, sent);
    BoundaryKept(s, c, sent);
  }

  lemma {:induction false} RunKeeps(depth: nat, tokenDepth: nat, cs: seq<Cycle>)
    requires tokenDepth > 0
    ensures var s := Reset(depth, tokenDepth);
            Inv(Reached(s, cs), Taken(s, cs), Sent(s, cs)) && Reached(s, cs).depth == depth
  {
    var s := Reset(depth, tokenDepth);
    if cs == [] {
      InvReset(depth, tokenDepth);
    } else {
      var before := cs[..|cs| - 1];
      RunKeeps(depth, tokenDepth, before);
      InvKept(Reached(s, before), cs[|cs| - 1], Taken(s, before), Sent(s, before));
      hide Inv, TakesWord, SendsWord;
    }
  }

  // Main results

  /** For all traffic and every pattern of readiness: the MAC receives a prefix of what was taken in, in order, and from
      a frame's first word to its last the interface offers a word in every cycle. */
  lemma {:induction false} NoUnderrun(depth: nat, tokenDepth: nat, cs: seq<Cycle>)
    requires tokenDepth > 0
    ensures var s := Reset(depth, tokenDepth);
            var sent := Sent(s, cs);
            && sent <= Taken(s, cs)
            && (sent != [] && !sent[|sent| - 1].last ==> ValidToMac(Reached(s, cs)))
  {
    RunKeeps(depth, tokenDepth, cs);
    var s := Reset(depth, tokenDepth);
    PushHasFrame(Reached(s, cs), Taken(s, cs), Sent(s, cs));
  }

  /** Tokens, enables in flight and the read machine count the frames in the queue exactly when no frame taken so
      far was a single word. */
  lemma TokensCountFrames(depth: nat, tokenDepth: nat, cs: seq<Cycle>)
    requires tokenDepth > 0
    ensures var s := Reset(depth, tokenDepth);
            var q := Reached(s, cs);
            q.tokens + Bit(q.wrEn) - Bit(q.rdEn) + Bit(q.rd == Push) == Lasts(q.data) <==> NoShortFrame(Taken(s, cs))
  {
    RunKeeps(depth, tokenDepth, cs);
    MissedNone(Taken(Reset(depth, tokenDepth), cs));
  }

  // Progress

  /** Nothing is offered and the MAC is always ready, for `n` cycles. */
  function Rest(n: nat): (cs: seq<Cycle>)
    ensures |cs| == n && forall i :: 0 <= i < n ==> cs[i] == Cycle(None, true)
  {
    seq(n, i => Cycle(None, true))
  }

  function Drained(s: State, n: nat): State {
    if n == 0 then s else Clock(Drained(s, n - 1), Cycle(None, true))
  }

  /** What is left to do before the tokens are used up. */
  function Work(s: State): nat {
    3 * |s.data| + if s.rd == Push then 0 else if s.tokens > 0 then 1 else 2
  }

  lemma WorkDone(s: State, taken: seq<Word>, sent: seq<Word>)
    requires Inv(s, taken, sent) && Promised(s) > 0
    ensures Work(Clock(s, Cycle(None, true))) < Work(s)
  {
    PushHasFrame(s, taken, sent);
  }

  lemma IdleStays(s: State, c: Cycle, taken: seq<Word>, sent: seq<Word>)
    requires Inv(s, taken, sent) && Promised(s) == 0
    ensures !SendsWord(s, c) && (!TakesWord(s, c) ==> Clock(s, c) == s)
  {
  }

  lemma {:induction false} DrainedReached(s: State, cs: seq<Cycle>, n: nat)
    ensures Reached(s, cs + Rest(n)) == Drained(Reached(s, cs), n)
    ensures Taken(s, cs + Rest(n)) == Taken(s, cs)
    decreases n
  {
    if n == 0 {
      assert cs + Rest(0) == cs;
    } else {
      var all := cs + Rest(n);
      assert all[..|all| - 1] == cs + Rest(n - 1);
      DrainedReached(s, cs, n - 1);
      assert Taken(s, all) == Taken(s, cs + Rest(n - 1)) + [];
    }
  }

  /** Once the source pauses, the promised frames leave within a bounded time. */
  lemma {:induction false} Drains(s: State, taken: seq<Word>, sent: seq<Word>, n: nat)
    requires Inv(s, taken, sent) && n >= Work(s)
    ensures Promised(Drained(s, n)) == 0
    decreases n
  {
    var q := Clock(s, Cycle(None, true));
    if Promised(s) == 0 {
      Still(s, taken, sent, n);
    } else {
      WorkDone(s, taken, sent);
      InvKept(s, Cycle(None, true), taken, sent);
      var sent' := sent + if SendsWord(s, Cycle(None, true)) then [s.data[0]] else [];
      assert taken + [] == taken;
      Drains(q, taken, sent', n - 1);
      DrainedFirst(s, n);
    }
  }

  lemma {:induction false} Still(s: State, taken: seq<Word>, sent: seq<Word>, n: nat)
    requires Inv(s, taken, sent) && Promised(s) == 0
    ensures Drained(s, n) == s
  {
    if n > 0 {
      Still(s, taken, sent, n - 1);
      IdleStays(s, Cycle(None, true), taken, sent);
    }
  }

  lemma {:induction false} DrainedFirst(s: State, n: nat)
    requires n > 0
    ensures Drained(s, n) == Drained(Clock(s, Cycle(None, true)), n - 1)
  {
    if n > 1 {
      DrainedFirst(s, n - 1);
    }
  }

  /** When the source pauses and the MAC is ready for long enough, every complete frame is sent exactly when no frame
      was a single word; and as many frames stay behind as last words were missed. */
  lemma AllFramesLeave(depth: nat, tokenDepth: nat, cs: seq<Cycle>, n: nat)
    requires tokenDepth > 0 && n >= 3 * depth + 2
    ensures var s := Reset(depth, tokenDepth);
            var q := Reached(s, cs + Rest(n));
            && Lasts(q.data) == Missed(Taken(s, cs))
            && (Lasts(q.data) == 0 <==> NoShortFrame(Taken(s, cs)))
  {
    var s := Reset(depth, tokenDepth);
    RunKeeps(depth, tokenDepth, cs);
    RunKeeps(depth, tokenDepth, cs + Rest(n));
    DrainedReached(s, cs, n);
    Drains(Reached(s, cs), Taken(s, cs), Sent(s, cs), n);
    MissedNone(Taken(s, cs));
  }

  /** With the data queue full: if it holds a frame with a token, a word leaves within three ready cycles; if not,
      no word is taken or sent ever again. */
  lemma FullQueue(depth: nat, tokenDepth: nat, cs: seq<Cycle>)
    requires tokenDepth > 0 && depth > 0 && |Reached(Reset(depth, tokenDepth), cs).data| == depth
    ensures var s := Reset(depth, tokenDepth);
            var q := Reached(s, cs);
            && (Lasts(q.data) > Missed(Taken(s, cs)) ==> |Drained(q, 3).data| < depth)
            && (Lasts(q.data) == Missed(Taken(s, cs)) ==> forall c :: Clock(q, c) == q && !TakesWord(q, c) && !SendsWord(q, c))
            && Lasts(q.data) >= Missed(Taken(s, cs))
  {
    var s := Reset(depth, tokenDepth);
    var q := Reached(s, cs);
    RunKeeps(depth, tokenDepth, cs);
    PushHasFrame(q, Taken(s, cs), Sent(s, cs));
    if Promised(q) == 0 {
      forall c ensures Clock(q, c) == q && !TakesWord(q, c) && !SendsWord(q, c) {
        IdleStays(q, c, Taken(s, cs), Sent(s, cs));
      }
    } else {
      LeavesInThree(q, Taken(s, cs), Sent(s, cs));
    }
  }

  lemma LeavesInThree(s: State, taken: seq<Word>, sent: seq<Word>)
    requires Inv(s, taken, sent) && Promised(s) > 0
    ensures |Drained(s, 3).data| < |s.data|
  {
    var c := Cycle(None, true);
    PushHasFrame(s, taken, sent);
    var a := Clock(s, c);
    InvKept(s, c, taken, sent);
    var b := Clock(a, c);
    assert Drained(s, 1) == Clock(Drained(s, 0), c);
    assert Drained(s, 2) == Clock(Drained(s, 1), c);
    assert Drained(s, 3) == Clock(b, c);
    if s.rd == Push {
      assert |a.data| < |s.data| && |b.data| <= |a.data|;
    } else if s.tokens > 0 {
      assert a.rd == Push && a.data == s.data;
      assert |b.data| < |a.data|;
    } else {
      assert a.tokens > 0 && a.rd == RdIdle && a.data == s.data;
      assert b.rd == Push && b.pkgPush && b.data == a.data;
    }
  }

  /** One of the `n` words from the `i`-th on is a last word. */
  predicate LastWithin(ws: seq<Word>, i: int, n: nat) {
    exists j :: i <= j < i + n && 0 <= j < |ws| && ws[j].last
  }

  /** Frames of two words up to the depth of the queue never block it. */
  lemma FittingFramesFlow(depth: nat, tokenDepth: nat, cs: seq<Cycle>)
    requires tokenDepth > 0 && depth > 0
    requires var t := Taken(Reset(depth, tokenDepth), cs);
             NoShortFrame(t) && forall i :: 0 <= i <= |t| - depth ==> LastWithin(t, i, depth)
    ensures var s := Reset(depth, tokenDepth);
            |Reached(s, cs).data| == depth ==> |Drained(Reached(s, cs), 3).data| < depth
  {
    var s := Reset(depth, tokenDepth);
    var q, t := Reached(s, cs), Taken(s, cs);
    RunKeeps(depth, tokenDepth, cs);
    if |q.data| == depth {
      WindowHasLast(t, Sent(s, cs), q.data);
      MissedNone(t);
      FullQueue(depth, tokenDepth, cs);
    }
    hide *;
  }

  lemma WindowHasLast(t: seq<Word>, sent: seq<Word>, data: seq<Word>)
    requires t == sent + data && LastWithin(t, |sent|, |data|)
    ensures Lasts(data) > 0
  {
    var j :| |sent| <= j < |t| && t[j].last;
    assert data[j - |sent|] == t[j];
    LastsZero(data);
  }

  // The registers as the clock updates them

  class TxRegisters {
    var stateWr: WrState
    var stateRd: RdState
    var pkgPush: bool
    var cmdFifoWrEn: bool
    var cmdFifoRdEn: bool
    var dataFifo: seq<Word>
    var cmdFifoCount: nat
    const depth: nat
    const tokenDepth: nat

    function View(): State
      reads this
    {
      State(stateWr, stateRd, pkgPush, cmdFifoWrEn, cmdFifoRdEn, dataFifo, cmdFifoCount, depth, tokenDepth)
    }

    constructor (depth: nat, tokenDepth: nat)
      ensures View() == Reset(depth, tokenDepth)
    {
      this.depth, this.tokenDepth := depth, tokenDepth;
      stateWr, stateRd, pkgPush, cmdFifoWrEn, cmdFifoRdEn := WrIdle, RdIdle, false, false, false;
      dataFifo, cmdFifoCount := [], 0;
    }

    /** The next state and enable of the write machine. */
    method WriteMachine(wrValid: bool, wrReady: bool, wrLast: bool, cmdFifoFull: bool)
      returns (wr: WrState, wrEn: bool)
      requires wrValid ==> wrReady && !cmdFifoFull
      ensures wrEn == (stateWr == Load && wrValid && wrLast)
      ensures wr == if wrValid && stateWr == WrIdle then Load else if wrEn then WrIdle else stateWr
    {
      wr, wrEn := stateWr, false;
      match stateWr {
        case WrIdle =>
          if wrValid {
            wr := Load;
          }
        case Load =>
          if wrLast && wrValid {
            if !cmdFifoFull && wrReady {
              wrEn := true;
              wr := WrIdle;
            }
          }
      }
    }

    /** The next state, push flag and enable of the read machine. */
    method ReadMachine(rdValid: bool, rdReady: bool, rdLast: bool, cmdFifoEmpty: bool)
      returns (rd: RdState, push: bool, rdEn: bool)
      ensures rdEn == (stateRd == RdIdle && !cmdFifoEmpty)
      ensures push == (rd == Push)
      ensures rd == if rdEn || (stateRd == Push && !(rdLast && rdReady && rdValid)) then Push else RdIdle
    {
      rd, push, rdEn := stateRd, false, false;
      match stateRd {
        case RdIdle =>
          if !cmdFifoEmpty {
            push := true;
            rdEn := true;
            rd := Push;
          }
        case Push =>
          push := true;
          if rdLast && rdReady && rdValid {
            push := false;
            rd := RdIdle;
          }
      }
    }

    /** One clock edge: every register takes its next value from the values before the edge. */
    method PosEdge(offer: Option<Word>, macReady: bool) returns (toMac: Option<Word>)
      modifies this
      ensures View() == Clock(old(View()), Cycle(offer, macReady))
      ensures toMac == if SendsWord(old(View()), Cycle(offer, macReady)) then Some(old(dataFifo)[0]) else None
    {
      var cmdFifoFull, cmdFifoEmpty := cmdFifoCount >= tokenDepth, cmdFifoCount == 0;
      var wrReady := |dataFifo| < depth;
      var wrValid := offer.Some? && !cmdFifoFull && wrReady;
      var rdValid := dataFifo != [];
      var rdReady := macReady && pkgPush;
      var wr, wrEn := WriteMachine(wrValid, wrReady, offer.Some? && offer.value.last, cmdFifoFull);
      var rd, push, rdEn := ReadMachine(rdValid, rdReady, rdValid && dataFifo[0].last, cmdFifoEmpty);
      TokenQueue(cmdFifoFull, cmdFifoEmpty);
      toMac := DataQueue(offer, wrValid, rdReady);
      assert dataFifo == NextData(old(View()), Cycle(offer, macReady));
      hide NextTokens, NextData;
      stateWr, cmdFifoWrEn := wr, wrEn;
      stateRd, pkgPush, cmdFifoRdEn := rd, push, rdEn;
    }

    method TokenQueue(full: bool, empty: bool)
      requires full == (cmdFifoCount >= tokenDepth) && empty == (cmdFifoCount == 0)
      modifies this`cmdFifoCount
      ensures cmdFifoCount == NextTokens(old(View()))
    {
      var push, pop := cmdFifoWrEn && !full, cmdFifoRdEn && !empty;
      if pop {
        cmdFifoCount := cmdFifoCount - 1;
      }
      if push {
        cmdFifoCount := cmdFifoCount + 1;
      }
    }

    method DataQueue(offer: Option<Word>, wrValid: bool, rdReady: bool) returns (out: Option<Word>)
      requires wrValid ==> offer.Some?
      modifies this`dataFifo
      ensures out == if old(dataFifo) != [] && rdReady then Some(old(dataFifo)[0]) else None
      ensures dataFifo == (if out.Some? then old(dataFifo)[1..] else old(dataFifo)) + if wrValid then [offer.value] else []
    {
      out := None;
      if rdReady && dataFifo != [] {
        out := Some(dataFifo[0]);
        dataFifo := dataFifo[1..];
      }
      if wrValid {
        dataFifo := dataFifo + [offer.value];
      }
    }
  }
}
