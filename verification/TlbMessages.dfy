/** How mappings travel from the host to the translation buffer: five register writes each, reassembled by
    the control-register state machine of the DMA controller. */
module TlbMessages {
  import opened Mem
  import opened Streams
  import T = Tlb

  /** A 32-bit write to a control register. */
  datatype RegWrite = RegWrite(addr: nat, data: nat)

  const REG_TLB := 0x02

  function RegOf(w: RegWrite): nat {
    w.addr % 0x1000 / 32
  }

  /** The message register answers to the 32 addresses from 64 on, in each 4 KiB of the control space. */
  lemma MessageRegister(w: RegWrite)
    ensures RegOf(w) == REG_TLB <==> 64 <= w.addr % 0x1000 < 96
  {
  }

  /** The mapping as five words. */
  function Words(m: T.Mapping): seq<nat> {
    [m.vaddr % TWO_TO_32, m.vaddr / TWO_TO_32 % TWO_TO_32, m.paddr % TWO_TO_32, m.paddr / TWO_TO_32 % TWO_TO_32,
     if m.isBase then 1 else 0]
  }

  function AllWords(ms: seq<T.Mapping>): seq<nat> {
    if ms == [] then [] else Words(ms[0]) + AllWords(ms[1..])
  }

  /** The mapping in the message register. */
  function Message(d: seq<nat>): T.Mapping
    requires |d| == 5
  {
    T.Mapping(d[0] + d[1] * TWO_TO_32, d[2] + d[3] * TWO_TO_32, d[4] % 2 == 1)
  }

  /** The mappings in a list of words, five words each. */
  function Decode(ws: seq<nat>): seq<T.Mapping> {
    if |ws| < 5 then [] else [Message(ws[..5])] + Decode(ws[5..])
  }

  predicate Is64(m: T.Mapping) {
    m.vaddr < TWO_TO_64 && m.paddr < TWO_TO_64
  }

  lemma {:induction false} DecodeAllWords(ms: seq<T.Mapping>)
    requires forall i :: 0 <= i < |ms| ==> Is64(ms[i])
    ensures Decode(AllWords(ms)) == ms && |AllWords(ms)| == 5 * |ms|
  {
    if ms != [] {
      DecodeAllWords(ms[1..]);
      var ws := AllWords(ms);
      assert ws[..5] == Words(ms[0]) && ws[5..] == AllWords(ms[1..]);
      assert Is64(ms[0]);
    }
  }

  /** Five more words at the end are one more mapping. */
  lemma {:induction false} DecodeMore(ws: seq<nat>, d: seq<nat>)
    requires |ws| % 5 == 0 && |d| == 5
    ensures Decode(ws + d) == Decode(ws) + [Message(d)]
    decreases |ws|
  {
    if ws == [] {
      assert ws + d == d && d[..5] == d;
    } else {
      assert (ws + d)[..5] == ws[..5] && (ws + d)[5..] == ws[5..] + d;
      DecodeMore(ws[5..], d);
    }
  }

  lemma {:induction false} DecodePrefix(a: seq<nat>, b: seq<nat>)
    requires a <= b
    ensures Decode(a) <= Decode(b)
    decreases |a|
  {
    if |a| >= 5 {
      assert a[..5] == b[..5] && a[5..] <= b[5..];
      DecodePrefix(a[5..], b[5..]);
    }
  }

  // The controller's write state machine

  datatype WriteState = WriteIdle | WriteData | WriteResponse | WriteTlb

  /** The registers.  `message` holds the four 32-bit slices and the base bit. */
  datatype Ctl = Ctl(state: WriteState, awready: bool, wready: bool, bvalid: bool, tlbValid: bool,
                     wordCounter: nat, writeAddr: nat, message: seq<nat>)

  /** The wires of one clock cycle. */
  datatype Wires = Wires(awvalid: bool, awaddr: nat, wvalid: bool, wdata: nat, bready: bool, tlbReady: bool)

  function Reset(c: Ctl): Ctl {
    c.(state := WriteIdle, awready := false, wready := false, bvalid := false, tlbValid := false, wordCounter := 0)
  }

  /** A data word for the message register. */
  function Store(c: Ctl, wdata: nat): Ctl {
    var c' := c.(wready := false, bvalid := true, state := WriteResponse);
    if c.writeAddr != REG_TLB then c'
    else if c.wordCounter == 4 then
      c'.(message := Set(c.message, 4, wdata % 2), bvalid := false, tlbValid := true, wordCounter := 0, state := WriteTlb)
    else
      c'.(message := Set(c.message, c.wordCounter, wdata), wordCounter := (c.wordCounter + 1) % 256)
  }

  function Set(d: seq<nat>, i: nat, x: nat): seq<nat> {
    if i < |d| then d[i := x] else d
  }

  /** One clock edge. */
  function Clock(c: Ctl, w: Wires): Ctl {
    match c.state
    case WriteIdle =>
      var c' := c.(awready := true, wready := false, bvalid := false, tlbValid := false,
                   writeAddr := w.awaddr % 0x1000 / 32);
      if w.awvalid && c.awready then c'.(awready := false, wready := true, state := WriteData) else c'
    case WriteData =>
      if w.wvalid && c.wready then Store(c, w.wdata) else c.(wready := true)
    case WriteResponse =>
      if c.bvalid && w.bready then c.(bvalid := false, state := WriteIdle) else c.(bvalid := true)
    case WriteTlb =>
      if c.tlbValid && w.tlbReady then c.(bvalid := true, tlbValid := false, state := WriteResponse)
      else c.(tlbValid := true)
  }

  // The controller behind a bus master with a list of writes, in front of the translation buffer

  /** `addrs`, `datas` and `resps` count the transfers on the three write channels; `delivered` holds the
      mappings handed over. */
  datatype Bus = Bus(ctl: Ctl, addrs: nat, datas: nat, resps: nat, delivered: seq<T.Mapping>)

  /** Which of the four parties is willing in this cycle. */
  datatype Cycle = Cycle(aw: bool, w: bool, b: bool, tlb: bool)

  function WiresOf(s: Bus, ws: seq<RegWrite>, k: Cycle): Wires {
    Wires(k.aw && s.addrs < |ws|, if s.addrs < |ws| then ws[s.addrs].addr else 0,
          k.w && s.datas < |ws|, if s.datas < |ws| then ws[s.datas].data else 0, k.b, k.tlb)
  }

  /** A channel moves in the cycles in which both of its sides are willing. */
  function Tick(s: Bus, ws: seq<RegWrite>, k: Cycle): Bus {
    var x := WiresOf(s, ws, k);
    Bus(Clock(s.ctl, x),
        if x.awvalid && s.ctl.awready then s.addrs + 1 else s.addrs,
        if x.wvalid && s.ctl.wready then s.datas + 1 else s.datas,
        if s.ctl.bvalid && x.bready then s.resps + 1 else s.resps,
        if s.ctl.tlbValid && x.tlbReady && |s.ctl.message| == 5 then s.delivered + [Message(s.ctl.message)] else s.delivered)
  }

  function Ticks(s: Bus, ws: seq<RegWrite>, ks: seq<Cycle>): Bus
    decreases |ks|
  {
    if ks == [] then s else Ticks(Tick(s, ws, ks[0]), ws, ks[1..])
  }

  /** The words written to the message register, in order. */
  function TlbWords(ws: seq<RegWrite>): seq<nat> {
    if ws == [] then []
    else TlbWords(ws[..|ws| - 1]) + (if RegOf(ws[|ws| - 1]) == REG_TLB then [ws[|ws| - 1].data] else [])
  }

  /** The controller is where the transfers so far say it is. */
  predicate InStep(s: Bus, ws: seq<RegWrite>) {
    && |s.ctl.message| == 5 && s.addrs <= |ws|
    && (s.ctl.awready ==> s.ctl.state == WriteIdle)
    && (s.ctl.wready ==> s.ctl.state == WriteData)
    && (s.ctl.bvalid ==> s.ctl.state == WriteResponse)
    && (s.ctl.tlbValid ==> s.ctl.state == WriteTlb)
    && match s.ctl.state
       case WriteIdle => s.addrs == s.datas == s.resps
       case WriteData => s.addrs == s.datas + 1 == s.resps + 1 && s.ctl.writeAddr == RegOf(ws[s.datas])
       case _ => s.addrs == s.datas == s.resps + 1
  }

  /** The register holds the words of the message under way; all earlier words are delivered mappings. */
  predicate Holds(c: Ctl, delivered: seq<T.Mapping>, words: seq<nat>) {
    && |c.message| == 5
    && if c.state == WriteTlb then
         && c.wordCounter == 0 && |words| >= 5 && |words| % 5 == 0
         && Message(c.message) == Message(words[|words| - 5..])
         && delivered == Decode(words[..|words| - 5])
       else
         && c.wordCounter == |words| % 5
         && c.message[..c.wordCounter] == words[|words| - c.wordCounter..]
         && delivered == Decode(words[..|words| - c.wordCounter])
  }

  predicate Inv(s: Bus, ws: seq<RegWrite>) {
    InStep(s, ws) && s.datas <= |ws| && Holds(s.ctl, s.delivered, TlbWords(ws[..s.datas]))
  }

  lemma TickInStep(s: Bus, ws: seq<RegWrite>, k: Cycle)
    requires InStep(s, ws)
    ensures InStep(Tick(s, ws, k), ws)
  {
  }

  lemma TailGrows(words: seq<nat>, x: nat, k: nat)
    requires k <= |words|
    ensures (words + [x])[|words| - k..] == words[|words| - k..] + [x]
    ensures (words + [x])[..|words| - k] == words[..|words| - k]
  {
  }

  lemma NextCount(n: nat)
    requires n % 5 < 4
    ensures (n + 1) % 5 == n % 5 + 1
  {
  }

  /** One more word in the message, and at the end of the words. */
  lemma TailStored(message: seq<nat>, words: seq<nat>, k: nat, x: nat)
    requires k < |message| && k <= |words| && message[..k] == words[|words| - k..]
    ensures message[k := x][..k + 1] == (words + [x])[|words + [x]| - (k + 1)..]
    ensures (words + [x])[..|words + [x]| - (k + 1)] == words[..|words| - k]
  {
    TailGrows(words, x, k);
    assert |words + [x]| - (k + 1) == |words| - k;
    assert message[k := x][..k + 1] == message[..k] + [x];
  }

  /** A data word that is not the fifth of a message. */
  lemma {:induction false} StoreHolds(c: Ctl, delivered: seq<T.Mapping>, words: seq<nat>, x: nat)
    requires Holds(c, delivered, words)
    ensures c.state == WriteData && c.writeAddr == REG_TLB && c.wordCounter < 4 ==> Holds(Store(c, x), delivered, words + [x])
  {
    if c.state == WriteData && c.writeAddr == REG_TLB && c.wordCounter < 4 {
      var c' := Store(c, x);
      assert c'.state == WriteResponse && c'.message == c.message[c.wordCounter := x] && c'.wordCounter == c.wordCounter + 1;
      hide Decode, Message, Store, Set;
      NextCount(|words|);
      TailStored(c.message, words, c.wordCounter, x);
    }
  }

  lemma LastCount(n: nat)
    requires n % 5 == 4
    ensures (n + 1) % 5 == 0 && n >= 4
  {
  }

  /** The fifth word completes the message. */
  lemma {:induction false} CompleteHolds(c: Ctl, delivered: seq<T.Mapping>, words: seq<nat>, x: nat)
    requires Holds(c, delivered, words)
    ensures c.state == WriteData && c.writeAddr == REG_TLB && c.wordCounter == 4 ==> Holds(Store(c, x), delivered, words + [x])
  {
    if c.state == WriteData && c.writeAddr == REG_TLB && c.wordCounter == 4 {
      var c' := Store(c, x);
      assert c'.state == WriteTlb && c'.message == c.message[4 := x % 2] && c'.wordCounter == 0;
      hide Decode, Message, Store, Set;
      LastCount(|words|);
      TailGrows(words, x, 4);
      SameMessage(c.message, words[|words| - 4..], x);
      assert |words + [x]| - 5 == |words| - 4;
    }
  }

  lemma SameMessage(held: seq<nat>, d: seq<nat>, x: nat)
    requires |held| == 5 && held[..4] == d
    ensures Message(held[4 := x % 2]) == Message(d + [x])
  {
    var m := held[4 := x % 2];
    assert d[0] == m[0] && d[1] == m[1] && d[2] == m[2] && d[3] == m[3];
  }

  /** Handing the message over makes it the last of the delivered mappings. */
  lemma HandOverHolds(c: Ctl, delivered: seq<T.Mapping>, words: seq<nat>)
    requires Holds(c, delivered, words) && c.state == WriteTlb
    ensures Holds(c.(bvalid := true, tlbValid := false, state := WriteResponse), delivered + [Message(c.message)], words)
  {
    var n := |words| - 5;
    assert words == words[..n] + words[n..];
    DecodeMore(words[..n], words[n..]);
    assert words[..|words|] == words;
  }

  /** The words taken so far are those the controller holds or has delivered. */
  predicate HoldsAll(s: Bus, ws: seq<RegWrite>) {
    s.datas <= |ws| && Holds(s.ctl, s.delivered, TlbWords(ws[..s.datas]))
  }

  /** A cycle that takes a data word. */
  lemma DataFields(s: Bus, ws: seq<RegWrite>, k: Cycle)
    requires Inv(s, ws) && Tick(s, ws, k).datas != s.datas
    ensures s.ctl.state == WriteData && s.datas < |ws| && s.ctl.writeAddr == RegOf(ws[s.datas])
    ensures var (q, w) := (Tick(s, ws, k), ws[s.datas]);
            && q.ctl == Store(s.ctl, w.data) && q.delivered == s.delivered && q.datas == s.datas + 1
            && TlbWords(ws[..q.datas]) == TlbWords(ws[..s.datas]) + if RegOf(w) == REG_TLB then [w.data] else []
  {
    hide Message, Decode, Store, Holds;
    assert ws[..s.datas + 1][..s.datas] == ws[..s.datas];
  }

  lemma DataTick(s: Bus, ws: seq<RegWrite>, k: Cycle)
    requires Inv(s, ws) && Tick(s, ws, k).datas != s.datas
    ensures HoldsAll(Tick(s, ws, k), ws)
  {
    DataFields(s, ws, k);
    var w, words := ws[s.datas], TlbWords(ws[..s.datas]);
    hide Decode, Message, Tick, TlbWords, InStep;
    if RegOf(w) != REG_TLB {
      assert words + [] == words;
    } else {
      hide Store;
      CompleteHolds(s.ctl, s.delivered, words, w.data);
      StoreHolds(s.ctl, s.delivered, words, w.data);
      FewWords(s.ctl, s.delivered, words);
      hide Holds;
    }
  }

  lemma FewWords(c: Ctl, delivered: seq<T.Mapping>, words: seq<nat>)
    requires Holds(c, delivered, words)
    ensures c.wordCounter <= 4
  {
    hide Decode, Message;
  }

  lemma {:induction false} HandOverTick(s: Bus, ws: seq<RegWrite>, k: Cycle)
    requires Inv(s, ws)
    ensures s.ctl.state == WriteTlb && s.ctl.tlbValid && k.tlb ==> HoldsAll(Tick(s, ws, k), ws)
  {
    if !(s.ctl.state == WriteTlb && s.ctl.tlbValid && k.tlb) {
      return;
    }
    var q := Tick(s, ws, k);
    assert q.ctl == s.ctl.(bvalid := true, tlbValid := false, state := WriteResponse) && q.datas == s.datas;
    assert q.delivered == s.delivered + [Message(s.ctl.message)];
    HandOverHolds(s.ctl, s.delivered, TlbWords(ws[..s.datas]));
    hide Decode, Message, Tick;
  }

  /** Any other cycle leaves the message alone. */
  lemma OtherFields(s: Bus, ws: seq<RegWrite>, k: Cycle)
    requires InStep(s, ws) && Tick(s, ws, k).datas == s.datas && !(s.ctl.state == WriteTlb && s.ctl.tlbValid && k.tlb)
    ensures var (c, c') := (s.ctl, Tick(s, ws, k).ctl);
            && c'.message == c.message && c'.wordCounter == c.wordCounter && (c'.state == WriteTlb <==> c.state == WriteTlb)
            && Tick(s, ws, k).delivered == s.delivered
  {
    hide Message, Set;
  }

  lemma OtherTick(s: Bus, ws: seq<RegWrite>, k: Cycle)
    requires Inv(s, ws) && Tick(s, ws, k).datas == s.datas && !(s.ctl.state == WriteTlb && s.ctl.tlbValid && k.tlb)
    ensures HoldsAll(Tick(s, ws, k), ws)
  {
    hide Decode, Message, Tick, TlbWords;
    OtherFields(s, ws, k);
  }

  lemma TickKeeps(s: Bus, ws: seq<RegWrite>, k: Cycle)
    requires Inv(s, ws)
    ensures Inv(Tick(s, ws, k), ws)
  {
    TickInStep(s, ws, k);
    var q := Tick(s, ws, k);
    hide InStep, Holds, Tick, TlbWords;
    if q.datas != s.datas {
      DataTick(s, ws, k);
    } else if s.ctl.state == WriteTlb && s.ctl.tlbValid && k.tlb {
      HandOverTick(s, ws, k);
    } else {
      OtherTick(s, ws, k);
    }
  }

  lemma {:induction false} TicksKeep(s: Bus, ws: seq<RegWrite>, ks: seq<Cycle>)
    requires Inv(s, ws)
    ensures Inv(Ticks(s, ws, ks), ws)
    decreases |ks|
  {
    if ks != [] {
      TickKeeps(s, ws, ks[0]);
      TicksKeep(Tick(s, ws, ks[0]), ws, ks[1..]);
    }
  }

  function Start(c: Ctl): Bus {
    Bus(Reset(c), 0, 0, 0, [])
  }

  lemma {:induction false} TlbWordsPrefix(ws: seq<RegWrite>, n: nat)
    requires n <= |ws|
    ensures TlbWords(ws[..n]) <= TlbWords(ws)
    decreases |ws| - n
  {
    if n == |ws| {
      assert ws[..n] == ws;
    } else {
      TlbWordsPrefix(ws, n + 1);
      assert ws[..n + 1][..n] == ws[..n];
    }
  }

  lemma StartInv(c: Ctl, ws: seq<RegWrite>)
    requires |c.message| == 5
    ensures Inv(Start(c), ws)
  {
    assert TlbWords(ws[..0]) == [];
  }

  lemma DeliveredSoFar(s: Bus, ws: seq<RegWrite>)
    requires Inv(s, ws)
    ensures s.delivered <= Decode(TlbWords(ws))
    ensures s.resps == |ws| && |TlbWords(ws)| % 5 == 0 ==> s.delivered == Decode(TlbWords(ws)) && s.ctl.wordCounter == 0
  {
    var words := TlbWords(ws[..s.datas]);
    var n := |words| - (if s.ctl.state == WriteTlb then 5 else s.ctl.wordCounter);
    TlbWordsPrefix(ws, s.datas);
    hide Message;
    assert words[..n] <= TlbWords(ws);
    DecodePrefix(words[..n], TlbWords(ws));
    if s.resps == |ws| {
      assert ws[..s.datas] == ws;
      if |words| % 5 == 0 {
        assert words[..n] == words;
      }
    }
  }

  /** After any number of clock cycles, with any pattern of stalls on the bus and at the translation buffer and
      with writes to other registers in between, the mappings handed over are a prefix of those written; once the
      last write is answered they are all of them, each once, and the word counter is back at zero. */
  lemma {:induction false} MessagesArrive(c: Ctl, ws: seq<RegWrite>, ks: seq<Cycle>, ms: seq<T.Mapping>)
    requires |c.message| == 5 && TlbWords(ws) == AllWords(ms)
    requires forall i :: 0 <= i < |ms| ==> Is64(ms[i])
    ensures var s := Ticks(Start(c), ws, ks);
            && s.delivered <= ms
            && (s.resps == |ws| ==> s.delivered == ms && s.ctl.wordCounter == 0)
  {
    StartInv(c, ws);
    DecodeAllWords(ms);
    hide Inv, Decode, Ticks, Start;
    TicksKeep(Start(c), ws, ks);
    DeliveredSoFar(Ticks(Start(c), ws, ks), ws);
  }

  // Progress

  /** Cycles to the next answered write while all parties are willing. */
  function Rank(c: Ctl): nat {
    match c.state
    case WriteIdle => if c.awready then 7 else 8
    case WriteData => if c.wready then 5 else 6
    case WriteTlb => if c.tlbValid then 3 else 4
    case WriteResponse => if c.bvalid then 1 else 2
  }

  const WILLING := Cycle(true, true, true, true)

  lemma WillingTick(s: Bus, ws: seq<RegWrite>)
    requires Inv(s, ws) && s.resps < |ws|
    ensures var q := Tick(s, ws, WILLING);
            q.resps == s.resps + 1 || (q.resps == s.resps && Rank(q.ctl) < Rank(s.ctl))
  {
  }

  /** From every reachable state the bus can still answer every write: the state machine never locks up. */
  lemma {:induction false} CanFinish(s: Bus, ws: seq<RegWrite>) returns (ks: seq<Cycle>)
    requires Inv(s, ws) && s.resps <= |ws|
    ensures Ticks(s, ws, ks).resps == |ws|
    decreases |ws| - s.resps, Rank(s.ctl)
  {
    if s.resps == |ws| {
      ks := [];
    } else {
      WillingTick(s, ws);
      TickKeeps(s, ws, WILLING);
      var q := Tick(s, ws, WILLING);
      hide Inv, Tick;
      var more := CanFinish(q, ws);
      ks := [WILLING] + more;
      assert ks[1..] == more;
    }
  }

  // The state machine as registers

  class DmaController {
    var writeState: WriteState
    var awready: bool
    var wready: bool
    var bvalid: bool
    var tlbValid: bool
    var wordCounter: nat
    var writeAddr: nat
    const tlbData: array<nat>

    constructor ()
      ensures fresh(tlbData) && tlbData.Length == 5 && View() == Reset(View())
    {
      writeState, awready, wready, bvalid, tlbValid, wordCounter, writeAddr := WriteIdle, false, false, false, false, 0, 0;
      tlbData := new nat[5];
    }

    function View(): Ctl
      reads this, tlbData
    {
      Ctl(writeState, awready, wready, bvalid, tlbValid, wordCounter, writeAddr, tlbData[..])
    }

    /** One clock edge; every register takes its new value from the old ones. */
    method Edge(x: Wires)
      requires tlbData.Length == 5
      modifies this, tlbData
      ensures View() == Clock(old(View()), x)
    {
      match writeState {
        case WriteIdle =>
          var accepted := x.awvalid && awready;
          awready, wready, bvalid, tlbValid := true, false, false, false;
          writeAddr := x.awaddr % 0x1000 / 32;
          if accepted {
            awready, wready, writeState := false, true, WriteData;
          }
        case WriteData =>
          var accepted := x.wvalid && wready;
          wready := true;
          if accepted {
            wready, bvalid, writeState := false, true, WriteResponse;
            if writeAddr == REG_TLB {
              TakeWord(x.wdata);
            }
          }
        case WriteResponse =>
          var accepted := bvalid && x.bready;
          bvalid := true;
          if accepted {
            bvalid, writeState := false, WriteIdle;
          }
        case WriteTlb =>
          var accepted := tlbValid && x.tlbReady;
          tlbValid := true;
          if accepted {
            bvalid, tlbValid, writeState := true, false, WriteResponse;
          }
      }
    }

    method TakeWord(wdata: nat)
      requires tlbData.Length == 5
      modifies this`wordCounter, this`bvalid, this`tlbValid, this`writeState, tlbData
      ensures if old(wordCounter) == 4 then
                && wordCounter == 0 && !bvalid && tlbValid && writeState == WriteTlb
                && tlbData[..] == old(tlbData[..])[4 := wdata % 2]
              else
                && wordCounter == (old(wordCounter) + 1) % 256
                && bvalid == old(bvalid) && tlbValid == old(tlbValid) && writeState == old(writeState)
                && tlbData[..] == Set(old(tlbData[..]), old(wordCounter), wdata)
    {
      match wordCounter {
        case 0 => tlbData[0] := wdata;
        case 1 => tlbData[1] := wdata;
        case 2 => tlbData[2] := wdata;
        case 3 => tlbData[3] := wdata;
        case 4 => tlbData[4] := wdata % 2;
        case _ =>
      }
      if wordCounter == 4 {
        bvalid, tlbValid, wordCounter, writeState := false, true, 0, WriteTlb;
      } else {
        wordCounter := (wordCounter + 1) % 256;
      }
    }
  }
}
