/** The traffic generator: a command generator that walks a memory window, and a data generator that makes the
    packets to go with its write commands. */
module Bench {
  import opened Axis
  import opened Mem
  import opened Streams
  import S = Splitter
  import T = Tlb
  import W = WritePath

  /** The configuration registers, stable during a run. */
  datatype Config = Config(base: nat, memory: nat, accesses: nat, chunk: nat, stride: nat, isWrite: bool)

  predicate Registers(g: Config) {
    && g.base < TWO_TO_64 && g.memory < TWO_TO_64
    && g.accesses < TWO_TO_32 && g.chunk < TWO_TO_32 && g.stride < TWO_TO_32
  }

  // Commands

  datatype Phase = Idle | WriteCmd | ReadCmd

  datatype State = State(phase: Phase, isRandom: bool, current: nat, count: nat)

  /** The address after `current`: the sums that are compared are a bit wider than the address. */
  function NextAddress(g: Config, isRandom: bool, current: nat): nat {
    var a := Wrap(current + if isRandom then g.stride else g.chunk);
    if a + g.chunk > g.base + g.memory then g.base else a
  }

  function Started(g: Config): State {
    State(if g.isWrite then WriteCmd else ReadCmd, g.stride != 0, g.base, 0)
  }

  /** Which of the two command queues are full in a call. */
  datatype Full = Full(write: bool, read: bool)

  /** The queue of the state's direction has no room. */
  predicate Blocked(s: State, full: Full) {
    match s.phase
    case Idle => false
    case WriteCmd => full.write
    case ReadCmd => full.read
  }

  /** One call; `start` says that a run is asked for and the start signal has room. */
  function Next(g: Config, s: State, start: bool, full: Full): State {
    if s.phase == Idle then if start then Started(g) else s
    else if Blocked(s, full) then s
    else
      var count := (s.count + 1) % TWO_TO_32;
      State(if count == g.accesses then Idle else s.phase, s.isRandom, NextAddress(g, s.isRandom, s.current), count)
  }

  /** What one call sends to the write queue, and to the read queue. */
  function WritesOf(g: Config, s: State, full: Full): seq<MemCmd> {
    if s.phase == WriteCmd && !full.write then [MemCmd(s.current, g.chunk)] else []
  }

  function ReadsOf(g: Config, s: State, full: Full): seq<MemCmd> {
    if s.phase == ReadCmd && !full.read then [MemCmd(s.current, g.chunk)] else []
  }

  datatype Outcome = Outcome(writeCmds: seq<MemCmd>, readCmds: seq<MemCmd>, s: State)

  /** Calls, with the command queues full or not, until the run is over. */
  function Run(g: Config, s: State, fulls: seq<Full>): Outcome
    decreases |fulls|
  {
    if fulls == [] || s.phase == Idle then Outcome([], [], s)
    else
      var o := Run(g, Next(g, s, false, fulls[0]), fulls[1..]);
      Outcome(WritesOf(g, s, fulls[0]) + o.writeCmds, ReadsOf(g, s, fulls[0]) + o.readCmds, o.s)
  }

  /** A whole run: the call that starts it, from an idle state, and the calls that follow. */
  function WholeRun(g: Config, s: State, first: Full, fulls: seq<Full>): Outcome {
    Run(g, Next(g, s, true, first), fulls)
  }

  function Step(g: Config): nat {
    if g.stride != 0 then g.stride else g.chunk
  }

  /** How many addresses there are before the walk starts over. */
  function Period(g: Config): (p: nat)
    ensures p >= 1
  {
    if Step(g) == 0 || g.chunk > g.memory then 1 else (g.memory - g.chunk) / Step(g) + 1
  }

  function Address(g: Config, k: nat): nat {
    g.base + Step(g) * (k % Period(g))
  }

  function Total(g: Config): nat {
    if g.accesses == 0 then TWO_TO_32 else g.accesses
  }

  function Command(g: Config, k: nat): MemCmd {
    MemCmd(Address(g, k), g.chunk)
  }

  function CommandsFrom(g: Config, k: nat, m: nat): (cs: seq<MemCmd>)
    ensures |cs| == m && forall i :: 0 <= i < m ==> cs[i] == Command(g, k + i)
  {
    seq(m, i requires 0 <= i < m => Command(g, k + i))
  }

  predicate NoOverflow(g: Config) {
    g.base + (if g.chunk <= g.memory then g.memory - g.chunk else 0) + Step(g) < TWO_TO_64
  }

  lemma MulLess(a: nat, x: nat, y: nat)
    requires x <= y
    ensures a * x <= a * y
  {
  }

  /** The steps before the last stay in the window, and one more leaves it. */
  lemma StepsFit(g: Config, j: nat)
    requires g.chunk <= g.memory && Step(g) > 0 && j <= Period(g)
    ensures Step(g) * j <= g.memory - g.chunk <==> j < Period(g)
  {
    var room, st := g.memory - g.chunk, Step(g);
    if j < Period(g) {
      MulLess(st, j, room / st);
    } else {
      assert st * (room / st + 1) == st * (room / st) + st;
    }
  }

  lemma NextIndex(k: nat, p: nat)
    requires p >= 1
    ensures (k + 1) % p == if k % p + 1 < p then k % p + 1 else 0
  {
    if k % p + 1 < p {
      ModUnique(k + 1, p, k / p, k % p + 1);
    } else {
      ModUnique(k + 1, p, k / p + 1, 0);
    }
  }

  /** A step from `d` bytes into the window. */
  lemma StepFrom(g: Config, d: nat)
    requires Registers(g) && NoOverflow(g) && d + g.chunk <= g.memory
    ensures NextAddress(g, g.stride != 0, g.base + d)
            == if d + Step(g) + g.chunk <= g.memory then g.base + (d + Step(g)) else g.base
  {
  }

  /** From step `j` of the walk to the next, or back to the start. */
  lemma WalkStep(g: Config, j: nat)
    requires Registers(g) && NoOverflow(g) && j < Period(g)
    ensures NextAddress(g, g.stride != 0, g.base + Step(g) * j)
            == if j + 1 < Period(g) then g.base + Step(g) * (j + 1) else g.base
  {
    var st := Step(g);
    if g.chunk <= g.memory && st > 0 {
      StepsFit(g, j);
      StepsFit(g, j + 1);
      hide Period, NextAddress, NoOverflow, Registers;
      assert st * (j + 1) == st * j + st;
      StepFrom(g, st * j);
    } else {
      assert j == 0 && st * 0 == 0;
    }
  }

  /** The walk follows the closed form. */
  lemma {:induction false} AddressWalk(g: Config, k: nat)
    requires Registers(g) && NoOverflow(g)
    ensures NextAddress(g, g.stride != 0, Address(g, k)) == Address(g, k + 1)
  {
    NextIndex(k, Period(g));
    hide NextAddress, Period, NoOverflow, Step;
    WalkStep(g, k % Period(g));
    assert Step(g) * 0 == 0;
  }

  /** Command `k` of the run is the next. */
  predicate At(g: Config, s: State, k: nat) {
    k < Total(g) && s == State(Started(g).phase, g.stride != 0, Address(g, k), k)
  }

  /** How many of the calls find room in the queue of the direction. */
  function Free(fulls: seq<Full>, isWrite: bool): nat {
    if fulls == [] then 0 else (if (if isWrite then fulls[0].write else fulls[0].read) then 0 else 1) + Free(fulls[1..], isWrite)
  }

  function Sent(g: Config, o: Outcome): seq<MemCmd> {
    if g.isWrite then o.writeCmds else o.readCmds
  }

  function Unused(g: Config, o: Outcome): seq<MemCmd> {
    if g.isWrite then o.readCmds else o.writeCmds
  }

  lemma {:induction false} RunStep(g: Config, s: State, fulls: seq<Full>)
    requires s.phase != Idle && fulls != []
    ensures var o' := Run(g, Next(g, s, false, fulls[0]), fulls[1..]);
            Run(g, s, fulls) == Outcome(WritesOf(g, s, fulls[0]) + o'.writeCmds, ReadsOf(g, s, fulls[0]) + o'.readCmds, o'.s)
  {
  }

  /** A call with room sends command `k`, to the queue of the direction. */
  lemma CommandSent(g: Config, s: State, k: nat, full: Full)
    requires At(g, s, k) && !Blocked(s, full)
    ensures WritesOf(g, s, full) == (if g.isWrite then [Command(g, k)] else [])
    ensures ReadsOf(g, s, full) == (if g.isWrite then [] else [Command(g, k)])
  {
    hide Address;
  }

  lemma NextCommand(g: Config, s: State, k: nat, full: Full)
    requires Registers(g) && NoOverflow(g) && At(g, s, k) && !Blocked(s, full)
    ensures var s' := Next(g, s, false, full);
            if k + 1 < Total(g) then At(g, s', k + 1) else s'.phase == Idle
  {
    AddressWalk(g, k);
    hide NextAddress, Address, NoOverflow;
  }

  lemma {:induction false} CommandStep(g: Config, s: State, k: nat, fulls: seq<Full>)
    requires Registers(g) && NoOverflow(g) && At(g, s, k) && fulls != [] && !Blocked(s, fulls[0])
    ensures var s' := Next(g, s, false, fulls[0]);
            var (o, o') := (Run(g, s, fulls), Run(g, s', fulls[1..]));
            && (if k + 1 < Total(g) then At(g, s', k + 1) else s'.phase == Idle)
            && Sent(g, o) == [Command(g, k)] + Sent(g, o') && Unused(g, o) == Unused(g, o') && o.s == o'.s
  {
    assert s.phase != Idle;
    hide Run, Next, At, Registers, NoOverflow, Total, Command, WritesOf, ReadsOf, Blocked;
    RunStep(g, s, fulls);
    CommandSent(g, s, k, fulls[0]);
    NextCommand(g, s, k, fulls[0]);
  }

  lemma StallStep(g: Config, s: State, fulls: seq<Full>)
    requires s.phase != Idle && fulls != [] && Blocked(s, fulls[0])
    ensures Run(g, s, fulls) == Run(g, s, fulls[1..])
  {
    var o := Run(g, s, fulls[1..]);
    assert [] + o.writeCmds == o.writeCmds && [] + o.readCmds == o.readCmds;
  }

  lemma {:induction false} RunFrom(g: Config, s: State, k: nat, fulls: seq<Full>)
    requires Registers(g) && NoOverflow(g) && At(g, s, k)
    ensures var m := if Free(fulls, g.isWrite) < Total(g) - k then Free(fulls, g.isWrite) else Total(g) - k;
            var o := Run(g, s, fulls);
            && Sent(g, o) == CommandsFrom(g, k, m) && Unused(g, o) == []
            && (k + m == Total(g) <==> o.s.phase == Idle)
    decreases |fulls|
  {
    if fulls != [] {
      var s', rest := Next(g, s, false, fulls[0]), fulls[1..];
      if Blocked(s, fulls[0]) {
        StallStep(g, s, fulls);
        hide Run, Registers, NoOverflow, Next, CommandsFrom, Sent, Unused;
        RunFrom(g, s, k, rest);
      } else {
        CommandStep(g, s, k, fulls);
        if k + 1 < Total(g) {
          hide Run, Registers, NoOverflow, Next, CommandsFrom, Sent, Unused;
          RunFrom(g, s', k + 1, rest);
        } else {
          assert Run(g, s', rest) == Outcome([], [], s');
          hide Run, Registers, NoOverflow, Next, CommandsFrom;
        }
        FirstCommand(g, k, Sent(g, Run(g, s', rest)));
      }
    }
  }

  lemma FirstCommand(g: Config, k: nat, rest: seq<MemCmd>)
    ensures rest == CommandsFrom(g, k + 1, |rest|) ==> [Command(g, k)] + rest == CommandsFrom(g, k, |rest| + 1)
  {
    if rest == CommandsFrom(g, k + 1, |rest|) {
      var all := [Command(g, k)] + rest;
      forall i | 0 <= i < |all| ensures all[i] == CommandsFrom(g, k, |rest| + 1)[i] {
        if i > 0 {
          assert rest[i - 1] == Command(g, k + 1 + (i - 1));
        }
      }
    }
  }

  lemma StartsAt(g: Config)
    ensures At(g, Started(g), 0)
  {
    NextIndex(0, Period(g));
    assert 0 % Period(g) == 0 && Step(g) * 0 == 0;
  }

  /** The commands of a run, however often the queues are full.  A write run sends to the write queue only, a read run to
      the read queue only; command `k` is for the k-th address of the walk; and the run is over after exactly as
      many as were asked for, or 2^32 when none were. */
  lemma RunCommands(g: Config, s: State, first: Full, fulls: seq<Full>)
    requires Registers(g) && NoOverflow(g) && s.phase == Idle
    ensures var o := WholeRun(g, s, first, fulls);
            var cs := if g.isWrite then o.writeCmds else o.readCmds;
            var total := if g.accesses == 0 then TWO_TO_32 else g.accesses;
            && (if g.isWrite then o.readCmds else o.writeCmds) == []
            && cs == CommandsFrom(g, 0, |cs|)
            && |cs| == (if Free(fulls, g.isWrite) < total then Free(fulls, g.isWrite) else total)
            && (o.s.phase == Idle <==> |cs| == total)
  {
    StartsAt(g);
    hide At, Run, NoOverflow, CommandsFrom;
    RunFrom(g, Started(g), 0, fulls);
  }

  /** The k-th address: steps of the stride, or of the chunk length if there is no stride, that start over when the next
      chunk would leave the window; only the first address if nothing steps or no chunk fits. */
  lemma KthAddress(g: Config, k: nat)
    ensures var step := if g.stride > 0 then g.stride else g.chunk;
            if g.chunk <= g.memory && step > 0 then
              Command(g, k) == MemCmd(g.base + step * (k % ((g.memory - g.chunk) / step + 1)), g.chunk)
            else Command(g, k) == MemCmd(g.base, g.chunk)
  {
    assert k % 1 == 0 && Step(g) * 0 == 0;
  }

  /** Every command lies in the window exactly when one chunk fits it. */
  lemma {:induction false} CommandsInWindow(g: Config)
    ensures (forall k :: k >= 0 ==> g.base <= Address(g, k) && Address(g, k) + g.chunk <= g.base + g.memory)
            <==> g.chunk <= g.memory
  {
    StartsAt(g);
    assert Address(g, 0) == g.base;
    if g.chunk <= g.memory {
      forall k | k >= 0 ensures g.base <= Address(g, k) && Address(g, k) + g.chunk <= g.base + g.memory {
        if Step(g) > 0 {
          StepsFit(g, k % Period(g));
        } else {
          assert Step(g) * (k % Period(g)) == 0;
        }
      }
    }
  }

  // Data

  datatype GenState = GenState(active: bool, remaining: nat, count: nat)

  datatype GenOutcome = GenOutcome(out: seq<Word>, s: GenState)

  /** Byte `i` of every word of a packet. */
  function Pattern(count: nat, i: nat): Byte {
    ((count + i) % 0x100) as Byte
  }

  /** The word sent with `remaining` bytes to go; `u` is what the keep bits hold before any is set. */
  function GenWord(count: nat, remaining: nat, u: seq<bool>): Word
    requires |u| == 64
  {
    Word(seq(64, i requires 0 <= i < 64 => Pattern(count, i)), seq(64, i requires 0 <= i < 64 => remaining > i || u[i]),
         remaining <= 64)
  }

  /** One call while a run is on. */
  function GenNext(g: Config, s: GenState): GenState {
    var last := s.remaining <= 64;
    var count := if last then (s.count + 1) % TWO_TO_32 else s.count;
    GenState(count != g.accesses, if last then g.chunk else s.remaining - 64, count)
  }

  function After(out: seq<Word>, o: GenOutcome): GenOutcome {
    o.(out := out + o.out)
  }

  lemma AfterConcat(a: seq<Word>, b: seq<Word>, o: GenOutcome)
    ensures After(a, After(b, o)) == After(a + b, o)
  {
    assert a + (b + o.out) == (a + b) + o.out;
  }

  function GenRun(g: Config, s: GenState, calls: nat, u: seq<bool>): GenOutcome
    requires |u| == 64
    decreases calls
  {
    if calls == 0 || !s.active then GenOutcome([], s)
    else After([GenWord(s.count, s.remaining, u)], GenRun(g, GenNext(g, s), calls - 1, u))
  }

  /** The words of packet number `count`, from where `len` bytes are to go. */
  function PacketOf(count: nat, len: nat, u: seq<bool>): (p: seq<Word>)
    requires |u| == 64
    ensures len >= 1 ==> |p| == (len + 63) / 64
    decreases len
  {
    [GenWord(count, len, u)] + if len <= 64 then [] else PacketOf(count, len - 64, u)
  }

  /** How many bytes are in the last word of `len` bytes. */
  function TailSize(len: nat): nat
    decreases len
  {
    if len <= 64 then len else TailSize(len - 64)
  }

  /** No keep bit that the loop does not set was set before. */
  predicate NoStray(u: seq<bool>, c: nat) {
    forall i :: c <= i < |u| ==> !u[i]
  }

  lemma {:induction false} StrayLonger(d: seq<Byte>, k: seq<bool>, c: nat)
    requires |d| == |k| && c <= |k| && forall i :: 0 <= i < c ==> k[i]
    ensures |Kept(d, k)| == c <==> NoStray(k, c)
    ensures |Kept(d, k)| >= c
    decreases |d|
  {
    if d != [] {
      assert NoStray(k, c) <==> (c == 0 ==> !k[0]) && NoStray(k[1..], if c == 0 then 0 else c - 1) by {
        assert forall i :: 1 <= i < |k| ==> k[i] == k[1..][i - 1];
      }
      StrayLonger(d[1..], k[1..], if c == 0 then 0 else c - 1);
    }
  }

  /** The last word is well formed and of the right length exactly when no stray keep bit was set. */
  lemma TailWord(count: nat, len: nat, u: seq<bool>)
    requires |u| == 64 && 1 <= len <= 64
    ensures var w := GenWord(count, len, u);
            && w.last && HasWidth(w, 64)
            && (IsTail(w, 64) && |Load(w)| == len <==> NoStray(u, len))
            && (NoStray(u, len) ==> Load(w) == w.data[..len])
  {
    var w := GenWord(count, len, u);
    StrayLonger(w.data, w.keep, len);
    assert NoStray(w.keep, len) <==> NoStray(u, len) by {
      assert forall i :: len <= i < 64 ==> (w.keep[i] <==> u[i]);
    }
    if NoStray(u, len) {
      assert w.keep == Mask(64, len);
      LoadMask(w, 64, len);
    }
  }

  lemma FullWord(count: nat, len: nat, u: seq<bool>)
    requires |u| == 64 && len > 64
    ensures var w := GenWord(count, len, u); !w.last && IsFull(w, 64) && Load(w) == w.data
  {
    var w := GenWord(count, len, u);
    assert w.keep == Mask(64, 64);
    LoadMask(w, 64, 64);
  }

  /** A generated packet is well formed and `len` bytes long exactly when no stray keep bit was set in its last word. */
  lemma {:induction false} PacketOk(count: nat, len: nat, u: seq<bool>)
    requires |u| == 64 && len >= 1
    ensures IsPacket(PacketOf(count, len, u), 64) && |Bytes(PacketOf(count, len, u))| == len <==> NoStray(u, TailSize(len))
    decreases len
  {
    var w := GenWord(count, len, u);
    if len <= 64 {
      TailWord(count, len, u);
      assert PacketOf(count, len, u) == [w];
      OneWord(w);
    } else {
      FullWord(count, len, u);
      PacketOk(count, len - 64, u);
      var q := PacketOf(count, len - 64, u);
      assert ([w] + q)[1..] == q;
    }
  }

  lemma LongPacketBytes(count: nat, len: nat, u: seq<bool>)
    requires |u| == 64 && len > 64
    ensures Bytes(PacketOf(count, len, u)) == GenWord(count, len, u).data + Bytes(PacketOf(count, len - 64, u))
  {
    FullWord(count, len, u);
    var q := PacketOf(count, len - 64, u);
    assert ([GenWord(count, len, u)] + q)[1..] == q;
  }

  lemma {:induction false} PacketPattern(count: nat, len: nat, u: seq<bool>, j: nat)
    requires |u| == 64 && len >= 1 && NoStray(u, TailSize(len)) && j < len
    ensures |Bytes(PacketOf(count, len, u))| == len && Bytes(PacketOf(count, len, u))[j] == Pattern(count, j % 64)
    decreases len
  {
    PacketOk(count, len, u);
    WordBytes(count, len, u, j % 64);
    hide Pattern, GenWord, NoStray, IsPacket;
    if len <= 64 {
      ShortPacketBytes(count, len, u);
      assert j % 64 == j;
    } else {
      LongPacketBytes(count, len, u);
      hide *;
      if j >= 64 {
        TailShorter(len);
        PacketPattern(count, len - 64, u, j - 64);
        assert (j - 64) % 64 == j % 64;
      }
    }
  }

  /** Byte `j` of packet number `count`. */
  lemma PacketBytes(count: nat, len: nat, u: seq<bool>, j: nat)
    requires |u| == 64 && len >= 1 && NoStray(u, TailSize(len)) && j < len
    ensures |Bytes(PacketOf(count, len, u))| == len
    ensures Bytes(PacketOf(count, len, u))[j] as int == (count + j % 64) % 0x100
  {
    PacketPattern(count, len, u, j);
  }

  lemma TailShorter(len: nat)
    requires len > 64
    ensures TailSize(len) == TailSize(len - 64)
  {
  }

  lemma WordBytes(count: nat, len: nat, u: seq<bool>, i: nat)
    requires |u| == 64 && i < 64
    ensures |GenWord(count, len, u).data| == 64 && GenWord(count, len, u).data[i] == Pattern(count, i)
  {
  }

  lemma ShortPacketBytes(count: nat, len: nat, u: seq<bool>)
    requires |u| == 64 && 1 <= len <= 64 && NoStray(u, len)
    ensures Bytes(PacketOf(count, len, u)) == Part(GenWord(count, len, u).data, 0, len)
  {
    var w := GenWord(count, len, u);
    TailWord(count, len, u);
    assert PacketOf(count, len, u) == [w];
    OneWord(w);
  }

  function Packets(g: Config, k: nat, m: nat, u: seq<bool>): (ps: seq<seq<Word>>)
    requires |u| == 64
    ensures |ps| == m && forall i :: 0 <= i < m ==> ps[i] == PacketOf(k + i, g.chunk, u)
  {
    seq(m, i requires 0 <= i < m => PacketOf(k + i, g.chunk, u))
  }

  function WordsPerPacket(g: Config): nat {
    (g.chunk + 63) / 64
  }

  /** The state in which the packet after number `count` is up, or the run is over. */
  function Following(g: Config, count: nat): GenState {
    GenState(count + 1 != g.accesses, g.chunk, count + 1)
  }

  /** One packet: as many calls as it has words, and the next packet is up, or the run is over. */
  lemma {:induction false} GenPacket(g: Config, count: nat, len: nat, calls: nat, u: seq<bool>)
    requires |u| == 64 && Registers(g) && 1 <= len && count < g.accesses
    ensures var p := PacketOf(count, len, u);
            GenRun(g, GenState(true, len, count), |p| + calls, u) == After(p, GenRun(g, Following(g, count), calls, u))
    decreases len
  {
    var s := GenState(true, len, count);
    PacketCons(count, len, u);
    GenCons(g, s, |PacketOf(count, len, u)| - 1 + calls, u);
    NextState(g, count, len);
    hide *;
    if len > 64 {
      GenPacket(g, count, len - 64, calls, u);
      AfterConcat([GenWord(count, len, u)], PacketOf(count, len - 64, u), GenRun(g, Following(g, count), calls, u));
    }
  }

  lemma NextState(g: Config, count: nat, len: nat)
    requires Registers(g) && count < g.accesses
    ensures GenNext(g, GenState(true, len, count)) == if len > 64 then GenState(true, len - 64, count) else Following(g, count)
  {
  }

  lemma GenCons(g: Config, s: GenState, calls: nat, u: seq<bool>)
    requires |u| == 64 && s.active
    ensures GenRun(g, s, calls + 1, u) == After([GenWord(s.count, s.remaining, u)], GenRun(g, GenNext(g, s), calls, u))
  {
  }

  lemma PacketCons(count: nat, len: nat, u: seq<bool>)
    requires |u| == 64
    ensures PacketOf(count, len, u) == [GenWord(count, len, u)] + if len <= 64 then [] else PacketOf(count, len - 64, u)
  {
  }

  lemma OneLess(left: nat, n: nat)
    requires left > 0
    ensures left * n == n + (left - 1) * n && (left - 1) * n >= 0
  {
  }

  /** The rest of a run: one packet for each access that is left. */
  lemma {:induction false} GenFrom(g: Config, count: nat, u: seq<bool>)
    requires |u| == 64 && Registers(g) && 1 <= g.chunk && count <= g.accesses
    ensures GenRun(g, GenState(count != g.accesses, g.chunk, count), (g.accesses - count) * WordsPerPacket(g), u)
            == GenOutcome(Flatten(Packets(g, count, g.accesses - count, u)), GenState(false, g.chunk, g.accesses))
    decreases g.accesses - count
  {
    var left := g.accesses - count;
    if left > 0 {
      var p, n := PacketOf(count, g.chunk, u), WordsPerPacket(g);
      assert |p| == n;
      hide GenRun, PacketOf, WordsPerPacket, Registers;
      OneLess(left, n);
      GenPacket(g, count, g.chunk, (left - 1) * n, u);
      GenFrom(g, count + 1, u);
      var ps := Packets(g, count, left, u);
      assert ps[1..] == Packets(g, count + 1, left - 1, u);
    }
  }

  lemma {:induction false} GenSplit(g: Config, s: GenState, a: nat, b: nat, u: seq<bool>)
    requires |u| == 64
    ensures var o := GenRun(g, s, a, u);
            GenRun(g, s, a + b, u) == After(o.out, GenRun(g, o.s, b, u))
    decreases a
  {
    var o := GenRun(g, s, a, u);
    var r := GenRun(g, o.s, b, u);
    if a == 0 || !s.active {
      assert [] + r.out == r.out;
    } else {
      GenSplit(g, GenNext(g, s), a - 1, b, u);
      AfterConcat([GenWord(s.count, s.remaining, u)], GenRun(g, GenNext(g, s), a - 1, u).out, r);
    }
  }

  /** The words of a run: at any time a prefix of the packets' words, and all of them when the run is over, which it
      is after exactly as many calls as there are words. */
  lemma RunWords(g: Config, calls: nat, u: seq<bool>)
    requires |u| == 64 && Registers(g) && 1 <= g.chunk && 1 <= g.accesses
    ensures var o := GenRun(g, GenState(true, g.chunk, 0), calls, u);
            var all := Flatten(Packets(g, 0, g.accesses, u));
            && o.out <= all
            && (calls >= g.accesses * WordsPerPacket(g) ==> o.out == all && !o.s.active)
  {
    var total := g.accesses * WordsPerPacket(g);
    var s := GenState(true, g.chunk, 0);
    GenFrom(g, 0, u);
    if calls <= total {
      GenSplit(g, s, calls, total - calls, u);
    } else {
      GenSplit(g, s, total, calls - total, u);
    }
  }

  // The generators in front of the write path

  /** The whole window lies in mapped pages of the translation buffer. */
  predicate WindowMapped(g: Config, t: T.State) {
    var x := Wrap(g.base - t.base);
    g.memory >= 1 && x + g.memory <= |t.table| * PAGE_SIZE && (x + g.memory - 1) / PAGE_SIZE <= t.top
  }

  /** Chunks of at most a page, and addresses that are multiples of eight bytes into the buffer. */
  predicate Suitable(g: Config, t: T.State) {
    && Registers(g) && NoOverflow(g) && 1 <= g.chunk <= g.memory && g.chunk <= PAGE_SIZE
    && Wrap(g.base - t.base) % 8 == 0 && Step(g) % 8 == 0
  }

  lemma MultipleOfEight(x: nat, st: nat, j: nat)
    requires x % 8 == 0 && st % 8 == 0
    ensures (x + st * j) % 8 == 0 && OffsetIn(x + st * j) % 8 == 0
  {
    var a, b := x / 8, st / 8;
    assert x + st * j == 8 * (a + b * j) by {
      assert st * j == 8 * (b * j);
    }
    ModUnique(x + st * j, 8, a + b * j, 0);
    var y := x + st * j;
    assert y == y / PAGE_SIZE * PAGE_SIZE + OffsetIn(y);
  }

  lemma PageBound(a: nat, b: nat, top: nat)
    requires a <= b && b / PAGE_SIZE <= top
    ensures a / PAGE_SIZE <= top
  {
  }

  /** Every generated command is one that the write path accepts, and it starts at a multiple of eight bytes. */
  lemma CommandOk(g: Config, t: T.State, base: nat, k: nat)
    requires Suitable(g, t) && WindowMapped(g, t) && W.TableOk(t) && OffsetIn(base) == OffsetIn(t.base)
    ensures W.Admissible(t, Command(g, k)) && S.WithOffset(Command(g, k), base).pageOffset % 8 == 0
  {
    var j := k % Period(g);
    var d := Step(g) * j;
    CommandFits(g, k);
    MultipleOfEight(Wrap(g.base - t.base), Step(g), j);
    hide Address, Period, Step, W.Admissible, S.WithOffset, WindowMapped, W.TableOk;
    assert Command(g, k) == MemCmd(g.base + d, g.chunk);
    ChunkOk(g, t, base, d);
  }

  lemma ChunkOk(g: Config, t: T.State, base: nat, d: nat)
    requires Suitable(g, t) && WindowMapped(g, t) && W.TableOk(t) && OffsetIn(base) == OffsetIn(t.base)
    requires d + g.chunk <= g.memory && OffsetIn(Wrap(g.base - t.base) + d) % 8 == 0
    ensures var c := MemCmd(g.base + d, g.chunk);
            W.Admissible(t, c) && S.WithOffset(c, base).pageOffset % 8 == 0
  {
    var c, x := MemCmd(g.base + d, g.chunk), Wrap(g.base - t.base);
    assert c.addr < TWO_TO_64 && x + d < TWO_TO_64;
    hide W.Admissible, S.WithOffset, W.TableOk;
    W.WrapShift(t.base, g.base, d);
    assert Wrap(c.addr) == c.addr && Wrap(c.addr - t.base) == x + d;
    W.SameOffset(t, c, base);
    PageBound(x + d + c.len - 1, x + g.memory - 1, t.top);
    InWindow(g, t, c, x + d);
  }

  lemma InWindow(g: Config, t: T.State, c: MemCmd, y: nat)
    requires WindowMapped(g, t) && Wrap(c.addr - t.base) == y && c.addr < TWO_TO_64 && 1 <= c.len <= PAGE_SIZE
    requires y + c.len <= Wrap(g.base - t.base) + g.memory && (y + c.len - 1) / PAGE_SIZE <= t.top
    ensures W.Admissible(t, c)
  {
  }

  lemma CommandFits(g: Config, k: nat)
    requires g.chunk <= g.memory && g.chunk >= 1
    ensures var d := Step(g) * (k % Period(g)); Address(g, k) == g.base + d && 0 <= d && d + g.chunk <= g.memory
  {
    StepsFit(g, k % Period(g));
  }

  /** The generators meet the splitter's contract for the whole run. */
  lemma MeetsContract(g: Config, t: T.State, base: nat, u: seq<bool>)
    requires Suitable(g, t) && WindowMapped(g, t) && W.TableOk(t) && OffsetIn(base) == OffsetIn(t.base)
    requires |u| == 64 && NoStray(u, TailSize(g.chunk))
    ensures var cs := CommandsFrom(g, 0, g.accesses);
            && S.Carries(cs, Packets(g, 0, g.accesses, u))
            && W.AllAdmissible(t, cs)
            && S.AlignedCrossings(S.Offsets(cs, base))
  {
    var cs := CommandsFrom(g, 0, g.accesses);
    hide Address, Suitable, W.Admissible, S.WithOffset;
    forall k | 0 <= k < |cs| ensures W.Admissible(t, cs[k]) && S.WithOffset(cs[k], base).pageOffset % 8 == 0 {
      CommandOk(g, t, base, k);
    }
    assert g.chunk >= 1 by {
      ChunkPositive(g, t);
    }
    forall k | 0 <= k < |cs|
      ensures IsPacket(Packets(g, 0, g.accesses, u)[k], 64) && |Bytes(Packets(g, 0, g.accesses, u)[k])| == cs[k].len
    {
      PacketOk(k, g.chunk, u);
    }
  }

  lemma ChunkPositive(g: Config, t: T.State)
    requires Suitable(g, t)
    ensures g.chunk >= 1
  {
  }

  /** A whole benchmark run through the write path, under any schedule of either: what the command generator sent to the
      write queue and the data generator to the data queue makes the byte writes of the walk, and write commands
      never move the counters of the translation buffer. */
  lemma BenchWrites(g: Config, s: State, first: Full, fulls: seq<Full>, calls: nat, p: W.Path, schedule: seq<W.Action>,
                    base: nat, word: Word, u: seq<bool>)
    requires Suitable(g, p.tlb) && WindowMapped(g, p.tlb) && W.TableOk(p.tlb) && OffsetIn(base) == OffsetIn(p.tlb.base)
    requires |u| == 64 && NoStray(u, TailSize(g.chunk))
    requires g.isWrite && 1 <= g.accesses && s.phase == Idle
    requires WholeRun(g, s, first, fulls).s.phase == Idle && calls >= g.accesses * WordsPerPacket(g)
    requires W.Start(p) && p.pipe.cmdSrc == WholeRun(g, s, first, fulls).writeCmds
    requires p.pipe.dataSrc == GenRun(g, GenState(true, g.chunk, 0), calls, u).out
    ensures var q := W.Drive(p, schedule, base, word);
            var all := W.AllByteWrites(p.tlb, CommandsFrom(g, 0, g.accesses), Payloads(Packets(g, 0, g.accesses, u)));
            && p.pipe.cmdSrc == CommandsFrom(g, 0, g.accesses)
            && W.Written(q) <= all
            && (W.Finished(q) ==> W.Written(q) == all)
            && q.tlb == T.CountAll(p.tlb, q.readsTaken)
  {
    ChunkPositive(g, p.tlb);
    hide WindowMapped, W.Start, W.Drive, W.AllByteWrites, W.Written, W.Finished, T.CountAll, Flatten, WholeRun, GenRun;
    RunCommands(g, s, first, fulls);
    RunWords(g, calls, u);
    hide Suitable;
    MeetsContract(g, p.tlb, base, u);
    W.WritesAreByteWrites(p, Packets(g, 0, g.accesses, u), schedule, base, word);
  }

  // The generators as the code runs them

  class CmdGenerator {
    var state: Phase
    var isRandom: bool
    var currentAddress: nat
    var count: nat

    constructor ()
      ensures state == Idle
    {
      state, isRandom, currentAddress, count := Idle, false, 0, 0;
    }

    function View(): State
      reads this
    {
      State(state, isRandom, currentAddress, count)
    }

    method Call(g: Config, start: bool, startFull: bool, writeFull: bool, readFull: bool,
                startSignal: Stream<bool>, writeCmd: Stream<MemCmd>, readCmd: Stream<MemCmd>)
      requires writeCmd != readCmd
      modifies this, startSignal, writeCmd, readCmd
      ensures View() == Next(g, old(View()), start && !startFull, Full(writeFull, readFull))
      ensures writeCmd.items == old(writeCmd.items) + WritesOf(g, old(View()), Full(writeFull, readFull))
      ensures readCmd.items == old(readCmd.items) + ReadsOf(g, old(View()), Full(writeFull, readFull))
      ensures startSignal.items == old(startSignal.items)
                                   + if old(state) == Idle && start && !startFull then [true] else []
    {
      match state {
        case Idle =>
          if start && !startFull {
            isRandom := g.stride != 0;
            currentAddress := g.base;
            count := 0;
            startSignal.Write(true);
            state := if g.isWrite then WriteCmd else ReadCmd;
          }
        case WriteCmd =>
          if !writeFull {
            writeCmd.Write(MemCmd(currentAddress, g.chunk));
            Advance(g);
          }
        case ReadCmd =>
          if !readFull {
            readCmd.Write(MemCmd(currentAddress, g.chunk));
            Advance(g);
          }
      }
    }

    method Advance(g: Config)
      requires state != Idle
      modifies this
      ensures View() == Next(g, old(View()), false, Full(false, false))
    {
      if !isRandom {
        currentAddress := Wrap(currentAddress + g.chunk);
      } else {
        currentAddress := Wrap(currentAddress + g.stride);
      }
      if currentAddress + g.chunk > g.base + g.memory {
        currentAddress := g.base;
      }
      count := (count + 1) % TWO_TO_32;
      if count == g.accesses {
        state := Idle;
      }
    }
  }

  class DataGenerator {
    var state: nat
    var remainingLength: nat
    var count: nat

    constructor ()
      ensures Valid() && state == 0
    {
      state, remainingLength, count := 0, 0, 0;
    }

    predicate Valid()
      reads this
    {
      state < 2 && remainingLength < TWO_TO_32
    }

    function View(): GenState
      reads this
    {
      GenState(state == 1, remainingLength, count)
    }

    method Call(g: Config, start: bool, u: seq<bool>, doneSignal: Stream<bool>, writeData: Stream<Word>)
      requires |u| == 64 && Registers(g) && Valid()
      modifies this, doneSignal, writeData
      ensures Valid()
      ensures if old(state) == 0 then
                && View() == (if start && g.isWrite then GenState(true, g.chunk, 0) else old(View()))
                && writeData.items == old(writeData.items) && doneSignal.items == old(doneSignal.items)
              else
                && View() == GenNext(g, old(View()))
                && writeData.items == old(writeData.items) + [GenWord(old(count), old(remainingLength), u)]
                && doneSignal.items == old(doneSignal.items) + if state == 0 then [true] else []
    {
      if state == 0 {
        if start && g.isWrite {
          remainingLength := g.chunk;
          count := 0;
          state := 1;
        }
      } else {
        var data, keep := Fill(u);
        var last := remainingLength <= 64;
        remainingLength := (remainingLength - 64) % TWO_TO_32;
        writeData.Write(Word(data, keep, last));
        if last {
          count := (count + 1) % TWO_TO_32;
          remainingLength := g.chunk;
        }
        if count == g.accesses {
          doneSignal.Write(true);
          state := 0;
        }
      }
    }

    /** The loop that fills the word. */
    method Fill(u: seq<bool>) returns (data: seq<Byte>, keep: seq<bool>)
      requires |u| == 64
      ensures data == GenWord(count, remainingLength, u).data && keep == GenWord(count, remainingLength, u).keep
    {
      data, keep := Zeros(64), u;
      for i := 0 to 64
        invariant |data| == |keep| == 64
        invariant forall k :: 0 <= k < i ==> data[k] == Pattern(count, k) && keep[k] == (remainingLength > k || u[k])
        invariant forall k :: i <= k < 64 ==> keep[k] == u[k]
      {
        data := data[i := ((count + i) % 0x100) as Byte];
        if remainingLength > i {
          keep := keep[i := true];
        }
      }
    }
  }
}
