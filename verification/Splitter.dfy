/** The page-boundary splitter: three communicating stages that cut a write command, and its packet, at
    the end of a 2 MiB page. */
module Splitter {
  import opened Axis
  import opened Mem
  import opened Streams
  import P = PacketSplit

  datatype InternalCmd = InternalCmd(addr: nat, len: nat, pageOffset: PageOff)

  // The command half

  function WithOffset(c: MemCmd, base: nat): InternalCmd {
    InternalCmd(c.addr, c.len, OffsetIn((c.addr - base) % TWO_TO_48))
  }

  predicate Crosses(c: InternalCmd) {
    c.pageOffset + c.len > PAGE_SIZE
  }

  function ToPageEnd(c: InternalCmd): nat {
    PAGE_SIZE - c.pageOffset
  }

  /** What is left of a command behind the page end. */
  function Rest(c: InternalCmd): InternalCmd
    requires Crosses(c)
  {
    c.(addr := Wrap(c.addr + ToPageEnd(c)), len := c.len - ToPageEnd(c))
  }

  function Pieces(c: InternalCmd): seq<MemCmd> {
    if Crosses(c) then [MemCmd(c.addr, ToPageEnd(c)), MemCmd(Rest(c).addr, Rest(c).len)]
    else [MemCmd(c.addr, c.len)]
  }

  function MetaOf(c: InternalCmd): P.Meta {
    if Crosses(c) then P.Meta(ToPageEnd(c), true) else P.Meta(c.len, false)
  }

  function Offsets(cs: seq<MemCmd>, base: nat): (os: seq<InternalCmd>)
    ensures |os| == |cs| && forall k :: 0 <= k < |cs| ==> os[k] == WithOffset(cs[k], base)
  {
    seq(|cs|, k requires 0 <= k < |cs| => WithOffset(cs[k], base))
  }

  function AllPieces(cs: seq<InternalCmd>): seq<MemCmd> {
    if cs == [] then [] else Pieces(cs[0]) + AllPieces(cs[1..])
  }

  function AllMetas(cs: seq<InternalCmd>): (ms: seq<P.Meta>)
    ensures |ms| == |cs| && forall k :: 0 <= k < |cs| ==> ms[k] == MetaOf(cs[k])
  {
    seq(|cs|, k requires 0 <= k < |cs| => MetaOf(cs[k]))
  }

  // The three stages, their queues, and what the environment has yet to offer

  datatype BoundaryState = BoundaryState(splitting: bool, cmd: InternalCmd, newLength: nat)

  datatype Pipe = Pipe(
    cmdSrc: seq<MemCmd>, dataSrc: seq<Word>,
    cmdIn: seq<MemCmd>, dataIn: seq<Word>,
    pageOffsetFifo: seq<InternalCmd>, metaFifo: seq<P.Meta>,
    boundary: BoundaryState, pkg: P.State,
    cmdOut: seq<MemCmd>, dataOut: seq<Word>)

  const PAGE_OFFSET_FIFO_DEPTH := 2
  const META_FIFO_DEPTH := 4

  /** Who moves next: the environment offers an input, or one of the stages is called. */
  datatype Action = OfferCmd | OfferData | CalculatePageOffset | BoundaryCheck | PkgSplit

  /** A stage moves when its inputs are there and the queues it writes have room. */
  predicate Enabled(p: Pipe, a: Action) {
    match a
    case OfferCmd => p.cmdSrc != []
    case OfferData => p.dataSrc != []
    case CalculatePageOffset => p.cmdIn != [] && |p.pageOffsetFifo| < PAGE_OFFSET_FIFO_DEPTH
    case BoundaryCheck => p.boundary.splitting || (p.pageOffsetFifo != [] && |p.metaFifo| < META_FIFO_DEPTH)
    case PkgSplit => P.Ready(p.pkg, p.metaFifo, p.dataIn)
  }

  /** One call of the boundary check. */
  function FireBoundary(p: Pipe): Pipe
    requires Enabled(p, BoundaryCheck)
  {
    if p.boundary.splitting then
      p.(cmdOut := p.cmdOut + [MemCmd(p.boundary.cmd.addr, p.boundary.cmd.len)],
         boundary := p.boundary.(splitting := false))
    else
      var c := p.pageOffsetFifo[0];
      p.(pageOffsetFifo := p.pageOffsetFifo[1..],
         cmdOut := p.cmdOut + [Pieces(c)[0]],
         metaFifo := p.metaFifo + [MetaOf(c)],
         boundary := if Crosses(c) then BoundaryState(true, Rest(c), ToPageEnd(c)) else p.boundary.(cmd := c))
  }

  /** One action; a stage that cannot move stalls. */
  function Fire(p: Pipe, a: Action, base: nat, u: Word): Pipe {
    if !Enabled(p, a) then p
    else match a
      case OfferCmd => p.(cmdSrc := p.cmdSrc[1..], cmdIn := p.cmdIn + [p.cmdSrc[0]])
      case OfferData => p.(dataSrc := p.dataSrc[1..], dataIn := p.dataIn + [p.dataSrc[0]])
      case CalculatePageOffset =>
        p.(cmdIn := p.cmdIn[1..], pageOffsetFifo := p.pageOffsetFifo + [WithOffset(p.cmdIn[0], base)])
      case BoundaryCheck => FireBoundary(p)
      case PkgSplit =>
        var f := P.Step(p.pkg, p.metaFifo, p.dataIn, u);
        p.(pkg := f.s, metaFifo := f.metas, dataIn := f.data, dataOut := p.dataOut + [f.out])
  }

  function Drive(p: Pipe, schedule: seq<Action>, base: nat, u: Word): Pipe
    decreases |schedule|
  {
    if schedule == [] then p else Drive(Fire(p, schedule[0], base, u), schedule[1..], base, u)
  }

  predicate Quiescent(p: Pipe) {
    forall a: Action :: !Enabled(p, a)
  }

  predicate Initial(p: Pipe) {
    && p.cmdIn == [] && p.dataIn == [] && p.pageOffsetFifo == [] && p.metaFifo == []
    && !p.boundary.splitting && P.Idle(p.pkg) && p.cmdOut == [] && p.dataOut == []
  }

  // What every action keeps: the commands and the words sent so far, continued by what is still under way

  function Upcoming(p: Pipe, base: nat): seq<InternalCmd> {
    p.pageOffsetFifo + Offsets(p.cmdIn + p.cmdSrc, base)
  }

  function Held(b: BoundaryState): seq<MemCmd> {
    if b.splitting then [MemCmd(b.cmd.addr, b.cmd.len)] else []
  }

  function TotalCmds(p: Pipe, base: nat): seq<MemCmd> {
    p.cmdOut + Held(p.boundary) + AllPieces(Upcoming(p, base))
  }

  function TotalData(p: Pipe, base: nat, u: Word): P.Outcome {
    P.Prepend(p.dataOut, P.Run(p.pkg, p.metaFifo + AllMetas(Upcoming(p, base)), p.dataIn + p.dataSrc, u))
  }

  lemma OfferKeeps(p: Pipe, a: Action, base: nat, u: Word)
    requires Enabled(p, a) && (a == OfferCmd || a == OfferData || a == CalculatePageOffset)
    ensures Upcoming(Fire(p, a, base, u), base) == Upcoming(p, base)
    ensures var q := Fire(p, a, base, u); q.dataIn + q.dataSrc == p.dataIn + p.dataSrc
  {
    var q := Fire(p, a, base, u);
    match a {
      case OfferCmd =>
        assert q.cmdIn + q.cmdSrc == p.cmdIn + p.cmdSrc;
      case OfferData =>
      case CalculatePageOffset =>
        assert Offsets(p.cmdIn + p.cmdSrc, base) == [WithOffset(p.cmdIn[0], base)] + Offsets(q.cmdIn + q.cmdSrc, base);
    }
  }

  lemma Regroup<T>(a: seq<T>, x: seq<T>, h: seq<T>, r: seq<T>)
    ensures (a + x) + h + r == a + ((x + h) + r)
  {
  }

  lemma PiecesHeld(p: Pipe)
    requires Enabled(p, BoundaryCheck) && !p.boundary.splitting
    ensures var c := p.pageOffsetFifo[0]; [Pieces(c)[0]] + Held(FireBoundary(p).boundary) == Pieces(c)
  {
  }

  lemma BoundaryPops(p: Pipe, base: nat)
    requires Enabled(p, BoundaryCheck) && !p.boundary.splitting
    ensures Upcoming(p, base) == [p.pageOffsetFifo[0]] + Upcoming(FireBoundary(p), base)
    ensures AllMetas(Upcoming(p, base)) == [MetaOf(p.pageOffsetFifo[0])] + AllMetas(Upcoming(FireBoundary(p), base))
    ensures AllPieces(Upcoming(p, base)) == Pieces(p.pageOffsetFifo[0]) + AllPieces(Upcoming(FireBoundary(p), base))
  {
    var q := FireBoundary(p);
    assert q.pageOffsetFifo == p.pageOffsetFifo[1..] && q.cmdIn == p.cmdIn && q.cmdSrc == p.cmdSrc;
    hide FireBoundary, Offsets, Rest, Crosses;
    assert Upcoming(p, base) == [p.pageOffsetFifo[0]] + Upcoming(q, base);
    AllCons(p.pageOffsetFifo[0], Upcoming(q, base));
  }

  lemma AllCons(c: InternalCmd, cs: seq<InternalCmd>)
    ensures AllMetas([c] + cs) == [MetaOf(c)] + AllMetas(cs)
    ensures AllPieces([c] + cs) == Pieces(c) + AllPieces(cs)
  {
    assert ([c] + cs)[1..] == cs;
  }

  lemma BoundaryKeeps(p: Pipe, base: nat)
    requires Enabled(p, BoundaryCheck)
    ensures TotalCmds(FireBoundary(p), base) == TotalCmds(p, base)
    ensures var q := FireBoundary(p);
            q.metaFifo + AllMetas(Upcoming(q, base)) == p.metaFifo + AllMetas(Upcoming(p, base))
  {
    if !p.boundary.splitting {
      BoundaryPops(p, base);
      PiecesHeld(p);
      var q := FireBoundary(p);
      var c := p.pageOffsetFifo[0];
      Regroup(p.cmdOut, [Pieces(c)[0]], Held(q.boundary), AllPieces(Upcoming(q, base)));
      Regroup(p.metaFifo, [MetaOf(c)], [], AllMetas(Upcoming(q, base)));
      assert q.cmdOut == p.cmdOut + [Pieces(c)[0]] && q.metaFifo == p.metaFifo + [MetaOf(c)];
      hide Pieces, MetaOf, AllPieces, AllMetas, Upcoming, FireBoundary;
      assert [MetaOf(c)] + [] == [MetaOf(c)] && q.metaFifo + [] == q.metaFifo;
      assert p.cmdOut + [] + AllPieces(Upcoming(p, base)) == p.cmdOut + AllPieces(Upcoming(p, base));
    }
  }

  /** Reading from the front of a queue does not depend on what arrives behind. */
  lemma StepAhead(s: P.State, metas: seq<P.Meta>, data: seq<Word>, moreMetas: seq<P.Meta>, moreData: seq<Word>, u: Word)
    requires P.Ready(s, metas, data)
    ensures P.Ready(s, metas + moreMetas, data + moreData)
    ensures var f := P.Step(s, metas, data, u);
            P.Step(s, metas + moreMetas, data + moreData, u) == f.(metas := f.metas + moreMetas, data := f.data + moreData)
  {
    if metas != [] {
      assert (metas + moreMetas)[1..] == metas[1..] + moreMetas;
    }
    if data != [] {
      assert (data + moreData)[1..] == data[1..] + moreData;
    }
  }

  lemma PkgKeeps(p: Pipe, base: nat, u: Word)
    requires Enabled(p, PkgSplit)
    ensures TotalData(Fire(p, PkgSplit, base, u), base, u) == TotalData(p, base, u)
  {
    var more := AllMetas(Upcoming(p, base));
    StepAhead(p.pkg, p.metaFifo, p.dataIn, more, p.dataSrc, u);
    var q := Fire(p, PkgSplit, base, u);
    assert Upcoming(q, base) == Upcoming(p, base);
    var f := P.Step(p.pkg, p.metaFifo, p.dataIn, u);
    hide P.Step;
    P.PrependConcat(p.dataOut, [f.out], P.Run(q.pkg, q.metaFifo + more, q.dataIn + q.dataSrc, u));
  }

  /** No action changes what has been sent and is still to be sent. */
  lemma FireKeeps(p: Pipe, a: Action, base: nat, u: Word)
    ensures TotalCmds(Fire(p, a, base, u), base) == TotalCmds(p, base)
    ensures TotalData(Fire(p, a, base, u), base, u) == TotalData(p, base, u)
  {
    if Enabled(p, a) {
      match a {
        case BoundaryCheck =>
          hide P.Run;
          BoundaryKeeps(p, base);
        case PkgSplit =>
          PkgKeeps(p, base, u);
          hide P.Run, P.Step;
        case _ =>
          hide P.Run;
          OfferKeeps(p, a, base, u);
      }
    }
  }

  lemma {:induction false} DriveKeeps(p: Pipe, schedule: seq<Action>, base: nat, u: Word)
    ensures TotalCmds(Drive(p, schedule, base, u), base) == TotalCmds(p, base)
    ensures TotalData(Drive(p, schedule, base, u), base, u) == TotalData(p, base, u)
    decreases |schedule|
  {
    if schedule != [] {
      FireKeeps(p, schedule[0], base, u);
      hide Fire, TotalCmds, TotalData;
      DriveKeeps(Fire(p, schedule[0], base, u), schedule[1..], base, u);
    }
  }

  // Schedule independence

  /** At every state any schedule can reach, the outputs are prefixes of one sequential function of the inputs. */
  lemma PrefixesAlways(p: Pipe, schedule: seq<Action>, base: nat, u: Word)
    requires Initial(p)
    ensures var q := Drive(p, schedule, base, u);
            && q.cmdOut <= AllPieces(Offsets(p.cmdSrc, base))
            && q.dataOut <= P.Run(p.pkg, AllMetas(Offsets(p.cmdSrc, base)), p.dataSrc, u).out
  {
    DriveKeeps(p, schedule, base, u);
    InitialTotals(p, base, u);
  }

  lemma InitialTotals(p: Pipe, base: nat, u: Word)
    requires Initial(p)
    ensures TotalCmds(p, base) == AllPieces(Offsets(p.cmdSrc, base))
    ensures TotalData(p, base, u) == P.Run(p.pkg, AllMetas(Offsets(p.cmdSrc, base)), p.dataSrc, u)
  {
    hide P.Run;
    assert p.cmdIn + p.cmdSrc == p.cmdSrc && p.dataIn + p.dataSrc == p.dataSrc;
    assert Upcoming(p, base) == Offsets(p.cmdSrc, base);
    assert p.metaFifo + AllMetas(Upcoming(p, base)) == AllMetas(Upcoming(p, base));
  }

  /** Every command comes with a well-formed packet of its length. */
  predicate Carries(cmds: seq<MemCmd>, ps: seq<seq<Word>>) {
    |cmds| == |ps| && forall k :: 0 <= k < |ps| ==> IsPacket(ps[k], 64) && |Bytes(ps[k])| == cmds[k].len
  }

  lemma CarriesMatches(cmds: seq<MemCmd>, ps: seq<seq<Word>>, base: nat)
    requires Carries(cmds, ps)
    ensures P.Matched(AllMetas(Offsets(cmds, base)), ps)
  {
    forall k | 0 <= k < |ps| ensures P.Fits(AllMetas(Offsets(cmds, base))[k], ps[k]) {
      var c := WithOffset(cmds[k], base);
      assert c.pageOffset < PAGE_SIZE;
    }
  }

  predicate Drained(p: Pipe) {
    && p.cmdSrc == [] && p.dataSrc == [] && p.cmdIn == [] && p.dataIn == []
    && p.pageOffsetFifo == [] && p.metaFifo == [] && !p.boundary.splitting && P.Idle(p.pkg)
  }

  /** When nothing can move, the packet stage would still wait if all that is under way had arrived. */
  lemma StuckRun(p: Pipe, base: nat, u: Word)
    requires Quiescent(p)
    ensures var metas := p.metaFifo + AllMetas(Upcoming(p, base));
            && !p.boundary.splitting && p.cmdSrc == [] && p.dataSrc == []
            && |metas| == |p.metaFifo| + |p.pageOffsetFifo| + |p.cmdIn|
            && P.Run(p.pkg, metas, p.dataIn + p.dataSrc, u) == P.Outcome([], p.pkg, metas, p.dataIn)
  {
    assert !Enabled(p, OfferCmd) && !Enabled(p, OfferData) && !Enabled(p, CalculatePageOffset);
    assert !Enabled(p, BoundaryCheck) && !Enabled(p, PkgSplit);
    assert p.dataIn + p.dataSrc == p.dataIn && p.cmdIn + p.cmdSrc == p.cmdIn;
    var more := AllMetas(Upcoming(p, base));
    if p.dataIn != [] {
      assert |Upcoming(p, base)| == 0;
      assert p.metaFifo + more == p.metaFifo;
    }
  }

  /** The bounded queues never block the stages for good: a pipe whose inputs match cannot stop half way. */
  lemma QuiescentIsDrained(p: Pipe, base: nat, u: Word)
    requires Quiescent(p)
    requires var o := TotalData(p, base, u); P.Idle(o.s) && o.metas == [] && o.data == []
    ensures Drained(p)
    ensures p.cmdOut == TotalCmds(p, base) && p.dataOut == TotalData(p, base, u).out
  {
    StuckRun(p, base, u);
    hide P.Run;
    assert |p.metaFifo| + |p.pageOffsetFifo| + |p.cmdIn| == 0;
    assert Upcoming(p, base) == [];
    assert p.dataOut + [] == p.dataOut;
    assert p.cmdOut + Held(p.boundary) + AllPieces([]) == p.cmdOut;
  }

  /** A crossing command starts at a multiple of eight bytes into its page. */
  predicate AlignedCrossings(cs: seq<InternalCmd>) {
    forall k :: 0 <= k < |cs| ==> (Crosses(cs[k]) ==> cs[k].pageOffset % 8 == 0)
  }

  lemma AlignedMetas(cs: seq<InternalCmd>)
    ensures P.Aligned(AllMetas(cs)) <==> AlignedCrossings(cs)
  {
    var ms := AllMetas(cs);
    if P.Aligned(ms) {
      forall k | 0 <= k < |cs| && Crosses(cs[k]) ensures cs[k].pageOffset % 8 == 0 {
        assert ms[k].isSplit ==> ms[k].length % 8 == 0;
      }
    }
  }

  /** Every schedule that runs until nothing can move has sent the same commands and the same words, one frame
      for each command sent.  Those frames carry the commands' bytes, cut at the page ends, when every crossing
      command is aligned to eight bytes; otherwise not even their lengths are right. */
  lemma SchedulesAgree(p: Pipe, ps: seq<seq<Word>>, schedule: seq<Action>, base: nat, u: Word)
    requires Initial(p) && Carries(p.cmdSrc, ps) && p.dataSrc == Flatten(ps)
    requires Quiescent(Drive(p, schedule, base, u))
    ensures var q := Drive(p, schedule, base, u);
            var cs := Offsets(p.cmdSrc, base);
            && Drained(q)
            && q.cmdOut == AllPieces(cs)
            && q.dataOut == P.Run(p.pkg, AllMetas(cs), p.dataSrc, u).out
            && q.dataOut == Flatten(Frames(q.dataOut))
            && (AlignedCrossings(cs) ==> AllPackets(Frames(q.dataOut), 64)
                                         && Payloads(Frames(q.dataOut)) == P.CutAll(AllMetas(cs), Payloads(ps)))
            && (P.SameLengths(Payloads(Frames(q.dataOut)), P.CutAll(AllMetas(cs), Payloads(ps)))
                ==> AlignedCrossings(cs))
  {
    var q := Drive(p, schedule, base, u);
    var cs := Offsets(p.cmdSrc, base);
    hide Drive;
    DriveKeeps(p, schedule, base, u);
    InitialTotals(p, base, u);
    CarriesMatches(p.cmdSrc, ps, base);
    var qs, t := P.SplitStream(p.pkg, AllMetas(cs), ps, u);
    QuiescentIsDrained(q, base, u);
    AlignedMetas(cs);
    FramesOfFlatten(qs);
  }

  // Termination

  /** How many calls the pipe has left, at most. */
  function Work(p: Pipe): nat {
    4 * |p.cmdSrc| + 3 * |p.cmdIn| + 2 * |p.pageOffsetFifo| + (if p.boundary.splitting then 1 else 0)
    + 3 * |p.dataSrc| + 2 * |p.dataIn| + (if p.pkg.phase == P.Last then 1 else 0)
  }

  lemma FireWorks(p: Pipe, a: Action, base: nat, u: Word)
    requires Enabled(p, a)
    ensures Work(Fire(p, a, base, u)) < Work(p)
  {
  }

  /** The calls of a schedule that did move. */
  function Moves(p: Pipe, schedule: seq<Action>, base: nat, u: Word): nat
    decreases |schedule|
  {
    if schedule == [] then 0
    else (if Enabled(p, schedule[0]) then 1 else 0) + Moves(Fire(p, schedule[0], base, u), schedule[1..], base, u)
  }

  /** Every schedule moves only boundedly often, so one that keeps offering each stage a turn becomes quiescent. */
  lemma {:induction false} MovesBounded(p: Pipe, schedule: seq<Action>, base: nat, u: Word)
    ensures Moves(p, schedule, base, u) + Work(Drive(p, schedule, base, u)) <= Work(p)
    decreases |schedule|
  {
    if schedule != [] {
      if Enabled(p, schedule[0]) {
        FireWorks(p, schedule[0], base, u);
      }
      MovesBounded(Fire(p, schedule[0], base, u), schedule[1..], base, u);
    }
  }

  /** The queues between the stages never hold more than their depths, two and four. */
  lemma {:induction false} QueuesBounded(p: Pipe, schedule: seq<Action>, base: nat, u: Word)
    requires |p.pageOffsetFifo| <= 2 && |p.metaFifo| <= 4
    ensures var q := Drive(p, schedule, base, u); |q.pageOffsetFifo| <= 2 && |q.metaFifo| <= 4
    decreases |schedule|
  {
    if schedule != [] {
      QueueStep(p, schedule[0], base, u);
      hide Fire;
      QueuesBounded(Fire(p, schedule[0], base, u), schedule[1..], base, u);
    }
  }

  lemma QueueStep(p: Pipe, a: Action, base: nat, u: Word)
    requires |p.pageOffsetFifo| <= 2 && |p.metaFifo| <= 4
    ensures var q := Fire(p, a, base, u); |q.pageOffsetFifo| <= 2 && |q.metaFifo| <= 4
  {
  }

  /** From every state the stages can be scheduled until nothing moves. */
  lemma {:induction false} CanFinish(p: Pipe, base: nat, u: Word) returns (schedule: seq<Action>)
    ensures Quiescent(Drive(p, schedule, base, u))
    decreases Work(p)
  {
    schedule := [];
    if !Quiescent(p) {
      var a :| Enabled(p, a);
      FireWorks(p, a, base, u);
      var rest := CanFinish(Fire(p, a, base, u), base, u);
      schedule := [a] + rest;
      hide Fire, Quiescent;
      assert schedule[1..] == rest;
    }
  }

  // The stages as the code runs them

  class BoundaryCheckStage {
    var bcSplit: bool
    var cmd: InternalCmd
    var newLength: nat

    constructor ()
      ensures !bcSplit
    {
      bcSplit, cmd, newLength := false, InternalCmd(0, 0, 0), 0;
    }

    function View(): BoundaryState
      reads this
    {
      BoundaryState(bcSplit, cmd, newLength)
    }

    /** One call sends the whole command, its first piece, or its second. */
    method Call(cmdIn: Stream<InternalCmd>, cmdOut: Stream<MemCmd>, metaOut: Stream<P.Meta>)
      modifies this, cmdIn, cmdOut, metaOut
      ensures old(bcSplit) ==>
                && !bcSplit && cmd == old(cmd) && newLength == old(newLength)
                && cmdIn.items == old(cmdIn.items) && metaOut.items == old(metaOut.items)
                && cmdOut.items == old(cmdOut.items) + Held(old(View()))
      ensures !old(bcSplit) && old(cmdIn.items) == [] ==>
                && View() == old(View()) && cmdIn.items == [] && metaOut.items == old(metaOut.items)
                && cmdOut.items == old(cmdOut.items)
      ensures !old(bcSplit) && old(cmdIn.items) != [] ==>
                var c := old(cmdIn.items)[0];
                && cmdIn.items == old(cmdIn.items)[1..] && metaOut.items == old(metaOut.items) + [MetaOf(c)]
                && cmdOut.items == old(cmdOut.items) + [Pieces(c)[0]]
                && [Pieces(c)[0]] + Held(View()) == Pieces(c)
                && View() == if Crosses(c) then BoundaryState(true, Rest(c), ToPageEnd(c)) else old(View()).(cmd := c)
    {
      if !bcSplit {
        if cmdIn.items != [] {
          cmd := cmdIn.Read();
          if cmd.pageOffset + cmd.len > PAGE_SIZE {
            newLength := PAGE_SIZE - cmd.pageOffset;
            cmdOut.Write(MemCmd(cmd.addr, newLength));
            cmd := cmd.(addr := Wrap(cmd.addr + newLength), len := cmd.len - newLength);
            metaOut.Write(P.Meta(newLength, true));
            bcSplit := true;
          } else {
            cmdOut.Write(MemCmd(cmd.addr, cmd.len));
            metaOut.Write(P.Meta(cmd.len, false));
          }
        }
      } else {
        cmdOut.Write(MemCmd(cmd.addr, cmd.len));
        bcSplit := false;
      }
    }
  }

  /** The three stages and the streams between them. */
  class MemWriteCmdPageBoundaryCheck {
    const cmdSrc: Stream<MemCmd>
    const dataSrc: Stream<Word>
    const cmdIn: Stream<MemCmd>
    const dataIn: Stream<Word>
    const pageOffsetFifo: Stream<InternalCmd>
    const metaFifo: Stream<P.Meta>
    const cmdOut: Stream<MemCmd>
    const dataOut: Stream<Word>
    const boundaryCheck: BoundaryCheckStage
    const pkgSplit: P.PkgSplit
    const regBaseVaddr: nat

    constructor (base: nat, cmds: seq<MemCmd>, words: seq<Word>)
      ensures Valid() && fresh(Streams()) && regBaseVaddr == base
      ensures Initial(View()) && cmdSrc.items == cmds && dataSrc.items == words
    {
      regBaseVaddr := base;
      cmdSrc := new Stream();
      dataSrc := new Stream();
      cmdIn := new Stream();
      dataIn := new Stream();
      pageOffsetFifo := new Stream();
      metaFifo := new Stream();
      cmdOut := new Stream();
      dataOut := new Stream();
      boundaryCheck := new BoundaryCheckStage();
      pkgSplit := new P.PkgSplit();
      new;
      cmdSrc.items := cmds;
      dataSrc.items := words;
    }

    function Streams(): set<object> {
      {cmdSrc, dataSrc, cmdIn, dataIn, pageOffsetFifo, metaFifo, cmdOut, dataOut, boundaryCheck, pkgSplit}
    }

    predicate Valid() {
      && cmdSrc != cmdIn && cmdSrc != cmdOut && cmdIn != cmdOut
      && dataSrc != dataIn && dataSrc != dataOut && dataIn != dataOut
    }

    function View(): Pipe
      reads Streams()
    {
      Pipe(cmdSrc.items, dataSrc.items, cmdIn.items, dataIn.items, pageOffsetFifo.items, metaFifo.items,
           boundaryCheck.View(), pkgSplit.View(), cmdOut.items, dataOut.items)
    }

    method CalculatePageOffset()
      requires Valid()
      modifies cmdIn, pageOffsetFifo
      ensures if old(cmdIn.items) == [] then cmdIn.items == [] && pageOffsetFifo.items == old(pageOffsetFifo.items)
              else cmdIn.items == old(cmdIn.items)[1..]
                   && pageOffsetFifo.items == old(pageOffsetFifo.items) + [WithOffset(old(cmdIn.items)[0], regBaseVaddr)]
    {
      if cmdIn.items != [] {
        var cmd := cmdIn.Read();
        var addr := (cmd.addr - regBaseVaddr) % TWO_TO_48;
        pageOffsetFifo.Write(InternalCmd(cmd.addr, cmd.len, addr % PAGE_SIZE));
      }
    }

    method Move(a: Action, u: Word)
      requires Valid()
      modifies Streams()
      ensures View() == Fire(old(View()), a, regBaseVaddr, u)
    {
      if Enabled(View(), a) {
        match a {
          case OfferCmd =>
            var c := cmdSrc.Read();
            cmdIn.Write(c);
          case OfferData =>
            var w := dataSrc.Read();
            dataIn.Write(w);
          case CalculatePageOffset =>
            CalculatePageOffset();
          case BoundaryCheck =>
            boundaryCheck.Call(pageOffsetFifo, cmdOut, metaFifo);
          case PkgSplit =>
            pkgSplit.Call(metaFifo, dataIn, dataOut, u);
        }
      }
    }

    /** Any schedule of the stages, one action after another. */
    method Run(schedule: seq<Action>, u: Word)
      requires Valid()
      modifies Streams()
      ensures View() == Drive(old(View()), schedule, regBaseVaddr, u)
    {
      var i := 0;
      while i < |schedule|
        invariant 0 <= i <= |schedule|
        invariant Drive(View(), schedule[i..], regBaseVaddr, u) == Drive(old(View()), schedule, regBaseVaddr, u)
      {
        assert schedule[i..][1..] == schedule[i + 1..];
        Move(schedule[i], u);
        i := i + 1;
      }
    }
  }
}
