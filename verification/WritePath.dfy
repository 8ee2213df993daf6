/** The DMA write path end to end: the splitter, the translation buffer behind it, and the memory writes that
    the DMA engine makes of their outputs. */
module WritePath {
  import opened Axis
  import opened Mem
  import P = PacketSplit
  import S = Splitter
  import T = Tlb

  // What the outputs mean: memory writes

  datatype MemWrite = MemWrite(addr: nat, value: Byte)

  /** Consecutive bytes from one physical address on. */
  function Block(addr: nat, b: seq<Byte>): (ws: seq<MemWrite>)
    ensures |ws| == |b|
  {
    seq(|b|, i requires 0 <= i < |b| => MemWrite(addr + i, b[i]))
  }

  /** The DMA engine pairs the k-th command with the k-th frame. */
  function Deliver(dmas: seq<T.DmaCmd>, bs: seq<seq<Byte>>): seq<MemWrite> {
    if dmas == [] || bs == [] then [] else Block(dmas[0].addr, bs[0]) + Deliver(dmas[1..], bs[1..])
  }

  /** The physical address of one byte by the table entry of its own page. */
  function ByteAddr(t: T.State, vaddr: int): nat {
    var x := (vaddr - t.base) % TWO_TO_64;
    if x / PAGE_SIZE < |t.table| then t.table[x / PAGE_SIZE] + x % PAGE_SIZE else 0
  }

  /** The reference: each byte of a command goes where the page of its own virtual address lies. */
  function ByteWrites(t: T.State, c: MemCmd, b: seq<Byte>): (ws: seq<MemWrite>)
    ensures |ws| == |b|
  {
    seq(|b|, i requires 0 <= i < |b| => MemWrite(ByteAddr(t, c.addr + i), b[i]))
  }

  function AllByteWrites(t: T.State, cs: seq<MemCmd>, bs: seq<seq<Byte>>): seq<MemWrite> {
    if cs == [] || bs == [] then [] else ByteWrites(t, cs[0], bs[0]) + AllByteWrites(t, cs[1..], bs[1..])
  }

  /** The bytes of the command have table entries. */
  predicate Covered(t: T.State, c: MemCmd) {
    c.addr < TWO_TO_64 && Wrap(c.addr - t.base) + c.len <= |t.table| * PAGE_SIZE
  }

  /** What the write path asks of a command: it carries bytes, lies in mapped pages, crosses at most one page end. */
  predicate Admissible(t: T.State, c: MemCmd) {
    && Covered(t, c) && 1 <= c.len
    && OffsetIn(Wrap(c.addr - t.base)) + c.len <= 2 * PAGE_SIZE
    && (Wrap(c.addr - t.base) + c.len - 1) / PAGE_SIZE <= t.top
  }

  predicate TableOk(t: T.State) {
    |t.table| == T.TLB_ENTRIES && forall i :: 0 <= i < |t.table| ==> t.table[i] < TWO_TO_48
  }

  lemma WrapShift(base: int, addr: nat, i: nat)
    requires Wrap(addr - base) + i < TWO_TO_64
    ensures Wrap(Wrap(addr + i) - base) == Wrap(addr - base) + i
  {
    var q := (addr - base) / TWO_TO_64 - (addr + i) / TWO_TO_64;
    ModUnique(Wrap(addr + i) - base, TWO_TO_64, q, Wrap(addr - base) + i);
  }

  // One command

  /** Within a page the translated address advances with the virtual one, byte by byte. */
  lemma SamePage(t: T.State, addr: nat, i: nat)
    requires TableOk(t) && T.InTable(t, addr)
    requires OffsetIn(Wrap(addr - t.base)) + i < PAGE_SIZE
    ensures ByteAddr(t, addr + i) == T.Phys(t, addr) + i
  {
    var x := Wrap(addr - t.base);
    OffsetSum(x, i);
    assert x + i < |t.table| * PAGE_SIZE;
    ModUnique(addr + i - t.base, TWO_TO_64, (addr - t.base) / TWO_TO_64, x + i);
    assert t.table[x / PAGE_SIZE] < TWO_TO_48;
  }

  lemma ByteAddrWrap(t: T.State, a: int, i: int)
    ensures ByteAddr(t, Wrap(a) + i) == ByteAddr(t, a + i)
  {
    var x := (a + i - t.base) % TWO_TO_64;
    ModUnique(Wrap(a) + i - t.base, TWO_TO_64, (a + i - t.base) / TWO_TO_64 - a / TWO_TO_64, x);
  }

  /** The splitter's base register need only agree with the translation buffer's modulo a page. */
  lemma SameOffset(t: T.State, c: MemCmd, base: nat)
    requires OffsetIn(base) == OffsetIn(t.base)
    ensures S.WithOffset(c, base).pageOffset == OffsetIn(Wrap(c.addr - t.base))
  {
    OffsetOfWrap(c.addr - base);
    OffsetOfWrap(c.addr - t.base);
    OffsetCongruent(c.addr, base, t.base);
  }

  predicate PieceOk(t: T.State, c: MemCmd) {
    && T.InTable(t, c.addr) && OffsetIn(Wrap(c.addr - t.base)) + c.len <= PAGE_SIZE
    && T.PageIndex(t.base, c.addr) <= t.top
  }

  /** The second piece starts a page. */
  lemma RestStartsPage(t: T.State, c: MemCmd, base: nat)
    requires OffsetIn(base) == OffsetIn(t.base) && TableOk(t) && Admissible(t, c)
    requires S.Crosses(S.WithOffset(c, base))
    ensures var x := Wrap(c.addr - t.base);
            var i := S.WithOffset(c, base);
            && 1 <= S.ToPageEnd(i) < c.len
            && S.Rest(i).addr == Wrap(c.addr + S.ToPageEnd(i)) && S.Rest(i).len == c.len - S.ToPageEnd(i)
            && Wrap(S.Rest(i).addr - t.base) == (x / PAGE_SIZE + 1) * PAGE_SIZE
  {
    var i := S.WithOffset(c, base);
    var x := Wrap(c.addr - t.base);
    SameOffset(t, c, base);
    WrapShift(t.base, c.addr, S.ToPageEnd(i));
  }

  /** Every command the splitter sends lies inside one mapped page. */
  lemma {:induction false} PiecesOk(t: T.State, c: MemCmd, base: nat)
    requires OffsetIn(base) == OffsetIn(t.base) && TableOk(t) && Admissible(t, c)
    ensures forall k :: 0 <= k < |S.Pieces(S.WithOffset(c, base))| ==> PieceOk(t, S.Pieces(S.WithOffset(c, base))[k])
  {
    var i := S.WithOffset(c, base);
    var x := Wrap(c.addr - t.base);
    SameOffset(t, c, base);
    if S.Crosses(i) {
      RestStartsPage(t, c, base);
      ModUnique((x / PAGE_SIZE + 1) * PAGE_SIZE, PAGE_SIZE, x / PAGE_SIZE + 1, 0);
    }
  }

  predicate InTables(t: T.State, cs: seq<MemCmd>) {
    forall k :: 0 <= k < |cs| ==> T.InTable(t, cs[k].addr)
  }

  function Dma(t: T.State, cs: seq<MemCmd>): (ds: seq<T.DmaCmd>)
    requires InTables(t, cs)
    ensures |ds| == |cs| && forall k :: 0 <= k < |cs| ==> ds[k] == T.Translate(t, cs[k])
  {
    seq(|cs|, k requires 0 <= k < |cs| => T.Translate(t, cs[k]))
  }

  lemma PieceByte(t: T.State, c: MemCmd, b: seq<Byte>, n: nat, m: nat, piece: MemCmd, i: nat)
    requires TableOk(t) && n <= m <= |b| && i < m - n
    requires piece == MemCmd(Wrap(c.addr + n), m - n) && PieceOk(t, piece)
    ensures Block(T.Phys(t, piece.addr), b[n..m])[i] == ByteWrites(t, c, b)[n + i]
  {
    SamePage(t, piece.addr, i);
    ByteAddrWrap(t, c.addr + n, i);
    hide T.Phys, T.InTable, ByteAddr, PieceOk, TableOk, Wrap;
    assert c.addr + n + i == c.addr + (n + i);
  }

  /** One piece of a command, from its `n`-th byte on. */
  lemma PieceWrites(t: T.State, c: MemCmd, b: seq<Byte>, n: nat, m: nat, piece: MemCmd)
    requires TableOk(t) && n <= m <= |b|
    requires piece == MemCmd(Wrap(c.addr + n), m - n) && PieceOk(t, piece)
    ensures Block(T.Phys(t, piece.addr), b[n..m]) == ByteWrites(t, c, b)[n..m]
  {
    var x, y := Block(T.Phys(t, piece.addr), b[n..m]), ByteWrites(t, c, b)[n..m];
    hide T.Phys, T.InTable, PieceOk, TableOk, ByteWrites, Block;
    forall i | 0 <= i < m - n ensures x[i] == y[i] {
      PieceByte(t, c, b, n, m, piece, i);
    }
  }

  /** The translated pieces of a command write its bytes one by one to their own pages. */
  lemma CommandWrites(t: T.State, c: MemCmd, base: nat, b: seq<Byte>)
    requires OffsetIn(base) == OffsetIn(t.base) && TableOk(t) && Admissible(t, c) && |b| == c.len
    ensures InTables(t, S.Pieces(S.WithOffset(c, base)))
    ensures var i := S.WithOffset(c, base);
            && |S.Pieces(i)| == |P.Cut(S.MetaOf(i), b)|
            && Deliver(Dma(t, S.Pieces(i)), P.Cut(S.MetaOf(i), b)) == ByteWrites(t, c, b)
            && (forall k :: 0 <= k < |S.Pieces(i)| ==> S.Pieces(i)[k].len == |P.Cut(S.MetaOf(i), b)[k]|)
  {
    PiecesOk(t, c, base);
    var i := S.WithOffset(c, base);
    var ps := S.Pieces(i);
    assert forall k :: 0 <= k < |ps| ==> PieceOk(t, ps[k]);
    assert InTables(t, ps);
    var ws := ByteWrites(t, c, b);
    assert Wrap(c.addr + 0) == c.addr;
    assert i.addr == c.addr && i.len == c.len;
    if S.Crosses(i) {
      RestStartsPage(t, c, base);
      var n := S.ToPageEnd(i);
      hide T.InTable, T.Phys, S.WithOffset, S.Crosses, TableOk, Admissible, ByteWrites, PieceOk;
      PieceWrites(t, c, b, 0, n, ps[0]);
      PieceWrites(t, c, b, n, |b|, ps[1]);
      TwoBlocks(Dma(t, ps), [b[..n], b[n..]]);
      assert b[n..|b|] == b[n..] && b[0..n] == b[..n] && ws == ws[0..n] + ws[n..|b|];
    } else {
      hide T.InTable, T.Phys, S.WithOffset, S.Crosses, TableOk, Admissible, ByteWrites, PieceOk;
      PieceWrites(t, c, b, 0, |b|, ps[0]);
      OneBlock(Dma(t, ps), [b]);
      assert b[0..|b|] == b && ws[0..|b|] == ws;
    }
  }

  lemma OneBlock(ds: seq<T.DmaCmd>, bs: seq<seq<Byte>>)
    requires |ds| == |bs| == 1
    ensures Deliver(ds, bs) == Block(ds[0].addr, bs[0])
  {
    assert Deliver(ds[1..], bs[1..]) == [];
  }

  lemma TwoBlocks(ds: seq<T.DmaCmd>, bs: seq<seq<Byte>>)
    requires |ds| == |bs| == 2
    ensures Deliver(ds, bs) == Block(ds[0].addr, bs[0]) + Block(ds[1].addr, bs[1])
  {
    OneBlock(ds[1..], bs[1..]);
  }

  // All commands

  predicate AllAdmissible(t: T.State, cs: seq<MemCmd>) {
    forall k :: 0 <= k < |cs| ==> Admissible(t, cs[k])
  }

  lemma {:induction false} DeliverConcat(a: seq<T.DmaCmd>, x: seq<seq<Byte>>, b: seq<T.DmaCmd>, y: seq<seq<Byte>>)
    requires |a| == |x|
    ensures Deliver(a + b, x + y) == Deliver(a, x) + Deliver(b, y)
  {
    if a == [] {
      assert a + b == b && x + y == y;
    } else {
      assert (a + b)[1..] == a[1..] + b && (x + y)[1..] == x[1..] + y;
      DeliverConcat(a[1..], x[1..], b, y);
    }
  }

  /** Fewer commands and fewer frames make a prefix of the writes. */
  lemma {:induction false} DeliverPrefix(a: seq<T.DmaCmd>, x: seq<seq<Byte>>, b: seq<T.DmaCmd>, y: seq<seq<Byte>>)
    requires a <= b && x <= y
    ensures Deliver(a, x) <= Deliver(b, y)
  {
    if a != [] && x != [] {
      assert a[1..] <= b[1..] && x[1..] <= y[1..];
      DeliverPrefix(a[1..], x[1..], b[1..], y[1..]);
    }
  }

  /** The pieces of all commands, translated and paired with the cut payloads, make exactly the byte writes. */
  lemma {:induction false} AllCommandWrites(t: T.State, cs: seq<MemCmd>, base: nat, bs: seq<seq<Byte>>)
    requires OffsetIn(base) == OffsetIn(t.base) && TableOk(t) && AllAdmissible(t, cs) && |cs| == |bs|
    requires forall k :: 0 <= k < |cs| ==> |bs[k]| == cs[k].len
    ensures var ps := S.AllPieces(S.Offsets(cs, base));
            var cut := P.CutAll(S.AllMetas(S.Offsets(cs, base)), bs);
            && InTables(t, ps)
            && |ps| == |cut| && (forall k :: 0 <= k < |ps| ==> ps[k].len == |cut[k]|)
            && Deliver(Dma(t, ps), cut) == AllByteWrites(t, cs, bs)
    decreases |cs|
  {
    var os := S.Offsets(cs, base);
    var ps := S.AllPieces(os);
    var cut := P.CutAll(S.AllMetas(os), bs);
    if cs != [] {
      assert os[1..] == S.Offsets(cs[1..], base);
      assert S.AllMetas(os)[1..] == S.AllMetas(os[1..]);
      AllCommandWrites(t, cs[1..], base, bs[1..]);
      CommandWrites(t, cs[0], base, bs[0]);
      var ps0, cut0 := S.Pieces(os[0]), P.Cut(S.MetaOf(os[0]), bs[0]);
      var ps1, cut1 := S.AllPieces(os[1..]), P.CutAll(S.AllMetas(os[1..]), bs[1..]);
      assert ps == ps0 + ps1 && cut == cut0 + cut1;
      hide T.InTable, T.Phys, S.Pieces, S.MetaOf, P.Cut, Admissible, TableOk, ByteWrites, PieceOk, Deliver;
      DmaConcat(t, ps0, ps1);
      DeliverConcat(Dma(t, ps0), cut0, Dma(t, ps1), cut1);
    }
  }

  lemma DmaConcat(t: T.State, a: seq<MemCmd>, b: seq<MemCmd>)
    requires InTables(t, a) && InTables(t, b)
    ensures InTables(t, a + b) && Dma(t, a + b) == Dma(t, a) + Dma(t, b)
  {
  }

  // The splitter and the translation buffer running side by side

  /** `taken` splitter commands and `readsTaken` have been looked up. */
  datatype Path = Path(pipe: S.Pipe, taken: nat, readSrc: seq<MemCmd>, readsTaken: seq<MemCmd>, tlb: T.State,
                       dmaWrites: seq<T.DmaCmd>, dmaReads: seq<T.DmaCmd>)

  /** A stage of the splitter, or a call of the translation buffer with or without a read command waiting. */
  datatype Action = Stage(a: S.Action) | Lookup(readWaits: bool)

  /** A command without a table entry is outside the model: the code would index past the table. */
  function Fire(p: Path, a: Action, base: nat, u: Word): Path {
    match a
    case Stage(s) => p.(pipe := S.Fire(p.pipe, s, base, u))
    case Lookup(readWaits) =>
      if p.taken < |p.pipe.cmdOut| then
        var c := p.pipe.cmdOut[p.taken];
        if T.InTable(p.tlb, c.addr) then
          p.(taken := p.taken + 1, tlb := T.Count(p.tlb, c), dmaWrites := p.dmaWrites + [T.Translate(p.tlb, c)])
        else p
      else if readWaits && p.readSrc != [] && T.InTable(p.tlb, p.readSrc[0].addr) then
        var c := p.readSrc[0];
        p.(readSrc := p.readSrc[1..], readsTaken := p.readsTaken + [c], tlb := T.Count(p.tlb, c),
           dmaReads := p.dmaReads + [T.Translate(p.tlb, c)])
      else p
  }

  function Drive(p: Path, schedule: seq<Action>, base: nat, u: Word): Path {
    if schedule == [] then p else Fire(Drive(p, schedule[..|schedule| - 1], base, u), schedule[|schedule| - 1], base, u)
  }

  function Stages(schedule: seq<Action>): seq<S.Action> {
    if schedule == [] then []
    else
      var a := schedule[|schedule| - 1];
      Stages(schedule[..|schedule| - 1]) + (if a.Stage? then [a.a] else [])
  }

  predicate Start(p: Path) {
    S.Initial(p.pipe) && p.taken == 0 && p.readsTaken == [] && p.dmaWrites == [] && p.dmaReads == []
  }

  lemma {:induction false} PipeAlone(p: Path, schedule: seq<Action>, base: nat, u: Word)
    ensures Drive(p, schedule, base, u).pipe == S.Drive(p.pipe, Stages(schedule), base, u)
  {
    if schedule != [] {
      var init, a := schedule[..|schedule| - 1], schedule[|schedule| - 1];
      PipeAlone(p, init, base, u);
      hide S.Fire;
      if a.Stage? {
        DriveSnoc(p.pipe, Stages(init), a.a, base, u);
      } else {
        assert Stages(schedule) == Stages(init);
      }
    }
  }

  lemma {:induction false} DriveSnoc(p: S.Pipe, schedule: seq<S.Action>, a: S.Action, base: nat, u: Word)
    ensures S.Drive(p, schedule + [a], base, u) == S.Fire(S.Drive(p, schedule, base, u), a, base, u)
    decreases |schedule|
  {
    hide S.Fire;
    if schedule == [] {
      assert [a][1..] == [] && schedule + [a] == [a];
      assert S.Drive(S.Fire(p, a, base, u), [], base, u) == S.Fire(p, a, base, u);
    } else {
      assert (schedule + [a])[1..] == schedule[1..] + [a];
      DriveSnoc(S.Fire(p, schedule[0], base, u), schedule[1..], a, base, u);
    }
  }

  predicate AllPiecesOk(t: T.State, cs: seq<MemCmd>) {
    forall k :: 0 <= k < |cs| ==> PieceOk(t, cs[k])
  }

  /** The DMA commands sent are the translations of the commands taken; only reads ever counted an event. */
  predicate PathInv(p: Path, t: T.State) {
    && p.tlb == T.CountAll(t, p.readsTaken)
    && p.taken <= |p.pipe.cmdOut| && InTables(t, p.pipe.cmdOut)
    && p.dmaWrites == Dma(t, p.pipe.cmdOut)[..p.taken]
  }

  lemma LookupKeeps(p: Path, t: T.State, readWaits: bool, base: nat, u: Word)
    requires PathInv(p, t) && AllPiecesOk(t, p.pipe.cmdOut)
    ensures PathInv(Fire(p, Lookup(readWaits), base, u), t)
    ensures p.taken < |p.pipe.cmdOut| ==> Fire(p, Lookup(readWaits), base, u).taken == p.taken + 1
  {
    T.CountAllKeeps(t, p.readsTaken);
    var q := Fire(p, Lookup(readWaits), base, u);
    if p.taken < |p.pipe.cmdOut| {
      var c := p.pipe.cmdOut[p.taken];
      assert PieceOk(t, c);
      assert q.tlb == p.tlb;
      assert Dma(t, p.pipe.cmdOut)[..p.taken + 1] == Dma(t, p.pipe.cmdOut)[..p.taken] + [T.Translate(t, c)];
    } else if q != p {
      assert q.readsTaken[..|q.readsTaken| - 1] == p.readsTaken;
    }
  }

  lemma StageKeeps(p: Path, t: T.State, s: S.Action, base: nat, u: Word)
    requires PathInv(p, t)
    requires p.pipe.cmdOut <= S.Fire(p.pipe, s, base, u).cmdOut && InTables(t, S.Fire(p.pipe, s, base, u).cmdOut)
    ensures PathInv(Fire(p, Stage(s), base, u), t)
  {
    var q := Fire(p, Stage(s), base, u);
    hide S.Fire;
    assert Dma(t, q.pipe.cmdOut)[..p.taken] == Dma(t, p.pipe.cmdOut)[..p.taken];
  }

  lemma CmdOutGrows(p: S.Pipe, a: S.Action, base: nat, u: Word)
    ensures p.cmdOut <= S.Fire(p, a, base, u).cmdOut
  {
  }

  /** The reads served so far, next to those that wait. */
  predicate ReadsOk(t: T.State, offered: seq<MemCmd>, q: Path) {
    && q.readsTaken + q.readSrc == offered
    && InTables(t, q.readsTaken) && q.dmaReads == Dma(t, q.readsTaken)
    && q.tlb.table == t.table && q.tlb.base == t.base && q.tlb.top == t.top
  }

  lemma ReadServed(t: T.State, offered: seq<MemCmd>, q: Path)
    requires ReadsOk(t, offered, q) && q.readSrc != [] && T.InTable(q.tlb, q.readSrc[0].addr)
    ensures var c := q.readSrc[0];
            ReadsOk(t, offered, q.(readSrc := q.readSrc[1..], readsTaken := q.readsTaken + [c], tlb := T.Count(q.tlb, c),
                                   dmaReads := q.dmaReads + [T.Translate(q.tlb, c)]))
  {
    var c := q.readSrc[0];
    assert q.readsTaken + q.readSrc == (q.readsTaken + [c]) + q.readSrc[1..];
    assert T.InTable(t, c.addr) && T.Translate(q.tlb, c) == T.Translate(t, c);
    hide T.InTable, T.Translate, T.Phys;
  }

  lemma ReadsStep(t: T.State, offered: seq<MemCmd>, q: Path, a: Action, base: nat, u: Word)
    requires ReadsOk(t, offered, q)
    ensures ReadsOk(t, offered, Fire(q, a, base, u))
  {
    hide S.Fire, T.InTable, T.Translate, T.Phys, InTables, Dma;
    if a.Lookup? && q.taken >= |q.pipe.cmdOut| && a.readWaits && q.readSrc != [] && T.InTable(q.tlb, q.readSrc[0].addr) {
      ReadServed(t, offered, q);
    }
  }

  lemma {:induction false} ReadsFollow(p: Path, schedule: seq<Action>, base: nat, u: Word)
    requires Start(p)
    ensures ReadsOk(p.tlb, p.readSrc, Drive(p, schedule, base, u))
  {
    if schedule == [] {
      assert p.readsTaken + p.readSrc == p.readSrc;
    } else {
      var init := schedule[..|schedule| - 1];
      ReadsFollow(p, init, base, u);
      hide Fire, ReadsOk;
      ReadsStep(p.tlb, p.readSrc, Drive(p, init, base, u), schedule[|schedule| - 1], base, u);
    }
  }

  /** The read side, under any schedule: the read commands served are the first of those offered, in order, and each was
      sent on to the physical address of its first byte. */
  lemma ReadsTranslated(p: Path, schedule: seq<Action>, base: nat, u: Word)
    requires Start(p)
    ensures var q := Drive(p, schedule, base, u);
            && q.readsTaken + q.readSrc == p.readSrc && |q.dmaReads| == |q.readsTaken|
            && (forall k :: 0 <= k < |q.readsTaken| ==>
                  var x := Wrap(q.readsTaken[k].addr - p.tlb.base);
                  && x / 0x20_0000 < |p.tlb.table|
                  && q.dmaReads[k] == T.DmaCmd(Wrap(p.tlb.table[x / 0x20_0000] + x % 0x20_0000), q.readsTaken[k].len % 0x1000_0000))
  {
    ReadsFollow(p, schedule, base, u);
    hide Start, Drive;
  }

  /** A lookup serves a waiting write command first; it serves a read command if no write command waits. */
  lemma LookupServes(p: Path, readWaits: bool, base: nat, u: Word)
    ensures var q := Fire(p, Lookup(readWaits), base, u);
            if p.taken < |p.pipe.cmdOut| then
              q.readsTaken == p.readsTaken && (T.InTable(p.tlb, p.pipe.cmdOut[p.taken].addr) ==> q.taken == p.taken + 1)
            else
              q.taken == p.taken && (readWaits && p.readSrc != [] && T.InTable(p.tlb, p.readSrc[0].addr) ==>
                                       q.readsTaken == p.readsTaken + [p.readSrc[0]])
  {
  }

  /** What the whole path is asked to do. */
  predicate Request(p: Path, ps: seq<seq<Word>>, base: nat) {
    && Start(p) && S.Carries(p.pipe.cmdSrc, ps) && p.pipe.dataSrc == Flatten(ps)
    && OffsetIn(base) == OffsetIn(p.tlb.base) && TableOk(p.tlb) && AllAdmissible(p.tlb, p.pipe.cmdSrc)
  }

  lemma {:induction false} PiecesAllOk(t: T.State, cs: seq<MemCmd>, base: nat)
    requires OffsetIn(base) == OffsetIn(t.base) && TableOk(t) && AllAdmissible(t, cs)
    ensures AllPiecesOk(t, S.AllPieces(S.Offsets(cs, base)))
    decreases |cs|
  {
    if cs != [] {
      assert S.Offsets(cs, base)[1..] == S.Offsets(cs[1..], base);
      PiecesAllOk(t, cs[1..], base);
      PiecesOk(t, cs[0], base);
    }
  }

  lemma {:induction false} DriveInv(p: Path, ps: seq<seq<Word>>, schedule: seq<Action>, base: nat, u: Word)
    requires Request(p, ps, base)
    ensures PathInv(Drive(p, schedule, base, u), p.tlb)
    ensures AllPiecesOk(p.tlb, Drive(p, schedule, base, u).pipe.cmdOut)
    decreases |schedule|
  {
    var total := S.AllPieces(S.Offsets(p.pipe.cmdSrc, base));
    PiecesAllOk(p.tlb, p.pipe.cmdSrc, base);
    PipeAlone(p, schedule, base, u);
    S.PrefixesAlways(p.pipe, Stages(schedule), base, u);
    var q := Drive(p, schedule, base, u);
    assert q.pipe.cmdOut <= total;
    PrefixOk(p.tlb, q.pipe.cmdOut, total);
    if schedule != [] {
      var init, a := schedule[..|schedule| - 1], schedule[|schedule| - 1];
      DriveInv(p, ps, init, base, u);
      var m := Drive(p, init, base, u);
      hide S.Fire, S.Drive, S.AllPieces, S.Offsets, PathInv, Request;
      if a.Stage? {
        CmdOutGrows(m.pipe, a.a, base, u);
        StageKeeps(m, p.tlb, a.a, base, u);
      } else {
        LookupKeeps(m, p.tlb, a.readWaits, base, u);
      }
    }
  }

  lemma PrefixOk(t: T.State, a: seq<MemCmd>, b: seq<MemCmd>)
    requires a <= b && AllPiecesOk(t, b)
    ensures AllPiecesOk(t, a) && InTables(t, a)
  {
    forall k | 0 <= k < |a| ensures PieceOk(t, a[k]) {
      assert a[k] == b[k];
    }
  }

  /** The memory writes made so far: DMA commands paired with the frames complete so far. */
  function Written(p: Path): seq<MemWrite> {
    Deliver(p.dmaWrites, Payloads(Frames(p.pipe.dataOut)))
  }

  predicate Finished(p: Path) {
    S.Quiescent(p.pipe) && p.taken == |p.pipe.cmdOut|
  }

  lemma PayloadsPrefix(a: seq<seq<Word>>, b: seq<seq<Word>>)
    requires a <= b
    ensures Payloads(a) <= Payloads(b)
  {
  }

  /** Both outputs of the whole path are prefixes of what one sequential pass sends. */
  lemma PathOutputs(p: Path, ps: seq<seq<Word>>, schedule: seq<Action>, base: nat, u: Word)
    requires Request(p, ps, base)
    ensures var q := Drive(p, schedule, base, u);
            var total := S.AllPieces(S.Offsets(p.pipe.cmdSrc, base));
            && InTables(p.tlb, total) && q.dmaWrites <= Dma(p.tlb, total)
            && (Finished(q) ==> q.dmaWrites == Dma(p.tlb, total))
            && q.pipe.dataOut <= P.Run(p.pipe.pkg, S.AllMetas(S.Offsets(p.pipe.cmdSrc, base)), Flatten(ps), u).out
  {
    var q := Drive(p, schedule, base, u);
    var total := S.AllPieces(S.Offsets(p.pipe.cmdSrc, base));
    PiecesAllOk(p.tlb, p.pipe.cmdSrc, base);
    PrefixOk(p.tlb, total, total);
    DriveInv(p, ps, schedule, base, u);
    PipeAlone(p, schedule, base, u);
    S.PrefixesAlways(p.pipe, Stages(schedule), base, u);
    hide S.Offsets, S.AllPieces, P.Run, S.Quiescent;
    DmaPrefix(p.tlb, q.pipe.cmdOut, total);
    if Finished(q) {
      S.SchedulesAgree(p.pipe, ps, Stages(schedule), base, u);
    }
  }

  lemma DmaPrefix(t: T.State, a: seq<MemCmd>, b: seq<MemCmd>)
    requires a <= b && InTables(t, a) && InTables(t, b)
    ensures Dma(t, a) <= Dma(t, b)
  {
  }

  lemma PayloadLengths(cs: seq<MemCmd>, ps: seq<seq<Word>>)
    requires S.Carries(cs, ps)
    ensures |Payloads(ps)| == |cs| && forall k :: 0 <= k < |cs| ==> |Payloads(ps)[k]| == cs[k].len
  {
  }

  /** End to end.  Whatever the schedule, the memory writes made so far are, in order, a prefix of the byte-at-a-time
      writes of the commands; when nothing is left to do they are all of them.  Write commands never count as a miss
      or a page crossing. */
  lemma WritesAreByteWrites(p: Path, ps: seq<seq<Word>>, schedule: seq<Action>, base: nat, u: Word)
    requires Request(p, ps, base) && S.AlignedCrossings(S.Offsets(p.pipe.cmdSrc, base))
    ensures var q := Drive(p, schedule, base, u);
            && Written(q) <= AllByteWrites(p.tlb, p.pipe.cmdSrc, Payloads(ps))
            && (Finished(q) ==> Written(q) == AllByteWrites(p.tlb, p.pipe.cmdSrc, Payloads(ps)))
            && q.tlb == T.CountAll(p.tlb, q.readsTaken)
  {
    var q := Drive(p, schedule, base, u);
    var cs := S.Offsets(p.pipe.cmdSrc, base);
    var cut := P.CutAll(S.AllMetas(cs), Payloads(ps));
    DriveInv(p, ps, schedule, base, u);
    PathOutputs(p, ps, schedule, base, u);
    PayloadLengths(p.pipe.cmdSrc, ps);
    AllCommandWrites(p.tlb, p.pipe.cmdSrc, base, Payloads(ps));
    S.CarriesMatches(p.pipe.cmdSrc, ps, base);
    S.AlignedMetas(cs);
    var qs, t := P.SplitStream(p.pipe.pkg, S.AllMetas(cs), ps, u);
    FramesOfFlatten(qs);
    FramesPrefix(q.pipe.dataOut, Flatten(qs));
    PayloadsPrefix(Frames(q.pipe.dataOut), qs);
    PipeAlone(p, schedule, base, u);
    hide P.Run, S.Offsets, S.AllPieces, AllByteWrites, Deliver, Frames, Drive;
    DeliverPrefix(q.dmaWrites, Payloads(Frames(q.pipe.dataOut)), Dma(p.tlb, S.AllPieces(cs)), cut);
    if Finished(q) {
      S.SchedulesAgree(p.pipe, ps, Stages(schedule), base, u);
    }
  }

  // The path can always finish

  function Lookups(n: nat): (ls: seq<Action>)
    ensures |ls| == n && forall i :: 0 <= i < n ==> ls[i] == Lookup(false)
  {
    seq(n, i => Lookup(false))
  }

  function Staged(schedule: seq<S.Action>): (ls: seq<Action>)
    ensures |ls| == |schedule| && forall i :: 0 <= i < |schedule| ==> ls[i] == Stage(schedule[i])
  {
    seq(|schedule|, i requires 0 <= i < |schedule| => Stage(schedule[i]))
  }

  lemma {:induction false} StagesStaged(schedule: seq<S.Action>)
    ensures Stages(Staged(schedule)) == schedule
  {
    if schedule != [] {
      StagesStaged(schedule[..|schedule| - 1]);
      assert Staged(schedule)[..|schedule| - 1] == Staged(schedule[..|schedule| - 1]);
    }
  }

  /** One more lookup serves a command, if one waits. */
  lemma OneLookup(p: Path, ps: seq<seq<Word>>, schedule: seq<Action>, base: nat, u: Word)
    requires Request(p, ps, base)
    ensures var (q, r) := (Drive(p, schedule, base, u), Drive(p, schedule + [Lookup(false)], base, u));
            && r.pipe == q.pipe && q.taken <= |q.pipe.cmdOut|
            && r.taken == if q.taken < |q.pipe.cmdOut| then q.taken + 1 else q.taken
  {
    var q, all := Drive(p, schedule, base, u), schedule + [Lookup(false)];
    assert all[..|all| - 1] == schedule;
    assert Drive(p, all, base, u) == Fire(q, Lookup(false), base, u);
    hide Request, Drive;
    DriveInv(p, ps, schedule, base, u);
    hide AllPiecesOk;
    LookupKeeps(q, p.tlb, false, base, u);
  }

  /** Lookups serve the commands that wait, one after the other. */
  lemma {:induction false} LookupsServe(p: Path, ps: seq<seq<Word>>, schedule: seq<Action>, n: nat, base: nat, u: Word)
    requires Request(p, ps, base)
    ensures var (q, r) := (Drive(p, schedule, base, u), Drive(p, schedule + Lookups(n), base, u));
            && r.pipe == q.pipe && q.taken <= |q.pipe.cmdOut|
            && r.taken == if q.taken + n < |q.pipe.cmdOut| then q.taken + n else |q.pipe.cmdOut|
    decreases n
  {
    hide Request, Drive;
    if n == 0 {
      assert schedule + Lookups(0) == schedule;
      OneLookup(p, ps, schedule, base, u);
    } else {
      var before := schedule + Lookups(n - 1);
      assert schedule + Lookups(n) == before + [Lookup(false)];
      LookupsServe(p, ps, schedule, n - 1, base, u);
      OneLookup(p, ps, before, base, u);
    }
  }

  /** For every request there is a schedule that finishes it, with all its byte writes made. */
  lemma CanFinish(p: Path, ps: seq<seq<Word>>, base: nat, u: Word) returns (schedule: seq<Action>)
    requires Request(p, ps, base) && S.AlignedCrossings(S.Offsets(p.pipe.cmdSrc, base))
    ensures Finished(Drive(p, schedule, base, u))
    ensures Written(Drive(p, schedule, base, u)) == AllByteWrites(p.tlb, p.pipe.cmdSrc, Payloads(ps))
  {
    var stages := S.CanFinish(p.pipe, base, u);
    StagesStaged(stages);
    PipeAlone(p, Staged(stages), base, u);
    var q := Drive(p, Staged(stages), base, u);
    hide Request, Drive, S.AlignedCrossings, S.Quiescent, AllByteWrites, Written;
    var n := |q.pipe.cmdOut|;
    LookupsServe(p, ps, Staged(stages), n, base, u);
    schedule := Staged(stages) + Lookups(n);
    WritesAreByteWrites(p, ps, schedule, base, u);
  }

  /** The 28-bit length field of a DMA command is wide enough for a piece. */
  lemma DmaLengths(t: T.State, cs: seq<MemCmd>, bs: seq<seq<Byte>>)
    requires AllPiecesOk(t, cs) && InTables(t, cs) && |cs| == |bs|
    requires forall k :: 0 <= k < |cs| ==> cs[k].len == |bs[k]|
    ensures forall k :: 0 <= k < |cs| ==> Dma(t, cs)[k].len == |bs[k]|
  {
    forall k | 0 <= k < |cs| ensures Dma(t, cs)[k].len == |bs[k]| {
      assert PieceOk(t, cs[k]);
    }
  }

  /** Each DMA command has a frame of its own length. */
  predicate FramesFit(p: Path) {
    var bs := Payloads(Frames(p.pipe.dataOut));
    |p.dmaWrites| == |bs| && forall k :: 0 <= k < |bs| ==> p.dmaWrites[k].len == |bs[k]|
  }

  /** The alignment is exactly what the path needs: without it some DMA command is paired with a frame of the
      wrong length. */
  lemma {:induction false} FramesFitIffAligned(p: Path, ps: seq<seq<Word>>, schedule: seq<Action>, base: nat, u: Word)
    requires Request(p, ps, base) && Finished(Drive(p, schedule, base, u))
    ensures FramesFit(Drive(p, schedule, base, u)) <==> S.AlignedCrossings(S.Offsets(p.pipe.cmdSrc, base))
  {
    var q := Drive(p, schedule, base, u);
    var cs := S.Offsets(p.pipe.cmdSrc, base);
    var total := S.AllPieces(cs);
    var cut := P.CutAll(S.AllMetas(cs), Payloads(ps));
    var bs := Payloads(Frames(q.pipe.dataOut));
    PathOutputs(p, ps, schedule, base, u);
    PayloadLengths(p.pipe.cmdSrc, ps);
    AllCommandWrites(p.tlb, p.pipe.cmdSrc, base, Payloads(ps));
    PiecesAllOk(p.tlb, p.pipe.cmdSrc, base);
    PipeAlone(p, schedule, base, u);
    S.SchedulesAgree(p.pipe, ps, Stages(schedule), base, u);
    hide P.Run, S.Offsets, S.AllPieces, Frames, Drive, Deliver, Payloads, P.CutAll;
    DmaLengths(p.tlb, total, cut);
    hide T.InTable, PieceOk, Admissible, TableOk, InTables, Dma;
    if FramesFit(q) {
      assert P.SameLengths(bs, cut);
    }
  }
}
