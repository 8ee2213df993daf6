/** The translation buffer: a table of 2 MiB pages relative to a base address. */
module Tlb {
  import opened Mem
  import opened Streams

  const TLB_ENTRIES := 16384
  const TWO_TO_28 := 0x1000_0000

  datatype DmaCmd = DmaCmd(addr: nat, len: nat)

  datatype Mapping = Mapping(vaddr: nat, paddr: nat, isBase: bool)

  /** `misses` and `crossings` are the two 32-bit event counters. */
  datatype State = State(table: seq<nat>, base: nat, top: nat, misses: nat, crossings: nat)

  function PageIndex(base: nat, vaddr: nat): nat {
    Wrap(vaddr - base) / PAGE_SIZE
  }

  /** The address has a table entry; the code indexes the table without a check. */
  predicate InTable(t: State, vaddr: nat) {
    PageIndex(t.base, vaddr) < |t.table|
  }

  /** The physical address of one byte. */
  function Phys(t: State, vaddr: nat): nat
    requires InTable(t, vaddr)
  {
    Wrap(t.table[PageIndex(t.base, vaddr)] + OffsetIn(Wrap(vaddr - t.base)))
  }

  function Translate(t: State, c: MemCmd): DmaCmd
    requires InTable(t, c.addr)
  {
    DmaCmd(Phys(t, c.addr), c.len % TWO_TO_28)
  }

  predicate Misses(t: State, c: MemCmd) {
    PageIndex(t.base, c.addr) > t.top
  }

  predicate LeavesPage(t: State, c: MemCmd) {
    OffsetIn(Wrap(c.addr - t.base)) + c.len > PAGE_SIZE
  }

  /** The event counters after one command. */
  function Count(t: State, c: MemCmd): State {
    t.(misses := if Misses(t, c) then (t.misses + 1) % TWO_TO_32 else t.misses,
       crossings := if LeavesPage(t, c) then (t.crossings + 1) % TWO_TO_32 else t.crossings)
  }

  /** The counters after a list of commands. */
  function CountAll(t: State, cs: seq<MemCmd>): State {
    if cs == [] then t else Count(CountAll(t, cs[..|cs| - 1]), cs[|cs| - 1])
  }

  function BaseAfter(base: nat, m: Mapping): nat {
    if m.isBase then m.vaddr else base
  }

  predicate Accepts(t: State, m: Mapping) {
    PageIndex(BaseAfter(t.base, m), m.vaddr) < |t.table|
  }

  function Map(t: State, m: Mapping): (t': State)
    requires Accepts(t, m)
    ensures |t'.table| == |t.table|
  {
    var base := BaseAfter(t.base, m);
    var index := PageIndex(base, m.vaddr);
    t.(base := base, table := t.table[index := m.paddr % TWO_TO_48], top := if index > t.top then index else t.top)
  }

  // The block as the code runs it

  class TlbBlock {
    const tlbTable: array<nat>
    var baseVaddr: nat
    var topPageBase: nat
    var tlbMissCounter: nat
    var tlbPageCrossingCounter: nat

    constructor ()
      ensures fresh(tlbTable) && tlbTable.Length == 16384
      ensures baseVaddr == 0 && topPageBase == 0 && tlbMissCounter == 0 && tlbPageCrossingCounter == 0
    {
      tlbTable := new nat[TLB_ENTRIES];
      baseVaddr, topPageBase, tlbMissCounter, tlbPageCrossingCounter := 0, 0, 0, 0;
    }

    function View(): State
      reads this, tlbTable
    {
      State(tlbTable[..], baseVaddr, topPageBase, tlbMissCounter, tlbPageCrossingCounter)
    }

    /** One call: a write command if there is one, else a read command, else a mapping. */
    method Call(writeCmd: Stream<MemCmd>, readCmd: Stream<MemCmd>, dmaWrite: Stream<DmaCmd>, dmaRead: Stream<DmaCmd>,
                mappings: Stream<Mapping>)
      requires writeCmd != readCmd && dmaWrite != dmaRead
      requires writeCmd.items != [] ==> InTable(View(), writeCmd.items[0].addr)
      requires writeCmd.items == [] && readCmd.items != [] ==> InTable(View(), readCmd.items[0].addr)
      requires writeCmd.items == [] && readCmd.items == [] && mappings.items != [] ==> Accepts(View(), mappings.items[0])
      modifies this, tlbTable, writeCmd, readCmd, dmaWrite, dmaRead, mappings
      ensures old(writeCmd.items) != [] ==>
                var c := old(writeCmd.items)[0];
                && View() == Count(old(View()), c) && dmaWrite.items == old(dmaWrite.items) + [Translate(old(View()), c)]
                && writeCmd.items == old(writeCmd.items)[1..] && readCmd.items == old(readCmd.items)
                && dmaRead.items == old(dmaRead.items) && mappings.items == old(mappings.items)
      ensures old(writeCmd.items) == [] && old(readCmd.items) != [] ==>
                var c := old(readCmd.items)[0];
                && View() == Count(old(View()), c) && dmaRead.items == old(dmaRead.items) + [Translate(old(View()), c)]
                && readCmd.items == old(readCmd.items)[1..] && writeCmd.items == []
                && dmaWrite.items == old(dmaWrite.items) && mappings.items == old(mappings.items)
      ensures old(writeCmd.items) == [] && old(readCmd.items) == [] && old(mappings.items) != [] ==>
                && View() == Map(old(View()), old(mappings.items)[0]) && mappings.items == old(mappings.items)[1..]
                && writeCmd.items == [] && readCmd.items == []
                && dmaWrite.items == old(dmaWrite.items) && dmaRead.items == old(dmaRead.items)
      ensures old(writeCmd.items) == [] && old(readCmd.items) == [] && old(mappings.items) == [] ==>
                && View() == old(View()) && writeCmd.items == [] && readCmd.items == [] && mappings.items == []
                && dmaWrite.items == old(dmaWrite.items) && dmaRead.items == old(dmaRead.items)
    {
      if writeCmd.items != [] {
        var cmd := writeCmd.Read();
        var dma := Lookup(cmd);
        dmaWrite.Write(dma);
      } else if readCmd.items != [] {
        var cmd := readCmd.Read();
        var dma := Lookup(cmd);
        dmaRead.Write(dma);
      } else if mappings.items != [] {
        var newMapping := mappings.Read();
        if newMapping.isBase {
          baseVaddr := newMapping.vaddr;
        }
        var pageBase := Wrap(newMapping.vaddr - baseVaddr) / PAGE_SIZE;
        tlbTable[pageBase] := newMapping.paddr % TWO_TO_48;
        if pageBase > topPageBase {
          topPageBase := pageBase;
        }
      }
    }

    method Lookup(cmd: MemCmd) returns (dma: DmaCmd)
      requires InTable(View(), cmd.addr)
      modifies this
      ensures dma == Translate(old(View()), cmd) && View() == Count(old(View()), cmd)
      ensures var x := Wrap(cmd.addr - baseVaddr);
              && dma == DmaCmd(Wrap(tlbTable[x / 0x20_0000] + x % 0x20_0000), cmd.len % 0x1000_0000)
              && tlbMissCounter == (if x / 0x20_0000 > topPageBase then (old(tlbMissCounter) + 1) % TWO_TO_32 else old(tlbMissCounter))
              && tlbPageCrossingCounter
                 == if x % 0x20_0000 + cmd.len > 0x20_0000 then (old(tlbPageCrossingCounter) + 1) % TWO_TO_32 else old(tlbPageCrossingCounter)
    {
      var addr := Wrap(cmd.addr - baseVaddr);
      var pageBase := addr / PAGE_SIZE;
      var pageOffset := addr % PAGE_SIZE;
      dma := DmaCmd(Wrap(tlbTable[pageBase] + pageOffset), cmd.len % TWO_TO_28);
      if pageBase > topPageBase {
        tlbMissCounter := (tlbMissCounter + 1) % TWO_TO_32;
      }
      if pageOffset + cmd.len > PAGE_SIZE {
        tlbPageCrossingCounter := (tlbPageCrossingCounter + 1) % TWO_TO_32;
      }
    }
  }

  // What the counters hold

  lemma {:induction false} CountAllKeeps(t: State, cs: seq<MemCmd>)
    ensures var t' := CountAll(t, cs); t'.table == t.table && t'.base == t.base && t'.top == t.top
  {
    if cs != [] {
      CountAllKeeps(t, cs[..|cs| - 1]);
    }
  }

  function Marked(bs: seq<bool>): set<int> {
    set k | 0 <= k < |bs| && bs[k]
  }

  lemma MarkedLast(bs: seq<bool>)
    requires bs != []
    ensures |Marked(bs)| == |Marked(bs[..|bs| - 1])| + if bs[|bs| - 1] then 1 else 0
  {
    var before, n := bs[..|bs| - 1], |bs| - 1;
    assert Marked(bs) == Marked(before) + if bs[n] then {n} else {};
  }

  /** Which commands look up an entry beyond the top index, and which reach beyond the end of their page. */
  function Missing(t: State, cs: seq<MemCmd>): (bs: seq<bool>)
    ensures |bs| == |cs| && forall k :: 0 <= k < |cs| ==> bs[k] == Misses(t, cs[k])
  {
    seq(|cs|, k requires 0 <= k < |cs| => Misses(t, cs[k]))
  }

  function Leaving(t: State, cs: seq<MemCmd>): (bs: seq<bool>)
    ensures |bs| == |cs| && forall k :: 0 <= k < |cs| ==> bs[k] == LeavesPage(t, cs[k])
  {
    seq(|cs|, k requires 0 <= k < |cs| => LeavesPage(t, cs[k]))
  }

  lemma {:induction false} CountersMarked(t: State, cs: seq<MemCmd>)
    requires t.misses < TWO_TO_32 && t.crossings < TWO_TO_32
    ensures CountAll(t, cs).misses == (t.misses + |Marked(Missing(t, cs))|) % TWO_TO_32
    ensures CountAll(t, cs).crossings == (t.crossings + |Marked(Leaving(t, cs))|) % TWO_TO_32
    decreases |cs|
  {
    if cs == [] {
      assert Marked(Missing(t, cs)) == {} && Marked(Leaving(t, cs)) == {};
    } else {
      var before, c := cs[..|cs| - 1], cs[|cs| - 1];
      CountersMarked(t, before);
      CountAllKeeps(t, before);
      var t' := CountAll(t, before);
      assert Misses(t', c) == Misses(t, c) && LeavesPage(t', c) == LeavesPage(t, c);
      hide Misses, LeavesPage, Marked;
      MarkedLast(Missing(t, cs));
      MarkedLast(Leaving(t, cs));
      assert Missing(t, cs)[..|cs| - 1] == Missing(t, before) && Leaving(t, cs)[..|cs| - 1] == Leaving(t, before);
      Modulo(t.misses + |Marked(Missing(t, before))|);
      Modulo(t.crossings + |Marked(Leaving(t, before))|);
    }
  }

  lemma Modulo(x: nat)
    ensures (x % TWO_TO_32 + 1) % TWO_TO_32 == (x + 1) % TWO_TO_32
  {
  }

  lemma MissingSet(t: State, cs: seq<MemCmd>, missing: set<int>)
    requires forall k :: k in missing <==> 0 <= k < |cs| && Wrap(cs[k].addr - t.base) / PAGE_SIZE > t.top
    ensures missing == Marked(Missing(t, cs))
  {
  }

  lemma LeavingSet(t: State, cs: seq<MemCmd>, leaving: set<int>)
    requires forall k :: k in leaving <==> 0 <= k < |cs| && Wrap(cs[k].addr - t.base) % PAGE_SIZE + cs[k].len > PAGE_SIZE
    ensures leaving == Marked(Leaving(t, cs))
  {
  }

  /** After any list of commands the miss counter has gone up by the number of commands beyond the top index, and the
      crossing counter by the number of those that leave their page, both in 32 bits. */
  lemma CountersExact(t: State, cs: seq<MemCmd>, missing: set<int>, leaving: set<int>)
    requires t.misses < TWO_TO_32 && t.crossings < TWO_TO_32
    requires forall k :: k in missing <==> 0 <= k < |cs| && Wrap(cs[k].addr - t.base) / PAGE_SIZE > t.top
    requires forall k :: k in leaving <==> 0 <= k < |cs| && Wrap(cs[k].addr - t.base) % PAGE_SIZE + cs[k].len > PAGE_SIZE
    ensures CountAll(t, cs).misses == (t.misses + |missing|) % TWO_TO_32
    ensures CountAll(t, cs).crossings == (t.crossings + |leaving|) % TWO_TO_32
  {
    hide *;
    MissingSet(t, cs, missing);
    LeavingSet(t, cs, leaving);
    CountersMarked(t, cs);
  }

  // Filling the table

  /** What the host writes: one mapping for each 2 MiB page, the first of them the base. */
  function FillMessages(base: nat, dma: seq<nat>): (ms: seq<Mapping>)
    ensures |ms| == |dma|
  {
    seq(|dma|, i requires 0 <= i < |dma| => Mapping(Wrap(base + i * PAGE_SIZE), dma[i], i == 0))
  }

  predicate AcceptsAll(t: State, ms: seq<Mapping>)
    decreases |ms|
  {
    ms == [] || (Accepts(t, ms[0]) && AcceptsAll(Map(t, ms[0]), ms[1..]))
  }

  function MapAll(t: State, ms: seq<Mapping>): State
    requires AcceptsAll(t, ms)
    decreases |ms|
  {
    if ms == [] then t else MapAll(Map(t, ms[0]), ms[1..])
  }

  lemma PageIndexOf(base: nat, i: nat, o: PageOff)
    requires i < TLB_ENTRIES
    ensures Wrap(Wrap(base + (i * PAGE_SIZE + o)) - base) == i * PAGE_SIZE + o
    ensures PageIndex(base, Wrap(base + (i * PAGE_SIZE + o))) == i
  {
    var x := i * PAGE_SIZE + o;
    assert x < TWO_TO_64;
    var q := (base + x) / TWO_TO_64;
    ModUnique(Wrap(base + x) - base, TWO_TO_64, -q, x);
    ModUnique(x, PAGE_SIZE, i, o);
  }

  /** The loop from entry `k` on writes entry `i` with `dma[i]` and nothing else. */
  lemma {:induction false} FillFrom(t: State, base: nat, dma: seq<nat>, k: nat)
    requires 1 <= k <= |dma| <= |t.table| == TLB_ENTRIES && t.base == base < TWO_TO_64
    ensures var ms := FillMessages(base, dma)[k..];
            && AcceptsAll(t, ms)
            && (var t' := MapAll(t, ms);
                && |t'.table| == TLB_ENTRIES && t'.base == base
                && (forall i :: 0 <= i < TLB_ENTRIES ==>
                      t'.table[i] == if k <= i < |dma| then dma[i] % TWO_TO_48 else t.table[i])
                && t'.top == (if k < |dma| && |dma| - 1 > t.top then |dma| - 1 else t.top)
                && t'.misses == t.misses && t'.crossings == t.crossings)
    decreases |dma| - k
  {
    var ms := FillMessages(base, dma);
    if k < |dma| {
      assert ms[k..][0] == ms[k] && ms[k..][1..] == ms[k + 1..];
      PageIndexOf(base, k, 0);
      FillFrom(Map(t, ms[k]), base, dma, k + 1);
    }
  }

  /** The fill loop, from any earlier state of the table. */
  lemma Fill(t: State, base: nat, dma: seq<nat>)
    requires 1 <= |dma| <= |t.table| == TLB_ENTRIES && base < TWO_TO_64
    ensures AcceptsAll(t, FillMessages(base, dma))
    ensures var t' := MapAll(t, FillMessages(base, dma));
            && |t'.table| == TLB_ENTRIES && t'.base == base
            && (forall i :: 0 <= i < TLB_ENTRIES ==>
                  t'.table[i] == if i < |dma| then dma[i] % TWO_TO_48 else t.table[i])
            && t'.top == (if |dma| - 1 > t.top then |dma| - 1 else t.top)
            && t'.misses == t.misses && t'.crossings == t.crossings
  {
    var ms := FillMessages(base, dma);
    assert ms[0] == Mapping(Wrap(base), dma[0], true) && Wrap(base) == base;
    PageIndexOf(base, 0, 0);
    FillFrom(Map(t, ms[0]), base, dma, 1);
  }

  /** After a fill, a lookup of one byte at the start of page `i` moves the miss counter for exactly the unmapped pages if
      and only if no earlier fill reached further; such a lookup never moves the crossing counter. */
  lemma {:induction false} MissesExact(t: State, base: nat, dma: seq<nat>)
    requires 1 <= |dma| <= |t.table| == TLB_ENTRIES && base < TWO_TO_64 && t.top < TLB_ENTRIES
    ensures AcceptsAll(t, FillMessages(base, dma))
    ensures var t' := MapAll(t, FillMessages(base, dma));
            && ((forall i :: 0 <= i < TLB_ENTRIES ==>
                   (Count(t', MemCmd(Wrap(base + i * PAGE_SIZE), 1)).misses
                    == if i < |dma| then t.misses else (t.misses + 1) % TWO_TO_32))
                <==> t.top < |dma|)
            && (forall i :: 0 <= i < TLB_ENTRIES ==>
                  Count(t', MemCmd(Wrap(base + i * PAGE_SIZE), 1)).crossings == t.crossings)
  {
    Fill(t, base, dma);
    var t' := MapAll(t, FillMessages(base, dma));
    hide MapAll, AcceptsAll, FillMessages;
    forall i | 0 <= i < TLB_ENTRIES
      ensures var q := Count(t', MemCmd(Wrap(base + i * PAGE_SIZE), 1));
              q.misses == (if i <= t'.top then t.misses else (t.misses + 1) % TWO_TO_32) && q.crossings == t.crossings
    {
      PageIndexOf(base, i, 0);
    }
    if t.top >= |dma| {
      var i := t.top;
      assert Count(t', MemCmd(Wrap(base + i * PAGE_SIZE), 1)).misses == t.misses;
    }
  }
}
