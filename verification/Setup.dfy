/** Setting the translation buffer up: the driver samples the page list, the host writes one mapping for each
    sample, and the result must agree with the page list itself. */
module Setup {
  import opened Mem
  import opened Streams
  import opened TlbMessages
  import T = Tlb

  const SMALL_PAGE := 4096
  const GROUP := 512

  // The host's side as the code runs it

  /** Five writes to the message register. */
  method WriteTlb(regs: Stream<RegWrite>, vaddr: nat, paddr: nat, isBase: bool)
    modifies regs
    ensures regs.items
            == old(regs.items)
               + [RegWrite(64, vaddr % TWO_TO_32), RegWrite(64, vaddr / TWO_TO_32 % TWO_TO_32),
                  RegWrite(64, paddr % TWO_TO_32), RegWrite(64, paddr / TWO_TO_32 % TWO_TO_32),
                  RegWrite(64, if isBase then 1 else 0)]
    ensures TlbWords(regs.items) == TlbWords(old(regs.items)) + Words(T.Mapping(vaddr, paddr, isBase))
  {
    WriteReg(regs, vaddr % TWO_TO_32);
    WriteReg(regs, vaddr / TWO_TO_32 % TWO_TO_32);
    WriteReg(regs, paddr % TWO_TO_32);
    WriteReg(regs, paddr / TWO_TO_32 % TWO_TO_32);
    WriteReg(regs, if isBase then 1 else 0);
  }

  method WriteReg(regs: Stream<RegWrite>, value: nat)
    modifies regs
    ensures regs.items == old(regs.items) + [RegWrite(64, value)]
    ensures TlbWords(regs.items) == TlbWords(old(regs.items)) + [value]
  {
    regs.Write(RegWrite(REG_TLB * 32, value));
  }

  lemma EmptyWords()
    ensures AllWords([]) == []
  {
  }

  lemma AllWordsFrom(ms: seq<T.Mapping>, i: nat)
    requires i < |ms|
    ensures AllWords(ms[i..]) == Words(ms[i]) + AllWords(ms[i + 1..])
  {
    assert ms[i..][1..] == ms[i + 1..];
  }

  /** The fill loop of the host: one message for each 2 MiB page. */
  method FillTlb(regs: Stream<RegWrite>, hugeBase: nat, dmaAddr: seq<nat>)
    modifies regs
    ensures TlbWords(regs.items) == TlbWords(old(regs.items)) + AllWords(T.FillMessages(hugeBase, dmaAddr))
  {
    hide Words, TlbWords, AllWords;
    var ms := T.FillMessages(hugeBase, dmaAddr);
    assert AllWords(ms[|ms|..]) == [] by {
      EmptyWords();
      assert ms[|ms|..] == [];
    }
    assert ms[0..] == ms;
    var vaddr := Wrap(hugeBase);
    var i := 0;
    while i < |dmaAddr|
      invariant 0 <= i <= |dmaAddr| && vaddr == Wrap(hugeBase + i * PAGE_SIZE)
      invariant TlbWords(regs.items) + AllWords(ms[i..]) == TlbWords(old(regs.items)) + AllWords(ms)
    {
      AllWordsFrom(ms, i);
      WriteTlb(regs, vaddr, dmaAddr[i], i == 0);
      WrapAgain(hugeBase + i * PAGE_SIZE, PAGE_SIZE);
      vaddr := Wrap(vaddr + PAGE_SIZE);
      i := i + 1;
    }
  }

  // The driver's side as the code runs it

  /** The number of 4 KiB pages of a buffer, as the driver rounds it. */
  function PagesOf(bufsize: nat): nat
    requires bufsize >= 1
  {
    1 + (bufsize - 1) / SMALL_PAGE
  }

  /** The pages cover the buffer, and one page less would not. */
  lemma PagesCover(bufsize: nat)
    requires bufsize >= 1
    ensures (PagesOf(bufsize) - 1) * 4096 < bufsize <= PagesOf(bufsize) * 4096
  {
  }

  function Groups(npages: nat): nat {
    (npages + GROUP - 1) / GROUP
  }

  /** Counting every 512th page counts the 2 MiB pages. */
  method CountHugePages(npages: nat) returns (j: nat)
    ensures j == Groups(npages)
  {
    j := 0;
    var i := 0;
    while i < npages
      invariant 0 <= i <= npages && j == Groups(i)
    {
      if i % GROUP == 0 {
        j := j + 1;
      }
      i := i + 1;
    }
  }

  /** Every 512th page of the list. */
  function Samples(pages: seq<nat>): (dma: seq<nat>)
    ensures |dma| == Groups(|pages|)
  {
    seq(Groups(|pages|), j requires 0 <= j < Groups(|pages|) => pages[j * GROUP])
  }

  datatype MappingReply = MappingReply(dma: seq<nat>) | BadAddress

  /** The mapping request: refused when the caller's array is too short, else every 512th page. */
  method GetMapping(npagesRequested: nat, pages: seq<nat>) returns (r: MappingReply)
    ensures r == if npagesRequested < Groups(|pages|) then BadAddress else MappingReply(Samples(pages))
  {
    var hugeNpages := CountHugePages(|pages|);
    if npagesRequested < hugeNpages {
      return BadAddress;
    }
    var dmaAddr := new nat[hugeNpages](i => 0);
    var i, j := 0, 0;
    while i < |pages|
      invariant 0 <= i <= |pages| && j == Groups(i) <= hugeNpages
      invariant forall k :: 0 <= k < j ==> dmaAddr[k] == pages[k * GROUP]
    {
      if i % GROUP == 0 {
        dmaAddr[j] := pages[i];
        j := j + 1;
      }
      i := i + 1;
    }
    r := MappingReply(dmaAddr[..]);
  }

  // Agreement with the page list

  /** Where the byte at offset `o` of the buffer lies, by the page list alone. */
  function ByPageList(pages: seq<nat>, o: nat): nat
    requires o / SMALL_PAGE < |pages|
  {
    pages[o / SMALL_PAGE] + o % SMALL_PAGE
  }

  /** Each group of 512 pages is one physically contiguous block. */
  predicate Contiguous(pages: seq<nat>) {
    forall i :: 0 <= i < |pages| ==> pages[i] == pages[i / GROUP * GROUP] + i % GROUP * SMALL_PAGE
  }

  predicate Translates(t: T.State, pages: seq<nat>, base: nat, o: nat)
    requires o / SMALL_PAGE < |pages|
  {
    T.InTable(t, Wrap(base + o)) && T.Phys(t, Wrap(base + o)) == ByPageList(pages, o)
  }

  lemma OffsetParts(o: nat)
    ensures o / PAGE_SIZE == o / SMALL_PAGE / GROUP
    ensures o % PAGE_SIZE == o / SMALL_PAGE % GROUP * SMALL_PAGE + o % SMALL_PAGE
  {
    var i, r := o / SMALL_PAGE, o % SMALL_PAGE;
    ModUnique(o, PAGE_SIZE, i / GROUP, i % GROUP * SMALL_PAGE + r);
  }

  /** What the filled table makes of the byte at offset `o`. */
  lemma FilledPhys(t: T.State, pages: seq<nat>, base: nat, o: nat)
    requires |t.table| == T.TLB_ENTRIES && t.base == base < TWO_TO_64
    requires |pages| <= T.TLB_ENTRIES * GROUP && o / SMALL_PAGE < |pages|
    requires forall i :: 0 <= i < |pages| ==> pages[i] < TWO_TO_48
    requires forall i :: 0 <= i < Groups(|pages|) ==> t.table[i] == Samples(pages)[i]
    ensures T.InTable(t, Wrap(base + o))
    ensures var i := o / SMALL_PAGE;
            T.Phys(t, Wrap(base + o)) == pages[i / GROUP * GROUP] + i % GROUP * SMALL_PAGE + o % SMALL_PAGE
  {
    OffsetParts(o);
    var j := o / PAGE_SIZE;
    T.PageIndexOf(base, j, o % PAGE_SIZE);
    assert j < Groups(|pages|) && t.table[j] == pages[j * GROUP];
    assert base + (j * PAGE_SIZE + o % PAGE_SIZE) == base + o;
    ModUnique(o, PAGE_SIZE, j, o % PAGE_SIZE);
  }

  lemma AgreesIffContiguous(t: T.State, pages: seq<nat>, base: nat)
    requires |t.table| == T.TLB_ENTRIES && t.base == base < TWO_TO_64
    requires |pages| <= T.TLB_ENTRIES * GROUP
    requires forall i :: 0 <= i < |pages| ==> pages[i] < TWO_TO_48
    requires forall i :: 0 <= i < Groups(|pages|) ==> t.table[i] == Samples(pages)[i]
    ensures (forall o: nat :: o / SMALL_PAGE < |pages| ==> Translates(t, pages, base, o)) <==> Contiguous(pages)
  {
    hide T.InTable, T.Phys, Samples, Wrap;
    if Contiguous(pages) {
      forall o: nat | o / SMALL_PAGE < |pages| ensures Translates(t, pages, base, o) {
        FilledPhys(t, pages, base, o);
      }
    } else {
      var i :| 0 <= i < |pages| && pages[i] != pages[i / GROUP * GROUP] + i % GROUP * SMALL_PAGE;
      var o := i * SMALL_PAGE;
      assert o / SMALL_PAGE == i && o % SMALL_PAGE == 0;
      FilledPhys(t, pages, base, o);
      assert !Translates(t, pages, base, o);
    }
  }

  /** After the driver's sampling and the host's fill loop, the translation buffer agrees with the page list on
      every byte of the buffer exactly when each group of 512 pages is contiguous; and its top index is the last
      sampled page when no earlier fill reached further. */
  lemma AgreesWithPageList(t0: T.State, pages: seq<nat>, base: nat)
    requires |t0.table| == T.TLB_ENTRIES && base < TWO_TO_64
    requires 1 <= |pages| <= T.TLB_ENTRIES * GROUP
    requires forall i :: 0 <= i < |pages| ==> pages[i] < TWO_TO_48
    ensures T.AcceptsAll(t0, T.FillMessages(base, Samples(pages)))
    ensures var t := T.MapAll(t0, T.FillMessages(base, Samples(pages)));
            && ((forall o: nat :: o / SMALL_PAGE < |pages| ==> Translates(t, pages, base, o)) <==> Contiguous(pages))
            && (t0.top < Groups(|pages|) ==> t.top == Groups(|pages|) - 1)
  {
    var dma := Samples(pages);
    T.Fill(t0, base, dma);
    var t := T.MapAll(t0, T.FillMessages(base, dma));
    hide T.MapAll, T.AcceptsAll, T.FillMessages, Translates, Contiguous;
    forall i | 0 <= i < Groups(|pages|) ensures t.table[i] == dma[i] {
      assert dma[i] == pages[i * GROUP] < TWO_TO_48;
    }
    AgreesIffContiguous(t, pages, base);
  }

  lemma FillIs64(base: nat, dma: seq<nat>)
    requires forall i :: 0 <= i < |dma| ==> dma[i] < TWO_TO_48
    ensures forall i :: 0 <= i < |dma| ==> Is64(T.FillMessages(base, dma)[i])
  {
  }

  /** The whole path: the host's register writes, any clock-by-clock run of the controller that answers them all,
      and the mappings it hands over to the translation buffer. */
  lemma InitializationAgrees(c: Ctl, ws: seq<RegWrite>, ks: seq<Cycle>, t0: T.State, pages: seq<nat>, base: nat)
    requires |c.message| == 5 && |t0.table| == T.TLB_ENTRIES && base < TWO_TO_64
    requires 1 <= |pages| <= T.TLB_ENTRIES * GROUP
    requires forall i :: 0 <= i < |pages| ==> pages[i] < TWO_TO_48
    requires TlbWords(ws) == AllWords(T.FillMessages(base, Samples(pages)))
    requires Ticks(Start(c), ws, ks).resps == |ws|
    ensures var delivered := Ticks(Start(c), ws, ks).delivered;
            && T.AcceptsAll(t0, delivered)
            && ((forall o: nat :: o / SMALL_PAGE < |pages| ==> Translates(T.MapAll(t0, delivered), pages, base, o))
                <==> Contiguous(pages))
  {
    var dma := Samples(pages);
    forall i | 0 <= i < |dma| ensures dma[i] < TWO_TO_48 {
      assert dma[i] == pages[i * GROUP];
    }
    FillIs64(base, dma);
    MessagesArrive(c, ws, ks, T.FillMessages(base, dma));
    AgreesWithPageList(t0, pages, base);
  }
}
