/** The host's first-fit allocator: a linked list of chunks that is split in place and never merged. */
module Allocator {
  import opened Axis
  import opened Mem
  import opened Wrappers

  datatype Chunk = Chunk(addr: nat, size: nat, free: bool)

  /** The request rounded up to whole 4 KiB pages, in 64-bit arithmetic. */
  function Round(n: nat): nat {
    (n + 4095) % TWO_TO_64 / 4096 * 4096
  }

  // The specification on the list of chunks

  predicate FitsIn(c: Chunk, want: nat) {
    c.free && want <= c.size
  }

  /** The chunk taken, and what is left of it. */
  function Take(c: Chunk, want: nat): seq<Chunk>
    requires want <= c.size
  {
    if c.size > want then [Chunk(c.addr, want, false), Chunk(c.addr + want, c.size - want, true)]
    else [c.(free := false)]
  }

  function AfterAllocate(cs: seq<Chunk>, want: nat): seq<Chunk> {
    if cs == [] then []
    else if FitsIn(cs[0], want) then Take(cs[0], want) + cs[1..]
    else [cs[0]] + AfterAllocate(cs[1..], want)
  }

  function Allocated(cs: seq<Chunk>, want: nat): Option<nat> {
    if cs == [] then None
    else if FitsIn(cs[0], want) then Some(cs[0].addr)
    else Allocated(cs[1..], want)
  }

  function AfterFree(cs: seq<Chunk>, ptr: nat): (r: seq<Chunk>)
    ensures |r| == |cs|
  {
    if cs == [] then []
    else [if cs[0].addr == ptr then cs[0].(free := true) else cs[0]] + AfterFree(cs[1..], ptr)
  }

  /** The bytes from `lo` up to `hi`, counted from the buffer's start, set to zero. */
  function Wipe(mem: seq<Byte>, lo: int, hi: int): (r: seq<Byte>)
    ensures |r| == |mem| && forall x :: 0 <= x < |mem| ==> r[x] == if lo <= x < hi then 0 else mem[x]
  {
    seq(|mem|, x requires 0 <= x < |mem| => if lo <= x < hi then 0 else mem[x])
  }

  function WipeAll(mem: seq<Byte>, base: nat, cs: seq<Chunk>, ptr: nat): (r: seq<Byte>)
    ensures |r| == |mem|
    decreases |cs|
  {
    if cs == [] then mem
    else
      var c := cs[0];
      WipeAll(if c.addr == ptr then Wipe(mem, c.addr - base, c.addr + c.size - base) else mem, base, cs[1..], ptr)
  }

  // What the list looks like

  /** The chunks are non-empty and follow each other without gap or overlap from `at` to `end`. */
  predicate Tiles(cs: seq<Chunk>, at: nat, end: nat) {
    if cs == [] then at == end
    else cs[0].addr == at && cs[0].size > 0 && at + cs[0].size <= end && Tiles(cs[1..], at + cs[0].size, end)
  }

  /** Every chunk starts a whole number of pages from the base. */
  predicate PageStarts(cs: seq<Chunk>, base: nat) {
    forall k :: 0 <= k < |cs| ==> (cs[k].addr - base) % 4096 == 0
  }

  lemma {:induction false} TilesFacts(cs: seq<Chunk>, at: nat, end: nat, i: nat)
    requires Tiles(cs, at, end) && i < |cs|
    ensures at <= cs[i].addr && cs[i].size > 0 && cs[i].addr + cs[i].size <= end
    ensures forall j :: i < j < |cs| ==> cs[i].addr + cs[i].size <= cs[j].addr
    ensures i + 1 < |cs| ==> cs[i].addr + cs[i].size == cs[i + 1].addr
    ensures i + 1 == |cs| ==> cs[i].addr + cs[i].size == end
    decreases |cs|
  {
    if i > 0 {
      TilesFacts(cs[1..], at + cs[0].size, end, i - 1);
      forall j | i < j < |cs| ensures cs[i].addr + cs[i].size <= cs[j].addr {
        assert cs[j] == cs[1..][j - 1];
      }
    } else {
      forall j | 0 < j < |cs| ensures cs[0].addr + cs[0].size <= cs[j].addr {
        TilesFacts(cs[1..], at + cs[0].size, end, j - 1);
      }
      if |cs| > 1 {
        TilesFacts(cs[1..], at + cs[0].size, end, 0);
      }
    }
  }

  // allocate

  lemma RoundUp(n: nat)
    requires n < TWO_TO_64
    ensures Round(n) % 4096 == 0
    ensures Round(n) > 0 <==> 1 <= n <= TWO_TO_64 - 4096
    ensures Round(n) > 0 ==> n <= Round(n) < n + 4096
  {
  }

  /** First fit: a chunk is returned exactly when some free chunk is large enough, and it is the lowest such. */
  lemma {:induction false} FirstFit(cs: seq<Chunk>, at: nat, end: nat, want: nat)
    requires Tiles(cs, at, end)
    ensures Allocated(cs, want).Some? <==> exists k :: 0 <= k < |cs| && cs[k].free && want <= cs[k].size
    ensures Allocated(cs, want).Some? ==>
              && (exists k :: 0 <= k < |cs| && cs[k].free && want <= cs[k].size && cs[k].addr == Allocated(cs, want).value)
              && (forall k :: 0 <= k < |cs| && cs[k].free && want <= cs[k].size ==> Allocated(cs, want).value <= cs[k].addr)
    decreases |cs|
  {
    if cs != [] {
      if FitsIn(cs[0], want) {
        forall k | 0 <= k < |cs| ensures cs[0].addr <= cs[k].addr {
          TilesFacts(cs, at, end, k);
        }
      } else {
        FirstFit(cs[1..], at + cs[0].size, end, want);
        forall k | 0 <= k < |cs| && FitsIn(cs[k], want) ensures 1 <= k && cs[1..][k - 1] == cs[k] {
        }
        if Allocated(cs, want).Some? {
          var k :| 0 <= k < |cs[1..]| && FitsIn(cs[1..][k], want) && cs[1..][k].addr == Allocated(cs, want).value;
          assert cs[k + 1] == cs[1..][k];
        }
      }
    }
  }

  /** How many chunks come before the first fit. */
  function Before(cs: seq<Chunk>, want: nat): nat {
    if cs == [] || FitsIn(cs[0], want) then 0 else 1 + Before(cs[1..], want)
  }

  lemma {:induction false} BeforeUnfit(cs: seq<Chunk>, want: nat)
    ensures forall j :: 0 <= j < Before(cs, want) && j < |cs| ==> !FitsIn(cs[j], want)
    decreases |cs|
  {
    if cs != [] && !FitsIn(cs[0], want) {
      BeforeUnfit(cs[1..], want);
      forall j | 1 <= j < Before(cs, want) && j < |cs| ensures !FitsIn(cs[j], want) {
        assert cs[j] == cs[1..][j - 1];
      }
    }
  }

  /** Where the first fit is, and the list around it. */
  lemma {:induction false} AllocateAt(cs: seq<Chunk>, want: nat) returns (k: nat)
    requires Allocated(cs, want).Some?
    ensures k < |cs| && FitsIn(cs[k], want) && cs[k].addr == Allocated(cs, want).value && k == Before(cs, want)
    ensures AfterAllocate(cs, want) == cs[..k] + Take(cs[k], want) + cs[k + 1..]
    decreases |cs|
  {
    if FitsIn(cs[0], want) {
      k := 0;
    } else {
      k := AllocateAt(cs[1..], want);
      k := k + 1;
      Shift(cs, k);
    }
  }

  lemma Shift(cs: seq<Chunk>, k: nat)
    requires 1 <= k < |cs|
    ensures [cs[0]] + cs[1..][..k - 1] == cs[..k] && cs[1..][k..] == cs[k + 1..]
  {
  }

  lemma {:induction false} AllocateNone(cs: seq<Chunk>, want: nat)
    requires Allocated(cs, want) == None
    ensures AfterAllocate(cs, want) == cs
  {
    if cs != [] {
      AllocateNone(cs[1..], want);
    }
  }

  /** Nothing is returned exactly when nothing is large enough. */
  lemma {:induction false} AllocatedNone(cs: seq<Chunk>, want: nat)
    ensures Allocated(cs, want) == None <==> forall j :: 0 <= j < |cs| ==> !FitsIn(cs[j], want)
    decreases |cs|
  {
    if cs != [] && !FitsIn(cs[0], want) {
      AllocatedNone(cs[1..], want);
      assert forall j :: 1 <= j < |cs| ==> cs[j] == cs[1..][j - 1];
      assert forall j :: 0 <= j < |cs| - 1 ==> cs[1..][j] == cs[j + 1];
      hide FitsIn;
    }
  }

  /** The whole effect on any list: nothing when no free chunk is large enough; otherwise the first one that is becomes
      taken, and what it has beyond the request is left behind it as one free chunk. */
  lemma AllocateExact(cs: seq<Chunk>, want: nat) returns (k: nat)
    ensures (forall j :: 0 <= j < |cs| ==> !(cs[j].free && want <= cs[j].size)) ==>
              Allocated(cs, want) == None && AfterAllocate(cs, want) == cs
    ensures (exists j :: 0 <= j < |cs| && cs[j].free && want <= cs[j].size) ==>
              && k < |cs| && cs[k].free && want <= cs[k].size
              && (forall j :: 0 <= j < k ==> !(cs[j].free && want <= cs[j].size))
              && Allocated(cs, want) == Some(cs[k].addr)
              && AfterAllocate(cs, want)
                 == cs[..k]
                    + (if cs[k].size == want then [Chunk(cs[k].addr, want, false)]
                       else [Chunk(cs[k].addr, want, false), Chunk(cs[k].addr + want, cs[k].size - want, true)])
                    + cs[k + 1..]
  {
    AllocatedNone(cs, want);
    k := 0;
    if Allocated(cs, want) == None {
      AllocateNone(cs, want);
    } else {
      k := AllocateAt(cs, want);
      BeforeUnfit(cs, want);
    }
    hide Allocated, AfterAllocate, Before;
  }

  /** Splitting keeps the tiling exactly when the request is not rounded to nothing or there is no free chunk. */
  lemma {:induction false} AllocateTiles(cs: seq<Chunk>, at: nat, end: nat, want: nat)
    requires Tiles(cs, at, end)
    ensures Tiles(AfterAllocate(cs, want), at, end) <==> want > 0 || Allocated(cs, want) == None
    decreases |cs|
  {
    if cs != [] {
      var c := cs[0];
      if FitsIn(c, want) {
        var cs' := AfterAllocate(cs, want);
        if c.size > want {
          assert cs'[1..][1..] == cs[1..];
        } else {
          assert cs'[1..] == cs[1..];
        }
      } else {
        AllocateTiles(cs[1..], at + c.size, end, want);
        assert AfterAllocate(cs, want)[1..] == AfterAllocate(cs[1..], want);
      }
    }
  }

  lemma AllocatePageStarts(cs: seq<Chunk>, base: nat, want: nat)
    requires PageStarts(cs, base) && want % 4096 == 0
    ensures PageStarts(AfterAllocate(cs, want), base)
  {
    if Allocated(cs, want) == None {
      AllocateNone(cs, want);
    } else {
      var k := AllocateAt(cs, want);
      var c := cs[k];
      assert (c.addr + want - base) % 4096 == 0;
    }
  }

  /** Chunk boundaries are only ever refined. */
  lemma AllocateRefines(cs: seq<Chunk>, want: nat)
    ensures forall c :: c in cs ==> exists d :: d in AfterAllocate(cs, want) && d.addr == c.addr
    ensures |cs| <= |AfterAllocate(cs, want)| <= |cs| + 1
  {
    if Allocated(cs, want) == None {
      AllocateNone(cs, want);
    } else {
      var k := AllocateAt(cs, want);
      var cs' := AfterAllocate(cs, want);
      forall c | c in cs ensures exists d :: d in cs' && d.addr == c.addr {
        var i :| 0 <= i < |cs| && cs[i] == c;
        if i < k {
          assert cs'[i] == c;
        } else if i == k {
          assert cs'[k].addr == c.addr;
        } else {
          assert cs'[|cs'| - |cs| + i] == c;
        }
      }
    }
  }

  /** Tiles that start a page apart are at most as many as the pages they cover. */
  lemma {:induction false} TilesBound(cs: seq<Chunk>, base: nat, at: nat, end: nat)
    requires Tiles(cs, at, end) && PageStarts(cs, base) && base <= at
    ensures |cs| <= (end - at + 4095) / 4096
    decreases |cs|
  {
    if |cs| > 1 {
      TilesFacts(cs, at, end, 0);
      assert PageStarts(cs[1..], base);
      assert (cs[0].addr - base) % 4096 == 0 && (cs[1].addr - base) % 4096 == 0;
      TilesBound(cs[1..], base, cs[1].addr, end);
      PageApart(cs[0].addr - base, cs[1].addr - base, end - base);
    } else if |cs| == 1 {
      TilesFacts(cs, at, end, 0);
    }
  }

  lemma PageApart(a: nat, b: nat, e: nat)
    requires a % 4096 == 0 && b % 4096 == 0 && a < b <= e
    ensures (e - b + 4095) / 4096 + 1 <= (e - a + 4095) / 4096
  {
    assert b - a >= 4096;
  }

  // free

  lemma {:induction false} AfterFreeAt(cs: seq<Chunk>, ptr: nat, k: nat)
    requires k < |cs|
    ensures AfterFree(cs, ptr)[k] == if cs[k].addr == ptr then cs[k].(free := true) else cs[k]
    decreases k
  {
    if k > 0 {
      AfterFreeAt(cs[1..], ptr, k - 1);
    }
  }

  lemma {:induction false} FreeTiles(cs: seq<Chunk>, at: nat, end: nat, ptr: nat)
    requires Tiles(cs, at, end)
    ensures Tiles(AfterFree(cs, ptr), at, end)
    decreases |cs|
  {
    if cs != [] {
      FreeTiles(cs[1..], at + cs[0].size, end, ptr);
      assert AfterFree(cs, ptr)[1..] == AfterFree(cs[1..], ptr);
    }
  }

  // Memory

  /** Every byte of every free chunk is zero. */
  predicate FreeIsZero(mem: seq<Byte>, base: nat, cs: seq<Chunk>) {
    forall k :: 0 <= k < |cs| ==> (cs[k].free ==> ZeroRange(mem, cs[k].addr - base, cs[k].addr + cs[k].size - base))
  }

  predicate ZeroRange(mem: seq<Byte>, lo: int, hi: int) {
    forall x :: lo <= x < hi && 0 <= x < |mem| ==> mem[x] == 0
  }

  /** `free` changes memory only by wiping, and wipes every chunk it frees. */
  lemma {:induction false} WipeAllZeroes(mem: seq<Byte>, base: nat, cs: seq<Chunk>, ptr: nat)
    ensures forall x :: 0 <= x < |mem| ==> WipeAll(mem, base, cs, ptr)[x] == mem[x] || WipeAll(mem, base, cs, ptr)[x] == 0
    ensures forall k :: 0 <= k < |cs| && cs[k].addr == ptr ==>
              ZeroRange(WipeAll(mem, base, cs, ptr), ptr - base, ptr + cs[k].size - base)
    decreases |cs|
  {
    if cs != [] {
      var c := cs[0];
      var mem' := if c.addr == ptr then Wipe(mem, c.addr - base, c.addr + c.size - base) else mem;
      WipeAllZeroes(mem', base, cs[1..], ptr);
      forall k | 0 <= k < |cs| && cs[k].addr == ptr
        ensures ZeroRange(WipeAll(mem, base, cs, ptr), ptr - base, ptr + cs[k].size - base)
      {
        if k > 0 {
          assert cs[1..][k - 1] == cs[k];
        }
      }
    }
  }

  lemma FreeKeepsZero(mem: seq<Byte>, base: nat, cs: seq<Chunk>, ptr: nat)
    requires FreeIsZero(mem, base, cs)
    ensures FreeIsZero(WipeAll(mem, base, cs, ptr), base, AfterFree(cs, ptr))
  {
    WipeAllZeroes(mem, base, cs, ptr);
    forall k | 0 <= k < |cs| && AfterFree(cs, ptr)[k].free
      ensures var c := AfterFree(cs, ptr)[k];
              ZeroRange(WipeAll(mem, base, cs, ptr), c.addr - base, c.addr + c.size - base)
    {
      AfterFreeAt(cs, ptr, k);
    }
  }

  lemma AllocateKeepsZero(mem: seq<Byte>, base: nat, cs: seq<Chunk>, want: nat)
    requires FreeIsZero(mem, base, cs)
    ensures FreeIsZero(mem, base, AfterAllocate(cs, want))
  {
    if Allocated(cs, want) == None {
      AllocateNone(cs, want);
    } else {
      var k := AllocateAt(cs, want);
      var cs' := AfterAllocate(cs, want);
      assert ZeroRange(mem, cs[k].addr - base, cs[k].addr + cs[k].size - base);
      forall i | 0 <= i < |cs'| && cs'[i].free ensures ZeroRange(mem, cs'[i].addr - base, cs'[i].addr + cs'[i].size - base) {
        if i < k {
          assert cs'[i] == cs[i];
        } else if i > k + (|cs'| - |cs|) {
          assert cs'[i] == cs[i - (|cs'| - |cs|)];
        }
      }
    }
  }

  /** On a tiled list `free` wipes and frees the one chunk that starts at the address, and nothing else. */
  lemma FreeExact(mem: seq<Byte>, base: nat, cs: seq<Chunk>, at: nat, end: nat, ptr: nat)
    requires Tiles(cs, at, end)
    ensures forall k :: 0 <= k < |cs| && cs[k].addr == ptr ==>
              && AfterFree(cs, ptr) == cs[k := cs[k].(free := true)]
              && WipeAll(mem, base, cs, ptr) == Wipe(mem, ptr - base, ptr + cs[k].size - base)
    ensures (forall k :: 0 <= k < |cs| ==> cs[k].addr != ptr) ==>
              AfterFree(cs, ptr) == cs && WipeAll(mem, base, cs, ptr) == mem
  {
    if forall k :: 0 <= k < |cs| ==> cs[k].addr != ptr {
      FreeNothing(mem, base, cs, ptr);
    }
    forall k | 0 <= k < |cs| && cs[k].addr == ptr
      ensures AfterFree(cs, ptr) == cs[k := cs[k].(free := true)]
      ensures WipeAll(mem, base, cs, ptr) == Wipe(mem, ptr - base, ptr + cs[k].size - base)
    {
      FreeOne(mem, base, cs, at, end, ptr, k);
    }
  }

  lemma {:induction false} FreeNothing(mem: seq<Byte>, base: nat, cs: seq<Chunk>, ptr: nat)
    requires forall k :: 0 <= k < |cs| ==> cs[k].addr != ptr
    ensures AfterFree(cs, ptr) == cs && WipeAll(mem, base, cs, ptr) == mem
    decreases |cs|
  {
    if cs != [] {
      FreeNothing(mem, base, cs[1..], ptr);
    }
  }

  lemma {:induction false} FreeOne(mem: seq<Byte>, base: nat, cs: seq<Chunk>, at: nat, end: nat, ptr: nat, k: nat)
    requires Tiles(cs, at, end) && k < |cs| && cs[k].addr == ptr
    ensures AfterFree(cs, ptr) == cs[k := cs[k].(free := true)]
    ensures WipeAll(mem, base, cs, ptr) == Wipe(mem, ptr - base, ptr + cs[k].size - base)
    decreases |cs|
  {
    TilesFacts(cs, at, end, 0);
    hide Wipe, ZeroRange;
    if k == 0 {
      forall j | 0 <= j < |cs[1..]| ensures cs[1..][j].addr != ptr {
        assert cs[1..][j] == cs[j + 1];
      }
      FreeNothing(Wipe(mem, ptr - base, ptr + cs[0].size - base), base, cs[1..], ptr);
    } else {
      FreeOne(mem, base, cs[1..], at + cs[0].size, end, ptr, k - 1);
      hide Tiles;
      assert cs[k := cs[k].(free := true)] == [cs[0]] + cs[1..][k - 1 := cs[k].(free := true)];
    }
  }

  // Runs

  /** The buffer starts at address `base`; `mem` are its bytes. */
  datatype Heap = Heap(base: nat, chunks: seq<Chunk>, mem: seq<Byte>)

  datatype Op = Allocate(n: nat) | Free(ptr: nat) | Write(addr: nat, value: Byte)

  /** The address lies in a block that has been handed out. */
  predicate InLiveBlock(h: Heap, addr: nat) {
    exists k :: 0 <= k < |h.chunks| && !h.chunks[k].free && h.chunks[k].addr <= addr < h.chunks[k].addr + h.chunks[k].size
  }

  /** What clients may do: request at least a byte and no more than rounding can carry, and write inside live blocks. */
  predicate Allowed(h: Heap, op: Op) {
    match op
    case Allocate(n) => 1 <= n <= TWO_TO_64 - 4096
    case Free(_) => true
    case Write(addr, _) => InLiveBlock(h, addr)
  }

  function Step(h: Heap, op: Op): Heap {
    match op
    case Allocate(n) => h.(chunks := AfterAllocate(h.chunks, Round(n)))
    case Free(ptr) => h.(chunks := AfterFree(h.chunks, ptr), mem := WipeAll(h.mem, h.base, h.chunks, ptr))
    case Write(addr, value) =>
      if h.base <= addr < h.base + |h.mem| then h.(mem := h.mem[addr - h.base := value]) else h
  }

  function Run(h: Heap, ops: seq<Op>): Heap
    decreases |ops|
  {
    if ops == [] then h else Run(Step(h, ops[0]), ops[1..])
  }

  predicate AllAllowed(h: Heap, ops: seq<Op>)
    decreases |ops|
  {
    ops == [] || (Allowed(h, ops[0]) && AllAllowed(Step(h, ops[0]), ops[1..]))
  }

  predicate Inv(h: Heap) {
    && |h.mem| > 0 && Tiles(h.chunks, h.base, h.base + |h.mem|) && PageStarts(h.chunks, h.base)
    && FreeIsZero(h.mem, h.base, h.chunks)
  }

  function Fresh(base: nat, size: nat): Heap {
    Heap(base, [Chunk(base, size, true)], Zeros(size))
  }

  lemma WriteKeepsZero(h: Heap, addr: nat, value: Byte)
    requires Inv(h) && InLiveBlock(h, addr)
    ensures Inv(Step(h, Write(addr, value)))
  {
    var k :| 0 <= k < |h.chunks| && !h.chunks[k].free && h.chunks[k].addr <= addr < h.chunks[k].addr + h.chunks[k].size;
    var end := h.base + |h.mem|;
    TilesFacts(h.chunks, h.base, end, k);
    forall j | 0 <= j < |h.chunks| && h.chunks[j].free
      ensures ZeroRange(Step(h, Write(addr, value)).mem, h.chunks[j].addr - h.base, h.chunks[j].addr + h.chunks[j].size - h.base)
    {
      TilesFacts(h.chunks, h.base, end, j);
      assert ZeroRange(h.mem, h.chunks[j].addr - h.base, h.chunks[j].addr + h.chunks[j].size - h.base);
    }
  }

  lemma FreeKeeps(h: Heap, ptr: nat)
    requires Inv(h)
    ensures Inv(Step(h, Free(ptr)))
  {
    FreeTiles(h.chunks, h.base, h.base + |h.mem|, ptr);
    FreeKeepsZero(h.mem, h.base, h.chunks, ptr);
    forall k | 0 <= k < |h.chunks| ensures (AfterFree(h.chunks, ptr)[k].addr - h.base) % 4096 == 0 {
      AfterFreeAt(h.chunks, ptr, k);
    }
  }

  lemma AllocateKeeps(h: Heap, n: nat)
    requires Inv(h) && Allowed(h, Allocate(n))
    ensures Inv(Step(h, Allocate(n)))
  {
    RoundUp(n);
    AllocateTiles(h.chunks, h.base, h.base + |h.mem|, Round(n));
    AllocatePageStarts(h.chunks, h.base, Round(n));
    AllocateKeepsZero(h.mem, h.base, h.chunks, Round(n));
  }

  /** Every allowed run from the constructor's state keeps the tiling, the page starts, and the zeroed free memory;
      the chunk count never falls and never exceeds the number of pages. */
  lemma {:induction false} RunKeeps(h: Heap, ops: seq<Op>)
    requires Inv(h) && AllAllowed(h, ops)
    ensures var q := Run(h, ops);
            && Inv(q) && q.base == h.base && |q.mem| == |h.mem|
            && |h.chunks| <= |q.chunks| <= (|q.mem| + 4095) / 4096
    decreases |ops|
  {
    if ops == [] {
      TilesBound(h.chunks, h.base, h.base, h.base + |h.mem|);
    } else {
      match ops[0] {
        case Allocate(n) =>
          AllocateKeeps(h, n);
          AllocateRefines(h.chunks, Round(n));
        case Free(ptr) => FreeKeeps(h, ptr);
        case Write(addr, value) => WriteKeepsZero(h, addr, value);
      }
      hide Inv;
      RunKeeps(Step(h, ops[0]), ops[1..]);
    }
  }

  lemma FreshInv(base: nat, size: nat)
    requires size > 0
    ensures Inv(Fresh(base, size))
  {
    var c := Chunk(base, size, true);
    assert [c][1..] == [];
    assert Tiles([], base + size, base + size);
  }

  /** In every reachable state a request fails exactly when no free chunk is large enough.  Otherwise it yields the
      lowest that is: its block is inside the buffer, at least as long as requested, all zero, and recorded as taken;
      the rest of a larger chunk stays free behind it, and no other chunk and no byte of memory changes. */
  lemma AllocateDelivers(base: nat, size: nat, ops: seq<Op>, n: nat) returns (k: nat)
    requires size > 0 && AllAllowed(Fresh(base, size), ops) && 1 <= n <= TWO_TO_64 - 4096
    ensures var h := Run(Fresh(base, size), ops);
            var (cs, h', want) := (h.chunks, Step(h, Allocate(n)), Round(n));
            var r := Allocated(cs, want);
            && h'.mem == h.mem && |h.mem| == size
            && (r == None <==> forall j :: 0 <= j < |cs| ==> !(cs[j].free && want <= cs[j].size))
            && (r == None ==> h' == h)
            && (r.Some? ==>
                  && k < |cs| && cs[k].free && want <= cs[k].size && r.value == cs[k].addr
                  && (forall j :: 0 <= j < |cs| && cs[j].free && want <= cs[j].size ==> r.value <= cs[j].addr)
                  && h'.chunks == cs[..k]
                                  + (if cs[k].size == want then [Chunk(r.value, want, false)]
                                     else [Chunk(r.value, want, false), Chunk(r.value + want, cs[k].size - want, true)])
                                  + cs[k + 1..]
                  && n <= want && base <= r.value && r.value + want <= base + size
                  && h.mem[r.value - base..r.value - base + want] == Zeros(want))
  {
    FreshInv(base, size);
    RunKeeps(Fresh(base, size), ops);
    RoundUp(n);
    hide AllAllowed, Run, Fresh, Inv, Round;
    k := Delivers(Run(Fresh(base, size), ops), n);
  }

  lemma Delivers(h: Heap, n: nat) returns (k: nat)
    requires Inv(h)
    ensures var (cs, h', want) := (h.chunks, Step(h, Allocate(n)), Round(n));
            var r := Allocated(cs, want);
            && h'.mem == h.mem
            && (r == None <==> forall j :: 0 <= j < |cs| ==> !(cs[j].free && want <= cs[j].size))
            && (r == None ==> h' == h)
            && (r.Some? ==>
                  && k < |cs| && cs[k].free && want <= cs[k].size && r.value == cs[k].addr
                  && (forall j :: 0 <= j < |cs| && cs[j].free && want <= cs[j].size ==> r.value <= cs[j].addr)
                  && h'.chunks == cs[..k]
                                  + (if cs[k].size == want then [Chunk(r.value, want, false)]
                                     else [Chunk(r.value, want, false), Chunk(r.value + want, cs[k].size - want, true)])
                                  + cs[k + 1..]
                  && h.base <= r.value && r.value + want <= h.base + |h.mem|
                  && h.mem[r.value - h.base..r.value - h.base + want] == Zeros(want))
  {
    var cs, want := h.chunks, Round(n);
    FirstFit(cs, h.base, h.base + |h.mem|, want);
    k := AllocateExact(cs, want);
    if Allocated(cs, want).Some? {
      TilesFacts(cs, h.base, h.base + |h.mem|, k);
      FreeZeros(h, k, want);
    }
    hide AfterAllocate, Allocated, Round, Inv;
  }

  lemma FreeZeros(h: Heap, k: nat, want: nat)
    requires FreeIsZero(h.mem, h.base, h.chunks) && k < |h.chunks| && h.chunks[k].free && want <= h.chunks[k].size
    requires h.base <= h.chunks[k].addr && h.chunks[k].addr + h.chunks[k].size <= h.base + |h.mem|
    ensures h.mem[h.chunks[k].addr - h.base..h.chunks[k].addr - h.base + want] == Zeros(want)
  {
    assert ZeroRange(h.mem, h.chunks[k].addr - h.base, h.chunks[k].addr + h.chunks[k].size - h.base);
  }

  /** Blocks handed out never overlap, and one that is given back and requested again comes back empty. */
  lemma LiveBlocksApart(base: nat, size: nat, ops: seq<Op>, i: nat, j: nat)
    requires size > 0 && AllAllowed(Fresh(base, size), ops)
    requires i < j < |Run(Fresh(base, size), ops).chunks|
    ensures var cs := Run(Fresh(base, size), ops).chunks; cs[i].addr + cs[i].size <= cs[j].addr
  {
    FreshInv(base, size);
    RunKeeps(Fresh(base, size), ops);
    TilesFacts(Run(Fresh(base, size), ops).chunks, base, base + size, i);
  }

  /** A request for zero bytes, or for so many that rounding wraps around, breaks the list as soon as a chunk is free:
      the block handed out is empty and starts where the next one does. */
  lemma ZeroRequestBreaks(h: Heap, n: nat)
    requires Inv(h) && n < TWO_TO_64
    ensures Inv(Step(h, Allocate(n))) <==> 1 <= n <= TWO_TO_64 - 4096 || forall k :: 0 <= k < |h.chunks| ==> !h.chunks[k].free
  {
    RoundUp(n);
    AllocateTiles(h.chunks, h.base, h.base + |h.mem|, Round(n));
    FirstFit(h.chunks, h.base, h.base + |h.mem|, Round(n));
    if 1 <= n <= TWO_TO_64 - 4096 {
      AllocateKeeps(h, n);
    } else {
      assert forall k :: 0 <= k < |h.chunks| ==> (FitsIn(h.chunks[k], 0) <==> h.chunks[k].free);
      if Allocated(h.chunks, Round(n)) == None {
        AllocateNone(h.chunks, Round(n));
      }
    }
  }

  // The list as the code runs it

  class MemChunk {
    const addr: nat
    var size: nat
    var free: bool
    var next: MemChunk?

    constructor (addr: nat, size: nat)
      ensures this.addr == addr && this.size == size && free && next == null
    {
      this.addr := addr;
      this.size, free, next := size, true, null;
    }

    function View(): Chunk
      reads this
    {
      Chunk(addr, size, free)
    }
  }

  /** The element after the `i`-th. */
  ghost function Successor(s: seq<MemChunk>, i: int): MemChunk? {
    if 0 <= i + 1 < |s| then s[i + 1] else null
  }

  ghost predicate Distinct(s: seq<MemChunk>) {
    forall i, j :: 0 <= i < j < |s| ==> s[i] != s[j]
  }

  ghost predicate Links(s: seq<MemChunk>)
    reads s
  {
    forall i {:trigger Successor(s, i)} :: 0 <= i < |s| ==> s[i].next == Successor(s, i)
  }

  ghost function Views(s: seq<MemChunk>): (cs: seq<Chunk>)
    reads s
    ensures |cs| == |s| && forall i :: 0 <= i < |s| ==> cs[i] == s[i].View()
  {
    seq(|s|, i requires 0 <= i < |s| reads s => s[i].View())
  }

  class MemoryManager {
    const base: nat
    const memory: array<Byte>
    var chunks: MemChunk
    /** The elements in list order. */
    ghost var spine: seq<MemChunk>

    ghost predicate InBuffer(s: seq<MemChunk>)
      reads s
    {
      forall i :: 0 <= i < |s| ==> base <= s[i].addr && s[i].addr + s[i].size <= base + memory.Length
    }

    lemma SplicedInBuffer(was: seq<MemChunk>, added: MemChunk, k: nat)
      requires k < |was| && InBuffer(was) && base <= added.addr && added.addr + added.size <= base + memory.Length
      ensures InBuffer(Spliced(was, added, k))
    {
    }

    ghost predicate Valid()
      reads this, spine
    {
      |spine| > 0 && chunks == spine[0] && Distinct(spine) && Links(spine) && InBuffer(spine)
    }

    constructor (base: nat, memory: array<Byte>)
      modifies memory
      ensures Valid() && this.base == base && this.memory == memory && fresh(spine)
      ensures Heap(base, Views(spine), memory[..]) == Fresh(base, memory.Length)
    {
      this.base := base;
      this.memory := memory;
      var c := new MemChunk(base, memory.Length);
      chunks := c;
      spine := [c];
      new;
      forall i | 0 <= i < memory.Length {
        memory[i] := 0;
      }
      assert memory[..] == Zeros(memory.Length);
    }

    /** First fit under the lock; the exchange of the flag does not fail spuriously here. */
    method Allocate(allocSize: nat) returns (r: Option<nat>)
      requires Valid()
      modifies this, spine
      ensures Valid() && (forall c :: c in spine ==> c in old(spine) || fresh(c))
      ensures Views(spine) == AfterAllocate(old(Views(spine)), Round(allocSize))
      ensures r == Allocated(old(Views(spine)), Round(allocSize))
    {
      var current: MemChunk? := chunks;
      var roundedSize := (allocSize + 4095) % TWO_TO_64 / 4096 * 4096;
      ghost var k := 0;
      while current != null
        invariant 0 <= k <= |spine| && current == Successor(spine, k - 1)
        invariant forall i :: 0 <= i < k ==> !FitsIn(Views(spine)[i], roundedSize)
        decreases |spine| - k
      {
        assert current == spine[k] && current.next == Successor(spine, k);
        if current.free && roundedSize <= current.size {
          SkipTo(Views(spine), roundedSize, k);
          SkipToFit(Views(spine), roundedSize, k);
          r := Some(current.addr);
          TakeChunk(current, roundedSize, k);
          return;
        }
        current := current.next;
        k := k + 1;
      }
      SkipTo(Views(spine), roundedSize, k);
      assert Views(spine)[k..] == [] && Views(spine)[..k] == Views(spine);
      r := None;
    }

    /** Takes the chunk and links what is left of it behind it. */
    method TakeChunk(current: MemChunk, roundedSize: nat, ghost k: nat)
      requires Valid() && k < |spine| && current == spine[k] && current.free && roundedSize <= current.size
      modifies this`spine, current
      ensures Valid() && (forall c :: c in spine ==> c in old(spine) || fresh(c))
      ensures Views(spine) == old(Views(spine))[..k] + Take(old(Views(spine))[k], roundedSize) + old(Views(spine))[k + 1..]
    {
      ghost var was := Views(spine);
      current.free := false;
      assert Views(spine) == was[k := was[k].(free := false)];
      if current.size > roundedSize {
        SplitChunk(current, roundedSize, k);
      }
      hide Valid;
    }

    method SplitChunk(current: MemChunk, roundedSize: nat, ghost k: nat)
      requires Valid() && k < |spine| && current == spine[k] && roundedSize < current.size
      modifies this`spine, current
      ensures Valid() && (forall c :: c in spine ==> c in old(spine) || fresh(c))
      ensures var c := old(Views(spine))[k];
              Views(spine) == old(Views(spine))[..k]
                              + [c.(size := roundedSize), Chunk(c.addr + roundedSize, c.size - roundedSize, true)]
                              + old(Views(spine))[k + 1..]
    {
      ghost var was := spine;
      ghost var cs := Views(spine);
      assert current.next == Successor(was, k) && cs[k] == current.View();
      var nchunk := LinkBehind(current, roundedSize);
      spine := Spliced(was, nchunk, k);
      SplicedLinks(was, spine, nchunk, k);
      SplicedViews(was, spine, nchunk, k, cs);
      SplicedInBuffer(was, nchunk, k);
      hide Views, Links, Distinct, Successor, InBuffer;
    }

    /** The new chunk takes over the rest of the size and the link. */
    method LinkBehind(current: MemChunk, roundedSize: nat) returns (nchunk: MemChunk)
      requires roundedSize < current.size
      modifies current
      ensures fresh(nchunk) && current.next == nchunk && nchunk.next == old(current.next)
      ensures current.View() == old(current.View()).(size := roundedSize)
      ensures nchunk.View() == Chunk(current.addr + roundedSize, old(current.size) - roundedSize, true)
    {
      nchunk := new MemChunk(current.addr + roundedSize, current.size - roundedSize);
      current.size := roundedSize;
      nchunk.next := current.next;
      current.next := nchunk;
    }

    lemma AtStart()
      requires Valid()
      ensures 0 < |spine| == |Views(spine)| && chunks == Successor(spine, -1)
    {
    }

    /** Wipes and frees every chunk that starts at the address. */
    method Free(ptr: nat)
      requires Valid()
      modifies spine, memory
      ensures Valid() && spine == old(spine)
      ensures Views(spine) == AfterFree(old(Views(spine)), ptr)
      ensures memory[..] == WipeAll(old(memory[..]), base, old(Views(spine)), ptr)
    {
      hide *;
      ghost var was, mem := Views(spine), memory[..];
      WalkStarts(base, was, mem, ptr);
      AtStart();
      Walk(ptr, was, mem);
      WalkEnds(base, was, mem, ptr, Views(spine), memory[..]);
    }

    /** The walk of `free`, from the first chunk to the last. */
    method Walk(ptr: nat, ghost was: seq<Chunk>, ghost mem: seq<Byte>)
      requires Valid() && |was| == |spine| && Walked(base, was, mem, ptr, 0, Views(spine), memory[..])
      modifies spine, memory
      ensures Valid() && Walked(base, was, mem, ptr, |was|, Views(spine), memory[..])
    {
      hide *;
      var current: MemChunk? := chunks;
      ghost var k := 0;
      AtStart();
      while current != null
        invariant 0 <= k <= |spine| && current == Successor(spine, k - 1)
        invariant Valid() && Walked(base, was, mem, ptr, k, Views(spine), memory[..])
        decreases |spine| - k
      {
        InSpine(spine, k);
        current := Turn(current, ptr, was, mem, k);
        k := k + 1;
      }
      PastEnd(spine, k);
    }

    /** One turn of the walk of `free`. */
    method Turn(current: MemChunk, ptr: nat, ghost was: seq<Chunk>, ghost mem: seq<Byte>, ghost k: nat) returns (next: MemChunk?)
      requires Valid() && k < |spine| == |was| && current == spine[k]
      requires Walked(base, was, mem, ptr, k, Views(spine), memory[..])
      modifies current, memory
      ensures Valid() && next == Successor(spine, k)
      ensures Walked(base, was, mem, ptr, k + 1, Views(spine), memory[..])
    {
      ghost var now, bytes := Views(spine), memory[..];
      next := FreeIfAt(current, ptr, k);
      hide *;
      WalkOn(base, was, mem, ptr, k, now, bytes, Views(spine), memory[..]);
    }

    /** Frees the chunk if it starts at the address. */
    method FreeIfAt(current: MemChunk, ptr: nat, ghost k: nat) returns (next: MemChunk?)
      requires Valid() && k < |spine| && current == spine[k]
      modifies current, memory
      ensures Valid() && next == Successor(spine, k)
      ensures var c := old(Views(spine))[k];
              && Views(spine) == old(Views(spine))[k := if c.addr == ptr then c.(free := true) else c]
              && memory[..] == if c.addr == ptr then Wipe(old(memory[..]), ptr - base, ptr + c.size - base) else old(memory[..])
    {
      assert current.next == Successor(spine, k) && current.View() == Views(spine)[k];
      if current.addr == ptr {
        ReleaseChunk(current, k);
      }
      next := current.next;
    }

    method ReleaseChunk(current: MemChunk, ghost k: nat)
      requires Valid() && k < |spine| && current == spine[k]
      modifies current, memory
      ensures Valid() && current.next == old(current.next)
      ensures Views(spine) == old(Views(spine))[k := old(Views(spine))[k].(free := true)]
      ensures memory[..] == Wipe(old(memory[..]), current.addr - base, current.addr + old(current.size) - base)
    {
      forall i | current.addr - base <= i < current.addr + current.size - base {
        memory[i] := 0;
      }
      assert memory[..] == Wipe(old(memory[..]), current.addr - base, current.addr + current.size - base);
      current.free := true;
    }
  }

  /** A new element behind the `k`-th: every other link stays as it was. */
  ghost function Spliced(was: seq<MemChunk>, added: MemChunk, k: nat): (s: seq<MemChunk>)
    requires k < |was|
    ensures |s| == |was| + 1 && s[0] == was[0]
    ensures forall i :: 0 <= i < |s| ==> s[i] == if i <= k then was[i] else if i == k + 1 then added else was[i - 1]
  {
    was[..k + 1] + [added] + was[k + 1..]
  }

  lemma SplicedLinks(was: seq<MemChunk>, s: seq<MemChunk>, added: MemChunk, k: nat)
    requires k < |was| && s == Spliced(was, added, k)
    requires forall i {:trigger Successor(was, i)} :: 0 <= i < |was| && i != k ==> was[i].next == Successor(was, i)
    requires was[k].next == added && added.next == Successor(was, k)
    requires Distinct(was) && added !in was
    ensures Links(s) && Distinct(s)
  {
    forall i | 0 <= i < |s| ensures s[i].next == Successor(s, i) {
      if i > k + 1 {
        assert s[i] == was[i - 1] && was[i - 1].next == Successor(was, i - 1);
      } else if i < k {
        assert s[i] == was[i] && was[i].next == Successor(was, i);
      }
    }
  }

  lemma SplicedViews(was: seq<MemChunk>, s: seq<MemChunk>, added: MemChunk, k: nat, cs: seq<Chunk>)
    requires k < |was| == |cs| && s == Spliced(was, added, k)
    requires forall i :: 0 <= i < |was| && i != k ==> was[i].View() == cs[i]
    ensures Views(s) == cs[..k] + [was[k].View(), added.View()] + cs[k + 1..]
  {
  }

  lemma InSpine(s: seq<MemChunk>, k: nat)
    requires k <= |s| && Successor(s, k - 1) != null
    ensures k < |s| == |Views(s)| && s[k] == Successor(s, k - 1)
  {
  }

  lemma PastEnd(s: seq<MemChunk>, k: nat)
    requires k <= |s| && Successor(s, k - 1) == null
    ensures k == |s| == |Views(s)|
  {
  }

  /** How far `free` has come after `k` chunks. */
  ghost predicate Walked(base: nat, was: seq<Chunk>, mem: seq<Byte>, ptr: nat, k: nat, now: seq<Chunk>, bytes: seq<Byte>) {
    && k <= |was|
    && now == AfterFree(was[..k], ptr) + was[k..]
    && WipeAll(bytes, base, was[k..], ptr) == WipeAll(mem, base, was, ptr)
  }

  lemma WalkStarts(base: nat, was: seq<Chunk>, mem: seq<Byte>, ptr: nat)
    ensures Walked(base, was, mem, ptr, 0, was, mem)
  {
    assert was[0..] == was && was[..0] == [] && AfterFree([], ptr) == [];
  }

  lemma WalkOn(base: nat, was: seq<Chunk>, mem: seq<Byte>, ptr: nat, k: nat, now: seq<Chunk>, bytes: seq<Byte>,
               now': seq<Chunk>, bytes': seq<Byte>)
    requires Walked(base, was, mem, ptr, k, now, bytes) && k < |was| == |now|
    requires now' == now[k := if now[k].addr == ptr then now[k].(free := true) else now[k]]
    requires bytes' == if now[k].addr == ptr then Wipe(bytes, ptr - base, ptr + now[k].size - base) else bytes
    ensures Walked(base, was, mem, ptr, k + 1, now', bytes')
  {
    FreeSnoc(was, ptr, k);
    WipeCons(bytes, base, was, ptr, k);
    hide WipeAll, AfterFree, Wipe;
  }

  lemma WalkEnds(base: nat, was: seq<Chunk>, mem: seq<Byte>, ptr: nat, now: seq<Chunk>, bytes: seq<Byte>)
    requires Walked(base, was, mem, ptr, |was|, now, bytes)
    ensures now == AfterFree(was, ptr) && bytes == WipeAll(mem, base, was, ptr)
  {
    assert was[|was|..] == [] && was[..|was|] == was;
  }

  lemma FreeSnoc(cs: seq<Chunk>, ptr: nat, k: nat)
    requires k < |cs|
    ensures var c := if cs[k].addr == ptr then cs[k].(free := true) else cs[k];
            && AfterFree(cs[..k + 1], ptr) == AfterFree(cs[..k], ptr) + [c]
            && (AfterFree(cs[..k], ptr) + cs[k..])[k] == cs[k]
            && (AfterFree(cs[..k], ptr) + cs[k..])[k := c] == AfterFree(cs[..k + 1], ptr) + cs[k + 1..]
  {
    var a, b := AfterFree(cs[..k + 1], ptr), AfterFree(cs[..k], ptr);
    forall i | 0 <= i < k ensures a[i] == b[i] {
      AfterFreeAt(cs[..k + 1], ptr, i);
      AfterFreeAt(cs[..k], ptr, i);
    }
    AfterFreeAt(cs[..k + 1], ptr, k);
  }

  lemma WipeCons(mem: seq<Byte>, base: nat, cs: seq<Chunk>, ptr: nat, k: nat)
    requires k < |cs|
    ensures WipeAll(mem, base, cs[k..], ptr)
            == WipeAll(if cs[k].addr == ptr then Wipe(mem, ptr - base, ptr + cs[k].size - base) else mem, base, cs[k + 1..], ptr)
  {
    assert cs[k..][0] == cs[k] && cs[k..][1..] == cs[k + 1..];
  }

  /** Chunks that do not fit are passed over. */
  lemma {:induction false} SkipTo(cs: seq<Chunk>, want: nat, k: nat)
    requires k <= |cs| && forall i :: 0 <= i < k ==> !FitsIn(cs[i], want)
    ensures AfterAllocate(cs, want) == cs[..k] + AfterAllocate(cs[k..], want)
    ensures Allocated(cs, want) == Allocated(cs[k..], want)
    decreases k
  {
    if k == 0 {
      assert cs[0..] == cs;
    } else {
      forall i | 0 <= i < k - 1 ensures !FitsIn(cs[1..][i], want) {
        assert cs[1..][i] == cs[i + 1];
      }
      SkipTo(cs[1..], want, k - 1);
      assert cs[1..][k - 1..] == cs[k..] && [cs[0]] + cs[1..][..k - 1] == cs[..k];
      hide Take, FitsIn;
      assert AfterAllocate(cs, want) == [cs[0]] + (cs[1..][..k - 1] + AfterAllocate(cs[k..], want));
    }
  }

  lemma SkipToFit(cs: seq<Chunk>, want: nat, k: nat)
    requires k < |cs| && FitsIn(cs[k], want)
    ensures Allocated(cs[k..], want) == Some(cs[k].addr)
    ensures cs[..k] + AfterAllocate(cs[k..], want) == cs[..k] + Take(cs[k], want) + cs[k + 1..]
  {
    assert cs[k..][1..] == cs[k + 1..];
  }
}
