/** What clients find in the blocks of the sequential allocator: what was written to them, over zeros. */
module AllocatorBlocks {
  import opened Allocator
  import opened Axis
  import opened Mem
  import opened Wrappers

  /** The bytes of a chunk. */
  function ChunkBytes(h: Heap, c: Chunk): seq<Byte> {
    Part(h.mem, c.addr - h.base, c.addr + c.size - h.base)
  }

  /** What clients expect of their blocks, by address: zeros when a request returns, then what is written there. */
  function Expected(h: Heap, op: Op, m: map<nat, seq<Byte>>): map<nat, seq<Byte>> {
    match op
    case Allocate(n) =>
      var r := Allocated(h.chunks, Round(n));
      if r.Some? then m[r.value := Zeros(Round(n))] else m
    case Free(ptr) => m - {ptr}
    case Write(addr, value) => map p | p in m :: Stored(m[p], p, addr, value)
  }

  /** The bytes `b` at address `p` after a write. */
  function Stored(b: seq<Byte>, p: nat, addr: nat, value: Byte): seq<Byte> {
    if p <= addr < p + |b| then b[addr - p := value] else b
  }

  function ExpectedAfter(h: Heap, ops: seq<Op>, m: map<nat, seq<Byte>>): map<nat, seq<Byte>>
    decreases |ops|
  {
    if ops == [] then m else ExpectedAfter(Step(h, ops[0]), ops[1..], Expected(h, ops[0], m))
  }

  /** The taken chunks are those expected, and hold what is expected of them. */
  predicate Holds(h: Heap, m: map<nat, seq<Byte>>) {
    && (forall c :: c in h.chunks && !c.free ==> c.addr in m && m[c.addr] == ChunkBytes(h, c))
    && (forall p :: p in m ==> exists c :: c in h.chunks && !c.free && c.addr == p)
  }

  lemma ChunkFacts(h: Heap, c: Chunk)
    requires Inv(h) && c in h.chunks
    ensures h.base <= c.addr && c.size > 0 && c.addr + c.size <= h.base + |h.mem| && |ChunkBytes(h, c)| == c.size
  {
    var i :| 0 <= i < |h.chunks| && h.chunks[i] == c;
    hide PageStarts, FreeIsZero, Tiles;
    TilesFacts(h.chunks, h.base, h.base + |h.mem|, i);
  }

  lemma ChunksApart(h: Heap, c: Chunk, d: Chunk)
    requires Inv(h) && c in h.chunks && d in h.chunks && c != d
    ensures c.addr + c.size <= d.addr || d.addr + d.size <= c.addr
  {
    var i :| 0 <= i < |h.chunks| && h.chunks[i] == c;
    var j :| 0 <= j < |h.chunks| && h.chunks[j] == d;
    TilesFacts(h.chunks, h.base, h.base + |h.mem|, i);
    TilesFacts(h.chunks, h.base, h.base + |h.mem|, j);
  }

  /** The chunk a request takes, and the taken chunks after it: that one and those from before. */
  lemma Taken(h: Heap, n: nat) returns (k: nat)
    requires Inv(h) && Allocated(h.chunks, Round(n)).Some?
    ensures var (cs, q) := (h.chunks, Step(h, Op.Allocate(n)));
            && k < |cs| && cs[k].free && Allocated(cs, Round(n)) == Some(cs[k].addr) && q.mem == h.mem && q.base == h.base
            && ChunkBytes(h, Chunk(cs[k].addr, Round(n), false)) == Zeros(Round(n))
            && (forall c :: c in q.chunks && !c.free <==> c == Chunk(cs[k].addr, Round(n), false) || (c in cs && !c.free))
  {
    k := Delivers(h, n);
    var cs, q, taken := h.chunks, Step(h, Op.Allocate(n)), Chunk(h.chunks[k].addr, Round(n), false);
    hide Inv, Allocated, AfterAllocate, Round;
    assert q.chunks[k] == taken;
    forall c | c in cs && !c.free ensures c in q.chunks {
      StillThere(cs, k, q.chunks, c);
    }
    forall c | c in q.chunks && !c.free ensures c == taken || c in cs {
    }
  }

  lemma FreeNotLive(h: Heap, k: nat, c: Chunk)
    requires Inv(h) && k < |h.chunks| && h.chunks[k].free && c in h.chunks && !c.free
    ensures c.addr != h.chunks[k].addr
  {
    ChunkFacts(h, c);
    ChunkFacts(h, h.chunks[k]);
    ChunksApart(h, c, h.chunks[k]);
  }

  lemma AllocateHolds(h: Heap, n: nat, m: map<nat, seq<Byte>>)
    requires Inv(h) && Holds(h, m)
    ensures Holds(Step(h, Op.Allocate(n)), Expected(h, Op.Allocate(n), m))
  {
    hide Inv, Round, ChunkBytes, Allocated, AfterAllocate;
    if Allocated(h.chunks, Round(n)) == None {
      AllocateNone(h.chunks, Round(n));
    } else {
      var k := Taken(h, n);
      SameBytes(h, n);
      forall c | c in h.chunks && !c.free ensures c.addr != h.chunks[k].addr {
        FreeNotLive(h, k, c);
      }
      var q, taken := Step(h, Op.Allocate(n)), Chunk(h.chunks[k].addr, Round(n), false);
      assert Expected(h, Op.Allocate(n), m) == m[taken.addr := Zeros(Round(n))];
      hide Step, Expected, Holds;
      OneMore(h, q, taken, m);
    }
  }

  lemma SameBytes(h: Heap, n: nat)
    ensures forall c :: ChunkBytes(Step(h, Op.Allocate(n)), c) == ChunkBytes(h, c)
  {
  }

  /** One more block is expected and there. */
  lemma OneMore(h: Heap, q: Heap, taken: Chunk, m: map<nat, seq<Byte>>)
    requires Holds(h, m) && !taken.free
    requires forall c :: ChunkBytes(q, c) == ChunkBytes(h, c)
    requires forall c :: c in h.chunks && !c.free ==> c.addr != taken.addr
    requires forall c :: c in q.chunks && !c.free <==> c == taken || (c in h.chunks && !c.free)
    ensures Holds(q, m[taken.addr := ChunkBytes(q, taken)])
  {
    hide ChunkBytes;
    assert taken in q.chunks;
  }

  lemma StillThere(cs: seq<Chunk>, k: nat, cs': seq<Chunk>, c: Chunk)
    requires k < |cs| && cs[..k] <= cs' && |cs| <= |cs'| && cs'[|cs'| - (|cs| - k - 1)..] == cs[k + 1..]
    requires c in cs && c != cs[k]
    ensures c in cs'
  {
    var i :| 0 <= i < |cs| && cs[i] == c;
    if i < k {
      assert cs'[i] == cs[..k][i];
    } else {
      assert cs'[|cs'| - (|cs| - k - 1)..][i - k - 1] == c;
    }
  }

  /** The heap with its `k`-th chunk wiped and freed. */
  function Freed(h: Heap, k: nat): Heap
    requires k < |h.chunks|
  {
    var c := h.chunks[k];
    h.(chunks := h.chunks[k := c.(free := true)], mem := Wipe(h.mem, c.addr - h.base, c.addr + c.size - h.base))
  }

  /** The same taken chunks but the one at the address, with the same bytes. */
  ghost predicate AllBut(h: Heap, q: Heap, ptr: nat) {
    && (forall c :: c in q.chunks && !c.free <==> c in h.chunks && !c.free && c.addr != ptr)
    && (forall c :: c in h.chunks && c.addr != ptr ==> ChunkBytes(q, c) == ChunkBytes(h, c))
  }

  lemma FreeStep(h: Heap, ptr: nat, k: nat)
    requires Inv(h) && k < |h.chunks| && h.chunks[k].addr == ptr
    ensures Step(h, Op.Free(ptr)) == Freed(h, k)
  {
    FreeOne(h.mem, h.base, h.chunks, h.base, h.base + |h.mem|, ptr, k);
    hide Inv, AfterFree, WipeAll, Wipe;
  }

  lemma Released(h: Heap, ptr: nat)
    requires Inv(h)
    ensures AllBut(h, Step(h, Op.Free(ptr)), ptr)
  {
    var cs := h.chunks;
    hide Inv, AllBut, AfterFree, WipeAll, Freed;
    if exists k :: 0 <= k < |cs| && cs[k].addr == ptr {
      var k :| 0 <= k < |cs| && cs[k].addr == ptr;
      FreeStep(h, ptr, k);
      FreedTaken(h, k);
      FreedBytes(h, k);
      Both(h, Freed(h, k), ptr);
    } else {
      FreeNothing(h.mem, h.base, cs, ptr);
      assert Step(h, Op.Free(ptr)) == h;
      Both(h, h, ptr);
    }
  }

  lemma Both(h: Heap, q: Heap, ptr: nat)
    requires forall c :: c in q.chunks && !c.free <==> c in h.chunks && !c.free && c.addr != ptr
    requires forall c :: c in h.chunks && c.addr != ptr ==> ChunkBytes(q, c) == ChunkBytes(h, c)
    ensures AllBut(h, q, ptr)
  {
  }

  lemma FreedTaken(h: Heap, k: nat)
    requires Inv(h) && k < |h.chunks|
    ensures forall c :: c in Freed(h, k).chunks && !c.free <==> c in h.chunks && !c.free && c.addr != h.chunks[k].addr
  {
    var cs, ptr := h.chunks, h.chunks[k].addr;
    var q := cs[k := cs[k].(free := true)];
    assert Freed(h, k).chunks == q;
    hide Inv, Freed;
    forall c | c in cs && c.addr != ptr ensures c in q {
      var i :| 0 <= i < |cs| && cs[i] == c;
      assert q[i] == c;
    }
    forall c | c in q && !c.free ensures c in cs && c.addr != ptr {
      var i :| 0 <= i < |cs| && q[i] == c;
      assert i != k && cs[i] == c;
      StartsDiffer(h, i, k);
    }
  }

  lemma FreedBytes(h: Heap, k: nat)
    requires Inv(h) && k < |h.chunks|
    ensures forall c :: c in h.chunks && c.addr != h.chunks[k].addr ==> ChunkBytes(Freed(h, k), c) == ChunkBytes(h, c)
  {
    hide Inv, ChunkBytes, Freed;
    forall c | c in h.chunks && c.addr != h.chunks[k].addr ensures ChunkBytes(Freed(h, k), c) == ChunkBytes(h, c) {
      WipeElsewhere(h, k, c);
    }
  }

  lemma StartsDiffer(h: Heap, i: nat, k: nat)
    requires Inv(h) && i < |h.chunks| && k < |h.chunks| && i != k
    ensures h.chunks[i].addr != h.chunks[k].addr
  {
    TilesFacts(h.chunks, h.base, h.base + |h.mem|, if i < k then i else k);
  }

  lemma WipeElsewhere(h: Heap, k: nat, c: Chunk)
    requires Inv(h) && k < |h.chunks| && c in h.chunks && c.addr != h.chunks[k].addr
    ensures ChunkBytes(Freed(h, k), c) == ChunkBytes(h, c)
  {
    ChunkFacts(h, c);
    ChunkFacts(h, h.chunks[k]);
    ChunksApart(h, c, h.chunks[k]);
    hide Inv;
  }

  lemma FewerHold(h: Heap, q: Heap, ptr: nat, m: map<nat, seq<Byte>>)
    requires Holds(h, m) && AllBut(h, q, ptr)
    ensures Holds(q, m - {ptr})
  {
    hide ChunkBytes;
  }

  lemma WrittenBytes(h: Heap, addr: nat, value: Byte, c: Chunk)
    requires Inv(h) && c in h.chunks
    ensures var (b, b') := (ChunkBytes(h, c), ChunkBytes(Step(h, Op.Write(addr, value)), c));
            b' == Stored(b, c.addr, addr, value)
  {
    ChunkFacts(h, c);
    hide Inv;
  }

  lemma WriteHolds(h: Heap, addr: nat, value: Byte, m: map<nat, seq<Byte>>)
    requires Inv(h) && Holds(h, m)
    ensures Holds(Step(h, Op.Write(addr, value)), Expected(h, Op.Write(addr, value), m))
  {
    var q, m' := Step(h, Op.Write(addr, value)), Expected(h, Op.Write(addr, value), m);
    assert q.chunks == h.chunks;
    hide Inv, Step, ChunkBytes, InLiveBlock, Stored;
    assert m'.Keys == m.Keys;
    forall c | c in h.chunks && !c.free ensures m'[c.addr] == ChunkBytes(q, c) {
      WrittenBytes(h, addr, value, c);
      assert m'[c.addr] == Stored(m[c.addr], c.addr, addr, value);
    }
    hide Expected;
  }

  lemma {:induction false} RunHolds(h: Heap, ops: seq<Op>, m: map<nat, seq<Byte>>)
    requires Inv(h) && Holds(h, m) && AllAllowed(h, ops)
    ensures Inv(Run(h, ops)) && Holds(Run(h, ops), ExpectedAfter(h, ops, m))
    decreases |ops|
  {
    if ops != [] {
      match ops[0] {
        case Allocate(n) =>
          AllocateKeeps(h, n);
          AllocateHolds(h, n, m);
        case Free(ptr) =>
          FreeKeeps(h, ptr);
          Released(h, ptr);
          FewerHold(h, Step(h, ops[0]), ptr, m);
        case Write(addr, value) =>
          WriteKeepsZero(h, addr, value);
          WriteHolds(h, addr, value, m);
      }
      hide Inv, Holds, Step, Expected, Allowed;
      RunHolds(Step(h, ops[0]), ops[1..], Expected(h, ops[0], m));
    }
  }

  /** In every reachable state the taken chunks are exactly the blocks handed out and not given back, and each holds
      exactly what was written to it since, over zeros. */
  lemma BlocksHoldWrites(base: nat, size: nat, ops: seq<Op>)
    requires size > 0 && AllAllowed(Fresh(base, size), ops)
    ensures var (h, m) := (Run(Fresh(base, size), ops), ExpectedAfter(Fresh(base, size), ops, map[]));
            && (forall c :: c in h.chunks && !c.free ==>
                  && h.base <= c.addr && c.addr + c.size <= h.base + |h.mem|
                  && c.addr in m && m[c.addr] == h.mem[c.addr - h.base..c.addr + c.size - h.base])
            && (forall p :: p in m ==> exists c :: c in h.chunks && !c.free && c.addr == p)
  {
    var h := Run(Fresh(base, size), ops);
    FreshInv(base, size);
    RunHolds(Fresh(base, size), ops, map[]);
    forall c | c in h.chunks ensures h.base <= c.addr && c.addr + c.size <= h.base + |h.mem| {
      ChunkFacts(h, c);
    }
    hide Inv, Run, ExpectedAfter;
  }
}
