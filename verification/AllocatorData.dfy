/** What clients find in their blocks: under any interleaving each live block holds what its owner wrote, over zeros. */
module AllocatorData {
  import opened AllocatorConcurrent
  import opened AllocatorSafety
  import opened Axis
  import opened Wrappers

  /** The bytes of block `i`. */
  function Block(s: State, i: int): seq<Byte> {
    if 0 <= i < |s.nodes| then Part(s.mem, s.nodes[i].addr, s.nodes[i].addr + s.nodes[i].size) else []
  }

  // One step

  lemma LiveFacts(s: State, i: int)
    requires Inv(s) && i in s.live
    ensures Linked(s, i) && !Acquired(s.alloc, i) && 0 <= i < |s.nodes| && s.nodes[i].addr + s.nodes[i].size <= |s.mem|
    ensures forall t :: !Releasing(s, t, i)
  {
    Parts(s);
    hide Inv;
  }

  lemma AllocateKeepsData(s: State, spurious: bool, i: int)
    requires Inv(s) && i in s.live && s.alloc != Unlocked
    ensures var q := AllocateNext(s, spurious);
            && 0 <= i < |s.nodes| <= |q.nodes| && q.mem == s.mem
            && q.nodes[i].addr == s.nodes[i].addr && q.nodes[i].size == s.nodes[i].size
  {
    LiveFacts(s, i);
    hide Inv;
  }

  /** A thread that wipes holds the chunk it wipes. */
  lemma WiperHolds(s: State, t: int)
    requires Inv(s) && t in s.freers && s.freers[t].Zeroing?
    ensures Linked(s, s.freers[t].cur) && Releasing(s, t, s.freers[t].cur)
    ensures s.freers[t].size == s.nodes[s.freers[t].cur].size
  {
    Parts(s);
    assert WalkOk(s, s.freers[t]);
    hide Inv;
  }

  lemma FreeKeepsData(s: State, t: int, i: int, o: nat)
    requires Inv(s) && i in s.live && t in s.freers && 0 <= i < |s.nodes| && o < s.nodes[i].size
    ensures var q := FreeNext(s, t);
            && 0 <= i < |s.nodes| == |q.nodes| && |q.mem| == |s.mem| && s.nodes[i].addr + o < |s.mem|
            && q.nodes[i].addr == s.nodes[i].addr && q.nodes[i].size == s.nodes[i].size
            && q.mem[s.nodes[i].addr + o] == s.mem[s.nodes[i].addr + o]
  {
    LiveFacts(s, i);
    if s.freers[t].Zeroing? {
      WiperHolds(s, t);
      Apart(s, i, s.freers[t].cur);
    }
    hide Inv;
  }

  /** No step of anybody changes a byte of a block that stays live, but a write of its owner to that byte. */
  lemma StepKeepsData(s: State, l: Step, i: int, o: nat)
    requires Inv(s) && i in s.live && i in Next(s, l).live && 0 <= i < |s.nodes| && o < s.nodes[i].size
    ensures var q := Next(s, l);
            && 0 <= i < |s.nodes| <= |q.nodes| && |q.mem| == |s.mem| && s.nodes[i].addr + o < |s.mem|
            && q.nodes[i].addr == s.nodes[i].addr && q.nodes[i].size == s.nodes[i].size
            && q.mem[s.nodes[i].addr + o]
               == if l.ClientWrite? && l.node == i && l.offset == o then l.value else s.mem[s.nodes[i].addr + o]
  {
    LiveFacts(s, i);
    if Enabled(s, l) {
      match l {
        case CallAllocate(_) =>
        case AllocateStep(spurious) => AllocateKeepsData(s, spurious, i);
        case CallFree(_, _) =>
        case FreeStep(t) => FreeKeepsData(s, t, i, o);
        case ClientWrite(j, _, _) =>
          LiveFacts(s, j);
          if j != i {
            Apart(s, i, j);
          }
      }
    }
    hide Inv;
  }

  // Every run

  /** What clients expect of their blocks, block by block: zeros when `allocate` returns, then their own writes. */
  function Expected(s: State, l: Step, m: map<int, seq<Byte>>): map<int, seq<Byte>> {
    if !Enabled(s, l) then m
    else match l
      case AllocateStep(_) => if s.alloc.Return? then m[s.alloc.cur := Zeros(s.alloc.want)] else m
      case CallFree(_, target) => m - {target}
      case ClientWrite(i, offset, value) => if i in m && offset < |m[i]| then m[i := m[i][offset := value]] else m
      case _ => m
  }

  function ExpectedAfter(s: State, ls: seq<Step>, m: map<int, seq<Byte>>): map<int, seq<Byte>>
    decreases |ls|
  {
    if ls == [] then m else ExpectedAfter(Next(s, ls[0]), ls[1..], Expected(s, ls[0], m))
  }

  /** The live blocks are those expected, and hold what is expected of them. */
  predicate Holds(s: State, m: map<int, seq<Byte>>) {
    m.Keys == s.live && forall i :: i in m ==> Block(s, i) == m[i]
  }

  /** A step changes who is live only by handing out and by giving back. */
  lemma LiveAfter(s: State, l: Step)
    requires Inv(s)
    ensures Next(s, l).live
            == if !Enabled(s, l) then s.live
               else match l
                 case AllocateStep(_) => if s.alloc.Return? then s.live + {s.alloc.cur} else s.live
                 case CallFree(_, target) => s.live - {target}
                 case _ => s.live
  {
    if l.CallFree? && Enabled(s, l) {
      LiveFacts(s, l.target);
    }
    Parts(s);
    hide Inv;
  }

  /** The block that a `Return` step hands out is zero from end to end. */
  lemma HandedOut(s: State, spurious: bool)
    requires Inv(s) && s.alloc.Return?
    ensures Block(Next(s, AllocateStep(spurious)), s.alloc.cur) == Zeros(s.alloc.want)
  {
    Parts(s);
    var c := s.nodes[s.alloc.cur];
    assert Linked(s, s.alloc.cur) && Acquired(s.alloc, s.alloc.cur);
    assert ZeroBetween(s.mem, c.addr, End(c)) && End(c) <= |s.mem| && c.size == s.alloc.want;
    hide Inv, Linked, Acquired;
    ZeroSlice(s.mem, c.addr, End(c));
  }

  lemma ZeroSlice(mem: seq<Byte>, lo: nat, hi: nat)
    requires lo <= hi <= |mem| && ZeroBetween(mem, lo, hi)
    ensures mem[lo..hi] == Zeros(hi - lo)
  {
  }

  lemma ByteStays(s: State, l: Step, i: int, o: nat)
    requires Inv(s) && i in s.live && i in Next(s, l).live && o < |Block(s, i)|
    ensures var (b, b') := (Block(s, i), Block(Next(s, l), i));
            |b'| == |b| && b'[o] == if l.ClientWrite? && l.node == i && l.offset == o then l.value else b[o]
  {
    hide Inv, Next, Linked, Acquired, Releasing;
    LiveFacts(s, i);
    StepKeepsData(s, l, i, o);
  }

  lemma BlockStays(s: State, l: Step, i: int)
    requires Inv(s) && i in s.live && i in Next(s, l).live
    ensures var (b, b') := (Block(s, i), Block(Next(s, l), i));
            if l.ClientWrite? && l.node == i && l.offset < |b| then b' == b[l.offset := l.value] else b' == b
  {
    LiveFacts(s, i);
    NonEmpty(s, i);
    var b, b' := Block(s, i), Block(Next(s, l), i);
    assert |b| > 0;
    hide *;
    ByteStays(s, l, i, 0);
    forall o | 0 <= o < |b| ensures b'[o] == if l.ClientWrite? && l.node == i && l.offset == o then l.value else b[o] {
      ByteStays(s, l, i, o);
    }
  }

  lemma NonEmpty(s: State, i: int)
    requires Inv(s) && Linked(s, i)
    ensures s.nodes[i].size > 0
  {
    Parts(s);
  }

  lemma StepHolds(s: State, l: Step, m: map<int, seq<Byte>>)
    requires Inv(s) && Holds(s, m)
    ensures Holds(Next(s, l), Expected(s, l, m))
  {
    var q, m' := Next(s, l), Expected(s, l, m);
    LiveAfter(s, l);
    assert m'.Keys == q.live;
    forall i | i in m' ensures Block(q, i) == m'[i] {
      if i in s.live {
        BlockStays(s, l, i);
        LiveFacts(s, i);
        if l.AllocateStep? && s.alloc.Return? {
          Parts(s);
        }
      } else {
        HandedOut(s, l.spurious);
      }
    }
  }

  lemma {:induction false} RunHolds(s: State, ls: seq<Step>, m: map<int, seq<Byte>>)
    requires Inv(s) && Holds(s, m)
    ensures Holds(Run(s, ls), ExpectedAfter(s, ls, m))
    decreases |ls|
  {
    if ls != [] {
      StepKeeps(s, ls[0]);
      StepHolds(s, ls[0], m);
      hide Inv, Next, Holds, Expected;
      RunHolds(Next(s, ls[0]), ls[1..], Expected(s, ls[0], m));
    }
  }

  /** In every reachable state the live blocks are exactly those handed out and not given back, and each of them
      holds exactly what its owner wrote since, over zeros. */
  lemma BlocksHoldWrites(s: State, ls: seq<Step>)
    requires Initial(s)
    ensures var q, m := Run(s, ls), ExpectedAfter(s, ls, map[]);
            m.Keys == q.live && forall i :: i in q.live ==> Block(q, i) == m[i]
  {
    InitialInv(s);
    RunHolds(s, ls, map[]);
  }
}
