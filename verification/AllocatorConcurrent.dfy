/** The host allocator under concurrency: `allocate` runs under a lock, `free` does not.  Every statement of either
    is one step, in any interleaving, on sequentially consistent memory.  Addresses count from the buffer's start. */
module AllocatorConcurrent {
  import opened Axis
  import opened Mem
  import opened Wrappers
  import A = Allocator

  /** A list element; `next` is the number of another element. */
  datatype Node = Node(addr: nat, size: nat, free: bool, next: Option<nat>)

  /** Where the holder of the lock is in `allocate`, for a rounded request of `want` bytes. */
  datatype Alloc =
    | Unlocked
    | Test(want: nat, cur: nat)
    | Acquire(want: nat, cur: nat)
    | Split(want: nat, cur: nat)
    | Shrink(want: nat, cur: nat, added: nat)
    | LinkNew(want: nat, cur: nat, added: nat)
    | LinkCur(want: nat, cur: nat, added: nat)
    | Return(want: nat, cur: nat)

  /** Where one thread is in `free(ptr)`.  `target` is the element whose block it was called with;
      `released` says whether its flag has been set. */
  datatype Freer =
    | Compare(ptr: nat, cur: nat, target: nat, released: bool)
    | Zeroing(ptr: nat, cur: nat, target: nat, released: bool, size: nat, done: nat)
    | SetFree(ptr: nat, cur: nat, target: nat, released: bool)
    | Advance(ptr: nat, cur: nat, target: nat, released: bool)

  /** `live` are the elements whose blocks clients own. */
  datatype State = State(nodes: seq<Node>, mem: seq<Byte>, alloc: Alloc, freers: map<int, Freer>, live: set<int>)

  datatype Step =
    | CallAllocate(n: nat)
    | AllocateStep(spurious: bool)
    | CallFree(thread: int, target: nat)
    | FreeStep(thread: int)
    | ClientWrite(node: nat, offset: nat, value: Byte)

  predicate Enabled(s: State, l: Step) {
    match l
    case CallAllocate(n) => s.alloc == Unlocked && 1 <= n <= TWO_TO_64 - 4096
    case AllocateStep(_) => s.alloc != Unlocked
    case CallFree(t, target) => t !in s.freers && target in s.live
    case FreeStep(t) => t in s.freers
    case ClientWrite(i, offset, _) => i in s.live && i < |s.nodes| && offset < s.nodes[i].size
  }

  function SetNode(s: State, i: nat, n: Node): State
    requires i < |s.nodes|
  {
    s.(nodes := s.nodes[i := n])
  }

  /** One statement of `allocate`.  The exchange may fail spuriously; it cannot fail otherwise, because only the
      holder of the lock clears a flag, so the expected value it compares with stays `true`. */
  function AllocateNext(s: State, spurious: bool): State {
    var a := s.alloc;
    if a == Unlocked || a.cur >= |s.nodes| then s
    else
      var c := s.nodes[a.cur];
      match a
      case Test(want, cur) =>
        if c.free && want <= c.size then s.(alloc := Acquire(want, cur))
        else if c.next == None then s.(alloc := Unlocked)
        else s.(alloc := Test(want, c.next.value))
      case Acquire(want, cur) =>
        if c.free && !spurious then SetNode(s, cur, c.(free := false)).(alloc := Split(want, cur))
        else if c.next == None then s.(alloc := Unlocked)
        else s.(alloc := Test(want, c.next.value))
      case Split(want, cur) =>
        if c.size > want then
          s.(nodes := s.nodes + [Node(c.addr + want, c.size - want, true, None)], alloc := Shrink(want, cur, |s.nodes|))
        else s.(alloc := Return(want, cur))
      case Shrink(want, cur, added) =>
        SetNode(s, cur, c.(size := want)).(alloc := LinkNew(want, cur, added))
      case LinkNew(want, cur, added) =>
        if added < |s.nodes| then SetNode(s, added, s.nodes[added].(next := c.next)).(alloc := LinkCur(want, cur, added)) else s
      case LinkCur(want, cur, added) =>
        SetNode(s, cur, c.(next := Some(added))).(alloc := Return(want, cur))
      case Return(want, cur) =>
        s.(alloc := Unlocked, live := s.live + {cur})
  }

  function SetFreer(s: State, t: int, f: Freer): State {
    s.(freers := s.freers[t := f])
  }

  /** One statement of `free`, or one byte of its `memset`. */
  function FreeNext(s: State, t: int): State {
    if t !in s.freers || s.freers[t].cur >= |s.nodes| then s
    else
      var f := s.freers[t];
      var c := s.nodes[f.cur];
      match f
      case Compare(ptr, cur, target, released) =>
        if c.addr == ptr then SetFreer(s, t, Zeroing(ptr, cur, target, released, c.size, 0))
        else SetFreer(s, t, Advance(ptr, cur, target, released))
      case Zeroing(ptr, cur, target, released, size, done) =>
        if done < size then
          var x := c.addr + done;
          SetFreer(if x < |s.mem| then s.(mem := s.mem[x := 0]) else s, t, f.(done := done + 1))
        else SetFreer(s, t, SetFree(ptr, cur, target, released))
      case SetFree(ptr, cur, target, released) =>
        SetFreer(SetNode(s, cur, c.(free := true)), t, Advance(ptr, cur, target, true))
      case Advance(ptr, cur, target, released) =>
        if c.next == None then s.(freers := s.freers - {t})
        else SetFreer(s, t, Compare(ptr, c.next.value, target, released))
  }

  function Next(s: State, l: Step): State {
    if !Enabled(s, l) then s
    else match l
      case CallAllocate(n) => s.(alloc := Test(A.Round(n), 0))
      case AllocateStep(spurious) => AllocateNext(s, spurious)
      case CallFree(t, target) =>
        if target < |s.nodes| then
          SetFreer(s.(live := s.live - {target}), t, Compare(s.nodes[target].addr, 0, target, false))
        else s
      case FreeStep(t) => FreeNext(s, t)
      case ClientWrite(i, offset, value) =>
        var x := s.nodes[i].addr + offset;
        if x < |s.mem| then s.(mem := s.mem[x := value]) else s
  }

  function Run(s: State, ls: seq<Step>): State
    decreases |ls|
  {
    if ls == [] then s else Run(Next(s, ls[0]), ls[1..])
  }

  /** The constructor's state: one zeroed free chunk. */
  predicate Initial(s: State) {
    && |s.mem| > 0 && s.nodes == [Node(0, |s.mem|, true, None)] && (forall x :: 0 <= x < |s.mem| ==> s.mem[x] == 0)
    && s.alloc == Unlocked && s.freers == map[] && s.live == {}
  }

  // The invariant

  ghost predicate Splitting(a: Alloc) {
    a.Shrink? || a.LinkNew? || a.LinkCur?
  }

  /** Reachable through the list: every element but the one a split has not linked yet. */
  ghost predicate Linked(s: State, i: int) {
    0 <= i < |s.nodes| && !(Splitting(s.alloc) && s.alloc.added == i)
  }

  /** The lock holder has taken this chunk and not returned it yet. */
  ghost predicate Acquired(a: Alloc, i: int) {
    !a.Unlocked? && !a.Test? && !a.Acquire? && a.cur == i
  }

  ghost predicate Releasing(s: State, t: int, i: int) {
    t in s.freers && !s.freers[t].released && s.freers[t].target == i
  }

  function End(n: Node): nat {
    n.addr + n.size
  }

  /** Linked chunks are non-empty, lie in the buffer, and do not overlap. */
  ghost predicate Disjoint(s: State) {
    && (forall i :: Linked(s, i) ==> s.nodes[i].size > 0 && End(s.nodes[i]) <= |s.mem|)
    && (forall i, j :: Linked(s, i) && Linked(s, j) && i != j ==>
          s.nodes[i].addr != s.nodes[j].addr && (s.nodes[i].addr < s.nodes[j].addr ==> End(s.nodes[i]) <= s.nodes[j].addr))
  }

  /** Where the memory of a chunk ends, counting what a split under way has cut off and not linked yet. */
  function FullEnd(s: State, i: nat): nat
    requires i < |s.nodes|
  {
    if (s.alloc.LinkNew? || s.alloc.LinkCur?) && s.alloc.cur == i && s.alloc.added < |s.nodes| then End(s.nodes[s.alloc.added])
    else End(s.nodes[i])
  }

  /** The link of a chunk leads to the one that starts where this one ends. */
  ghost predicate Follows(s: State, i: int) {
    0 <= i < |s.nodes| &&
    match s.nodes[i].next
    case None => FullEnd(s, i) == |s.mem|
    case Some(k) => Linked(s, k) && FullEnd(s, i) == s.nodes[k].addr
  }

  /** Each link leads to the chunk that starts where this one ends; the list starts at 0 and ends at the end. */
  ghost predicate Chained(s: State) {
    && Linked(s, 0) && s.nodes[0].addr == 0
    && (forall i {:trigger Follows(s, i)} :: Linked(s, i) ==> Follows(s, i))
  }

  /** The half-linked chunk of a split. */
  ghost predicate SplitOk(s: State) {
    Splitting(s.alloc) ==>
      var a := s.alloc;
      && a.added < |s.nodes| && a.cur < |s.nodes| && a.cur != a.added && a.want > 0
      && var n, c := s.nodes[a.added], s.nodes[a.cur];
         && n.free && n.size > 0 && n.addr == c.addr + a.want
         && (if a.Shrink? then c.size == a.want + n.size else c.size == a.want)
         && (a.LinkCur? ==> n.next == c.next)
         && End(n) <= |s.mem|
         && (forall j :: Linked(s, j) && s.nodes[j].addr > c.addr ==> End(n) <= s.nodes[j].addr)
  }

  ghost predicate AllocOk(s: State) {
    s.alloc != Unlocked ==>
      && Linked(s, s.alloc.cur) && s.alloc.want > 0
      && (s.alloc.Acquire? ==> s.nodes[s.alloc.cur].free && s.alloc.want <= s.nodes[s.alloc.cur].size)
      && (s.alloc.Split? ==> s.alloc.want <= s.nodes[s.alloc.cur].size)
      && (s.alloc.Return? ==> s.alloc.want == s.nodes[s.alloc.cur].size)
  }

  ghost predicate LiveOk(s: State) {
    forall i :: i in s.live ==> Linked(s, i) && !s.nodes[i].free && !Acquired(s.alloc, i)
  }

  ghost predicate ReleasingOk(s: State) {
    forall t, i :: Releasing(s, t, i) ==> Linked(s, i) && !s.nodes[i].free && i !in s.live && !Acquired(s.alloc, i)
  }

  ghost predicate OneReleaser(s: State) {
    forall t, u, i :: Releasing(s, t, i) && Releasing(s, u, i) ==> t == u
  }

  ghost predicate AcquiredOk(s: State) {
    forall i :: Linked(s, i) && Acquired(s.alloc, i) ==> !s.nodes[i].free
  }

  ghost predicate NoneLost(s: State) {
    forall i :: Linked(s, i) && !s.nodes[i].free ==> i in s.live || Acquired(s.alloc, i) || exists t :: Releasing(s, t, i)
  }

  /** Every chunk is free or has exactly one owner: a client, a releasing thread, or the lock holder. */
  ghost predicate Owned(s: State) {
    LiveOk(s) && ReleasingOk(s) && OneReleaser(s) && AcquiredOk(s) && NoneLost(s)
  }

  /** A walk stays on the list, does not run past the chunk it looks for, and does not meet it twice. */
  ghost predicate WalkOk(s: State, f: Freer) {
    && Linked(s, f.cur)
    && (!f.released ==> Linked(s, f.target) && f.ptr == s.nodes[f.target].addr && s.nodes[f.cur].addr <= f.ptr)
    && (f.Zeroing? || f.SetFree? ==> !f.released && f.cur == f.target)
    && (f.Zeroing? ==> f.size == s.nodes[f.cur].size && f.done <= f.size)
    && (f.Advance? && !f.released ==> s.nodes[f.cur].addr < f.ptr)
    && (f.Advance? && f.released ==> s.nodes[f.cur].addr >= f.ptr)
    && (f.Compare? && f.released ==> s.nodes[f.cur].addr > f.ptr)
  }

  ghost predicate WalksOk(s: State) {
    forall t :: t in s.freers ==> WalkOk(s, s.freers[t])
  }

  ghost predicate ZeroBetween(mem: seq<Byte>, lo: nat, hi: nat) {
    forall x :: lo <= x < hi && x < |mem| ==> mem[x] == 0
  }

  /** What a releasing thread has wiped so far. */
  ghost predicate Wiped(s: State, f: Freer) {
    f.cur < |s.nodes| ==>
      && (f.Zeroing? ==> ZeroBetween(s.mem, s.nodes[f.cur].addr, s.nodes[f.cur].addr + f.done))
      && (f.SetFree? ==> ZeroBetween(s.mem, s.nodes[f.cur].addr, End(s.nodes[f.cur])))
  }

  ghost predicate AllWiped(s: State) {
    forall t :: t in s.freers ==> Wiped(s, s.freers[t])
  }

  /** Free chunks and chunks just acquired are zero. */
  ghost predicate FreeZero(s: State) {
    forall i :: 0 <= i < |s.nodes| && (s.nodes[i].free || Acquired(s.alloc, i)) ==>
      ZeroBetween(s.mem, s.nodes[i].addr, End(s.nodes[i]))
  }

  ghost predicate Zeroed(s: State) {
    FreeZero(s) && AllWiped(s)
  }

  ghost predicate Inv(s: State) {
    Disjoint(s) && Chained(s) && AllocOk(s) && SplitOk(s) && Owned(s) && WalksOk(s) && Zeroed(s)
  }

  lemma InitialInv(s: State)
    requires Initial(s)
    ensures Inv(s)
  {
    assert s.nodes[0] == Node(0, |s.mem|, true, None);
    assert forall i :: Linked(s, i) <==> i == 0;
    assert Follows(s, 0);
  }

  // What a step that leaves the list alone keeps

  /** The same chunks in the same list; only flags may differ. */
  ghost predicate SameList(s: State, q: State) {
    && |q.nodes| == |s.nodes| && |q.mem| == |s.mem|
    && (forall i :: 0 <= i < |s.nodes| ==>
          q.nodes[i].addr == s.nodes[i].addr && q.nodes[i].size == s.nodes[i].size && q.nodes[i].next == s.nodes[i].next)
    && (q.alloc == s.alloc || (!Splitting(s.alloc) && !Splitting(q.alloc)))
  }

  lemma ListKept(s: State, q: State)
    requires SameList(s, q) && Disjoint(s) && Chained(s)
    ensures Disjoint(q) && Chained(q)
    ensures forall i :: Linked(q, i) <==> Linked(s, i)
  {
    assert forall i :: Linked(q, i) <==> Linked(s, i);
    forall i | Linked(q, i) ensures Follows(q, i) {
      assert Follows(s, i) && FullEnd(q, i) == FullEnd(s, i);
    }
  }

  lemma WalkKept(s: State, q: State, f: Freer)
    requires WalkOk(s, f)
    requires forall i :: Linked(s, i) ==> Linked(q, i) && q.nodes[i].addr == s.nodes[i].addr
    requires f.Zeroing? && f.cur < |q.nodes| ==> q.nodes[f.cur].size == s.nodes[f.cur].size
    ensures WalkOk(q, f)
  {
  }

  lemma WalksKept(s: State, q: State)
    requires SameList(s, q) && WalksOk(s) && Disjoint(s) && Chained(s) && q.freers == s.freers
    ensures WalksOk(q)
  {
    ListKept(s, q);
    forall t | t in q.freers ensures WalkOk(q, q.freers[t]) {
      WalkKept(s, q, s.freers[t]);
    }
  }

  lemma OwnersKept(s: State, q: State)
    requires Owned(s) && (forall i :: Linked(q, i) <==> Linked(s, i)) && |q.nodes| == |s.nodes|
    requires q.freers == s.freers && q.live == s.live
    requires forall i :: 0 <= i < |s.nodes| ==> q.nodes[i].free == s.nodes[i].free
    requires forall i :: Acquired(q.alloc, i) <==> Acquired(s.alloc, i)
    ensures Owned(q)
  {
    assert forall t, i :: Releasing(q, t, i) <==> Releasing(s, t, i);
  }

  lemma ZeroedKept(s: State, q: State)
    requires Zeroed(s) && SameList(s, q) && q.mem == s.mem && q.freers == s.freers
    requires forall i :: 0 <= i < |s.nodes| ==> q.nodes[i].free == s.nodes[i].free
    requires forall i :: Acquired(q.alloc, i) <==> Acquired(s.alloc, i)
    ensures Zeroed(q)
  {
    hide ZeroBetween, Acquired;
  }

  /** The lock holder moves without taking a chunk, giving one back, or splitting. */
  lemma AllocMoves(s: State, a: Alloc)
    requires Inv(s) && !Splitting(s.alloc) && !Splitting(a) && AllocOk(s.(alloc := a))
    requires forall i :: Acquired(a, i) <==> Acquired(s.alloc, i)
    ensures Inv(s.(alloc := a))
  {
    var q := s.(alloc := a);
    assert SplitOk(q);
    hide Owned, WalksOk, Disjoint, Chained, AllocOk, SplitOk, Zeroed, Acquired;
    ListKept(s, q);
    WalksKept(s, q);
    OwnersKept(s, q);
    ZeroedKept(s, q);
  }

  // Steps of clients

  lemma CallAllocateKeeps(s: State, n: nat)
    requires Inv(s) && Enabled(s, CallAllocate(n))
    ensures Inv(Next(s, CallAllocate(n)))
  {
    A.RoundUp(n);
    AllocMoves(s, Test(A.Round(n), 0));
  }

  lemma CallFreeOwned(s: State, t: int, target: nat)
    requires Owned(s) && Enabled(s, CallFree(t, target))
    ensures Linked(s, target) && Owned(Next(s, CallFree(t, target)))
  {
    var q := Next(s, CallFree(t, target));
    assert Linked(s, target);
    assert forall i :: Linked(q, i) <==> Linked(s, i);
    assert forall u, i :: Releasing(q, u, i) <==> (Releasing(s, u, i) || (u == t && i == target));
    hide Releasing, Acquired, Linked;
    assert Releasing(q, t, target);
    assert OneReleaser(q);
    assert NoneLost(q);
  }

  lemma CallFreeWalks(s: State, t: int, target: nat)
    requires WalksOk(s) && Disjoint(s) && Chained(s) && Enabled(s, CallFree(t, target)) && Linked(s, target)
    ensures WalksOk(Next(s, CallFree(t, target)))
  {
    var q := Next(s, CallFree(t, target));
    assert WalkOk(q, q.freers[t]);
    forall u | u in q.freers ensures WalkOk(q, q.freers[u]) {
      if u != t {
        WalkKept(s, q, s.freers[u]);
      }
    }
  }

  lemma CallFreeKeeps(s: State, t: int, target: nat)
    requires Inv(s) && Enabled(s, CallFree(t, target))
    ensures Inv(Next(s, CallFree(t, target)))
  {
    var q := Next(s, CallFree(t, target));
    CallFreeOwned(s, t, target);
    CallFreeWalks(s, t, target);
    ListKept(s, q);
    assert Zeroed(q) by {
      assert FreeZero(q);
      assert AllWiped(q);
    }
    hide Owned, Disjoint, Chained, WalksOk, Zeroed;
  }

  lemma ClientWriteKeeps(s: State, i: nat, offset: nat, value: Byte)
    requires Inv(s) && Enabled(s, ClientWrite(i, offset, value))
    ensures Inv(Next(s, ClientWrite(i, offset, value)))
  {
    var q := Next(s, ClientWrite(i, offset, value));
    assert Linked(s, i) && SplitOk(q) && AllocOk(q) && SameList(s, q);
    hide Owned, WalksOk, Disjoint, Chained, SplitOk, AllocOk, Zeroed;
    ListKept(s, q);
    WalksKept(s, q);
    OwnersKept(s, q);
    WriteMissesFree(s, i, offset, value);
    WriteMissesWiped(s, i, offset, value);
  }

  lemma ZeroElsewhere(mem: seq<Byte>, x: nat, value: Byte, lo: nat, hi: nat)
    requires ZeroBetween(mem, lo, hi) && x < |mem| && !(lo <= x < hi)
    ensures ZeroBetween(mem[x := value], lo, hi)
  {
  }

  lemma WriteMissesFree(s: State, i: nat, offset: nat, value: Byte)
    requires Inv(s) && Enabled(s, ClientWrite(i, offset, value)) && Linked(s, i)
    ensures FreeZero(Next(s, ClientWrite(i, offset, value)))
  {
    var q := Next(s, ClientWrite(i, offset, value));
    var x := s.nodes[i].addr + offset;
    Parts(s);
    assert !s.nodes[i].free && !Acquired(s.alloc, i);
    assert x < |s.mem| && q == s.(mem := s.mem[x := value]);
    hide Inv, Disjoint, Chained, Owned, WalksOk, SplitOk, AllocOk, ZeroBetween, Next, AllWiped;
    forall j | 0 <= j < |q.nodes| && (q.nodes[j].free || Acquired(q.alloc, j))
      ensures ZeroBetween(q.mem, q.nodes[j].addr, End(q.nodes[j]))
    {
      Apart(s, i, j);
      ZeroElsewhere(s.mem, x, value, s.nodes[j].addr, End(s.nodes[j]));
    }
  }

  lemma WipedElsewhere(s: State, f: Freer, x: nat, value: Byte)
    requires Wiped(s, f) && WalkOk(s, f) && x < |s.mem|
    requires f.Zeroing? || f.SetFree? ==> !(s.nodes[f.cur].addr <= x < End(s.nodes[f.cur]))
    ensures Wiped(s.(mem := s.mem[x := value]), f)
  {
  }

  lemma WriteMissesOne(s: State, i: nat, x: nat, value: Byte, t: int)
    requires Disjoint(s) && SplitOk(s) && AllocOk(s) && Owned(s) && t in s.freers
    requires WalkOk(s, s.freers[t]) && Wiped(s, s.freers[t])
    requires i in s.live && i < |s.nodes| && s.nodes[i].addr <= x < End(s.nodes[i]) && x < |s.mem|
    ensures Wiped(s.(mem := s.mem[x := value]), s.freers[t])
  {
    var f := s.freers[t];
    assert Linked(s, i) && !Acquired(s.alloc, i);
    if f.Zeroing? || f.SetFree? {
      ReleasingNotLive(s, t, i);
      Apart(s, i, f.target);
    }
    hide Disjoint, SplitOk, AllocOk, Owned, Linked, Acquired;
    WipedElsewhere(s, f, x, value);
  }

  lemma WriteMissesWiped(s: State, i: nat, offset: nat, value: Byte)
    requires Inv(s) && Enabled(s, ClientWrite(i, offset, value)) && Linked(s, i)
    ensures AllWiped(Next(s, ClientWrite(i, offset, value)))
  {
    var q := Next(s, ClientWrite(i, offset, value));
    var x := s.nodes[i].addr + offset;
    Parts(s);
    assert i in s.live && x < |s.mem| && q == s.(mem := s.mem[x := value]);
    hide Inv, Disjoint, Chained, SplitOk, AllocOk, Owned, WalkOk, Wiped, Next;
    forall t | t in q.freers ensures Wiped(q, q.freers[t]) {
      WriteMissesOne(s, i, x, value, t);
    }
  }

  lemma ReleasingNotLive(s: State, t: int, i: int)
    requires Owned(s) && i in s.live && t in s.freers && !s.freers[t].released
    ensures s.freers[t].target != i
  {
    assert Releasing(s, t, s.freers[t].target);
  }

  /** A linked, owned chunk shares no byte with any other chunk, linked or not. */
  lemma Apart(s: State, i: int, j: int)
    requires Disjoint(s) && SplitOk(s) && AllocOk(s) && Linked(s, i) && !Acquired(s.alloc, i)
    requires 0 <= j < |s.nodes| && i != j
    ensures End(s.nodes[i]) <= s.nodes[j].addr || End(s.nodes[j]) <= s.nodes[i].addr
  {
    if !Linked(s, j) {
      var c := s.alloc.cur;
      assert Linked(s, c) && c != i;
    }
  }

  lemma Parts(s: State)
    requires Inv(s)
    ensures Disjoint(s) && Chained(s) && AllocOk(s) && SplitOk(s) && Owned(s) && WalksOk(s) && FreeZero(s) && AllWiped(s)
  {
  }

  lemma Whole(s: State)
    requires Disjoint(s) && Chained(s) && AllocOk(s) && SplitOk(s) && Owned(s) && WalksOk(s) && FreeZero(s) && AllWiped(s)
    ensures Inv(s)
  {
  }

  lemma AllocKept(s: State, q: State)
    requires SameList(s, q) && q.alloc == s.alloc && AllocOk(s) && SplitOk(s)
    requires forall i :: 0 <= i < |s.nodes| && s.nodes[i].free ==> q.nodes[i].free
    ensures AllocOk(q) && SplitOk(q)
  {
    assert forall i :: Linked(q, i) <==> Linked(s, i);
  }

  // Steps of free

  lemma FreerWalks(s: State, t: int, f: Freer)
    requires WalksOk(s) && WalkOk(s, f)
    ensures WalksOk(SetFreer(s, t, f))
  {
    var q := SetFreer(s, t, f);
    assert forall i :: Linked(q, i) <==> Linked(s, i);
    hide Linked, WalkOk;
    forall u | u in q.freers ensures WalkOk(q, q.freers[u]) {
      WalkKept(s, q, if u == t then f else s.freers[u]);
    }
  }

  lemma FreerWipes(s: State, t: int, f: Freer)
    requires FreeZero(s) && AllWiped(s) && Wiped(s, f)
    ensures FreeZero(SetFreer(s, t, f)) && AllWiped(SetFreer(s, t, f))
  {
    var q := SetFreer(s, t, f);
    assert forall g :: Wiped(q, g) <==> Wiped(s, g);
    hide Wiped;
  }

  /** A releasing thread moves without changing memory, flags, or what it is to release. */
  lemma FreerMoves(s: State, t: int, f: Freer)
    requires Inv(s) && t in s.freers && f.released == s.freers[t].released && f.target == s.freers[t].target
    requires WalkOk(s, f) && Wiped(s, f)
    ensures Inv(SetFreer(s, t, f))
  {
    Parts(s);
    var q := SetFreer(s, t, f);
    assert SameList(s, q) && q.alloc == s.alloc && q.nodes == s.nodes;
    hide *;
    ListKept(s, q);
    AllocKept(s, q);
    FreerMovesOwned(s, t, f);
    FreerWalks(s, t, f);
    FreerWipes(s, t, f);
    Whole(q);
  }

  lemma FreerMovesOwned(s: State, t: int, f: Freer)
    requires Owned(s) && t in s.freers && f.released == s.freers[t].released && f.target == s.freers[t].target
    ensures Owned(SetFreer(s, t, f))
  {
    var q := SetFreer(s, t, f);
    assert forall i :: Linked(q, i) <==> Linked(s, i);
    assert forall u, i :: Releasing(q, u, i) <==> Releasing(s, u, i);
    hide Releasing, Linked, Acquired;
  }

  /** From a chunk below another one the list goes on, and not past it. */
  lemma NextOnList(s: State, i: int, j: int)
    requires Disjoint(s) && Chained(s) && SplitOk(s) && AllocOk(s)
    requires Linked(s, i) && Linked(s, j) && s.nodes[i].addr < s.nodes[j].addr
    ensures s.nodes[i].next.Some? && Linked(s, s.nodes[i].next.value)
    ensures s.nodes[i].addr < s.nodes[s.nodes[i].next.value].addr <= s.nodes[j].addr
  {
    assert End(s.nodes[i]) <= s.nodes[j].addr;
    assert FullEnd(s, i) <= s.nodes[j].addr && Follows(s, i);
  }

  lemma NextLinked(s: State, i: int)
    requires Disjoint(s) && Chained(s) && SplitOk(s) && AllocOk(s) && Linked(s, i) && s.nodes[i].next.Some?
    ensures Linked(s, s.nodes[i].next.value) && s.nodes[i].addr < s.nodes[s.nodes[i].next.value].addr
  {
    assert FullEnd(s, i) > s.nodes[i].addr && Follows(s, i);
  }

  lemma CompareMove(s: State, t: int)
    requires Disjoint(s) && WalksOk(s) && t in s.freers && s.freers[t].Compare?
    ensures s.freers[t].cur < |s.nodes|
    ensures var f := s.freers[t];
            var c := s.nodes[f.cur];
            var g := if c.addr == f.ptr then Zeroing(f.ptr, f.cur, f.target, f.released, c.size, 0)
                     else Advance(f.ptr, f.cur, f.target, f.released);
            WalkOk(s, g) && Wiped(s, g) && Next(s, FreeStep(t)) == SetFreer(s, t, g)
  {
    assert WalkOk(s, s.freers[t]);
  }

  lemma CompareKeeps(s: State, t: int)
    requires Inv(s) && t in s.freers && s.freers[t].Compare?
    ensures Inv(Next(s, FreeStep(t)))
  {
    hide *;
    Parts(s);
    CompareMove(s, t);
    var f := s.freers[t];
    var c := s.nodes[f.cur];
    FreerMoves(s, t, if c.addr == f.ptr then Zeroing(f.ptr, f.cur, f.target, f.released, c.size, 0)
                     else Advance(f.ptr, f.cur, f.target, f.released));
  }

  lemma WipeZeroed(s: State, x: nat)
    requires FreeZero(s) && AllWiped(s) && x < |s.mem|
    ensures var q := s.(mem := s.mem[x := 0]); FreeZero(q) && AllWiped(q) && SameList(s, q)
  {
    var q := s.(mem := s.mem[x := 0]);
    assert forall lo: nat, hi: nat :: ZeroBetween(s.mem, lo, hi) ==> ZeroBetween(q.mem, lo, hi);
    hide ZeroBetween;
    forall t | t in q.freers ensures Wiped(q, q.freers[t]) {
      assert Wiped(s, s.freers[t]);
    }
  }

  lemma WipeKeeps(s: State, x: nat)
    requires Inv(s) && x < |s.mem|
    ensures Inv(s.(mem := s.mem[x := 0]))
  {
    hide *;
    Parts(s);
    var q := s.(mem := s.mem[x := 0]);
    WipeZeroed(s, x);
    ListKept(s, q);
    AllocKept(s, q);
    WalksKept(s, q);
    OwnersKept(s, q);
    Whole(q);
  }

  lemma ZeroingByte(s: State, t: int)
    requires Disjoint(s) && WalksOk(s) && AllWiped(s) && t in s.freers && s.freers[t].Zeroing?
    requires s.freers[t].done < s.freers[t].size
    ensures s.freers[t].cur < |s.nodes| && s.nodes[s.freers[t].cur].addr + s.freers[t].done < |s.mem|
    ensures var f := s.freers[t];
            var m := s.(mem := s.mem[s.nodes[f.cur].addr + f.done := 0]);
            var g := f.(done := f.done + 1);
            WalkOk(m, g) && Wiped(m, g) && Next(s, FreeStep(t)) == SetFreer(m, t, g)
  {
    var f := s.freers[t];
    assert WalkOk(s, f) && Wiped(s, f) && Linked(s, f.cur);
    var m := s.(mem := s.mem[s.nodes[f.cur].addr + f.done := 0]);
    assert forall i :: Linked(m, i) <==> Linked(s, i);
    hide Disjoint, WalksOk, AllWiped;
  }

  lemma ZeroingDone(s: State, t: int)
    requires WalksOk(s) && AllWiped(s) && t in s.freers && s.freers[t].Zeroing?
    requires s.freers[t].done >= s.freers[t].size
    ensures var f := s.freers[t];
            var g := SetFree(f.ptr, f.cur, f.target, f.released);
            WalkOk(s, g) && Wiped(s, g) && Next(s, FreeStep(t)) == SetFreer(s, t, g)
  {
    var f := s.freers[t];
    assert WalkOk(s, f) && Wiped(s, f);
  }

  lemma ZeroingKeeps(s: State, t: int)
    requires Inv(s) && t in s.freers && s.freers[t].Zeroing?
    ensures Inv(Next(s, FreeStep(t)))
  {
    hide *;
    Parts(s);
    var f := s.freers[t];
    if f.done < f.size {
      ZeroingByte(s, t);
      ZeroingByteKeeps(s, t, s.nodes[f.cur].addr + f.done, f.(done := f.done + 1));
    } else {
      ZeroingDone(s, t);
      FreerMoves(s, t, SetFree(f.ptr, f.cur, f.target, f.released));
    }
  }

  lemma ZeroingByteKeeps(s: State, t: int, x: nat, g: Freer)
    requires Inv(s) && x < |s.mem| && t in s.freers
    requires g.released == s.freers[t].released && g.target == s.freers[t].target
    requires var m := s.(mem := s.mem[x := 0]); WalkOk(m, g) && Wiped(m, g)
    ensures Inv(SetFreer(s.(mem := s.mem[x := 0]), t, g))
  {
    hide *;
    WipeKeeps(s, x);
    FreerMoves(s.(mem := s.mem[x := 0]), t, g);
  }

  lemma SetFreeOwned(s: State, t: int)
    requires Owned(s) && t in s.freers && s.freers[t].SetFree?
    requires !s.freers[t].released && s.freers[t].cur == s.freers[t].target && Linked(s, s.freers[t].cur)
    ensures Owned(Next(s, FreeStep(t)))
  {
    var c := s.freers[t].cur;
    var q := Next(s, FreeStep(t));
    assert Releasing(s, t, c);
    assert forall i :: Linked(q, i) <==> Linked(s, i);
    assert forall i :: Linked(s, i) ==> (q.nodes[i].free <==> s.nodes[i].free || i == c);
    assert forall u, i :: Releasing(q, u, i) <==> Releasing(s, u, i) && u != t;
    assert forall i :: Releasing(s, t, i) ==> i == c;
    hide Releasing, Linked, Acquired, Next;
    assert NoneLost(q);
  }

  lemma SetFreeFacts(s: State, t: int)
    requires WalksOk(s) && AllWiped(s) && Owned(s) && t in s.freers && s.freers[t].SetFree?
    ensures var f := s.freers[t];
            && Linked(s, f.cur) && !f.released && f.cur == f.target
            && ZeroBetween(s.mem, s.nodes[f.cur].addr, End(s.nodes[f.cur]))
            && Next(s, FreeStep(t)) == s.(nodes := s.nodes[f.cur := s.nodes[f.cur].(free := true)],
                                          freers := s.freers[t := Advance(f.ptr, f.cur, f.target, true)])
  {
    assert WalkOk(s, s.freers[t]) && Wiped(s, s.freers[t]);
  }

  lemma SetFreeWalks(s: State, q: State, t: int, f: Freer)
    requires WalksOk(s) && Disjoint(s) && Chained(s) && SameList(s, q) && q.freers == s.freers[t := f] && WalkOk(s, f)
    ensures WalksOk(q)
  {
    ListKept(s, q);
    hide Disjoint, Chained, Linked;
    forall u | u in q.freers ensures WalkOk(q, q.freers[u]) {
      WalkKept(s, q, if u == t then f else s.freers[u]);
    }
  }

  lemma SetFreeZero(s: State, q: State, t: int, f: Freer, c: nat)
    requires FreeZero(s) && AllWiped(s) && c < |s.nodes| && ZeroBetween(s.mem, s.nodes[c].addr, End(s.nodes[c]))
    requires q == s.(nodes := s.nodes[c := s.nodes[c].(free := true)], freers := s.freers[t := f]) && f.Advance?
    ensures FreeZero(q) && AllWiped(q)
  {
    hide ZeroBetween;
    forall u | u in q.freers ensures Wiped(q, q.freers[u]) {
      if u != t {
        assert Wiped(s, s.freers[u]);
      }
    }
  }

  lemma SetFreeKeeps(s: State, t: int)
    requires Inv(s) && t in s.freers && s.freers[t].SetFree?
    ensures Inv(Next(s, FreeStep(t)))
  {
    var q := Next(s, FreeStep(t));
    var f := s.freers[t];
    var g := Advance(f.ptr, f.cur, f.target, true);
    Parts(s);
    SetFreeFacts(s, t);
    assert WalkOk(s, g);
    assert SameList(s, q) && q.alloc == s.alloc;
    assert forall i :: 0 <= i < |s.nodes| && s.nodes[i].free ==> q.nodes[i].free;
    hide *;
    SetFreeOwned(s, t);
    ListKept(s, q);
    AllocKept(s, q);
    SetFreeWalks(s, q, t, g);
    SetFreeZero(s, q, t, g, f.cur);
    Whole(q);
  }

  lemma LeaveOwned(s: State, t: int)
    requires Owned(s) && t in s.freers && s.freers[t].released
    ensures Owned(s.(freers := s.freers - {t}))
  {
    var q := s.(freers := s.freers - {t});
    assert forall i :: Linked(q, i) <==> Linked(s, i);
    assert forall u, i :: Releasing(q, u, i) <==> Releasing(s, u, i);
    hide Releasing, Linked, Acquired;
  }

  lemma LeaveKeeps(s: State, t: int)
    requires Inv(s) && t in s.freers && s.freers[t].released
    ensures Inv(s.(freers := s.freers - {t}))
  {
    var q := s.(freers := s.freers - {t});
    Parts(s);
    assert SameList(s, q) && q.alloc == s.alloc && q.nodes == s.nodes;
    assert FreeZero(q) && AllWiped(q);
    hide *;
    LeaveOwned(s, t);
    ListKept(s, q);
    AllocKept(s, q);
    LeaveWalks(s, t);
    Whole(q);
  }

  lemma LeaveWalks(s: State, t: int)
    requires WalksOk(s)
    ensures WalksOk(s.(freers := s.freers - {t}))
  {
    var q := s.(freers := s.freers - {t});
    assert forall i :: Linked(q, i) <==> Linked(s, i);
    forall u | u in q.freers ensures WalkOk(q, q.freers[u]) {
      WalkKept(s, q, s.freers[u]);
    }
  }

  lemma AdvanceWalk(s: State, f: Freer)
    requires Disjoint(s) && Chained(s) && SplitOk(s) && AllocOk(s) && WalkOk(s, f) && f.Advance?
    ensures f.cur < |s.nodes|
    ensures s.nodes[f.cur].next == None ==> f.released
    ensures s.nodes[f.cur].next.Some? ==> WalkOk(s, Compare(f.ptr, s.nodes[f.cur].next.value, f.target, f.released))
  {
    hide Disjoint, Chained, SplitOk, AllocOk;
    if !f.released {
      NextOnList(s, f.cur, f.target);
    } else if s.nodes[f.cur].next.Some? {
      NextLinked(s, f.cur);
    }
  }

  lemma AdvanceMove(s: State, t: int)
    requires t in s.freers && s.freers[t].Advance? && s.freers[t].cur < |s.nodes|
    ensures var f := s.freers[t];
            var n := s.nodes[f.cur].next;
            if n == None then Next(s, FreeStep(t)) == s.(freers := s.freers - {t})
            else
              var g := Compare(f.ptr, n.value, f.target, f.released);
              Wiped(s, g) && Next(s, FreeStep(t)) == SetFreer(s, t, g)
  {
  }

  lemma WalkOf(s: State, t: int)
    requires WalksOk(s) && t in s.freers
    ensures WalkOk(s, s.freers[t])
  {
  }

  lemma AdvanceKeeps(s: State, t: int)
    requires Inv(s) && t in s.freers && s.freers[t].Advance?
    ensures Inv(Next(s, FreeStep(t)))
  {
    hide *;
    Parts(s);
    WalkOf(s, t);
    var f := s.freers[t];
    AdvanceWalk(s, f);
    AdvanceMove(s, t);
    var n := s.nodes[f.cur].next;
    if n == None {
      LeaveKeeps(s, t);
    } else {
      FreerMoves(s, t, Compare(f.ptr, n.value, f.target, f.released));
    }
  }
}
