/** Safety of the concurrent allocator: the steps of `allocate` keep the invariant, so every interleaving does, and
    what that means for owners, blocks and walks. */
module AllocatorSafety {
  import opened AllocatorConcurrent
  import opened Axis
  import opened Mem
  import opened Wrappers
  import A = Allocator

  // Steps of allocate

  lemma TestKeeps(s: State, spurious: bool)
    requires Inv(s) && s.alloc.Test?
    ensures Inv(AllocateNext(s, spurious))
  {
    Parts(s);
    var a := s.alloc;
    var c := s.nodes[a.cur];
    if c.free && a.want <= c.size {
      AllocMoves(s, Acquire(a.want, a.cur));
    } else {
      WalkOn(s);
    }
  }

  /** Leaving a chunk for the next one, or for the end of the list. */
  lemma WalkOn(s: State)
    requires Inv(s) && (s.alloc.Test? || s.alloc.Acquire?)
    ensures s.alloc.cur < |s.nodes|
    ensures s.nodes[s.alloc.cur].next == None ==> Inv(s.(alloc := Unlocked))
    ensures s.nodes[s.alloc.cur].next.Some? ==> Inv(s.(alloc := Test(s.alloc.want, s.nodes[s.alloc.cur].next.value)))
  {
    Parts(s);
    var a := s.alloc;
    if s.nodes[a.cur].next == None {
      AllocMoves(s, Unlocked);
    } else {
      NextLinked(s, a.cur);
      AllocMoves(s, Test(a.want, s.nodes[a.cur].next.value));
    }
  }

  lemma TakeOwned(s: State, want: nat, cur: nat)
    requires Owned(s) && s.alloc == Acquire(want, cur) && Linked(s, cur) && s.nodes[cur].free
    ensures Owned(SetNode(s, cur, s.nodes[cur].(free := false)).(alloc := Split(want, cur)))
  {
    var q := SetNode(s, cur, s.nodes[cur].(free := false)).(alloc := Split(want, cur));
    assert forall i :: Linked(q, i) <==> Linked(s, i);
    assert forall t, i :: Releasing(q, t, i) <==> Releasing(s, t, i);
    assert forall i :: Linked(s, i) ==> (q.nodes[i].free <==> s.nodes[i].free && i != cur);
    assert forall i :: Acquired(q.alloc, i) <==> i == cur;
    assert forall i :: !Acquired(s.alloc, i);
    hide Linked, Releasing, Acquired;
  }

  lemma TakeZero(s: State, want: nat, cur: nat)
    requires FreeZero(s) && AllWiped(s) && s.alloc == Acquire(want, cur) && cur < |s.nodes| && s.nodes[cur].free
    ensures var q := SetNode(s, cur, s.nodes[cur].(free := false)).(alloc := Split(want, cur));
            FreeZero(q) && AllWiped(q)
  {
    var q := SetNode(s, cur, s.nodes[cur].(free := false)).(alloc := Split(want, cur));
    hide ZeroBetween;
    forall t | t in q.freers ensures Wiped(q, q.freers[t]) {
      assert Wiped(s, s.freers[t]);
    }
  }

  lemma AcquireKeeps(s: State, spurious: bool)
    requires Inv(s) && s.alloc.Acquire?
    ensures Inv(AllocateNext(s, spurious))
  {
    var cur, want := s.alloc.cur, s.alloc.want;
    Parts(s);
    assert Linked(s, cur) && s.nodes[cur].free;
    if spurious {
      WalkOn(s);
    } else {
      var q := SetNode(s, cur, s.nodes[cur].(free := false)).(alloc := Split(want, cur));
      assert q == AllocateNext(s, spurious) && SameList(s, q);
      assert AllocOk(q) && SplitOk(q);
      hide *;
      ListKept(s, q);
      WalksKept(s, q);
      TakeOwned(s, want, cur);
      TakeZero(s, want, cur);
      Whole(q);
    }
  }

  // Splitting

  /** The new chunk exists but no link leads to it. */
  lemma StartSplitDisjoint(s: State, q: State)
    requires Disjoint(s) && AllocOk(s) && s.alloc.Split?
    requires s.nodes[s.alloc.cur].size > s.alloc.want && q == AllocateNext(s, false)
    ensures Disjoint(q) && AllocOk(q) && SplitOk(q)
    ensures forall i :: Linked(q, i) <==> Linked(s, i)
  {
    assert forall i :: Linked(q, i) <==> Linked(s, i);
    assert forall i :: Linked(s, i) ==> q.nodes[i] == s.nodes[i];
  }

  lemma StartSplitChained(s: State, q: State)
    requires Chained(s) && AllocOk(s) && s.alloc.Split?
    requires s.nodes[s.alloc.cur].size > s.alloc.want && q == AllocateNext(s, false)
    requires forall i :: Linked(q, i) <==> Linked(s, i)
    ensures Chained(q)
  {
    forall i | Linked(q, i) ensures Follows(q, i) {
      assert Follows(s, i) && q.nodes[i] == s.nodes[i];
    }
  }

  lemma StartSplitZero(s: State, q: State)
    requires FreeZero(s) && AllWiped(s) && WalksOk(s) && AllocOk(s) && s.alloc.Split?
    requires s.nodes[s.alloc.cur].size > s.alloc.want && q == AllocateNext(s, false)
    ensures FreeZero(q) && AllWiped(q)
  {
    var c := s.nodes[s.alloc.cur];
    assert ZeroBetween(s.mem, c.addr, End(c)) by {
      assert Acquired(s.alloc, s.alloc.cur);
    }
    forall t | t in q.freers ensures Wiped(q, q.freers[t]) {
      assert Wiped(s, s.freers[t]) && WalkOk(s, s.freers[t]);
    }
  }

  /** A step of a split that leaves flags, owners, and the reachable chunks alone. */
  lemma SplitStepOwned(s: State, q: State)
    requires Owned(s) && (forall i :: Linked(q, i) <==> Linked(s, i)) && q.freers == s.freers && q.live == s.live
    requires forall i :: Linked(s, i) ==> i < |q.nodes| && q.nodes[i].free == s.nodes[i].free
    requires forall i :: Acquired(q.alloc, i) <==> Acquired(s.alloc, i)
    ensures Owned(q)
  {
    assert forall t, i :: Releasing(q, t, i) <==> Releasing(s, t, i);
    hide Linked, Releasing, Acquired;
  }

  /** Walks are not disturbed by changes to a chunk no thread is releasing. */
  lemma SplitStepWalks(s: State, q: State)
    requires WalksOk(s) && Owned(s) && q.freers == s.freers
    requires forall i :: Linked(s, i) ==> Linked(q, i) && q.nodes[i].addr == s.nodes[i].addr
                                          && (!Acquired(s.alloc, i) ==> q.nodes[i].size == s.nodes[i].size)
    ensures WalksOk(q)
  {
    forall t | t in q.freers ensures WalkOk(q, q.freers[t]) {
      var f := s.freers[t];
      WalkOf(s, t);
      if f.Zeroing? {
        assert Releasing(s, t, f.target);
      }
      WalkKept(s, q, f);
    }
  }

  lemma SplitKeeps(s: State, spurious: bool)
    requires Inv(s) && s.alloc.Split?
    ensures Inv(AllocateNext(s, spurious))
  {
    var a := s.alloc;
    Parts(s);
    assert Linked(s, a.cur);
    if s.nodes[a.cur].size > a.want {
      var q := AllocateNext(s, false);
      assert forall i :: Linked(s, i) ==> i < |q.nodes| && q.nodes[i] == s.nodes[i];
      assert forall i :: Acquired(q.alloc, i) <==> Acquired(s.alloc, i);
      assert q.freers == s.freers && q.live == s.live && q == AllocateNext(s, spurious);
      hide *;
      StartSplitDisjoint(s, q);
      StartSplitChained(s, q);
      StartSplitZero(s, q);
      SplitStepOwned(s, q);
      SplitStepWalks(s, q);
      Whole(q);
    } else {
      AllocMoves(s, Return(a.want, a.cur));
    }
  }

  lemma ShrinkDisjoint(s: State, q: State)
    requires Disjoint(s) && AllocOk(s) && SplitOk(s) && s.alloc.Shrink? && q == AllocateNext(s, false)
    ensures Disjoint(q) && AllocOk(q) && SplitOk(q)
    ensures forall i :: Linked(q, i) <==> Linked(s, i)
  {
    assert forall i :: Linked(q, i) <==> Linked(s, i);
    assert forall i :: 0 <= i < |s.nodes| ==> q.nodes[i].addr == s.nodes[i].addr && End(q.nodes[i]) <= End(s.nodes[i]);
  }

  lemma ShrinkChained(s: State, q: State)
    requires Chained(s) && AllocOk(s) && SplitOk(s) && s.alloc.Shrink? && q == AllocateNext(s, false)
    requires forall i :: Linked(q, i) <==> Linked(s, i)
    ensures Chained(q)
  {
    forall i | Linked(q, i) ensures Follows(q, i) {
      assert Follows(s, i) && FullEnd(q, i) == FullEnd(s, i);
    }
  }

  /** Shrinking leaves less to be zero. */
  lemma ShrinkZero(s: State, q: State)
    requires FreeZero(s) && AllWiped(s) && WalksOk(s) && Owned(s) && AllocOk(s) && SplitOk(s)
    requires s.alloc.Shrink? && q == AllocateNext(s, false)
    ensures FreeZero(q) && AllWiped(q)
  {
    forall t | t in q.freers ensures Wiped(q, q.freers[t]) {
      var f := s.freers[t];
      assert Wiped(s, f) && WalkOk(s, f);
      if f.Zeroing? || f.SetFree? {
        assert Releasing(s, t, f.target) && f.cur != s.alloc.cur;
      }
    }
  }

  lemma ShrinkKeeps(s: State, spurious: bool)
    requires Inv(s) && s.alloc.Shrink?
    ensures Inv(AllocateNext(s, spurious))
  {
    var q := AllocateNext(s, false);
    Parts(s);
    assert Linked(s, s.alloc.cur);
    assert forall i :: 0 <= i < |s.nodes| ==> q.nodes[i].free == s.nodes[i].free && q.nodes[i].addr == s.nodes[i].addr;
    assert forall i :: 0 <= i < |s.nodes| && !Acquired(s.alloc, i) ==> q.nodes[i] == s.nodes[i];
    assert forall i :: Acquired(q.alloc, i) <==> Acquired(s.alloc, i);
    assert q.freers == s.freers && q.live == s.live && |q.nodes| == |s.nodes| && q == AllocateNext(s, spurious);
    assert forall i :: Linked(s, i) ==> 0 <= i < |s.nodes|;
    hide *;
    ShrinkDisjoint(s, q);
    ShrinkChained(s, q);
    ShrinkZero(s, q);
    SplitStepOwned(s, q);
    SplitStepWalks(s, q);
    Whole(q);
  }

  lemma LinkNewList(s: State, q: State)
    requires Disjoint(s) && Chained(s) && AllocOk(s) && SplitOk(s) && s.alloc.LinkNew? && q == AllocateNext(s, false)
    ensures Disjoint(q) && Chained(q) && AllocOk(q) && SplitOk(q)
    ensures forall i :: Linked(q, i) <==> Linked(s, i)
  {
    assert forall i :: Linked(q, i) <==> Linked(s, i);
    assert forall i :: Linked(s, i) ==> q.nodes[i] == s.nodes[i];
    forall i | Linked(q, i) ensures Follows(q, i) {
      assert Follows(s, i) && FullEnd(q, i) == FullEnd(s, i);
    }
  }

  lemma SameBlocksZero(s: State, q: State)
    requires FreeZero(s) && AllWiped(s) && q.mem == s.mem && q.freers == s.freers && |q.nodes| == |s.nodes|
    requires forall i :: 0 <= i < |s.nodes| ==>
               q.nodes[i].addr == s.nodes[i].addr && q.nodes[i].size == s.nodes[i].size && q.nodes[i].free == s.nodes[i].free
    requires forall i :: Acquired(q.alloc, i) ==> Acquired(s.alloc, i)
    ensures FreeZero(q) && AllWiped(q)
  {
    hide ZeroBetween, Acquired;
    forall t | t in q.freers ensures Wiped(q, q.freers[t]) {
      assert Wiped(s, s.freers[t]);
    }
  }

  lemma LinkNewKeeps(s: State, spurious: bool)
    requires Inv(s) && s.alloc.LinkNew?
    ensures Inv(AllocateNext(s, spurious))
  {
    var q := AllocateNext(s, false);
    Parts(s);
    assert Linked(s, s.alloc.cur) && s.alloc.added < |s.nodes|;
    assert forall i :: 0 <= i < |s.nodes| ==>
      q.nodes[i].addr == s.nodes[i].addr && q.nodes[i].size == s.nodes[i].size && q.nodes[i].free == s.nodes[i].free;
    assert forall i :: Acquired(q.alloc, i) <==> Acquired(s.alloc, i);
    assert q.freers == s.freers && q.live == s.live && q.mem == s.mem && |q.nodes| == |s.nodes|;
    assert q == AllocateNext(s, spurious);
    assert forall i :: Linked(s, i) ==> 0 <= i < |s.nodes|;
    hide *;
    LinkNewList(s, q);
    SameBlocksZero(s, q);
    SplitStepOwned(s, q);
    SplitStepWalks(s, q);
    Whole(q);
  }

  /** The new chunk joins the list between the shrunk one and its old successor. */
  lemma LinkCurDisjoint(s: State, q: State)
    requires Disjoint(s) && AllocOk(s) && SplitOk(s) && s.alloc.LinkCur? && q == AllocateNext(s, false)
    ensures Disjoint(q) && AllocOk(q) && SplitOk(q)
    ensures forall i :: Linked(q, i) <==> Linked(s, i) || i == s.alloc.added
  {
    var c, n := s.alloc.cur, s.alloc.added;
    assert forall i :: Linked(q, i) <==> Linked(s, i) || i == n;
    assert forall i :: 0 <= i < |s.nodes| ==> q.nodes[i].addr == s.nodes[i].addr && q.nodes[i].size == s.nodes[i].size;
    assert Linked(s, c);
    forall j | Linked(s, j)
      ensures s.nodes[j].addr != s.nodes[n].addr
      ensures s.nodes[j].addr < s.nodes[n].addr ==> End(s.nodes[j]) <= s.nodes[n].addr
      ensures s.nodes[n].addr < s.nodes[j].addr ==> End(s.nodes[n]) <= s.nodes[j].addr
    {
    }
  }

  lemma LinkCurChained(s: State, q: State)
    requires Disjoint(s) && Chained(s) && AllocOk(s) && SplitOk(s) && s.alloc.LinkCur? && q == AllocateNext(s, false)
    requires forall i :: Linked(q, i) <==> Linked(s, i) || i == s.alloc.added
    ensures Chained(q)
  {
    var c, n := s.alloc.cur, s.alloc.added;
    assert Follows(s, c);
    forall i | Linked(q, i) ensures Follows(q, i) {
      if i != n && i != c {
        assert Follows(s, i);
      }
    }
  }

  lemma LinkCurOwned(s: State, q: State)
    requires Owned(s) && q.freers == s.freers && q.live == s.live && |q.nodes| == |s.nodes| && SplitOk(s) && s.alloc.LinkCur?
    requires forall i :: Linked(q, i) <==> Linked(s, i) || i == s.alloc.added
    requires forall i :: 0 <= i < |s.nodes| ==> q.nodes[i].free == s.nodes[i].free
    requires forall i :: Acquired(q.alloc, i) <==> Acquired(s.alloc, i)
    ensures Owned(q)
  {
    assert forall t, i :: Releasing(q, t, i) <==> Releasing(s, t, i);
    assert forall i :: Linked(s, i) ==> 0 <= i < |s.nodes|;
    hide Linked, Releasing, Acquired;
  }

  lemma LinkCurKeeps(s: State, spurious: bool)
    requires Inv(s) && s.alloc.LinkCur?
    ensures Inv(AllocateNext(s, spurious))
  {
    var q := AllocateNext(s, false);
    Parts(s);
    assert Linked(s, s.alloc.cur);
    assert forall i :: 0 <= i < |s.nodes| ==>
      q.nodes[i].addr == s.nodes[i].addr && q.nodes[i].size == s.nodes[i].size && q.nodes[i].free == s.nodes[i].free;
    assert forall i :: Acquired(q.alloc, i) <==> Acquired(s.alloc, i);
    assert q.freers == s.freers && q.live == s.live && q.mem == s.mem && |q.nodes| == |s.nodes|;
    assert q == AllocateNext(s, spurious);
    assert forall i :: Linked(s, i) ==> 0 <= i < |s.nodes|;
    hide *;
    LinkCurDisjoint(s, q);
    LinkCurChained(s, q);
    SameBlocksZero(s, q);
    LinkCurOwned(s, q);
    SplitStepWalks(s, q);
    Whole(q);
  }

  lemma ReturnOwned(s: State)
    requires Owned(s) && AllocOk(s) && s.alloc.Return?
    ensures Owned(s.(alloc := Unlocked, live := s.live + {s.alloc.cur}))
  {
    var q := s.(alloc := Unlocked, live := s.live + {s.alloc.cur});
    assert forall i :: Linked(q, i) <==> Linked(s, i);
    assert forall t, i :: Releasing(q, t, i) <==> Releasing(s, t, i);
    assert forall i :: Acquired(s.alloc, i) <==> i == s.alloc.cur;
    assert forall i :: !Acquired(q.alloc, i);
    hide Linked, Releasing, Acquired;
  }

  lemma ReturnKeeps(s: State, spurious: bool)
    requires Inv(s) && s.alloc.Return?
    ensures Inv(AllocateNext(s, spurious))
  {
    var q := s.(alloc := Unlocked, live := s.live + {s.alloc.cur});
    Parts(s);
    assert q == AllocateNext(s, spurious) && SameList(s, q);
    assert AllocOk(q) && SplitOk(q);
    assert forall i :: !Acquired(q.alloc, i);
    hide *;
    ReturnOwned(s);
    ListKept(s, q);
    WalksKept(s, q);
    SameBlocksZero(s, q);
    Whole(q);
  }

  // Every run

  lemma StepKeeps(s: State, l: Step)
    requires Inv(s)
    ensures Inv(Next(s, l))
  {
    if Enabled(s, l) {
      match l {
        case CallAllocate(n) => CallAllocateKeeps(s, n);
        case AllocateStep(spurious) => AllocateKeeps(s, spurious);
        case CallFree(t, target) => CallFreeKeeps(s, t, target);
        case FreeStep(t) =>
          match s.freers[t] {
            case Compare(_, _, _, _) => CompareKeeps(s, t);
            case Zeroing(_, _, _, _, _, _) => ZeroingKeeps(s, t);
            case SetFree(_, _, _, _) => SetFreeKeeps(s, t);
            case Advance(_, _, _, _) => AdvanceKeeps(s, t);
          }
        case ClientWrite(i, offset, value) => ClientWriteKeeps(s, i, offset, value);
      }
    }
  }

  lemma AllocateKeeps(s: State, spurious: bool)
    requires Inv(s)
    ensures Inv(AllocateNext(s, spurious))
  {
    match s.alloc {
      case Unlocked =>
      case Test(_, _) => TestKeeps(s, spurious);
      case Acquire(_, _) => AcquireKeeps(s, spurious);
      case Split(_, _) => SplitKeeps(s, spurious);
      case Shrink(_, _, _) => ShrinkKeeps(s, spurious);
      case LinkNew(_, _, _) => LinkNewKeeps(s, spurious);
      case LinkCur(_, _, _) => LinkCurKeeps(s, spurious);
      case Return(_, _) => ReturnKeeps(s, spurious);
    }
  }

  /** Any interleaving of any length keeps the invariant. */
  lemma {:induction false} RunKeeps(s: State, ls: seq<Step>)
    requires Inv(s)
    ensures Inv(Run(s, ls))
    decreases |ls|
  {
    if ls != [] {
      hide Inv, Next;
      StepKeeps(s, ls[0]);
      RunKeeps(Next(s, ls[0]), ls[1..]);
    }
  }

  /** In every reachable state a chunk has at most one owner among clients, releasing threads, and the lock
      holder, and has none exactly when its flag says free. */
  lemma OneOwner(s: State, ls: seq<Step>, i: int)
    requires Initial(s) && Linked(Run(s, ls), i)
    ensures var q := Run(s, ls);
            && !(i in q.live && Acquired(q.alloc, i))
            && (forall t :: Releasing(q, t, i) ==> i !in q.live && !Acquired(q.alloc, i))
            && (forall t, u :: Releasing(q, t, i) && Releasing(q, u, i) ==> t == u)
            && (q.nodes[i].free <==> i !in q.live && !Acquired(q.alloc, i) && !exists t :: Releasing(q, t, i))
  {
    InitialInv(s);
    RunKeeps(s, ls);
    Parts(Run(s, ls));
  }

  /** Two blocks in the hands of clients never share a byte. */
  lemma LiveBlocksDisjoint(s: State, ls: seq<Step>, i: int, j: int)
    requires Initial(s) && i in Run(s, ls).live && j in Run(s, ls).live && i != j
    ensures var q := Run(s, ls);
            && 0 <= i < |q.nodes| && 0 <= j < |q.nodes|
            && (End(q.nodes[i]) <= q.nodes[j].addr || End(q.nodes[j]) <= q.nodes[i].addr)
            && End(q.nodes[i]) <= |q.mem|
  {
    InitialInv(s);
    RunKeeps(s, ls);
    var q := Run(s, ls);
    Parts(q);
    assert Linked(q, i) && Linked(q, j);
  }

  /** What `allocate` hands out is as long as requested, wiped to its last byte, and nobody else's. */
  lemma HandsOutZeroed(s: State, ls: seq<Step>)
    requires Initial(s) && Run(s, ls).alloc.Return?
    ensures var q := Run(s, ls);
            var c := q.alloc.cur;
            && c < |q.nodes| && q.nodes[c].size == q.alloc.want && End(q.nodes[c]) <= |q.mem|
            && ZeroBetween(q.mem, q.nodes[c].addr, End(q.nodes[c]))
            && c !in q.live && (forall t :: !Releasing(q, t, c))
  {
    InitialInv(s);
    RunKeeps(s, ls);
    var q := Run(s, ls);
    Parts(q);
    assert Linked(q, q.alloc.cur) && Acquired(q.alloc, q.alloc.cur);
  }

  /** A `free` that has not released its chunk has not passed it, however the list is split meanwhile; so it
      never reaches the end of the list with nothing released, and what it wipes is its own chunk. */
  lemma WalkFindsItsChunk(s: State, ls: seq<Step>, t: int)
    requires Initial(s) && t in Run(s, ls).freers
    ensures var q := Run(s, ls);
            var f := q.freers[t];
            && f.cur < |q.nodes|
            && (!f.released ==> f.target < |q.nodes| && f.ptr == q.nodes[f.target].addr && q.nodes[f.cur].addr <= f.ptr)
            && (f.Advance? && q.nodes[f.cur].next == None ==> f.released)
            && (f.Zeroing? || f.SetFree? ==> f.cur == f.target && !f.released)
  {
    InitialInv(s);
    RunKeeps(s, ls);
    var q := Run(s, ls);
    Parts(q);
    WalkOf(q, t);
    if q.freers[t].Advance? {
      AdvanceWalk(q, q.freers[t]);
    }
  }
}
