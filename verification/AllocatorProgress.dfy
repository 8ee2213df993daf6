/** Every call of the concurrent allocator ends: each thread takes boundedly many steps of its own, whatever the
    others do in between. */
module AllocatorProgress {
  import opened AllocatorConcurrent
  import opened AllocatorSafety
  import opened AllocatorFirstFit
  import opened Wrappers

  lemma AddressesStay(s: State, l: Step)
    requires Inv(s)
    ensures |Next(s, l).mem| == |s.mem| && |s.nodes| <= |Next(s, l).nodes|
    ensures forall i :: 0 <= i < |s.nodes| ==> Next(s, l).nodes[i].addr == s.nodes[i].addr
  {
  }

  // allocate

  /** The lock is held before every step of the run. */
  predicate Held(s: State, ls: seq<Step>)
    decreases |ls|
  {
    ls == [] || (s.alloc != Unlocked && Held(Next(s, ls[0]), ls[1..]))
  }

  /** How many steps the lock holder has left, at most. */
  function AllocateLeft(s: State): int {
    match s.alloc
    case Unlocked => 0
    case Test(_, _) => 2 * Room(s, s.alloc.cur) + 6
    case Acquire(_, _) => 2 * Room(s, s.alloc.cur) + 5
    case Split(_, _) => 5
    case Shrink(_, _, _) => 4
    case LinkNew(_, _, _) => 3
    case LinkCur(_, _, _) => 2
    case Return(_, _) => 1
  }

  /** The memory from a chunk's start on. */
  function Room(s: State, i: int): int {
    if 0 <= i < |s.nodes| then |s.mem| - s.nodes[i].addr else 0
  }

  lemma RoomFacts(s: State, i: int)
    requires Inv(s) && Linked(s, i)
    ensures 1 <= Room(s, i) <= |s.mem|
    ensures s.nodes[i].next.Some? ==> Linked(s, s.nodes[i].next.value) && Room(s, s.nodes[i].next.value) < Room(s, i)
  {
    Parts(s);
    if s.nodes[i].next.Some? {
      NextLinked(s, i);
    }
    hide Inv;
  }

  lemma LeftBounds(s: State)
    requires Inv(s) && s.alloc != Unlocked
    ensures Linked(s, s.alloc.cur) && 1 <= AllocateLeft(s) <= 2 * |s.mem| + 6
  {
    Parts(s);
    RoomFacts(s, s.alloc.cur);
    hide Inv, Room;
  }

  /** The steps of a split follow each other. */
  lemma SplitAdvances(s: State, spurious: bool)
    requires Inv(s) && s.alloc != Unlocked && !Looking(s)
    ensures AllocateLeft(Next(s, AllocateStep(spurious))) < AllocateLeft(s)
  {
    Parts(s);
    assert Linked(s, s.alloc.cur);
    hide Inv;
  }

  lemma LookAdvances(s: State, spurious: bool)
    requires Inv(s) && Looking(s)
    ensures AllocateLeft(Next(s, AllocateStep(spurious))) < AllocateLeft(s)
  {
    LeftBounds(s);
    RoomFacts(s, s.alloc.cur);
    LookStep(s, spurious);
    AddressesStay(s, AllocateStep(spurious));
    assert forall i :: Linked(s, i) ==> Room(Next(s, AllocateStep(spurious)), i) == Room(s, i);
    hide Inv, Next, Linked, Room, PassesOver;
  }

  lemma OthersAdvanceNothing(s: State, l: Step)
    requires Inv(s) && s.alloc != Unlocked && !l.AllocateStep?
    ensures Next(s, l).alloc == s.alloc && AllocateLeft(Next(s, l)) == AllocateLeft(s)
  {
    LeftBounds(s);
    AddressesStay(s, l);
    hide Inv;
  }

  lemma AllocateAdvances(s: State, l: Step)
    requires Inv(s) && s.alloc != Unlocked
    ensures var q := Next(s, l);
            && 1 <= AllocateLeft(s) <= 2 * |s.mem| + 6
            && (if l.AllocateStep? then AllocateLeft(q) < AllocateLeft(s) else q.alloc == s.alloc && AllocateLeft(q) == AllocateLeft(s))
  {
    hide *;
    LeftBounds(s);
    if !l.AllocateStep? {
      OthersAdvanceNothing(s, l);
    } else if Looking(s) {
      LookAdvances(s, l.spurious);
    } else {
      SplitAdvances(s, l.spurious);
    }
  }

  /** A call of `allocate` is over after boundedly many steps of its own. */
  lemma {:induction false} AllocateEnds(s: State, ls: seq<Step>)
    requires Inv(s) && s.alloc != Unlocked && Held(s, ls)
    ensures OwnSteps(ls) <= AllocateLeft(s) <= 2 * |s.mem| + 6
    decreases |ls|
  {
    if ls == [] {
      AllocateAdvances(s, AllocateStep(false));
    } else {
      AllocateAdvances(s, ls[0]);
      StepKeeps(s, ls[0]);
      hide Inv, Next, AllocateLeft;
      if Next(s, ls[0]).alloc != Unlocked {
        AllocateEnds(Next(s, ls[0]), ls[1..]);
      } else {
        assert ls[1..] == [];
      }
    }
  }

  // free

  /** Thread `t` is in `free` before every step of the run. */
  predicate Walking(s: State, ls: seq<Step>, t: int)
    decreases |ls|
  {
    ls == [] || (t in s.freers && Walking(Next(s, ls[0]), ls[1..], t))
  }

  function StepsOf(ls: seq<Step>, t: int): nat {
    if ls == [] then 0 else (if ls[0] == FreeStep(t) then 1 else 0) + StepsOf(ls[1..], t)
  }

  /** How many steps a thread has left in `free`, at most: those of the walk, and those of the wipe if it is to come. */
  function FreeLeft(s: State, f: Freer): int {
    3 * Room(s, f.cur) + (if f.Advance? then 1 else 2)
    + if f.Zeroing? then f.size - f.done + 1 else if f.released || f.SetFree? then 0 else |s.mem| + 2
  }

  lemma FreeBounds(s: State, t: int)
    requires Inv(s) && t in s.freers
    ensures Linked(s, s.freers[t].cur) && 1 <= FreeLeft(s, s.freers[t]) <= 4 * |s.mem| + 4
    ensures s.freers[t].Zeroing? ==> s.freers[t].done <= s.freers[t].size == s.nodes[s.freers[t].cur].size <= |s.mem|
    ensures s.freers[t].Compare? && s.nodes[s.freers[t].cur].addr == s.freers[t].ptr ==> !s.freers[t].released
    ensures s.nodes[s.freers[t].cur].size <= |s.mem|
  {
    Parts(s);
    assert WalkOk(s, s.freers[t]);
    RoomFacts(s, s.freers[t].cur);
    hide Inv;
  }

  /** Where a thread's own step takes it. */
  lemma OwnStep(s: State, t: int)
    requires t in s.freers && s.freers[t].cur < |s.nodes|
    ensures var f, q := s.freers[t], Next(s, FreeStep(t));
            var c := s.nodes[f.cur];
            t in q.freers ==>
              var g := q.freers[t];
              match f
              case Compare(_, _, _, _) =>
                g.cur == f.cur && if c.addr == f.ptr then g.Zeroing? && g.size == c.size && g.done == 0 else g.Advance? && g.released == f.released
              case Zeroing(_, _, _, _, _, _) =>
                g.cur == f.cur && if f.done < f.size then g == f.(done := f.done + 1) else g.SetFree?
              case SetFree(_, _, _, _) => g.cur == f.cur && g.Advance? && g.released
              case Advance(_, _, _, _) => c.next == Some(g.cur) && g.Compare? && g.released == f.released
  {
  }

  lemma OthersStay(s: State, l: Step, t: int)
    requires t in s.freers && l != FreeStep(t)
    ensures t in Next(s, l).freers && Next(s, l).freers[t] == s.freers[t]
  {
  }

  lemma FreeAdvances(s: State, l: Step, t: int)
    requires Inv(s) && t in s.freers
    ensures var q := Next(s, l);
            if l == FreeStep(t) then t in q.freers ==> FreeLeft(q, q.freers[t]) < FreeLeft(s, s.freers[t])
            else t in q.freers && q.freers[t] == s.freers[t] && FreeLeft(q, q.freers[t]) == FreeLeft(s, s.freers[t])
  {
    FreeBounds(s, t);
    RoomFacts(s, s.freers[t].cur);
    AddressesStay(s, l);
    assert forall i :: Linked(s, i) ==> Room(Next(s, l), i) == Room(s, i);
    assert s.freers[t].cur < |s.nodes|;
    hide Inv, Next, Linked, Room;
    if l == FreeStep(t) {
      OwnStep(s, t);
    } else {
      OthersStay(s, l, t);
    }
  }

  /** A call of `free` is over after boundedly many steps of its own. */
  lemma {:induction false} FreeEnds(s: State, ls: seq<Step>, t: int)
    requires Inv(s) && t in s.freers && Walking(s, ls, t)
    ensures StepsOf(ls, t) <= FreeLeft(s, s.freers[t]) <= 4 * |s.mem| + 4
    decreases |ls|
  {
    FreeBounds(s, t);
    if ls != [] {
      FreeAdvances(s, ls[0], t);
      StepKeeps(s, ls[0]);
      AddressesStay(s, ls[0]);
      hide Inv, Next, FreeLeft;
      if t in Next(s, ls[0]).freers {
        FreeEnds(Next(s, ls[0]), ls[1..], t);
      } else {
        assert ls[1..] == [];
      }
    }
  }
}
