/** First fit under concurrency: what a locked `allocate` may say about the chunks it did not take, while clients
    write and other threads free, and the exchange of a flag may fail spuriously. */
module AllocatorFirstFit {
  import opened AllocatorConcurrent
  import opened AllocatorSafety
  import opened Mem
  import opened Wrappers
  import A = Allocator

  /** The lock holder is still looking. */
  predicate Looking(s: State) {
    s.alloc.Test? || s.alloc.Acquire?
  }

  /** In this step `allocate` leaves chunk `i` for the next one: it was taken or too small just then, or the
      exchange of its flag failed. */
  predicate PassesOver(s: State, l: Step, i: int) {
    && l.AllocateStep? && Looking(s) && s.alloc.cur == i && 0 <= i < |s.nodes|
    && if s.alloc.Test? then !(s.nodes[i].free && s.alloc.want <= s.nodes[i].size) else !s.nodes[i].free || l.spurious
  }

  /** At some step of the run chunk `i` was passed over. */
  predicate Passed(s: State, ls: seq<Step>, i: int)
    decreases |ls|
  {
    ls != [] && (PassesOver(s, ls[0], i) || Passed(Next(s, ls[0]), ls[1..], i))
  }

  /** A run in which the lock holder looks until, at the latest, the last step. */
  predicate LooksThrough(s: State, ls: seq<Step>)
    decreases |ls|
  {
    ls == [] || (Looking(s) && LooksThrough(Next(s, ls[0]), ls[1..]))
  }

  /** The same chunks, at the same addresses, in the same order. */
  ghost predicate SameChunks(s: State, q: State) {
    && |q.nodes| == |s.nodes| && |q.mem| == |s.mem|
    && forall i :: 0 <= i < |s.nodes| ==> q.nodes[i].addr == s.nodes[i].addr && q.nodes[i].size == s.nodes[i].size
  }

  /** While it looks, nobody changes the list. */
  lemma OthersKeepList(s: State, l: Step)
    requires Looking(s) && !l.AllocateStep?
    ensures SameChunks(s, Next(s, l)) && Next(s, l).alloc == s.alloc
  {
  }

  /** One step of the lock holder: it takes the chunk, tries to, or passes over it. */
  lemma LookStep(s: State, spurious: bool)
    requires Inv(s) && Looking(s)
    ensures s.alloc.cur < |s.nodes|
    ensures var q, c := Next(s, AllocateStep(spurious)), s.alloc.cur;
            && SameChunks(s, q)
            && (if PassesOver(s, AllocateStep(spurious), c) then
                  if s.nodes[c].next == None then q.alloc == Unlocked
                  else q.alloc == Test(s.alloc.want, s.nodes[c].next.value)
                else q.alloc == if s.alloc.Test? then Acquire(s.alloc.want, c) else Split(s.alloc.want, c))
  {
    Parts(s);
    assert Linked(s, s.alloc.cur);
  }

  /** The chunk after the current one is the lowest above it. */
  lemma NextIsLowest(s: State, i: int)
    requires Inv(s) && Looking(s) && Linked(s, i) && Linked(s, s.alloc.cur)
    requires s.nodes[s.alloc.cur].addr <= s.nodes[i].addr && i != s.alloc.cur
    ensures var c := s.nodes[s.alloc.cur];
            c.next.Some? && Linked(s, c.next.value) && c.addr < s.nodes[c.next.value].addr <= s.nodes[i].addr
  {
    Parts(s);
    NextOnList(s, s.alloc.cur, i);
  }

  /** Still looking, or done: with a chunk taken, or with the lock given back. */
  ghost predicate InSearch(s: State, want: nat) {
    s.alloc != Unlocked ==> (Looking(s) || s.alloc.Split?) && s.alloc.want == want && Linked(s, s.alloc.cur)
  }

  lemma StepInSearch(s: State, l: Step)
    requires Inv(s) && Looking(s)
    ensures Inv(Next(s, l)) && SameChunks(s, Next(s, l)) && InSearch(Next(s, l), s.alloc.want)
  {
    StepKeeps(s, l);
    Parts(Next(s, l));
    if l.AllocateStep? {
      LookStep(s, l.spurious);
    } else {
      OthersKeepList(s, l);
    }
    hide Inv, Next;
  }

  /** The search never changes the list, and ends with a chunk taken or with the lock given back. */
  lemma {:induction false} SearchKeeps(s: State, ls: seq<Step>)
    requires Inv(s) && Looking(s) && LooksThrough(s, ls)
    ensures Inv(Run(s, ls)) && SameChunks(s, Run(s, ls)) && InSearch(Run(s, ls), s.alloc.want)
    decreases |ls|
  {
    if ls == [] {
      Parts(s);
    } else {
      StepInSearch(s, ls[0]);
      hide Inv, Next, InSearch;
      if Looking(Next(s, ls[0])) {
        assert Next(s, ls[0]).alloc.want == s.alloc.want by {
          Wanted(Next(s, ls[0]), s.alloc.want);
        }
        SearchKeeps(Next(s, ls[0]), ls[1..]);
      } else {
        assert ls[1..] == [];
      }
    }
  }

  lemma Wanted(s: State, want: nat)
    requires InSearch(s, want) && Looking(s)
    ensures s.alloc.want == want
  {
  }

  /** The search has left address `a` behind. */
  predicate Beyond(s: State, a: nat) {
    s.alloc == Unlocked || (s.alloc.cur < |s.nodes| && a < s.nodes[s.alloc.cur].addr)
  }

  /** After a step that did not pass over chunk `i`, the search is still at or below it. */
  lemma StepStaysBelow(s: State, l: Step, i: int)
    requires Inv(s) && Looking(s) && Linked(s, i) && !Beyond(s, s.nodes[i].addr) && !PassesOver(s, l, i)
    ensures var s' := Next(s, l);
            Inv(s') && SameChunks(s, s') && !Beyond(s', s.nodes[i].addr) && (Looking(s') ==> Linked(s', i))
  {
    StepKeeps(s, l);
    Parts(s);
    assert Linked(s, s.alloc.cur);
    if l.AllocateStep? {
      LookStep(s, l.spurious);
      if i != s.alloc.cur {
        NextIsLowest(s, i);
      }
    } else {
      OthersKeepList(s, l);
    }
    hide Inv, Next;
  }

  /** A chunk at or above the current one is passed over before the search gets beyond it. */
  lemma {:induction false} SearchPasses(s: State, ls: seq<Step>, i: int)
    requires Inv(s) && Looking(s) && LooksThrough(s, ls) && Linked(s, i) && !Beyond(s, s.nodes[i].addr)
    ensures Beyond(Run(s, ls), s.nodes[i].addr) ==> Passed(s, ls, i)
    decreases |ls|
  {
    if ls != [] && !PassesOver(s, ls[0], i) {
      StepStaysBelow(s, ls[0], i);
      hide Inv, Next, Beyond, PassesOver;
      assert Next(s, ls[0]).nodes[i].addr == s.nodes[i].addr;
      if Looking(Next(s, ls[0])) {
        SearchPasses(Next(s, ls[0]), ls[1..], i);
      } else {
        assert ls[1..] == [] && Run(s, ls) == Run(Next(s, ls[0]), []);
      }
    }
  }

  /** First fit, whatever the other threads do: when `allocate` gives up, every chunk in the list was passed over since
      the call, because it was taken, too small, or its exchange failed; when it takes a chunk, that chunk is large
      enough and every chunk at a lower address was passed over. */
  lemma FirstFit(s: State, before: seq<Step>, n: nat, during: seq<Step>)
    requires Initial(s) && Enabled(Run(s, before), CallAllocate(n))
    requires LooksThrough(Next(Run(s, before), CallAllocate(n)), during)
    ensures var c := Next(Run(s, before), CallAllocate(n));
            var q := Run(c, during);
            && (q.alloc == Unlocked ==> forall i :: Linked(q, i) ==> Passed(c, during, i))
            && (q.alloc.Split? ==>
                  && q.alloc.cur < |q.nodes| && n <= A.Round(n) <= q.nodes[q.alloc.cur].size && !q.nodes[q.alloc.cur].free
                  && forall i :: Linked(q, i) && q.nodes[i].addr < q.nodes[q.alloc.cur].addr ==> Passed(c, during, i))
  {
    InitialInv(s);
    RunKeeps(s, before);
    var r := Run(s, before);
    var c := Next(r, CallAllocate(n));
    StepKeeps(r, CallAllocate(n));
    A.RoundUp(n);
    var q := Run(c, during);
    Parts(c);
    assert c.nodes[0].addr == 0;
    SearchKeeps(c, during);
    Parts(q);
    forall i | Linked(q, i) && Beyond(q, q.nodes[i].addr) ensures Passed(c, during, i) {
      assert Linked(c, i);
      SearchPasses(c, during, i);
    }
  }

  // The search ends

  /** The lock holder's own steps in a run. */
  function OwnSteps(ls: seq<Step>): nat {
    if ls == [] then 0 else (if ls[0].AllocateStep? then 1 else 0) + OwnSteps(ls[1..])
  }

  /** Twice the memory from the current chunk on, and one more before the test. */
  function Ahead(s: State): int {
    if s.alloc == Unlocked || s.alloc.cur >= |s.nodes| then 0
    else 2 * (|s.mem| - s.nodes[s.alloc.cur].addr) + if s.alloc.Test? then 1 else 0
  }

  lemma StepAdvances(s: State, l: Step)
    requires Inv(s) && Looking(s)
    ensures 1 <= Ahead(s) <= 2 * |s.mem| + 1
    ensures Ahead(Next(s, l)) <= Ahead(s)
    ensures l.AllocateStep? && Looking(Next(s, l)) ==> Ahead(Next(s, l)) < Ahead(s)
  {
    Parts(s);
    var cur := s.alloc.cur;
    assert Linked(s, cur);
    if l.AllocateStep? {
      LookStep(s, l.spurious);
      if s.nodes[cur].next.Some? {
        NextLinked(s, cur);
      }
    } else {
      OthersKeepList(s, l);
    }
    hide Inv, Next;
  }

  /** The search takes boundedly many steps of its own, however many steps others take in between. */
  lemma {:induction false} SearchEnds(s: State, ls: seq<Step>)
    requires Inv(s) && Looking(s) && LooksThrough(s, ls)
    ensures OwnSteps(ls) <= Ahead(s) <= 2 * |s.mem| + 1
    decreases |ls|
  {
    if ls == [] {
      StepAdvances(s, AllocateStep(false));
    } else {
      StepAdvances(s, ls[0]);
      StepKeeps(s, ls[0]);
      hide Inv, Next, Ahead;
      if Looking(Next(s, ls[0])) {
        SearchEnds(Next(s, ls[0]), ls[1..]);
      } else {
        assert ls[1..] == [];
      }
    }
  }
}
