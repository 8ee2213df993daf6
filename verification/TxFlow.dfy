/** What the transmit interface does for its neighbours: when words move, and that they all do with a source that never
    gives up and a MAC that is always ready. */
module TxFlow {
  import opened Axis
  import opened TxInterface
  import opened Wrappers

  lemma {:induction false} DepthsStay(s: State, cs: seq<Cycle>)
    ensures Reached(s, cs).depth == s.depth && Reached(s, cs).tokenDepth == s.tokenDepth
  {
    if cs != [] {
      DepthsStay(s, cs[..|cs| - 1]);
    }
  }

  /** A word is taken in exactly when one is offered and neither queue is full; one is sent, the oldest in the data
      queue, exactly when there is one, the push flag is up and the MAC is ready. */
  lemma {:induction false} HandshakesExact(depth: nat, tokenDepth: nat, cs: seq<Cycle>, c: Cycle)
    ensures var s := Reset(depth, tokenDepth);
            var q := Reached(s, cs);
            && Taken(s, cs + [c])
               == Taken(s, cs) + (if c.offer.Some? && q.tokens < tokenDepth && |q.data| < depth then [c.offer.value] else [])
            && Sent(s, cs + [c]) == Sent(s, cs) + (if q.data != [] && q.pkgPush && c.ready then [q.data[0]] else [])
  {
    var all := cs + [c];
    assert all[..|all| - 1] == cs;
    DepthsStay(Reset(depth, tokenDepth), cs);
  }

  /** `n` cycles with the MAC ready, in which the source offers its next word until it is taken. */
  function Feed(s: State, ws: seq<Word>, n: nat): seq<Cycle> {
    if n == 0 then []
    else Feed(s, ws, n - 1) + [Offer(ws, |Taken(s, Feed(s, ws, n - 1))|)]
  }

  /** The source offers its next word, if it has one, and the MAC is ready. */
  function Offer(ws: seq<Word>, done: nat): Cycle {
    Cycle(if done < |ws| then Some(ws[done]) else None, true)
  }

  /** The words are whole frames of two words up to `depth`. */
  predicate FittingFrames(ws: seq<Word>, depth: nat) {
    && (ws != [] ==> ws[|ws| - 1].last)
    && NoShortFrame(ws)
    && forall i :: 0 <= i <= |ws| - depth ==> LastWithin(ws, i, depth)
  }

  /** The words not taken yet, and the work on those that are: no more cycles than this are left. */
  function FeedWork(s: State, left: nat): nat {
    7 * left + Work(s)
  }

  lemma MissedPrefix(t: seq<Word>, ws: seq<Word>)
    requires t <= ws && NoShortFrame(ws)
    ensures Missed(t) == 0
  {
    MissedNone(t);
    forall i | 0 <= i < |t| ensures !ShortFrameAt(t, i) {
      assert !ShortFrameAt(ws, i);
    }
  }

  /** While words are left, or frames in the queue, each cycle with a persistent source does some work. */
  lemma FeedAdvances(s: State, c: Cycle, ws: seq<Word>, taken: seq<Word>, sent: seq<Word>)
    requires Inv(s, taken, sent) && s.depth > 0 && taken <= ws && FittingFrames(ws, s.depth)
    requires c == Offer(ws, |taken|)
    ensures var left := |ws| - |taken|;
            if TakesWord(s, c) then left > 0 && FeedWork(Clock(s, c), left - 1) < FeedWork(s, left)
            else if Promised(s) > 0 then FeedWork(Clock(s, c), left) < FeedWork(s, left)
            else left == 0 && s.data == [] && Clock(s, c) == s
  {
    PushHasFrame(s, taken, sent);
    MissedPrefix(taken, ws);
    EndsAlike(taken, sent, s.data);
    if TakesWord(s, c) {
      TakeWork(s, c);
    } else if Promised(s) > 0 {
      WorkDone(s, taken, sent);
      assert Clock(s, c) == Clock(s, Cycle(None, true));
    } else {
      IdleStays(s, c, taken, sent);
      LastsZero(s.data);
      if |s.data| == s.depth {
        FullHasLast(s, ws, taken, sent);
      }
    }
  }

  lemma EndsAlike(taken: seq<Word>, sent: seq<Word>, data: seq<Word>)
    requires sent + data == taken
    ensures data != [] ==> taken != [] && taken[|taken| - 1] == data[|data| - 1]
  {
  }

  lemma TakeWork(s: State, c: Cycle)
    requires Control(s) && TakesWord(s, c) && c.ready && (s.rd == Push ==> s.data != [])
    ensures Work(Clock(s, c)) <= Work(s) + 5
  {
  }

  lemma FullHasLast(s: State, ws: seq<Word>, taken: seq<Word>, sent: seq<Word>)
    requires s.depth > 0 && sent + s.data == taken <= ws && |s.data| == s.depth && FittingFrames(ws, s.depth)
    ensures Lasts(s.data) > 0
  {
    var i := |sent|;
    assert LastWithin(ws, i, s.depth);
    var j :| i <= j < i + s.depth && 0 <= j < |ws| && ws[j].last;
    assert taken[j] == ws[j] && s.data[j - i] == taken[j];
    LastsZero(s.data);
  }

  /** Everything has been taken and sent. */
  predicate AllSent(ws: seq<Word>, taken: seq<Word>, sent: seq<Word>) {
    taken == ws && sent == ws
  }

  /** All is sent, or at most `room` cycles' work is left. */
  predicate OnTrack(ws: seq<Word>, taken: seq<Word>, sent: seq<Word>, q: State, room: int) {
    taken <= ws && (AllSent(ws, taken, sent) || FeedWork(q, |ws| - |taken|) <= room)
  }

  lemma {:induction false} FeedNext(q: State, c: Cycle, ws: seq<Word>, taken: seq<Word>, sent: seq<Word>, room: int)
    requires Inv(q, taken, sent) && q.depth > 0 && FittingFrames(ws, q.depth)
    requires c == Offer(ws, |taken|) && OnTrack(ws, taken, sent, q, room + 1)
    ensures OnTrack(ws, taken + (if TakesWord(q, c) then [c.offer.value] else []),
                    sent + (if SendsWord(q, c) then [q.data[0]] else []), Clock(q, c), room)
  {
    FeedAdvances(q, c, ws, taken, sent);
    SentAll(q, taken, sent);
    FeedTakes(q, c, ws, taken);
    PushHasFrame(q, taken, sent);
    if AllSent(ws, taken, sent) {
      assert q.data == [];
    }
    hide Inv, Clock, FeedWork, FittingFrames, Promised, TakesWord;
  }

  lemma {:induction false} FeedRuns(depth: nat, tokenDepth: nat, ws: seq<Word>, n: nat)
    requires tokenDepth > 0 && depth > 0 && FittingFrames(ws, depth)
    ensures var (s, cs) := (Reset(depth, tokenDepth), Feed(Reset(depth, tokenDepth), ws, n));
            OnTrack(ws, Taken(s, cs), Sent(s, cs), Reached(s, cs), 7 * |ws| + 2 - n)
    decreases n
  {
    hide *;
    var s := Reset(depth, tokenDepth);
    if n == 0 {
      FeedStart(depth, tokenDepth, ws);
    } else {
      var cs := Feed(s, ws, n - 1);
      FeedRuns(depth, tokenDepth, ws, n - 1);
      RunKeeps(depth, tokenDepth, cs);
      FeedStep(s, ws, n);
      FeedNext(Reached(s, cs), Offer(ws, |Taken(s, cs)|), ws, Taken(s, cs), Sent(s, cs), 7 * |ws| + 2 - n);
    }
  }

  lemma {:induction false} FeedStart(depth: nat, tokenDepth: nat, ws: seq<Word>)
    ensures var s := Reset(depth, tokenDepth);
            var cs := Feed(s, ws, 0);
            OnTrack(ws, Taken(s, cs), Sent(s, cs), Reached(s, cs), 7 * |ws| + 2)
  {
  }

  lemma {:induction false} FeedStep(s: State, ws: seq<Word>, n: nat)
    requires n > 0
    ensures var before := Feed(s, ws, n - 1);
            var taken := Taken(s, before);
            var c := Offer(ws, |taken|);
            var (q, cs) := (Reached(s, before), Feed(s, ws, n));
            && Reached(s, cs) == Clock(q, c)
            && Taken(s, cs) == taken + (if TakesWord(q, c) then [c.offer.value] else [])
            && Sent(s, cs) == Sent(s, before) + (if SendsWord(q, c) then [q.data[0]] else [])
  {
    var before, all := Feed(s, ws, n - 1), Feed(s, ws, n);
    assert all[..|all| - 1] == before;
  }

  lemma FeedTakes(q: State, c: Cycle, ws: seq<Word>, taken: seq<Word>)
    requires taken <= ws && c == Offer(ws, |taken|)
    ensures taken + (if TakesWord(q, c) then [c.offer.value] else []) <= ws
  {
  }

  lemma SentAll(q: State, taken: seq<Word>, sent: seq<Word>)
    requires Inv(q, taken, sent)
    ensures q.data == [] ==> sent == taken
    ensures sent == taken ==> forall c :: !SendsWord(q, c)
  {
  }

  /** With a persistent source and a MAC that is ready, every frame of two words up to the depth of the data queue is taken
      in and sent, word for word and in order, within seven cycles a word and two more. */
  lemma {:induction false} StoreAndForward(depth: nat, tokenDepth: nat, ws: seq<Word>, n: nat)
    requires tokenDepth > 0 && depth > 0 && FittingFrames(ws, depth) && n > 7 * |ws| + 2
    ensures var (s, cs) := (Reset(depth, tokenDepth), Feed(Reset(depth, tokenDepth), ws, n));
            Taken(s, cs) == ws && Sent(s, cs) == ws && |cs| == n
  {
    FeedRuns(depth, tokenDepth, ws, n);
    FeedLength(Reset(depth, tokenDepth), ws, n);
  }

  lemma {:induction false} FeedLength(s: State, ws: seq<Word>, n: nat)
    ensures |Feed(s, ws, n)| == n
  {
    if n > 0 {
      FeedLength(s, ws, n - 1);
    }
  }
}
