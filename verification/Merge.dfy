/** The fair merger: two input streams into one, taking turns when both have something to send. */
module Merge {
  import opened Streams

  /** `pref` holds when the first stream goes first. */
  datatype State<T> = State(pref: bool, in0: seq<T>, in1: seq<T>)

  /** Something arrives on a stream, or the merger is called. */
  datatype Event<T> = Arrive0(x: T) | Arrive1(x: T) | Call

  datatype Side = Zero | One

  function Waiting<T>(s: State<T>, side: Side): seq<T> {
    if side == Zero then s.in0 else s.in1
  }

  /** A call that finds work serves this side. */
  function Served<T>(s: State<T>): Side {
    if s.pref then (if s.in0 != [] then Zero else One)
    else (if s.in1 != [] then One else Zero)
  }

  predicate Ready<T>(s: State<T>) {
    s.in0 != [] || s.in1 != []
  }

  /** After a call the other side is preferred; when the side served was not the preferred one, that is no change. */
  function Step<T>(s: State<T>): State<T>
    requires Ready(s)
  {
    if Served(s) == Zero then State(false, s.in0[1..], s.in1) else State(true, s.in0, s.in1[1..])
  }

  function Next<T>(s: State<T>, e: Event<T>): State<T> {
    match e
    case Arrive0(x) => s.(in0 := s.in0 + [x])
    case Arrive1(x) => s.(in1 := s.in1 + [x])
    case Call => if Ready(s) then Step(s) else s
  }

  function Run<T>(s: State<T>, es: seq<Event<T>>): State<T>
    decreases |es|
  {
    if es == [] then s else Run(Next(s, es[0]), es[1..])
  }

  /** What is written, and which stream each item came from. */
  function Output<T>(s: State<T>, es: seq<Event<T>>): seq<T>
    decreases |es|
  {
    if es == [] then []
    else (if es[0].Call? && Ready(s) then [Waiting(s, Served(s))[0]] else []) + Output(Next(s, es[0]), es[1..])
  }

  function Picks<T>(s: State<T>, es: seq<Event<T>>): seq<Side>
    decreases |es|
  {
    if es == [] then []
    else (if es[0].Call? && Ready(s) then [Served(s)] else []) + Picks(Next(s, es[0]), es[1..])
  }

  function Came<T>(e: Event<T>, side: Side): seq<T> {
    match e
    case Arrive0(x) => if side == Zero then [x] else []
    case Arrive1(x) => if side == One then [x] else []
    case Call => []
  }

  function Arrivals<T>(es: seq<Event<T>>, side: Side): seq<T> {
    if es == [] then [] else Came(es[0], side) + Arrivals(es[1..], side)
  }

  /** The items that came from one side. */
  function Only<T>(out: seq<T>, picks: seq<Side>, side: Side): seq<T>
    requires |out| == |picks|
  {
    if out == [] then [] else (if picks[0] == side then [out[0]] else []) + Only(out[1..], picks[1..], side)
  }

  lemma {:induction false} OneItemEach<T>(s: State<T>, es: seq<Event<T>>)
    ensures |Output(s, es)| == |Picks(s, es)|
    decreases |es|
  {
    if es != [] {
      OneItemEach(Next(s, es[0]), es[1..]);
    }
  }

  /** Nothing is lost, duplicated or reordered: what one side has sent, followed by what it still holds, is what it
      held at the start followed by what arrived on it. */
  lemma {:induction false} OrderKept<T>(s: State<T>, es: seq<Event<T>>, side: Side)
    ensures |Output(s, es)| == |Picks(s, es)|
    ensures Only(Output(s, es), Picks(s, es), side) + Waiting(Run(s, es), side) == Waiting(s, side) + Arrivals(es, side)
    decreases |es|
  {
    OneItemEach(s, es);
    if es != [] {
      var e, t, rest := es[0], Next(s, es[0]), es[1..];
      OrderKept(t, rest, side);
      var out, picks, left := Output(t, rest), Picks(t, rest), Waiting(Run(s, es), side);
      var came := Came(e, side);
      assert Arrivals(es, side) == came + Arrivals(rest, side);
      if e.Call? && Ready(s) {
        CallKeepsOrder(s, side, out, picks);
        assert came == [];
        hide Output, Picks, Only, Arrivals, Run;
        var first := if Served(s) == side then [Waiting(s, Served(s))[0]] else [];
        Reassociate(first, Only(out, picks, side), left, Waiting(t, side), Arrivals(rest, side));
      } else {
        assert Output(s, es) == out && Picks(s, es) == picks;
        assert Waiting(t, side) == Waiting(s, side) + came;
        hide Output, Picks, Only, Arrivals, Run;
      }
    }
  }

  lemma Reassociate<T>(first: seq<T>, out: seq<T>, left: seq<T>, had: seq<T>, came: seq<T>)
    requires out + left == had + came
    ensures (first + out) + left == (first + had) + came
  {
    assert (first + out) + left == first + (out + left);
  }

  lemma CallKeepsOrder<T>(s: State<T>, side: Side, out: seq<T>, picks: seq<Side>)
    requires Ready(s) && |out| == |picks|
    ensures var x := Waiting(s, Served(s))[0];
            && Only([x] + out, [Served(s)] + picks, side) == (if Served(s) == side then [x] else []) + Only(out, picks, side)
            && (if Served(s) == side then [x] else []) + Waiting(Step(s), side) == Waiting(s, side)
  {
    var x := Waiting(s, Served(s))[0];
    assert ([x] + out)[1..] == out && ([Served(s)] + picks)[1..] == picks;
  }

  /** However calls and arrivals interleave, an item at the head of its stream sees at most one item of the other
      stream go first, and none when its stream is the preferred one. */
  lemma {:induction false} OvertakenOnce<T>(s: State<T>, es: seq<Event<T>>, side: Side)
    requires Waiting(s, side) != []
    ensures var picks := Picks(s, es);
            && (picks != [] && s.pref == (side == Zero) ==> picks[0] == side)
            && (|picks| >= 2 ==> picks[0] == side || picks[1] == side)
    decreases |es|
  {
    if es != [] {
      TurnPasses(s, side);
      if !(es[0].Call? && Ready(s)) {
        assert Picks(s, es) == Picks(Next(s, es[0]), es[1..]);
        OvertakenOnce(Next(s, es[0]), es[1..], side);
      } else {
        assert Picks(s, es) == [Served(s)] + Picks(Step(s), es[1..]);
        if Served(s) != side {
          OvertakenOnce(Step(s), es[1..], side);
        }
      }
    }
  }

  /** A call serves a waiting side unless it is the other side's turn; then it is this side's turn next. */
  lemma TurnPasses<T>(s: State<T>, side: Side)
    requires Waiting(s, side) != []
    ensures Served(s) != side ==> s.pref != (side == Zero) && Step(s).pref == (side == Zero) && Waiting(Step(s), side) != []
  {
  }

  /** No stream is served twice in a row while the other waits at the second call. */
  lemma TakesTurns<T>(s: State<T>, between: seq<Event<T>>)
    requires Ready(s) && Picks(Step(s), between) == []
    ensures var (side, q) := (Served(s), Run(Step(s), between));
            Waiting(q, if side == Zero then One else Zero) != [] ==> Served(q) != side
  {
    PreferenceStays(Step(s), between);
  }

  /** Only a call that serves moves the preference. */
  lemma {:induction false} PreferenceStays<T>(s: State<T>, es: seq<Event<T>>)
    requires Picks(s, es) == []
    ensures Run(s, es).pref == s.pref
    decreases |es|
  {
    if es != [] {
      assert !(es[0].Call? && Ready(s));
      assert Picks(Next(s, es[0]), es[1..]) == [];
      PreferenceStays(Next(s, es[0]), es[1..]);
    }
  }

  /** A call writes an item exactly when one is waiting. */
  lemma {:induction false} CallsWork<T>(s: State<T>, n: nat)
    ensures |Output(s, Calls(n))| == if n <= |s.in0| + |s.in1| then n else |s.in0| + |s.in1|
    decreases n
  {
    if n > 0 {
      assert Calls<T>(n)[1..] == Calls<T>(n - 1);
      CallsWork(Next(s, Call), n - 1);
    }
  }

  function Calls<T>(n: nat): seq<Event<T>> {
    seq(n, i => Call)
  }

  class FairMerger<T> {
    var mergePref: bool

    constructor ()
      ensures mergePref
    {
      mergePref := true;
    }

    method Call(in0: Stream<T>, in1: Stream<T>, out: Stream<T>)
      requires in0 != in1 && in0 != out && in1 != out
      modifies this, in0, in1, out
      ensures var s := old(State(mergePref, in0.items, in1.items));
              var q := State(mergePref, in0.items, in1.items);
              if Ready(s) then q == Step(s) && out.items == old(out.items) + [Waiting(s, Served(s))[0]]
              else q == s && out.items == old(out.items)
    {
      if mergePref {
        if in0.items != [] {
          var x := in0.Read();
          out.Write(x);
          mergePref := false;
        } else if in1.items != [] {
          var x := in1.Read();
          out.Write(x);
        }
      } else {
        if in1.items != [] {
          var x := in1.Read();
          out.Write(x);
          mergePref := true;
        } else if in0.items != [] {
          var x := in0.Read();
          out.Write(x);
        }
      }
    }
  }
}
