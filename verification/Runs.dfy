/** What a stage does when it is called until it finds no more work: the words it sends, and the state it is left in. */
module Runs {
  import opened Axis

  /** One call: the new state, the words still unread, and the words sent. */
  datatype Fired<+S> = Fired(s: S, data: seq<Word>, out: seq<Word>)

  datatype Outcome<+S> = Outcome(out: seq<Word>, s: S)

  function Prepend<S>(out: seq<Word>, o: Outcome<S>): Outcome<S> {
    o.(out := out + o.out)
  }

  lemma PrependConcat<S>(a: seq<Word>, b: seq<Word>, o: Outcome<S>)
    ensures Prepend(a, Prepend(b, o)) == Prepend(a + b, o)
  {
    assert a + (b + o.out) == (a + b) + o.out;
  }
}
