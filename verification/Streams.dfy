/** An HLS stream: an unbounded first-in first-out queue that is read and written in place. */
module Streams {
  class Stream<T> {
    var items: seq<T>

    constructor ()
      ensures items == []
    {
      items := [];
    }

    method Read() returns (x: T)
      requires items != []
      modifies this
      ensures old(items) == [x] + items
    {
      x := items[0];
      items := items[1..];
    }

    method Write(x: T)
      modifies this
      ensures items == old(items) + [x]
    {
      items := items + [x];
    }
  }
}
