/** The pop-from-the-front queue behind both in-memory taps: the reader pops the first item while
    the queue is non-empty, and writes append at the back. */
module Fifo {
  import opened Errors

  /** One step of the reading generator: the front item and the queue left behind, or None when
      the queue is empty and the generator stops. */
  function Pop<T>(queue: seq<T>): (r: Option<(T, seq<T>)>)
    ensures r.None? <==> |queue| == 0
    ensures r.Some? ==> [r.value.0] + r.value.1 == queue
  {
    if |queue| == 0 then None else Some((queue[0], queue[1..]))
  }

  /** Pulls up to `n` items from the generator: the items yielded and the queue left behind. */
  function Take<T>(queue: seq<T>, n: nat): (r: (seq<T>, seq<T>))
    ensures r.0 + r.1 == queue
    ensures |r.0| == if n <= |queue| then n else |queue|
    decreases n
  {
    if n == 0 then ([], queue)
    else
      match Pop(queue)
      case None => ([], queue)
      case Some((item, rest)) =>
        var (more, left) := Take(rest, n - 1);
        ([item] + more, left)
  }

  /** Runs the generator to exhaustion: everything is yielded once, in order, and nothing stays. */
  function Drain<T>(queue: seq<T>): (r: (seq<T>, seq<T>))
    ensures r.0 == queue
    ensures r.1 == []
    decreases |queue|
  {
    match Pop(queue)
    case None => ([], queue)
    case Some((item, rest)) =>
      var (more, left) := Drain(rest);
      ([item] + more, left)
  }

  /** Reading part of the queue and then draining the rest yields every stored item exactly once,
      in stored order. */
  lemma PartialThenDrain<T>(queue: seq<T>, n: nat)
    ensures Take(queue, n).0 + Drain(Take(queue, n).1).0 == queue
    ensures Drain(Take(queue, n).1).1 == []
  {
  }

  /** A queue written to after a partial read still yields the unread items before the new one. */
  lemma WriteAfterPartialRead<T>(queue: seq<T>, n: nat, item: T)
    requires n <= |queue|
    ensures Drain(Take(queue, n).1 + [item]).0 == queue[n..] + [item]
  {
    var (read, left) := Take(queue, n);
    assert left == queue[n..];
  }
}
