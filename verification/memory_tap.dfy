/** `datatap/datataps/memory.py`: `MemoryDataTap`, a deque read from the front and written at the
    back, on top of the base DataTap. */
module MemoryTap {
  import opened Errors
  import opened Encoders
  import Fifo
  import opened BaseTap

  /** `MemoryDataTap(object_stream=None)`: the deque starts as a copy of the given items, or
      empty. The base class sets no mode. */
  function New<T>(objectStream: Option<seq<T>>): (tap: Tap<seq<T>>)
    ensures tap.mode == Unset
    ensures objectStream.Some? ==> tap.state == objectStream.value
    ensures objectStream.None? ==> tap.state == []
  {
    Tap(Unset, if objectStream.Some? then objectStream.value else [])
  }

  /** Pulling `n` items from the consumer generator of `get_raw_item_stream`. */
  function Read<T>(tap: Tap<seq<T>>, n: nat): (r: (seq<T>, Tap<seq<T>>))
    ensures r.0 + r.1.state == tap.state
    ensures |r.0| == if n <= |tap.state| then n else |tap.state|
    ensures r.1.mode == tap.mode
  {
    var (items, left) := Fifo.Take(tap.state, n);
    (items, Tap(tap.mode, left))
  }

  /** `get_raw_item_stream(filetap)` consumed to the end: `popleft` until the queue is empty, so
      the items come in queue order and the tap is left with an empty queue. */
  function RawItemStream<T, F>(tap: Tap<seq<T>>, filetap: F): (r: (seq<T>, Tap<seq<T>>))
    ensures r.0 == tap.state
    ensures r.1.state == [] && r.1.mode == tap.mode
  {
    var (items, left) := Fifo.Drain(tap.state);
    (items, Tap(tap.mode, left))
  }

  /** `get_item_stream(filetap)` iterated to the end: every queued item, standardized, in queue
      order, and the queue is left empty. */
  function ItemStream<T>(tap: Tap<seq<T>>): (r: (seq<SerializableObject<T>>, Tap<seq<T>>))
    ensures Payloads(r.0) == tap.state
    ensures forall i :: 0 <= i < |r.0| ==> r.0[i].files == []
    ensures r.1.state == [] && r.1.mode == tap.mode
  {
    var (items, left) := RawItemStream(tap, ());
    (BaseTap.ItemStream(items), left)
  }

  /** A second stream over a drained tap yields nothing. */
  lemma DrainedStreamIsEmpty<T>(tap: Tap<seq<T>>)
    ensures ItemStream(ItemStream(tap).1).0 == []
  {
  }

  /** `write_item(item)`: appends at the back and returns None. */
  function WriteItem<T>(tap: Tap<seq<T>>, item: T): (r: (Tap<seq<T>>, ()))
    ensures r.0.state == tap.state + [item]
    ensures r.0.mode == tap.mode
  {
    (Tap(tap.mode, tap.state + [item]), ())
  }

  /** `write_stream(items)` appends the items in order behind those already queued. */
  lemma {:induction false} WriteStreamAppends<T>(tap: Tap<seq<T>>, items: seq<T>)
    ensures WriteStream(tap, items, WriteItem).0.state == tap.state + items
    ensures WriteStream(tap, items, WriteItem).0.mode == tap.mode
    decreases |items|
  {
    if |items| > 0 {
      var next := WriteItem(tap, items[0]).0;
      WriteStreamAppends(next, items[1..]);
      assert next.state + items[1..] == tap.state + items;
    }
  }

  /** FIFO: items written are read after the items already queued, in write order. */
  lemma WrittenItemsFollowQueued<T>(tap: Tap<seq<T>>, items: seq<T>)
    ensures Payloads(ItemStream(WriteStream(tap, items, WriteItem).0).0) == tap.state + items
  {
    WriteStreamAppends(tap, items);
  }

  /** `memory._load(source)`: the source's standardized items end up queued behind the existing
      ones, `write_stream` returns one None per item, and the tap is left closed. */
  lemma LoadQueuesSource<P, T>(tap: Tap<seq<SerializableObject<T>>>, source: P,
                               rawStream: (P, Tap<seq<SerializableObject<T>>>) -> (seq<T>, P))
    ensures var r := Load(tap, source, rawStream, WriteItem);
            && r.destination.state == tap.state + Adapt(rawStream(source, Open(tap, "r")).0)
            && r.destination.mode == Mode(None)
            && |r.results| == |rawStream(source, Open(tap, "r")).0|
            && r.source == rawStream(source, Open(tap, "r")).1
  {
    WriteStreamAppends(Open(tap, "r"), Adapt(rawStream(source, Open(tap, "r")).0));
  }

  /** Loading one memory tap from another moves the items: the destination queues the source's
      items, standardized and in order, and the source's queue is left empty. */
  lemma LoadMovesBetweenMemoryTaps<T>(tap: Tap<seq<SerializableObject<T>>>, source: Tap<seq<T>>)
    ensures var r := Load(tap, source, RawItemStream<T, Tap<seq<SerializableObject<T>>>>, WriteItem);
            && |r.destination.state| == |tap.state| + |source.state|
            && Payloads(r.destination.state[|tap.state|..]) == source.state
            && r.destination.state[..|tap.state|] == tap.state
            && r.source.state == []
  {
    LoadQueuesSource(tap, source, RawItemStream<T, Tap<seq<SerializableObject<T>>>>);
    var moved := Adapt(source.state);
    AdaptRoundTrip(source.state);
    assert (tap.state + moved)[|tap.state|..] == moved;
    assert (tap.state + moved)[..|tap.state|] == tap.state;
  }
}
