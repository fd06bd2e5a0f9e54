/** `datatap/datataps/base.py`: the DataTap base class, with `write_stream` collecting one
    `write_item` result per item, the default `write_item` handing each attachment to
    `write_file`, the open/close `mode` lifecycle, and `_store`/`_load`. */
module BaseTap {
  import opened Errors
  import opened Encoders

  /** `self.mode`: the base class has no constructor, so the attribute is absent until the first
      `open`; afterwards it is the mode last opened with, or None after `close`. */
  datatype ModeAttr = Unset | Mode(current: Option<string>)

  /** A tap: the base class's `mode` plus the state `Q` a subclass keeps. */
  datatype Tap<Q> = Tap(mode: ModeAttr, state: Q)

  /** `open(mode, for_datatap)`: the base class ignores `for_datatap`. The Python default
      `mode='r'` is not kept; every caller here passes the mode. */
  function Open<Q>(tap: Tap<Q>, mode: string): (r: Tap<Q>)
    ensures r.mode == Mode(Some(mode)) && r.state == tap.state
  {
    Tap(Mode(Some(mode)), tap.state)
  }

  function Close<Q>(tap: Tap<Q>): (r: Tap<Q>)
    ensures r.mode == Mode(None) && r.state == tap.state
  {
    Tap(Mode(None), tap.state)
  }

  /** `write_stream(instream)`: `write_item` on each item in turn, threading the tap through the
      calls, collecting the results. */
  function WriteStream<S, I, R>(tap: S, instream: seq<I>, writeItem: (S, I) -> (S, R)): (r: (S, seq<R>))
    ensures |r.1| == |instream|
    decreases |instream|
  {
    if |instream| == 0 then (tap, [])
    else
      var (next, first) := writeItem(tap, instream[0]);
      var (last, rest) := WriteStream(next, instream[1..], writeItem);
      (last, [first] + rest)
  }

  /** Writing a stream in two pieces is writing the first piece, then the second from where the
      first left the tap. */
  lemma {:induction false} WriteStreamAppend<S, I, R>(tap: S, a: seq<I>, b: seq<I>, writeItem: (S, I) -> (S, R))
    ensures WriteStream(tap, a + b, writeItem).0
            == WriteStream(WriteStream(tap, a, writeItem).0, b, writeItem).0
    ensures WriteStream(tap, a + b, writeItem).1
            == WriteStream(tap, a, writeItem).1 + WriteStream(WriteStream(tap, a, writeItem).0, b, writeItem).1
    decreases |a|
  {
    if |a| == 0 {
      assert a + b == b;
    } else {
      assert (a + b)[0] == a[0];
      assert (a + b)[1..] == a[1..] + b;
      var step := writeItem(tap, a[0]);
      WriteStreamAppend(step.0, a[1..], b, writeItem);
      var whole := WriteStream(step.0, a[1..] + b, writeItem);
      assert WriteStream(tap, a + b, writeItem) == (whole.0, [step.1] + whole.1);
      var first := WriteStream(step.0, a[1..], writeItem);
      assert WriteStream(tap, a, writeItem) == (first.0, [step.1] + first.1);
      var second := WriteStream(first.0, b, writeItem);
      assert [step.1] + (first.1 + second.1) == ([step.1] + first.1) + second.1;
    }
  }

  /** The k-th result is `write_item` applied to the k-th item, on the tap as the first k calls
      left it: one call per item, in input order. */
  lemma WriteStreamResult<S, I, R>(tap: S, instream: seq<I>, writeItem: (S, I) -> (S, R), k: nat)
    requires k < |instream|
    ensures WriteStream(tap, instream, writeItem).1[k]
            == writeItem(WriteStream(tap, instream[..k], writeItem).0, instream[k]).1
  {
    var before := instream[..k];
    var after := instream[k..];
    assert instream == before + after;
    WriteStreamAppend(tap, before, after, writeItem);
    assert after[0] == instream[k];
  }

  /** A `write_item` that leaves the tap alone makes `write_stream` a plain map. */
  lemma {:induction false} StatelessWriteStream<S, I, R>(tap: S, instream: seq<I>, writeItem: (S, I) -> (S, R))
    requires forall i :: 0 <= i < |instream| ==> writeItem(tap, instream[i]).0 == tap
    ensures WriteStream(tap, instream, writeItem).0 == tap
    ensures forall k :: 0 <= k < |instream| ==>
              WriteStream(tap, instream, writeItem).1[k] == writeItem(tap, instream[k]).1
    decreases |instream|
  {
    if |instream| > 0 {
      assert writeItem(tap, instream[0]).0 == tap;
      assert forall i :: 0 <= i < |instream[1..]| ==> instream[1..][i] == instream[i + 1];
      StatelessWriteStream(tap, instream[1..], writeItem);
    }
  }

  /** A call of the overridable `write_file(file_obj, path)` hook. */
  datatype FileWrite = FileWrite(fileObj: FileObj, path: string)

  /** The default `write_item`: the `write_file` calls it makes, one per attachment in the
      dictionary's order, and its result, the item's data. */
  function DefaultWriteItem<D>(item: SerializableObject<D>): (r: (seq<FileWrite>, D))
    ensures |r.0| == |item.files|
    ensures forall i :: 0 <= i < |item.files| ==> r.0[i] == FileWrite(item.files[i].1, item.files[i].0)
    ensures r.1 == item.data
  {
    (FileWriteCalls(item.files), item.data)
  }

  function FileWriteCalls(files: seq<(string, FileObj)>): (calls: seq<FileWrite>)
    ensures |calls| == |files|
    ensures forall i :: 0 <= i < |files| ==> calls[i] == FileWrite(files[i].1, files[i].0)
  {
    if |files| == 0 then [] else [FileWrite(files[0].1, files[0].0)] + FileWriteCalls(files[1..])
  }

  /** The default `write_file` and `read_file`: both return None. */
  function DefaultWriteFile(fileObj: FileObj, path: string): (r: Option<string>)
    ensures r.None?
  {
    None
  }

  function DefaultReadFile(path: string): (r: Option<FileObj>)
    ensures r.None?
  {
    None
  }

  /** The default `write_item` as a step of `write_stream` on a base tap whose state is the log of
      `write_file` calls made so far. */
  function LoggedWriteItem<D>(log: seq<FileWrite>, item: SerializableObject<D>): (seq<FileWrite>, D)
  {
    var (calls, data) := DefaultWriteItem(item);
    (log + calls, data)
  }

  /** All `write_file` calls of a stream, item by item. */
  function AllFileWrites<D>(items: seq<SerializableObject<D>>): seq<FileWrite>
  {
    if |items| == 0 then [] else FileWriteCalls(items[0].files) + AllFileWrites(items[1..])
  }

  /** Writing a stream into a base tap returns each item's data, in order, and issues the
      attachments' `write_file` calls item after item. */
  lemma {:induction false} DefaultWriteStream<D>(log: seq<FileWrite>, items: seq<SerializableObject<D>>)
    ensures WriteStream(log, items, LoggedWriteItem).1 == Payloads(items)
    ensures WriteStream(log, items, LoggedWriteItem).0 == log + AllFileWrites(items)
    decreases |items|
  {
    if |items| > 0 {
      var next := log + FileWriteCalls(items[0].files);
      DefaultWriteStream(next, items[1..]);
      assert next + AllFileWrites(items[1..]) == log + AllFileWrites(items);
    }
  }

  /** The default `get_raw_item_stream(filetap)`: an empty list, the source left as it was. */
  function DefaultRawItemStream<P, F, T>(source: P, filetap: F): (r: (seq<T>, P))
    ensures |r.0| == 0 && r.1 == source
  {
    ([], source)
  }

  /** `get_item_stream(filetap)`: the adaptor over the raw stream. */
  function ItemStream<T>(raw: seq<T>): (items: seq<SerializableObject<T>>)
    ensures Payloads(items) == raw
    ensures |items| == |raw| && forall k :: 0 <= k < |items| ==> items[k].files == []
  {
    AdaptRoundTrip(raw);
    Adapt(raw)
  }

  /** With the default raw stream, the item stream yields nothing. */
  lemma DefaultItemStreamEmpty<P, F, T>(source: P, filetap: F)
    ensures ItemStream(DefaultRawItemStream<P, F, T>(source, filetap).0) == []
  {
  }

  /** `get_filetap()`: a tap stores its files itself. */
  function GetFiletap<Q>(tap: Tap<Q>): (filetap: Tap<Q>)
    ensures filetap == tap
  {
    tap
  }

  /** What `_store` and `_load` leave behind: the destination tap, what its `write_stream`
      returned, and the source as iterating its raw item stream left it (a memory source, for
      one, is drained). */
  datatype Transfer<D, R, P> = Transfer(destination: D, results: seq<R>, source: P)

  /** `source._store(destination)`: the destination's `write_stream` over the source's item
      stream, whose raw stream is produced for the destination's filetap. `rawStream` yields the
      source's raw items, consumed to the end, together with the source as that leaves it. */
  function Store<P, Q, T, R>(source: P, rawStream: (P, Tap<Q>) -> (seq<T>, P), destination: Tap<Q>,
                             writeItem: (Tap<Q>, SerializableObject<T>) -> (Tap<Q>, R)): (r: Transfer<Tap<Q>, R, P>)
    ensures r.source == rawStream(source, destination).1
    ensures r.destination == WriteStream(destination, Adapt(rawStream(source, destination).0), writeItem).0
    ensures |r.results| == |rawStream(source, destination).0|
    ensures forall k :: 0 <= k < |r.results| ==>
              r.results[k] == writeItem(WriteStream(destination, Adapt(rawStream(source, destination).0)[..k], writeItem).0,
                                        Transform(rawStream(source, destination).0[k])).1
  {
    var (raw, drained) := rawStream(source, GetFiletap(destination));
    var items := ItemStream(raw);
    forall k | 0 <= k < |items|
      ensures WriteStream(destination, items, writeItem).1[k]
              == writeItem(WriteStream(destination, items[..k], writeItem).0, items[k]).1
    {
      WriteStreamResult(destination, items, writeItem, k);
    }
    var (written, results) := WriteStream(destination, items, writeItem);
    Transfer(written, results, drained)
  }

  /** `destination._load(source)`: open the destination for 'r', store the source into it,
      close it, and return what `write_stream` returned. */
  function Load<P, Q, T, R>(destination: Tap<Q>, source: P, rawStream: (P, Tap<Q>) -> (seq<T>, P),
                            writeItem: (Tap<Q>, SerializableObject<T>) -> (Tap<Q>, R)): (r: Transfer<Tap<Q>, R, P>)
    ensures r.destination.mode == Mode(None)
    ensures var stored := Store(source, rawStream, Open(destination, "r"), writeItem);
            && r.results == stored.results
            && r.source == stored.source
            && r.destination.state == stored.destination.state
  {
    var reading := Open(destination, "r");
    var (raw, drained) := rawStream(source, GetFiletap(reading));
    var (written, results) := WriteStream(reading, ItemStream(raw), writeItem);
    Transfer(Close(written), results, drained)
  }
}
