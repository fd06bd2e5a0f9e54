/** `datatap/datataps.py`, the older single-module version (shadowed by the `datatap/datataps/`
    package): a DataTap whose open/close do nothing and whose `write_item` echoes the item, a
    list-backed `MemoryDataTap`, and the field preparation of `ResourceIteratorAdaptor`. */
module LegacyTaps {
  import opened Errors
  import opened Encoders
  import Fifo
  import BaseTap

  /** The old default `write_item`: the tap is untouched and the item comes back unchanged.
      (`write_stream` is textually the same loop as in base.py, so `BaseTap.WriteStream` is
      reused for it.) */
  function DefaultWriteItem<S, I>(tap: S, item: I): (r: (S, I))
    ensures r.0 == tap && r.1 == item
  {
    (tap, item)
  }

  /** With the old defaults, `write_stream` returns its input stream as a list, unchanged and in
      order, and leaves the tap alone. */
  lemma DefaultWriteStreamEchoes<S, I>(tap: S, items: seq<I>)
    ensures BaseTap.WriteStream(tap, items, DefaultWriteItem).1 == items
    ensures BaseTap.WriteStream(tap, items, DefaultWriteItem).0 == tap
  {
    BaseTap.StatelessWriteStream(tap, items, DefaultWriteItem);
  }

  /** The old `_load(source)`: `open('r')` and `close()` are no-ops here, so loading is
      `write_stream` over the source's standardized items (`get_item_stream()` takes no filetap).
      `rawStream` yields the source's raw items, consumed to the end, with the source as that
      leaves it. */
  function Load<S, P, T, R>(destination: S, source: P, rawStream: P -> (seq<T>, P),
                            writeItem: (S, SerializableObject<T>) -> (S, R)): (r: BaseTap.Transfer<S, R, P>)
    ensures r.source == rawStream(source).1
    ensures r.destination == BaseTap.WriteStream(destination, Adapt(rawStream(source).0), writeItem).0
    ensures |r.results| == |rawStream(source).0|
    ensures forall k :: 0 <= k < |r.results| ==>
              r.results[k] == writeItem(BaseTap.WriteStream(destination, Adapt(rawStream(source).0)[..k], writeItem).0,
                                        Transform(rawStream(source).0[k])).1
  {
    var (raw, drained) := rawStream(source);
    var items := Adapt(raw);
    forall k | 0 <= k < |raw|
      ensures BaseTap.WriteStream(destination, items, writeItem).1[k]
              == writeItem(BaseTap.WriteStream(destination, items[..k], writeItem).0, items[k]).1
    {
      BaseTap.WriteStreamResult(destination, items, writeItem, k);
    }
    var (written, results) := BaseTap.WriteStream(destination, items, writeItem);
    BaseTap.Transfer(written, results, drained)
  }

  /** The old default `get_raw_item_stream()`: an empty list, the source left as it was. */
  function DefaultRawItemStream<P, T>(source: P): (r: (seq<T>, P))
    ensures |r.0| == 0 && r.1 == source
  {
    ([], source)
  }

  /** A source with the old default (empty) raw stream loads nothing and is left as it was. */
  lemma LoadFromDefaultSource<S, P, R>(destination: S, source: P, writeItem: (S, SerializableObject<R>) -> (S, R))
    ensures Load(destination, source, DefaultRawItemStream<P, R>, writeItem) == BaseTap.Transfer(destination, [], source)
  {
  }

  /** The old `MemoryDataTap`: the list it keeps in `object_stream`. Python keeps the caller's own
      list object rather than a copy; a value here has no identity to share, so only the tap's
      view of that list is represented. */
  datatype LegacyMemory<T> = LegacyMemory(objectStream: seq<T>)

  /** `MemoryDataTap(object_stream=None)`: the given list, or a new empty one. */
  function NewMemory<T>(objectStream: Option<seq<T>>): (tap: LegacyMemory<T>)
    ensures objectStream.None? ==> tap.objectStream == []
    ensures objectStream.Some? ==> tap.objectStream == objectStream.value
  {
    LegacyMemory(if objectStream.Some? then objectStream.value else [])
  }

  /** `get_raw_item_stream()` consumed to the end: `pop(0)` until the list is empty, so the items
      come in list order and the list is left empty. */
  function MemoryRawStream<T>(tap: LegacyMemory<T>): (r: (seq<T>, LegacyMemory<T>))
    ensures r.0 == tap.objectStream && r.1.objectStream == []
  {
    var (items, left) := Fifo.Drain(tap.objectStream);
    (items, LegacyMemory(left))
  }

  /** `get_item_stream()` iterated to the end: the raw stream with each item standardized by the
      adaptor. */
  function MemoryItemStream<T>(tap: LegacyMemory<T>): (r: (seq<SerializableObject<T>>, LegacyMemory<T>))
    ensures Payloads(r.0) == tap.objectStream
    ensures r.1.objectStream == []
  {
    var (items, left) := MemoryRawStream(tap);
    AdaptRoundTrip(items);
    (Adapt(items), left)
  }

  /** `write_item(item)`: `append`, returning None. */
  function MemoryWriteItem<T>(tap: LegacyMemory<T>, item: T): (r: (LegacyMemory<T>, ()))
    ensures r.0.objectStream == tap.objectStream + [item]
  {
    (LegacyMemory(tap.objectStream + [item]), ())
  }

  lemma {:induction false} MemoryWriteStreamAppends<T>(tap: LegacyMemory<T>, items: seq<T>)
    ensures BaseTap.WriteStream(tap, items, MemoryWriteItem).0.objectStream == tap.objectStream + items
    decreases |items|
  {
    if |items| > 0 {
      var next := MemoryWriteItem(tap, items[0]).0;
      MemoryWriteStreamAppends(next, items[1..]);
      assert next.objectStream + items[1..] == tap.objectStream + items;
    }
  }

  /** `write_stream` of a list into a fresh memory tap leaves the tap's list equal to it, and a
      stream over a tap built from a list yields that list's items in order. */
  lemma MemoryWriteThenRead<T>(items: seq<T>)
    ensures BaseTap.WriteStream(NewMemory(None), items, MemoryWriteItem).0.objectStream == items
    ensures Payloads(MemoryItemStream(NewMemory(Some(items))).0) == items
  {
    MemoryWriteStreamAppends(NewMemory(None), items);
    assert [] + items == items;
  }

  /** Loading one old memory tap from another moves the items: the destination's list gains the
      source's items, standardized and in order, `write_stream` returns one None per item, and the
      source's list is left empty. */
  lemma LoadMovesBetweenMemoryTaps<T>(destination: LegacyMemory<SerializableObject<T>>, source: LegacyMemory<T>)
    ensures var r := Load(destination, source, MemoryRawStream, MemoryWriteItem);
            && r.destination.objectStream == destination.objectStream + Adapt(source.objectStream)
            && |r.results| == |source.objectStream|
            && r.source.objectStream == []
  {
    MemoryWriteStreamAppends(destination, Adapt(source.objectStream));
  }

  /** A bound form field value as `ResourceIteratorAdaptor` sees it: a Django `File` (with or
      without a `name` attribute) or any other value. */
  datatype FieldValue<V> = FileField(name: Option<string>) | Plain(value: V)

  /** What `prepare_field_value` produces. */
  datatype Prepared<V> = FileName(name: string) | NoneValue | Unchanged(value: V)

  /** `prepare_field_value(val)`: a File becomes its name, or None when it has none; any other
      value is passed through. */
  function PrepareFieldValue<V>(val: FieldValue<V>): (r: Prepared<V>)
    ensures val.Plain? <==> r.Unchanged?
    ensures val.Plain? ==> r.value == val.value
    ensures val.FileField? ==> (r.FileName? <==> val.name.Some?)
    ensures r.FileName? ==> val.name == Some(r.name)
  {
    match val
    case FileField(name) => if name.Some? then FileName(name.value) else NoneValue
    case Plain(v) => Unchanged(v)
  }

  /** `get_form_instance_values(form)`: one entry per form field, each value prepared. */
  function FormInstanceValues<V>(form: map<string, FieldValue<V>>): (data: map<string, Prepared<V>>)
    ensures data.Keys == form.Keys
    ensures forall name :: name in form ==> data[name] == PrepareFieldValue(form[name])
  {
    map name | name in form :: PrepareFieldValue(form[name])
  }

  /** A form without file fields comes back with the same values under the same names. */
  lemma PlainFormUnchanged<V>(form: map<string, FieldValue<V>>)
    requires forall name :: name in form ==> form[name].Plain?
    ensures forall name :: name in form ==>
              FormInstanceValues(form)[name].Unchanged? && FormInstanceValues(form)[name].value == form[name].value
  {
  }
}
