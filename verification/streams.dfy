/** `datatap/datataps/streams.py`: the byte-stream tap, its buffered variant, and the JSON tap's
    domain negotiation. */
module StreamTaps {
  import opened Errors
  import opened Domains
  import opened PyIO

  /** A `StreamDataTap` over the file object it reads from. */
  datatype StreamTap = StreamTap(itemStream: Reader)

  /** `StreamDataTap.get_domain()`: bytes, whatever tap (if any) feeds it. */
  function StreamDomain(inner: Option<Domain>): (d: Domain)
    ensures d == Bytes
  {
    Bytes
  }

  /** `StreamDataTap.get_bytes_stream(instream)`: the instream itself. */
  function StreamBytes<S>(instream: S): (out: S)
    ensures out == instream
  {
    instream
  }

  /** `StreamDataTap.read(*args)`: forwarded to the underlying stream, which advances. */
  function Read(tap: StreamTap, size: Option<int>): (r: (string, StreamTap))
    ensures r.0 == ReadFrom(tap.itemStream, size).0
    ensures r.1.itemStream == ReadFrom(tap.itemStream, size).1
  {
    var (chunk, after) := ReadFrom(tap.itemStream, size);
    (chunk, StreamTap(after))
  }

  /** `BufferedStreamDataTap(instream)`: None stays None; anything else is wrapped in a BytesIO
      positioned at its start. This is the `instream` handed on to the parent constructor. */
  function BufferedInstream(instream: Option<string>): (r: Option<Reader>)
    ensures instream.None? <==> r.None?
    ensures instream.Some? ==> r.value.content == instream.value && r.value.position == 0
  {
    if instream.None? then None else Some(Reader(instream.value, 0))
  }

  /** Reading a buffered stream to the end gives back exactly the bytes it was built from. */
  lemma BufferedReadBack(data: string)
    ensures Read(StreamTap(BufferedInstream(Some(data)).value), None).0 == data
  {
  }

  /** `JSONDataTap.get_domain()`: primitives are encoded to bytes, bytes decoded to primitives,
      and any other inner domain falls off the end of the method (None). */
  function JsonDomain(inner: Domain): (r: Option<Domain>)
    ensures r == Some(Bytes) <==> inner == Primitive
    ensures r == Some(Primitive) <==> inner == Bytes
    ensures r.None? <==> inner != Primitive && inner != Bytes
  {
    if inner == Primitive then Some(Bytes)
    else if inner == Bytes then Some(Primitive)
    else None
  }

  /** Two JSON taps in a row undo each other's domain change. */
  lemma JsonDomainInvolution(inner: Domain)
    requires JsonDomain(inner).Some?
    ensures JsonDomain(JsonDomain(inner).value) == Some(inner)
  {
  }
}
