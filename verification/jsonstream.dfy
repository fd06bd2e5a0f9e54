/** `datatap/datataps/jsonstream.py`: taps that declare a fixed inner (consumed) and outer
    (produced) domain, the text stream writer, and the JSON decoder's whole-stream read. */
module JsonStreamTaps {
  import opened Errors
  import opened Domains
  import opened PyIO

  /** The three taps of this module. */
  datatype Stage = StreamStage | JsonDecodeStage | JsonEncodeStage

  datatype Declaration = Declaration(inner: Domain, outer: Domain)

  /** The class attributes `inner_domain` / `outer_domain`. */
  function Declared(stage: Stage): (d: Declaration)
    ensures stage == StreamStage <==> d == Declaration(Text, Text)
    ensures stage == JsonDecodeStage <==> d == Declaration(Text, Primitive)
    ensures stage == JsonEncodeStage <==> d == Declaration(Primitive, Text)
  {
    match stage
    case StreamStage => Declaration(Text, Text)
    case JsonDecodeStage => Declaration(Text, Primitive)
    case JsonEncodeStage => Declaration(Primitive, Text)
  }

  /** Stages listed innermost first fit together when each consumes what the one inside it
      produces. */
  predicate Fits(stages: seq<Stage>) {
    forall i :: 0 < i < |stages| ==> Declared(stages[i]).inner == Declared(stages[i - 1]).outer
  }

  /** Encoding, passing the text through a stream, and decoding again fits together and leads
      from primitives back to primitives; decoding cannot sit directly on primitives, nor can
      encoding sit on text. */
  lemma EncodeStreamDecodeFits()
    ensures Fits([JsonEncodeStage, StreamStage, JsonDecodeStage])
    ensures Declared(JsonEncodeStage).inner == Declared(JsonDecodeStage).outer
    ensures forall s :: Declared(s).inner == Primitive ==> s == JsonEncodeStage
    ensures !Fits([JsonDecodeStage, JsonDecodeStage])
    ensures !Fits([JsonEncodeStage, JsonEncodeStage])
  {
    assert Declared([JsonDecodeStage, JsonDecodeStage][1]).inner != Declared([JsonDecodeStage, JsonDecodeStage][0]).outer;
    assert Declared([JsonEncodeStage, JsonEncodeStage][1]).inner != Declared([JsonEncodeStage, JsonEncodeStage][0]).outer;
  }

  /** `StreamDataTap.write(chunk)`: the chunk goes to the outstream unchanged. */
  function Write(outstream: string, chunk: string): (r: string)
    ensures |r| == |outstream| + |chunk|
    ensures r[..|outstream|] == outstream && r[|outstream|..] == chunk
  {
    outstream + chunk
  }

  /** Writing chunk after chunk leaves their concatenation on the outstream. */
  function WriteAll(outstream: string, chunks: seq<string>): string
    decreases |chunks|
  {
    if |chunks| == 0 then outstream else WriteAll(Write(outstream, chunks[0]), chunks[1..])
  }

  lemma {:induction false} WriteAllConcatenates(outstream: string, chunks: seq<string>)
    ensures WriteAll(outstream, chunks) == outstream + Concat(chunks)
    decreases |chunks|
  {
    if |chunks| > 0 {
      WriteAllConcatenates(outstream + chunks[0], chunks[1..]);
      assert outstream + chunks[0] + Concat(chunks[1..]) == outstream + (chunks[0] + Concat(chunks[1..]));
    }
  }

  /** `JSONDecodeDataTap.get_raw_item_stream`: one `read()` of the whole inner stream, handed to
      the decoder (a parameter here). The inner stream is left exhausted. */
  function DecodeStream<R>(instream: Reader, decode: string -> R): (r: (R, Reader))
    ensures instream.position <= |instream.content| ==> r.0 == decode(instream.content[instream.position..])
    ensures ReadFrom(r.1, None).0 == ""
  {
    var (text, after) := ReadFrom(instream, None);
    (decode(text), after)
  }
}
