/** The Python I/O pieces the stream and archive taps rely on: `''.join` of chunks and a readable
    file object with a position. */
module PyIO {
  import opened Errors

  /** `''.join(chunks)`. */
  function Concat(chunks: seq<string>): (s: string)
    ensures |chunks| == 0 ==> s == ""
  {
    if |chunks| == 0 then "" else chunks[0] + Concat(chunks[1..])
  }

  lemma {:induction false} ConcatAppend(chunks: seq<string>, last: string)
    ensures Concat(chunks + [last]) == Concat(chunks) + last
    decreases |chunks|
  {
    if |chunks| == 0 {
      assert chunks + [last] == [last];
      assert Concat([last]) == last + Concat([]);
    } else {
      assert (chunks + [last])[1..] == chunks[1..] + [last];
      ConcatAppend(chunks[1..], last);
    }
  }

  /** A readable Python file object: its contents and the current position. */
  datatype Reader = Reader(content: string, position: nat)

  /** `reader.read(size)`: with no size (or a negative one) everything from the position on,
      otherwise at most `size` characters. */
  function ReadFrom(reader: Reader, size: Option<int>): (r: (string, Reader))
    ensures r.1.content == reader.content
    ensures reader.position <= r.1.position <= |reader.content| || r.1.position == reader.position
    ensures reader.position <= |reader.content| ==>
              r.0 == reader.content[reader.position..r.1.position]
    ensures reader.position > |reader.content| ==> r.0 == ""
    ensures size.None? || (size.Some? && size.value < 0) ==>
              r.0 == (if reader.position <= |reader.content| then reader.content[reader.position..] else "")
    ensures size.Some? && size.value >= 0 ==> |r.0| <= size.value
  {
    if reader.position > |reader.content| then ("", reader)
    else
      var available := |reader.content| - reader.position;
      var n := if size.None? || size.value < 0 || size.value > available then available else size.value;
      (reader.content[reader.position..reader.position + n], Reader(reader.content, reader.position + n))
  }

}
