/** `datatap/encoders.py`: the standardized item (`SerializableObject`), the adaptor that turns a
    stream of native objects into standardized items, and the JSON encoder's `default` hook. */
module Encoders {
  import opened Errors

  /** A Django `File`: an optional name and its contents (a Python 2 byte string). */
  datatype FileObj = FileObj(name: Option<string>, content: string)

  /** A standardized item: JSON-serializable `data` and its attachments `files`, a path -> file
      dictionary listed in its iteration order. */
  datatype SerializableObject<D> = SerializableObject(data: D, files: seq<(string, FileObj)>)

  /** `SerializableObject(data, files={})`: `files` is None when the argument is omitted. */
  function MakeSerializable<D>(data: D, files: Option<seq<(string, FileObj)>>): (r: SerializableObject<D>)
    ensures r.data == data
    ensures files.None? ==> |r.files| == 0
    ensures files.Some? ==> r.files == files.value
  {
    SerializableObject(data, if files.Some? then files.value else [])
  }

  /** `ObjectIteratorAdaptor.transform`: the object becomes the data of an item without files. */
  function Transform<D>(obj: D): (r: SerializableObject<D>)
    ensures r.data == obj && |r.files| == 0
  {
    MakeSerializable(obj, None)
  }

  /** Iterating an `ObjectIteratorAdaptor` over `objects`: one transformed item per object. */
  function Adapt<D>(objects: seq<D>): (items: seq<SerializableObject<D>>)
    ensures |items| == |objects|
    ensures forall i :: 0 <= i < |objects| ==> items[i] == Transform(objects[i])
  {
    if |objects| == 0 then [] else [Transform(objects[0])] + Adapt(objects[1..])
  }

  /** The `data` of each item, in order. */
  function Payloads<D>(items: seq<SerializableObject<D>>): (objects: seq<D>)
    ensures |objects| == |items|
    ensures forall i :: 0 <= i < |items| ==> objects[i] == items[i].data
  {
    if |items| == 0 then [] else [items[0].data] + Payloads(items[1..])
  }

  /** The adaptor loses nothing and adds no files: the payloads of the adapted stream are the
      input objects, in input order. */
  lemma AdaptRoundTrip<D>(objects: seq<D>)
    ensures Payloads(Adapt(objects)) == objects
    ensures forall i :: 0 <= i < |objects| ==> Adapt(objects)[i].files == []
  {
  }

  /** The values `DataTapJSONEncoder.default` distinguishes. */
  datatype Encodable<D> =
    | SetValue(elements: set<D>)
    | LazyText(text: string)                        // a Django Promise, already evaluated
    | AdaptorValue(objects: seq<D>)                 // an ObjectIteratorAdaptor over `objects`
    | SerializableValue(obj: SerializableObject<D>)
    | Unhandled                                     // any other type

  /** What `default` hands back to the JSON encoder. */
  datatype Encoded<D> =
    | ListValue(elements: seq<D>)
    | TextValue(text: string)
    | ItemList(items: seq<SerializableObject<D>>)
    | DataValue(data: D)

  /** `list(s)` for a set: some listing of its elements, each exactly once. */
  ghost function SetToList<D(!new)>(s: set<D>): (r: seq<D>)
    ensures |r| == |s|
    ensures forall x :: x in r <==> x in s
  {
    if s == {} then []
    else
      var x :| x in s;
      [x] + SetToList(s - {x})
  }

  /** `DataTapJSONEncoder.default`. The fallback calls `super(HyperadminJSONEncoder, self)`, a name
      this module never defines, so every unhandled type ends in NameError. */
  ghost function Default<D(!new)>(value: Encodable<D>): (r: Result<Encoded<D>>)
    ensures r.Err? <==> value.Unhandled?
    ensures value.Unhandled? ==> r.error == NameError("HyperadminJSONEncoder")
    ensures value.SetValue? ==>
              && r.value.ListValue?
              && |r.value.elements| == |value.elements|
              && (forall x :: x in r.value.elements <==> x in value.elements)
    ensures value.LazyText? ==> r.value == TextValue(value.text)
    ensures value.AdaptorValue? ==>
              && r.value.ItemList?
              && Payloads(r.value.items) == value.objects
              && (forall i :: 0 <= i < |r.value.items| ==> r.value.items[i].files == [])
    ensures value.SerializableValue? ==> r.value == DataValue(value.obj.data)
  {
    match value
    case SetValue(elements) => Ok(ListValue(SetToList(elements)))
    case LazyText(text) => Ok(TextValue(text))
    case AdaptorValue(objects) =>
      AdaptRoundTrip(objects);
      Ok(ItemList(Adapt(objects)))
    case SerializableValue(obj) => Ok(DataValue(obj.data))
    case Unhandled => Err(NameError("HyperadminJSONEncoder"))
  }
}
