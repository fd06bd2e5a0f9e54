# django-datatap in Dafny

This project models the core of django-datatap: "data taps" that read standardized items from one store and write them into another. It covers these parts:

- the tap registry (`register_datatap` / `lookup_datatap`);
- the `DataTap` base class, with its `write_stream` / `write_item` / `write_file` hooks and `_store` / `_load`;
- the object-iterator adaptor and the JSON encoder's `default` hook;
- the in-memory taps, the byte-stream and JSON taps, and their domains;
- the tar and zip archive taps;
- the two management commands, `datatap` and `loaddatatap`.

The older single-module `datatap/datataps.py` is modelled separately from the `datatap/datataps/` package, as its own version.

Everything is modelled as immutable datatypes and pure functions:

- A Python exception becomes an `Err` of `Errors.Result`, naming the exception class.
- A tap's mutable attributes become a record that each operation returns updated.
- A Python `str` becomes a Dafny `string`.
- A dictionary that is iterated becomes a sequence of pairs in iteration order.
- A set that is iterated becomes an `order` parameter: a listing of the set without repetition.
- An archive (zip or tar) is its list of members in write order. Lookup by name returns the last member written under that name, as both archive libraries do.

## Modules

| module | source file |
|---|---|
| `Errors` | Python exceptions, `Option`, and `Result` |
| `ArgvSplit`, `ChainCommand` | `datatap/management/commands/datatap.py` |
| `LoadCommand` | `datatap/management/commands/loaddatatap.py` |
| `Registry` | `datatap/loading.py` |
| `Encoders` | `datatap/encoders.py` |
| `BaseTap` | `datatap/datataps/base.py` |
| `Fifo`, `MemoryTap` | `datatap/datataps/memory.py` |
| `LegacyTaps` | `datatap/datataps.py` |
| `PyIO`, `StreamTaps` | `datatap/datataps/streams.py` |
| `JsonStreamTaps` | `datatap/datataps/jsonstream.py` |
| `Archive`, `TarTap` | `datatap/datataps/tarfile.py` |
| `ZipTap` | `datatap/datataps/zip.py` |
| `Domains` | the domain tags: 'bytes', 'primitive', 'text' |

## Where the code as written differs from what it evidently intends

The library is evidently meant to give taps that can be opened, chained and read back. Several paths in the code as written raise instead, and the model keeps those failures:

- **The zip tap can never be opened from scratch.** `ZipFileDataTap.open` first compares `self.mode`, but nothing sets that attribute before the first `open`. So a freshly constructed zip tap always raises AttributeError (`ZipTap.FreshOpenFails`). The other zip properties are stated for a tap whose `mode` attribute already has a value.
- **The zip tap cannot be opened in mode 'a'.** The archive accepts 'a', but the tap then opens `manifest.json` with that same mode, which the archive library refuses (`ZipTap.AppendOpenFails`).
- **Tar `read_file` always raises.** It calls `open` and `getinfo` on a `TarFile`. The first is the class method that opens a new archive from disk, and the second does not exist (`TarTap.ReadFile`).
- **The encoder's fallback raises NameError.** It calls `super(HyperadminJSONEncoder, self)`, a name that is never defined (`Encoders.Default`).
- **The zip tap's `close` leaves `mode` unchanged.** It does not call the base class's `close`. Reopening in the same mode is then a no-op, and files written afterwards can never be flushed (`ZipTap.WriteAfterCloseIsLost`).

## Model

| member | source | states |
|---|---|---|
| ArgvSplit.SplitOptions | datatap/management/commands/datatap.py:46-47 | the options and the rest together are exactly the arguments; every option starts with '-'; the rest does not start with an option (the empty string is not one) |
| ArgvSplit.SplitOptionsUnique | datatap/management/commands/datatap.py:46-47 | any split with those three properties is the one the loop produces, so the option prefix is the longest one |
| ArgvSplit.NothingLeftIffAllOptions | datatap/management/commands/datatap.py:46-60 | nothing remains after the options exactly when every argument after the subcommand starts with '-' |
| ChainCommand.Scan | datatap/management/commands/datatap.py:49-58 | no segment contains "--"; the result is empty exactly when there were no tokens and no segment under way |
| ChainCommand.SplitSegments | datatap/management/commands/datatap.py:49-58 | no segment contains "--", and there are no segments exactly when there are no tokens |
| ChainCommand.JoinSplitSegments | datatap/management/commands/datatap.py:49-58 | joining the segments with "--" gives back the tokens, less at most one trailing "--" (a trailing separator adds no empty segment) |
| ChainCommand.SplitTerminated | datatap/management/commands/datatap.py:49-58 | segments typed each followed by "--", then a tail, split back into exactly those segments, empty ones included, plus the tail when it is non-empty |
| ChainCommand.FirstUnloadable | datatap/management/commands/datatap.py:72-74 | the segment found cannot be loaded and every segment before it can: it is the one whose load raises first |
| ChainCommand.Requests | datatap/management/commands/datatap.py:72-75 | when every segment loads, one request per segment, each as described for `BuildFrom` |
| ChainCommand.BuildFrom | datatap/management/commands/datatap.py:70-75 | loading succeeds iff every segment is non-empty and names a registered tap; request k pops the name of segment k, passes the rest as arguments, is fed by request k-1 and is for writing iff it is the last; otherwise the error is the first bad segment's IndexError or KeyError |
| ChainCommand.WithDefaultDestination | datatap/management/commands/datatap.py:66-68 | a lone segment is followed by `JSON` and `Stream`; two or more segments are kept as they are |
| ChainCommand.RunFromArgv | datatap/management/commands/datatap.py:31-82 | fewer than two argv entries raise; help is shown iff everything after the subcommand is an option; otherwise the segments after the options, completed by the default destination, are loaded: the run succeeds iff every segment loads, the chain is then exactly the loading loop's requests with the last one committed and the leading options kept, and otherwise the error is the first failing segment's IndexError or KeyError |
| ChainCommand.SourceOnlyGetsJsonAndStream | datatap/management/commands/datatap.py:66-75 | a command line naming only a source loads three taps (source, JSON, Stream), each fed by the one before, committing the Stream tap |
| LoadCommand.RunFromArgv | datatap/management/commands/loaddatatap.py:18-50 | with no source token the pop raises IndexError; help is shown iff the source token is empty; the run succeeds iff there is a source token that is empty or registered, and an unregistered one raises KeyError naming it; on success the options, the source name and its arguments partition the command line, and the source class is the registry lookup of the name |
| LoadCommand.Handle | datatap/management/commands/loaddatatap.py:52-63 | the destination is the explicit one, else the detected originator; the originator is detected exactly when no destination is given; every call comes at a later stage than the one before (source open, detection, destination open, store, destination close, source close), so each happens at most once; the source is always opened for reading first; on success the destination is opened for writing for the source, the store happens, both are closed in nested order and the source is closed last; when detection fails the run ends at the detection, with the source left open |
| LoadCommand.ReplayCopy | datatap/management/commands/loaddatatap.py:54-63 | the destination's open/close lies within the source's, so every tap opened is closed |
| LoadCommand.CopyOrder | datatap/management/commands/loaddatatap.py:54-63 | a successful run's calls come in stage order, each stage at most once, with the detection present exactly when requested |
| LoadCommand.StagesRise | datatap/management/commands/loaddatatap.py:54-63 | calls whose stage rises from each call to the next are in stage order throughout |
| Registry.Lookup | datatap/loading.py:8-9 | a registered name gives its class; any other name raises KeyError |
| Registry.GetIdent | datatap/loading.py:5 | `get_ident` is found on the nearest class of the resolution order that was itself registered, and returns that registration's name; a class with no registered class in its resolution order raises AttributeError |
| Registry.Register | datatap/loading.py:4-6 | afterwards the name looks up the class and the class reports the name; a subclass reaching `cls` before any other registered class reports the name too; lookups of other names, and idents of classes whose resolution order does not pass through `cls`, are unchanged |
| Registry.Resolve | datatap/loading.py:5 | attribute lookup along a resolution order succeeds iff some class in it holds `get_ident`, and then gives the first such class's name |
| Registry.LastRegistrationWins | datatap/loading.py:6 | registering a name twice leaves the second class under it |
| Registry.SharedClassReportsLatestName | datatap/loading.py:5 | a class registered under two names reports the later name, while both names still look it up |
| Registry.SubclassInheritsIdent | datatap/datataps/streams.py:23-25 | a subclass that is never registered itself, such as `BufferedStreamDataTap`, reports the name its registered base was registered under |
| Encoders.MakeSerializable | datatap/encoders.py:11-14 | the data is kept; the files are the given ones, or none when omitted |
| Encoders.Transform | datatap/encoders.py:24-25 | an object becomes an item carrying it as data, with no files |
| Encoders.Adapt | datatap/encoders.py:27-29 | one item per object, in order, each the transform of its object |
| Encoders.AdaptRoundTrip | datatap/encoders.py:21-29 | the data of the adapted stream is the original object stream, and no item has files |
| Encoders.SetToList | datatap/encoders.py:33-34 | `list(s)` lists each element of the set exactly once |
| Encoders.Default | datatap/encoders.py:32-42 | sets become lists of their elements, lazy text becomes its text, an adaptor becomes its list of items, a serializable object becomes its data; anything else raises NameError |
| BaseTap.Open | datatap/datataps/base.py:65-72 | `open` records the mode and changes nothing else |
| BaseTap.Close | datatap/datataps/base.py:80-81 | `close` resets the mode to None and changes nothing else |
| BaseTap.WriteStream | datatap/datataps/base.py:103-111 | one collected result per item |
| BaseTap.WriteStreamAppend | datatap/datataps/base.py:103-111 | writing a stream in two pieces equals writing the first, then the second from where the first left the tap |
| BaseTap.WriteStreamResult | datatap/datataps/base.py:108-111 | the k-th result is `write_item` of the k-th item, on the tap as the first k calls left it |
| BaseTap.StatelessWriteStream | datatap/datataps/base.py:103-111 | with a `write_item` that leaves the tap alone, `write_stream` maps each item independently |
| BaseTap.DefaultWriteItem | datatap/datataps/base.py:113-120 | the default `write_item` calls `write_file(file_obj, path)` once per attachment, in order, and returns the item's data |
| BaseTap.DefaultWriteFile | datatap/datataps/base.py:122-127 | the default `write_file` returns None |
| BaseTap.DefaultReadFile | datatap/datataps/base.py:129-133 | the default `read_file` returns None |
| BaseTap.DefaultWriteStream | datatap/datataps/base.py:103-120 | writing a stream to a base tap returns every item's data in order, and issues all attachments' `write_file` calls item after item |
| BaseTap.DefaultRawItemStream | datatap/datataps/base.py:135-139 | the default raw stream yields nothing and leaves the source as it was |
| BaseTap.ItemStream | datatap/datataps/base.py:50-55 | the item stream's data is the raw stream, one item per raw object, and the adaptor attaches no files |
| BaseTap.DefaultItemStreamEmpty | datatap/datataps/base.py:135-139 | with the default raw stream the item stream is empty |
| BaseTap.GetFiletap | datatap/datataps/base.py:57-61 | a tap is its own filetap |
| BaseTap.Store | datatap/datataps/base.py:20-26 | one result per raw item of the source; result k is the destination's `write_item` of the standardized k-th item, on the destination as the first k writes left it; the destination comes back as all the writes left it, and the source as consuming its raw stream left it |
| BaseTap.Load | datatap/datataps/base.py:39-48 | `_load` leaves the destination closed (mode None), with the results, destination state and source state of storing into it opened for 'r' |
| Fifo.Pop | datatap/datataps/memory.py:20-25 | popping fails only on an empty queue, and otherwise splits off the front item |
| Fifo.Take | datatap/datataps/memory.py:20-26 | pulling n items yields the first min(n, length) items, and the rest stay queued |
| Fifo.Drain | datatap/datataps/memory.py:20-26 | running the consumer to the end yields every queued item in order and empties the queue |
| Fifo.PartialThenDrain | datatap/datataps/memory.py:20-26 | a partial read followed by a full read yields every item exactly once, in order |
| Fifo.WriteAfterPartialRead | datatap/datataps/memory.py:20-32 | items appended after a partial read are read after the unread ones |
| MemoryTap.New | datatap/datataps/memory.py:10-14 | the queue starts as the given items, or empty when none are given; no mode is set |
| MemoryTap.RawItemStream | datatap/datataps/memory.py:16-26 | the raw stream yields the queue's items in order and leaves the queue empty |
| MemoryTap.Read | datatap/datataps/memory.py:16-26 | the items read followed by the items left are the original queue; at most n are read |
| MemoryTap.ItemStream | datatap/datataps/memory.py:16-26 | the stream yields every queued item, standardized, in queue order, and leaves the queue empty |
| MemoryTap.DrainedStreamIsEmpty | datatap/datataps/memory.py:20-26 | a second stream over a drained tap yields nothing |
| MemoryTap.WriteItem | datatap/datataps/memory.py:28-32 | `write_item` appends at the back |
| MemoryTap.WriteStreamAppends | datatap/datataps/memory.py:28-32 | `write_stream` appends the items in order behind those already queued |
| MemoryTap.WrittenItemsFollowQueued | datatap/datataps/memory.py:16-32 | reading after writing yields the old items, then the written ones (first in, first out) |
| MemoryTap.LoadQueuesSource | datatap/datataps/memory.py:28-32 | loading queues the source's items behind the existing ones, returns one None per item, leaves the tap closed, and returns the source as its raw stream left it |
| MemoryTap.LoadMovesBetweenMemoryTaps | datatap/datataps/memory.py:16-32 | loading a memory tap from another moves the items: the existing queue is kept, the source's items follow in order, and the source's queue is left empty |
| LegacyTaps.DefaultWriteStreamEchoes | datatap/datataps.py:111-126 | with the old defaults, `write_stream` returns its input unchanged and leaves the tap alone |
| LegacyTaps.DefaultWriteItem | datatap/datataps.py:121-126 | the old default `write_item` returns the item unchanged and leaves the tap alone |
| LegacyTaps.Load | datatap/datataps.py:68-77 | one result per source item; result k is `write_item` of the standardized k-th item, since `open` and `close` do nothing; the destination comes back as all the writes left it, and the source as consuming its raw stream left it |
| LegacyTaps.LoadFromDefaultSource | datatap/datataps.py:134-138 | a source with the default raw stream loads nothing, and destination and source are left as they were |
| LegacyTaps.DefaultRawItemStream | datatap/datataps.py:134-138 | the old default raw stream yields nothing and leaves the source as it was |
| LegacyTaps.NewMemory | datatap/datataps.py:144-148 | the old memory tap's list has the given items, or none when no list is given |
| LegacyTaps.MemoryRawStream | datatap/datataps.py:150-154 | the old raw stream yields the list's items in order and leaves the list empty |
| LegacyTaps.MemoryItemStream | datatap/datataps.py:150-154 | reading yields the list's items in order and empties the list |
| LegacyTaps.MemoryWriteItem | datatap/datataps.py:156-157 | `write_item` appends |
| LegacyTaps.MemoryWriteStreamAppends | datatap/datataps.py:156-157 | `write_stream` appends the items in order |
| LegacyTaps.MemoryWriteThenRead | datatap/datataps.py:144-157 | writing a list into a fresh tap stores exactly that list, and reading a tap built from a list yields it |
| LegacyTaps.LoadMovesBetweenMemoryTaps | datatap/datataps.py:140-157 | loading an old memory tap from another appends the source's standardized items in order, returns one result per item, and empties the source's list |
| LegacyTaps.PrepareFieldValue | datatap/datataps.py:237-244 | a File becomes its name, or None when it has no name; any other value passes through unchanged |
| LegacyTaps.FormInstanceValues | datatap/datataps.py:246-252 | one entry per form field, each the prepared value |
| LegacyTaps.PlainFormUnchanged | datatap/datataps.py:246-252 | a form without file fields comes back with the same values under the same names |
| StreamTaps.StreamDomain | datatap/datataps/streams.py:14-15 | a stream tap's domain is bytes |
| StreamTaps.StreamBytes | datatap/datataps/streams.py:17-18 | the bytes stream is the instream itself |
| StreamTaps.Read | datatap/datataps/streams.py:20-21 | `read` is forwarded to the underlying stream, which advances by what was read |
| PyIO.ReadFrom | datatap/datataps/streams.py:20-21 | a read returns the characters from the position on, all of them when no size is given, otherwise at most `size`, and moves the position past them |
| StreamTaps.BufferedInstream | datatap/datataps/streams.py:31-34 | a missing instream stays missing; any other is buffered from its start |
| StreamTaps.BufferedReadBack | datatap/datataps/streams.py:31-34 | reading a buffered stream to the end gives back exactly the bytes it was built from |
| StreamTaps.JsonDomain | datatap/datataps/streams.py:98-102 | primitives map to bytes and bytes to primitives; any other inner domain gives None |
| StreamTaps.JsonDomainInvolution | datatap/datataps/streams.py:98-102 | two JSON taps in a row restore the original domain |
| JsonStreamTaps.Declared | datatap/datataps/jsonstream.py:22-63 | the stream tap declares text to text, the decoder text to primitive, and the encoder primitive to text |
| JsonStreamTaps.EncodeStreamDecodeFits | datatap/datataps/jsonstream.py:45-63 | encode, stream, decode chain together and lead from primitives back to primitives; two decoders or two encoders in a row do not chain |
| JsonStreamTaps.Write | datatap/datataps/jsonstream.py:30-31 | `write` appends the chunk, unchanged, to the outstream |
| JsonStreamTaps.WriteAllConcatenates | datatap/datataps/jsonstream.py:30-31 | writing chunk after chunk leaves their concatenation on the outstream |
| JsonStreamTaps.DecodeStream | datatap/datataps/jsonstream.py:52-59 | the decoder receives everything left in the inner stream, and the stream is exhausted afterwards |
| TarTap.GetDomain | datatap/datataps/tarfile.py:43-52 | bytes map to primitive and primitive to bytes; any other inner domain fails the assertion |
| TarTap.WriteFile | datatap/datataps/tarfile.py:25-32 | writing adds exactly one member, named by the path and holding the whole payload with its length as size, and returns the path; a closed or read-mode archive refuses |
| TarTap.WriteAll | datatap/datataps/tarfile.py:25-32 | a run of `write_file` calls succeeds iff the archive is open for writing, and appends one member per call, in order, after the existing members |
| TarTap.ReadFile | datatap/datataps/tarfile.py:34-37 | reading an attachment always raises |
| TarTap.TarExtFile | datatap/datataps/tarfile.py:13-19 | the file reports the member's name and size, in mode 'r' |
| Archive.LastIndex | datatap/datataps/tarfile.py:75 | the position found holds the name and no later member does; there is none exactly when no member has the name |
| Archive.Find | datatap/datataps/tarfile.py:75 | lookup by name gives the last member written under it, or nothing when no member has the name |
| Archive.FindAnywhere | datatap/datataps/tarfile.py:75 | a member is found by its name wherever it sits, as long as no later member has the same name |
| TarTap.ManifestText | datatap/datataps/tarfile.py:61-64 | the manifest is the encoded value itself when it is a string, else its chunks joined in order |
| TarTap.Send | datatap/datataps/tarfile.py:57-69 | the archive holds the attachments in write order, then `manifest.json` sized by the manifest's length, and is closed |
| TarTap.PrimitiveStream | datatap/datataps/tarfile.py:71-75 | reading finds the last `manifest.json` wherever it sits, or raises KeyError, and resolves files against the same archive |
| TarTap.SendThenReadManifest | datatap/datataps/tarfile.py:57-75 | reading back what `send` wrote yields the manifest it wrote, even if an attachment was also called `manifest.json` |
| TarTap.SendKeepsAttachment | datatap/datataps/tarfile.py:57-69 | an attachment that is not later overwritten is found under its path with exactly its contents |
| ZipTap.OpenArchive | datatap/datataps/zip.py:46 | 'w' starts an empty archive; 'r' needs an existing one (IOError otherwise); 'a' extends an existing one or starts a new empty one, still in mode 'a'; other modes raise RuntimeError |
| ZipTap.WriteStr | datatap/datataps/zip.py:71 | a member is appended only to an open archive in mode 'w' or 'a'; otherwise RuntimeError |
| ZipTap.OpenMember | datatap/datataps/zip.py:52 | only read modes, on an open archive, with the name present, succeed; the result is the last member of that name; a missing name raises KeyError |
| ZipTap.New | datatap/datataps/zip.py:38-40 | a new tap keeps its file name, has no mode attribute and nothing opened |
| ZipTap.GetWriteFileObject | datatap/datataps/zip.py:74-77 | a fresh, empty `OutFile` for the path joins the pending set, and nothing else changes |
| ZipTap.WriteOutFile | datatap/datataps/zip.py:59-63 | writing to an `OutFile` appends to its buffer, pending or not, and does not touch the archive |
| ZipTap.CloseOutFile | datatap/datataps/zip.py:69-72 | a pending file is stored under its path with its buffer and leaves the pending set; closing a file no longer pending does nothing |
| ZipTap.FlushAll | datatap/datataps/zip.py:81-82 | closing the listed pending files stores their buffers in list order and removes exactly them from the pending set |
| ZipTap.Open | datatap/datataps/zip.py:42-54 | no mode attribute raises AttributeError; the current mode is a no-op; for 'w' only the manifest is pending and the archive holds just `originator.txt` with the class's ident when a class is given; for 'r' the open succeeds iff the file exists and holds `manifest.json`, raising IOError without the file and KeyError without the member, and the manifest is read from the existing archive |
| ZipTap.Close | datatap/datataps/zip.py:79-83 | every pending file is stored once, in listing order, after the existing members; nothing stays pending; the archive is closed and the tap's mode is unchanged |
| ZipTap.WriteFile | datatap/datataps/zip.py:91-95 | the file's whole contents go into a new pending file for the path, and the path is returned unchanged |
| ZipTap.ReadFile | datatap/datataps/zip.py:97-100 | the result has the member's name and size, in mode 'r'; a missing path raises KeyError |
| ZipTap.Seek | datatap/datataps/zip.py:20-24 | seeking to 0 does nothing; any other position raises UnsupportedOperation |
| ZipTap.DetectOriginator | datatap/datataps/zip.py:56-57 | the originator is the registry lookup of `originator.txt`'s text; without that member it raises KeyError |
| ZipTap.FreshOpenFails | datatap/datataps/zip.py:42-44 | a freshly constructed tap cannot be opened in any mode |
| ZipTap.AppendOpenFails | datatap/datataps/zip.py:46-52 | opening in mode 'a' always fails |
| ZipTap.SecondCloseWritesNothing | datatap/datataps/zip.py:69-72 | closing an `OutFile` a second time changes nothing |
| ZipTap.OriginatorPrecedesManifest | datatap/datataps/zip.py:47-83 | after opening for writing with a class and closing, the archive is `originator.txt` followed by `manifest.json` |
| ZipTap.WrittenFileStoredAtClose | datatap/datataps/zip.py:79-95 | a file given to `write_file` is in the archive, under its path with its contents, once the tap is closed |
| ZipTap.OriginatorRoundTrip | datatap/datataps/zip.py:47-57 | an archive written for a registered class, once reopened for reading, reports that class as its originator |
| ZipTap.SubclassOriginatorNamesBase | datatap/datataps/zip.py:47-50 | opening for writing for an unregistered subclass of a registered class stores the base's registered name in `originator.txt` |
| ZipTap.WriteAfterCloseIsLost | datatap/datataps/zip.py:42-44 | reopening a closed tap in its old mode does nothing, so a file written afterwards cannot be flushed |

## Left out

- Django ORM and serializers (`datatap/datataps/model.py`, `ModelDataTap`, `ModelIteratorAdaptor`): wrappers over a library outside the repository.
- hyperadmin resources (`ResourceDataTap`, `CRUDResourceDataTap`, `datatap/datataps/resource.py`): they depend on external endpoint and form APIs. Only the field-value preparation of `ResourceIteratorAdaptor` is modelled.
- S3 (`datatap/datataps/s3bucket.py`) and `URLDataTap`: network backends; `URLDataTap` also uses an undefined `requests`.
- JSON text encoding and decoding (`json`, `DjangoJSONEncoder.iterencode`, `JSONDataTap.get_bytes_stream` / `get_primitive_stream`, `JSONEncodeDataTap.get_raw_item_stream`): the decoder is a parameter of `JsonStreamTaps.DecodeStream`, and the encoder's output and its `write_file` calls are the `TarTap.Encoding` parameter of `TarTap.Send`. `DataTapJSONDecoder` is imported but never defined, so no file-reference round trip is claimed.
- The zip tap's `write_stream`, `write_item` and `get_raw_item_stream`, and `self.object_stream.close()` in its `close`: they delegate to `JSONStreamDataTap`, which `datatap/datataps/jsonstream.py` does not define.
- `WriteStream`, `FileTap` and `commit`: they are imported or called but not defined in `datatap/datataps/base.py`. `ChainCommand.RunFromArgv` records which tap is committed, not what committing does.
- `save` on `BufferedStreamDataTap` and `FileDataTap`: it calls a `save` that no base class defines.
- `TarFileDataTap.get_bytes_stream` (`datatap/datataps/tarfile.py:77-78`) is the identity, the same function as `StreamTaps.StreamBytes`, so it is not declared a second time.
- Real I/O: opening files and URLs, stdout, and `print_help` with its registry listing. Files on disk are the `onDisk` parameter of `ZipTap.Open`.
- `OptionParser`: option parsing and `load_from_command_line`. The commands stop at the class looked up and the arguments passed to it.
- Django management plumbing (`create_parser`, `execute`, `handle_default_options`).
- Imports of names that no module in the repository defines: `autodiscover` and `get_datatap_registry` from `datatap/loading.py` (imported by both management commands), `DataTapJSONDecoder` from `datatap/encoders.py` (by `streams.py` and `jsonstream.py`), `JSONStreamDataTap` from `jsonstream.py` (by `zip.py`), and `FileTap` and `WriteStream` from `base.py` (by `tarfile.py` and `model.py`). As written, importing any of these modules raises ImportError before any of its code runs, so neither command can run at all. The model describes the code after those imports, as it would behave if the missing names existed.
- Other crashes beyond those listed above are modelled as if the call worked, because what they raise depends on how the missing pieces would be filled in:
  - `JSONDataTap(...)` constructed with arguments its class does not accept (tar `send` and `get_primitive_stream`);
  - `self.instream` and `self.item_stream`, which are never set;
  - `load_from_command_line(arglist, instream=...)` and `load_from_command_line_for_write`, which do not match the signatures shown;
  - keyword arguments reaching `object.__init__`.
- The state a tap is left in when an operation raises halfway: an `Err` carries no tap.
- LoadCommand.Handle: models the order of the calls on the taps, not what `_store` moves between them (that is `BaseTap.Store`).
- BaseTap.Store: the source and the destination are separate values, so a tap storing into itself is not modelled. In Python a non-empty memory tap loading itself never finishes, because the lazy generator pops each item and `write_item` appends it again. The source's raw stream is consumed in full before the writes; for separate taps that gives the same results.
- BaseTap.Load: the same as `BaseTap.Store`; loading a tap from itself is not modelled.
- LegacyTaps.NewMemory: the old memory tap keeps the caller's own list object, so draining the tap also empties the caller's list. A value has no identity, so that sharing is not modelled.
- Registry.Mro: classes have a single base, which is all the taps use; multiple inheritance and its C3 order are not modelled.
- ZipTap.OpenMember: reading a member from an archive opened in mode 'w' is treated like reading one from a readable archive; the library's behaviour there depends on file buffering.
