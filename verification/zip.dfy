/** `datatap/datataps/zip.py`: a tap over a zip archive. Attachments and the manifest are
    buffered in `OutFile`s registered in a pending set, and each is written into the archive when
    it is closed; closing the tap flushes every file still pending and closes the archive. */
module ZipTap {
  import opened Errors
  import opened Archive
  import opened Encoders
  import opened BaseTap
  import Registry

  /** The member the object stream is read from and written to. */
  const ManifestName: string := "manifest.json"

  /** The member recording which tap class wrote the archive. */
  const OriginatorName: string := "originator.txt"

  /** A `zipfile.ZipFile`: its members in write order, the mode it was opened with, and whether it
      has been closed. */
  datatype ZipArchive = ZipArchive(members: seq<Member>, mode: string, closed: bool)

  /** `zipfile.ZipFile(filename, mode)`. `onDisk` is the archive already stored under the file
      name, if any. Mode 'w' starts empty; 'r' needs an existing archive; 'a' extends an existing
      one and, when there is none, starts a new empty file (the archive's `mode` attribute stays
      'a'). Any other mode is refused. */
  function OpenArchive(mode: string, onDisk: Option<seq<Member>>): (r: Result<ZipArchive>)
    ensures r.Ok? <==> mode == "w" || mode == "a" || (mode == "r" && onDisk.Some?)
    ensures r.Ok? ==> !r.value.closed
    ensures r.Ok? && mode == "w" ==> r.value == ZipArchive([], "w", false)
    ensures r.Ok? && mode != "w" && onDisk.Some? ==> r.value == ZipArchive(onDisk.value, mode, false)
    ensures r.Ok? && mode == "a" && onDisk.None? ==> r.value == ZipArchive([], "a", false)
    ensures r.Err? && mode == "r" ==> r.error.IOError?
    ensures r.Err? && mode != "r" ==> r.error.RuntimeError?
  {
    if mode == "w" then Ok(ZipArchive([], "w", false))
    else if mode == "r" || mode == "a" then
      match onDisk
      case Some(members) => Ok(ZipArchive(members, mode, false))
      case None =>
        if mode == "a" then Ok(ZipArchive([], "a", false))
        else Err(IOError("No such file or directory"))
    else Err(RuntimeError("ZipFile() requires mode \"r\", \"w\", or \"a\""))
  }

  /** Whether `writestr` is accepted: the archive is open and was opened for writing. */
  predicate Writable(archive: ZipArchive)
  {
    (archive.mode == "w" || archive.mode == "a") && !archive.closed
  }

  /** `ZipFile.writestr(name, data)`: appends one member; refused unless the archive is open in
      mode 'w' or 'a'. */
  function WriteStr(archive: ZipArchive, name: string, data: string): (r: Result<ZipArchive>)
    ensures r.Ok? <==> Writable(archive)
    ensures r.Ok? ==> r.value == archive.(members := archive.members + [MemberOf(name, data)])
    ensures r.Err? ==> r.error.RuntimeError?
  {
    if archive.mode != "w" && archive.mode != "a" then Err(RuntimeError("write() requires mode \"w\" or \"a\""))
    else if archive.closed then Err(RuntimeError("Attempt to write ZIP archive that was already closed"))
    else Ok(archive.(members := archive.members + [MemberOf(name, data)]))
  }

  /** `ZipFile.open(name, mode)` followed by reading it: only the read modes are accepted, the
      archive must be open, and the name resolves to the last member written under it. */
  function OpenMember(archive: ZipArchive, name: string, mode: string): (r: Result<Member>)
    ensures r.Ok? <==> (mode == "r" || mode == "U" || mode == "rU") && !archive.closed
                       && exists i :: 0 <= i < |archive.members| && archive.members[i].name == name
    ensures r.Ok? ==> r.value == Find(archive.members, name).value
    ensures r.Err? && (mode == "r" || mode == "U" || mode == "rU") && !archive.closed ==> r.error == KeyError(name)
  {
    if mode != "r" && mode != "U" && mode != "rU" then Err(RuntimeError("open() requires mode \"r\", \"U\", or \"rU\""))
    else if archive.closed then Err(RuntimeError("Attempt to read ZIP archive that was already closed"))
    else
      match Find(archive.members, name)
      case None => Err(KeyError(name))
      case Some(m) => Ok(m)
  }

  /** An `OutFile`: the path it will be stored under and what has been written to its buffer. */
  datatype OutFile = OutFile(path: string, buffer: string)

  /** `self.object_stream`: over the pending manifest file when writing, over the manifest's
      contents when reading. */
  datatype ObjectStream = Writing(manifestId: nat) | Reading(manifest: string)

  /** What `open` sets up: the archive, every `OutFile` handed out (by identity), the pending set
      `writing_files`, the next identity to hand out, and the object stream. */
  datatype Session = Session(archive: ZipArchive, files: map<nat, OutFile>, pending: set<nat>,
                             nextId: nat, objectStream: ObjectStream)

  /** Pending files are files handed out, and identities are never reused. */
  predicate Valid(s: Session)
  {
    && s.pending <= s.files.Keys
    && (forall id :: id in s.files ==> id < s.nextId)
    && (s.objectStream.Writing? ==> s.objectStream.manifestId in s.files)
  }

  /** A `ZipFileDataTap`: its file name, the `mode` attribute of the base class, and what the
      last successful `open` set up. */
  datatype ZipFileTap = ZipFileTap(filename: string, mode: ModeAttr, session: Option<Session>)

  /** `ZipFileDataTap(filename)`: the base class has no constructor, so no `mode` is set. */
  function New(filename: string): (tap: ZipFileTap)
    ensures tap.filename == filename && tap.mode == Unset && tap.session == None
  {
    ZipFileTap(filename, Unset, None)
  }

  /** `get_write_file_object(path)`: a new, empty `OutFile` for `path`, added to the pending set. */
  function GetWriteFileObject(s: Session, path: string): (r: (Session, nat))
    requires Valid(s)
    ensures Valid(r.0)
    ensures r.1 !in s.files && r.0.files == s.files[r.1 := OutFile(path, "")]
    ensures r.0.pending == s.pending + {r.1}
    ensures r.0.archive == s.archive && r.0.objectStream == s.objectStream
  {
    var id := s.nextId;
    (s.(files := s.files[id := OutFile(path, "")], pending := s.pending + {id}, nextId := id + 1), id)
  }

  /** `OutFile.write(data)`: appends to the buffer, whether or not the file is still pending. */
  function WriteOutFile(s: Session, id: nat, data: string): (r: Session)
    requires Valid(s) && id in s.files
    ensures Valid(r)
    ensures r.files == s.files[id := OutFile(s.files[id].path, s.files[id].buffer + data)]
    ensures r.pending == s.pending && r.archive == s.archive
  {
    s.(files := s.files[id := s.files[id].(buffer := s.files[id].buffer + data)])
  }

  /** `OutFile.close()`: a pending file is stored under its path with its buffer and leaves the
      pending set; a file no longer pending is left alone. */
  function CloseOutFile(s: Session, id: nat): (r: Result<Session>)
    requires Valid(s) && id in s.files
    ensures r.Ok? ==> Valid(r.value)
    ensures id !in s.pending ==> r == Ok(s)
    ensures r.Err? <==> id in s.pending && !Writable(s.archive)
    ensures id in s.pending && r.Ok? ==>
              r.value == s.(archive := s.archive.(members := s.archive.members + [MemberOf(s.files[id].path, s.files[id].buffer)]),
                            pending := s.pending - {id})
  {
    if id in s.pending then
      var archive :- WriteStr(s.archive, s.files[id].path, s.files[id].buffer);
      Ok(s.(archive := archive, pending := s.pending - {id}))
    else Ok(s)
  }

  /** `order` is a listing of `ids` without repetition, as `list()` of a set gives. */
  predicate Lists(order: seq<nat>, ids: set<nat>)
  {
    && (forall i :: 0 <= i < |order| ==> order[i] in ids)
    && (forall id :: id in ids ==> id in order)
    && (forall i, j :: 0 <= i < j < |order| ==> order[i] != order[j])
  }

  /** A listing without repetition has exactly one entry per listed identity. */
  lemma {:induction false} ListsCardinality(order: seq<nat>, ids: set<nat>)
    requires Lists(order, ids)
    ensures |order| == |ids|
    decreases |order|
  {
    if |order| == 0 {
      assert forall id :: id in ids ==> id in order;
      assert ids == {};
    } else {
      var rest := ids - {order[0]};
      assert forall id :: id in rest ==> id in order[1..] by {
        forall id | id in rest
          ensures id in order[1..]
        {
          var k :| 0 <= k < |order| && order[k] == id;
          assert order[1..][k - 1] == id;
        }
      }
      ListsCardinality(order[1..], rest);
    }
  }

  /** The members flushing the files `order` lists, in that order, adds. */
  function Flushed(files: map<nat, OutFile>, order: seq<nat>): (r: seq<Member>)
    requires forall i :: 0 <= i < |order| ==> order[i] in files
    ensures |r| == |order|
  {
    if |order| == 0 then []
    else [MemberOf(files[order[0]].path, files[order[0]].buffer)] + Flushed(files, order[1..])
  }

  /** The k-th member flushed is the k-th listed file. */
  lemma {:induction false} FlushedAt(files: map<nat, OutFile>, order: seq<nat>, k: nat)
    requires forall i :: 0 <= i < |order| ==> order[i] in files
    requires k < |order|
    ensures Flushed(files, order)[k] == MemberOf(files[order[k]].path, files[order[k]].buffer)
    decreases k
  {
    if k > 0 {
      FlushedAt(files, order[1..], k - 1);
    }
  }

  /** Closing each listed pending file in turn. */
  function FlushAll(s: Session, order: seq<nat>): (r: Result<Session>)
    requires Valid(s)
    requires forall i :: 0 <= i < |order| ==> order[i] in s.pending
    requires forall i, j :: 0 <= i < j < |order| ==> order[i] != order[j]
    ensures r.Ok? <==> |order| == 0 || Writable(s.archive)
    ensures r.Ok? ==> Valid(r.value)
    ensures r.Ok? ==> r.value.archive.members == s.archive.members + Flushed(s.files, order)
    ensures r.Ok? ==> r.value.archive.mode == s.archive.mode && r.value.archive.closed == s.archive.closed
    ensures r.Ok? ==> forall id :: id in r.value.pending <==> id in s.pending && id !in order
    ensures r.Ok? ==> r.value.files == s.files && r.value.objectStream == s.objectStream
    decreases |order|
  {
    if |order| == 0 then Ok(s)
    else
      match CloseOutFile(s, order[0])
      case Err(e) => Err(e)
      case Ok(next) =>
        var stored := MemberOf(s.files[order[0]].path, s.files[order[0]].buffer);
        assert next == s.(archive := s.archive.(members := s.archive.members + [stored]),
                          pending := s.pending - {order[0]});
        assert forall i :: 1 <= i < |order| ==> order[i] != order[0];
        var r := FlushAll(next, order[1..]);
        assert Flushed(s.files, order) == [stored] + Flushed(s.files, order[1..]);
        assert s.archive.members + [stored] + Flushed(s.files, order[1..])
               == s.archive.members + ([stored] + Flushed(s.files, order[1..]));
        assert forall id :: id in order <==> id == order[0] || id in order[1..];
        r
  }

  /** `ZipFileDataTap.open(mode, for_datatap)`. The first thing it does is compare `self.mode`
      with `mode`, so on a tap that has no `mode` yet it raises AttributeError, and reopening in
      the current mode does nothing. Otherwise it opens the archive; for a writing mode it
      registers the pending manifest file and, given a tap class, stores that class's ident in
      `originator.txt` at once; for any other mode it opens the existing manifest with that
      mode. */
  function Open(tap: ZipFileTap, mode: string, forDatatap: Option<Registry.ClassName>,
                reg: Registry.Registry, onDisk: Option<seq<Member>>): (r: Result<ZipFileTap>)
    ensures tap.mode == Unset ==> r == Err(AttributeError("mode"))
    ensures tap.mode == Mode(Some(mode)) ==> r == Ok(tap)
    ensures r.Ok? && tap.mode != Mode(Some(mode)) ==>
              && r.value.filename == tap.filename
              && r.value.mode == Mode(Some(mode))
              && r.value.session.Some?
              && Valid(r.value.session.value)
    ensures r.Ok? && tap.mode != Mode(Some(mode)) && 'w' in mode && forDatatap.Some? ==>
              Registry.GetIdent(reg, forDatatap.value).Ok?
    ensures r.Ok? && tap.mode != Mode(Some(mode)) && 'w' in mode ==>
              var s := r.value.session.value;
              && s.objectStream.Writing?
              && s.pending == {s.objectStream.manifestId}
              && s.files[s.objectStream.manifestId] == OutFile(ManifestName, "")
              && s.archive.mode == "w" && !s.archive.closed
              && s.archive.members == (if forDatatap.Some?
                                       then [MemberOf(OriginatorName, Registry.GetIdent(reg, forDatatap.value).value)]
                                       else [])
    ensures tap.mode.Mode? && tap.mode != Mode(Some(mode)) && mode == "w" ==>
              (r.Ok? <==> forDatatap.None? || Registry.GetIdent(reg, forDatatap.value).Ok?)
    ensures r.Ok? && tap.mode != Mode(Some(mode)) && 'w' !in mode ==>
              var s := r.value.session.value;
              && s.pending == {}
              && onDisk.Some?
              && s.archive == ZipArchive(onDisk.value, mode, false)
              && Find(onDisk.value, ManifestName).Some?
              && s.objectStream == Reading(Find(onDisk.value, ManifestName).value.data)
    ensures tap.mode.Mode? && tap.mode != Mode(Some(mode)) && mode == "r" ==>
              && (r.Ok? <==> onDisk.Some? && Find(onDisk.value, ManifestName).Some?)
              && (onDisk.None? ==> r.Err? && r.error.IOError?)
              && (onDisk.Some? && Find(onDisk.value, ManifestName).None? ==> r == Err(KeyError(ManifestName)))
  {
    match tap.mode
    case Unset => Err(AttributeError("mode"))
    case Mode(current) =>
      if current == Some(mode) then Ok(tap)
      else
        var archive :- OpenArchive(mode, onDisk);
        if 'w' in mode then
          // `self.object_stream` is only set once the manifest file exists.
          var start := Session(archive, map[], {}, 0, Reading(""));
          var (s, manifestId) := GetWriteFileObject(start, ManifestName);
          var stored :- match forDatatap
                        case None => Ok(archive)
                        case Some(cls) =>
                          var ident :- Registry.GetIdent(reg, cls);
                          WriteStr(archive, OriginatorName, ident);
          Ok(ZipFileTap(tap.filename, Mode(Some(mode)),
                        Some(s.(archive := stored, objectStream := Writing(manifestId)))))
        else
          var manifest :- OpenMember(archive, ManifestName, mode);
          Ok(ZipFileTap(tap.filename, Mode(Some(mode)),
                        Some(Session(archive, map[], {}, 0, Reading(manifest.data)))))
  }

  /** `ZipFileDataTap.close()`: every file still pending is flushed once, in the order `list()`
      gives the pending set, then the archive is closed. The tap's `mode` is left as it was. */
  function Close(tap: ZipFileTap, order: seq<nat>): (r: Result<ZipFileTap>)
    requires tap.session.Some? ==> Valid(tap.session.value) && Lists(order, tap.session.value.pending)
    ensures tap.session.None? ==> r == Err(AttributeError("object_stream"))
    ensures tap.session.Some? ==> (r.Ok? <==> |order| == 0 || Writable(tap.session.value.archive))
    ensures r.Ok? ==> r.value.session.Some?
    ensures r.Ok? ==>
              var (before, after) := (tap.session.value, r.value.session.value);
              && r.value.filename == tap.filename && r.value.mode == tap.mode
              && Valid(after)
              && after.pending == {}
              && after.archive.closed
              && after.archive.mode == before.archive.mode
              && after.archive.members == before.archive.members + Flushed(before.files, order)
              && after.files == before.files
  {
    match tap.session
    case None => Err(AttributeError("object_stream"))
    case Some(s) =>
      var flushed :- FlushAll(s, order);
      assert flushed.pending == {} by {
        forall id | id in flushed.pending
          ensures false
        {
        }
      }
      Ok(tap.(session := Some(flushed.(archive := flushed.archive.(closed := true)))))
  }

  /** `ZipFileDataTap.write_file(file_obj, path)`: the file's whole contents go into a new pending
      `OutFile` for `path`, and `path` is returned unchanged. */
  function WriteFile(tap: ZipFileTap, fileObj: FileObj, path: string): (r: Result<(ZipFileTap, string)>)
    requires tap.session.Some? ==> Valid(tap.session.value)
    ensures r.Ok? <==> tap.session.Some?
    ensures r.Ok? ==> r.value.0.session.Some?
    ensures r.Ok? ==>
              var (before, after) := (tap.session.value, r.value.0.session.value);
              && r.value.1 == path
              && r.value.0.filename == tap.filename && r.value.0.mode == tap.mode
              && Valid(after)
              && exists id :: id !in before.files
                              && after.files == before.files[id := OutFile(path, fileObj.content)]
                              && after.pending == before.pending + {id}
                              && after.archive == before.archive
  {
    match tap.session
    case None => Err(AttributeError("writing_files"))
    case Some(s) =>
      var (added, id) := GetWriteFileObject(s, path);
      var written := WriteOutFile(added, id, fileObj.content);
      assert "" + fileObj.content == fileObj.content;
      Ok((tap.(session := Some(written)), path))
  }

  /** `DjangoZipExtFile(zipextfile, zipinfo)`: a read-mode File reporting the member's file name
      and size. */
  datatype ZipExtFile = ZipExtFile(name: string, size: nat, mode: string, content: string)

  /** `ZipFileDataTap.read_file(path)`: the member stored under `path`, or KeyError. */
  function ReadFile(tap: ZipFileTap, path: string): (r: Result<ZipExtFile>)
    ensures tap.session.None? ==> r.Err?
    ensures tap.session.Some? ==>
              var archive := tap.session.value.archive;
              && (r.Ok? <==> !archive.closed && Find(archive.members, path).Some?)
              && (r.Ok? ==> var m := Find(archive.members, path).value;
                            r.value == ZipExtFile(path, m.size, "r", m.data))
              && (r.Err? && !archive.closed ==> r.error == KeyError(path))
  {
    match tap.session
    case None => Err(AttributeError("zipfile"))
    case Some(s) =>
      var member :- OpenMember(s.archive, path, "r");
      Ok(ZipExtFile(member.name, member.size, "r", member.data))
  }

  /** `DjangoZipExtFile.seek(position)`: seeking to the start does nothing; any other position
      is passed to the member stream, which cannot seek. */
  function Seek(file: ZipExtFile, position: int): (r: Result<ZipExtFile>)
    ensures r.Ok? <==> position == 0
    ensures r.Ok? ==> r.value == file
    ensures r.Err? ==> r.error.UnsupportedOperation?
  {
    if position != 0 then Err(UnsupportedOperation("seek")) else Ok(file)
  }

  /** `detect_originating_datatap()`: the class registered under the name stored in
      `originator.txt`. */
  function DetectOriginator(tap: ZipFileTap, reg: Registry.Registry): (r: Result<Registry.ClassName>)
    ensures tap.session.None? ==> r.Err?
    ensures tap.session.Some? && !tap.session.value.archive.closed ==>
              var archive := tap.session.value.archive;
              match Find(archive.members, OriginatorName)
              case None => r == Err(KeyError(OriginatorName))
              case Some(m) => r == Registry.Lookup(reg, m.data)
  {
    match tap.session
    case None => Err(AttributeError("zipfile"))
    case Some(s) =>
      var member :- OpenMember(s.archive, OriginatorName, "r");
      Registry.Lookup(reg, member.data)
  }

  /** A tap fresh from its constructor cannot be opened in any mode. */
  lemma FreshOpenFails(filename: string, mode: string, forDatatap: Option<Registry.ClassName>,
                       reg: Registry.Registry, onDisk: Option<seq<Member>>)
    ensures Open(New(filename), mode, forDatatap, reg, onDisk).Err?
  {
  }

  /** Mode 'a' is accepted by the archive but then used to open the manifest, which only the read
      modes may do, so opening a tap for appending always fails. */
  lemma AppendOpenFails(tap: ZipFileTap, forDatatap: Option<Registry.ClassName>,
                        reg: Registry.Registry, onDisk: Option<seq<Member>>)
    requires tap.mode != Mode(Some("a"))
    ensures Open(tap, "a", forDatatap, reg, onDisk).Err?
  {
  }

  /** Closing an `OutFile` a second time writes nothing. */
  lemma SecondCloseWritesNothing(s: Session, id: nat)
    requires Valid(s) && id in s.files
    requires CloseOutFile(s, id).Ok?
    ensures CloseOutFile(CloseOutFile(s, id).value, id) == CloseOutFile(s, id)
  {
  }

  /** The manifest is flushed only when the tap is closed, so after writing with an originator
      the archive holds `originator.txt` first, and `manifest.json` with whatever was written to
      it later. */
  lemma OriginatorPrecedesManifest(tap: ZipFileTap, cls: Registry.ClassName, reg: Registry.Registry,
                                   onDisk: Option<seq<Member>>, order: seq<nat>)
    requires tap.mode.Mode? && tap.mode != Mode(Some("w"))
    requires Registry.GetIdent(reg, cls).Ok?
    requires var started := Open(tap, "w", Some(cls), reg, onDisk);
             started.Ok? && Lists(order, started.value.session.value.pending)
    ensures var started := Open(tap, "w", Some(cls), reg, onDisk).value;
            var closed := Close(started, order);
            && closed.Ok?
            && closed.value.session.value.archive.members
               == [MemberOf(OriginatorName, Registry.GetIdent(reg, cls).value), MemberOf(ManifestName, "")]
  {
    var started := Open(tap, "w", Some(cls), reg, onDisk).value;
    var s := started.session.value;
    var manifestId := s.objectStream.manifestId;
    ListsCardinality(order, s.pending);
  }

  /** What `write_file` hands to the tap is stored in the archive, under its path, once the tap
      is closed. */
  lemma WrittenFileStoredAtClose(tap: ZipFileTap, fileObj: FileObj, path: string, order: seq<nat>)
    requires tap.session.Some? && Valid(tap.session.value) && Writable(tap.session.value.archive)
    requires var written := WriteFile(tap, fileObj, path).value.0;
             Lists(order, written.session.value.pending)
    ensures var written := WriteFile(tap, fileObj, path).value.0;
            var closed := Close(written, order);
            && closed.Ok?
            && MemberOf(path, fileObj.content) in closed.value.session.value.archive.members
  {
    var written := WriteFile(tap, fileObj, path).value.0;
    var before := tap.session.value;
    var after := written.session.value;
    var id :| id !in before.files && after.files == before.files[id := OutFile(path, fileObj.content)]
              && after.pending == before.pending + {id} && after.archive == before.archive;
    assert id in order;
    var k :| 0 <= k < |order| && order[k] == id;
    var closed := Close(written, order).value.session.value;
    FlushedAt(after.files, order, k);
    assert closed.archive.members[|before.archive.members| + k] == MemberOf(path, fileObj.content);
  }

  /** An archive written by a tap opened for a registered class and then closed, once opened for
      reading, reports that class as its originator. */
  lemma OriginatorRoundTrip(writer: ZipFileTap, reader: ZipFileTap, name: string, cls: Registry.ClassName,
                            reg: Registry.Registry, onDisk: Option<seq<Member>>, order: seq<nat>)
    requires writer.mode.Mode? && writer.mode != Mode(Some("w"))
    requires reader.mode.Mode? && reader.mode != Mode(Some("r"))
    requires var started := Open(writer, "w", Some(cls), Registry.Register(reg, name, cls), onDisk);
             started.Ok? && Lists(order, started.value.session.value.pending)
    ensures var registry := Registry.Register(reg, name, cls);
            var started := Open(writer, "w", Some(cls), registry, onDisk).value;
            var stored := Close(started, order).value.session.value.archive.members;
            var reading := Open(reader, "r", None, registry, Some(stored));
            && reading.Ok?
            && DetectOriginator(reading.value, registry) == Ok(cls)
  {
    var registry := Registry.Register(reg, name, cls);
    OriginatorPrecedesManifest(writer, cls, registry, onDisk, order);
    var started := Open(writer, "w", Some(cls), registry, onDisk).value;
    var stored := Close(started, order).value.session.value.archive.members;
    assert stored == [MemberOf(OriginatorName, name), MemberOf(ManifestName, "")];
    FindInPair(MemberOf(OriginatorName, name), MemberOf(ManifestName, ""));
    var reading := Open(reader, "r", None, registry, Some(stored));
    assert reading.Ok?;
    assert reading.value.session.value.archive == ZipArchive(stored, "r", false);
  }

  /** Opening for a subclass that was never registered itself (`BufferedStreamDataTap` under
      `register_datatap('Stream', StreamDataTap)`) records the base class's name, which it
      inherits through `get_ident`. */
  lemma SubclassOriginatorNamesBase(tap: ZipFileTap, name: string, base: Registry.ClassName, sub: Registry.ClassName,
                                    reg: Registry.Registry, onDisk: Option<seq<Member>>)
    requires tap.mode.Mode? && tap.mode != Mode(Some("w"))
    requires sub != base && sub !in reg.idents
    ensures var registry := Registry.Register(Registry.Declare(reg, sub, base), name, base);
            var started := Open(tap, "w", Some(sub), registry, onDisk);
            && started.Ok?
            && started.value.session.value.archive.members == [MemberOf(OriginatorName, name)]
  {
    Registry.SubclassInheritsIdent(reg, name, base, sub);
  }

  /** In a two-member archive with distinct names, each member is found by its own name. */
  lemma FindInPair(first: Member, second: Member)
    requires first.name != second.name
    ensures Find([first, second], first.name) == Some(first)
    ensures Find([first, second], second.name) == Some(second)
  {
    FindAnywhere([], first, [second]);
    FindAnywhere([first], second, []);
    assert [first, second] == [] + [first] + [second] == [first] + [second] + [];
  }

  /** Reopening a closed tap in the mode it was opened with does nothing, so the archive stays
      closed and a file written afterwards can never be flushed. */
  lemma WriteAfterCloseIsLost(tap: ZipFileTap, mode: string, forDatatap: Option<Registry.ClassName>,
                              reg: Registry.Registry, onDisk: Option<seq<Member>>,
                              order: seq<nat>, fileObj: FileObj, path: string, later: seq<nat>)
    requires tap.mode == Mode(Some(mode))
    requires tap.session.Some? && Valid(tap.session.value) && Lists(order, tap.session.value.pending)
    requires Close(tap, order).Ok?
    requires var reopened := Open(Close(tap, order).value, mode, forDatatap, reg, onDisk).value;
             Lists(later, WriteFile(reopened, fileObj, path).value.0.session.value.pending)
    ensures var reopened := Open(Close(tap, order).value, mode, forDatatap, reg, onDisk);
            && reopened == Close(tap, order)
            && Close(WriteFile(reopened.value, fileObj, path).value.0, later).Err?
  {
    var reopened := Close(tap, order).value;
    var written := WriteFile(reopened, fileObj, path).value.0.session.value;
    var id :| id !in reopened.session.value.files
              && written.pending == reopened.session.value.pending + {id};
    assert id in later;
  }
}
