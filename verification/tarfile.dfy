/** `datatap/datataps/tarfile.py`: a tap that stores standardized items as a tar archive, the
    attachments as members written while the items are encoded and `manifest.json` written last. */
module TarTap {
  import opened Errors
  import opened Domains
  import opened PyIO
  import opened Encoders
  import opened Archive

  /** The member holding the encoded items. */
  const ManifestName: string := "manifest.json"

  /** A `tarfile.TarFile`: its members in write order, whether it was opened with mode 'w'
      rather than 'r', and whether it has been closed. */
  datatype TarArchive = TarArchive(members: seq<Member>, writable: bool, closed: bool)

  /** `TarFileTap(archive)`: the filetap the encoder externalizes attachments through. */
  datatype TarFileTap = TarFileTap(archive: TarArchive)

  /** `TarFileDataTap.get_domain()`: bytes in, primitives out and the reverse; anything else
      trips the assertion. */
  function GetDomain(inner: Domain): (r: Result<Domain>)
    ensures r == Ok(Primitive) <==> inner == Bytes
    ensures r == Ok(Bytes) <==> inner == Primitive
    ensures r.Err? <==> inner != Bytes && inner != Primitive
    ensures r.Err? ==> r.error.AssertionError?
  {
    if inner == Bytes then Ok(Primitive)
    else if inner == Primitive then Ok(Bytes)
    else Err(AssertionError("Unrecognized instream domain"))
  }

  /** `TarFileTap.write_file(file_obj, path)`: one new member named `path` holding everything
      `file_obj.read()` returns, sized by its length; the path is returned unchanged. Adding to a
      closed archive, or one opened for reading, raises IOError. */
  function WriteFile(tap: TarFileTap, fileObj: FileObj, path: string): (r: Result<(TarFileTap, string)>)
    ensures r.Ok? <==> tap.archive.writable && !tap.archive.closed
    ensures r.Ok? ==> r.value.1 == path
    ensures r.Ok? ==> r.value.0.archive == tap.archive.(members := tap.archive.members + [MemberOf(path, fileObj.content)])
    ensures r.Err? ==> r.error.IOError?
  {
    if tap.archive.closed then Err(IOError("TarFile is closed"))
    else if !tap.archive.writable then Err(IOError("bad operation for mode 'r'"))
    else Ok((TarFileTap(tap.archive.(members := tap.archive.members + [MemberOf(path, fileObj.content)])), path))
  }

  /** `TarFileTap.read_file(path)` calls `self.archive.open(path, 'r')` and
      `self.archive.getinfo(path)`: `TarFile.open` is the class method that opens a new archive
      from a disk path, and TarFile has no `getinfo`, so reading an attachment always raises. */
  function ReadFile(tap: TarFileTap, path: string): (r: Result<ExtFile>)
    ensures r.Err?
  {
    Err(AttributeError("getinfo"))
  }

  /** `DjangoTarExtFile(tarextfile, tarinfo)`: a read-mode File reporting the member's name and
      size. */
  datatype ExtFile = ExtFile(name: string, size: nat, mode: string, content: string)

  function TarExtFile(member: Member): (f: ExtFile)
    ensures f.name == member.name && f.size == member.size && f.mode == "r"
    ensures f.content == member.data
  {
    ExtFile(member.name, member.size, "r", member.data)
  }

  /** What the JSON encoder hands back: a single string, or an iterable of chunks. */
  datatype Encoded = Whole(text: string) | Chunks(parts: seq<string>)

  /** The encoder's side of `send`: the `write_file(file_obj, path)` calls it makes on the
      filetap while encoding, in order, and the encoded value. */
  datatype Encoding = Encoding(externalized: seq<(FileObj, string)>, manifest: Encoded)

  /** The manifest text: the encoded value itself when it is a string, else the chunks joined. */
  function ManifestText(e: Encoded): (text: string)
    ensures e.Whole? ==> text == e.text
    ensures e.Chunks? ==> text == Concat(e.parts)
  {
    match e
    case Whole(text) => text
    case Chunks(parts) => Concat(parts)
  }

  /** The encoder's `write_file` calls against the filetap, in order. */
  function WriteAll(tap: TarFileTap, writes: seq<(FileObj, string)>): (r: Result<TarFileTap>)
    ensures r.Ok? <==> tap.archive.writable && !tap.archive.closed
    ensures r.Ok? ==> r.value.archive.writable && !r.value.archive.closed
    ensures r.Ok? ==> |r.value.archive.members| == |tap.archive.members| + |writes|
    ensures r.Ok? ==> r.value.archive.members[..|tap.archive.members|] == tap.archive.members
    ensures r.Ok? ==> forall i :: 0 <= i < |writes| ==>
              r.value.archive.members[|tap.archive.members| + i] == MemberOf(writes[i].1, writes[i].0.content)
    decreases |writes|
  {
    if |writes| == 0 then
      if tap.archive.closed then Err(IOError("TarFile is closed"))
      else if !tap.archive.writable then Err(IOError("bad operation for mode 'r'"))
      else Ok(tap)
    else
      match WriteFile(tap, writes[0].0, writes[0].1)
      case Err(e) => Err(e)
      case Ok((next, _)) =>
        var r := WriteAll(next, writes[1..]);
        assert r.Ok? ==> r.value.archive.members[|tap.archive.members|] == MemberOf(writes[0].1, writes[0].0.content);
        r
  }

  /** `send(fileobj)`: a fresh archive receives each attachment as the encoder externalizes it,
      then `manifest.json` sized by the manifest's length, and is closed. */
  function Send(encoding: Encoding): (archive: TarArchive)
    ensures archive.writable && archive.closed
    ensures |archive.members| == |encoding.externalized| + 1
    ensures forall i :: 0 <= i < |encoding.externalized| ==>
              archive.members[i] == MemberOf(encoding.externalized[i].1, encoding.externalized[i].0.content)
    ensures archive.members[|archive.members| - 1] == MemberOf(ManifestName, ManifestText(encoding.manifest))
  {
    var written := WriteAll(TarFileTap(TarArchive([], true, false)), encoding.externalized);
    var members := written.value.archive.members + [MemberOf(ManifestName, ManifestText(encoding.manifest))];
    TarArchive(members, true, true)
  }

  /** `get_primitive_stream(instream)` on the read side: the stored members are opened as an
      archive in mode 'r', which also becomes the filetap, and `manifest.json` is extracted by
      name (the last member of that name); a missing manifest raises KeyError. The manifest's
      text is what the JSON decoder would read. */
  function PrimitiveStream(stored: seq<Member>): (r: Result<(string, TarFileTap)>)
    ensures r.Ok? <==> exists i :: 0 <= i < |stored| && stored[i].name == ManifestName
    ensures r.Ok? ==> r.value.1 == TarFileTap(TarArchive(stored, false, false))
    ensures r.Ok? ==> exists i :: 0 <= i < |stored| && stored[i].name == ManifestName && stored[i].data == r.value.0
                        && forall j :: i < j < |stored| ==> stored[j].name != ManifestName
    ensures r.Err? ==> r.error == KeyError(ManifestName)
  {
    match Find(stored, ManifestName)
    case None => Err(KeyError(ManifestName))
    case Some(m) => Ok((m.data, TarFileTap(TarArchive(stored, false, false))))
  }

  /** Reading back what `send` wrote finds the manifest it wrote last, even when an attachment
      was also externalized under the name `manifest.json`. */
  lemma SendThenReadManifest(encoding: Encoding)
    ensures PrimitiveStream(Send(encoding).members)
            == Ok((ManifestText(encoding.manifest), TarFileTap(TarArchive(Send(encoding).members, false, false))))
  {
    var archive := Send(encoding);
    var n := |archive.members|;
    assert archive.members == archive.members[..n - 1] + [archive.members[n - 1]] + [];
    FindAnywhere(archive.members[..n - 1], archive.members[n - 1], []);
  }

  /** An attachment externalized under a path other than the manifest's, and not overwritten by
      a later attachment of the same path, is found in the archive with exactly its contents. */
  lemma SendKeepsAttachment(encoding: Encoding, i: nat)
    requires i < |encoding.externalized|
    requires encoding.externalized[i].1 != ManifestName
    requires forall j :: i < j < |encoding.externalized| ==> encoding.externalized[j].1 != encoding.externalized[i].1
    ensures Find(Send(encoding).members, encoding.externalized[i].1)
            == Some(MemberOf(encoding.externalized[i].1, encoding.externalized[i].0.content))
  {
    var members := Send(encoding).members;
    assert members == members[..i] + [members[i]] + members[i + 1..];
    FindAnywhere(members[..i], members[i], members[i + 1..]);
  }
}
