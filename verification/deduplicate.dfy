/**
 * `deduplicate_inner`: rewrites a mod pack so that files with the same
 * content are stored once. Every packed file is extracted into a scratch
 * file and handed to a fresh `MpdEncoder` (which does the deduplication);
 * the encoder's manifest and data file are then written to a new archive
 * next to the old one, named `<stem>.deduplicated.<ext>`.
 */
module Deduplicate {
  import opened Common
  import opened Paths
  import opened Ttmp

  /** The `deduplicate-progress` events, in the order they are emitted. */
  datatype Progress = SettingUp | ProcessingFiles(current: nat, total: nat) | CreatingArchive | Done

  /** An opened pack: its files sorted by offset and its manifest. */
  datatype Pack = Pack(files: seq<ArchiveEntry>, manifest: ManifestKind)

  /** The archive written: where, the text of `TTMPL.mpl` and the bytes of `TTMPD.mpd`. */
  datatype Written = Written(path: string, manifestText: string, mpd: seq<byte>)

  /** Which encoder method a game path goes to: models first, then textures, else standard. */
  function Classify(gamePath: string): (r: AddKind)
    ensures r == ModelFile <==> EndsWith(gamePath, ".mdl")
    ensures r == TextureFile <==> !EndsWith(gamePath, ".mdl") && (EndsWith(gamePath, ".tex") || EndsWith(gamePath, ".atex"))
  {
    if EndsWith(gamePath, ".mdl") then ModelFile
    else if EndsWith(gamePath, ".tex") || EndsWith(gamePath, ".atex") then TextureFile
    else StandardFile
  }

  /** The one encoder call an entry gives rise to. */
  function CallFor(e: ArchiveEntry): EncoderCall
  {
    EncoderCall(Classify(e.fullPath), FileInfo(e.group, e.option, e.fullPath), |e.content|, e.content)
  }

  function CallsFor(es: seq<ArchiveEntry>): (r: seq<EncoderCall>)
    ensures |r| == |es|
  {
    seq(|es|, i requires 0 <= i < |es| => CallFor(es[i]))
  }

  function Progressed(n: nat): (r: seq<Progress>)
    ensures |r| == n
  {
    seq(n, i requires 0 <= i < n => ProcessingFiles(i + 1, n))
  }

  /**
   * The per-file loop: no file is skipped, whatever its offset; each is
   * written alone into the emptied staging file and given to the encoder
   * with its own group, option and path, its size being its staged length.
   */
  method EncodeFiles(files: seq<ArchiveEntry>, encoder: Encoder, staging: ScratchFile) returns (events: seq<Progress>)
    modifies encoder, staging
    ensures encoder.calls == old(encoder.calls) + CallsFor(files)
    ensures events == Progressed(|files|)
    ensures forall i :: 0 <= i < |files| ==>
      var c := encoder.calls[|old(encoder.calls)| + i];
      c.info.gamePath == files[i].fullPath && c.size == |files[i].content| && c.data == files[i].content
  {
    events := [];
    for i := 0 to |files|
      invariant encoder.calls == old(encoder.calls) + CallsFor(files[..i])
      invariant events == Progressed(|files|)[..i]
    {
      var file := files[i];
      staging.Truncate();
      staging.Append(file.content);
      assert staging.data == file.content;
      var size := |staging.data|;

      var info := FileInfo(file.group, file.option, file.fullPath);
      if EndsWith(info.gamePath, ".mdl") {
        encoder.Add(ModelFile, info, size, staging.data);
      } else if EndsWith(info.gamePath, ".tex") || EndsWith(info.gamePath, ".atex") {
        encoder.Add(TextureFile, info, size, staging.data);
      } else {
        encoder.Add(StandardFile, info, size, staging.data);
      }
      assert CallsFor(files[..i + 1]) == CallsFor(files[..i]) + [CallFor(file)];
      events := events + [ProcessingFiles(i + 1, |files|)];
    }
    assert files[..|files|] == files;
  }

  /** The extension the new archive keeps: the input's, or `ttmp2` when it has none. */
  function KeptExtension(path: string): string
  {
    match Extension(path)
    case Some(e) => e
    case None => "ttmp2"
  }

  /** `path.with_extension(format!("deduplicated.{}", extension))`. */
  function DedupPath(path: string): string
  {
    WithExtension(path, "deduplicated." + KeptExtension(path))
  }

  lemma ExtensionShape(path: string)
    ensures NoSlash(KeptExtension(path))
    ensures forall i :: 0 <= i < |KeptExtension(path)| ==> KeptExtension(path)[i] != '.'
  {
    match FileName(path)
    case None =>
    case Some(name) =>
      var split := SplitAtDot(name);
      if split.1.Some? {
        var e := split.1.value;
        assert name == split.0 + "." + e;
        forall i | 0 <= i < |e|
          ensures e[i] != '/'
        {
          assert e[i] == name[|split.0| + 1 + i];
        }
      }
  }

  /**
   * For an input that names a file, the new archive sits in the same
   * directory, is named after the input's stem followed by
   * `.deduplicated.` and the kept extension, has that extension, and is a
   * different path from the input.
   */
  lemma DedupPathShape(path: string)
    requires FileName(path).Some?
    ensures var stem := SplitAtDot(FileName(path).value).0;
      DedupPath(path) == path[..DirLength(path)] + stem + ("." + ("deduplicated" + "." + KeptExtension(path)))
    ensures Extension(DedupPath(path)) == Some(KeptExtension(path))
    ensures DedupPath(path) != path
  {
    var e := KeptExtension(path);
    ExtensionShape(path);
    assert "deduplicated." + e == "deduplicated" + "." + e;
    WithExtensionExtension(path, "deduplicated", e);
    var name := FileName(path).value;
    var split := SplitAtDot(name);
    assert |path| == DirLength(path) + |name|;
    if split.1.Some? {
      assert |name| == |split.0| + 1 + |split.1.value|;
    }
  }

  /**
   * The command. `pack` is what opening the archive gives (its files and
   * manifest, or the error it fails with); `finalize` is the encoder's
   * `finalize`, giving the new manifest and data file from the calls it
   * received.
   */
  method DeduplicateInner(path: string, pack: Result<Pack>,
                          finalize: (ManifestKind, seq<EncoderCall>) -> (ManifestKind, seq<byte>))
    returns (r: Result<Written>, events: seq<Progress>)
    ensures pack.Err? ==> r == Err(pack.error) && events == [SettingUp]
    ensures pack.Ok? ==>
      var files := pack.value.files;
      var result := finalize(pack.value.manifest, CallsFor(files));
      r == Ok(Written(DedupPath(path), ManifestText(result.0), result.1))
      && events == [SettingUp, ProcessingFiles(0, |files|)] + Progressed(|files|) + [CreatingArchive, Done]
  {
    events := [SettingUp];
    if pack.Err? {
      return Err(pack.error), events;
    }
    var files := pack.value.files;
    var encoder := new Encoder(pack.value.manifest);
    var staging := new ScratchFile();
    events := events + [ProcessingFiles(0, |files|)];
    var processed := EncodeFiles(files, encoder, staging);
    events := events + processed;
    assert encoder.calls == CallsFor(files);

    var (manifest, mpd) := finalize(encoder.manifest, encoder.calls);
    var newPath := DedupPath(path);
    events := events + [CreatingArchive];
    var text := ManifestText(manifest);
    events := events + [Done];
    r := Ok(Written(newPath, text, mpd));
  }
}
