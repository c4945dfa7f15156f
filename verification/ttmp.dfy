/**
 * The boundary of the `ttmp` mod-pack library as the commands see it. An
 * archive is opened by `TtmpExtractor`, whose `all_files_sorted` lists the
 * packed files by offset; `extract_one_into` writes one file's decoded
 * bytes into a scratch file; `MpdEncoder` is given one `add_*_file` call per
 * file and finally yields a manifest. The library's internals are not part
 * of this model: a listed file carries its decoded content, the encoder is
 * the trace of the calls it received, and its `finalize` is a function
 * supplied by the caller.
 */
module Ttmp {
  import opened Common

  /** One file of a pack, as `all_files_sorted` lists it. */
  datatype ArchiveEntry = ArchiveEntry(
    offset: nat,             // `mod_offset`: where its data starts in `TTMPD.mpd`
    fullPath: string,        // the game path it replaces
    group: Option<string>,   // the option group it belongs to, if any
    option: Option<string>,  // the option it belongs to, if any
    content: seq<byte>)      // what `extract_one_into` writes for it

  /** `mpd_encoder::FileInfo`: where an added file belongs. */
  datatype FileInfo = FileInfo(group: Option<string>, option: Option<string>, gamePath: string)

  /** Which `add_*_file` method of the encoder was called. */
  datatype AddKind = ModelFile | TextureFile | StandardFile

  /** One call to the encoder: its kind, its file info, the size argument and the bytes it read. */
  datatype EncoderCall = EncoderCall(kind: AddKind, info: FileInfo, size: nat, data: seq<byte>)

  /**
   * `model::ManifestKind`: a version-1 manifest is a list of simple mods,
   * a version-2 manifest one mod pack. Each mod or pack is held as the
   * compact JSON text `serde_json` writes for it.
   */
  datatype ManifestKind = V1(mods: seq<string>) | V2(pack: string)

  /** The `TTMPL.mpl` text of a version-1 manifest: each mod followed by a newline. */
  function Lines(mods: seq<string>): (r: string)
    ensures |mods| > 0 ==> |r| > 0 && r[|r| - 1] == '\n'
  {
    if mods == [] then "" else mods[0] + "\n" + Lines(mods[1..])
  }

  /** The text of `TTMPL.mpl` for a manifest. */
  function ManifestText(m: ManifestKind): string
  {
    match m
    case V1(mods) => Lines(mods)
    case V2(pack) => pack
  }

  predicate NoNewline(s: string) {
    forall i :: 0 <= i < |s| ==> s[i] != '\n'
  }

  /** Index of the first newline of `s`, or `|s|` when there is none. */
  function LineEnd(s: string): (n: nat)
    ensures n <= |s|
    ensures n < |s| ==> s[n] == '\n'
    ensures forall i :: 0 <= i < n ==> s[i] != '\n'
  {
    if s == [] || s[0] == '\n' then 0 else 1 + LineEnd(s[1..])
  }

  /** Reading a `TTMPL.mpl` text back one newline-terminated line at a time. */
  function SplitLines(s: string): (r: seq<string>)
    ensures forall i :: 0 <= i < |r| ==> NoNewline(r[i])
    decreases |s|
  {
    if s == [] then []
    else
      var n := LineEnd(s);
      if n == |s| then [s] else [s[..n]] + SplitLines(s[n + 1..])
  }

  lemma LineEndOf(m: string, rest: string)
    requires NoNewline(m)
    ensures LineEnd(m + "\n" + rest) == |m|
  {
    var s := m + "\n" + rest;
    assert s[|m|] == '\n';
    assert forall i :: 0 <= i < |m| ==> s[i] == m[i];
  }

  /**
   * A V1 manifest reads back as the mods it was written from, provided the
   * JSON texts hold no raw newline (compact `serde_json` output never does).
   */
  lemma {:induction false} SplitLinesOfLines(mods: seq<string>)
    requires forall i :: 0 <= i < |mods| ==> NoNewline(mods[i])
    ensures SplitLines(ManifestText(V1(mods))) == mods
    decreases |mods|
  {
    if mods != [] {
      var s := Lines(mods);
      var rest := Lines(mods[1..]);
      assert s == mods[0] + "\n" + rest;
      LineEndOf(mods[0], rest);
      assert s[..|mods[0]|] == mods[0];
      assert s[|mods[0]| + 1..] == rest;
      SplitLinesOfLines(mods[1..]);
    }
  }

  /**
   * A scratch file (`tempfile::tempfile()`): the bytes written to it.
   * Rewinding and truncating it empties it; extracting into it appends.
   */
  class ScratchFile {
    var data: seq<byte>

    constructor ()
      ensures data == []
    {
      data := [];
    }

    /** `rewind()` then `set_len(0)`. */
    method Truncate()
      modifies this
      ensures data == []
    {
      data := [];
    }

    /** Writing `bytes` at the end (what `extract_one_into` and a compressor do). */
    method Append(bytes: seq<byte>)
      modifies this
      ensures data == old(data) + bytes
    {
      data := data + bytes;
    }
  }

  /**
   * `MpdEncoder`: the manifest it was created with and the calls it has
   * received, in order.
   */
  class Encoder {
    const manifest: ManifestKind
    var calls: seq<EncoderCall>

    constructor (manifest: ManifestKind)
      ensures this.manifest == manifest && calls == []
    {
      this.manifest := manifest;
      calls := [];
    }

    /** One `add_model_file`, `add_texture_file` or `add_standard_file` call. */
    method Add(kind: AddKind, info: FileInfo, size: nat, data: seq<byte>)
      modifies this
      ensures calls == old(calls) + [EncoderCall(kind, info, size, data)]
    {
      calls := calls + [EncoderCall(kind, info, size, data)];
    }
  }
}
