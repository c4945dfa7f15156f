/**
 * `calculate_usage_inner`: how many bytes installing a mod pack would add to
 * the user's storage. The archive is hashed as a whole to key a cache of
 * earlier results; on a miss every packed file is extracted, hashed and
 * compressed, giving a record `hash -> (compressed size, game paths)` that
 * is stored in the cache. The bytes the pack adds are the compressed sizes
 * of the hashes the caller does not already hold.
 *
 * SHA3-256 (printed as hex) and zstd compression at level 9 are foreign
 * functions, given as `Codecs`.
 */
module CalculateUsage {
  import opened Common
  import opened Paths
  import opened Ttmp

  /** The foreign functions the pass calls. */
  datatype Codecs = Codecs(sha3Hex: seq<byte> -> string, zstd: seq<byte> -> seq<byte>)

  /** `UsageInfo::hashes`: content hash to (compressed size, game paths that use it). */
  type HashRecord = map<string, (nat, seq<string>)>

  /** A cache entry: the archive's file name, its length in bytes and its record. */
  datatype UsageInfo = UsageInfo(fileName: string, ttmpSize: nat, hashes: HashRecord)

  /** What the command reports per hash, and whether its size counts toward the total. */
  datatype Calculated = Calculated(size: nat, files: seq<string>, counts: bool)

  datatype CalculatedUsage = CalculatedUsage(total: nat, hashes: map<string, Calculated>)

  /** The `storage-progress` events, in the order they are emitted. */
  datatype Progress = HashingTtmp | ExtractingFiles(current: nat, total: nat) | CalculatingSize | Done

  /** The archive on disk, read from a position at most `chunk` bytes per call. */
  class ArchiveFile {
    const bytes: seq<byte>
    const chunk: nat
    var pos: nat

    ghost predicate Valid()
      reads this
    {
      chunk > 0 && pos <= |bytes|
    }

    constructor (bytes: seq<byte>, chunk: nat)
      requires chunk > 0
      ensures this.bytes == bytes && this.chunk == chunk && pos == 0 && Valid()
    {
      this.bytes := bytes;
      this.chunk := chunk;
      pos := 0;
    }

    /** `read` into a buffer of `cap` bytes: some bytes from the position on, none only at the end. */
    method Read(cap: nat) returns (got: seq<byte>)
      requires Valid() && cap > 0
      modifies this
      ensures Valid()
      ensures old(pos) <= pos && got == bytes[old(pos)..pos]
      ensures got == [] <==> old(pos) == |bytes|
    {
      var n := |bytes| - pos;
      if cap < n { n := cap; }
      if chunk < n { n := chunk; }
      got := bytes[pos..pos + n];
      pos := pos + n;
    }

    method Rewind()
      modifies this
      ensures pos == 0
    {
      pos := 0;
    }
  }

  /** The SHA3-256 state: the bytes given to it since it was last reset. */
  class Hasher {
    var fed: seq<byte>

    constructor ()
      ensures fed == []
    {
      fed := [];
    }

    method Update(bytes: seq<byte>)
      modifies this
      ensures fed == old(fed) + bytes
    {
      fed := fed + bytes;
    }

    /** `finalize_reset` followed by `hex::encode`. */
    method FinalizeReset(codecs: Codecs) returns (digest: string)
      modifies this
      ensures digest == codecs.sha3Hex(old(fed)) && fed == []
    {
      digest := codecs.sha3Hex(fed);
      fed := [];
    }
  }

  /** The usage part of the application's cache, and every state of it that was saved to disk. */
  class Cache {
    var usage: map<string, UsageInfo>
    var saved: seq<map<string, UsageInfo>>

    constructor (usage: map<string, UsageInfo>)
      ensures this.usage == usage && saved == []
    {
      this.usage := usage;
      saved := [];
    }

    method Insert(key: string, info: UsageInfo)
      modifies this
      ensures usage == old(usage)[key := info] && saved == old(saved)
    {
      usage := usage[key := info];
    }

    /** `save_cache`. */
    method Save()
      modifies this
      ensures usage == old(usage) && saved == old(saved) + [usage]
    {
      saved := saved + [usage];
    }
  }

  /**
   * Reading the whole archive in 4096-byte buffers: the size is the number
   * of bytes read and the hasher has been given exactly those bytes, in order.
   */
  method HashArchive(file: ArchiveFile, sha: Hasher) returns (size: nat)
    requires file.Valid() && file.pos == 0 && sha.fed == []
    modifies file, sha
    ensures file.Valid() && file.pos == |file.bytes|
    ensures size == |file.bytes| && sha.fed == file.bytes
  {
    size := 0;
    while true
      invariant file.Valid() && size == file.pos
      invariant sha.fed == file.bytes[..file.pos]
      decreases |file.bytes| - file.pos
    {
      var read := file.Read(4096);
      if read == [] {
        break;
      }
      size := size + |read|;
      sha.Update(read);
      assert file.bytes[..file.pos] == file.bytes[..file.pos - |read|] + read;
    }
    assert file.bytes[..file.pos] == file.bytes;
  }

  /**
   * Entry `i` of the sorted listing is skipped when it starts where the
   * previous entry starts: a deduplicated pack lists one stored file under
   * several paths at the same offset.
   */
  predicate Skipped(es: seq<ArchiveEntry>, i: nat)
    requires i < |es|
  {
    i > 0 && es[i].offset == es[i - 1].offset
  }

  /** `hashes.entry(hash).or_insert_with(|| (size, vec![])).1.push(path)`. */
  function Record(acc: HashRecord, hash: string, size: nat, path: string): (r: HashRecord)
    ensures r.Keys == acc.Keys + {hash}
    ensures forall k :: k in acc && k != hash ==> r[k] == acc[k]
    ensures hash in acc ==> r[hash] == (acc[hash].0, acc[hash].1 + [path])
    ensures hash !in acc ==> r[hash] == (size, [path])
  {
    if hash in acc then acc[hash := (acc[hash].0, acc[hash].1 + [path])] else acc[hash := (size, [path])]
  }

  /** The record the extraction pass builds from a sorted listing. */
  function UsageOf(es: seq<ArchiveEntry>, codecs: Codecs): HashRecord
    decreases |es|
  {
    if es == [] then map[]
    else
      var i := |es| - 1;
      var prev := UsageOf(es[..i], codecs);
      if Skipped(es, i) then prev
      else Record(prev, codecs.sha3Hex(es[i].content), |codecs.zstd(es[i].content)|, es[i].fullPath)
  }

  /** The progress events of the extraction pass after its first one. */
  function ExtractProgress(es: seq<ArchiveEntry>, total: nat): seq<Progress>
    decreases |es|
  {
    if es == [] then []
    else
      var i := |es| - 1;
      ExtractProgress(es[..i], total) + (if Skipped(es, i) then [] else [ExtractingFiles(i + 1, total)])
  }

  /**
   * The extraction loop. Each entry that is not skipped is written alone
   * into the emptied staging file; the hasher and the emptied compressor
   * output are fed that entry's bytes, once each; the record then gains
   * the entry's path under its hash.
   */
  method ExtractHashes(entries: seq<ArchiveEntry>, codecs: Codecs, sha: Hasher, staging: ScratchFile, compressed: ScratchFile)
    returns (hashes: HashRecord, events: seq<Progress>)
    requires staging != compressed && sha.fed == []
    modifies sha, staging, compressed
    ensures hashes == UsageOf(entries, codecs)
    ensures events == [ExtractingFiles(0, |entries|)] + ExtractProgress(entries, |entries|)
    ensures sha.fed == []
  {
    hashes := map[];
    events := [ExtractingFiles(0, |entries|)];
    var lastOffset: Option<nat> := None;
    for i := 0 to |entries|
      invariant hashes == UsageOf(entries[..i], codecs)
      invariant events == [ExtractingFiles(0, |entries|)] + ExtractProgress(entries[..i], |entries|)
      invariant lastOffset == if i == 0 then None else Some(entries[i - 1].offset)
      invariant sha.fed == []
    {
      var file := entries[i];
      UsageOfStep(entries, i, codecs, |entries|);
      if Some(file.offset) == lastOffset {
        continue;
      }
      lastOffset := Some(file.offset);
      var hash, size := HashEntry(file, codecs, sha, staging, compressed);
      hashes := Record(hashes, hash, size, file.fullPath);
      events := events + [ExtractingFiles(i + 1, |entries|)];
    }
    assert entries[..|entries|] == entries;
  }

  /**
   * The work for one entry that is not skipped: both scratch files are
   * emptied, the entry is extracted into the staging file, and its bytes go
   * once to the hasher and once through the compressor.
   */
  method HashEntry(file: ArchiveEntry, codecs: Codecs, sha: Hasher, staging: ScratchFile, compressed: ScratchFile)
    returns (hash: string, size: nat)
    requires staging != compressed && sha.fed == []
    modifies sha, staging, compressed
    ensures hash == codecs.sha3Hex(file.content) && size == |codecs.zstd(file.content)|
    ensures sha.fed == [] && staging.data == file.content && compressed.data == codecs.zstd(file.content)
  {
    staging.Truncate();
    compressed.Truncate();
    staging.Append(file.content);
    assert staging.data == file.content;

    sha.Update(staging.data);
    assert sha.fed == file.content;
    compressed.Append(codecs.zstd(staging.data));
    assert compressed.data == codecs.zstd(file.content);

    size := |compressed.data|;
    hash := sha.FinalizeReset(codecs);
  }

  /** One more entry: skipped, it changes neither the record nor the events; otherwise it adds its path and one event. */
  lemma UsageOfStep(es: seq<ArchiveEntry>, i: nat, codecs: Codecs, total: nat)
    requires i < |es|
    ensures Skipped(es[..i + 1], i) == (i > 0 && es[i].offset == es[i - 1].offset)
    ensures UsageOf(es[..i + 1], codecs) ==
      if Skipped(es[..i + 1], i) then UsageOf(es[..i], codecs)
      else Record(UsageOf(es[..i], codecs), codecs.sha3Hex(es[i].content), |codecs.zstd(es[i].content)|, es[i].fullPath)
    ensures ExtractProgress(es[..i + 1], total) ==
      ExtractProgress(es[..i], total) + (if Skipped(es[..i + 1], i) then [] else [ExtractingFiles(i + 1, total)])
  {
    assert es[..i + 1][..i] == es[..i];
  }

  /** The game paths of the entries the pass does not skip whose content hashes to `k`, in listing order. */
  function PathsFor(es: seq<ArchiveEntry>, codecs: Codecs, k: string): seq<string>
    decreases |es|
  {
    if es == [] then []
    else
      var i := |es| - 1;
      PathsFor(es[..i], codecs, k)
      + (if !Skipped(es, i) && codecs.sha3Hex(es[i].content) == k then [es[i].fullPath] else [])
  }

  /**
   * A hash is recorded exactly when some entry that is not skipped has
   * it, and its paths are those entries' paths in listing order; a skipped
   * entry's path is recorded nowhere.
   */
  lemma {:induction false} UsagePaths(es: seq<ArchiveEntry>, codecs: Codecs, k: string)
    ensures k in UsageOf(es, codecs) <==> PathsFor(es, codecs, k) != []
    ensures k in UsageOf(es, codecs) ==> UsageOf(es, codecs)[k].1 == PathsFor(es, codecs, k)
    decreases |es|
  {
    if es != [] {
      UsagePaths(es[..|es| - 1], codecs, k);
    }
  }

  /** Entry `i` is the first entry that is not skipped whose content hashes to `k`. */
  predicate FirstWith(es: seq<ArchiveEntry>, codecs: Codecs, k: string, i: nat)
  {
    i < |es| && !Skipped(es, i) && codecs.sha3Hex(es[i].content) == k
    && forall j :: 0 <= j < i && !Skipped(es, j) ==> codecs.sha3Hex(es[j].content) != k
  }

  /** The size recorded for a hash is the compressed size of its first occurrence; later ones only add paths. */
  lemma {:induction false} UsageSizeFirst(es: seq<ArchiveEntry>, codecs: Codecs, k: string)
    requires k in UsageOf(es, codecs)
    ensures exists i: nat :: FirstWith(es, codecs, k, i) && UsageOf(es, codecs)[k].0 == |codecs.zstd(es[i].content)|
    decreases |es|
  {
    var n := |es| - 1;
    var prefix := es[..n];
    if k in UsageOf(prefix, codecs) {
      UsageSizeFirst(prefix, codecs, k);
      var i: nat :| FirstWith(prefix, codecs, k, i) && UsageOf(prefix, codecs)[k].0 == |codecs.zstd(prefix[i].content)|;
      SizeKept(es, codecs, k);
      FirstWithExtend(es, codecs, k, i);
    } else {
      forall j | 0 <= j < n && !Skipped(es, j)
        ensures codecs.sha3Hex(es[j].content) != k
      {
        NotRecordedNotSeen(prefix, codecs, k, j);
      }
      FirstAtLast(es, codecs, k);
    }
  }

  /** A hash already recorded keeps its size when one more entry is read. */
  lemma SizeKept(es: seq<ArchiveEntry>, codecs: Codecs, k: string)
    requires es != [] && k in UsageOf(es[..|es| - 1], codecs)
    ensures k in UsageOf(es, codecs) && UsageOf(es, codecs)[k].0 == UsageOf(es[..|es| - 1], codecs)[k].0
  {
  }

  lemma FirstWithExtend(es: seq<ArchiveEntry>, codecs: Codecs, k: string, i: nat)
    requires es != [] && FirstWith(es[..|es| - 1], codecs, k, i)
    ensures FirstWith(es, codecs, k, i)
  {
    var prefix := es[..|es| - 1];
    assert forall j :: 0 <= j < |prefix| ==> prefix[j] == es[j];
    assert forall j :: 0 <= j < |prefix| ==> (Skipped(prefix, j) <==> Skipped(es, j));
  }

  /** A hash first recorded by the last entry has that entry as its first occurrence. */
  lemma FirstAtLast(es: seq<ArchiveEntry>, codecs: Codecs, k: string)
    requires es != [] && k in UsageOf(es, codecs) && k !in UsageOf(es[..|es| - 1], codecs)
    requires forall j :: 0 <= j < |es| - 1 && !Skipped(es, j) ==> codecs.sha3Hex(es[j].content) != k
    ensures FirstWith(es, codecs, k, |es| - 1)
    ensures UsageOf(es, codecs)[k].0 == |codecs.zstd(es[|es| - 1].content)|
  {
  }

  lemma {:induction false} NotRecordedNotSeen(es: seq<ArchiveEntry>, codecs: Codecs, k: string, j: nat)
    requires k !in UsageOf(es, codecs) && j < |es| && !Skipped(es, j)
    ensures codecs.sha3Hex(es[j].content) != k
    decreases |es|
  {
    var n := |es| - 1;
    if j < n {
      assert k !in UsageOf(es[..n], codecs);
      NotRecordedNotSeen(es[..n], codecs, k, j);
    }
  }

  /**
   * Two paths listed at one offset: only the first is hashed and recorded,
   * whatever the second one names.
   */
  lemma DuplicateOffsetDropped(codecs: Codecs, offset: nat, a: string, b: string, content: seq<byte>)
    ensures var es := [ArchiveEntry(offset, a, None, None, content), ArchiveEntry(offset, b, None, None, [])];
      UsageOf(es, codecs) == map[codecs.sha3Hex(content) := (|codecs.zstd(content)|, [a])]
  {
    var es := [ArchiveEntry(offset, a, None, None, content), ArchiveEntry(offset, b, None, None, [])];
    assert es[..1][..0] == [];
    assert !Skipped(es[..1], 0);
    assert UsageOf(es[..1], codecs) == Record(map[], codecs.sha3Hex(content), |codecs.zstd(content)|, a);
    assert Skipped(es, 1);
  }

  /** Every extraction progress event counts an entry that is not skipped, in increasing order. */
  lemma {:induction false} ExtractProgressIncreasing(es: seq<ArchiveEntry>, total: nat)
    ensures forall i :: 0 <= i < |ExtractProgress(es, total)| ==>
      ExtractProgress(es, total)[i].ExtractingFiles? && 1 <= ExtractProgress(es, total)[i].current <= |es|
      && !Skipped(es, ExtractProgress(es, total)[i].current - 1)
    ensures forall i, j :: 0 <= i < j < |ExtractProgress(es, total)| ==>
      ExtractProgress(es, total)[i].current < ExtractProgress(es, total)[j].current
    decreases |es|
  {
    if es != [] {
      ExtractProgressIncreasing(es[..|es| - 1], total);
    }
  }

  /** The sum of the recorded sizes of the hashes in `keys`. */
  ghost function SumSizes(keys: set<string>, rec: HashRecord): nat
    requires keys <= rec.Keys
    decreases keys
  {
    if keys == {} then 0
    else
      var k :| k in keys;
      rec[k].0 + SumSizes(keys - {k}, rec)
  }

  /** The sum does not depend on the order in which the hashes are visited. */
  lemma {:induction false} SumSizesRemove(keys: set<string>, rec: HashRecord, k: string)
    requires keys <= rec.Keys && k in keys
    ensures SumSizes(keys, rec) == rec[k].0 + SumSizes(keys - {k}, rec)
    decreases keys
  {
    var j :| j in keys && SumSizes(keys, rec) == rec[j].0 + SumSizes(keys - {j}, rec);
    if j != k {
      SumSizesRemove(keys - {j}, rec, k);
      SumSizesRemove(keys - {k}, rec, j);
      assert keys - {j} - {k} == keys - {k} - {j};
    }
  }

  /** The new bytes of a pack: the sizes of its hashes that are not in `known`. */
  method NewSize(rec: HashRecord, known: set<string>) returns (total: nat)
    ensures total == SumSizes(rec.Keys - known, rec)
  {
    total := 0;
    var left := rec.Keys - known;
    while left != {}
      invariant left <= rec.Keys - known
      invariant total + SumSizes(left, rec) == SumSizes(rec.Keys - known, rec)
      decreases left
    {
      var k :| k in left;
      SumSizesRemove(left, rec, k);
      total := total + rec[k].0;
      left := left - {k};
    }
  }

  /** Learning that one more hash is already held lowers the total by exactly that hash's size. */
  lemma KnownHashLowersTotal(rec: HashRecord, known: set<string>, k: string)
    requires k in rec && k !in known
    ensures SumSizes(rec.Keys - known, rec) == rec[k].0 + SumSizes(rec.Keys - (known + {k}), rec)
  {
    SumSizesRemove(rec.Keys - known, rec, k);
    assert rec.Keys - known - {k} == rec.Keys - (known + {k});
  }

  /** The reported hashes: every recorded hash, flagged as counting exactly when it is not in `known`. */
  function CountsOf(rec: HashRecord, known: set<string>): (r: map<string, Calculated>)
    ensures r.Keys == rec.Keys
    ensures forall k :: k in r ==> r[k].size == rec[k].0 && r[k].files == rec[k].1 && (r[k].counts <==> k !in known)
  {
    map k | k in rec :: Calculated(rec[k].0, rec[k].1, k !in known)
  }

  /** The sum of the sizes of the hashes in `keys` that a report flags as counting. */
  ghost function CountedSum(keys: set<string>, report: map<string, Calculated>): nat
    requires keys <= report.Keys
    decreases keys
  {
    if keys == {} then 0
    else
      var k :| k in keys;
      (if report[k].counts then report[k].size else 0) + CountedSum(keys - {k}, report)
  }

  lemma {:induction false} CountedSumRemove(keys: set<string>, report: map<string, Calculated>, k: string)
    requires keys <= report.Keys && k in keys
    ensures CountedSum(keys, report) == (if report[k].counts then report[k].size else 0) + CountedSum(keys - {k}, report)
    decreases keys
  {
    var j :| j in keys && CountedSum(keys, report) == (if report[j].counts then report[j].size else 0) + CountedSum(keys - {j}, report);
    if j != k {
      CountedSumRemove(keys - {j}, report, k);
      CountedSumRemove(keys - {k}, report, j);
      assert keys - {j} - {k} == keys - {k} - {j};
    }
  }

  /**
   * The total and the per-hash flags agree: the total is the sum of the
   * sizes of exactly the hashes the report flags as counting.
   */
  lemma {:induction false} TotalMatchesCounts(keys: set<string>, rec: HashRecord, known: set<string>)
    requires keys <= rec.Keys
    ensures SumSizes(keys - known, rec) == CountedSum(keys, CountsOf(rec, known))
    decreases keys
  {
    if keys != {} {
      var k :| k in keys;
      var report := CountsOf(rec, known);
      CountedSumRemove(keys, report, k);
      TotalMatchesCounts(keys - {k}, rec, known);
      if k !in known {
        SumSizesRemove(keys - known, rec, k);
        assert keys - known - {k} == (keys - {k}) - known;
      } else {
        assert keys - known == (keys - {k}) - known;
      }
    }
  }

  /** What the command reports for a record. */
  ghost function Report(rec: HashRecord, known: set<string>): CalculatedUsage
  {
    CalculatedUsage(SumSizes(rec.Keys - known, rec), CountsOf(rec, known))
  }

  /** The name a new cache entry is filed under: the archive's file name, or `<unknown>`. */
  function CachedFileName(path: string): (r: string)
    ensures r == "<unknown>" || (r != [] && NoSlash(r) && EndsWith(path, r))
  {
    match FileName(path)
    case None => "<unknown>"
    case Some(name) => name
  }

  /**
   * The cache-miss path: the pack is opened (`listing`), its record
   * computed, filed under the archive's hash with the archive's name and
   * size, and the cache saved.
   */
  method ComputeAndStore(path: string, ttmpHash: string, ttmpSize: nat, listing: Result<seq<ArchiveEntry>>,
                         cache: Cache, codecs: Codecs, sha: Hasher)
    returns (r: Result<HashRecord>, events: seq<Progress>)
    requires sha.fed == []
    modifies cache, sha
    ensures listing.Err? ==>
      r == Err(listing.error) && cache.usage == old(cache.usage) && cache.saved == old(cache.saved)
    ensures listing.Ok? ==>
      var rec := UsageOf(listing.value, codecs);
      r == Ok(rec)
      && cache.usage == old(cache.usage)[ttmpHash := UsageInfo(CachedFileName(path), ttmpSize, rec)]
      && cache.saved == old(cache.saved) + [cache.usage]
      && events == [ExtractingFiles(0, |listing.value|)] + ExtractProgress(listing.value, |listing.value|)
  {
    match listing {
      case Err(e) =>
        return Err(e), [];
      case Ok(files) =>
        var staging := new ScratchFile();
        var compressed := new ScratchFile();
        var hashes;
        hashes, events := ExtractHashes(files, codecs, sha, staging, compressed);
        cache.Insert(ttmpHash, UsageInfo(CachedFileName(path), ttmpSize, hashes));
        cache.Save();
        r := Ok(hashes);
    }
  }

  /**
   * The command. `listing` is what opening the archive with the `ttmp`
   * library gives: its files sorted by offset, or the error it fails with.
   * On a cache hit the stored record is reported and the cache is neither
   * changed nor saved (the archive is not even opened); on a miss the
   * record is computed, filed under the archive's hash and the cache saved.
   */
  method CalculateUsageInner(path: string, file: ArchiveFile, listing: Result<seq<ArchiveEntry>>,
                             known: set<string>, cache: Cache, codecs: Codecs)
    returns (r: Result<CalculatedUsage>, events: seq<Progress>)
    requires file.Valid() && file.pos == 0
    modifies file, cache
    ensures var key := codecs.sha3Hex(file.bytes);
      key in old(cache.usage) ==>
        r == Ok(Report(old(cache.usage)[key].hashes, known))
        && cache.usage == old(cache.usage) && cache.saved == old(cache.saved)
        && events == [HashingTtmp, CalculatingSize, Done]
    ensures var key := codecs.sha3Hex(file.bytes);
      key !in old(cache.usage) && listing.Err? ==>
        r == Err(listing.error) && cache.usage == old(cache.usage) && cache.saved == old(cache.saved)
    ensures var key := codecs.sha3Hex(file.bytes);
      key !in old(cache.usage) && listing.Ok? ==>
        var rec := UsageOf(listing.value, codecs);
        r == Ok(Report(rec, known))
        && cache.usage == old(cache.usage)[key := UsageInfo(CachedFileName(path), |file.bytes|, rec)]
        && cache.saved == old(cache.saved) + [cache.usage]
        && events == [HashingTtmp, ExtractingFiles(0, |listing.value|)]
          + ExtractProgress(listing.value, |listing.value|) + [CalculatingSize, Done]
  {
    events := [HashingTtmp];
    var sha := new Hasher();
    var ttmpSize := HashArchive(file, sha);
    var ttmpHash := sha.FinalizeReset(codecs);

    var ttmpHashes: HashRecord;
    if ttmpHash in cache.usage {
      ttmpHashes := cache.usage[ttmpHash].hashes;
    } else {
      file.Rewind();
      var computed, extracted := ComputeAndStore(path, ttmpHash, ttmpSize, listing, cache, codecs, sha);
      if computed.Err? {
        return Err(computed.error), events;
      }
      ttmpHashes := computed.value;
      events := events + extracted;
    }

    ghost var beforeTotal := events;
    events := events + [CalculatingSize];
    var newSize := NewSize(ttmpHashes, known);
    var calculated := CountsOf(ttmpHashes, known);
    events := events + [Done];
    assert events == beforeTotal + [CalculatingSize, Done];
    r := Ok(CalculatedUsage(newSize, calculated));
  }
}
