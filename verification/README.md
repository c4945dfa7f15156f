# Heliosphere creator tools: a verified model of the archive bookkeeping

Heliosphere's creator tools prepare mod packs for Final Fantasy XIV before
they are uploaded. This project models, in Dafny, the parts of the tools
that keep track of what is in an archive:

- **Storage usage** (`calculate_usage_inner`). The archive is hashed whole
  (SHA3-256) to key a cache. On a miss, every packed file is extracted,
  hashed and compressed with zstd. This gives a record
  `hash -> (compressed size, game paths)`, which is stored in the cache.
  A file listed at the same offset as the previous one (a deduplicated
  pack) is skipped. The bytes the pack would add are the compressed sizes
  of the hashes the caller does not already hold.
- **Update files** (`delta_inner` / `pmp_delta`). A Penumbra pack (`.pmp`)
  is turned into a `.delta.hsp` update. Every file that the default option
  or a single- or multi-choice option refers to is hashed with BLAKE3. The
  files whose hashes the server lacks are copied under `files/<hash>`.
  Every reference is rewritten to that name. Then come the delta manifest,
  `meta.json`, the default option and the numbered group files.
- **Deduplication** (`deduplicate_inner`). Every file of a TexTools pack
  goes through a fresh `MpdEncoder`. The pack is rewritten as
  `<stem>.deduplicated.<ext>`.
- **TexTools pack creation** (the manifest loop of `create_ttmp_inner`). The
  uses of each needed file become pages (one per option group, numbered in
  order of first use) and simple mods. Then each use of a downloaded file
  becomes one encoder call.
- **The tee writer** `MultiWriter`, which feeds one buffer to two sinks.
- **The front end's hex helpers** `hexToBytes`, `bytesToHex` and
  `uuidToBase32`.
- **The XMA importer**: the check that a URL points to a mod on XIV Mod
  Archive, and `handle_handle`, which writes a description tree as
  Markdown.

Each Rust or TypeScript source file has its own module. Rust's
`Path::file_name`, `extension` and `with_extension` live in `Paths`. The
`ttmp` library boundary lives in `Ttmp`: an extracted file carries its
content, and the encoder is the trace of the calls it received. The shared
types are in `Common`.

State that the source updates in place is modelled as classes whose
methods say how their fields change:
- the archive file being read;
- the SHA3 hasher;
- the usage cache;
- the scratch files;
- the encoder;
- the two sinks of the tee.

Loops are methods with loop invariants, proved against functions that
specify their results. Those functions carry the properties as lemmas.

Foreign code is passed in as function-typed parameters:
- SHA3-256 with its hex encoding;
- zstd compression;
- BLAKE3 with its base64url encoding;
- the JSON parsers of the option files;
- `Url::parse`;
- the Crockford base32 encoder;
- the encoder's `finalize`.

Three behaviours of the code are worth knowing, and the model keeps them:
- A skipped duplicate's game path is recorded nowhere in the usage record
  (`CalculateUsage.DuplicateOffsetDropped`).
- On success, `MultiWriter::write` returns the second writer's count,
  because `Result::and` gives the second result when the first is `Ok`
  (`MultiWriter.MultiWriter.Write`).
- The hashing progress of `pmp_delta` reports `current: i`, counting from
  0. The last event is `total - 1` and the first value is reported twice
  (`Delta.HashProgressStopsShort`).

## Model

| member | source | states |
|---|---|---|
| CalculateUsage.ArchiveFile.Read | src-tauri/src/calculate_usage.rs:60 | a read returns the next bytes of the file from the current position, and returns nothing exactly at the end of the file |
| CalculateUsage.Hasher.Update | src-tauri/src/calculate_usage.rs:66 | the hasher has been fed the earlier bytes followed by these |
| CalculateUsage.Hasher.FinalizeReset | src-tauri/src/calculate_usage.rs:69-70 | the digest is the hex SHA3 of everything fed since the last reset, and the hasher starts empty again |
| CalculateUsage.Cache.Insert | src-tauri/src/calculate_usage.rs:143-151 | the entry is filed under its key; every other entry and the saved snapshots are unchanged |
| CalculateUsage.Cache.Save | src-tauri/src/calculate_usage.rs:153 | the saved snapshots gain the current cache, which is itself unchanged |
| CalculateUsage.HashArchive | src-tauri/src/calculate_usage.rs:58-67 | the read loop reaches the end of the file; `ttmp_size` is the file's length, and the hasher was fed exactly the file's bytes, in order |
| CalculateUsage.Record | src-tauri/src/calculate_usage.rs:127-130 | a hash seen before keeps its size and appends the path; a new hash gets this size and the one path; no other hash changes |
| CalculateUsage.ExtractHashes | src-tauri/src/calculate_usage.rs:97-136 | the extraction loop builds exactly the record `UsageOf` specifies, emits one progress event per processed entry, and leaves the hasher empty |
| CalculateUsage.HashEntry | src-tauri/src/calculate_usage.rs:105-125 | both scratch files are emptied first; the staged bytes are the entry's alone; the hash is the SHA3 of the entry and the size is the length of its compression |
| CalculateUsage.UsageOfStep | src-tauri/src/calculate_usage.rs:99-103 | an entry is skipped exactly when its offset equals the previous entry's offset, and a skipped entry changes neither the record nor the events |
| CalculateUsage.UsagePaths | src-tauri/src/calculate_usage.rs:97-130 | a hash is recorded exactly when some processed entry has it, and its paths are those of the processed entries with that hash, in processing order |
| CalculateUsage.UsageSizeFirst | src-tauri/src/calculate_usage.rs:127-130 | a hash's recorded size is the compressed size of the first processed entry with that hash |
| CalculateUsage.NotRecordedNotSeen | src-tauri/src/calculate_usage.rs:99-130 | no processed entry has a hash that is missing from the record |
| CalculateUsage.DuplicateOffsetDropped | src-tauri/src/calculate_usage.rs:99-101 | of two entries at one offset only the first is hashed and recorded; the second entry's path appears nowhere |
| CalculateUsage.ExtractProgressIncreasing | src-tauri/src/calculate_usage.rs:132-135 | every extraction event names a processed entry, and the counters strictly increase |
| CalculateUsage.SumSizesRemove | src-tauri/src/calculate_usage.rs:158-161 | the sum over a set of hashes is one hash's size plus the sum over the others |
| CalculateUsage.NewSize | src-tauri/src/calculate_usage.rs:158-161 | `total` is the sum of the recorded sizes of the hashes the caller does not hold |
| CalculateUsage.KnownHashLowersTotal | src-tauri/src/calculate_usage.rs:158-161 | if the caller also holds one more recorded hash, the total drops by exactly that hash's size |
| CalculateUsage.CountsOf | src-tauri/src/calculate_usage.rs:162-169 | every recorded hash is reported with its size and paths, and `counts` holds exactly when the caller does not hold it |
| CalculateUsage.CountedSumRemove | src-tauri/src/calculate_usage.rs:162-169 | the counted sum over a set is one hash's size (when it counts) plus the counted sum over the others |
| CalculateUsage.TotalMatchesCounts | src-tauri/src/calculate_usage.rs:158-169 | the total equals the sum of the sizes of the reported hashes whose `counts` flag is set |
| CalculateUsage.CachedFileName | src-tauri/src/calculate_usage.rs:144-148 | the cache entry's name is the path's last component (non-empty, slash-free, a suffix of the path), or `<unknown>` |
| CalculateUsage.ComputeAndStore | src-tauri/src/calculate_usage.rs:79-154 | on a miss, a failed opening leaves the cache unchanged; otherwise the computed record is filed under the archive hash with the file name and size, and the cache is saved once |
| CalculateUsage.CalculateUsageInner | src-tauri/src/calculate_usage.rs:50-179 | on a hit, the cached record is reported and nothing is inserted or saved; on a miss, the record of the listing is reported and stored; events come in order in both cases |
| Delta.RouteOf | src-tauri/src/delta.rs:136-140 | `pmp` proceeds; `ttmp` and `ttmp2` are refused as TexTools; any other extension or none is refused as undetermined |
| Delta.SkipBomDrops | src-tauri/src/delta.rs:321-330 | the stream changes exactly when it starts with `EF BB BF`, and then only those three bytes go |
| Delta.SkipBomAfterBom | src-tauri/src/delta.rs:321-330 | a mark put in front of a text is removed again |
| Delta.ByName | src-tauri/src/delta.rs:160-161 | a file is found exactly when the archive lists its name |
| Delta.FilterGroupFiles | src-tauri/src/delta.rs:154-155 | the kept names are exactly the listed names starting `group_` and ending `.json`, each exactly as often as listed |
| Delta.Insert | src-tauri/src/delta.rs:156 | inserting into an ascending list keeps it ascending and adds exactly that name |
| Delta.Sort | src-tauri/src/delta.rs:156 | the result is ascending and a permutation of the input |
| Delta.GroupPaths | src-tauri/src/delta.rs:154-157 | the group files are ascending and are exactly the archive's `group_*.json` names, each as often as the archive lists it |
| Delta.Normalize | src-tauri/src/delta.rs:180 | every `\` becomes `/` and every other character stays |
| Delta.OptionsPathsMember | src-tauri/src/delta.rs:187-191 | a path is collected from a list of options exactly when one of them refers to it, after normalisation |
| Delta.GroupsPathsMember | src-tauri/src/delta.rs:183-195 | a path is collected from the groups exactly when some option of a single- or multi-choice group refers to it; IMC groups add nothing |
| Delta.CollectPaths | src-tauri/src/delta.rs:178-195 | `to_hash` is the default option's normalised references together with those of every file option of every group |
| Delta.AddOptions | src-tauri/src/delta.rs:187-191 | the inner loop adds exactly the options' normalised references |
| Delta.HashPaths | src-tauri/src/delta.rs:197-216 | hashing fails, with an I/O error, exactly when a referenced path is not in the archive; otherwise each path maps to the BLAKE3 of its file and each hash names a path with that hash |
| Delta.HashedStep | src-tauri/src/delta.rs:206-210 | hashing one more present path keeps the path-to-hash and hash-to-path maps consistent with the archive |
| Delta.MapValuesUpdate | src-tauri/src/delta.rs:221 | adding a new key adds its value to the set of hashes |
| Delta.HashProgressStopsShort | src-tauri/src/delta.rs:198-215 | the hashing events report `total - 1` last and report 0 twice |
| Delta.NewHashes | src-tauri/src/delta.rs:221-225 | the new hashes are exactly the local hashes the server lacks, each listed once |
| Delta.RewriteAsWritten | src-tauri/src/delta.rs:228-246 | the lookup by the raw reference panics exactly when some reference is not a hashed path; otherwise each reference becomes `files/` + its hash |
| Delta.Rewrite | src-tauri/src/delta.rs:228-231 | every key is kept, and each reference becomes `files/` + the hash of its normalised path |
| Delta.RewriteAsWrittenAgrees | src-tauri/src/delta.rs:228-246 | on references without `\` the lookup as written succeeds and gives the same map as the normalised lookup |
| Delta.RewriteOptions | src-tauri/src/delta.rs:237-241 | each option keeps its name, and its file map is rewritten with the normalised lookup |
| Delta.RewriteGroup | src-tauri/src/delta.rs:233-246 | a group keeps its name and kind; a single or multi group's options become `RewriteOptions` of its options, so each option's references are rewritten; an IMC group is left as it is |
| Delta.RewriteGroups | src-tauri/src/delta.rs:233-246 | the groups are rewritten one by one, in order: the `i`-th result is `RewriteGroup` of the `i`-th group, whose references are all hashed paths |
| Delta.GroupPathsEach | src-tauri/src/delta.rs:183-195 | each group's references are among those collected from all groups |
| Delta.BackslashReferencePanics | src-tauri/src/delta.rs:228-231 | a reference written with `\` is hashed under its `/` form; the raw lookup therefore panics, while the normalised lookup finds it |
| Delta.ReferencesResolve | src-tauri/src/delta.rs:221-241 | after the rewrite, every reference names `files/<hash>`, and that hash is either in the update or already on the server |
| Delta.WriteProgress | src-tauri/src/delta.rs:248-312 | the writing counter goes from 0 to the total |
| Delta.WriteProgressStep | src-tauri/src/delta.rs:265-269 | each written entry bumps the counter by one |
| Delta.WriteNewFiles | src-tauri/src/delta.rs:260-270 | one `files/<hash>` entry per new hash, in order, holding the bytes of the file with that hash; the counter is bumped after each |
| Delta.WriteGroups | src-tauri/src/delta.rs:303-312 | one `group_NNN_group.json` entry per group, numbered from 1 in order; the counter ends at the total |
| Delta.WriteGroup | src-tauri/src/delta.rs:304-311 | one round of the group loop writes that group's entry and bumps the counter |
| Delta.WriteUpdate | src-tauri/src/delta.rs:248-312 | the entries are the new files, the delta manifest, `meta.json`, the default option and the groups, in that order; the total is `new + 3 + groups`, and the counter ends at the total |
| Delta.NewFileEntriesStep | src-tauri/src/delta.rs:260-263 | the new-file entries grow by one entry per new hash |
| Delta.GroupEntriesStep | src-tauri/src/delta.rs:303-305 | the group entries grow by one numbered entry per group |
| Delta.ParseOptions | src-tauri/src/delta.rs:158-175 | the default option is read first, then each group file in order, each without its byte-order mark; each failure has its own message; the parse succeeds exactly when every file is present and parses |
| Delta.ParseGroups | src-tauri/src/delta.rs:167-175 | the loop stops at the first group file that is missing or does not parse, naming it in the error; otherwise the i-th group is parsed from the i-th file |
| Delta.NotParsed | src-tauri/src/delta.rs:168-173 | a missing or unparsable group file means no list of groups can be parsed |
| Delta.DeltaPathShape | src-tauri/src/delta.rs:255-256 | the update file sits beside the pack and has the extension `hsp` |
| Delta.EndsWrittenAppend | src-tauri/src/delta.rs:314-316 | the command's events end with the counter at the total, then `Done` |
| Delta.NewHashesStored | src-tauri/src/delta.rs:260-263 | every new hash names a file of the archive that can be copied |
| Delta.PmpDelta | src-tauri/src/delta.rs:143-318 | an archive without `meta.json` is refused before anything is parsed or written; a missing `default_mod.json` is refused; it succeeds exactly when the archive opens, has `meta.json`, its options parse and every referenced file is present; a success is the update built from the parsed options, and its events end at the total, then `Done` |
| Delta.BuildUpdate | src-tauri/src/delta.rs:177-318 | after parsing, the only failure is an I/O error while hashing, and it happens exactly when some referenced path is not a file of the archive; a success is the update built from the options |
| Delta.WriteDelta | src-tauri/src/delta.rs:218-312 | the difference, the rewrite and the writing give exactly the update file described by the hashed options, and the counter ends at the number of entries |
| Delta.DeltaInner | src-tauri/src/delta.rs:132-141 | the set-up event comes first; `ttmp`/`ttmp2` and unknown extensions give their errors; it succeeds exactly for a `.pmp` path whose pack `pmp_delta` converts, and a success is its update |
| Deduplicate.Classify | src-tauri/src/deduplicate.rs:67-73 | a `.mdl` path goes to the model method; otherwise `.tex` or `.atex` goes to the texture method; anything else goes to the standard method |
| Deduplicate.EncodeFiles | src-tauri/src/deduplicate.rs:53-79 | every file, with no offset skipping, gives exactly one encoder call, in order, with its own group, option and path; its size is its staged length; one progress event follows each file |
| Deduplicate.DedupPathShape | src-tauri/src/deduplicate.rs:84-86 | the new archive sits beside the input, is named `<stem>.deduplicated.<ext>` (with `ttmp2` when the input has no extension), keeps the extension and differs from the input path |
| Deduplicate.DeduplicateInner | src-tauri/src/deduplicate.rs:33-110 | an unopenable pack fails after `SettingUp`; otherwise the archive written holds the finalised manifest text and data file, and the events are SettingUp, ProcessingFiles 0..n, CreatingArchive, Done |
| Ttmp.ScratchFile.Truncate | src-tauri/src/deduplicate.rs:54-55 | the staging file is emptied |
| Ttmp.ScratchFile.Append | src-tauri/src/deduplicate.rs:57 | the bytes are written after what the file holds |
| Ttmp.Encoder.Add | src-tauri/src/deduplicate.rs:67-73 | the encoder has received one more call, with this method, info, size and data |
| Ttmp.Lines | src-tauri/src/deduplicate.rs:95-98 | a non-empty V1 manifest text ends with a newline |
| Ttmp.SplitLinesOfLines | src-tauri/src/deduplicate.rs:94-100 | a V1 manifest is one mod per line: splitting its text at newlines gives back the mods |
| CreateTtmp.FirstSegment | src-tauri/src/create_ttmp.rs:72-73 | the first segment is the longest slash-free prefix of the path |
| CreateTtmp.DatFileShape | src-tauri/src/create_ttmp.rs:40-56 | every data file code is six characters ending in `0000` |
| CreateTtmp.DatFileOfFolder | src-tauri/src/create_ttmp.rs:72-77 | a path under a listed folder gets that folder's code; any other path gets `040000` |
| CreateTtmp.SimpleModFor | src-tauri/src/create_ttmp.rs:79-88 | a simple mod has an empty name, offset and size 0, category `Mod file`, is not a default, and carries the use's path and data file |
| CreateTtmp.GroupsByNameKeys | src-tauri/src/create_ttmp.rs:66-68 | the group map's keys are exactly the groups' names |
| CreateTtmp.GroupsByNameLast | src-tauri/src/create_ttmp.rs:66-68 | of several groups with one name, the last is kept |
| CreateTtmp.NewPage | src-tauri/src/create_ttmp.rs:100-121 | a new page holds one mod group named after the group; it lists all the group's options in order, unchecked and empty, and has the given index |
| CreateTtmp.FirstNamed | src-tauri/src/create_ttmp.rs:128-133 | the search finds the first option with that name, or none exactly when no option has it |
| CreateTtmp.PushToFirst | src-tauri/src/create_ttmp.rs:128-136 | the simple mod is appended to the first option of that name, and dropped when there is none |
| CreateTtmp.Pushed | src-tauri/src/create_ttmp.rs:127-136 | the first mod group's option list becomes `PushToFirst` of it, so the simple mod goes to the first option of that name; the index, the group's name and selection type and the other mod groups are kept |
| CreateTtmp.StepPushes | src-tauri/src/create_ttmp.rs:98-136 | a grouped use pushes its simple mod into the first option of that name on its group's page, existing or new; other pages and the simple-mod list are unchanged |
| CreateTtmp.BuildManifest | src-tauri/src/create_ttmp.rs:62-138 | the nested loop over files and uses builds exactly the manifest `Build` gives for all uses in visiting order |
| CreateTtmp.AllUsesStep | src-tauri/src/create_ttmp.rs:70-71 | the uses visited grow file by file |
| CreateTtmp.BuildStep | src-tauri/src/create_ttmp.rs:71-137 | each use advances the manifest by one loop step |
| CreateTtmp.BuildErrPrefix | src-tauri/src/create_ttmp.rs:95-101 | after a panic, further uses change nothing |
| CreateTtmp.BuildStaysFailed | src-tauri/src/create_ttmp.rs:95-101 | a panic in the middle of the loop is the loop's outcome |
| CreateTtmp.AllUsesAppend | src-tauri/src/create_ttmp.rs:70-71 | the uses of two lists of files are those of the first followed by those of the second |
| CreateTtmp.BuildPanics | src-tauri/src/create_ttmp.rs:95-101 | the loop panics exactly when some use has only one of group and option, or names a group the caller did not describe |
| CreateTtmp.StepPanics | src-tauri/src/create_ttmp.rs:90-101 | one step panics exactly when its use does |
| CreateTtmp.BuildPages | src-tauri/src/create_ttmp.rs:98-122 | the pages are exactly the used groups; their indices are 0, 1, … without repeats, and each holds one mod group named after its key |
| CreateTtmp.BuildPageOrder | src-tauri/src/create_ttmp.rs:98-122 | pages are numbered in order of creation: a group's page index is the number of distinct groups used before the group's first use |
| CreateTtmp.StepPages | src-tauri/src/create_ttmp.rs:98-122 | a step adds a page only for a new group, whose index is the number of pages already made; existing pages keep their index |
| CreateTtmp.BuildSimpleMods | src-tauri/src/create_ttmp.rs:90-93 | the simple mods are exactly those of the uses with neither group nor option, in order |
| CreateTtmp.ClassificationsAgree | src-tauri/src/create_ttmp.rs:209-215 | testing textures before models gives the same method as the deduplication's models-first test, for every path |
| CreateTtmp.EncodeUses | src-tauri/src/create_ttmp.rs:198-216 | each use of a downloaded file gives one encoder call, in order, reading the whole file and passing its length |
| CreateTtmp.AddUse | src-tauri/src/create_ttmp.rs:199-215 | one use gives one call, with the method chosen by its suffix |
| CreateTtmp.UseCallsLikeDeduplicate | src-tauri/src/create_ttmp.rs:198-215 | the calls for a file's uses are the ones deduplication makes for the same paths and bytes |
| MultiWriter.And | src-tauri/src/multi_writer.rs:22 | the result fails exactly when either fails; the first error wins; otherwise it is the second result |
| MultiWriter.MultiWriter.constructor | src-tauri/src/multi_writer.rs:9-14 | the writer holds the two given sinks |
| MultiWriter.MultiWriter.Write | src-tauri/src/multi_writer.rs:18-23 | the same buffer goes to the first sink and then to the second, even when the first fails; the result combines both, and on success it is the second sink's count |
| MultiWriter.MultiWriter.Flush | src-tauri/src/multi_writer.rs:25-30 | both sinks are flushed, always both, and the results are combined with the first error winning |
| MultiWriter.MultiWriter.WriteAll | src-tauri/src/multi_writer.rs:17-23 | `write_all` through the tee: the second sink receives the buffer exactly, and the first receives `FedToFirst` of it, which repeats bytes after a short second write |
| MultiWriter.FedToFirstSameLimits | src-tauri/src/multi_writer.rs:18-22 | when both sinks accept as much per call, the first sink receives the buffer exactly |
| MultiWriter.ShortSecondWriteDuplicates | src-tauri/src/multi_writer.rs:22 | when the second sink accepts less per call than the buffer holds and the first accepts it all, the first sink receives more bytes than were written |
| MultiWriter.ShortSecondWriteExample | src-tauri/src/multi_writer.rs:22 | writing `[1, 2]` to a sink taking 4096 bytes and a sink taking 1 byte per call gives the first sink `[1, 2, 2]` |
| MultiWriter.MultiWriter.WriteWhole | src-tauri/src/multi_writer.rs:18-23 | a corrected `write` gives each sink the whole buffer and reports its length |
| MultiWriter.MultiWriter.WriteAllWhole | src-tauri/src/multi_writer.rs:18-23 | with the corrected `write`, both sinks receive the buffer exactly |
| HexUtil.HexToBytes | src/lib/util.ts:17-23 | the counter loop decodes exactly the string's chunks of two characters, giving `ceil(len / 2)` bytes |
| HexUtil.Chunks | src/lib/util.ts:20-21 | a string is read in `ceil(len / 2)` chunks |
| HexUtil.ParsePair | src/lib/util.ts:21 | `parseInt` of two hex digits in base 16 is their value |
| HexUtil.BytesToHex | src/lib/util.ts:26-35 | the loop writes each byte as two lowercase hex digits, high nibble first, a negative value shifted by 256 |
| HexUtil.EncodeHexLength | src/lib/util.ts:26-35 | the text is twice as long as the list of bytes |
| HexUtil.EncodeHexLowercase | src/lib/util.ts:31-34 | every character written is a lowercase hex digit |
| HexUtil.ByteHexDigits | src/lib/util.ts:30-32 | a byte is written as its high and then its low nibble, after shifting a negative value by 256 |
| HexUtil.DecodeEncode | src/lib/util.ts:17-35 | decoding the hex of values in -256..255 gives each value modulo 256 |
| HexUtil.RoundTripBytes | src/lib/util.ts:17-35 | `hexToBytes(bytesToHex(b)) == b` for every list of bytes |
| HexUtil.EncodeDecode | src/lib/util.ts:17-35 | `bytesToHex(hexToBytes(h))` is `h` lower-cased, for every even-length hex string |
| HexUtil.StripDashesAppend | src/lib/util.ts:6 | removing dashes distributes over concatenation |
| HexUtil.StripDashesNoDash | src/lib/util.ts:6 | a text without dashes is left as it is |
| HexUtil.DashedUuid | src/lib/util.ts:6-7 | a UUID with its four dashes and without them decodes to the same bytes |
| HexUtil.AsciiLower | src/lib/util.ts:8 | the encoder's output is lower-cased character by character |
| HexUtil.UuidToBase32 | src/lib/util.ts:5-9 | the dashes are removed, the rest decoded as hex, encoded in base32 and lower-cased |
| Xma.CheckUrl | src-tauri/src/converters/xma.rs:12-19 | an accepted URL is the parsed one; every refusal is a bail |
| Xma.CheckUrlAccepts | src-tauri/src/converters/xma.rs:12-19 | a URL is accepted exactly when it parses, its host is `xivmodarchive.com` or `www.xivmodarchive.com`, and its path starts with `/modid/`; each of the three failures has its own message |
| Xma.FindHref | src-tauri/src/converters/xma.rs:226 | the first `href` attribute is found, and none exactly when there is none |
| Xma.TextMarkdown | src-tauri/src/converters/xma.rs:248-265 | a text that is not a hand-written list item is written verbatim; a list item starts with `- ` |
| Xma.ListItemParts | src-tauri/src/converters/xma.rs:255-258 | a list item loses only leading white space, its `◽` or `-` marker and the white space after it; the rest is a suffix of the text |
| Xma.OpenNode | src-tauri/src/converters/xma.rs:214-267 | the match on a node writes its opening and chooses what is pushed after its children |
| Xma.HandleHandle | src-tauri/src/converters/xma.rs:213-276 | the recursive walk appends exactly the node's rendering to the text passed in |
| Xma.HandleChildren | src-tauri/src/converters/xma.rs:269-271 | the children are handled in order, each appending its rendering |
| Xma.RenderParts | src-tauri/src/converters/xma.rs:269-275 | a node renders as its opening, its children in order, then what it pushes after |
| Xma.ToMarkdown | src-tauri/src/converters/xma.rs:278-279 | the Markdown of the document is the walk from an empty string |
| Xma.RenderAllAppend | src-tauri/src/converters/xma.rs:269-271 | the rendering of siblings is the concatenation of their renderings |
| Xma.RenderHeading | src-tauri/src/converters/xma.rs:221-224 | `h2` renders as `## `, then its children, then a newline |
| Xma.RenderLink | src-tauri/src/converters/xma.rs:225-230 | `a` with an `href` renders as `[children](href)`; without one it renders as its children |
| Xma.RenderParagraphAndBreak | src-tauri/src/converters/xma.rs:231-244 | `p` writes a newline before its children and nothing after; `br` writes two spaces and a newline |
| Xma.RenderEmphasis | src-tauri/src/converters/xma.rs:234-241 | `strong` wraps its children in `**`, and `em` wraps them in `*` |
| Xma.RenderTransparent | src-tauri/src/converters/xma.rs:245-266 | unknown elements and nodes that are neither elements nor text contribute only their children |
| Xma.RenderText | src-tauri/src/converters/xma.rs:248-265 | a text node writes its Markdown text before its children |
| Xma.PlainRendersAsText | src-tauri/src/converters/xma.rs:213-276 | a tree without headings, links, paragraphs, emphasis, breaks or list items renders as its text content |
| Xma.PlainAllRendersAsText | src-tauri/src/converters/xma.rs:269-271 | a list of such trees renders as their text contents, in order |

## Left out

- Hash functions, compression and encodings (SHA3-256, BLAKE3, zstd, hex and base64url of digests, Crockford base32) are foreign library code. They are parameters of the model.
- The `ttmp` library (`TtmpExtractor`, `MpdEncoder`, `finalize`) is foreign. An opened pack is given as its sorted file list, or the error opening it fails with. The encoder is the trace of its calls, and `finalize` is a parameter.
- Zip reading and writing, JSON (de)serialisation, temp files and the cache's persistence are I/O. An output archive is the ordered list of its entry names and contents. A JSON value is recorded as the value serialised, and parsing is a parameter.
- Failures of individual reads, writes, seeks and event emissions are not modelled, except a missing archive entry, which is an I/O error.
- Error messages keep only the outermost `anyhow` context.
- Tauri event emission and the `spawn_blocking`/async structure are UI plumbing and concurrency. Progress is an appended list of events.
- The download loop of `create_ttmp_inner` (`reqwest`, the chunked zstd decoder, the URL segment pushing) is a network client. A downloaded file is given as its decoded bytes. `ModPack` fields other than the pages and simple mods are not modelled.
- The XMA page fetch, the `lol_html` rewriting of links and the title/tag extraction are network and streaming-callback code. `Url::parse` is a parameter.
- `formatBytes` uses floating point and `Intl`, so it is not modelled. `base32ToUuid` is the library decoder followed by `bytesToHex`, which is modelled.
- `src-tauri/src/state.rs` is not part of this model. The cache is an in-memory map with a log of saved snapshots.
- Iteration order of Rust's `HashMap` and `HashSet` is unspecified:
  - the set of paths to hash is iterated in an arbitrary chosen order;
  - the hash difference is listed in an arbitrary order;
  - `needed_files.files` is given as a list;
  - `pages.into_values()` is kept as the map keyed by group.
- Paths are `/`-separated strings. Rust's `Path` normalisation of trailing separators and `.` components is not modelled.
- JavaScript numbers are integers here, `NaN` is `None`, and `toLowerCase` is ASCII lower-casing of hex and base32 text.
- HexUtil.Chunks: a string is a sequence of Unicode scalar values here, while JavaScript's `length` and `substring` count UTF-16 code units, so text with a character outside the Basic Multilingual Plane is chunked differently; valid hex text is ASCII and is chunked the same.
- CalculateUsage.HashEntry: it feeds the hasher and the compressor the whole entry, as the corrected tee (`MultiWriter.MultiWriter.WriteAllWhole`) does, not the duplicated bytes the tee as written can send.
- CalculateUsage.ArchiveFile.Read: the 4096-byte buffer is a bound on each read, modelled as a chunk size fixed for the file.
- Delta.SkipBom: `fill_buf` is taken to deliver the first three bytes of the entry when the entry has them.
- Delta.PmpDelta: it uses the normalised lookup (`Delta.Rewrite`), not the panicking lookup of the code as written (`Delta.RewriteAsWritten`); on packs without a `\` in any reference the two agree (`Delta.RewriteAsWrittenAgrees`).
- Delta.BuildUpdate: its only failure is the hashing I/O error because it rewrites with the normalised lookup; the code as written also panics on a reference containing `\`.
- Delta.WriteDelta: it rewrites the options with the normalised lookup, where the code as written panics on a reference containing `\`.
- Delta.DeltaInner: its success condition is that of `Delta.PmpDelta`, with the normalised lookup; the code as written panics on a reference containing `\`.
- A sink of the tee either fails on every call or on none, and accepts a fixed number of bytes per call. A sink that fails part-way through, or whose capacity varies, is not modelled.

## Findings

| source | as written | input that shows it | evidently intended | confidence | as-written member | corrected member |
|---|---|---|---|---|---|---|
| src-tauri/src/multi_writer.rs:17-23 | `write` hands the whole buffer to both writers and returns the second's count. `std::io::copy` (calculate_usage.rs:121) then retries the rest through `write_all`, so the first writer (the hasher) is fed again the bytes it already took. | A buffer `[1, 2]`, a first sink taking 4096 bytes per call and a second sink taking 1. The hasher receives `[1, 2, 2]`. | Each writer receives each byte once, so the usage hash is the SHA3 of the entry. | not executed | MultiWriter.ShortSecondWriteExample | MultiWriter.MultiWriter.WriteAllWhole |
| src-tauri/src/delta.rs:228-246 | References are looked up in `path_hashes` under their raw text. The keys are the `\`-normalised paths (delta.rs:180, 189), so a reference written with `\` is not a key, and indexing panics. | The default option maps `chara/a.tex` to `files\a.tex`. | Look up the normalised path that was hashed. | not executed | Delta.BackslashReferencePanics | Delta.Rewrite |
