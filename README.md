# podcastharvester bookkeeping core, in Dafny

podcastharvester mirrors YouTube channels as podcasts. It discovers a
channel's videos, keeps an index of them, downloads what is still
missing, summarises transcripts with a language model, and serves the
results as RSS feeds and through a small web server. This project models
the parts of that system that decide things. The rest is calls to yt-dlp,
HTTP, threads and console output.

The modelled parts, one module per concern:

- **Channel discovery index** (`IndexModel`, `IndexStore`, `IndexMerge`,
  `IndexRepair`). `update_unified_index` merges newly discovered videos
  into the index, and a longer record wins on a shared id. The index file
  is loaded and saved with its cutoff-date bookkeeping. Legacy
  per-cutoff index files are consolidated into one. Incomplete legacy
  records are repaired field by field.
- **Download-control ledger and fetch plan** (`ControlMatch`,
  `ControlScan`, `Reconciler`, `ChannelConfig`). The channel folder is
  rescanned into `.download_control.json`, and deleted records are
  preserved on request. Two skip sets are computed from the ledger. The
  download plan is the indexed ids minus the skip set. Channel
  configuration records are validated, and channels are selected by name
  without regard to case.
- **Transcript chunking and resumable summaries** (`Srt`, `Chunking`,
  `Summarizer`). SubRip timestamps and blocks are parsed. A transcript is
  cut into 5-minute windows. Text is truncated to the model's context.
  Each folder's resume logic reuses every chunk summary already on disk.
- **Small helpers.** `UrlConfig` turns channel URLs into configuration
  records. `Rss` covers the data behind the feeds: media lookup, MIME
  types, durations, item ordering and links. `ContentServer` covers range
  arithmetic, the range send loop, title fallback, the content-list sort,
  channel de-duplication and the media-path check.
- **Python semantics the above rely on** (`Text`, `Dicts`, `KeySort`,
  `JsonValue`, `Seqs`, `Wrappers`). These give string ordering and
  string operations, insertion-ordered dicts, a stable descending
  sort by key, and parsed JSON values with Python truthiness.

Modelling conventions:

- The file system is given as data: listings in listing order, sets of
  existing paths, and size, fingerprint and date functions.
- The current time is a `now` parameter.
- `strptime` date validity is an `isDate` predicate parameter.
- The language model is a deterministic oracle that returns
  `Option<string>`.
- A video record's Python `str()` is a `repr` string field.
- Times are integer milliseconds.

Where the code's loops update state (the index merge, the skip sets, the
scan, the chunking loop, the resume loop and the send loop), the model is
a method proved against a specification function. The properties are
stated about that function.

## Model

| member | source | states |
|---|---|---|
| IndexStore.LoadIndex | podcast_harvester.py:60-90 | a missing or unreadable file gives None; otherwise `cutoff_dates` and `index_history` default to `[]`, `current_cutoff_date` to the caller's cutoff, `last_updated` to `created_date` (else now), and every other field is left as read |
| IndexStore.LoadIndexFixedPoint | podcast_harvester.py:76-83 | loading an already loaded record again changes nothing, whatever cutoff and clock the second load gets |
| IndexStore.SaveIndex | podcast_harvester.py:93-106 | the saved record has `current_cutoff_date` = the cutoff, `last_updated` = now, the cutoff among `cutoff_dates` with every earlier date kept, and nothing else changed |
| IndexStore.SaveIndexKeepsCutoffsSorted | podcast_harvester.py:100-102 | a sorted duplicate-free cutoff list stays sorted and duplicate-free after the save |
| IndexStore.SaveIndexIdempotent | podcast_harvester.py:98-106 | saving twice under the same cutoff and clock equals saving once |
| IndexStore.PairsKeys | podcast_harvester.py:121-122 | the ids the merge loop visits are exactly the ids of the batch |
| IndexStore.UpdateUnifiedIndex | podcast_harvester.py:116-170 | stored ids = old ids ∪ batch ids; `video_ids` lists exactly the stored keys and `total_videos` is their count; cutoff added and sorted; one history entry counting the batch with source `updated_existing`; `date_range` recomputed from non-empty upload dates and left alone when there are none; other fields kept |
| IndexStore.MergeBatch | podcast_harvester.py:121-129 | the merge loop computes the longer-record-wins fold over the batch in order |
| IndexStore.UpdateKeepsStoredIds | podcast_harvester.py:121-129 | no stored id is lost by the merge |
| IndexStore.UpdateTieKeepsStored | podcast_harvester.py:126-129 | a stored record is replaced only by a strictly longer `str()`: with no longer incoming copy the stored one stays |
| IndexModel.KeepLongerValid | podcast_harvester.py:123-129 | one merge step keeps the dictionary well formed, adds the id, and keeps the earlier key order as a prefix |
| IndexModel.MergeVideosKeys | podcast_harvester.py:121-133 | after merging, the ids are the stored ids plus the batch ids, and the old keys keep their order at the front |
| IndexModel.MergeKeepsLongest | podcast_harvester.py:126-129 | the kept record of an id is one of its copies, and no copy of it has a longer `str()` |
| IndexModel.MergeTieKeepsStored | podcast_harvester.py:126-129 | when no incoming copy is strictly longer, the stored record stays |
| IndexModel.MergeVideosAppend | podcast_harvester.py:121-129 | merging two batches one after the other equals merging their concatenation |
| IndexModel.MergeOrderIndependent | podcast_harvester.py:126-129 | when the copies of an id differ in length, the batch order does not change which copy is kept |
| IndexModel.AddCutoffMembers | podcast_harvester.py:140-144 | the cutoff list afterwards holds exactly the old dates and the cutoff |
| IndexModel.AddCutoffSorted | podcast_harvester.py:140-144 | adding a cutoff to a sorted duplicate-free list keeps it sorted and duplicate-free |
| IndexModel.AddCutoffIdempotent | podcast_harvester.py:140-144 | adding the same cutoff twice equals adding it once |
| IndexModel.DatesOfMembers | podcast_harvester.py:158-162 | the collected dates are exactly the non-empty upload dates of the stored videos |
| IndexModel.RangeOfBounds | podcast_harvester.py:164-168 | earliest and latest are among the dates and bound every one of them |
| IndexModel.CollectDates | podcast_harvester.py:158-162 | the date loop collects the non-empty upload dates in key order |
| IndexMerge.Loaded | merge_channel_indexes.py:53-58 | the loaded indexes are exactly the files that parsed to a non-empty object, in file order, no more of them than files |
| IndexMerge.MaxByCreatedIsFirstGreatest | merge_channel_indexes.py:64 | the base index has the greatest `created_date` string and is the first index with that date |
| IndexMerge.DictItemsKeys | merge_channel_indexes.py:98-99 | iterating one index's `videos.items()` visits exactly its stored ids |
| IndexMerge.AllItemsKeys | merge_channel_indexes.py:83-107 | the pairs visited across all loaded indexes carry exactly the ids stored by some index |
| IndexMerge.CutoffSetStep | merge_channel_indexes.py:85-88 | each index adds its `cutoff_date` to the set when that date is truthy, and nothing otherwise |
| IndexMerge.MergeLoaded | merge_channel_indexes.py:83-107 | the loop over the loaded indexes yields the longer-copy-wins merge of all their videos, the distinct truthy cutoff dates, and one history entry per index in order |
| IndexMerge.MergeOne | merge_channel_indexes.py:98-107 | merging one index's videos extends the merge by that index's items in key order |
| IndexMerge.MergeOneStep | merge_channel_indexes.py:99-107 | one inner iteration is one longer-copy-wins step |
| IndexMerge.PickBase | merge_channel_indexes.py:64 | the loop picks the same base as `max(indexes, key=created_date)` |
| IndexMerge.LoadAll | merge_channel_indexes.py:53-58 | the loading loop keeps exactly the indexes that loaded, in file order |
| IndexMerge.MergedVideosProps | merge_channel_indexes.py:110-113 | the merged videos are a well-formed dictionary whose ids are every stored id, and `total_videos` counts its keys |
| IndexMerge.SortedCutoffs | merge_channel_indexes.py:112 | `sorted(list(set))` is sorted, duplicate-free and holds exactly the collected dates |
| IndexMerge.MergeChannelIndexes | merge_channel_indexes.py:48-128 | `{}` exactly when nothing loaded; otherwise name and url from the base, fresh timestamps, every stored id kept with `video_ids`/`total_videos` describing them, sorted distinct cutoff dates equal to the truthy ones, one history entry per loaded index, and the date range over non-empty upload dates (None/None when there are none) |
| IndexMerge.MergedCopyIsLongest | merge_channel_indexes.py:98-107 | the kept copy of an id is one of its copies and no copy has a longer `str()` |
| IndexMerge.AssignSourceFiles | merge_channel_indexes.py:144-146 | the i-th history entry gets the i-th file name for i below the number of files; the rest are unchanged |
| IndexMerge.SourceFileShift | merge_channel_indexes.py:144-146 | with the first of two files unreadable, the only history entry (from the second file) is labelled with the first file's name |
| IndexMerge.LoadedNames | merge_channel_indexes.py:53-58 | each loaded index is paired with the name of the file it came from |
| IndexMerge.SourcesOfLoadedAreOwnFiles | merge_channel_indexes.py:144-146 | labelling by the names of the files that loaded gives each history entry its own file's name |
| IndexRepair.RepairIndexFile | repair_unified_indexes.py:19-94 | an unreadable file returns False and writes nothing; the repairs listed are those the record needs; a dry run writes nothing and returns True when nothing is needed, None otherwise; a real run writes the repaired record when repairs were needed and the write succeeds, and returns whether it succeeded |
| IndexRepair.ApplyRepairs | repair_unified_indexes.py:28-77 | the six checks list exactly the repairs needed, and change the record only outside a dry run, into the repaired record |
| IndexRepair.CheckCutoffDates | repair_unified_indexes.py:32-37 | `cutoff_dates` is flagged when missing and becomes `[cutoff_date]` when the legacy date is truthy, else `[]` |
| IndexRepair.CheckHistory | repair_unified_indexes.py:39-48 | a missing history is flagged and becomes one `repaired_legacy` entry built from the legacy fields with their defaults |
| IndexRepair.CheckCurrentCutoff | repair_unified_indexes.py:50-57 | a missing current cutoff is flagged and becomes the legacy date, else the greatest of `cutoff_dates`, else `unknown` |
| IndexRepair.CheckLastUpdated | repair_unified_indexes.py:59-62 | a missing `last_updated` is flagged and becomes `created_date`, else now |
| IndexRepair.CheckVideoIds | repair_unified_indexes.py:65-69 | a missing or empty `video_ids` is flagged and rebuilt from the keys of `videos` |
| IndexRepair.CheckTotal | repair_unified_indexes.py:72-77 | a `total_videos` that differs from the number of videos is flagged and set to that number |
| IndexRepair.NoRepairsMeansUnchanged | repair_unified_indexes.py:28-77 | a record needing no repair is left exactly as it was |
| IndexRepair.RepairKeepsPresentFields | repair_unified_indexes.py:32-65 | `videos` is never changed, and fields already present are left untouched |
| IndexRepair.RepairedIsComplete | repair_unified_indexes.py:32-77 | after a repair every bookkeeping field is present, `total_videos` is the number of videos, and a falsy `video_ids` is the key list |
| IndexRepair.RepairFixedPoint | repair_unified_indexes.py:32-77 | repairing a repaired record changes nothing, whatever the clock |
| IndexRepair.SecondRunFlags | repair_unified_indexes.py:65-66 | a second run flags nothing, except `video_ids` again when `videos` is empty |
| IndexRepair.RepairLegacyExample | repair_unified_indexes.py:32-77 | a legacy record with cutoff 2024-01-01 repairs to `cutoff_dates` ["2024-01-01"], that current cutoff, one `repaired_legacy` history entry, and ids and count from its videos |
| Reconciler.GetExistingVideoIds | podcast_harvester.py:348-378 | the ids skipped under `redownload_deleted`: an entry whose audio (else video) file is on disk, or, when the flag is off, any entry that names a main file at all; entries with no main file are never skipped |
| Reconciler.GetActuallyExistingVideoIds | podcast_harvester.py:381-402 | exactly the ledger entries whose main file (audio, else video) is present on disk |
| Reconciler.SkipSetsNested | podcast_harvester.py:348-402 | on-disk ids ⊆ ids skipped with the flag off ⊆ ledger ids, and with the flag on the skip set is exactly the on-disk set |
| Reconciler.NoMainFileNeverSkipped | podcast_harvester.py:360-362 | an entry with neither an audio nor a video path (or only empty ones) is in neither skip set, whatever the flag |
| Reconciler.AudioCheckedFirst | podcast_harvester.py:394 | when an audio path is recorded, only that path is looked for: a missing audio file is not rescued by a present video file |
| Reconciler.Plan | podcast_harvester.py:551-574 | the download plan is a subset of the indexed ids; without `skip_existing` it is all of them; with it, an id is planned iff it is indexed and not in the skip set chosen by the `redownload_deleted` setting |
| Reconciler.PlanGrowsWithRedownload | podcast_harvester.py:556-564 | turning `redownload_deleted` on never removes an id from the plan |
| Reconciler.DeletedPlannedIff | podcast_harvester.py:553-574 | an indexed, recorded video whose main file is gone is planned for download iff `redownload_deleted` is truthy |
| Reconciler.DownloadUrls | podcast_harvester.py:580-586 | one URL per planned id that has an index entry with a non-empty `webpage_url`, each id once, paired with that entry's URL, and no other |
| ChannelConfig.MissingRequired | podcast_harvester.py:430-433 | reports a missing field iff some required field is absent from the configuration |
| ChannelConfig.BadFlagIff | podcast_harvester.py:447-450 | the flag check fails iff some listed field is present and not a JSON boolean |
| ChannelConfig.BadLanguageIff | podcast_harvester.py:462-465 | the language check fails iff some entry is not a string of length at least two |
| ChannelConfig.RequiredIff | podcast_harvester.py:428-433 | the required-field check passes iff `url`, `channel_name`, `content_type` and `cutoff_date` are all present |
| ChannelConfig.FlagsIff | podcast_harvester.py:447-450 | the boolean check passes iff every present `download_metadata`, `download_transcript` and `redownload_deleted` is a boolean |
| ChannelConfig.ValidateAcceptsIff | podcast_harvester.py:426-469 | a configuration is accepted iff it has all required fields, an `audio`/`video` content type, a date-shaped cutoff, boolean flags, `summarize` in yes/no, and a language list of codes of length ≥ 2 when given |
| ChannelConfig.ValidateRaisesIff | podcast_harvester.py:441-444 | validation raises instead of returning iff the fields are present, the content type is valid and `cutoff_date` is not a string (the date parser's type error is not caught) |
| ChannelConfig.FilterSelected | podcast_harvester.py:795-803 | keeps only configurations from the input whose lower-cased name is among the selected names, never more than the input |
| ChannelConfig.LowerAll | podcast_harvester.py:792 | lower-cases each selected name, position by position |
| ChannelConfig.FilterSelectedIff | podcast_harvester.py:800-803 | a configuration is kept iff it is in the input and its lower-cased `channel_name` (default empty) is selected |
| ChannelConfig.SelectChannelsProps | podcast_harvester.py:784-821 | an empty configuration list selects nothing; a selection holds only input configurations, each matching a selected name case-insensitively; a positive `max_channels` bounds its length; with no selection and no limit the list is unchanged |
| ControlMatch.ExistingMembers | create_download_control_v2.py:93-98 | a name is among the existing candidates iff it is a candidate and is in the folder listing |
| ControlMatch.ExistingAppend | create_download_control_v2.py:94-98 | scanning two candidate lists one after the other finds the concatenation of what each finds |
| ControlMatch.FirstExisting | create_download_control_v2.py:67-71 | a found name is a candidate present in the folder; nothing is found only when no candidate is present |
| ControlMatch.FirstExistingIsFirst | create_download_control_v2.py:74-81 | the search returns the earliest present candidate: the one at position i when none before it exists |
| ControlMatch.Dedup | create_download_control_v2.py:105-106 | the "append if not yet listed" rule yields a list without repeats holding exactly the names seen |
| ControlMatch.GlobLangSrt | create_download_control_v2.py:103-106 | the glob `{base}.*.srt` read with `base` as plain text (the corrected reading, see Findings) keeps exactly the listed names that start with `base.` and end with `.srt`, in listing order |
| ControlMatch.LangSrtPattern | create_download_control_v2.py:103 | with the base escaped, `{base}.*.srt` matches a name iff it is the base, a dot, anything, then `.srt` |
| ControlMatch.PlainSrtPattern | create_download_control_v2.py:103 | with the base escaped, `{base}.srt` matches exactly `base.srt` |
| ControlMatch.GlobLangSrtEscaped | create_download_control_v2.py:103-104 | the glob with the base escaped lists the same names, in the same order, as the plain-text reading `GlobLangSrt` |
| ControlMatch.SubtitleGlobsProps | create_download_control_v2.py:101-106 | with the title escaped, the two globs find exactly the listed names of the form `base.<anything>.srt` or `base.srt` |
| ControlMatch.BracketClassMisses | create_download_control_v2.py:103-104 | a name starting `Ep [` never matches a pattern starting `Ep [Live]`, because `[Live]` stands for one of the letters L, i, v, e |
| ControlMatch.BracketTitleExample | create_download_control_v2.py:101-106 | for the title `Ep [Live]` beside `Ep [Live].info.json`, `Ep [Live].de.srt` and `Ep [Live].srt`, the globs as written find nothing, and the escaped globs find both subtitle files |
| ShellPatterns.Glob | create_download_control_v2.py:104 | `Path.glob` on one folder lists exactly the listed names that match the pattern under `fnmatch` rules |
| ShellPatterns.EscapedPrefix | create_download_control_v2.py:103-104 | an escaped text at the front of a pattern matches exactly that text, with the rest of the name matching the rest of the pattern |
| ShellPatterns.LiteralMatch | create_download_control_v2.py:103 | a pattern without `*`, `?` or `[` matches only itself |
| ShellPatterns.StarLiteral | create_download_control_v2.py:103 | `*` followed by plain text matches exactly the names that end with that text |
| ControlMatch.Thumbnails | create_download_control_v2.py:93-98 | the corrected thumbnail list has no repeats and holds exactly the thumbnails the source loop finds |
| ControlMatch.SearchFirst | create_download_control_v2.py:67-71 | the search loop, proved to return what the first-existing specification gives |
| ControlMatch.CollectNew | create_download_control_v2.py:101-113 | the collecting loop, proved to return the existing candidates in order, each once |
| ControlMatch.FindMatchingFiles | create_download_control_v2.py:48-122 | the whole matcher, proved equal to the specification `Matching` (description, audio, video, annotations by first match over base then alt name; thumbnails and subtitles collected), with the corrected thumbnail list and the subtitle glob read with the base escaped |
| ControlMatch.MatchingProps | create_download_control_v2.py:56-122 | the report keeps the info file's own name, lists only files that exist, and lists no subtitle twice |
| ControlMatch.AudioIsFirstCandidate | create_download_control_v2.py:74-81 | audio is the first present name in the order base.mp3, base.m4a, base.wav, base.opus, then the same four for the alternative base |
| ControlMatch.ThumbnailsListedTwice | create_download_control_v2.py:53-54 | when the name has no `.info` part the two bases coincide and the source's thumbnail list is the found thumbnails twice over |
| ControlMatch.ThumbnailExample | create_download_control_v2.py:94-98 | for `X.info.json` beside `X.jpg` the source lists `X.jpg` twice; the corrected list holds it once |
| ControlMatch.BaseNameExample | create_download_control_v2.py:51 | the base name of `X.info.json` is `X` |
| ControlMatch.AltBaseNameExample | create_download_control_v2.py:54 | the alternative base name of `X.info.json` is also `X` |
| ControlScan.CollectInfoFiles | create_download_control_v2.py:146-154 | the collecting loop returns the top-level info files, then those of each non-hidden subfolder in listing order |
| ControlScan.AddSizes | create_download_control_v2.py:189-205 | the summing loop returns the total size of the listed files |
| ControlScan.HashFiles | create_download_control_v2.py:250-273 | every reported file's relative path is written into the hash table with its fingerprint, later writes overriding earlier ones |
| ControlScan.MeasureItem | create_download_control_v2.py:171-213 | an item's size is the sum of its audio, video, thumbnail, subtitle and annotation sizes |
| ControlScan.RecordItem | create_download_control_v2.py:171-282 | one info file's bookkeeping, proved equal to the specification `Record` (entry, hashes, counters, date range) |
| ControlScan.ProcessInfoFile | create_download_control_v2.py:156-169 | one loop step: an info file without a video id changes nothing, otherwise its matched files are recorded |
| ControlScan.ScanChannelDirectory | create_download_control_v2.py:125-284 | the scan loop, proved equal to the specification `Scan` over the collected info files |
| ControlScan.RecordValid | create_download_control_v2.py:238-276 | recording an item adds its id to the ledger's keys, keeps the dictionaries well formed and counts one more video |
| ControlScan.RecordPaths | create_download_control_v2.py:215-273 | the stored entry has the item's subfolder and every file path made relative to the channel folder, and each hashed path maps to that file's fingerprint |
| ControlScan.ScanCounts | create_download_control_v2.py:156-276 | after any run of steps `total_videos` grows by the number of info files with an id and the ledger's keys grow by exactly their ids |
| ControlScan.ScanTotals | create_download_control_v2.py:125-284 | a scan's `total_videos` counts the info files with an id, its ledger holds exactly their ids, and the ledger never holds more entries than that count (ids repeated across files collapse) |
| ControlScan.CountedCoversIds | create_download_control_v2.py:238-276 | there are never more distinct ids than counted info files |
| ControlScan.RangeStep | create_download_control_v2.py:278-282 | folding one more non-empty date into the earliest/latest pair keeps the pair the least and greatest date seen, both among the dates |
| ControlScan.ScanRange | create_download_control_v2.py:156-282 | after any run of steps from an empty range, `earliest` and `latest` are the least and greatest non-empty upload date seen, or both None when there is none |
| ControlScan.ScanDateRange | create_download_control_v2.py:125-284 | the scan's date range is exactly the span of the non-empty upload dates of its videos |
| ControlScan.ConfigAnswerFirstMatch | create_download_control_v2.py:316-319 | the first entry naming the channel decides: records are kept unless it sets `redownload_deleted` truthy |
| ControlScan.PreserveByDefault | create_download_control_v2.py:310-324 | when no readable config names the channel, records of deleted files are preserved |
| ControlScan.CreateControlFile | create_download_control_v2.py:327-378 | without preservation or an old ledger the scan is written as is; otherwise the old entries and hashes are overlaid with the scan's, `total_videos` becomes the merged count, and the preserved count is the (non-negative) number of entries only the old ledger had |
| ControlScan.OverlayKeepsOldIds | create_download_control_v2.py:346-351 | every old id survives the overlay, taking the rescanned entry when there is one and keeping the old entry otherwise |
| Srt.ParseFormatted | content_summarizer.py:29-42 | a timestamp written `HH:MM:SS,mmm` (any rest after ` --> `) parses back to its value in milliseconds: parse inverts format |
| Srt.ParseDigitFields | content_summarizer.py:32-41 | four digit fields joined by `:`, `:` and `,` before ` --> ` read as hours, minutes, seconds and milliseconds, whatever their width |
| Srt.DigitFieldsSplit | content_summarizer.py:32-34 | the three splits isolate the time part and its four fields when the fields are digits |
| Srt.ParseFieldsValue | content_summarizer.py:36-41 | the four numbers combine as ((h·60+m)·60+s)·1000+ms milliseconds |
| Srt.LastNewline | content_summarizer.py:51 | the greedy `\s*` in the separator ends at the last newline of a whitespace run |
| Srt.SplitFrom | content_summarizer.py:51 | splitting on `\n\s*\n` loses nothing: the pieces interleaved with the separators give back the text, and every separator is whitespace running from a newline to a newline |
| Srt.ReadBlocks | content_summarizer.py:54-70 | the block loop, proved to return what the specification `ParseBlocks` gives: short blocks skipped, subtitles in order, and failure as soon as a block's timestamp does not parse |
| Srt.ParseSrtFile | content_summarizer.py:44-76 | the whole reader: an unreadable file or any bad timestamp gives the empty list, otherwise the blocks' subtitles |
| Srt.NoneAbsorbs | content_summarizer.py:62-76 | once one block raises, the file's parse has failed, whatever follows |
| Srt.ParseBlocksNoneIff | content_summarizer.py:54-76 | the parse fails iff some block has at least three lines and an unparseable timing line |
| Srt.ParseBlocksKept | content_summarizer.py:56-70 | a successful parse is exactly the subtitles of the blocks with three or more lines, in order |
| Srt.ParseSrtProps | content_summarizer.py:44-76 | one bad block empties the whole result; otherwise the result is the kept subtitles |
| Srt.ParseThreeLines | content_summarizer.py:55-70 | a block "index / timing / text" yields one subtitle with the timing's start and the text line unchanged |
| Srt.ThreeLinesSubtitle | content_summarizer.py:58-65 | three lines with a parseable timing give the subtitle of that start and the third line |
| Chunking.ChunkLoop | content_summarizer.py:78-115 | the chunking loop, proved to return what the specification `CreateChunks` gives |
| Chunking.Create5MinChunks | content_summarizer.py:78-115 | `create_5min_chunks` with the program's chunk text (texts joined by spaces, stripped) |
| Chunking.RunKeeps | content_summarizer.py:85-103 | the loop invariant over any prefix: emitted groups plus the open group are the input, chunks are numbered from 1, each window starts on a multiple of 300 s, and each chunk after the first was opened by a subtitle a window or more past the previous start |
| Chunking.ChunksPartition | content_summarizer.py:78-115 | there are no chunks iff there are no subtitles; the chunks' subtitle groups are non-empty and concatenate to the input in order; chunk i is numbered i+1 and its text is made from its group |
| Chunking.ChunksTimes | content_summarizer.py:87-111 | every chunk starts on a multiple of 300 s; chunks are at least a window apart; every chunk but the last ends one window after its start; the last ends 60 s after its last subtitle; every subtitle starts before its chunk's window closes |
| Chunking.ChunksOpen | content_summarizer.py:87-101 | each chunk after the first opens with a subtitle at least a window past the previous chunk's start, and starts at that subtitle's time rounded down to the window |
| Chunking.FinishTimed | content_summarizer.py:105-113 | closing the loop adds the open group as a final chunk ending 60 s after its last subtitle, and keeps the timing facts of the closed chunks |
| Chunking.ChunksExample | content_summarizer.py:78-115 | subtitles at 0 s, 290 s, 305 s and 610 s give three chunks starting at 0, 300 and 600 s, ending at 300, 600 and 670 s |
| Chunking.FileNamesInjective | content_summarizer.py:122 | distinct chunk numbers give distinct `chunk_NNN.txt` and `summary_NNN.txt` names, and equal ones equal names |
| Chunking.ChunkFilesDistinct | content_summarizer.py:117-136 | the chunks of one transcript are numbered distinctly, so no chunk file or summary file overwrites another |
| Chunking.TruncDiv | content_summarizer.py:132 | `int(a / b)`: the quotient truncated toward zero |
| Chunking.ClosedChunkDuration | content_summarizer.py:132 | a chunk closed a full window after its start is labelled "~5 minutes" |
| Chunking.WholeMinuteStart | content_summarizer.py:125-131 | a window start prints as whole minutes and `:00` seconds |
| Chunking.TruncateProps | content_summarizer.py:185-196 | text within four characters per token is unchanged; longer text keeps its first `4·max − 100` characters and gets the note, 51 characters short of the budget; with a budget of at least 25 tokens the result never exceeds it |
| Summarizer.FirstContaining | content_summarizer.py:326-329 | the index of the first transcript name containing `.{lang}.srt`, with none before it containing it; none only when no name does |
| Summarizer.FirstContainingAt | content_summarizer.py:326-329 | the search returns position i when name i is the first to contain the pattern |
| Summarizer.ChooseSrt | content_summarizer.py:317-336 | the chosen transcript is one of the folder's `.srt` files, in the preferred language whenever one is, and otherwise the first listed |
| Summarizer.SaveChunksSaved | content_summarizer.py:117-136 | after `save_chunks` every chunk's file holds that chunk's rendering, no file appears that is not named after a chunk, and files of other numbers are untouched |
| Summarizer.SaveChunksTwice | content_summarizer.py:117-136 | saving the same chunks again changes no file |
| Summarizer.ResumeBounds | content_summarizer.py:366-398 | at most one summary per chunk, each for one of the chunks, and no summary file that existed before the loop is overwritten |
| Summarizer.ResumeWrites | content_summarizer.py:372-393 | after the loop, exactly the old summary files plus one per chunk that yields a summary exist, each holding the saved or freshly answered summary, old files unchanged |
| Summarizer.YieldsStep | content_summarizer.py:372-393 | one more chunk yields a summary for number k iff the earlier chunks did or this chunk is numbered k and yields one |
| Summarizer.WrittenStep | content_summarizer.py:375-393 | the loop step keeps the "summary files written" invariant for a chunk whose number is new |
| Summarizer.WrittenKeys | content_summarizer.py:378-389 | after a step a file exists iff it existed before the loop or some chunk so far yielded a summary under its number; old files are unchanged |
| Summarizer.WrittenValues | content_summarizer.py:378-389 | after a step every chunk that yields a summary has exactly that summary in its file |
| Summarizer.ResumeIsKept | content_summarizer.py:372-398 | the collected summaries are exactly the chunks that yield one (an existing file, else a non-empty answer), in chunk order, each with its summary; failed chunks are skipped |
| Summarizer.ResumeLeavesFailedMissing | content_summarizer.py:386-393 | a chunk's summary file is missing after the loop iff the chunk had no file and the model gave no usable answer |
| Summarizer.ResumeOutcomeStable | content_summarizer.py:378-381 | what a chunk yields is the same judged before or after the loop: a summary once written is read back |
| Summarizer.KeptStable | content_summarizer.py:372-398 | chunks that yield the same against two sets of files collect the same summaries |
| Summarizer.ResumeRerun | content_summarizer.py:372-398 | running the chunk loop a second time over its own output collects the same summaries and writes no file |
| Summarizer.ResumeAllSaved | content_summarizer.py:378-381 | with every chunk's summary already saved the model is never consulted: the result is the same for any model, files unchanged, one summary per chunk |
| Summarizer.FinalizeProps | content_summarizer.py:402-437 | the roll-up keeps the transcript and old summaries; it succeeds iff the final prompt over the combined summaries is answered, and then writes a non-empty final summary and metadata counting all chunks and at most that many processed ones; on failure neither is written |
| Summarizer.FinalizeRerun | content_summarizer.py:362-437 | when the roll-up fails, running it again on the resulting folder with the same model gives the same outcome and folder |
| Summarizer.ProcessProps | content_summarizer.py:313-437 | no `.srt` file means failure with nothing changed; an existing final summary means success with nothing changed; transcripts and old summaries are always kept; success leaves a final summary, failure leaves the final summary and metadata as they were |
| Summarizer.ProcessRerun | content_summarizer.py:313-437 | processing a folder a second time gives the same result and folder as the first run |
| Summarizer.VideoFolder.SaveChunkFiles | content_summarizer.py:117-136 | writes each chunk's file in order and changes nothing else in the folder |
| Summarizer.VideoFolder.SummarizeEach | content_summarizer.py:366-398 | the chunk loop, proved to collect and write what the specification `Resume` gives, changing nothing else |
| Summarizer.VideoFolder.SummarizeChunks | content_summarizer.py:362-437 | saving, summarising and the roll-up, proved to leave the folder as the specification `Finalize` gives |
| Summarizer.VideoFolder.ProcessVideoFolder | content_summarizer.py:313-437 | `process_video_folder`, proved to return and leave the folder as the specification `Process` gives (so `ProcessProps` and `ProcessRerun` hold of it) |
| UrlConfig.Sanitize | convert_urls_to_config.py:35 | same length; each character is kept when it is a word character, `-` or `.`, and becomes `_` otherwise |
| UrlConfig.CollapseShape | convert_urls_to_config.py:38 | collapsing runs of `_` leaves no double underscore, never lengthens the text, and keeps its first and last characters |
| UrlConfig.CollapseNonUnderscores | convert_urls_to_config.py:38 | collapsing changes only underscores: the other characters stay, in order |
| UrlConfig.CollapseSubset | convert_urls_to_config.py:38 | collapsing introduces no new character |
| UrlConfig.CollapseIdentity | convert_urls_to_config.py:38 | text without a double underscore is left as it is |
| UrlConfig.CapitalizeWordsAt | convert_urls_to_config.py:44 | capitalising the `_`-separated words keeps the length and, at each position, upper-cases a word's first character and lower-cases the rest |
| UrlConfig.CleanedProps | convert_urls_to_config.py:14-41 | the cleaned identifier of any URL is well formed: only word characters, `-`, `.` and single underscores, none leading or trailing |
| UrlConfig.CapitalizeWordsProps | convert_urls_to_config.py:44 | capitalising a well-formed name keeps it well formed, leaves every word capitalised and changes only letter case |
| UrlConfig.ExtractChannelNameProps | convert_urls_to_config.py:11-46 | every extracted channel name is well formed, has each word capitalised, and equals the cleaned identifier up to case |
| UrlConfig.IdentifierProps | convert_urls_to_config.py:16-28 | the identifier is what follows the last `/@`, else the last `/c/`, else the last `/channel/`, else the last `/` (the whole URL when it has none), and holds no further such marker |
| UrlConfig.MarkerPiece | convert_urls_to_config.py:19-28 | the last piece after a separator ends the text right after that separator and contains none |
| UrlConfig.NonBlankProps | convert_urls_to_config.py:54 | the URL list is the stripped non-blank lines: every entry is non-empty and a stripped input line, and every non-blank line's stripped form is listed |
| UrlConfig.TrimmedProps | convert_urls_to_config.py:54 | the same two directions for any trimming function |
| UrlConfig.NormalizeUrlProps | convert_urls_to_config.py:57-61 | a normalised URL always starts with `http`: `Https://` is lower-cased, other `http` URLs are kept, anything else gets `https://` in front |
| UrlConfig.RecordLoop | convert_urls_to_config.py:56-78 | the record loop, proved to build the specification `Records`: one record per URL, in input order |
| UrlConfig.ConvertUrlsToConfig | convert_urls_to_config.py:48-78 | the configurations are the records of the stripped non-blank lines, each under its extracted channel name |
| UrlConfig.RecordsAt | convert_urls_to_config.py:56-78 | record i is the fixed record for URL i normalised, filed under that URL's channel name |
| UrlConfig.RecordRequired | convert_urls_to_config.py:65-76 | every written record has all the fields validation requires |
| UrlConfig.RecordFlags | convert_urls_to_config.py:72-75 | every written record's flags are booleans |
| UrlConfig.RecordValidates | convert_urls_to_config.py:65-76 | a written record passes `validate_channel_config` iff its cutoff date parses as a date |
| Rss.BaseUrl | rss_generator.py:21 | the base URL is the configured one with its trailing slashes removed: a prefix of it, not ending in `/`, followed only by slashes |
| Rss.FirstEndingWith | rss_generator.py:135-137 | the first file (in listing order) whose name ends with the extension; none only when no file does |
| Rss.FindMediaFileIff | rss_generator.py:132-138 | no media file is found iff no file ends with any of the extensions; a found file ends with the earliest extension any file has, and is the first file with it |
| Rss.FindMediaFileFound | rss_generator.py:132-138 | found iff some file ends with one of the extensions, and the found file does |
| Rss.LastDot | rss_generator.py:162 | the position of the last `.` of the name, or none when it has none |
| Rss.MimeType | rss_generator.py:160-171 | the type is one of the six listed media types or `application/octet-stream` |
| Rss.MimeTypeOfExtension | rss_generator.py:162-171 | a file named stem + a listed extension (non-empty stem) gets that extension's type |
| Rss.MimeTypeIgnoresCase | rss_generator.py:162 | the type does not depend on the case of the name |
| Rss.MimeTypeKinds | rss_generator.py:160-171 | every extension searched for audio has an `audio/` type and every video extension a `video/` type |
| Rss.SuffixOfExtension | rss_generator.py:162 | the suffix of stem + extension is that extension |
| Rss.Description | rss_generator.py:120 | an empty description stays empty; otherwise it is cut to its first 500 characters and `...` is appended |
| Rss.MediaOfProps | rss_generator.py:106-114 | the media file is one of the folder's files; there is none iff no file has an audio or a video extension; audio wins whenever any audio file exists, video is used otherwise |
| Rss.ItemForProps | rss_generator.py:118-130 | the item records the channel, `channel/folder` as its path, the media file, a media URL `base/media/channel/folder/file`, the file's date and size, and the folder name as title when the info has none |
| Rss.ExtractVideoInfoProps | rss_generator.py:93-130 | an item is produced iff the folder has an info file that parses and a media file, and it is then the item built from them |
| Rss.GetChannelItems | rss_generator.py:77-91 | the folder loop, proved to return what the specification `ChannelItems` gives |
| Rss.CollectedFrom | rss_generator.py:81-87 | every collected item comes from a visible subfolder of the channel, at most one per folder |
| Rss.ChannelItemsProps | rss_generator.py:77-91 | a channel's items are sorted newest upload date first, each from a visible folder of that channel, at most `max_items` of them, and no dropped item has a later upload date than a kept one |
| Rss.TopItems | rss_generator.py:90-91 | sorting then keeping the first `max_items` gives a sorted selection of input items whose upload dates are at least those of every dropped item |
| Rss.GenerateMasterItems | rss_generator.py:51-61 | the master loop, proved to return what the specification `MasterItems` gives |
| Rss.AllChannelItemsFrom | rss_generator.py:54-57 | every gathered item is an item of some visible channel folder |
| Rss.MasterItemsProps | rss_generator.py:49-61 | the master items are sorted by publication date text, newest first, each from a visible channel, at most `max_items` of them, and no dropped item has a later publication date text than a kept one |
| Rss.MasterItemsFrom | rss_generator.py:52-61 | every master item is an item gathered from a visible channel folder |
| Rss.MasterOrderIsTextual | rss_generator.py:60 | publication dates are compared as text: "Wed, 01 Jan 2020" sorts before "Thu, 02 Jan 2025" in the newest-first order |
| Rss.FormatDurationRoundTrip | rss_generator.py:173-178 | the formatted duration reads back as the same number of seconds |
| Rss.FormatDurationFields | rss_generator.py:175-178 | the duration has three fields, minutes and seconds two digits each and below 60 |
| Rss.HmsRoundTrip | rss_generator.py:178 | hours, minutes and seconds written `H:MM:SS` read back as the same total |
| Rss.HmsFields | rss_generator.py:178 | `H:MM:SS` splits into three fields, the last two two-digit and reading back as the minutes and seconds |
| Rss.SplitSeconds | rss_generator.py:175-177 | the floor divisions give minutes and seconds below 60 that recombine to the input |
| Rss.LinkAsWrittenIsEmpty | rss_generator.py:147 | for an info file without `webpage_url` the link written is empty, although a media URL to fall back on exists |
| Rss.EntryOfProps | rss_generator.py:140-158 | guid and enclosure URL are the media URL; the link is never empty and is the web page when known; the length reads back as the file size; the duration tag is present iff the duration is non-zero and reads back as it; a listed extension gives its type |
| ContentServer.Spaced | content_server.py:107 | same length, every underscore turned into a space and every other character kept |
| ContentServer.JoinSpaced | content_server.py:107 | joining underscore-free parts with spaces is the same as joining them with `_` and then replacing underscores |
| ContentServer.TitleParts | content_server.py:105-107 | a name with more than three `_`-parts starts with the first two parts, and the title from the rest is that remainder of the name with underscores as spaces |
| ContentServer.FolderTitleFallback | content_server.py:102-107 | when the title is still the folder name and the name has more than three `_`-parts, the title is the name after its first two parts, underscores turned into spaces, and holds no underscore |
| ContentServer.FolderTitleKept | content_server.py:98-107 | a metadata title different from the folder name is kept; otherwise a name with three or fewer parts stays the title |
| ContentServer.ScanDownloads | content_server.py:28-53 | the scan loop over visible channel and video folders, proved to return the collected records sorted by the date key |
| ContentServer.ChannelContentFrom | content_server.py:43-49 | every record of a channel comes from one of its visible video folders |
| ContentServer.AllContentFrom | content_server.py:36-49 | every record comes from a visible video folder of a visible channel folder |
| ContentServer.ScanProps | content_server.py:28-53 | the list is sorted newest upload date first, is a permutation of the collected records, each from a visible folder, and a record without an upload date sorts as `0000-00-00` |
| ContentServer.UniqueChannels | content_server.py:653-659 | the de-duplication loop, proved to return what the specification `Unique` gives |
| ContentServer.FirstNamed | content_server.py:656-659 | the position of the first channel with a given name |
| ContentServer.UniqueNames | content_server.py:653-659 | de-duplication loses no name and adds none |
| ContentServer.UniqueFirst | content_server.py:657-659 | each kept channel is the first occurrence of its name |
| ContentServer.UniqueOrder | content_server.py:656-659 | the kept channels are in the order of their first occurrences |
| ContentServer.UniqueDistinct | content_server.py:657-659 | no name is kept twice |
| ContentServer.SplitCount | content_server.py:252 | splitting at a character gives one more part than there are occurrences of it |
| ContentServer.MediaPathAsWrittenIff | content_server.py:252-256 | a media path is refused with 400 iff its unquoted remainder after `/media/` holds fewer than two `/` |
| ContentServer.MediaPathEscapes | content_server.py:252-261 | the check as written accepts `/media/../a/b`, whose first segment climbs out of the downloads directory |
| ContentServer.MediaPathProps | content_server.py:252-261 | the corrected check accepts only paths of three or more segments none of which is `..`, and otherwise agrees with the check as written |
| ContentServer.RangeParts | content_server.py:324 | `bytes=a-b` splits into `a` and `b` |
| ContentServer.RangeOfFields | content_server.py:324-336 | a reply has start ≥ 0, end ≤ size − 1 and length end − start + 1; the handler fails (500) iff the header has fewer than two fields or a non-empty field is not an integer |
| ContentServer.TwoFields | content_server.py:325-336 | an empty first field means byte 0 and an empty last field the last byte; both are clamped to the file and `Content-Range` is `bytes start-end/size` |
| ContentServer.RangeAsWrittenProps | content_server.py:320-336 | for digit fields the reply is partial content from the first position (or 0) to the last (or the end), clamped, with the matching `Content-Range` |
| ContentServer.SuffixRangeAsWritten | content_server.py:324-330 | `bytes=-N` is answered with bytes 0 to min(N, size − 1), the first bytes rather than the last N |
| ContentServer.InvertedRangeAsWritten | content_server.py:329-331 | a first position after the last, or past the end of the file, is still answered 206 with a content length of zero or less |
| ContentServer.ResolveRange | content_server.py:320-336 | the corrected range resolution serves only a non-empty range inside the file |
| ContentServer.SuffixRangeResolved | content_server.py:324-331 | the corrected resolution answers `bytes=-N` with the last N bytes, or the whole file when it is shorter |
| ContentServer.AgreeTwoFields | content_server.py:325-331 | on two integer fields the corrected resolution serves exactly the bytes the handler serves when the range is satisfiable, the whole file when the last position is before the first, and 416 when the first is past the end |
| ContentServer.ResolveRangeAgrees | content_server.py:320-336 | the same agreement for a header `bytes=a-b` with digit fields |
| ContentServer.ReadAt | content_server.py:342-346 | a read returns at most the bytes asked for, and nothing only when none were asked for or the position is at or past the end |
| ContentServer.SendingStep | content_server.py:344-351 | one loop step keeps the invariant: the pieces sent are the first bytes of the range, each 1 to 8192 bytes; reading nothing means the range was fully sent |
| ContentServer.SendRange | content_server.py:340-354 | the send loop sends pieces of 1 to 8192 bytes, never more than the range asks for and in order; if the connection outlives the loop the whole range (as far as the file reaches) is sent |
| KeySort.SortDescSorted | rss_generator.py:90 | Python's `sort(key=…, reverse=True)` on string keys leaves the list ordered greatest key first, holding exactly the input's elements |
| KeySort.SortDescOfSorted | rss_generator.py:90 | an already ordered list, ties included, comes back unchanged |
| KeySort.SortDescStable | rss_generator.py:90 | the sort is stable: for every key, the elements with that key keep their input order |
| KeySort.TopByKeyTies | rss_generator.py:90-91 | among the kept items, those with any one key are the first ones with that key in input order |
| KeySort.TopByKey | rss_generator.py:90-91 | keeping the first n of the sorted list keeps min(n, length) input elements, in order, with keys at least those of every dropped element |

## Left out

- yt-dlp invocation: channel discovery, index creation, the download command and the delete handlers that call it. These are calls to an external tool. Discovered videos enter the model as input lists.
- The language-model client: the connection test and the HTTP request, retry and sleep loop of `call_llm_api`. The model is an oracle returning `Option<string>`.
- HTTP request plumbing, the config load and save endpoints, background threads and liveness checks in `ContentHandler`. Only the decisions they make are modelled.
- ContentServer.SendRange: a failed socket write is modelled as the connection dying after a given number of pieces. The whole-file send loop is not modelled separately. It is the range loop without a bound.
- RSS XML serialisation through ElementTree. The model stops at the values written into each `<item>`.
- The md5 `get_file_hash`. It is a fingerprint function of the directory.
- Directory listing order. `iterdir` and `glob` results are given as sequences in listing order.
- `stat` sizes and modification times, file writes, `unlink` and `rmtree`. Sizes are given as functions, and writes are the returned state.
- IndexStore.SaveIndex: a failed write, which the program swallows, is not modelled.
- Floating point. SRT times are integer milliseconds, so sub-millisecond float rounding in `start_time` sums is not modelled. The MB statistics formatting is not modelled.
- `datetime.now()` and ISO timestamps are a `now` parameter. `strptime` validity is an `isDate` parameter. The one-digit `%m`/`%d` forms it accepts are therefore not ruled in or out by the model.
- JSON parsing. Files enter as parsed values, and an unreadable file is `None`. A JSON `null` field is treated like a missing key.
- Rss.ItemForProps: JSON floats are not modelled, and a field of an unexpected JSON type is read as its default. A float `duration` is read as no duration, so the item gets no duration tag. The code passes it to `_format_duration`, whose `02d` formatting raises on a float and aborts the feed. A boolean `true` duration is also read as no duration, where Python formats it as one second. A non-string `title`, `description`, `upload_date` or `webpage_url` is likewise read as the default.
- ControlScan.VideoInfo: a video's `duration` is modelled as an integer. yt-dlp may write a float there, and the ledger copies it verbatim; a float duration is not modelled.
- UrlConfig.Record: a record is a map, so the key order of the written JSON object is not modelled. Only its keys and values are.
- `len(str(video))` is the length of the record's `repr` field. Python's rendering of the dict into that string is not modelled.
- ChannelConfig.LowerAll: case mapping covers ASCII letters only. Python's `str.lower()` also maps non-ASCII letters.
- UrlConfig.CapitalizeWordsAt: `str.capitalize()` is modelled on ASCII letters only, for the same reason.
- UrlConfig.Sanitize: the regular expression's `\w` is modelled as ASCII letters, digits and `_`, plus every non-ASCII character. Python also rejects non-ASCII punctuation and symbols, which the model keeps.
- Text.ParseInt: `int()` accepts surrounding whitespace and one sign, as modelled. Python's `_` digit separators and non-ASCII digits are not modelled.
- ChannelConfig.NameOf: a channel whose `channel_name` is not a string is not modelled. Selection compares names as strings.
- ControlMatch.GlobLangSrt: the subtitle globs are read with the title as plain text, as if escaped. The code pastes the title into the pattern. A title holding `[`, `*` or `?` therefore makes the real globs miss or over-match files, as described under Findings and shown by `ControlMatch.BracketTitleExample`.
- ControlMatch.FindMatchingFiles: the matcher reports the corrected, duplicate-free thumbnail list and the subtitle globs with the title escaped. It does not reproduce the repeated thumbnails or the bracket-title misses described under Findings.
- ControlScan.ScanChannelDirectory: the scan uses the corrected, duplicate-free thumbnail list. So `total_thumbnails` and the size total do not reproduce the double counting described under Findings.
- `load_control_file` and `load_channels_config` reading from disk. The ledger and the configurations are given as parsed values.
- ContentServer.Analyze: only the path, title, channel and upload date are modelled. The summary flags, audio and video detection, duration and thumbnail fields are not.
- `mimetypes.guess_type` in the content server, and the server's `Content-type` header.
- `cleanup_thumbnails` and the per-channel batch driver's console output, counters and sleeps. These are outside the bookkeeping.
- send_all_summaries.py is not part of this model. It drives an external sender from a module that is not shown.
- list_channels.py is not part of this model. It is a console listing.
- update_summarize_setting.py is not part of this model. It calls ffprobe and compares float durations.
- The `main` functions of the command-line tools. Argument parsing and file discovery are left out, and so is console output.

## Findings

| source | as written | input that shows it | evidently intended | confidence | as-written member | corrected member |
|---|---|---|---|---|---|---|
| create_download_control_v2.py:93-98 | thumbnails are looked up under both `base_name` and `alt_base_name` without de-duplication, and the two names are equal unless the info name has an extra `.info` | `X.info.json` beside `X.jpg` gives thumbnails `["X.jpg", "X.jpg"]`, counted twice in `total_thumbnails` and the size total | each thumbnail file listed once | not executed | ControlMatch.ThumbnailExample | ControlMatch.Thumbnails |
| merge_channel_indexes.py:144-146 | the i-th history entry is labelled with the i-th original file name | files `[a.json, b.json]` where `a.json` fails to load: the one history entry, built from `b.json`, is labelled `a.json` | each history entry labelled with the file it was built from | not executed | IndexMerge.SourceFileShift | IndexMerge.SourcesOfLoadedAreOwnFiles |
| rss_generator.py:147 | the link is `item_data.get('webpage_url', media_url)`, but the item dictionary always holds `webpage_url` | an info file without `webpage_url`: the item's link is `""`, not the media URL | fall back to the media URL when there is no web page | not executed | Rss.LinkAsWrittenIsEmpty | Rss.EntryOfProps |
| content_server.py:324-331 | an empty start field means 0 | `Range: bytes=-500` on a 10000-byte file serves bytes 0-500 (501 bytes), not the last 500 bytes that section 2.1 of RFC 7233 defines | bytes 9500-9999 | not executed | ContentServer.SuffixRangeAsWritten | ContentServer.SuffixRangeResolved |
| content_server.py:329-336 | after clamping, any start and end are answered with 206 | `bytes=500-100`, or `bytes=20000-20100` on a 10000-byte file, gets 206 with a `Content-length` of zero or less | ignore an invalid range (200 with the whole file) or answer 416 for an unsatisfiable one, per sections 2.1 and 4.4 of RFC 7233 | not executed | ContentServer.InvertedRangeAsWritten | ContentServer.ResolveRangeAgrees |
| content_server.py:252-261 | any three or more unquoted segments are appended to the downloads directory | `/media/../a/b` (or `%2e%2e`) names a path outside the downloads directory | reject `..` segments | not executed | ContentServer.MediaPathEscapes | ContentServer.MediaPathProps |
| create_download_control_v2.py:102-104 | the title is pasted unescaped into the glob patterns `{base}.*.srt` and `{base}.srt`, so `[`, `*` and `?` in a title act as pattern characters | `Ep [Live].info.json` beside `Ep [Live].de.srt` and `Ep [Live].srt`: `[Live]` matches one letter, so neither subtitle file is listed | the title matched literally (`glob.escape`) | not executed | ControlMatch.BracketTitleExample | ControlMatch.GlobLangSrtEscaped |
