/** The download-control ledger (`.download_control.json`): rescanning a
    channel folder into a control record, deciding whether records of
    deleted files are kept, and overlaying the rescan on the old ledger. */
module ControlScan {
  import opened Wrappers
  import opened Seqs
  import opened Text
  import opened Dicts
  import opened JsonValue
  import opened ControlMatch

  /** An entry of the channel folder, in listing order: a file, or a
      subfolder with the names of the files directly inside it. */
  datatype Entry = FileEntry(name: string) | DirEntry(name: string, files: seq<string>)

  /** The fields `extract_video_info` takes from an info file. */
  datatype VideoInfo = VideoInfo(
    id: string, title: string, uploadDate: string, duration: int, uploader: string, webpageUrl: string)

  /** A channel folder. Paths are relative to it (`name` or `sub/name`):
      `info` is the parsed info file (None when unreadable), `size` the
      size in bytes, `fingerprint` what `get_file_hash` returns and
      `modified` the info file's modification time as ISO text. */
  datatype ChannelDir = ChannelDir(
    entries: seq<Entry>,
    info: string -> Option<VideoInfo>,
    size: string -> nat,
    fingerprint: string -> string,
    modified: string -> string)

  /** An info file found by the scan: its subfolder (None for the channel
      folder itself), its name and the listing of the folder holding it. */
  datatype InfoFile = InfoFile(subfolder: Option<string>, name: string, folder: seq<string>)

  /** The path stored in the ledger for a file of a (sub)folder. */
  function RelPath(sub: Option<string>, name: string): string {
    if sub.None? then name else sub.value + "/" + name
  }

  function RootFiles(entries: seq<Entry>): seq<string> {
    if entries == [] then []
    else
      var n := |entries| - 1;
      RootFiles(entries[..n]) + (if entries[n].FileEntry? then [entries[n].name] else [])
  }

  predicate IsInfoName(name: string) {
    EndsWith(name, ".info.json")
  }

  /** glob('*.info.json') over the names of one folder. */
  function InfoFilesIn(sub: Option<string>, names: seq<string>, folder: seq<string>): seq<InfoFile> {
    if names == [] then []
    else
      var n := |names| - 1;
      InfoFilesIn(sub, names[..n], folder) + (if IsInfoName(names[n]) then [InfoFile(sub, names[n], folder)] else [])
  }

  /** The info files of the subfolders whose name does not start with a dot. */
  function SubdirInfoFiles(entries: seq<Entry>): seq<InfoFile> {
    if entries == [] then []
    else
      var n := |entries| - 1;
      var e := entries[n];
      SubdirInfoFiles(entries[..n])
      + (if e.DirEntry? && !StartsWith(e.name, ".") then InfoFilesIn(Some(e.name), e.files, e.files) else [])
  }

  /** The info files the scan visits: the flat ones first, then the subfolders'. */
  function InfoFiles(dir: ChannelDir): seq<InfoFile> {
    InfoFilesIn(None, RootFiles(dir.entries), RootFiles(dir.entries)) + SubdirInfoFiles(dir.entries)
  }

  datatype Statistics = Statistics(
    totalVideos: int,
    totalAudioFiles: int,
    totalVideoFiles: int,
    totalThumbnails: int,
    totalSubtitles: int,
    totalAnnotations: int,
    totalSizeBytes: int,
    earliest: Option<string>,
    latest: Option<string>)

  datatype ControlEntry = ControlEntry(
    title: string,
    uploadDate: string,
    duration: int,
    uploader: string,
    webpageUrl: string,
    files: MatchedFiles,
    fileSizeBytes: int,
    downloadDate: string,
    subfolder: Option<string>)

  datatype ControlData = ControlData(
    channelName: string,
    lastUpdated: string,
    downloaded: Dict<ControlEntry>,
    hashes: Dict<string>,
    stats: Statistics)

  function EmptyControl(channelName: string, now: string): ControlData {
    ControlData(channelName, now, Empty(), Empty(), Statistics(0, 0, 0, 0, 0, 0, 0, None, None))
  }

  function OptRel(sub: Option<string>, o: Option<string>): Option<string> {
    if o.Some? then Some(RelPath(sub, o.value)) else None
  }

  function SeqRel(sub: Option<string>, names: seq<string>): (r: seq<string>)
    ensures |r| == |names|
  {
    if names == [] then []
    else
      var n := |names| - 1;
      SeqRel(sub, names[..n]) + [RelPath(sub, names[n])]
  }

  lemma {:induction false} SeqRelIndex(sub: Option<string>, names: seq<string>, i: int)
    requires 0 <= i < |names|
    ensures SeqRel(sub, names)[i] == RelPath(sub, names[i])
  {
    var n := |names| - 1;
    if i < n {
      SeqRelIndex(sub, names[..n], i);
    }
  }

  lemma {:induction false} SeqRelAppend(sub: Option<string>, a: seq<string>, b: seq<string>)
    ensures SeqRel(sub, a + b) == SeqRel(sub, a) + SeqRel(sub, b)
  {
    if b != [] {
      var n := |b| - 1;
      assert (a + b)[..|a| + n] == a + b[..n];
      SeqRelAppend(sub, a, b[..n]);
    } else {
      assert a + b == a;
    }
  }

  /** The matched files with every name turned into its ledger path. */
  function RelFiles(m: MatchedFiles, sub: Option<string>): MatchedFiles {
    MatchedFiles(RelPath(sub, m.infoJson), OptRel(sub, m.description), OptRel(sub, m.audio), OptRel(sub, m.video),
                 SeqRel(sub, m.thumbnails), SeqRel(sub, m.subtitles), OptRel(sub, m.annotations))
  }

  function OptList(o: Option<string>): seq<string> {
    if o.Some? then [o.value] else []
  }

  /** Every name in the matched files, in the order the hash loop visits them. */
  function FileList(m: MatchedFiles): seq<string> {
    [m.infoJson] + OptList(m.description) + OptList(m.audio) + OptList(m.video)
    + m.thumbnails + m.subtitles + OptList(m.annotations)
  }

  function SumSizes(dir: ChannelDir, sub: Option<string>, names: seq<string>): nat {
    if names == [] then 0
    else
      var n := |names| - 1;
      SumSizes(dir, sub, names[..n]) + dir.size(RelPath(sub, names[n]))
  }

  /** The bytes counted for one item: audio, video, thumbnails, subtitles
      and annotations (not the info or description file). */
  function ItemSize(dir: ChannelDir, sub: Option<string>, m: MatchedFiles): nat {
    SumSizes(dir, sub, OptList(m.audio)) + SumSizes(dir, sub, OptList(m.video))
    + SumSizes(dir, sub, m.thumbnails) + SumSizes(dir, sub, m.subtitles)
    + SumSizes(dir, sub, OptList(m.annotations))
  }

  /** `date < earliest` replaces a missing or empty earliest date. */
  function NewEarliest(e: Option<string>, d: string): Option<string> {
    if d == "" then e
    else if e.None? || e.value == "" || !LexLe(e.value, d) then Some(d)
    else e
  }

  function NewLatest(l: Option<string>, d: string): Option<string> {
    if d == "" then l
    else if l.None? || l.value == "" || !LexLe(d, l.value) then Some(d)
    else l
  }

  function CountOf(o: Option<string>): int {
    if o.Some? then 1 else 0
  }

  function StatsAdd(s: Statistics, dir: ChannelDir, sub: Option<string>, m: MatchedFiles, date: string): Statistics {
    Statistics(
      s.totalVideos + 1,
      s.totalAudioFiles + CountOf(m.audio),
      s.totalVideoFiles + CountOf(m.video),
      s.totalThumbnails + |m.thumbnails|,
      s.totalSubtitles + |m.subtitles|,
      s.totalAnnotations + CountOf(m.annotations),
      s.totalSizeBytes + ItemSize(dir, sub, m),
      NewEarliest(s.earliest, date),
      NewLatest(s.latest, date))
  }

  /** The ledger keys of one item's files, in hash-loop order. */
  function HashKeys(m: MatchedFiles, sub: Option<string>): seq<string> {
    SeqRel(sub, FileList(m))
  }

  function Fingerprints(dir: ChannelDir, keys: seq<string>): map<string, string> {
    map k | k in keys :: dir.fingerprint(k)
  }

  /** The id an info file contributes, if any. */
  function IdOf(dir: ChannelDir, f: InfoFile): Option<string> {
    var vi := dir.info(RelPath(f.subfolder, f.name));
    if vi.Some? && vi.value.id != "" then Some(vi.value.id) else None
  }

  function EntryOf(dir: ChannelDir, f: InfoFile, v: VideoInfo, m: MatchedFiles): ControlEntry {
    ControlEntry(v.title, v.uploadDate, v.duration, v.uploader, v.webpageUrl,
                 RelFiles(m, f.subfolder), ItemSize(dir, f.subfolder, m),
                 dir.modified(RelPath(f.subfolder, f.name)), f.subfolder)
  }

  /** Storing one item: its entry under its id, its files' fingerprints
      and its counts. */
  function Record(c: ControlData, dir: ChannelDir, f: InfoFile, v: VideoInfo, m: MatchedFiles): ControlData {
    var keys := HashKeys(m, f.subfolder);
    c.(downloaded := Put(c.downloaded, v.id, EntryOf(dir, f, v, m)),
       hashes := PutAll(c.hashes, keys, Fingerprints(dir, keys)),
       stats := StatsAdd(c.stats, dir, f.subfolder, m, v.uploadDate))
  }

  /** One iteration of the scan loop, given the info file and the files
      matched to it. */
  function ScanStep(c: ControlData, dir: ChannelDir, item: (InfoFile, MatchedFiles)): ControlData {
    var f := item.0;
    var vi := dir.info(RelPath(f.subfolder, f.name));
    if vi.None? || vi.value.id == "" then c
    else Record(c, dir, f, vi.value, item.1)
  }

  function ScanFrom(c: ControlData, dir: ChannelDir, items: seq<(InfoFile, MatchedFiles)>): ControlData {
    if items == [] then c
    else
      var n := |items| - 1;
      ScanStep(ScanFrom(c, dir, items[..n]), dir, items[n])
  }

  function Firsts(items: seq<(InfoFile, MatchedFiles)>): (r: seq<InfoFile>)
    ensures |r| == |items|
  {
    if items == [] then []
    else
      var n := |items| - 1;
      Firsts(items[..n]) + [items[n].0]
  }

  /** Each info file with the files `find_matching_files` reports for it. */
  /** Each info file with the files `matcher` reports for it; the scan uses
      `find_matching_files`. */
  function Matched(infos: seq<InfoFile>, matcher: (string, seq<string>) -> MatchedFiles): seq<(InfoFile, MatchedFiles)> {
    if infos == [] then []
    else
      var n := |infos| - 1;
      Matched(infos[..n], matcher) + [(infos[n], matcher(infos[n].name, infos[n].folder))]
  }

  lemma {:induction false} MatchedFirsts(infos: seq<InfoFile>, matcher: (string, seq<string>) -> MatchedFiles)
    ensures Firsts(Matched(infos, matcher)) == infos
  {
    if infos != [] {
      var n := |infos| - 1;
      MatchedFirsts(infos[..n], matcher);
      var r := Matched(infos, matcher);
      assert r[..n] == Matched(infos[..n], matcher);
      assert Firsts(r) == Firsts(r[..n]) + [infos[n]];
    }
  }

  /** What `scan_channel_directory` returns. */
  function Scan(dir: ChannelDir, channelName: string, now: string): ControlData {
    ScanFrom(EmptyControl(channelName, now), dir, Matched(InfoFiles(dir), Matching))
  }

  // ---------------------------------------------------------------------
  // The scan as the loops that compute it.
  // ---------------------------------------------------------------------

  /** Gathering the info files: the flat glob, then each visible subfolder. */
  method CollectInfoFiles(dir: ChannelDir) returns (infos: seq<InfoFile>)
    ensures infos == InfoFiles(dir)
  {
    var root := RootFiles(dir.entries);
    infos := InfoFilesIn(None, root, root);
    ghost var flat := infos;
    var i := 0;
    while i < |dir.entries|
      invariant 0 <= i <= |dir.entries|
      invariant infos == flat + SubdirInfoFiles(dir.entries[..i])
    {
      var e := dir.entries[i];
      SubdirStep(dir.entries, i);
      if e.DirEntry? && !StartsWith(e.name, ".") {
        infos := infos + InfoFilesIn(Some(e.name), e.files, e.files);
      }
      i := i + 1;
    }
    assert dir.entries[..i] == dir.entries;
  }

  lemma SubdirStep(entries: seq<Entry>, i: int)
    requires 0 <= i < |entries|
    ensures var e := entries[i];
      SubdirInfoFiles(entries[..i + 1]) == SubdirInfoFiles(entries[..i])
        + (if e.DirEntry? && !StartsWith(e.name, ".") then InfoFilesIn(Some(e.name), e.files, e.files) else [])
  {
    assert entries[..i + 1][..i] == entries[..i];
  }

  /** The size loop over a list of files. */
  method AddSizes(dir: ChannelDir, sub: Option<string>, names: seq<string>) returns (total: nat)
    ensures total == SumSizes(dir, sub, names)
  {
    total := 0;
    var i := 0;
    while i < |names|
      invariant 0 <= i <= |names|
      invariant total == SumSizes(dir, sub, names[..i])
    {
      assert names[..i + 1][..i] == names[..i];
      total := total + dir.size(RelPath(sub, names[i]));
      i := i + 1;
    }
    assert names[..i] == names;
  }

  /** The hash loop: each file's ledger key gets the file's fingerprint. */
  method HashFiles(hashes: Dict<string>, dir: ChannelDir, m: MatchedFiles, sub: Option<string>)
    returns (r: Dict<string>)
    ensures r == PutAll(hashes, HashKeys(m, sub), Fingerprints(dir, HashKeys(m, sub)))
  {
    var names := FileList(m);
    var keys := HashKeys(m, sub);
    ghost var fp := Fingerprints(dir, keys);
    r := hashes;
    var i := 0;
    while i < |names|
      invariant 0 <= i <= |names|
      invariant r == PutAll(hashes, keys[..i], fp)
    {
      assert keys[..i + 1][..i] == keys[..i];
      var key := RelPath(sub, names[i]);
      SeqRelIndex(sub, names, i);
      r := Put(r, key, dir.fingerprint(key));
      i := i + 1;
    }
    assert keys[..i] == keys;
  }

  /** The size of one item's counted files. */
  method MeasureItem(dir: ChannelDir, sub: Option<string>, m: MatchedFiles) returns (itemSize: nat)
    ensures itemSize == ItemSize(dir, sub, m)
  {
    var s;
    itemSize := AddSizes(dir, sub, OptList(m.audio));
    s := AddSizes(dir, sub, OptList(m.video));
    itemSize := itemSize + s;
    s := AddSizes(dir, sub, m.thumbnails);
    itemSize := itemSize + s;
    s := AddSizes(dir, sub, m.subtitles);
    itemSize := itemSize + s;
    s := AddSizes(dir, sub, OptList(m.annotations));
    itemSize := itemSize + s;
  }

  /** Storing one item found by the scan. */
  method RecordItem(c: ControlData, dir: ChannelDir, f: InfoFile, v: VideoInfo, m: MatchedFiles)
    returns (c': ControlData)
    ensures c' == Record(c, dir, f, v, m)
  {
    var stats := c.stats;
    var itemSize := MeasureItem(dir, f.subfolder, m);
    stats := stats.(
      totalAudioFiles := stats.totalAudioFiles + CountOf(m.audio),
      totalVideoFiles := stats.totalVideoFiles + CountOf(m.video),
      totalThumbnails := stats.totalThumbnails + |m.thumbnails|,
      totalSubtitles := stats.totalSubtitles + |m.subtitles|,
      totalAnnotations := stats.totalAnnotations + CountOf(m.annotations),
      totalSizeBytes := stats.totalSizeBytes + itemSize);
    var entry := ControlEntry(v.title, v.uploadDate, v.duration, v.uploader, v.webpageUrl,
                              RelFiles(m, f.subfolder), itemSize,
                              dir.modified(RelPath(f.subfolder, f.name)), f.subfolder);
    var hashes := HashFiles(c.hashes, dir, m, f.subfolder);
    stats := stats.(totalVideos := stats.totalVideos + 1);
    stats := stats.(earliest := NewEarliest(stats.earliest, v.uploadDate),
                    latest := NewLatest(stats.latest, v.uploadDate));
    assert stats == StatsAdd(c.stats, dir, f.subfolder, m, v.uploadDate);
    c' := c.(downloaded := Put(c.downloaded, v.id, entry), hashes := hashes, stats := stats);
  }

  /** The body of the scan loop for one info file. */
  method ProcessInfoFile(c: ControlData, dir: ChannelDir, f: InfoFile) returns (c': ControlData)
    ensures c' == ScanStep(c, dir, (f, Matching(f.name, f.folder)))
  {
    var vi := dir.info(RelPath(f.subfolder, f.name));
    if vi.None? || vi.value.id == "" {
      return c;
    }
    var m := FindMatchingFiles(f.name, f.folder);
    c' := RecordItem(c, dir, f, vi.value, m);
  }

  /** `scan_channel_directory`; `now` stands for the clock. */
  method ScanChannelDirectory(dir: ChannelDir, channelName: string, now: string) returns (c: ControlData)
    ensures c == Scan(dir, channelName, now)
  {
    var infos := CollectInfoFiles(dir);
    c := EmptyControl(channelName, now);
    var i := 0;
    ghost var start := EmptyControl(channelName, now);
    while i < |infos|
      invariant 0 <= i <= |infos|
      invariant c == ScanFrom(start, dir, Matched(infos[..i], Matching))
    {
      MatchedStep(infos, i, Matching);
      ScanFromAppend(start, dir, Matched(infos[..i], Matching), (infos[i], Matching(infos[i].name, infos[i].folder)));
      c := ProcessInfoFile(c, dir, infos[i]);
      i := i + 1;
    }
    assert infos[..i] == infos;
  }

  lemma MatchedStep(infos: seq<InfoFile>, i: int, matcher: (string, seq<string>) -> MatchedFiles)
    requires 0 <= i < |infos|
    ensures Matched(infos[..i + 1], matcher)
         == Matched(infos[..i], matcher) + [(infos[i], matcher(infos[i].name, infos[i].folder))]
  {
    assert infos[..i + 1][..i] == infos[..i];
  }

  lemma ScanFromAppend(c: ControlData, dir: ChannelDir, items: seq<(InfoFile, MatchedFiles)>, item: (InfoFile, MatchedFiles))
    ensures ScanFrom(c, dir, items + [item]) == ScanStep(ScanFrom(c, dir, items), dir, item)
  {
    assert (items + [item])[..|items|] == items;
  }

  // ---------------------------------------------------------------------
  // What the scan guarantees.
  // ---------------------------------------------------------------------

  /** The info files that carry an id, in scan order. */
  function Counted(dir: ChannelDir, infos: seq<InfoFile>): seq<InfoFile> {
    if infos == [] then []
    else
      var n := |infos| - 1;
      Counted(dir, infos[..n]) + (if IdOf(dir, infos[n]).Some? then [infos[n]] else [])
  }

  /** The ids the info files carry. */
  function IdsOf(dir: ChannelDir, infos: seq<InfoFile>): set<string> {
    set f | f in infos && IdOf(dir, f).Some? :: IdOf(dir, f).value
  }

  /** Storing an item keeps both dictionaries well formed and adds its id. */
  lemma RecordValid(c: ControlData, dir: ChannelDir, f: InfoFile, v: VideoInfo, m: MatchedFiles)
    requires Valid(c.downloaded) && Valid(c.hashes)
    ensures Valid(Record(c, dir, f, v, m).downloaded) && Valid(Record(c, dir, f, v, m).hashes)
    ensures Record(c, dir, f, v, m).downloaded.values.Keys == c.downloaded.values.Keys + {v.id}
    ensures Record(c, dir, f, v, m).stats.totalVideos == c.stats.totalVideos + 1
  {
    var keys := HashKeys(m, f.subfolder);
    PutValid(c.downloaded, v.id, EntryOf(dir, f, v, m));
    PutAllProps(c.hashes, keys, Fingerprints(dir, keys));
  }

  /** An info file without an id contributes nothing; one with an id adds one
      to `total_videos` and stores its entry under that id. The count is of
      info files, so it exceeds the number of ledger entries when ids repeat. */
  lemma {:induction false} ScanCounts(c: ControlData, dir: ChannelDir, items: seq<(InfoFile, MatchedFiles)>)
    requires Valid(c.downloaded) && Valid(c.hashes)
    ensures Valid(ScanFrom(c, dir, items).downloaded) && Valid(ScanFrom(c, dir, items).hashes)
    ensures ScanFrom(c, dir, items).stats.totalVideos == c.stats.totalVideos + |Counted(dir, Firsts(items))|
    ensures ScanFrom(c, dir, items).downloaded.values.Keys == c.downloaded.values.Keys + IdsOf(dir, Firsts(items))
  {
    if items != [] {
      var n := |items| - 1;
      ScanCounts(c, dir, items[..n]);
      var f := items[n].0;
      FirstsStep(items);
      IdsStep(dir, Firsts(items[..n]), f);
      CountedStep(dir, Firsts(items[..n]), f);
      ScanStepCounts(ScanFrom(c, dir, items[..n]), dir, items[n]);
    }
  }

  /** One iteration stores the entry of an info file with an id and counts
      it, and leaves the state as it was otherwise. */
  lemma ScanStepCounts(p: ControlData, dir: ChannelDir, item: (InfoFile, MatchedFiles))
    requires Valid(p.downloaded) && Valid(p.hashes)
    ensures Valid(ScanStep(p, dir, item).downloaded) && Valid(ScanStep(p, dir, item).hashes)
    ensures ScanStep(p, dir, item).stats.totalVideos == p.stats.totalVideos + (if IdOf(dir, item.0).Some? then 1 else 0)
    ensures ScanStep(p, dir, item).downloaded.values.Keys
      == p.downloaded.values.Keys + (if IdOf(dir, item.0).Some? then {IdOf(dir, item.0).value} else {})
  {
    var f := item.0;
    var vi := dir.info(RelPath(f.subfolder, f.name));
    if vi.Some? && vi.value.id != "" {
      RecordValid(p, dir, f, vi.value, item.1);
    }
  }

  lemma FirstsStep(items: seq<(InfoFile, MatchedFiles)>)
    requires items != []
    ensures Firsts(items) == Firsts(items[..|items| - 1]) + [items[|items| - 1].0]
  {
  }

  lemma IdsStep(dir: ChannelDir, fs: seq<InfoFile>, f: InfoFile)
    ensures IdOf(dir, f).Some? ==> IdsOf(dir, fs + [f]) == IdsOf(dir, fs) + {IdOf(dir, f).value}
    ensures IdOf(dir, f).None? ==> IdsOf(dir, fs + [f]) == IdsOf(dir, fs)
  {
    assert forall g :: g in fs + [f] <==> g in fs || g == f;
  }

  lemma CountedStep(dir: ChannelDir, fs: seq<InfoFile>, f: InfoFile)
    ensures |Counted(dir, fs + [f])| == |Counted(dir, fs)| + (if IdOf(dir, f).Some? then 1 else 0)
  {
    assert (fs + [f])[..|fs|] == fs;
  }

  lemma DatesStep(dir: ChannelDir, fs: seq<InfoFile>, f: InfoFile)
    ensures var vi := dir.info(RelPath(f.subfolder, f.name));
      DatesOf(dir, fs + [f])
        == DatesOf(dir, fs) + (if vi.Some? && vi.value.id != "" && vi.value.uploadDate != "" then {vi.value.uploadDate} else {})
  {
    assert forall g :: g in fs + [f] <==> g in fs || g == f;
  }

  /** The scan's totals: `total_videos` counts the info files with an id,
      and there is one ledger entry per distinct id. */
  lemma ScanTotals(dir: ChannelDir, channelName: string, now: string)
    ensures Valid(Scan(dir, channelName, now).downloaded)
    ensures Scan(dir, channelName, now).stats.totalVideos == |Counted(dir, InfoFiles(dir))|
    ensures Scan(dir, channelName, now).downloaded.values.Keys == IdsOf(dir, InfoFiles(dir))
    ensures |Scan(dir, channelName, now).downloaded.values| <= Scan(dir, channelName, now).stats.totalVideos
  {
    ScanTotalsOf(EmptyControl(channelName, now), dir, InfoFiles(dir));
  }

  /** The same for a scan from an empty state over any info files. */
  lemma ScanTotalsOf(c: ControlData, dir: ChannelDir, infos: seq<InfoFile>)
    requires Valid(c.downloaded) && Valid(c.hashes)
    requires c.stats.totalVideos == 0 && c.downloaded.values == map[]
    ensures var r := ScanFrom(c, dir, Matched(infos, Matching));
      && Valid(r.downloaded)
      && r.stats.totalVideos == |Counted(dir, infos)|
      && r.downloaded.values.Keys == IdsOf(dir, infos)
      && |r.downloaded.values| <= r.stats.totalVideos
  {
    ScanCounts(c, dir, Matched(infos, Matching));
    MatchedFirsts(infos, Matching);
    CountedCoversIds(dir, infos);
  }

  lemma {:induction false} CountedCoversIds(dir: ChannelDir, infos: seq<InfoFile>)
    ensures |IdsOf(dir, infos)| <= |Counted(dir, infos)|
  {
    if infos != [] {
      var n := |infos| - 1;
      CountedCoversIds(dir, infos[..n]);
      assert forall g :: g in infos <==> g in infos[..n] || g == infos[n];
      if IdOf(dir, infos[n]).Some? {
        assert IdsOf(dir, infos) == IdsOf(dir, infos[..n]) + {IdOf(dir, infos[n]).value};
      } else {
        assert IdsOf(dir, infos) == IdsOf(dir, infos[..n]);
      }
    }
  }

  /** The non-empty upload dates seen so far lie between the recorded
      earliest and latest dates, which are themselves among them. */
  ghost predicate RangeCovers(s: Statistics, dates: set<string>) {
    && (dates == {} ==> s.earliest == None && s.latest == None)
    && (dates != {} ==>
         && s.earliest.Some? && s.latest.Some?
         && s.earliest.value in dates && s.latest.value in dates
         && forall d :: d in dates ==> LexLe(s.earliest.value, d) && LexLe(d, s.latest.value))
  }

  /** The non-empty upload dates of the info files with an id. */
  function DatesOf(dir: ChannelDir, infos: seq<InfoFile>): set<string> {
    set f | f in infos && IdOf(dir, f).Some? && dir.info(RelPath(f.subfolder, f.name)).value.uploadDate != ""
      :: dir.info(RelPath(f.subfolder, f.name)).value.uploadDate
  }

  lemma RangeStep(s: Statistics, dates: set<string>, d: string)
    requires RangeCovers(s, dates) && d != "" && "" !in dates
    ensures RangeCovers(s.(earliest := NewEarliest(s.earliest, d), latest := NewLatest(s.latest, d)), dates + {d})
  {
    var e := NewEarliest(s.earliest, d);
    var l := NewLatest(s.latest, d);
    LexLeRefl(d);
    if dates != {} {
      assert s.earliest.value != "" && s.latest.value != "";
      LexLeTotal(s.earliest.value, d);
      LexLeTotal(d, s.latest.value);
      forall x | x in dates + {d} ensures LexLe(e.value, x) && LexLe(x, l.value) {
        if x in dates {
          if e.value == d {
            LexLeTrans(d, s.earliest.value, x);
          }
          if l.value == d {
            LexLeTrans(x, s.latest.value, d);
          }
        } else {
          if e.value != d {
            assert LexLe(s.earliest.value, d);
          }
          if l.value != d {
            assert LexLe(d, s.latest.value);
          }
        }
      }
    }
  }

  lemma {:induction false} ScanRange(c: ControlData, dir: ChannelDir, items: seq<(InfoFile, MatchedFiles)>)
    requires RangeCovers(c.stats, {})
    ensures RangeCovers(ScanFrom(c, dir, items).stats, DatesOf(dir, Firsts(items)))
  {
    if items != [] {
      var n := |items| - 1;
      ScanRange(c, dir, items[..n]);
      var f := items[n].0;
      var p := ScanFrom(c, dir, items[..n]);
      FirstsStep(items);
      DatesStep(dir, Firsts(items[..n]), f);
      var vi := dir.info(RelPath(f.subfolder, f.name));
      if vi.Some? && vi.value.id != "" && vi.value.uploadDate != "" {
        var d := vi.value.uploadDate;
        assert "" !in DatesOf(dir, Firsts(items[..n]));
        RangeStep(p.stats, DatesOf(dir, Firsts(items[..n])), d);
        assert ScanFrom(c, dir, items).stats == StatsAdd(p.stats, dir, f.subfolder, items[n].1, d);
      }
    }
  }

  /** The scan's date range: earliest <= every non-empty upload date <=
      latest, and both ends are such dates. */
  lemma ScanDateRange(dir: ChannelDir, channelName: string, now: string)
    ensures RangeCovers(Scan(dir, channelName, now).stats, DatesOf(dir, InfoFiles(dir)))
  {
    ScanRange(EmptyControl(channelName, now), dir, Matched(InfoFiles(dir), Matching));
    MatchedFirsts(InfoFiles(dir), Matching);
  }

  /** The entry stored for an item records its subfolder, and every path
      in it is the file's name for the channel folder itself, or
      `subfolder/name` for a subfolder; hash keys use the same paths. */
  lemma RecordPaths(c: ControlData, dir: ChannelDir, f: InfoFile, v: VideoInfo, m: MatchedFiles)
    ensures v.id in Record(c, dir, f, v, m).downloaded.values
    ensures var e := Record(c, dir, f, v, m).downloaded.values[v.id];
      && e.subfolder == f.subfolder
      && e.files.infoJson == RelPath(f.subfolder, m.infoJson)
      && FileList(e.files) == SeqRel(f.subfolder, FileList(m))
    ensures forall k :: k in HashKeys(m, f.subfolder) ==>
      k in Record(c, dir, f, v, m).hashes.values && Record(c, dir, f, v, m).hashes.values[k] == dir.fingerprint(k)
  {
    var keys := HashKeys(m, f.subfolder);
    var e := RelFiles(m, f.subfolder);
    FileListRel(m, f.subfolder);
    PutAllKeys(c.hashes, keys, Fingerprints(dir, keys));
  }

  lemma OptListRel(sub: Option<string>, o: Option<string>)
    ensures SeqRel(sub, OptList(o)) == OptList(OptRel(sub, o))
  {
    if o.Some? {
      assert OptList(o)[..0] == [];
    }
  }

  lemma FileListRel(m: MatchedFiles, sub: Option<string>)
    ensures FileList(RelFiles(m, sub)) == SeqRel(sub, FileList(m))
  {
    var e := RelFiles(m, sub);
    var p1 := [m.infoJson] + OptList(m.description);
    var p2 := p1 + OptList(m.audio);
    var p3 := p2 + OptList(m.video);
    var p4 := p3 + m.thumbnails;
    var p5 := p4 + m.subtitles;
    assert [m.infoJson][..0] == [];
    SeqRelAppend(sub, [m.infoJson], OptList(m.description));
    OptListRel(sub, m.description);
    assert SeqRel(sub, p1) == [e.infoJson] + OptList(e.description);
    SeqRelAppend(sub, p1, OptList(m.audio));
    OptListRel(sub, m.audio);
    assert SeqRel(sub, p2) == [e.infoJson] + OptList(e.description) + OptList(e.audio);
    SeqRelAppend(sub, p2, OptList(m.video));
    OptListRel(sub, m.video);
    assert SeqRel(sub, p3) == [e.infoJson] + OptList(e.description) + OptList(e.audio) + OptList(e.video);
    SeqRelAppend(sub, p3, m.thumbnails);
    SeqRelAppend(sub, p4, m.subtitles);
    SeqRelAppend(sub, p5, OptList(m.annotations));
    OptListRel(sub, m.annotations);
    assert FileList(m) == p5 + OptList(m.annotations);
  }

  lemma {:induction false} PutAllKeys(d: Dict<string>, ks: seq<string>, m: map<string, string>)
    requires forall k :: k in ks ==> k in m
    ensures forall k :: k in ks ==> k in PutAll(d, ks, m).values && PutAll(d, ks, m).values[k] == m[k]
  {
    if ks != [] {
      var n := |ks| - 1;
      PutAllKeys(d, ks[..n], m);
      assert forall k :: k in ks <==> k in ks[..n] || k == ks[n];
    }
  }

  // ---------------------------------------------------------------------
  // Preserving records of deleted files.
  // ---------------------------------------------------------------------

  /** The answer a config file gives for a channel: `Some(keep)` from the
      first entry naming the channel, None to go on with the next file.
      An entry that is not an object raises, which also moves on. */
  function ConfigAnswer(channels: seq<Json>, channelName: string): Option<bool> {
    if channels == [] then None
    else
      var c := channels[0];
      if !c.JObj? then None
      else if Get(c.fields, "channel_name", JNull) == JStr(channelName) then
        Some(!Truthy(Get(c.fields, "redownload_deleted", JBool(false))))
      else ConfigAnswer(channels[1..], channelName)
  }

  /** `should_preserve_deleted_records`: the config files in their fixed
      order, each `None` when missing or unreadable. */
  function ShouldPreserve(configs: seq<Option<Json>>, channelName: string): bool {
    if configs == [] then true
    else
      var cfg := configs[0];
      var answer := if cfg.Some? && cfg.value.JList? then ConfigAnswer(cfg.value.items, channelName) else None;
      if answer.Some? then answer.value else ShouldPreserve(configs[1..], channelName)
  }

  /** The first entry naming the channel decides: keep records unless it
      asks for deleted files to be downloaded again. */
  lemma {:induction false} ConfigAnswerFirstMatch(channels: seq<Json>, channelName: string, i: int)
    requires 0 <= i < |channels|
    requires forall j :: 0 <= j < i ==> channels[j].JObj? && Get(channels[j].fields, "channel_name", JNull) != JStr(channelName)
    requires channels[i].JObj? && Get(channels[i].fields, "channel_name", JNull) == JStr(channelName)
    ensures ConfigAnswer(channels, channelName) == Some(!Truthy(Get(channels[i].fields, "redownload_deleted", JBool(false))))
  {
    if i > 0 {
      ConfigAnswerFirstMatch(channels[1..], channelName, i - 1);
    }
  }

  /** With no config naming the channel, records are preserved. */
  lemma {:induction false} PreserveByDefault(configs: seq<Option<Json>>, channelName: string)
    requires forall k :: 0 <= k < |configs| ==>
      (configs[k].None? || !configs[k].value.JList?
       || forall j :: 0 <= j < |configs[k].value.items| ==> ConfigAnswer(configs[k].value.items[j..], channelName).None?)
    ensures ShouldPreserve(configs, channelName)
  {
    if configs != [] {
      if configs[0].Some? && configs[0].value.JList? {
        assert configs[0].value.items[0..] == configs[0].value.items;
        if |configs[0].value.items| == 0 {
          assert ConfigAnswer(configs[0].value.items, channelName) == None;
        }
      }
      forall k | 0 <= k < |configs[1..]|
        ensures (configs[1..][k].None? || !configs[1..][k].value.JList?
          || forall j :: 0 <= j < |configs[1..][k].value.items| ==> ConfigAnswer(configs[1..][k].value.items[j..], channelName).None?)
      {
        assert configs[1..][k] == configs[k + 1];
      }
      PreserveByDefault(configs[1..], channelName);
    }
  }

  // ---------------------------------------------------------------------
  // create_control_file: overlaying the rescan on the old ledger.
  // ---------------------------------------------------------------------

  /** `create_control_file` after the scan: `existing` is the old ledger
      (None when missing, unreadable or empty). Returns the ledger written
      and the number of preserved records. */
  method CreateControlFile(existing: Option<ControlData>, preserve: bool, scan: ControlData, channelName: string, now: string)
    returns (data: ControlData, preserved: int)
    requires existing.Some? ==> Valid(existing.value.downloaded) && Valid(existing.value.hashes)
    requires Valid(scan.downloaded) && Valid(scan.hashes)
    ensures !(preserve && existing.Some?) ==> data == scan
    ensures preserve && existing.Some? ==>
      && data.downloaded.values == existing.value.downloaded.values + scan.downloaded.values
      && data.hashes.values == existing.value.hashes.values + scan.hashes.values
      && Valid(data.downloaded) && Valid(data.hashes)
      && data.stats == scan.stats.(totalVideos := |data.downloaded.values|)
      && data.channelName == channelName && data.lastUpdated == now
      && preserved == |data.downloaded.values| - |scan.downloaded.values| >= 0
  {
    preserved := 0;
    if preserve && existing.Some? {
      var prev := existing.value;
      var merged := Update(prev.downloaded, scan.downloaded);
      var mergedHashes := Update(prev.hashes, scan.hashes);
      UpdateProps(prev.downloaded, scan.downloaded);
      UpdateProps(prev.hashes, scan.hashes);
      SizeIsKeyCount(merged);
      var stats := scan.stats.(totalVideos := |merged.keys|);
      data := ControlData(channelName, now, merged, mergedHashes, stats);
      SizeIsKeyCount(scan.downloaded);
      assert scan.downloaded.values.Keys <= merged.values.Keys;
      SubsetCard(scan.downloaded.values.Keys, merged.values.Keys);
      preserved := |merged.keys| - |scan.downloaded.keys|;
    } else {
      data := scan;
    }
  }

  lemma SubsetCard(a: set<string>, b: set<string>)
    requires a <= b
    ensures |a| <= |b|
  {
    assert b == a + (b - a);
  }

  /** Every id in the old ledger survives an overlay, and the rescan wins
      where both have an entry. */
  lemma OverlayKeepsOldIds(prev: ControlData, scan: ControlData, k: string)
    requires Valid(prev.downloaded) && Valid(scan.downloaded)
    requires k in prev.downloaded.values
    ensures k in Update(prev.downloaded, scan.downloaded).values
    ensures k in scan.downloaded.values ==>
      Update(prev.downloaded, scan.downloaded).values[k] == scan.downloaded.values[k]
    ensures k !in scan.downloaded.values ==>
      Update(prev.downloaded, scan.downloaded).values[k] == prev.downloaded.values[k]
  {
    UpdateProps(prev.downloaded, scan.downloaded);
  }
}
