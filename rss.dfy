/** The data behind the RSS feeds (`RSSGenerator`): which file of a video
    folder is published, the item built for it, the order and number of
    items in a channel feed and in the master feed, and the values written
    into each `<item>`. */
module Rss {
  import opened Wrappers
  import opened Text
  import opened JsonValue
  import opened KeySort

  // ---------------------------------------------------------------------
  // The downloads tree, as the generator sees it
  // ---------------------------------------------------------------------

  /** A file in a video folder with its modification time (already
      formatted as `%a, %d %b %Y %H:%M:%S %z`) and its size in bytes. */
  datatype FileEntry = FileEntry(name: string, pubDate: string, size: nat)

  /** A folder entry of a channel directory, its files in directory order,
      and the contents of its first `*.info.json` when that parses (None
      when it does not). */
  datatype VideoDir = VideoDir(name: string, isDir: bool, files: seq<FileEntry>, info: Option<map<string, Json>>)

  /** An entry of the downloads directory. */
  datatype ChannelDir = ChannelDir(name: string, isDir: bool, videos: seq<VideoDir>)

  /** The dictionary `_extract_video_info` returns. */
  datatype Item = Item(
    title: string,
    description: string,
    uploadDate: string,
    pubDate: string,
    duration: int,
    channelName: string,
    videoPath: string,
    mediaFile: string,
    mediaUrl: string,
    webpageUrl: string,
    fileSize: nat)

  /** The base URL the generator was built with, trailing `/` removed. */
  function BaseUrl(raw: string): (r: string)
    ensures StartsWith(raw, r) && (r == [] || r[|r| - 1] != '/')
    ensures forall i :: |r| <= i < |raw| ==> raw[i] == '/'
  {
    var r := RStripChar(raw, '/');
    assert raw[..|r|] == r;
    RStripCharRest(raw);
    r
  }

  lemma {:induction false} RStripCharRest(s: string)
    ensures forall i :: |RStripChar(s, '/')| <= i < |s| ==> s[i] == '/'
  {
    if s != [] && s[|s| - 1] == '/' {
      RStripCharRest(s[..|s| - 1]);
    }
  }

  // ---------------------------------------------------------------------
  // _find_media_file
  // ---------------------------------------------------------------------

  const AudioExtensions: seq<string> := [".mp3", ".m4a", ".aac"]
  const VideoExtensions: seq<string> := [".mp4", ".webm", ".mkv"]

  /** The first file in directory order that `*<ext>` matches. */
  function FirstEndingWith(files: seq<FileEntry>, ext: string): (r: Option<nat>)
    ensures r.Some? ==> r.value < |files| && EndsWith(files[r.value].name, ext)
    ensures r.Some? ==> forall i :: 0 <= i < r.value ==> !EndsWith(files[i].name, ext)
    ensures r.None? ==> forall i :: 0 <= i < |files| ==> !EndsWith(files[i].name, ext)
  {
    if files == [] then None
    else if EndsWith(files[0].name, ext) then Some(0)
    else match FirstEndingWith(files[1..], ext)
      case None => None
      case Some(k) => Some(k + 1)
  }

  /** `_find_media_file`: the first extension, in list order, that some file
      has, and the first such file; its index in the folder. */
  function FindMediaFile(files: seq<FileEntry>, exts: seq<string>): (r: Option<nat>)
    ensures r.Some? ==> r.value < |files|
  {
    if exts == [] then None
    else match FirstEndingWith(files, exts[0])
      case Some(i) => Some(i)
      case None => FindMediaFile(files, exts[1..])
  }

  /** Nothing is found exactly when no file has any of the extensions;
      what is found has the earliest extension any file has, and is the
      first file in directory order with it. */
  lemma {:induction false} FindMediaFileIff(files: seq<FileEntry>, exts: seq<string>)
    ensures FindMediaFile(files, exts).None? <==>
      forall k, i :: 0 <= k < |exts| && 0 <= i < |files| ==> !EndsWith(files[i].name, exts[k])
    ensures FindMediaFile(files, exts).Some? ==>
      var f := FindMediaFile(files, exts).value;
      exists k :: 0 <= k < |exts|
        && EndsWith(files[f].name, exts[k])
        && (forall i :: 0 <= i < f ==> !EndsWith(files[i].name, exts[k]))
        && (forall j, i :: 0 <= j < k && 0 <= i < |files| ==> !EndsWith(files[i].name, exts[j]))
  {
    if exts != [] {
      FindMediaFileIff(files, exts[1..]);
      var first := FirstEndingWith(files, exts[0]);
      if first.None? {
        assert forall k :: 0 < k < |exts| ==> exts[1..][k - 1] == exts[k];
        if FindMediaFile(files, exts).Some? {
          var f := FindMediaFile(files, exts).value;
          var k :| 0 <= k < |exts[1..]|
            && EndsWith(files[f].name, exts[1..][k])
            && (forall i :: 0 <= i < f ==> !EndsWith(files[i].name, exts[1..][k]))
            && (forall j, i :: 0 <= j < k && 0 <= i < |files| ==> !EndsWith(files[i].name, exts[1..][j]));
          assert forall j :: 0 <= j < k + 1 ==> j == 0 || exts[j] == exts[1..][j - 1];
          assert EndsWith(files[f].name, exts[k + 1]);
        }
      } else {
        assert EndsWith(files[first.value].name, exts[0]);
      }
    }
  }

  // ---------------------------------------------------------------------
  // _get_mime_type
  // ---------------------------------------------------------------------

  const MimeTypes: map<string, string> := map[
    ".mp3" := "audio/mpeg",
    ".m4a" := "audio/mp4",
    ".aac" := "audio/aac",
    ".mp4" := "video/mp4",
    ".webm" := "video/webm",
    ".mkv" := "video/x-matroska"]

  const OctetStream: string := "application/octet-stream"

  /** The index of the last `.` (`rfind('.')`). */
  function LastDot(s: string): (r: Option<nat>)
    ensures r.Some? ==> r.value < |s| && s[r.value] == '.' && forall i :: r.value < i < |s| ==> s[i] != '.'
    ensures r.None? ==> forall i :: 0 <= i < |s| ==> s[i] != '.'
  {
    if s == [] then None
    else if s[|s| - 1] == '.' then Some(|s| - 1)
    else LastDot(s[..|s| - 1])
  }

  /** `Path(name).suffix`: from the last dot, unless that dot starts the
      name or ends it. */
  function Suffix(name: string): string {
    match LastDot(name)
    case Some(i) => if 0 < i < |name| - 1 then name[i..] else ""
    case None => ""
  }

  /** `_get_mime_type`. */
  function MimeType(fileName: string): (r: string)
    ensures r in MimeTypes.Values || r == OctetStream
  {
    var ext := Lower(Suffix(fileName));
    if ext in MimeTypes then MimeTypes[ext] else OctetStream
  }

  /** A dot followed by at least one character, none of them a dot, none
      an upper-case ASCII letter. */
  predicate ExtensionShape(ext: string) {
    |ext| >= 2 && ext[0] == '.' && (forall i :: 0 < i < |ext| ==> ext[i] != '.') && Lower(ext) == ext
  }

  lemma MimeKeysShape()
    ensures forall ext :: ext in MimeTypes ==> ExtensionShape(ext)
  {
    assert ExtensionShape(".mp3") && ExtensionShape(".m4a") && ExtensionShape(".aac");
    assert ExtensionShape(".mp4") && ExtensionShape(".webm") && ExtensionShape(".mkv");
  }

  /** The suffix of `stem + ext` is `ext`. */
  lemma SuffixOfExtension(stem: string, ext: string)
    requires stem != [] && ExtensionShape(ext)
    ensures Suffix(stem + ext) == ext
  {
    var name := stem + ext;
    assert name[|stem|] == '.';
    assert forall i :: |stem| < i < |name| ==> name[i] == ext[i - |stem|];
    LastDotAt(name, |stem|);
    assert name[|stem|..] == ext;
  }

  /** A file named `stem + ext`, with a non-empty stem and one of the six
      extensions, gets that extension's type. */
  lemma MimeTypeOfExtension(stem: string, ext: string)
    requires stem != [] && ext in MimeTypes
    ensures MimeType(stem + ext) == MimeTypes[ext]
  {
    MimeKeysShape();
    SuffixOfExtension(stem, ext);
  }

  /** The audio extensions have audio types, the video ones video types. */
  lemma MimeTypeKinds()
    ensures forall ext :: ext in AudioExtensions ==> ext in MimeTypes && StartsWith(MimeTypes[ext], "audio/")
    ensures forall ext :: ext in VideoExtensions ==> ext in MimeTypes && StartsWith(MimeTypes[ext], "video/")
  {
    assert StartsWith("audio/mpeg", "audio/") && StartsWith("audio/mp4", "audio/") && StartsWith("audio/aac", "audio/");
    assert StartsWith("video/mp4", "video/") && StartsWith("video/webm", "video/") && StartsWith("video/x-matroska", "video/");
  }

  lemma LastDotAt(s: string, k: nat)
    requires k < |s| && s[k] == '.' && forall i :: k < i < |s| ==> s[i] != '.'
    ensures LastDot(s) == Some(k)
  {
    var r := LastDot(s);
    assert r.Some?;
  }

  /** The type depends only on the lower-cased name. */
  lemma MimeTypeIgnoresCase(fileName: string)
    ensures MimeType(Lower(fileName)) == MimeType(fileName)
  {
    var low := Lower(fileName);
    assert forall i :: 0 <= i < |fileName| ==> (low[i] == '.' <==> fileName[i] == '.');
    LastDotLower(fileName);
    if LastDot(fileName).Some? {
      var i := LastDot(fileName).value;
      if 0 < i < |fileName| - 1 {
        assert Lower(low[i..]) == Lower(fileName[i..]);
      }
    }
  }

  lemma LastDotLower(s: string)
    ensures LastDot(Lower(s)) == LastDot(s)
  {
    var low := Lower(s);
    match LastDot(s)
    case Some(k) => LastDotAt(low, k);
    case None =>
  }

  // ---------------------------------------------------------------------
  // _extract_video_info
  // ---------------------------------------------------------------------

  /** `info.get(key, default)` for a string-valued field. */
  function StrField(info: map<string, Json>, key: string, default: string): string {
    if key in info && info[key].JStr? then info[key].s else default
  }

  /** The item description: at most 500 characters of the text followed by
      `...` when the text is non-empty, empty otherwise. */
  function Description(text: string): (r: string)
    ensures text == "" ==> r == ""
    ensures text != "" ==> |r| == (if |text| < 500 then |text| else 500) + 3
    ensures text != "" ==> StartsWith(text, r[..|r| - 3]) && EndsWith(r, "...")
  {
    if text != "" then PrefixSlice(text, 500) + "..." else ""
  }

  /** `f"{base}/media/{channel}/{folder}/{file}"`. */
  function MediaUrl(base: string, channel: string, folder: string, file: string): string {
    base + "/media/" + channel + "/" + folder + "/" + file
  }

  /** Whether the folder holds a `*.info.json` file. */
  predicate HasInfoFile(v: VideoDir) {
    FirstEndingWith(v.files, ".info.json").Some?
  }

  /** The file published for a folder: the first audio file if there is one,
      else the first video file. */
  function MediaOf(v: VideoDir): Option<FileEntry> {
    var audio := FindMediaFile(v.files, AudioExtensions);
    var video := FindMediaFile(v.files, VideoExtensions);
    if audio.Some? then Some(v.files[audio.value])
    else if video.Some? then Some(v.files[video.value])
    else None
  }

  /** The item for folder `v` of `channel` with parsed info `info`,
      publishing file `m`. */
  function ItemFor(v: VideoDir, info: map<string, Json>, m: FileEntry, channel: string, base: string): Item {
    Item(
      StrField(info, "title", v.name),
      Description(StrField(info, "description", "")),
      StrField(info, "upload_date", ""),
      m.pubDate,
      if "duration" in info && info["duration"].JInt? then info["duration"].i else 0,
      channel,
      channel + "/" + v.name,
      m.name,
      MediaUrl(base, channel, v.name, m.name),
      StrField(info, "webpage_url", ""),
      m.size)
  }

  /** `_extract_video_info`: None for a folder without an info file, with
      an unreadable one, or without a media file. */
  function ExtractVideoInfo(v: VideoDir, channel: string, base: string): Option<Item> {
    if !HasInfoFile(v) || v.info.None? then None
    else match MediaOf(v)
      case None => None
      case Some(m) => Some(ItemFor(v, v.info.value, m, channel, base))
  }

  /** Some file of the list has one of the extensions. */
  predicate AnyEndsWith(files: seq<FileEntry>, exts: seq<string>) {
    exists k, i :: 0 <= k < |exts| && 0 <= i < |files| && EndsWith(files[i].name, exts[k])
  }

  /** The name has one of the extensions. */
  predicate EndsWithAny(name: string, exts: seq<string>) {
    exists k :: 0 <= k < |exts| && EndsWith(name, exts[k])
  }

  lemma FindMediaFileFound(files: seq<FileEntry>, exts: seq<string>)
    ensures FindMediaFile(files, exts).None? <==> !AnyEndsWith(files, exts)
    ensures FindMediaFile(files, exts).Some? ==> EndsWithAny(files[FindMediaFile(files, exts).value].name, exts)
  {
    FindMediaFileIff(files, exts);
  }

  /** The published file is one of the folder's files; it has an audio
      extension when any file has one, and otherwise a video extension;
      there is none exactly when no file has either kind. */
  lemma MediaOfProps(v: VideoDir)
    ensures MediaOf(v).Some? ==> MediaOf(v).value in v.files
    ensures MediaOf(v).None? <==> !AnyEndsWith(v.files, AudioExtensions) && !AnyEndsWith(v.files, VideoExtensions)
    ensures AnyEndsWith(v.files, AudioExtensions) ==> MediaOf(v).Some? && EndsWithAny(MediaOf(v).value.name, AudioExtensions)
    ensures !AnyEndsWith(v.files, AudioExtensions) && MediaOf(v).Some? ==> EndsWithAny(MediaOf(v).value.name, VideoExtensions)
  {
    FindMediaFileFound(v.files, AudioExtensions);
    FindMediaFileFound(v.files, VideoExtensions);
  }

  /** What an item says about its folder: the channel, the folder path, the
      published file and the URL built from them; the folder name stands
      in for a missing title. */
  lemma ItemForProps(v: VideoDir, info: map<string, Json>, m: FileEntry, channel: string, base: string)
    ensures var item := ItemFor(v, info, m, channel, base);
      && item.channelName == channel
      && item.videoPath == channel + "/" + v.name
      && item.mediaFile == m.name
      && item.mediaUrl == base + "/media/" + item.videoPath + "/" + item.mediaFile
      && item.pubDate == m.pubDate
      && item.fileSize == m.size
      && ("title" !in info ==> item.title == v.name)
      && item.mediaUrl != ""
  {
    var item := ItemFor(v, info, m, channel, base);
    assert item.mediaUrl == (base + "/media/" + channel + "/" + v.name + "/") + m.name;
  }

  /** There is an item exactly when the folder has an info file that
      parses and a media file, and then it is built from that file. */
  lemma ExtractVideoInfoProps(v: VideoDir, channel: string, base: string)
    ensures ExtractVideoInfo(v, channel, base).Some? <==> HasInfoFile(v) && v.info.Some? && MediaOf(v).Some?
    ensures ExtractVideoInfo(v, channel, base).Some? ==>
      ExtractVideoInfo(v, channel, base).value == ItemFor(v, v.info.value, MediaOf(v).value, channel, base)
  {
  }

  // ---------------------------------------------------------------------
  // _get_channel_items and generate_master_feed
  // ---------------------------------------------------------------------

  function UploadKey(item: Item): string {
    item.uploadDate
  }

  function PubKey(item: Item): string {
    item.pubDate
  }

  /** Names starting with `.` are skipped. */
  predicate Visible(name: string, isDir: bool) {
    isDir && !StartsWith(name, ".")
  }

  /** The items of the visible folders that have one, in directory order. */
  function Collected(videos: seq<VideoDir>, channel: string, base: string): seq<Item> {
    if videos == [] then []
    else
      var v := videos[|videos| - 1];
      var item := if Visible(v.name, v.isDir) then ExtractVideoInfo(v, channel, base) else None;
      Collected(videos[..|videos| - 1], channel, base) + (if item.Some? then [item.value] else [])
  }

  /** `_get_channel_items`: newest upload date first, at most `maxItems`. */
  function ChannelItems(c: ChannelDir, base: string, maxItems: int): seq<Item> {
    PrefixSlice(SortDesc(Collected(c.videos, c.name, base), UploadKey), maxItems)
  }

  method GetChannelItems(c: ChannelDir, base: string, maxItems: int) returns (items: seq<Item>)
    ensures items == ChannelItems(c, base, maxItems)
  {
    var collected: seq<Item> := [];
    for i := 0 to |c.videos|
      invariant collected == Collected(c.videos[..i], c.name, base)
    {
      assert c.videos[..i + 1][..i] == c.videos[..i];
      var v := c.videos[i];
      if v.isDir && !StartsWith(v.name, ".") {
        var item := ExtractVideoInfo(v, c.name, base);
        if item.Some? {
          collected := collected + [item.value];
        }
      }
    }
    assert c.videos[..|c.videos|] == c.videos;
    items := PrefixSlice(SortDesc(collected, UploadKey), maxItems);
  }

  /** Each item collected comes from a visible folder of the channel. */
  lemma {:induction false} CollectedFrom(videos: seq<VideoDir>, channel: string, base: string)
    ensures |Collected(videos, channel, base)| <= |videos|
    ensures forall item :: item in Collected(videos, channel, base) ==>
      exists v :: v in videos && Visible(v.name, v.isDir) && ExtractVideoInfo(v, channel, base) == Some(item)
  {
    if videos != [] {
      var n := |videos| - 1;
      CollectedFrom(videos[..n], channel, base);
      assert forall v :: v in videos[..n] ==> v in videos;
    }
  }

  /** A channel feed lists items of its own folders, newest upload date
      first, no more than `maxItems` of them when that is non-negative, and
      the ones left out are no newer than the ones kept. */
  lemma ChannelItemsProps(c: ChannelDir, base: string, maxItems: int)
    ensures var items := ChannelItems(c, base, maxItems);
      && SortedDesc(items, UploadKey)
      && (forall item :: item in items ==>
            item.channelName == c.name
            && exists v :: v in c.videos && Visible(v.name, v.isDir) && ExtractVideoInfo(v, c.name, base) == Some(item))
      && (maxItems >= 0 ==> |items| <= maxItems)
      && (maxItems >= 0 ==> forall i, j :: 0 <= i < |items| <= j < |Collected(c.videos, c.name, base)| ==>
            LexLe(SortDesc(Collected(c.videos, c.name, base), UploadKey)[j].uploadDate, items[i].uploadDate))
  {
    var all := Collected(c.videos, c.name, base);
    var items := ChannelItems(c, base, maxItems);
    TopItems(all, maxItems);
    CollectedFrom(c.videos, c.name, base);
    forall item | item in items
      ensures item.channelName == c.name
      ensures exists v :: v in c.videos && Visible(v.name, v.isDir) && ExtractVideoInfo(v, c.name, base) == Some(item)
    {
      assert item in all;
      var v :| v in c.videos && Visible(v.name, v.isDir) && ExtractVideoInfo(v, c.name, base) == Some(item);
    }
  }

  /** The first `maxItems` of the items sorted newest first (Python's
      `[:maxItems]`, which for a negative count drops that many from the
      end) are sorted and come from the items. */
  lemma TopItems(all: seq<Item>, maxItems: int)
    ensures var items := PrefixSlice(SortDesc(all, UploadKey), maxItems);
      && SortedDesc(items, UploadKey)
      && (forall item :: item in items ==> item in all)
      && (maxItems >= 0 ==> |items| <= maxItems)
      && (maxItems >= 0 ==> forall i, j :: 0 <= i < |items| <= j < |all| ==>
            LexLe(SortDesc(all, UploadKey)[j].uploadDate, items[i].uploadDate))
  {
    var sorted := SortDesc(all, UploadKey);
    var items := PrefixSlice(sorted, maxItems);
    if maxItems >= 0 {
      TopByKey(all, UploadKey, maxItems);
    } else {
      SortDescSorted(all, UploadKey);
      forall item | item in items ensures item in all {
        var k :| 0 <= k < |items| && items[k] == item;
        assert sorted[k] == item;
        assert item in multiset(sorted);
      }
    }
  }

  /** The items of every visible channel, each channel's list cut to
      `maxItems` already, in directory order. */
  function AllChannelItems(channels: seq<ChannelDir>, base: string, maxItems: int): seq<Item> {
    if channels == [] then []
    else
      var c := channels[|channels| - 1];
      AllChannelItems(channels[..|channels| - 1], base, maxItems)
      + (if Visible(c.name, c.isDir) then ChannelItems(c, base, maxItems) else [])
  }

  /** The items of the master feed: all channels' items by the publication
      date text, greatest first, at most `maxItems`. */
  function MasterItems(channels: seq<ChannelDir>, base: string, maxItems: int): seq<Item> {
    PrefixSlice(SortDesc(AllChannelItems(channels, base, maxItems), PubKey), maxItems)
  }

  /** The collection loop of `generate_master_feed`. */
  method GenerateMasterItems(channels: seq<ChannelDir>, base: string, maxItems: int) returns (items: seq<Item>)
    ensures items == MasterItems(channels, base, maxItems)
  {
    var all: seq<Item> := [];
    for i := 0 to |channels|
      invariant all == AllChannelItems(channels[..i], base, maxItems)
    {
      assert channels[..i + 1][..i] == channels[..i];
      var c := channels[i];
      if c.isDir && !StartsWith(c.name, ".") {
        var more := GetChannelItems(c, base, maxItems);
        all := all + more;
      }
    }
    assert channels[..|channels|] == channels;
    items := PrefixSlice(SortDesc(all, PubKey), maxItems);
  }

  lemma {:induction false} AllChannelItemsFrom(channels: seq<ChannelDir>, base: string, maxItems: int)
    ensures forall item :: item in AllChannelItems(channels, base, maxItems) ==>
      exists c :: c in channels && Visible(c.name, c.isDir) && item in ChannelItems(c, base, maxItems)
  {
    if channels != [] {
      var n := |channels| - 1;
      AllChannelItemsFrom(channels[..n], base, maxItems);
      assert forall c :: c in channels[..n] ==> c in channels;
    }
  }

  /** The master feed holds items of visible channels' feeds, ordered by
      the publication date text, greatest first, at most `maxItems` of them
      when that is non-negative. */
  lemma MasterItemsProps(channels: seq<ChannelDir>, base: string, maxItems: int)
    ensures var items := MasterItems(channels, base, maxItems);
      && SortedDesc(items, PubKey)
      && (forall item :: item in items ==>
            exists c :: c in channels && Visible(c.name, c.isDir) && item in ChannelItems(c, base, maxItems))
      && (maxItems >= 0 ==> |items| <= maxItems)
      && (maxItems >= 0 ==> forall i, j :: 0 <= i < |items| <= j < |AllChannelItems(channels, base, maxItems)| ==>
            LexLe(SortDesc(AllChannelItems(channels, base, maxItems), PubKey)[j].pubDate, items[i].pubDate))
  {
    MasterItemsFrom(channels, base, maxItems);
    var all := AllChannelItems(channels, base, maxItems);
    SortDescSorted(all, PubKey);
    if maxItems >= 0 {
      TopByKey(all, PubKey, maxItems);
    }
  }

  /** Every master item is an item of a visible channel. */
  lemma MasterItemsFrom(channels: seq<ChannelDir>, base: string, maxItems: int)
    ensures forall item :: item in MasterItems(channels, base, maxItems) ==>
      exists c :: c in channels && Visible(c.name, c.isDir) && item in ChannelItems(c, base, maxItems)
  {
    var all := AllChannelItems(channels, base, maxItems);
    var sorted := SortDesc(all, PubKey);
    AllChannelItemsFrom(channels, base, maxItems);
    SortDescSorted(all, PubKey);
    var items := MasterItems(channels, base, maxItems);
    forall item | item in items
      ensures exists c :: c in channels && Visible(c.name, c.isDir) && item in ChannelItems(c, base, maxItems)
    {
      var k :| 0 <= k < |items| && items[k] == item;
      assert sorted[k] == item;
      assert item in multiset(sorted);
      assert item in all;
    }
  }

  /** The master feed orders by the text of the date, whose first field is
      the weekday name: a Wednesday in 2020 comes before a Thursday in
      2025. */
  lemma MasterOrderIsTextual(older: Item, newer: Item)
    requires older.pubDate == "Wed, 01 Jan 2020 10:00:00 +0000"
    requires newer.pubDate == "Thu, 02 Jan 2025 10:00:00 +0000"
    ensures SortDesc([newer, older], PubKey) == [older, newer]
  {
    assert LexLt(PubKey(newer), PubKey(older)) by {
      assert newer.pubDate[0] < older.pubDate[0];
    }
    assert InsertDesc([newer], older, PubKey) == [older, newer];
    assert [newer, older][..1] == [newer];
  }

  // ---------------------------------------------------------------------
  // _add_item_to_channel: the values of one <item>
  // ---------------------------------------------------------------------

  /** `f"{h:02d}:{m:02d}:{s:02d}"`. */
  function Hms(h: int, m: nat, s: nat): string {
    ZeroPadInt(h, 2) + ":" + ZeroPad(m, 2) + ":" + ZeroPad(s, 2)
  }

  /** `_format_duration`: hours, minutes and seconds by floor division. */
  function FormatDuration(seconds: int): string {
    Hms(seconds / 3600, (seconds % 3600) / 60, seconds % 60)
  }

  /** Reading `H:M:S` back as a number of seconds. */
  function DurationSeconds(text: string): Option<int> {
    FieldsSeconds(Split(text, ":"))
  }

  function FieldsSeconds(parts: seq<string>): Option<int> {
    if |parts| != 3 then None
    else match (ParseInt(parts[0]), ParseInt(parts[1]), ParseInt(parts[2]))
      case (Some(h), Some(m), Some(s)) => Some(h * 3600 + m * 60 + s)
      case _ => None
  }

  predicate NoColon(t: string) {
    forall k :: 0 <= k < |t| ==> t[k] != ':'
  }

  lemma PaddedNoColon(i: int, width: nat)
    ensures NoColon(ZeroPadInt(i, width))
  {
    var t := ZeroPadInt(i, width);
    if i >= 0 {
      assert AllDigits(t);
    } else {
      var d := ZeroPad(-i, if width > 0 then width - 1 else 0);
      assert AllDigits(d);
      assert forall k :: 1 <= k < |t| ==> t[k] == d[k - 1];
    }
  }

  /** A number below 100 pads to exactly two digits. */
  lemma TwoDigits(n: nat)
    requires n < 100
    ensures |ZeroPad(n, 2)| == 2
  {
    if n >= 10 {
      assert NatToString(n) == NatToString(n / 10) + [DigitChar(n % 10)];
    }
  }

  lemma SplitThree(a: string, b: string, c: string)
    requires NoColon(a) && NoColon(b) && NoColon(c)
    ensures Split(a + ":" + b + ":" + c, ":") == [a, b, c]
  {
    assert a + ":" + b + ":" + c == a + ":" + (b + ":" + c);
    SplitHead(a, ":", b + ":" + c);
    SplitHead(b, ":", c);
    SplitNoSep(c, ":");
  }

  lemma ThreeFields(a: string, b: string, c: string, x: int, y: int, z: int, total: int)
    requires NoColon(a) && NoColon(b) && NoColon(c)
    requires ParseInt(a) == Some(x) && ParseInt(b) == Some(y) && ParseInt(c) == Some(z)
    requires x * 3600 + y * 60 + z == total
    ensures DurationSeconds(a + ":" + b + ":" + c) == Some(total)
  {
    SplitThree(a, b, c);
    FieldsOfThree(a, b, c, x, y, z, total);
  }

  lemma FieldsOfThree(a: string, b: string, c: string, x: int, y: int, z: int, total: int)
    requires ParseInt(a) == Some(x) && ParseInt(b) == Some(y) && ParseInt(c) == Some(z)
    requires x * 3600 + y * 60 + z == total
    ensures FieldsSeconds([a, b, c]) == Some(total)
  {
    assert [a, b, c][0] == a && [a, b, c][1] == b && [a, b, c][2] == c;
  }

  /** The three fields read back as the numbers written. */
  lemma HmsRoundTrip(h: int, m: nat, s: nat, total: int)
    requires h * 3600 + m * 60 + s == total
    ensures DurationSeconds(Hms(h, m, s)) == Some(total)
  {
    var a := ZeroPadInt(h, 2);
    var b := ZeroPad(m, 2);
    var c := ZeroPad(s, 2);
    PaddedNoColon(h, 2);
    PaddedNoColon(m, 2);
    PaddedNoColon(s, 2);
    ParseZeroPadInt(h, 2);
    ParseZeroPad(m, 2);
    ParseZeroPad(s, 2);
    ThreeFields(a, b, c, h, m, s, total);
  }

  /** Floor division splits a number of seconds into hours, minutes below
      60 and seconds below 60 that add back up to it. */
  lemma SplitSeconds(seconds: int)
    ensures 0 <= (seconds % 3600) / 60 < 60 && 0 <= seconds % 60 < 60
    ensures (seconds / 3600) * 3600 + ((seconds % 3600) / 60) * 60 + seconds % 60 == seconds
  {
    var h := seconds / 3600;
    var r := seconds % 3600;
    var m := r / 60;
    var t := r % 60;
    assert seconds == h * 3600 + r && 0 <= r < 3600;
    assert r == m * 60 + t && 0 <= t < 60;
    assert 0 <= m < 60;
    var q := h * 60 + m;
    assert seconds == q * 60 + t;
    ModSixty(seconds, q, t);
  }

  lemma ModSixty(x: int, q: int, t: int)
    requires x == q * 60 + t && 0 <= t < 60
    ensures x % 60 == t
  {
  }

  /** The formatted duration reads back as the same number of seconds. */
  lemma FormatDurationRoundTrip(seconds: int)
    ensures DurationSeconds(FormatDuration(seconds)) == Some(seconds)
  {
    SplitSeconds(seconds);
    HmsRoundTrip(seconds / 3600, (seconds % 3600) / 60, seconds % 60, seconds);
  }

  lemma HmsFields(h: int, m: nat, s: nat)
    requires m < 60 && s < 60
    ensures var parts := Split(Hms(h, m, s), ":");
      |parts| == 3 && |parts[1]| == 2 && |parts[2]| == 2
      && ParseInt(parts[1]) == Some(m) && ParseInt(parts[2]) == Some(s)
  {
    var a, b, c := ZeroPadInt(h, 2), ZeroPad(m, 2), ZeroPad(s, 2);
    assert |b| == 2 by { TwoDigits(m); }
    assert |c| == 2 by { TwoDigits(s); }
    assert NoColon(a) && NoColon(b) && NoColon(c) by {
      PaddedNoColon(h, 2);
      PaddedNoColon(m, 2);
      PaddedNoColon(s, 2);
    }
    assert ParseInt(b) == Some(m) by { ParseZeroPad(m, 2); }
    assert ParseInt(c) == Some(s) by { ParseZeroPad(s, 2); }
    assert Hms(h, m, s) == a + ":" + b + ":" + c;
    SplitThree(a, b, c);
  }

  /** The duration has three fields; the minutes and the seconds have two
      digits each and are below 60. */
  lemma FormatDurationFields(seconds: int)
    ensures var parts := Split(FormatDuration(seconds), ":");
      |parts| == 3 && |parts[1]| == 2 && |parts[2]| == 2
      && ParseInt(parts[1]).Some? && ParseInt(parts[1]).value < 60
      && ParseInt(parts[2]).Some? && ParseInt(parts[2]).value < 60
  {
    SplitSeconds(seconds);
    HmsFields(seconds / 3600, (seconds % 3600) / 60, seconds % 60);
  }

  /** The values written into one `<item>`: title, description, publication
      date, guid, link, enclosure (URL, length, type), `itunes:duration`
      when there is one, and `itunes:author`. */
  datatype Entry = Entry(
    title: string,
    description: string,
    pubDate: string,
    guid: string,
    link: string,
    enclosureUrl: string,
    enclosureLength: string,
    enclosureType: string,
    duration: Option<string>,
    author: string)

  /** The link as the program writes it: `item_data.get('webpage_url',
      media_url)` on a dictionary that always holds `webpage_url`. */
  function LinkAsWritten(item: Item): string {
    item.webpageUrl
  }

  /** For an info file without `webpage_url`, the link written is empty
      rather than the media URL the fallback names. */
  lemma LinkAsWrittenIsEmpty(v: VideoDir, channel: string, base: string)
    requires ExtractVideoInfo(v, channel, base).Some? && "webpage_url" !in v.info.value
    ensures LinkAsWritten(ExtractVideoInfo(v, channel, base).value) == ""
    ensures ExtractVideoInfo(v, channel, base).value.mediaUrl != ""
  {
  }

  /** The link with the fallback in effect: the web page, or the media URL
      when there is none. */
  function Link(item: Item): string {
    if item.webpageUrl != "" then item.webpageUrl else item.mediaUrl
  }

  function EntryOf(item: Item): Entry {
    Entry(
      item.title,
      item.description,
      item.pubDate,
      item.mediaUrl,
      Link(item),
      item.mediaUrl,
      IntToString(item.fileSize),
      MimeType(item.mediaFile),
      if item.duration != 0 then Some(FormatDuration(item.duration)) else None,
      item.channelName)
  }

  /** The guid and the enclosure URL are both the media URL; the link is
      never empty for an extracted item and is the web page when known; the
      enclosure length reads back as the file size; the duration tag is
      present exactly for a non-zero duration and reads back as it; for a
      published file with a media extension and a non-empty stem the type
      is that extension's. */
  lemma EntryOfProps(v: VideoDir, channel: string, base: string)
    requires ExtractVideoInfo(v, channel, base).Some?
    ensures var item := ExtractVideoInfo(v, channel, base).value;
      var e := EntryOf(item);
      && e.guid == e.enclosureUrl == item.mediaUrl
      && e.link != ""
      && (StrField(v.info.value, "webpage_url", "") != "" ==> e.link == StrField(v.info.value, "webpage_url", ""))
      && ParseInt(e.enclosureLength) == Some(item.fileSize as int)
      && (e.duration.Some? <==> item.duration != 0)
      && (e.duration.Some? ==> DurationSeconds(e.duration.value) == Some(item.duration))
      && (forall stem, ext :: stem != [] && ext in MimeTypes && item.mediaFile == stem + ext ==> e.enclosureType == MimeTypes[ext])
  {
    var item := ExtractVideoInfo(v, channel, base).value;
    ParseZeroPad(item.fileSize, 0);
    assert ZeroPadInt(item.fileSize, 0) == IntToString(item.fileSize) by {
      assert Zeros(0) == "";
    }
    FormatDurationRoundTrip(item.duration);
    forall stem, ext | stem != [] && ext in MimeTypes && item.mediaFile == stem + ext
      ensures EntryOf(item).enclosureType == MimeTypes[ext]
    {
      MimeTypeOfExtension(stem, ext);
    }
  }
}
