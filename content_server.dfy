/** The web content server (`ContentScanner`, `ContentHandler`): the list
    of harvested videos it reports, the titles it gives them, the channel
    list it serves, and how it answers a request for a media file, byte
    ranges included. */
module ContentServer {
  import opened Wrappers
  import opened Seqs
  import opened Text
  import opened KeySort

  // ---------------------------------------------------------------------
  // Titles: analyze_video_folder
  // ---------------------------------------------------------------------

  /** What a readable `*.info.json` contributes: its `title` (empty when
      absent) and its `upload_date` (empty when absent or null). */
  datatype Metadata = Metadata(title: string, uploadDate: string)

  /** `s` with every underscore turned into a space. */
  function Spaced(s: string): (r: string)
    ensures |r| == |s| && forall i :: 0 <= i < |s| ==> r[i] == if s[i] == '_' then ' ' else s[i]
  {
    seq(|s|, i requires 0 <= i < |s| => if s[i] == '_' then ' ' else s[i])
  }

  /** The title of a folder named `name`: the metadata title when there is
      one; when that is still the folder name and the name has more than
      three `_`-separated fields, the fields from the third on, joined with
      spaces. */
  function FolderTitle(name: string, meta: Option<Metadata>): string {
    FallbackTitle(if meta.Some? then meta.value.title else name, name, Split(name, "_"))
  }

  /** The fallback itself, given the title so far and the `_`-separated
      fields of the folder name. */
  function FallbackTitle(title: string, name: string, parts: seq<string>): string
    requires |parts| > 0
  {
    if title == name && |parts| > 3 then Replace(Join(parts[2..], " "), "_", " ") else title
  }

  predicate NoUnderscore(s: string) {
    forall k :: 0 <= k < |s| ==> s[k] != '_'
  }

  lemma FreeOfUnderscore(s: string)
    requires !Contains(s, "_")
    ensures NoUnderscore(s)
  {
    forall k | 0 <= k < |s| ensures s[k] != '_' {
      if s[k] == '_' {
        assert s[k..k + 1] == "_";
        ContainsAt(s, "_", k);
      }
    }
  }

  /** Joining underscore-free pieces with spaces is joining them with
      underscores and then turning the underscores into spaces. */
  lemma {:induction false} JoinSpaced(ps: seq<string>)
    requires forall p :: p in ps ==> NoUnderscore(p)
    ensures Join(ps, " ") == Spaced(Join(ps, "_"))
    ensures NoUnderscore(Join(ps, " "))
  {
    if |ps| > 1 {
      JoinSpaced(ps[1..]);
      assert ps[0] in ps;
      assert forall p :: p in ps[1..] ==> p in ps;
      var tail := Join(ps[1..], "_");
      assert Spaced(ps[0] + "_" + tail) == Spaced(ps[0]) + " " + Spaced(tail);
      assert Spaced(ps[0]) == ps[0];
    } else if |ps| == 1 {
      assert ps[0] in ps;
      assert Spaced(ps[0]) == ps[0];
    }
  }

  /** Replacing `_` in a string without one changes nothing. */
  lemma ReplaceAbsent(s: string)
    requires NoUnderscore(s)
    ensures Replace(s, "_", " ") == s
  {
    SplitNoSep(s, "_");
  }

  /** A name made of more than three underscore-free fields starts with
      its first two fields, and the fields from the third on, joined with
      spaces, are the rest of the name with its underscores turned into
      spaces. */
  lemma TitleParts(name: string, parts: seq<string>)
    requires |parts| > 3 && Join(parts, "_") == name
    requires forall p :: p in parts ==> NoUnderscore(p)
    ensures StartsWith(name, parts[0] + "_" + parts[1] + "_")
    ensures Replace(Join(parts[2..], " "), "_", " ") == Spaced(name[|parts[0]| + |parts[1]| + 2..])
    ensures NoUnderscore(Replace(Join(parts[2..], " "), "_", " "))
  {
    assert forall p :: p in parts[2..] ==> p in parts;
    JoinSpaced(parts[2..]);
    ReplaceAbsent(Join(parts[2..], " "));
    assert parts == [parts[0]] + ([parts[1]] + parts[2..]);
    JoinCons(parts[0], [parts[1]] + parts[2..], "_");
    assert ([parts[1]] + parts[2..])[1..] == parts[2..];
    JoinCons(parts[1], parts[2..], "_");
    var rest := Join(parts[2..], "_");
    var head := parts[0] + "_" + parts[1] + "_";
    assert name == head + rest;
    assert name[|head|..] == rest;
    assert name[..|head|] == head;
  }

  /** A folder title that falls back on the name is the name without its
      first two `_`-separated fields, with underscores turned into spaces. */
  lemma FolderTitleFallback(name: string, meta: Option<Metadata>)
    requires meta.None? || meta.value.title == name
    requires |Split(name, "_")| > 3
    ensures var parts := Split(name, "_");
      && NoUnderscore(parts[0]) && NoUnderscore(parts[1])
      && StartsWith(name, parts[0] + "_" + parts[1] + "_")
      && FolderTitle(name, meta) == Spaced(name[|parts[0]| + |parts[1]| + 2..])
      && NoUnderscore(FolderTitle(name, meta))
  {
    var parts := Split(name, "_");
    SplitPiecesFree(name, "_");
    forall p | p in parts ensures NoUnderscore(p) {
      FreeOfUnderscore(p);
    }
    assert parts[0] in parts && parts[1] in parts;
    JoinSplit(name, "_");
    TitleParts(name, parts);
  }

  /** A metadata title other than the folder name is kept as it is; so is
      the name when it has at most three fields. */
  lemma FolderTitleKept(name: string, meta: Option<Metadata>)
    ensures meta.Some? && meta.value.title != name ==> FolderTitle(name, meta) == meta.value.title
    ensures (meta.None? || meta.value.title == name) && |Split(name, "_")| <= 3 ==> FolderTitle(name, meta) == name
  {
  }

  // ---------------------------------------------------------------------
  // scan_downloads_directory
  // ---------------------------------------------------------------------

  /** A folder entry of a channel directory, with the metadata of its last
      readable `*.info.json`, if any. */
  datatype VideoFolder = VideoFolder(name: string, isDir: bool, meta: Option<Metadata>)

  datatype ChannelFolder = ChannelFolder(name: string, isDir: bool, videos: seq<VideoFolder>)

  /** The part of the reported record this model follows. */
  datatype ContentInfo = ContentInfo(path: string, title: string, channel: string, uploadDate: Option<string>)

  function Analyze(v: VideoFolder, channel: string): ContentInfo {
    ContentInfo(
      channel + "/" + v.name,
      FolderTitle(v.name, v.meta),
      channel,
      if v.meta.Some? then Some(v.meta.value.uploadDate) else None)
  }

  /** `x.get('uploadDate') or '0000-00-00'`. */
  function DateKey(c: ContentInfo): string {
    if c.uploadDate.Some? && c.uploadDate.value != "" then c.uploadDate.value else "0000-00-00"
  }

  predicate Visible(name: string, isDir: bool) {
    isDir && !StartsWith(name, ".")
  }

  function ChannelContent(videos: seq<VideoFolder>, channel: string): seq<ContentInfo> {
    if videos == [] then []
    else
      var v := videos[|videos| - 1];
      ChannelContent(videos[..|videos| - 1], channel) + (if Visible(v.name, v.isDir) then [Analyze(v, channel)] else [])
  }

  /** Every visible video folder of every visible channel, in directory
      order. */
  function AllContent(channels: seq<ChannelFolder>): seq<ContentInfo> {
    if channels == [] then []
    else
      var c := channels[|channels| - 1];
      AllContent(channels[..|channels| - 1]) + (if Visible(c.name, c.isDir) then ChannelContent(c.videos, c.name) else [])
  }

  /** `scan_downloads_directory`; a missing downloads directory is an empty
      list of channels. */
  method ScanDownloads(channels: seq<ChannelFolder>) returns (content: seq<ContentInfo>)
    ensures content == SortDesc(AllContent(channels), DateKey)
  {
    var all: seq<ContentInfo> := [];
    for i := 0 to |channels|
      invariant all == AllContent(channels[..i])
    {
      assert channels[..i + 1][..i] == channels[..i];
      var c := channels[i];
      if c.isDir && !StartsWith(c.name, ".") {
        var found: seq<ContentInfo> := [];
        for j := 0 to |c.videos|
          invariant found == ChannelContent(c.videos[..j], c.name)
        {
          assert c.videos[..j + 1][..j] == c.videos[..j];
          var v := c.videos[j];
          if v.isDir && !StartsWith(v.name, ".") {
            found := found + [Analyze(v, c.name)];
          }
        }
        assert c.videos[..|c.videos|] == c.videos;
        all := all + found;
      }
    }
    assert channels[..|channels|] == channels;
    content := SortDesc(all, DateKey);
  }

  lemma {:induction false} ChannelContentFrom(videos: seq<VideoFolder>, channel: string)
    ensures forall c :: c in ChannelContent(videos, channel) ==>
      exists v :: v in videos && Visible(v.name, v.isDir) && c == Analyze(v, channel)
  {
    if videos != [] {
      ChannelContentFrom(videos[..|videos| - 1], channel);
      assert forall v :: v in videos[..|videos| - 1] ==> v in videos;
    }
  }

  lemma {:induction false} AllContentFrom(channels: seq<ChannelFolder>)
    ensures forall c :: c in AllContent(channels) ==>
      exists ch, v :: ch in channels && Visible(ch.name, ch.isDir) && v in ch.videos && Visible(v.name, v.isDir)
        && c == Analyze(v, ch.name)
  {
    if channels != [] {
      var n := |channels| - 1;
      AllContentFrom(channels[..n]);
      ChannelContentFrom(channels[n].videos, channels[n].name);
      assert forall ch :: ch in channels[..n] ==> ch in channels;
    }
  }

  /** The list is newest first by upload date, a missing or empty date
      counting as `0000-00-00`; it reports each visible folder once, and
      nothing else. */
  lemma ScanProps(channels: seq<ChannelFolder>)
    ensures var content := SortDesc(AllContent(channels), DateKey);
      && SortedDesc(content, DateKey)
      && multiset(content) == multiset(AllContent(channels))
      && (forall c :: c in content ==>
            exists ch, v :: ch in channels && Visible(ch.name, ch.isDir) && v in ch.videos && Visible(v.name, v.isDir)
              && c == Analyze(v, ch.name))
      && (forall c :: c in content && (c.uploadDate.None? || c.uploadDate.value == "") ==> DateKey(c) == "0000-00-00")
  {
    var all := AllContent(channels);
    SortDescSorted(all, DateKey);
    AllContentFrom(channels);
    forall c | c in SortDesc(all, DateKey) ensures c in all {
      assert c in multiset(SortDesc(all, DateKey));
    }
  }

  // ---------------------------------------------------------------------
  // handle_get_channels: de-duplication
  // ---------------------------------------------------------------------

  /** One channel read from a configuration file. */
  datatype ChannelEntry = ChannelEntry(name: string, configFile: string, summarize: string)

  function Names(cs: seq<ChannelEntry>): set<string> {
    set c | c in cs :: c.name
  }

  /** The channels with repeated names dropped, first occurrence kept. */
  function Unique(cs: seq<ChannelEntry>): seq<ChannelEntry> {
    if cs == [] then []
    else
      var init := cs[..|cs| - 1];
      var c := cs[|cs| - 1];
      Unique(init) + (if c.name in Names(init) then [] else [c])
  }

  /** The de-duplication loop with its `seen_names` set. */
  method UniqueChannels(channels: seq<ChannelEntry>) returns (unique: seq<ChannelEntry>)
    ensures unique == Unique(channels)
  {
    unique := [];
    var seen: set<string> := {};
    for i := 0 to |channels|
      invariant unique == Unique(channels[..i])
      invariant seen == Names(channels[..i])
    {
      var c := channels[i];
      assert channels[..i + 1][..i] == channels[..i];
      assert Names(channels[..i + 1]) == Names(channels[..i]) + {c.name} by {
        assert channels[..i + 1] == channels[..i] + [c];
      }
      if c.name !in seen {
        unique := unique + [c];
        seen := seen + {c.name};
      }
    }
    assert channels[..|channels|] == channels;
  }

  /** The index of the first channel named `name`. */
  function FirstNamed(cs: seq<ChannelEntry>, name: string): (r: nat)
    requires name in Names(cs)
    ensures r < |cs| && cs[r].name == name && forall k :: 0 <= k < r ==> cs[k].name != name
  {
    if cs[0].name == name then 0
    else
      assert name in Names(cs[1..]) by {
        var c :| c in cs && c.name == name;
        assert c in cs[1..] by {
          var k :| 0 <= k < |cs| && cs[k] == c;
          assert k != 0;
          assert cs[1..][k - 1] == c;
        }
      }
      var r := FirstNamed(cs[1..], name) + 1;
      assert forall k :: 1 <= k < r ==> cs[k] == cs[1..][k - 1];
      r
  }

  lemma FirstNamedPrefix(cs: seq<ChannelEntry>, n: nat, name: string)
    requires n <= |cs| && name in Names(cs[..n])
    ensures name in Names(cs) && FirstNamed(cs, name) == FirstNamed(cs[..n], name)
  {
    var c :| c in cs[..n] && c.name == name;
    assert c in cs;
    var a := FirstNamed(cs, name);
    var b := FirstNamed(cs[..n], name);
    assert cs[..n][b] == cs[b];
  }

  /** The names kept are all the names. */
  lemma {:induction false} UniqueNames(cs: seq<ChannelEntry>)
    ensures Names(Unique(cs)) == Names(cs)
  {
    if cs != [] {
      var n := |cs| - 1;
      UniqueNames(cs[..n]);
      assert cs == cs[..n] + [cs[n]];
      assert Names(cs) == Names(cs[..n]) + {cs[n].name};
      var u0 := Unique(cs[..n]);
      assert Names(u0 + [cs[n]]) == Names(u0) + {cs[n].name} by {
        assert forall x :: x in u0 + [cs[n]] <==> x in u0 || x == cs[n];
      }
    }
  }

  /** Each kept entry is the one where its name first appears. */
  lemma {:induction false} UniqueFirst(cs: seq<ChannelEntry>)
    ensures forall i :: 0 <= i < |Unique(cs)| ==>
      Unique(cs)[i].name in Names(cs) && Unique(cs)[i] == cs[FirstNamed(cs, Unique(cs)[i].name)]
  {
    if cs != [] {
      var n := |cs| - 1;
      var init := cs[..n];
      UniqueFirst(init);
      var u0 := Unique(init);
      assert Names(cs) == Names(init) + {cs[n].name} by {
        assert cs == init + [cs[n]];
      }
      forall i | 0 <= i < |u0|
        ensures u0[i].name in Names(cs) && u0[i] == cs[FirstNamed(cs, u0[i].name)]
      {
        FirstNamedPrefix(cs, n, u0[i].name);
      }
      if cs[n].name !in Names(init) {
        assert FirstNamed(cs, cs[n].name) == n by {
          forall k | 0 <= k < n ensures cs[k].name != cs[n].name {
            assert init[k] == cs[k];
            assert cs[k] in init;
          }
        }
      }
    }
  }

  /** The kept entries are in the order in which their names first
      appear. */
  lemma {:induction false} UniqueOrder(cs: seq<ChannelEntry>)
    ensures forall i :: 0 <= i < |Unique(cs)| ==> Unique(cs)[i].name in Names(cs)
    ensures forall i, j :: 0 <= i < j < |Unique(cs)| ==>
      FirstNamed(cs, Unique(cs)[i].name) < FirstNamed(cs, Unique(cs)[j].name)
  {
    UniqueFirst(cs);
    if cs != [] {
      var n := |cs| - 1;
      var init := cs[..n];
      UniqueOrder(init);
      var u0 := Unique(init);
      forall i | 0 <= i < |u0|
        ensures u0[i].name in Names(cs) && FirstNamed(cs, u0[i].name) == FirstNamed(init, u0[i].name) < n
      {
        FirstNamedPrefix(cs, n, u0[i].name);
      }
    }
  }

  /** No name is listed twice. */
  lemma UniqueDistinct(cs: seq<ChannelEntry>)
    ensures forall i, j :: 0 <= i < j < |Unique(cs)| ==> Unique(cs)[i].name != Unique(cs)[j].name
  {
    UniqueOrder(cs);
  }

  // ---------------------------------------------------------------------
  // serve_media_file: the path check
  // ---------------------------------------------------------------------

  /** The answer to `/media/...` before the file system is consulted:
      400 for fewer than three segments, otherwise the segments to append
      to the downloads directory. `unquote` stands for
      `urllib.parse.unquote`. */
  datatype MediaRoute = BadRequest | Segments(parts: seq<string>)

  function MediaPathAsWritten(path: string, unquote: string -> string): MediaRoute {
    var parts := Split(unquote(SuffixFrom(path, 7)), "/");
    if |parts| < 3 then BadRequest else Segments(parts)
  }

  /** Number of occurrences of `c` in `s`. */
  function CountChar(s: string, c: char): nat {
    if s == [] then 0 else CountChar(s[..|s| - 1], c) + (if s[|s| - 1] == c then 1 else 0)
  }

  lemma {:induction false} CountCharAppend(a: string, b: string, c: char)
    ensures CountChar(a + b, c) == CountChar(a, c) + CountChar(b, c)
    decreases |b|
  {
    if b != [] {
      CountCharAppend(a, b[..|b| - 1], c);
      assert (a + b)[..|a + b| - 1] == a + b[..|b| - 1];
    } else {
      assert a + b == a;
    }
  }

  /** Splitting on one character gives one more piece than there are
      occurrences of it. */
  lemma {:induction false} SplitCount(s: string, c: char)
    ensures |Split(s, [c])| == CountChar(s, c) + 1
    decreases |s|
  {
    match Find(s, [c])
    case None =>
      assert forall k :: 0 <= k < |s| ==> s[k] != c by {
        forall k | 0 <= k < |s| ensures s[k] != c {
          assert !IsAt(s, [c], k);
          assert s[k..k + 1] == [s[k]];
        }
      }
      NoCharCount(s, c);
    case Some(i) =>
      var head := s[..i];
      var rest := s[i + 1..];
      SplitCount(rest, c);
      assert forall k :: 0 <= k < i ==> s[k] != c by {
        forall k | 0 <= k < i ensures s[k] != c {
          assert !IsAt(s, [c], k);
          assert s[k..k + 1] == [s[k]];
        }
      }
      assert forall k :: 0 <= k < |head| ==> head[k] != c;
      NoCharCount(head, c);
      assert s[i..i + 1] == [c];
      assert s == head + [c] + rest;
      CountCharAppend(head + [c], rest, c);
      CountCharAppend(head, [c], c);
      assert CountChar([c], c) == 1 by {
        assert [c][..0] == [];
      }
  }

  lemma {:induction false} NoCharCount(s: string, c: char)
    requires forall k :: 0 <= k < |s| ==> s[k] != c
    ensures CountChar(s, c) == 0
  {
    if s != [] {
      NoCharCount(s[..|s| - 1], c);
    }
  }

  /** The request is refused exactly when the decoded path after `/media/`
      holds fewer than two slashes. */
  lemma MediaPathAsWrittenIff(path: string, unquote: string -> string)
    ensures MediaPathAsWritten(path, unquote).BadRequest? <==> CountChar(unquote(SuffixFrom(path, 7)), '/') < 2
  {
    SplitCount(unquote(SuffixFrom(path, 7)), '/');
  }

  /** A parent-directory segment passes the check: `/media/../a/b` names
      `downloads/../a/b`, outside the downloads directory. */
  lemma MediaPathEscapes(unquote: string -> string)
    requires unquote("../a/b") == "../a/b"
    ensures MediaPathAsWritten("/media/../a/b", unquote) == Segments(["..", "a", "b"])
  {
    assert SuffixFrom("/media/../a/b", 7) == "../a/b";
    assert Split("../a/b", "/") == ["..", "a", "b"] by {
      assert ".." + ['/'] + "a" + ['/'] + "b" == "../a/b";
      SplitThreeBy("..", "a", "b", '/');
    }
  }

  /** The check with parent-directory segments refused as well. */
  function MediaPath(path: string, unquote: string -> string): MediaRoute {
    var parts := Split(unquote(SuffixFrom(path, 7)), "/");
    if |parts| < 3 || ".." in parts then BadRequest else Segments(parts)
  }

  /** Accepted paths have at least three segments and none of them climbs
      out of the downloads directory; otherwise the answer is as before. */
  lemma MediaPathProps(path: string, unquote: string -> string)
    ensures MediaPath(path, unquote).Segments? ==>
      |MediaPath(path, unquote).parts| >= 3 && ".." !in MediaPath(path, unquote).parts
    ensures MediaPath(path, unquote).Segments? ==> MediaPath(path, unquote) == MediaPathAsWritten(path, unquote)
    ensures MediaPathAsWritten(path, unquote).Segments? && ".." !in MediaPathAsWritten(path, unquote).parts ==>
      MediaPath(path, unquote) == MediaPathAsWritten(path, unquote)
  {
  }

  // ---------------------------------------------------------------------
  // handle_range_request
  // ---------------------------------------------------------------------

  function Max(a: int, b: int): int {
    if a >= b then a else b
  }

  function Min(a: int, b: int): int {
    if a <= b then a else b
  }

  /** The `Range` header with `bytes=` removed, split at `-`. */
  function RangeFields(header: string): seq<string> {
    Split(Replace(header, "bytes=", ""), "-")
  }

  /** A header `bytes=<a>-<b>` splits into `a` and `b` when neither holds a
      `-` or a `b`. */
  lemma RangeParts(a: string, b: string)
    requires forall k :: 0 <= k < |a| ==> a[k] != '-' && a[k] != 'b'
    requires forall k :: 0 <= k < |b| ==> b[k] != '-' && b[k] != 'b'
    ensures RangeFields("bytes=" + a + "-" + b) == [a, b]
  {
    var rest := a + "-" + b;
    var h := "bytes=" + rest;
    assert h == "bytes=" + a + "-" + b;
    assert h[..6] == "bytes=";
    ReplaceFront(h, "bytes=", "");
    assert h[6..] == rest;
    assert forall k :: 0 <= k < |rest| ==> rest[k] != 'b' by {
      forall k | 0 <= k < |rest| ensures rest[k] != 'b' {
        if k < |a| {
          assert rest[k] == a[k];
        } else if k > |a| {
          assert rest[k] == b[k - |a| - 1];
        }
      }
    }
    SplitNoSep(rest, "bytes=");
    assert Replace(rest, "bytes=", "") == rest;
    assert Replace(h, "bytes=", "") == rest;
    SplitHead(a, "-", b);
    SplitNoSep(b, "-");
  }

  /** The answer to a `Range` header: 206 with the first and last byte,
      `Content-Length` and `Content-Range`, or 500 when the header does not
      split into two integers. */
  datatype RangeReply = Partial(start: int, end: int, contentLength: int, contentRange: string) | ServerError

  /** `handle_range_request` up to the headers it sends, on the fields of
      the header; `parse` stands for `int()`. */
  function RangeOfFields(parts: seq<string>, size: int, parse: string -> Option<int>): (r: RangeReply)
    ensures r.Partial? ==> r.start >= 0 && r.end <= size - 1 && r.contentLength == r.end - r.start + 1
    ensures r.ServerError? <==>
      |parts| < 2 || (parts[0] != "" && parse(parts[0]).None?) || (parts[1] != "" && parse(parts[1]).None?)
  {
    if |parts| < 2 then ServerError
    else
      var first := if parts[0] != "" then parse(parts[0]) else Some(0);
      var last := if parts[1] != "" then parse(parts[1]) else Some(size - 1);
      if first.None? || last.None? then ServerError
      else
        var start := Max(0, first.value);
        var end := Min(size - 1, last.value);
        Partial(start, end, end - start + 1,
          "bytes " + IntToString(start) + "-" + IntToString(end) + "/" + IntToString(size))
  }

  function RangeAsWritten(header: string, size: int): RangeReply {
    RangeOfFields(RangeFields(header), size, ParseInt)
  }

  /** On two fields, an empty first one means byte 0 and an empty last one
      the last byte; both are then clamped to the file, and `Content-Range`
      reports them. */
  lemma TwoFields(a: string, b: string, size: int, parse: string -> Option<int>)
    requires a == "" || parse(a).Some?
    requires b == "" || parse(b).Some?
    ensures var r := RangeOfFields([a, b], size, parse);
      && r.Partial?
      && r.start == (if a == "" then 0 else Max(0, parse(a).value))
      && r.end == (if b == "" then size - 1 else Min(size - 1, parse(b).value))
      && r.contentRange == "bytes " + IntToString(r.start) + "-" + IntToString(r.end) + "/" + IntToString(size)
  {
  }

  /** The same on a header `bytes=<a>-<b>` with decimal positions. */
  lemma RangeAsWrittenProps(a: string, b: string, size: int)
    requires a == "" || (AllDigits(a) && |a| > 0)
    requires b == "" || (AllDigits(b) && |b| > 0)
    ensures var r := RangeAsWritten("bytes=" + a + "-" + b, size);
      && r.Partial?
      && r.start == (if a == "" then 0 else DigitsValue(a))
      && r.end == (if b == "" then size - 1 else Min(size - 1, DigitsValue(b)))
      && r.contentRange == "bytes " + IntToString(r.start) + "-" + IntToString(r.end) + "/" + IntToString(size)
  {
    RangeParts(a, b);
    if a != "" {
      ParseDigits(a);
    }
    if b != "" {
      ParseDigits(b);
    }
    TwoFields(a, b, size, ParseInt);
  }

  /** `bytes=-N` is read as the first N + 1 bytes (cut to the file), not as
      the last N bytes of section 2.1 of RFC 7233. */
  lemma SuffixRangeAsWritten(n: nat, size: int)
    ensures var r := RangeAsWritten("bytes=-" + NatToString(n), size);
      r.Partial? && r.start == 0 && r.end == Min(size - 1, n)
  {
    assert "bytes=" + "" + "-" + NatToString(n) == "bytes=-" + NatToString(n);
    RangeAsWrittenProps("", NatToString(n), size);
  }

  /** A first position after the last one, or past the end of the file, is
      not refused: the reply is 206 with a `Content-Length` of zero or
      less. */
  lemma InvertedRangeAsWritten(a: nat, b: nat, size: int)
    requires b < a || size <= a
    ensures var r := RangeAsWritten("bytes=" + NatToString(a) + "-" + NatToString(b), size);
      r.Partial? && r.contentLength <= 0
  {
    RangeAsWrittenProps(NatToString(a), NatToString(b), size);
  }

  /** The range under sections 2.1 and 4.4 of RFC 7233: a suffix range
      `-N` is the last N bytes; a first position past the end of the file
      is unsatisfiable (416); a last position before the first makes the
      header invalid, and the whole file is sent (200). */
  datatype RangeAnswer = Bytes(start: int, end: int) | WholeFile | Unsatisfiable | Malformed

  function ResolveFields(parts: seq<string>, size: int, parse: string -> Option<int>): (r: RangeAnswer)
    ensures r.Bytes? ==> 0 <= r.start <= r.end < size
  {
    if |parts| < 2 then Malformed
    else if parts[0] == "" then
      match parse(parts[1])
      case None => Malformed
      case Some(n) =>
        if n <= 0 || size <= 0 then Unsatisfiable else Bytes(Max(0, size - n), size - 1)
    else
      var first := parse(parts[0]);
      var last := if parts[1] != "" then parse(parts[1]) else Some(size - 1);
      if first.None? || last.None? || first.value < 0 then Malformed
      else if parts[1] != "" && last.value < first.value then WholeFile
      else if first.value >= size then Unsatisfiable
      else Bytes(first.value, Min(size - 1, last.value))
  }

  /** Every range served lies inside the file and is not empty. */
  function ResolveRange(header: string, size: int): (r: RangeAnswer)
    ensures r.Bytes? ==> 0 <= r.start <= r.end < size
  {
    ResolveFields(RangeFields(header), size, ParseInt)
  }

  /** A suffix range is the last N bytes, or the whole file when it is
      shorter. */
  lemma SuffixRangeResolved(n: nat, size: int)
    requires n > 0 && size > 0
    ensures var r := ResolveRange("bytes=-" + NatToString(n), size);
      r.Bytes? && r.end == size - 1 && r.end - r.start + 1 == Min(n, size)
  {
    var d := NatToString(n);
    assert RangeFields("bytes=-" + d) == ["", d] by {
      assert "bytes=" + "" + "-" + d == "bytes=-" + d;
      RangeParts("", d);
    }
    assert ParseInt(d) == Some(n) by { ParseDigits(d); }
    SuffixFields(d, n, size, ParseInt);
  }

  lemma SuffixFields(d: string, n: nat, size: int, parse: string -> Option<int>)
    requires n > 0 && size > 0 && parse(d) == Some(n)
    ensures var r := ResolveFields(["", d], size, parse);
      r.Bytes? && r.end == size - 1 && r.end - r.start + 1 == Min(n, size)
  {
  }

  /** On two non-empty fields holding `x` and `y`: bytes that exist, asked
      for in order, are served by both readings alike; a last position
      before the first sends the whole file; a first position past the end
      is unsatisfiable. */
  lemma AgreeTwoFields(a: string, b: string, x: nat, y: nat, size: int, parse: string -> Option<int>)
    requires a != "" && b != "" && parse(a) == Some(x) && parse(b) == Some(y)
    ensures var w := RangeOfFields([a, b], size, parse);
      var r := ResolveFields([a, b], size, parse);
      && w.Partial?
      && (x <= y && x < size ==> r == Bytes(w.start, w.end) && w.contentLength > 0)
      && (y < x ==> r.WholeFile?)
      && (x <= y && size <= x ==> r.Unsatisfiable?)
  {
  }

  /** Where the header asks for bytes that exist, in order, both readings
      agree; otherwise the corrected one refuses or sends the whole file
      instead of an empty or negative length. */
  lemma ResolveRangeAgrees(a: string, b: string, size: int)
    requires |a| > 0 && AllDigits(a) && |b| > 0 && AllDigits(b)
    ensures var header := "bytes=" + a + "-" + b;
      var w := RangeAsWritten(header, size);
      var r := ResolveRange(header, size);
      var x, y := DigitsValue(a), DigitsValue(b);
      && w.Partial?
      && (x <= y && x < size ==> r == Bytes(w.start, w.end) && w.contentLength > 0)
      && (y < x ==> r.WholeFile?)
      && (x <= y && size <= x ==> r.Unsatisfiable?)
  {
    RangeParts(a, b);
    ParseDigits(a);
    ParseDigits(b);
    AgreeTwoFields(a, b, DigitsValue(a), DigitsValue(b), size, ParseInt);
  }

  // ---------------------------------------------------------------------
  // The range send loop
  // ---------------------------------------------------------------------

  const ChunkSize: int := 8192

  /** `f.seek(pos); f.read(n)` on a file holding `file`. */
  function ReadAt(file: seq<int>, pos: nat, n: nat): (r: seq<int>)
    ensures |r| <= n
    ensures r == [] <==> n == 0 || pos >= |file|
  {
    if pos >= |file| then [] else file[pos..Min(|file|, pos + n)]
  }

  /** The bytes a range asks for that the file has. */
  function Wanted(file: seq<int>, start: nat, contentLength: int): seq<int> {
    if contentLength <= 0 then [] else ReadAt(file, start, contentLength)
  }

  /** Reading on from `k` bytes into the wanted range reads the next bytes
      of the range; reading nothing means the range is exhausted. */
  lemma ReadOn(file: seq<int>, start: nat, len: int, k: nat, m: nat)
    requires 0 < m && k + m <= len
    requires k <= |Wanted(file, start, len)|
    ensures var chunk := ReadAt(file, start + k, m);
      && k + |chunk| <= |Wanted(file, start, len)|
      && chunk == Wanted(file, start, len)[k..k + |chunk|]
      && (chunk == [] ==> k == |Wanted(file, start, len)|)
  {
    var wanted := Wanted(file, start, len);
    if start < |file| && start + k < |file| {
      var e := Min(|file|, start + len);
      assert wanted == file[start..e];
      var chunk := ReadAt(file, start + k, m);
      var f := Min(|file|, start + k + m);
      assert f <= e;
      assert chunk == file[start + k..f];
      assert forall i :: 0 <= i < |chunk| ==> chunk[i] == wanted[k + i];
      assert chunk == wanted[k..k + |chunk|];
    }
  }

  /** What the send loop keeps true: the pieces sent are between 1 and
      8192 bytes long, together they are the first bytes of the range, the
      file position is just past them, and `remaining` is what is left of
      `contentLength`. */
  ghost predicate Sending(file: seq<int>, start: nat, contentLength: int, sent: seq<seq<int>>, pos: int, remaining: int) {
    var done := Flatten(sent);
    var wanted := Wanted(file, start, contentLength);
    && (forall i :: 0 <= i < |sent| ==> 0 < |sent[i]| <= ChunkSize)
    && pos == start + |done| && remaining == contentLength - |done|
    && IsPrefix(done, wanted)
    && (remaining <= 0 ==> done == wanted)
  }

  lemma SendingStart(file: seq<int>, start: nat, contentLength: int)
    ensures Sending(file, start, contentLength, [], start, contentLength)
  {
    var wanted := Wanted(file, start, contentLength);
    assert |wanted| <= Max(0, contentLength);
  }

  /** Sending the next piece read keeps the loop's invariant; reading
      nothing means the whole range has been sent. */
  lemma SendingStep(file: seq<int>, start: nat, contentLength: int, sent: seq<seq<int>>, pos: nat, remaining: int)
    requires Sending(file, start, contentLength, sent, pos, remaining) && remaining > 0
    ensures var chunk := ReadAt(file, pos, Min(ChunkSize, remaining));
      && (chunk == [] ==> Flatten(sent) == Wanted(file, start, contentLength))
      && (chunk != [] ==> Sending(file, start, contentLength, sent + [chunk], pos + |chunk|, remaining - |chunk|))
  {
    var done := Flatten(sent);
    var wanted := Wanted(file, start, contentLength);
    var chunk := ReadAt(file, pos, Min(ChunkSize, remaining));
    ReadOn(file, start, contentLength, |done|, Min(ChunkSize, remaining));
    if chunk != [] {
      PrefixExtend(done, chunk, wanted);
      FlattenAppend(sent, chunk);
      if remaining - |chunk| <= 0 {
        PrefixFull(done + chunk, wanted);
      }
    }
  }

  /** The loop sending `contentLength` bytes from `start`, in pieces of at
      most 8192 bytes, while the connection lasts; `alive` is how many
      times the connection check succeeds before the client goes away. */
  method SendRange(file: seq<int>, start: nat, contentLength: int, alive: nat) returns (sent: seq<seq<int>>)
    ensures forall i :: 0 <= i < |sent| ==> 0 < |sent[i]| <= ChunkSize
    ensures |sent| <= alive
    ensures IsPrefix(Flatten(sent), Wanted(file, start, contentLength))
    ensures |sent| < alive ==> Flatten(sent) == Wanted(file, start, contentLength)
  {
    sent := [];
    var remaining := contentLength;
    var pos: nat := start;
    var checks := 0;
    SendingStart(file, start, contentLength);
    while remaining > 0 && checks < alive
      invariant checks == |sent| <= alive
      invariant Sending(file, start, contentLength, sent, pos, remaining)
      decreases remaining
    {
      checks := checks + 1;
      var chunk := ReadAt(file, pos, Min(ChunkSize, remaining));
      SendingStep(file, start, contentLength, sent, pos, remaining);
      if chunk == [] {
        break;
      }
      sent := sent + [chunk];
      remaining := remaining - |chunk|;
      pos := pos + |chunk|;
    }
  }

  /** `p` is a prefix of `s`. */
  predicate IsPrefix(p: seq<int>, s: seq<int>) {
    |p| <= |s| && p == s[..|p|]
  }

  lemma PrefixExtend(p: seq<int>, q: seq<int>, s: seq<int>)
    requires IsPrefix(p, s) && |p| + |q| <= |s| && q == s[|p|..|p| + |q|]
    ensures IsPrefix(p + q, s)
  {
    assert s[..|p| + |q|] == s[..|p|] + s[|p|..|p| + |q|];
  }

  lemma PrefixFull(p: seq<int>, s: seq<int>)
    requires IsPrefix(p, s) && |p| >= |s|
    ensures p == s
  {
  }
}
