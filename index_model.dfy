/** The per-channel discovery index (`.channel_index.json`) and the rules
    shared by the three programs that write it: the "longer record wins"
    video merge, the sorted duplicate-free cutoff list and the upload-date
    range. */
module IndexModel {
  import opened Wrappers
  import opened Seqs
  import opened Text
  import opened Dicts

  /** One discovered video. `repr` stands for the record's Python `str()`
      form, whose length is the only thing the merge rule looks at; an empty
      `uploadDate` or `webpageUrl` stands for a missing or empty field. */
  datatype Video = Video(id: string, uploadDate: string, webpageUrl: string, repr: string)

  /** `len(str(video))`. */
  function ReprLength(v: Video): nat {
    |v.repr|
  }

  datatype HistoryEntry = HistoryEntry(
    cutoffDate: Option<string>,
    createdDate: Option<string>,
    totalVideos: int,
    sourceFile: Option<string>)

  datatype DateRange = DateRange(earliest: Option<string>, latest: Option<string>)

  /** The index record. `None` is a key absent from the JSON object;
      `cutoffDate` is the single cutoff of the legacy per-cutoff files. */
  datatype ChannelIndex = ChannelIndex(
    channelName: Option<string>,
    channelUrl: Option<string>,
    createdDate: Option<string>,
    lastUpdated: Option<string>,
    cutoffDate: Option<string>,
    cutoffDates: Option<seq<string>>,
    currentCutoffDate: Option<string>,
    indexHistory: Option<seq<HistoryEntry>>,
    videos: Dict<Video>,
    videoIds: Option<seq<string>>,
    totalVideos: Option<int>,
    dateRange: Option<DateRange>)

  // ---------------------------------------------------------------------
  // The video merge: a new id is inserted; on a known id the incoming copy
  // replaces the stored one only when its str() is strictly longer.
  // ---------------------------------------------------------------------

  function KeepLonger(d: Dict<Video>, k: string, v: Video): Dict<Video> {
    if k !in d.values || ReprLength(v) > ReprLength(d.values[k]) then Put(d, k, v) else d
  }

  /** KeepLonger applied to each (id, video) pair in turn. */
  function MergeVideos(d: Dict<Video>, items: seq<(string, Video)>): Dict<Video>
  {
    if items == [] then d
    else
      var n := |items| - 1;
      KeepLonger(MergeVideos(d, items[..n]), items[n].0, items[n].1)
  }

  /** The ids carried by a list of pairs. */
  function PairKeys(items: seq<(string, Video)>): set<string> {
    set j | 0 <= j < |items| :: items[j].0
  }

  /** Every copy of id `k` the merge has seen: the stored one and the incoming ones. */
  function Candidates(d: Dict<Video>, items: seq<(string, Video)>, k: string): set<Video> {
    (if k in d.values then {d.values[k]} else {})
    + set j | 0 <= j < |items| && items[j].0 == k :: items[j].1
  }

  lemma KeepLongerValid(d: Dict<Video>, k: string, v: Video)
    requires Valid(d)
    ensures Valid(KeepLonger(d, k, v))
    ensures KeepLonger(d, k, v).values.Keys == d.values.Keys + {k}
    ensures |d.keys| <= |KeepLonger(d, k, v).keys| && KeepLonger(d, k, v).keys[..|d.keys|] == d.keys
  {
    PutValid(d, k, v);
  }

  /** The merged ids are the stored ids plus the incoming ids, the stored ids
      keep their order at the front, and the dict stays well formed. */
  lemma {:induction false} MergeVideosKeys(d: Dict<Video>, items: seq<(string, Video)>)
    requires Valid(d)
    ensures Valid(MergeVideos(d, items))
    ensures MergeVideos(d, items).values.Keys == d.values.Keys + PairKeys(items)
    ensures |d.keys| <= |MergeVideos(d, items).keys|
    ensures MergeVideos(d, items).keys[..|d.keys|] == d.keys
  {
    if items != [] {
      var n := |items| - 1;
      MergeVideosKeys(d, items[..n]);
      var m := MergeVideos(d, items[..n]);
      KeepLongerValid(m, items[n].0, items[n].1);
      PairKeysStep(items);
    }
  }

  lemma PairKeysStep(items: seq<(string, Video)>)
    requires items != []
    ensures PairKeys(items) == PairKeys(items[..|items| - 1]) + {items[|items| - 1].0}
  {
    var n := |items| - 1;
    forall x | x in PairKeys(items) ensures x in PairKeys(items[..n]) + {items[n].0} {
      var j :| 0 <= j < |items| && items[j].0 == x;
      if j < n {
        assert items[..n][j] == items[j];
      }
    }
    forall x | x in PairKeys(items[..n]) ensures x in PairKeys(items) {
      var j :| 0 <= j < n && items[..n][j].0 == x;
      assert items[j] == items[..n][j];
    }
  }

  lemma CandidatesStep(d: Dict<Video>, items: seq<(string, Video)>, k: string)
    requires items != []
    ensures Candidates(d, items, k) ==
      Candidates(d, items[..|items| - 1], k) + (if items[|items| - 1].0 == k then {items[|items| - 1].1} else {})
  {
    var n := |items| - 1;
    var lhs := set j | 0 <= j < |items| && items[j].0 == k :: items[j].1;
    var rhs := set j | 0 <= j < n && items[..n][j].0 == k :: items[..n][j].1;
    forall x | x in lhs ensures x in rhs + (if items[n].0 == k then {items[n].1} else {}) {
      var j :| 0 <= j < |items| && items[j].0 == k && items[j].1 == x;
      if j < n {
        assert items[..n][j] == items[j];
      }
    }
    forall x | x in rhs ensures x in lhs {
      var j :| 0 <= j < n && items[..n][j].0 == k && items[..n][j].1 == x;
      assert items[j] == items[..n][j];
    }
  }

  /** The copy kept for an id is one of the copies seen, and no copy seen is
      longer: the record with the longest str() wins. */
  lemma {:induction false} MergeKeepsLongest(d: Dict<Video>, items: seq<(string, Video)>, k: string)
    requires k in MergeVideos(d, items).values
    ensures MergeVideos(d, items).values[k] in Candidates(d, items, k)
    ensures forall c :: c in Candidates(d, items, k) ==> ReprLength(c) <= ReprLength(MergeVideos(d, items).values[k])
  {
    if items != [] {
      var n := |items| - 1;
      var m := MergeVideos(d, items[..n]);
      CandidatesStep(d, items, k);
      if k in m.values {
        MergeKeepsLongest(d, items[..n], k);
      } else {
        assert items[n].0 == k;
        assert Candidates(d, items[..n], k) == {} by {
          if k in d.values {
            MergeVideosKeysIn(d, items[..n], k);
          }
          forall j | 0 <= j < n && items[..n][j].0 == k ensures false {
            MergeVideosKeysIn2(d, items[..n], j);
          }
        }
      }
    }
  }

  lemma {:induction false} MergeVideosKeysIn(d: Dict<Video>, items: seq<(string, Video)>, k: string)
    requires k in d.values
    ensures k in MergeVideos(d, items).values
  {
    if items != [] {
      MergeVideosKeysIn(d, items[..|items| - 1], k);
    }
  }

  lemma {:induction false} MergeVideosKeysIn2(d: Dict<Video>, items: seq<(string, Video)>, j: int)
    requires 0 <= j < |items|
    ensures items[j].0 in MergeVideos(d, items).values
  {
    var n := |items| - 1;
    if j < n {
      MergeVideosKeysIn2(d, items[..n], j);
      assert items[..n][j] == items[j];
    }
  }

  /** On a tie the stored copy stays: if no incoming copy of a stored id is
      strictly longer, the stored copy is kept. */
  lemma {:induction false} MergeTieKeepsStored(d: Dict<Video>, items: seq<(string, Video)>, k: string)
    requires k in d.values
    requires forall j :: 0 <= j < |items| && items[j].0 == k ==> ReprLength(items[j].1) <= ReprLength(d.values[k])
    ensures k in MergeVideos(d, items).values
    ensures MergeVideos(d, items).values[k] == d.values[k]
  {
    MergeVideosKeysIn(d, items, k);
    if items != [] {
      var n := |items| - 1;
      forall j | 0 <= j < n && items[..n][j].0 == k
        ensures ReprLength(items[..n][j].1) <= ReprLength(d.values[k])
      {
        assert items[..n][j] == items[j];
      }
      MergeTieKeepsStored(d, items[..n], k);
    }
  }

  lemma {:induction false} MergeVideosAppend(d: Dict<Video>, a: seq<(string, Video)>, b: seq<(string, Video)>)
    ensures MergeVideos(MergeVideos(d, a), b) == MergeVideos(d, a + b)
    decreases |b|
  {
    if b == [] {
      assert a + b == a;
    } else {
      var n := |b| - 1;
      var ab := a + b;
      assert ab[..|ab| - 1] == a + b[..n];
      assert ab[|ab| - 1] == b[n];
      calc {
        MergeVideos(d, ab);
        KeepLonger(MergeVideos(d, a + b[..n]), b[n].0, b[n].1);
        { MergeVideosAppend(d, a, b[..n]); }
        KeepLonger(MergeVideos(MergeVideos(d, a), b[..n]), b[n].0, b[n].1);
        MergeVideos(MergeVideos(d, a), b);
      }
    }
  }

  /** Merge completeness: merging two batches into an empty dict in either
      order keeps the same copy of an id whose copies all differ in length. */
  lemma MergeOrderIndependent(a: seq<(string, Video)>, b: seq<(string, Video)>, k: string)
    requires k in PairKeys(a) + PairKeys(b)
    requires forall x, y ::
      (x in Candidates(Empty(), a + b, k) && y in Candidates(Empty(), a + b, k) && ReprLength(x) == ReprLength(y)) ==> x == y
    ensures k in MergeVideos(MergeVideos(Empty(), a), b).values
    ensures k in MergeVideos(MergeVideos(Empty(), b), a).values
    ensures MergeVideos(MergeVideos(Empty(), a), b).values[k]
         == MergeVideos(MergeVideos(Empty(), b), a).values[k]
  {
    MergeVideosAppend(Empty(), a, b);
    MergeVideosAppend(Empty(), b, a);
    MergeVideosKeys(Empty(), a + b);
    MergeVideosKeys(Empty(), b + a);
    assert PairKeys(a + b) == PairKeys(a) + PairKeys(b) by {
      PairKeysAppend(a, b);
    }
    assert PairKeys(b + a) == PairKeys(a) + PairKeys(b) by {
      PairKeysAppend(b, a);
    }
    assert Candidates(Empty(), a + b, k) == Candidates(Empty(), b + a, k) by {
      CandidatesAppend(a, b, k);
      CandidatesAppend(b, a, k);
    }
    MergeKeepsLongest(Empty(), a + b, k);
    MergeKeepsLongest(Empty(), b + a, k);
  }

  lemma PairKeysAppend(a: seq<(string, Video)>, b: seq<(string, Video)>)
    ensures PairKeys(a + b) == PairKeys(a) + PairKeys(b)
  {
    forall x | x in PairKeys(a + b) ensures x in PairKeys(a) + PairKeys(b) {
      var j :| 0 <= j < |a + b| && (a + b)[j].0 == x;
      if j >= |a| {
        assert b[j - |a|] == (a + b)[j];
      }
    }
    forall x | x in PairKeys(a) ensures x in PairKeys(a + b) {
      var j :| 0 <= j < |a| && a[j].0 == x;
      assert (a + b)[j] == a[j];
    }
    forall x | x in PairKeys(b) ensures x in PairKeys(a + b) {
      var j :| 0 <= j < |b| && b[j].0 == x;
      assert (a + b)[|a| + j] == b[j];
    }
  }

  lemma CandidatesAppend(a: seq<(string, Video)>, b: seq<(string, Video)>, k: string)
    ensures Candidates(Empty(), a + b, k) == Candidates(Empty(), a, k) + Candidates(Empty(), b, k)
  {
    var ab := a + b;
    forall x | x in Candidates(Empty(), ab, k) ensures x in Candidates(Empty(), a, k) + Candidates(Empty(), b, k) {
      var j :| 0 <= j < |ab| && ab[j].0 == k && ab[j].1 == x;
      if j >= |a| {
        assert b[j - |a|] == ab[j];
      }
    }
    forall x | x in Candidates(Empty(), a, k) ensures x in Candidates(Empty(), ab, k) {
      var j :| 0 <= j < |a| && a[j].0 == k && a[j].1 == x;
      assert ab[j] == a[j];
    }
    forall x | x in Candidates(Empty(), b, k) ensures x in Candidates(Empty(), ab, k) {
      var j :| 0 <= j < |b| && b[j].0 == k && b[j].1 == x;
      assert ab[|a| + j] == b[j];
    }
  }

  // ---------------------------------------------------------------------
  // Cutoff list: append when absent, then sort.
  // ---------------------------------------------------------------------

  function AddCutoff(dates: seq<string>, cutoff: string): seq<string> {
    if cutoff in dates then dates else Sort(dates + [cutoff])
  }

  /** The cutoff is in the new list, and so is every old cutoff, and nothing else. */
  lemma AddCutoffMembers(dates: seq<string>, cutoff: string)
    ensures cutoff in AddCutoff(dates, cutoff)
    ensures forall x :: x in AddCutoff(dates, cutoff) <==> x in dates || x == cutoff
  {
    if cutoff !in dates {
      var r := Sort(dates + [cutoff]);
      forall x ensures x in r <==> x in dates || x == cutoff {
        assert x in r <==> x in multiset(r);
        assert x in dates + [cutoff] <==> x in multiset(dates + [cutoff]);
      }
    }
  }

  /** A sorted duplicate-free cutoff list stays sorted and duplicate-free. */
  lemma AddCutoffSorted(dates: seq<string>, cutoff: string)
    requires Sorted(dates) && Distinct(dates)
    ensures Sorted(AddCutoff(dates, cutoff)) && Distinct(AddCutoff(dates, cutoff))
  {
    if cutoff !in dates {
      AppendFreshDistinct(dates, cutoff);
      SortDistinct(dates + [cutoff]);
    }
  }

  /** Adding the same cutoff twice changes nothing the second time. */
  lemma AddCutoffIdempotent(dates: seq<string>, cutoff: string)
    ensures AddCutoff(AddCutoff(dates, cutoff), cutoff) == AddCutoff(dates, cutoff)
  {
    if cutoff !in dates {
      var r := Sort(dates + [cutoff]);
      assert cutoff in multiset(dates + [cutoff]);
      assert cutoff in multiset(r);
    }
  }

  // ---------------------------------------------------------------------
  // Upload-date range: min and max of the non-empty upload dates.
  // ---------------------------------------------------------------------

  /** The non-empty upload dates of the videos stored under `ks`, in order. */
  function DatesOf(ks: seq<string>, m: map<string, Video>): (r: seq<string>)
    ensures forall x :: x in r ==> x != ""
  {
    if ks == [] then []
    else
      var n := |ks| - 1;
      var rest := DatesOf(ks[..n], m);
      if ks[n] in m && m[ks[n]].uploadDate != "" then rest + [m[ks[n]].uploadDate] else rest
  }

  lemma {:induction false} DatesOfMembers(ks: seq<string>, m: map<string, Video>)
    ensures forall x :: x in DatesOf(ks, m) <==>
      x != "" && exists k :: k in ks && k in m && m[k].uploadDate == x
  {
    if ks != [] {
      var n := |ks| - 1;
      DatesOfMembers(ks[..n], m);
      forall x ensures x in DatesOf(ks, m) <==> x != "" && exists k :: k in ks && k in m && m[k].uploadDate == x {
        if x != "" && exists k :: k in ks && k in m && m[k].uploadDate == x {
          var k :| k in ks && k in m && m[k].uploadDate == x;
          if k != ks[n] {
            assert k in ks[..n];
          }
        }
        if x in DatesOf(ks[..n], m) {
          var k :| k in ks[..n] && k in m && m[k].uploadDate == x;
          assert k in ks;
        }
      }
    }
  }

  /** The `date_range` record of a list of dates (None when empty). */
  function RangeOf(dates: seq<string>): Option<DateRange> {
    if dates == [] then None else Some(DateRange(Some(MinOf(dates)), Some(MaxOf(dates))))
  }

  /** The range's ends are dates of the list, and every date lies between them. */
  lemma RangeOfBounds(dates: seq<string>)
    requires dates != []
    ensures RangeOf(dates).value.earliest.value in dates && RangeOf(dates).value.latest.value in dates
    ensures forall x :: x in dates ==>
      LexLe(RangeOf(dates).value.earliest.value, x) && LexLe(x, RangeOf(dates).value.latest.value)
  {
    MinOfIsLeast(dates);
    MaxOfIsGreatest(dates);
  }

  /** The loop that collects the non-empty upload dates of the stored
      videos, shared by the harvester's merge and the index consolidation. */
  method CollectDates(videos: Dict<Video>) returns (dates: seq<string>)
    ensures dates == DatesOf(videos.keys, videos.values)
  {
    dates := [];
    var j := 0;
    while j < |videos.keys|
      invariant 0 <= j <= |videos.keys|
      invariant dates == DatesOf(videos.keys[..j], videos.values)
    {
      assert videos.keys[..j + 1][..j] == videos.keys[..j];
      if videos.keys[j] in videos.values && videos.values[videos.keys[j]].uploadDate != "" {
        dates := dates + [videos.values[videos.keys[j]].uploadDate];
      }
      j := j + 1;
    }
    assert videos.keys[..j] == videos.keys;
  }
}
