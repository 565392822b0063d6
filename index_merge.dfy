/** Consolidation of the legacy per-cutoff index files
    (`.channel_index_<cutoff>.json`) of one channel into a unified index,
    and the source-file bookkeeping done when it is saved. */
module IndexMerge {
  import opened Wrappers
  import opened Seqs
  import opened Text
  import opened Dicts
  import opened IndexModel

  /** The indexes that loaded: a file that could not be read, or that held an
      empty object, is `None` and is skipped. */
  function Loaded(loads: seq<Option<ChannelIndex>>): (r: seq<ChannelIndex>)
    ensures |r| <= |loads|
    ensures forall x :: x in r <==> Some(x) in loads
  {
    if loads == [] then []
    else
      var n := |loads| - 1;
      var rest := Loaded(loads[..n]);
      assert forall o :: o in loads <==> o in loads[..n] || o == loads[n];
      match loads[n]
      case None => rest
      case Some(x) => rest + [x]
  }

  /** The key the base index is chosen by: `created_date`, or "" when missing. */
  function CreatedKey(x: ChannelIndex): string {
    x.createdDate.GetOr("")
  }

  /** Python's `max` with a key: scanning left to right, a later element
      replaces the best so far only when its key is strictly greater. */
  function MaxByCreated(s: seq<ChannelIndex>): ChannelIndex
    requires |s| > 0
  {
    if |s| == 1 then s[0]
    else
      var b := MaxByCreated(s[..|s| - 1]);
      if LexLe(CreatedKey(s[|s| - 1]), CreatedKey(b)) then b else s[|s| - 1]
  }

  /** The base index has the greatest creation date, and it is the first
      index with that date. */
  lemma {:induction false} MaxByCreatedIsFirstGreatest(s: seq<ChannelIndex>)
    requires |s| > 0
    ensures exists i :: (0 <= i < |s| && s[i] == MaxByCreated(s)
      && (forall j :: 0 <= j < |s| ==> LexLe(CreatedKey(s[j]), CreatedKey(MaxByCreated(s))))
      && (forall j :: 0 <= j < i ==> !LexLe(CreatedKey(MaxByCreated(s)), CreatedKey(s[j]))))
  {
    var r := MaxByCreated(s);
    if |s| == 1 {
      LexLeRefl(CreatedKey(s[0]));
      assert s[0] == r;
    } else {
      var n := |s| - 1;
      var p := s[..n];
      MaxByCreatedIsFirstGreatest(p);
      var b := MaxByCreated(p);
      var i0 :| 0 <= i0 < n && p[i0] == b
        && (forall j :: 0 <= j < n ==> LexLe(CreatedKey(p[j]), CreatedKey(b)))
        && (forall j :: 0 <= j < i0 ==> !LexLe(CreatedKey(b), CreatedKey(p[j])));
      if LexLe(CreatedKey(s[n]), CreatedKey(b)) {
        assert s[i0] == r;
        forall j | 0 <= j < |s| ensures LexLe(CreatedKey(s[j]), CreatedKey(r)) {
          if j < n {
            assert p[j] == s[j];
          }
        }
        forall j | 0 <= j < i0 ensures !LexLe(CreatedKey(r), CreatedKey(s[j])) {
          assert p[j] == s[j];
        }
      } else {
        LexLeTotal(CreatedKey(s[n]), CreatedKey(b));
        forall j | 0 <= j < |s| ensures LexLe(CreatedKey(s[j]), CreatedKey(r)) {
          if j < n {
            assert p[j] == s[j];
            LexLeTrans(CreatedKey(s[j]), CreatedKey(b), CreatedKey(s[n]));
          } else {
            LexLeRefl(CreatedKey(s[n]));
          }
        }
        forall j | 0 <= j < n ensures !LexLe(CreatedKey(r), CreatedKey(s[j])) {
          assert p[j] == s[j];
          if LexLe(CreatedKey(s[n]), CreatedKey(s[j])) {
            LexLeTrans(CreatedKey(s[n]), CreatedKey(s[j]), CreatedKey(b));
          }
        }
        assert s[n] == r;
      }
    }
  }

  /** The (id, record) pairs of a stored videos dict, in key order. */
  function DictItems(ks: seq<string>, m: map<string, Video>): seq<(string, Video)> {
    if ks == [] then []
    else
      var n := |ks| - 1;
      DictItems(ks[..n], m) + (if ks[n] in m then [(ks[n], m[ks[n]])] else [])
  }

  /** Every (id, record) pair of every loaded index, in file order. */
  function AllItems(indexes: seq<ChannelIndex>): seq<(string, Video)> {
    if indexes == [] then []
    else
      var n := |indexes| - 1;
      AllItems(indexes[..n]) + DictItems(indexes[n].videos.keys, indexes[n].videos.values)
  }

  lemma {:induction false} DictItemsKeys(ks: seq<string>, m: map<string, Video>)
    ensures PairKeys(DictItems(ks, m)) == set k | k in ks && k in m
  {
    if ks != [] {
      var n := |ks| - 1;
      DictItemsKeys(ks[..n], m);
      PairKeysAppend(DictItems(ks[..n], m), if ks[n] in m then [(ks[n], m[ks[n]])] else []);
      assert forall k :: k in ks <==> k in ks[..n] || k == ks[n];
      if ks[n] in m {
        assert PairKeys([(ks[n], m[ks[n]])]) == {ks[n]} by {
          assert [(ks[n], m[ks[n]])][0].0 == ks[n];
        }
      }
    }
  }

  /** Every id stored by one of the indexes. */
  function StoredIds(indexes: seq<ChannelIndex>): set<string> {
    set x, k | x in indexes && k in x.videos.values :: k
  }

  /** The ids of the merged videos: every id stored by a loaded index. */
  lemma {:induction false} AllItemsKeys(indexes: seq<ChannelIndex>)
    requires forall x :: x in indexes ==> Valid(x.videos)
    ensures PairKeys(AllItems(indexes)) == StoredIds(indexes)
  {
    if indexes != [] {
      var n := |indexes| - 1;
      var x := indexes[n];
      AllItemsKeys(indexes[..n]);
      DictItemsKeys(x.videos.keys, x.videos.values);
      PairKeysAppend(AllItems(indexes[..n]), DictItems(x.videos.keys, x.videos.values));
      assert forall y :: y in indexes <==> y in indexes[..n] || y == x;
      assert (set k | k in x.videos.keys && k in x.videos.values) == x.videos.values.Keys;
    }
  }

  /** The truthy legacy `cutoff_date` values of the loaded indexes. */
  function CutoffSet(indexes: seq<ChannelIndex>): set<string> {
    set x | x in indexes && x.cutoffDate.Some? && x.cutoffDate.value != "" :: x.cutoffDate.value
  }

  lemma CutoffSetStep(indexes: seq<ChannelIndex>, i: int)
    requires 0 <= i < |indexes|
    ensures CutoffSet(indexes[..i + 1]) == CutoffSet(indexes[..i])
      + (if indexes[i].cutoffDate.Some? && indexes[i].cutoffDate.value != "" then {indexes[i].cutoffDate.value} else {})
  {
    assert forall y :: y in indexes[..i + 1] <==> y in indexes[..i] || y == indexes[i];
  }

  /** The history entry recorded for one loaded index. */
  function HistoryOf(x: ChannelIndex): HistoryEntry {
    HistoryEntry(x.cutoffDate, x.createdDate, x.totalVideos.GetOr(0), None)
  }

  /** The merge loop over the loaded indexes: videos (longer record wins),
      cutoff dates (each once) and one history entry per index. */
  method MergeLoaded(indexes: seq<ChannelIndex>)
    returns (videos: Dict<Video>, cutoffs: seq<string>, history: seq<HistoryEntry>)
    ensures videos == MergeVideos(Empty(), AllItems(indexes))
    ensures Distinct(cutoffs) && (set c | c in cutoffs) == CutoffSet(indexes)
    ensures |history| == |indexes| && forall i :: 0 <= i < |indexes| ==> history[i] == HistoryOf(indexes[i])
  {
    videos := Empty();
    cutoffs := [];
    history := [];
    var i := 0;
    while i < |indexes|
      invariant 0 <= i <= |indexes|
      invariant videos == MergeVideos(Empty(), AllItems(indexes[..i]))
      invariant Distinct(cutoffs) && (set c | c in cutoffs) == CutoffSet(indexes[..i])
      invariant |history| == i && forall j :: 0 <= j < i ==> history[j] == HistoryOf(indexes[j])
    {
      var x := indexes[i];
      assert indexes[..i + 1][..i] == indexes[..i];
      assert forall y :: y in indexes[..i + 1] <==> y in indexes[..i] || y == x;
      CutoffSetStep(indexes, i);
      if x.cutoffDate.Some? && x.cutoffDate.value != "" && x.cutoffDate.value !in cutoffs {
        cutoffs := cutoffs + [x.cutoffDate.value];
      }
      history := history + [HistoryOf(x)];
      videos := MergeOne(videos, AllItems(indexes[..i]), x.videos);
      i := i + 1;
    }
    assert indexes[..i] == indexes;
  }

  /** The inner loop: the records of one index, in key order. */
  method MergeOne(videos: Dict<Video>, ghost before: seq<(string, Video)>, d: Dict<Video>)
    returns (r: Dict<Video>)
    requires videos == MergeVideos(Empty(), before)
    ensures r == MergeVideos(Empty(), before + DictItems(d.keys, d.values))
  {
    r := videos;
    var j := 0;
    assert before + DictItems(d.keys[..0], d.values) == before;
    while j < |d.keys|
      invariant 0 <= j <= |d.keys|
      invariant r == MergeVideos(Empty(), before + DictItems(d.keys[..j], d.values))
    {
      var k := d.keys[j];
      MergeOneStep(before, d.keys, d.values, j);
      if k in d.values {
        r := KeepLonger(r, k, d.values[k]);
      }
      j := j + 1;
    }
    assert d.keys[..j] == d.keys;
  }

  /** One more key of the inner loop merges one more record, when the key
      has one. */
  lemma MergeOneStep(before: seq<(string, Video)>, ks: seq<string>, m: map<string, Video>, j: nat)
    requires j < |ks|
    ensures var prev := MergeVideos(Empty(), before + DictItems(ks[..j], m));
      MergeVideos(Empty(), before + DictItems(ks[..j + 1], m))
        == if ks[j] in m then KeepLonger(prev, ks[j], m[ks[j]]) else prev
  {
    var a := before + DictItems(ks[..j], m);
    assert ks[..j + 1][..j] == ks[..j];
    if ks[j] in m {
      var item := (ks[j], m[ks[j]]);
      assert before + DictItems(ks[..j + 1], m) == a + [item];
      assert (a + [item])[..|a + [item]| - 1] == a;
    } else {
      assert before + DictItems(ks[..j + 1], m) == a;
    }
  }

  /** The base index, chosen as Python's `max` does. */
  method PickBase(indexes: seq<ChannelIndex>) returns (base: ChannelIndex)
    requires |indexes| > 0
    ensures base == MaxByCreated(indexes)
  {
    base := indexes[0];
    var i := 1;
    while i < |indexes|
      invariant 1 <= i <= |indexes|
      invariant base == MaxByCreated(indexes[..i])
    {
      assert indexes[..i + 1][..i] == indexes[..i];
      if !LexLe(CreatedKey(indexes[i]), CreatedKey(base)) {
        base := indexes[i];
      }
      i := i + 1;
    }
    assert indexes[..i] == indexes;
  }

  /** The loop that keeps the indexes that loaded. */
  method LoadAll(loads: seq<Option<ChannelIndex>>) returns (indexes: seq<ChannelIndex>)
    ensures indexes == Loaded(loads)
  {
    indexes := [];
    var i := 0;
    while i < |loads|
      invariant 0 <= i <= |loads|
      invariant indexes == Loaded(loads[..i])
    {
      assert loads[..i + 1][..i] == loads[..i];
      if loads[i].Some? {
        indexes := indexes + [loads[i].value];
      }
      i := i + 1;
    }
    assert loads[..i] == loads;
  }

  /** The merged videos form a well-formed dictionary holding every stored
      id, one key per id. */
  lemma MergedVideosProps(indexes: seq<ChannelIndex>)
    requires forall x :: x in indexes ==> Valid(x.videos)
    ensures var videos := MergeVideos(Empty(), AllItems(indexes));
      Valid(videos) && videos.values.Keys == StoredIds(indexes) && |videos.values| == |videos.keys|
  {
    MergeVideosKeys(Empty(), AllItems(indexes));
    AllItemsKeys(indexes);
    SizeIsKeyCount(MergeVideos(Empty(), AllItems(indexes)));
  }

  /** Sorting distinct cutoff dates keeps them distinct and the same set. */
  lemma SortedCutoffs(cutoffs: seq<string>, all: set<string>)
    requires Distinct(cutoffs) && (set c | c in cutoffs) == all
    ensures Sorted(Sort(cutoffs)) && Distinct(Sort(cutoffs))
    ensures forall c :: c in Sort(cutoffs) <==> c in all
  {
    SortDistinct(cutoffs);
    var sorted := Sort(cutoffs);
    forall c ensures c in sorted <==> c in all {
      assert c in sorted <==> c in multiset(sorted);
      assert c in cutoffs <==> c in multiset(cutoffs);
    }
  }

  /** `merge_channel_indexes`: `loads` holds the parse of each file in
      order; `None` as a result is the empty object returned when nothing
      loaded. */
  method MergeChannelIndexes(loads: seq<Option<ChannelIndex>>, now: string)
    returns (r: Option<ChannelIndex>)
    requires forall o :: o in loads && o.Some? ==> Valid(o.value.videos)
    ensures r == None <==> Loaded(loads) == []
    ensures r.Some? ==>
      var base := MaxByCreated(Loaded(loads));
      && r.value.channelName == Some(base.channelName.GetOr(""))
      && r.value.channelUrl == Some(base.channelUrl.GetOr(""))
      && r.value.createdDate == Some(now) && r.value.lastUpdated == Some(now)
    // Every stored id of every loaded index is kept, with a record of
    // maximal serialized length.
    ensures r.Some? ==>
      && r.value.videos == MergeVideos(Empty(), AllItems(Loaded(loads)))
      && Valid(r.value.videos)
      && r.value.videos.values.Keys == StoredIds(Loaded(loads))
      && r.value.videoIds == Some(r.value.videos.keys)
      && r.value.totalVideos == Some(|r.value.videos.values|)
    ensures r.Some? ==>
      && r.value.cutoffDates.Some?
      && Sorted(r.value.cutoffDates.value) && Distinct(r.value.cutoffDates.value)
      && (forall c :: c in r.value.cutoffDates.value <==> c in CutoffSet(Loaded(loads)))
    ensures r.Some? ==>
      && r.value.indexHistory.Some?
      && |r.value.indexHistory.value| == |Loaded(loads)|
      && forall i :: 0 <= i < |Loaded(loads)| ==> r.value.indexHistory.value[i] == HistoryOf(Loaded(loads)[i])
    ensures r.Some? ==>
      var dates := DatesOf(r.value.videos.keys, r.value.videos.values);
      r.value.dateRange == Some(if dates == [] then DateRange(None, None) else RangeOf(dates).value)
  {
    var indexes := LoadAll(loads);
    if indexes == [] {
      return None;
    }
    var base := PickBase(indexes);
    var videos, cutoffs, history := MergeLoaded(indexes);
    MergedVideosProps(indexes);
    var sorted := Sort(cutoffs);
    SortedCutoffs(cutoffs, CutoffSet(indexes));
    var dates := CollectDates(videos);
    var range := if dates == [] then DateRange(None, None) else RangeOf(dates).value;
    r := Some(ChannelIndex(
      channelName := Some(base.channelName.GetOr("")),
      channelUrl := Some(base.channelUrl.GetOr("")),
      createdDate := Some(now),
      lastUpdated := Some(now),
      cutoffDate := None,
      cutoffDates := Some(sorted),
      currentCutoffDate := None,
      indexHistory := Some(history),
      videos := videos,
      videoIds := Some(videos.keys),
      totalVideos := Some(|videos.keys|),
      dateRange := Some(range)));
  }

  /** A merged record is one of the copies seen, and no copy of that id in
      any loaded index is longer. */
  lemma MergedCopyIsLongest(loads: seq<Option<ChannelIndex>>, k: string)
    requires k in MergeVideos(Empty(), AllItems(Loaded(loads))).values
    ensures MergeVideos(Empty(), AllItems(Loaded(loads))).values[k] in Candidates(Empty(), AllItems(Loaded(loads)), k)
    ensures forall c :: c in Candidates(Empty(), AllItems(Loaded(loads)), k) ==>
      ReprLength(c) <= ReprLength(MergeVideos(Empty(), AllItems(Loaded(loads))).values[k])
  {
    MergeKeepsLongest(Empty(), AllItems(Loaded(loads)), k);
  }

  // ---------------------------------------------------------------------
  // save_unified_index: history entry i is labelled with file name i.
  // ---------------------------------------------------------------------

  /** The loop of `save_unified_index` that labels history entries with
      the original file names, position by position. */
  method AssignSourceFiles(history: seq<HistoryEntry>, names: seq<string>) returns (r: seq<HistoryEntry>)
    ensures |r| == |history|
    ensures forall i :: 0 <= i < |history| ==>
      r[i] == if i < |names| then history[i].(sourceFile := Some(names[i])) else history[i]
  {
    r := history;
    var i := 0;
    while i < |r|
      invariant 0 <= i <= |r| && |r| == |history|
      invariant forall j :: 0 <= j < |history| ==>
        r[j] == if j < i && j < |names| then history[j].(sourceFile := Some(names[j])) else history[j]
    {
      if i < |names| {
        r := r[i := r[i].(sourceFile := Some(names[i]))];
      }
      i := i + 1;
    }
  }

  /** Labelling by position: the history entry for file `names[1]` gets the
      name `names[0]` when the first file failed to load. */
  lemma SourceFileShift(x: ChannelIndex)
    ensures Loaded([None, Some(x)]) == [x]
    ensures |SourcesByPosition([HistoryOf(x)], ["a.json", "b.json"])| == 1
    ensures SourcesByPosition([HistoryOf(x)], ["a.json", "b.json"])[0].sourceFile == Some("a.json")
  {
    assert [None, Some(x)][..1] == [None];
  }

  /** What `AssignSourceFiles` computes. */
  function SourcesByPosition(history: seq<HistoryEntry>, names: seq<string>): (r: seq<HistoryEntry>)
    ensures |r| == |history|
  {
    seq(|history|, i requires 0 <= i < |history| =>
      if i < |names| then history[i].(sourceFile := Some(names[i])) else history[i])
  }

  /** The names of the files that loaded, in file order. */
  function LoadedNames(names: seq<string>, loads: seq<Option<ChannelIndex>>): (r: seq<string>)
    requires |names| == |loads|
    ensures |r| == |Loaded(loads)|
    ensures forall i :: 0 <= i < |r| ==>
      exists j :: 0 <= j < |loads| && names[j] == r[i] && loads[j] == Some(Loaded(loads)[i])
  {
    if loads == [] then []
    else
      var n := |loads| - 1;
      var rest := LoadedNames(names[..n], loads[..n]);
      assert forall i :: 0 <= i < |rest| ==>
        exists j :: 0 <= j < n && names[j] == rest[i] && loads[j] == Some(Loaded(loads[..n])[i]) ;
      if loads[n].Some? then rest + [names[n]] else rest
  }

  /** Labelling each entry with the name of the file it came from: every
      history entry carries the name of a file whose load produced that
      very index. */
  lemma SourcesOfLoadedAreOwnFiles(names: seq<string>, loads: seq<Option<ChannelIndex>>)
    requires |names| == |loads|
    ensures |SourcesByPosition(HistoriesOf(Loaded(loads)), LoadedNames(names, loads))| == |Loaded(loads)|
    ensures forall i :: 0 <= i < |Loaded(loads)| ==>
      exists j :: (0 <= j < |loads| && loads[j] == Some(Loaded(loads)[i])
        && SourcesByPosition(HistoriesOf(Loaded(loads)), LoadedNames(names, loads))[i]
           == HistoryOf(Loaded(loads)[i]).(sourceFile := Some(names[j])))
  {
    var ln := LoadedNames(names, loads);
    forall i | 0 <= i < |Loaded(loads)|
      ensures exists j :: (0 <= j < |loads| && loads[j] == Some(Loaded(loads)[i])
        && SourcesByPosition(HistoriesOf(Loaded(loads)), ln)[i] == HistoryOf(Loaded(loads)[i]).(sourceFile := Some(names[j])))
    {
      var j :| 0 <= j < |loads| && names[j] == ln[i] && loads[j] == Some(Loaded(loads)[i]);
      assert SourcesByPosition(HistoriesOf(Loaded(loads)), ln)[i] == HistoryOf(Loaded(loads)[i]).(sourceFile := Some(names[j]));
    }
  }

  /** One history entry per loaded index, as the merge records them. */
  function HistoriesOf(indexes: seq<ChannelIndex>): (r: seq<HistoryEntry>)
    ensures |r| == |indexes| && forall i :: 0 <= i < |indexes| ==> r[i] == HistoryOf(indexes[i])
  {
    seq(|indexes|, i requires 0 <= i < |indexes| => HistoryOf(indexes[i]))
  }
}
