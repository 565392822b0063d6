/** The harvester's handling of the unified channel index: filling defaults
    on load, recording the cutoff on save, and merging a freshly discovered
    batch of videos into an existing index. */
module IndexStore {
  import opened Wrappers
  import opened Seqs
  import opened Text
  import opened Dicts
  import opened IndexModel

  /** `load_index_file`: `raw` is the parsed `.channel_index.json`, `None`
      when the file is missing or unreadable. Missing bookkeeping fields get
      defaults; `now` stands for the current timestamp. */
  function LoadIndex(raw: Option<ChannelIndex>, cutoff: string, now: string): (r: Option<ChannelIndex>)
    ensures raw == None <==> r == None
    ensures r != None ==>
      && r.value.cutoffDates == Some(raw.value.cutoffDates.GetOr([]))
      && r.value.indexHistory == Some(raw.value.indexHistory.GetOr([]))
      && r.value.currentCutoffDate == Some(raw.value.currentCutoffDate.GetOr(cutoff))
      && r.value.lastUpdated == Some(raw.value.lastUpdated.GetOr(raw.value.createdDate.GetOr(now)))
    ensures r != None ==>
      r.value.(cutoffDates := raw.value.cutoffDates, indexHistory := raw.value.indexHistory,
               currentCutoffDate := raw.value.currentCutoffDate, lastUpdated := raw.value.lastUpdated) == raw.value
  {
    match raw
    case None => None
    case Some(x) =>
      var a := if x.cutoffDates == None then x.(cutoffDates := Some([])) else x;
      var b := if a.indexHistory == None then a.(indexHistory := Some([])) else a;
      var c := if b.currentCutoffDate == None then b.(currentCutoffDate := Some(cutoff)) else b;
      var d := if c.lastUpdated == None then c.(lastUpdated := Some(c.createdDate.GetOr(now))) else c;
      Some(d)
  }

  /** Loading an already loaded record changes nothing, whatever the cutoff
      and clock of the second load. */
  lemma LoadIndexFixedPoint(raw: Option<ChannelIndex>, cutoff: string, now: string, cutoff2: string, now2: string)
    ensures LoadIndex(LoadIndex(raw, cutoff, now), cutoff2, now2) == LoadIndex(raw, cutoff, now)
  {
  }

  /** `save_index_file` as far as the record goes: the cutoff is recorded
      and becomes current, and `last_updated` is the clock. The write itself
      (and its swallowed failure) is not modelled. */
  function SaveIndex(index: ChannelIndex, cutoff: string, now: string): (r: ChannelIndex)
    ensures r.currentCutoffDate == Some(cutoff) && r.lastUpdated == Some(now)
    ensures r.cutoffDates.Some? && cutoff in r.cutoffDates.value
    ensures forall x :: x in index.cutoffDates.GetOr([]) ==> x in r.cutoffDates.value
    ensures r.(cutoffDates := index.cutoffDates, lastUpdated := index.lastUpdated,
               currentCutoffDate := index.currentCutoffDate) == index
  {
    var dates := AddCutoff(index.cutoffDates.GetOr([]), cutoff);
    assert cutoff in dates && forall x :: x in index.cutoffDates.GetOr([]) ==> x in dates by {
      AddCutoffMembers(index.cutoffDates.GetOr([]), cutoff);
    }
    index.(cutoffDates := Some(dates), lastUpdated := Some(now), currentCutoffDate := Some(cutoff))
  }

  /** Saving with a sorted duplicate-free cutoff list keeps it so. */
  lemma SaveIndexKeepsCutoffsSorted(index: ChannelIndex, cutoff: string, now: string)
    requires Sorted(index.cutoffDates.GetOr([])) && Distinct(index.cutoffDates.GetOr([]))
    ensures Sorted(SaveIndex(index, cutoff, now).cutoffDates.value)
    ensures Distinct(SaveIndex(index, cutoff, now).cutoffDates.value)
  {
    AddCutoffSorted(index.cutoffDates.GetOr([]), cutoff);
  }

  /** Saving twice under the same cutoff and clock is saving once. */
  lemma SaveIndexIdempotent(index: ChannelIndex, cutoff: string, now: string)
    ensures SaveIndex(SaveIndex(index, cutoff, now), cutoff, now) == SaveIndex(index, cutoff, now)
  {
    AddCutoffIdempotent(index.cutoffDates.GetOr([]), cutoff);
  }

  /** The (id, record) pairs of a discovered batch, in discovery order. */
  function Pairs(vs: seq<Video>): (r: seq<(string, Video)>)
    ensures |r| == |vs| && forall i :: 0 <= i < |vs| ==> r[i] == (vs[i].id, vs[i])
  {
    seq(|vs|, i requires 0 <= i < |vs| => (vs[i].id, vs[i]))
  }

  /** The ids of a discovered batch. */
  function BatchIds(vs: seq<Video>): set<string> {
    set v | v in vs :: v.id
  }

  lemma PairsKeys(vs: seq<Video>)
    ensures PairKeys(Pairs(vs)) == BatchIds(vs)
  {
    forall x | x in BatchIds(vs) ensures x in PairKeys(Pairs(vs)) {
      var v :| v in vs && v.id == x;
      var j :| 0 <= j < |vs| && vs[j] == v;
      assert Pairs(vs)[j].0 == x;
    }
  }

  /** `update_unified_index`. The stored videos are merged with the batch one
      record at a time, then the bookkeeping fields are recomputed. */
  method UpdateUnifiedIndex(existing: ChannelIndex, newVideos: seq<Video>, cutoff: string, now: string)
    returns (updated: ChannelIndex)
    requires Valid(existing.videos)
    ensures updated.videos == MergeVideos(existing.videos, Pairs(newVideos))
    // The id set is the union of the stored and the incoming ids, and the
    // id list and count describe exactly that set.
    ensures Valid(updated.videos)
    ensures updated.videos.values.Keys == existing.videos.values.Keys + BatchIds(newVideos)
    ensures updated.videoIds == Some(updated.videos.keys)
    ensures updated.totalVideos == Some(|updated.videos.values|)
    ensures updated.lastUpdated == Some(now) && updated.currentCutoffDate == Some(cutoff)
    ensures updated.cutoffDates == Some(AddCutoff(existing.cutoffDates.GetOr([]), cutoff))
    // One history entry for this batch, counting the batch, not the total.
    ensures updated.indexHistory == Some(existing.indexHistory.GetOr([])
      + [HistoryEntry(Some(cutoff), Some(now), |newVideos|, Some("updated_existing"))])
    ensures updated.dateRange ==
      (if DatesOf(updated.videos.keys, updated.videos.values) == [] then existing.dateRange
       else RangeOf(DatesOf(updated.videos.keys, updated.videos.values)))
    ensures updated.channelName == existing.channelName && updated.channelUrl == existing.channelUrl
    ensures updated.createdDate == existing.createdDate && updated.cutoffDate == existing.cutoffDate
  {
    var videos := MergeBatch(existing.videos, newVideos);
    MergeVideosKeys(existing.videos, Pairs(newVideos));
    PairsKeys(newVideos);
    SizeIsKeyCount(videos);

    var history := existing.indexHistory.GetOr([]);
    history := history + [HistoryEntry(Some(cutoff), Some(now), |newVideos|, Some("updated_existing"))];

    var dates := CollectDates(videos);
    updated := existing.(
      videos := videos,
      videoIds := Some(videos.keys),
      totalVideos := Some(|videos.keys|),
      lastUpdated := Some(now),
      currentCutoffDate := Some(cutoff),
      cutoffDates := Some(AddCutoff(existing.cutoffDates.GetOr([]), cutoff)),
      indexHistory := Some(history));
    if dates != [] {
      updated := updated.(dateRange := RangeOf(dates));
    }
  }

  /** The merge loop of `update_unified_index`: each record of the batch in
      turn is inserted, or replaces the stored copy when strictly longer. */
  method MergeBatch(stored: Dict<Video>, newVideos: seq<Video>) returns (videos: Dict<Video>)
    ensures videos == MergeVideos(stored, Pairs(newVideos))
  {
    videos := stored;
    var i := 0;
    while i < |newVideos|
      invariant 0 <= i <= |newVideos|
      invariant videos == MergeVideos(stored, Pairs(newVideos)[..i])
    {
      assert Pairs(newVideos)[..i + 1][..i] == Pairs(newVideos)[..i];
      videos := KeepLonger(videos, newVideos[i].id, newVideos[i]);
      i := i + 1;
    }
    assert Pairs(newVideos)[..i] == Pairs(newVideos);
  }

  /** The merge never loses a video: every id stored before is still stored. */
  lemma UpdateKeepsStoredIds(existing: ChannelIndex, newVideos: seq<Video>, k: string)
    requires Valid(existing.videos) && k in existing.videos.values
    ensures k in MergeVideos(existing.videos, Pairs(newVideos)).values
  {
    MergeVideosKeysIn(existing.videos, Pairs(newVideos), k);
  }

  /** A stored record is replaced only by a strictly longer one: if no copy
      in the batch is longer, the stored copy survives the merge. */
  lemma UpdateTieKeepsStored(existing: ChannelIndex, newVideos: seq<Video>, k: string)
    requires k in existing.videos.values
    requires forall v :: v in newVideos && v.id == k ==> ReprLength(v) <= ReprLength(existing.videos.values[k])
    ensures k in MergeVideos(existing.videos, Pairs(newVideos)).values
    ensures MergeVideos(existing.videos, Pairs(newVideos)).values[k] == existing.videos.values[k]
  {
    var items := Pairs(newVideos);
    forall j | 0 <= j < |items| && items[j].0 == k
      ensures ReprLength(items[j].1) <= ReprLength(existing.videos.values[k])
    {
      assert items[j].1 == newVideos[j];
    }
    MergeTieKeepsStored(existing.videos, items, k);
  }
}
