/** The repair tool for unified index files: fields missing after an
    incomplete migration are filled in one by one, the names of the repaired
    fields are collected, and the outcome is reported as true, false or
    Python's `None`. */
module IndexRepair {
  import opened Wrappers
  import opened Seqs
  import opened Text
  import opened Dicts
  import opened IndexModel

  /** A value Python treats as false: a missing (or null) field or an empty list. */
  predicate FalsyList<T>(o: Option<seq<T>>) {
    o == None || o == Some([])
  }

  /** `[name]` when `cond` holds, else nothing. */
  function FlagIf(cond: bool, name: string): seq<string> {
    if cond then [name] else []
  }

  /** The names of the fields a record needs repaired, in checking order. */
  function RepairsNeeded(x: ChannelIndex): seq<string> {
    FlagIf(x.cutoffDates == None, "cutoff_dates")
    + FlagIf(x.indexHistory == None, "index_history")
    + FlagIf(x.currentCutoffDate == None, "current_cutoff_date")
    + FlagIf(x.lastUpdated == None, "last_updated")
    + FlagIf(FalsyList(x.videoIds), "video_ids")
    + FlagIf(x.totalVideos.GetOr(0) != |x.videos.values|, "total_videos")
  }

  /** The legacy cutoff when it is truthy. */
  function LegacyCutoff(x: ChannelIndex): Option<string> {
    if x.cutoffDate.Some? && x.cutoffDate.value != "" then x.cutoffDate else None
  }

  /** Missing `cutoff_dates` comes from a truthy legacy `cutoff_date`. */
  function FillCutoffDates(x: ChannelIndex): ChannelIndex {
    if x.cutoffDates == None then
      x.(cutoffDates := Some(if LegacyCutoff(x).Some? then [LegacyCutoff(x).value] else []))
    else x
  }

  /** Missing `index_history` becomes one entry describing the legacy file. */
  function FillHistory(x: ChannelIndex, now: string): ChannelIndex {
    if x.indexHistory == None then
      x.(indexHistory := Some([HistoryEntry(Some(x.cutoffDate.GetOr("unknown")), Some(x.createdDate.GetOr(now)),
                                            x.totalVideos.GetOr(0), Some("repaired_legacy"))]))
    else x
  }

  /** Missing `current_cutoff_date`: the legacy cutoff, else the latest
      recorded cutoff, else "unknown". */
  function FillCurrentCutoff(x: ChannelIndex): ChannelIndex {
    if x.currentCutoffDate == None then
      x.(currentCutoffDate := Some(
        if LegacyCutoff(x).Some? then LegacyCutoff(x).value
        else if x.cutoffDates.Some? && x.cutoffDates.value != [] then MaxOf(x.cutoffDates.value)
        else "unknown"))
    else x
  }

  function FillLastUpdated(x: ChannelIndex, now: string): ChannelIndex {
    if x.lastUpdated == None then x.(lastUpdated := Some(x.createdDate.GetOr(now))) else x
  }

  function FillVideoIds(x: ChannelIndex): ChannelIndex {
    if FalsyList(x.videoIds) then x.(videoIds := Some(x.videos.keys)) else x
  }

  function FixTotal(x: ChannelIndex): ChannelIndex {
    if x.totalVideos.GetOr(0) != |x.videos.values| then x.(totalVideos := Some(|x.videos.values|)) else x
  }

  /** The record a non-dry run writes; `now` stands for the clock. */
  function Repaired(x: ChannelIndex, now: string): ChannelIndex {
    FixTotal(FillVideoIds(FillLastUpdated(FillCurrentCutoff(FillHistory(FillCutoffDates(x), now)), now)))
  }

  /** `repair_index_file`. `raw` is the parsed file (`None` when it could not
      be read) and `saveOk` whether writing the repaired file succeeds.
      `result` is `Some(b)` for a returned boolean and `None` for Python's
      `None`; `written` is the record written back, if any. */
  method RepairIndexFile(raw: Option<ChannelIndex>, dryRun: bool, now: string, saveOk: bool)
    returns (result: Option<bool>, repairs: seq<string>, written: Option<ChannelIndex>)
    ensures raw == None ==> result == Some(false) && written == None
    ensures raw != None ==> repairs == RepairsNeeded(raw.value)
    ensures raw != None && dryRun ==> written == None && result == (if repairs == [] then Some(true) else None)
    ensures raw != None && !dryRun ==>
      && result == Some(repairs == [] || saveOk)
      && written == (if repairs != [] && saveOk then Some(Repaired(raw.value, now)) else None)
  {
    written := None;
    repairs := [];
    if raw == None {
      return Some(false), repairs, written;
    }
    var data;
    data, repairs := ApplyRepairs(raw.value, dryRun, now);
    if repairs != [] {
      if dryRun {
        result := None;
      } else if saveOk {
        written := Some(data);
        result := Some(true);
      } else {
        result := Some(false);
      }
    } else {
      result := Some(true);
    }
  }

  /** The field-by-field checks of `repair_index_file`; a dry run only
      collects the names. */
  method ApplyRepairs(x: ChannelIndex, dryRun: bool, now: string) returns (data: ChannelIndex, repairs: seq<string>)
    ensures repairs == RepairsNeeded(x)
    ensures data == if dryRun then x else Repaired(x, now)
  {
    data, repairs := CheckCutoffDates(x, [], dryRun);
    assert [] + FlagIf(x.cutoffDates == None, "cutoff_dates") == FlagIf(x.cutoffDates == None, "cutoff_dates");
    assert data.indexHistory == x.indexHistory;
    data, repairs := CheckHistory(data, repairs, dryRun, now);
    assert data.currentCutoffDate == x.currentCutoffDate;
    data, repairs := CheckCurrentCutoff(data, repairs, dryRun);
    assert data.lastUpdated == x.lastUpdated;
    data, repairs := CheckLastUpdated(data, repairs, dryRun, now);
    assert data.videoIds == x.videoIds;
    data, repairs := CheckVideoIds(data, repairs, dryRun);
    assert data.totalVideos == x.totalVideos && data.videos == x.videos;
    data, repairs := CheckTotal(data, repairs, dryRun);
  }

  method CheckCutoffDates(data: ChannelIndex, repairs: seq<string>, dryRun: bool)
    returns (data': ChannelIndex, repairs': seq<string>)
    ensures repairs' == repairs + FlagIf(data.cutoffDates == None, "cutoff_dates")
    ensures data' == if dryRun then data else FillCutoffDates(data)
  {
    data', repairs' := data, repairs;
    if data.cutoffDates == None {
      repairs' := repairs + ["cutoff_dates"];
      if !dryRun {
        var oldCutoff := LegacyCutoff(data);
        data' := data.(cutoffDates := Some(if oldCutoff.Some? then [oldCutoff.value] else []));
      }
    }
  }

  method CheckHistory(data: ChannelIndex, repairs: seq<string>, dryRun: bool, now: string)
    returns (data': ChannelIndex, repairs': seq<string>)
    ensures repairs' == repairs + FlagIf(data.indexHistory == None, "index_history")
    ensures data' == if dryRun then data else FillHistory(data, now)
  {
    data', repairs' := data, repairs;
    if data.indexHistory == None {
      repairs' := repairs + ["index_history"];
      if !dryRun {
        data' := data.(indexHistory := Some([HistoryEntry(Some(data.cutoffDate.GetOr("unknown")),
          Some(data.createdDate.GetOr(now)), data.totalVideos.GetOr(0), Some("repaired_legacy"))]));
      }
    }
  }

  method CheckCurrentCutoff(data: ChannelIndex, repairs: seq<string>, dryRun: bool)
    returns (data': ChannelIndex, repairs': seq<string>)
    ensures repairs' == repairs + FlagIf(data.currentCutoffDate == None, "current_cutoff_date")
    ensures data' == if dryRun then data else FillCurrentCutoff(data)
  {
    data', repairs' := data, repairs;
    if data.currentCutoffDate == None {
      repairs' := repairs + ["current_cutoff_date"];
      if !dryRun {
        var current := if LegacyCutoff(data).Some? then LegacyCutoff(data).value
          else if data.cutoffDates.Some? && data.cutoffDates.value != [] then MaxOf(data.cutoffDates.value)
          else "unknown";
        data' := data.(currentCutoffDate := Some(current));
      }
    }
  }

  method CheckLastUpdated(data: ChannelIndex, repairs: seq<string>, dryRun: bool, now: string)
    returns (data': ChannelIndex, repairs': seq<string>)
    ensures repairs' == repairs + FlagIf(data.lastUpdated == None, "last_updated")
    ensures data' == if dryRun then data else FillLastUpdated(data, now)
  {
    data', repairs' := data, repairs;
    if data.lastUpdated == None {
      repairs' := repairs + ["last_updated"];
      if !dryRun {
        data' := data.(lastUpdated := Some(data.createdDate.GetOr(now)));
      }
    }
  }

  method CheckVideoIds(data: ChannelIndex, repairs: seq<string>, dryRun: bool)
    returns (data': ChannelIndex, repairs': seq<string>)
    ensures repairs' == repairs + FlagIf(FalsyList(data.videoIds), "video_ids")
    ensures data' == if dryRun then data else FillVideoIds(data)
  {
    data', repairs' := data, repairs;
    if FalsyList(data.videoIds) {
      repairs' := repairs + ["video_ids"];
      if !dryRun {
        data' := data.(videoIds := Some(data.videos.keys));
      }
    }
  }

  method CheckTotal(data: ChannelIndex, repairs: seq<string>, dryRun: bool)
    returns (data': ChannelIndex, repairs': seq<string>)
    ensures repairs' == repairs + FlagIf(data.totalVideos.GetOr(0) != |data.videos.values|, "total_videos")
    ensures data' == if dryRun then data else FixTotal(data)
  {
    data', repairs' := data, repairs;
    var actualCount := |data.videos.values|;
    if data.totalVideos.GetOr(0) != actualCount {
      repairs' := repairs + ["total_videos"];
      if !dryRun {
        data' := data.(totalVideos := Some(actualCount));
      }
    }
  }

  /** A record that needs no repair is written back unchanged by a repair. */
  lemma NoRepairsMeansUnchanged(x: ChannelIndex, now: string)
    requires RepairsNeeded(x) == []
    ensures Repaired(x, now) == x
  {
    assert x.cutoffDates != None && x.indexHistory != None;
    assert !FalsyList(x.videoIds);
  }

  /** Fields already present are left alone, and `videos` is never changed. */
  lemma RepairKeepsPresentFields(x: ChannelIndex, now: string)
    ensures Repaired(x, now).videos == x.videos
    ensures x.cutoffDates != None ==> Repaired(x, now).cutoffDates == x.cutoffDates
    ensures x.indexHistory != None ==> Repaired(x, now).indexHistory == x.indexHistory
    ensures x.currentCutoffDate != None ==> Repaired(x, now).currentCutoffDate == x.currentCutoffDate
    ensures x.lastUpdated != None ==> Repaired(x, now).lastUpdated == x.lastUpdated
    ensures !FalsyList(x.videoIds) ==> Repaired(x, now).videoIds == x.videoIds
  {
  }

  /** After a repair every bookkeeping field is present and the count is the
      number of stored videos; `video_ids` lists them when it was rebuilt. */
  lemma RepairedIsComplete(x: ChannelIndex, now: string)
    ensures Repaired(x, now).cutoffDates.Some? && Repaired(x, now).indexHistory.Some?
    ensures Repaired(x, now).currentCutoffDate.Some? && Repaired(x, now).lastUpdated.Some?
    ensures Repaired(x, now).totalVideos.GetOr(0) == |x.videos.values|
    ensures FalsyList(x.videoIds) ==> Repaired(x, now).videoIds == Some(x.videos.keys)
  {
  }

  /** Repair is a fixed point: repairing a repaired record changes nothing,
      whatever the clock. */
  lemma RepairFixedPoint(x: ChannelIndex, now: string, now2: string)
    ensures Repaired(Repaired(x, now), now2) == Repaired(x, now)
  {
    var y := Repaired(x, now);
    RepairedIsComplete(x, now);
    if FalsyList(y.videoIds) {
      assert y.videoIds == Some(x.videos.keys) && x.videos.keys == [];
    }
  }

  /** A second repair still flags `video_ids` exactly when it is empty, which
      happens only for a record with no videos. */
  lemma SecondRunFlags(x: ChannelIndex, now: string)
    ensures RepairsNeeded(Repaired(x, now)) == (if FalsyList(Repaired(x, now).videoIds) then ["video_ids"] else [])
    ensures FalsyList(Repaired(x, now).videoIds) ==> x.videos.keys == []
  {
    RepairedIsComplete(x, now);
  }

  /** The legacy record `{cutoff_date: "2024-01-01", videos}` becomes a
      complete unified record with a one-entry history. */
  lemma RepairLegacyExample(videos: Dict<Video>, created: string, now: string)
    requires Valid(videos)
    ensures var x := ChannelIndex(None, None, Some(created), None, Some("2024-01-01"), None, None, None,
                                  videos, None, None, None);
      && Repaired(x, now).cutoffDates == Some(["2024-01-01"])
      && Repaired(x, now).currentCutoffDate == Some("2024-01-01")
      && Repaired(x, now).indexHistory ==
           Some([HistoryEntry(Some("2024-01-01"), Some(created), 0, Some("repaired_legacy"))])
      && Repaired(x, now).lastUpdated == Some(created)
      && Repaired(x, now).videoIds == Some(videos.keys)
      && Repaired(x, now).totalVideos.GetOr(0) == |videos.keys|
  {
    SizeIsKeyCount(videos);
  }
}
