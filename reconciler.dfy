/** What still has to be downloaded for a channel: the ids the ledger says
    to skip, and the plan that subtracts them from the indexed ids. */
module Reconciler {
  import opened Wrappers
  import opened Seqs
  import opened Dicts
  import opened JsonValue
  import opened IndexModel
  import opened ControlScan

  /** `files.get('audio') or files.get('video')`, kept only when truthy:
      an empty path counts as missing. */
  function MainFile(e: ControlEntry): Option<string> {
    if e.files.audio.Some? && e.files.audio.value != "" then e.files.audio
    else if e.files.video.Some? && e.files.video.value != "" then e.files.video
    else None
  }

  /** The entry's main file exists below the channel folder. */
  predicate OnDisk(e: ControlEntry, present: set<string>) {
    MainFile(e).Some? && MainFile(e).value in present
  }

  /** `get_existing_video_ids` keeps an id whose main file exists, and also
      one whose main file is gone when deleted files are not re-downloaded. */
  predicate Skipped(e: ControlEntry, present: set<string>, redownloadDeleted: bool) {
    MainFile(e).Some? && (MainFile(e).value in present || !redownloadDeleted)
  }

  function SkipSet(m: map<string, ControlEntry>, present: set<string>, redownloadDeleted: bool): set<string> {
    set k | k in m && Skipped(m[k], present, redownloadDeleted)
  }

  function OnDiskSet(m: map<string, ControlEntry>, present: set<string>): set<string> {
    set k | k in m && OnDisk(m[k], present)
  }

  /** `get_existing_video_ids`: the ledger's entries in order; `present`
      holds the relative paths that exist. A missing ledger is an empty one. */
  method GetExistingVideoIds(downloaded: Dict<ControlEntry>, present: set<string>, redownloadDeleted: bool)
    returns (ids: set<string>)
    requires Valid(downloaded)
    ensures ids == SkipSet(downloaded.values, present, redownloadDeleted)
  {
    ids := {};
    var i := 0;
    while i < |downloaded.keys|
      invariant 0 <= i <= |downloaded.keys|
      invariant ids == set k | k in downloaded.keys[..i] && Skipped(downloaded.values[k], present, redownloadDeleted)
    {
      var id := downloaded.keys[i];
      assert forall k :: k in downloaded.keys[..i + 1] <==> k in downloaded.keys[..i] || k == id;
      var main := MainFile(downloaded.values[id]);
      if main.Some? {
        if main.value in present {
          ids := ids + {id};
        } else if !redownloadDeleted {
          ids := ids + {id};
        }
      }
      i := i + 1;
    }
    assert downloaded.keys[..i] == downloaded.keys;
  }

  /** `get_actually_existing_video_ids`. */
  method GetActuallyExistingVideoIds(downloaded: Dict<ControlEntry>, present: set<string>)
    returns (ids: set<string>)
    requires Valid(downloaded)
    ensures ids == OnDiskSet(downloaded.values, present)
  {
    ids := {};
    var i := 0;
    while i < |downloaded.keys|
      invariant 0 <= i <= |downloaded.keys|
      invariant ids == set k | k in downloaded.keys[..i] && OnDisk(downloaded.values[k], present)
    {
      var id := downloaded.keys[i];
      assert forall k :: k in downloaded.keys[..i + 1] <==> k in downloaded.keys[..i] || k == id;
      var main := MainFile(downloaded.values[id]);
      if main.Some? && main.value in present {
        ids := ids + {id};
      }
      i := i + 1;
    }
    assert downloaded.keys[..i] == downloaded.keys;
  }

  /** The two skip sets are nested inside the recorded ids: what is on disk
      is skipped in either mode, and with re-download on, exactly that is. */
  lemma SkipSetsNested(m: map<string, ControlEntry>, present: set<string>)
    ensures OnDiskSet(m, present) <= SkipSet(m, present, false) <= m.Keys
    ensures SkipSet(m, present, true) == OnDiskSet(m, present)
  {
  }

  /** An entry with neither an audio nor a video path is never skipped,
      so it is planned again. */
  lemma NoMainFileNeverSkipped(m: map<string, ControlEntry>, present: set<string>, k: string, redownloadDeleted: bool)
    requires k in m && (m[k].files.audio.None? || m[k].files.audio.value == "")
    requires m[k].files.video.None? || m[k].files.video.value == ""
    ensures k !in SkipSet(m, present, redownloadDeleted) && k !in OnDiskSet(m, present)
  {
  }

  /** The audio path is the one checked when there is one: a present video
      file does not save an entry whose audio file is gone. */
  lemma AudioCheckedFirst(m: map<string, ControlEntry>, present: set<string>, k: string)
    requires k in m && m[k].files.audio.Some? && m[k].files.audio.value != ""
    requires m[k].files.audio.value !in present
    ensures k !in OnDiskSet(m, present)
  {
  }

  /** The skip set `download_channel_with_index` uses: on-disk ids when the
      config's `redownload_deleted` is truthy, otherwise every recorded id
      with a main file. */
  function SkipFor(redownloadDeleted: Json, m: map<string, ControlEntry>, present: set<string>): set<string> {
    if Truthy(redownloadDeleted) then OnDiskSet(m, present) else SkipSet(m, present, false)
  }

  /** `set(index.get('video_ids', []))`. */
  function IndexedIds(index: ChannelIndex): set<string> {
    set id | id in index.videoIds.GetOr([])
  }

  /** The ids to download. */
  function Plan(index: ChannelIndex, ledger: Dict<ControlEntry>, present: set<string>, skipExisting: bool, redownloadDeleted: Json): (r: set<string>)
    ensures r <= IndexedIds(index)
    ensures !skipExisting ==> r == IndexedIds(index)
    ensures skipExisting ==> forall id :: id in r <==> id in IndexedIds(index) && id !in SkipFor(redownloadDeleted, ledger.values, present)
  {
    if skipExisting then IndexedIds(index) - SkipFor(redownloadDeleted, ledger.values, present)
    else IndexedIds(index)
  }

  /** Re-downloading deleted files can only enlarge the plan. */
  lemma PlanGrowsWithRedownload(index: ChannelIndex, ledger: Dict<ControlEntry>, present: set<string>, skipExisting: bool)
    ensures Plan(index, ledger, present, skipExisting, JBool(false)) <= Plan(index, ledger, present, skipExisting, JBool(true))
  {
    SkipSetsNested(ledger.values, present);
  }

  /** An id recorded in the ledger whose main file is gone is planned again
      exactly when deleted files are re-downloaded. */
  lemma DeletedPlannedIff(index: ChannelIndex, ledger: Dict<ControlEntry>, present: set<string>, redownloadDeleted: Json, k: string)
    requires k in IndexedIds(index) && k in ledger.values
    requires MainFile(ledger.values[k]).Some? && MainFile(ledger.values[k]).value !in present
    ensures k in Plan(index, ledger, present, true, redownloadDeleted) <==> Truthy(redownloadDeleted)
  {
  }

  /** The ids that yield a download URL: planned, indexed, with a non-empty
      `webpage_url`. */
  function UrlIds(plan: set<string>, videos: map<string, Video>): set<string> {
    set id | id in plan && id in videos && videos[id].webpageUrl != ""
  }

  /** The URL loop over the plan. Set iteration order is not fixed, so the
      method also returns the ids in the order it took them. */
  method DownloadUrls(plan: set<string>, videos: map<string, Video>) returns (urls: seq<string>, ids: seq<string>)
    ensures |ids| == |urls| && Distinct(ids)
    ensures forall id :: id in ids <==> id in UrlIds(plan, videos)
    ensures forall i :: 0 <= i < |ids| ==> ids[i] in videos && urls[i] == videos[ids[i]].webpageUrl
    ensures forall i :: 0 <= i < |urls| ==> urls[i] != ""
  {
    urls, ids := [], [];
    var rest := plan;
    while rest != {}
      invariant rest <= plan
      invariant |ids| == |urls| && Distinct(ids)
      invariant forall id :: id in ids <==> id in UrlIds(plan - rest, videos)
      invariant forall i :: 0 <= i < |ids| ==> ids[i] in videos && urls[i] == videos[ids[i]].webpageUrl
      invariant forall i :: 0 <= i < |urls| ==> urls[i] != ""
      decreases |rest|
    {
      var id :| id in rest;
      if id in videos && videos[id].webpageUrl != "" {
        AppendFreshDistinct(ids, id);
        urls := urls + [videos[id].webpageUrl];
        ids := ids + [id];
      }
      rest := rest - {id};
    }
  }
}
