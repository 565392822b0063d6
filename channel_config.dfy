/** Checking one channel's configuration record, and choosing which
    configured channels a run processes. */
module ChannelConfig {
  import opened Wrappers
  import opened Text
  import opened JsonValue

  /** What `validate_channel_config` does with a record: returns True,
      returns False, or raises (a non-string `cutoff_date` makes `strptime`
      raise a TypeError that the `except ValueError` does not catch). */
  datatype Verdict = Accepted | Rejected | Raises

  const RequiredFields: seq<string> := ["url", "channel_name", "content_type", "cutoff_date"]
  const FlagFields: seq<string> := ["download_metadata", "download_transcript", "redownload_deleted"]

  function MissingRequired(config: map<string, Json>, fields: seq<string>): (r: bool)
    ensures !r <==> forall f :: f in fields ==> f in config
  {
    if fields == [] then false
    else fields[0] !in config || MissingRequired(config, fields[1..])
  }

  function BadFlag(config: map<string, Json>, fields: seq<string>): bool {
    if fields == [] then false
    else (fields[0] in config && !config[fields[0]].JBool?) || BadFlag(config, fields[1..])
  }

  /** The first language that is not a string of at least two characters
      rejects the list. */
  function BadLanguage(langs: seq<Json>): bool {
    if langs == [] then false
    else !langs[0].JStr? || |langs[0].s| < 2 || BadLanguage(langs[1..])
  }

  /** `validate_channel_config`, checks in source order. `isDate` stands for
      `strptime(s, "%Y-%m-%d")` succeeding. */
  function Validate(config: map<string, Json>, isDate: string -> bool): Verdict {
    if MissingRequired(config, RequiredFields) then Rejected
    else if config["content_type"] != JStr("audio") && config["content_type"] != JStr("video") then Rejected
    else if !config["cutoff_date"].JStr? then Raises
    else if !isDate(config["cutoff_date"].s) then Rejected
    else if BadFlag(config, FlagFields) then Rejected
    else if "summarize" in config && config["summarize"] != JStr("yes") && config["summarize"] != JStr("no") then Rejected
    else if "transcript_languages" in config
         && (!config["transcript_languages"].JList? || BadLanguage(config["transcript_languages"].items)) then Rejected
    else Accepted
  }

  /** The rules a record must meet, stated field by field. */
  predicate WellFormed(config: map<string, Json>, isDate: string -> bool) {
    && "url" in config && "channel_name" in config && "content_type" in config && "cutoff_date" in config
    && config["content_type"] in {JStr("audio"), JStr("video")}
    && config["cutoff_date"].JStr? && isDate(config["cutoff_date"].s)
    && (forall f :: f in FlagFields && f in config ==> config[f].JBool?)
    && ("summarize" in config ==> config["summarize"] in {JStr("yes"), JStr("no")})
    && ("transcript_languages" in config ==>
          config["transcript_languages"].JList?
          && forall l :: l in config["transcript_languages"].items ==> l.JStr? && |l.s| >= 2)
  }

  lemma {:induction false} BadFlagIff(config: map<string, Json>, fields: seq<string>)
    ensures BadFlag(config, fields) <==> exists f :: f in fields && f in config && !config[f].JBool?
  {
    if fields != [] {
      BadFlagIff(config, fields[1..]);
      assert forall f :: f in fields <==> f == fields[0] || f in fields[1..];
    }
  }

  lemma {:induction false} BadLanguageIff(langs: seq<Json>)
    ensures BadLanguage(langs) <==> exists l :: l in langs && !(l.JStr? && |l.s| >= 2)
  {
    if langs != [] {
      BadLanguageIff(langs[1..]);
      assert forall l :: l in langs <==> l == langs[0] || l in langs[1..];
    }
  }

  /** A record is accepted exactly when it meets every rule. */
  lemma ValidateAcceptsIff(config: map<string, Json>, isDate: string -> bool)
    ensures Validate(config, isDate) == Accepted <==> WellFormed(config, isDate)
  {
    RequiredIff(config);
    FlagsIff(config);
    if "transcript_languages" in config && config["transcript_languages"].JList? {
      BadLanguageIff(config["transcript_languages"].items);
    }
  }

  lemma RequiredIff(config: map<string, Json>)
    ensures !MissingRequired(config, RequiredFields) <==>
      "url" in config && "channel_name" in config && "content_type" in config && "cutoff_date" in config
  {
    assert RequiredFields[0] in RequiredFields && RequiredFields[1] in RequiredFields;
    assert RequiredFields[2] in RequiredFields && RequiredFields[3] in RequiredFields;
  }

  lemma FlagsIff(config: map<string, Json>)
    ensures !BadFlag(config, FlagFields) <==> forall f :: f in FlagFields && f in config ==> config[f].JBool?
  {
    BadFlagIff(config, FlagFields);
  }

  /** Validation raises exactly when the required fields are there, the
      content type is right, and the cutoff date is not a string. */
  lemma ValidateRaisesIff(config: map<string, Json>, isDate: string -> bool)
    ensures Validate(config, isDate) == Raises <==>
      && (forall f :: f in RequiredFields ==> f in config)
      && config["content_type"] in {JStr("audio"), JStr("video")}
      && !config["cutoff_date"].JStr?
  {
  }

  // ---------------------------------------------------------------------
  // Selecting channels
  // ---------------------------------------------------------------------

  /** `config.get('channel_name', '')`; a non-string name is not modelled. */
  function NameOf(config: map<string, Json>): string {
    if "channel_name" in config && config["channel_name"].JStr? then config["channel_name"].s else ""
  }

  /** The configs whose lower-cased name is among the lower-cased selection. */
  function FilterSelected(configs: seq<map<string, Json>>, selectedLower: seq<string>): (r: seq<map<string, Json>>)
    ensures |r| <= |configs|
    ensures forall c :: c in r ==> c in configs && Lower(NameOf(c)) in selectedLower
  {
    if configs == [] then []
    else
      var n := |configs| - 1;
      FilterSelected(configs[..n], selectedLower)
      + (if Lower(NameOf(configs[n])) in selectedLower then [configs[n]] else [])
  }

  function LowerAll(names: seq<string>): (r: seq<string>)
    ensures |r| == |names| && forall i :: 0 <= i < |names| ==> r[i] == Lower(names[i])
  {
    if names == [] then [] else [Lower(names[0])] + LowerAll(names[1..])
  }

  /** The channels `process_channels_batch` goes on to process; None stands
      for its early `return {}`. `maxChannels` is applied as `[:max_channels]`
      when non-zero, so a negative value drops channels from the end. */
  function SelectChannels(configs: seq<map<string, Json>>, selected: seq<string>, maxChannels: int): Option<seq<map<string, Json>>> {
    if configs == [] then None
    else
      var chosen := if selected != [] then FilterSelected(configs, LowerAll(selected)) else configs;
      if chosen == [] then None
      else if maxChannels != 0 then Some(PrefixSlice(chosen, maxChannels))
      else Some(chosen)
  }

  /** A config is kept by the filter exactly when its name matches a
      selected name regardless of ASCII case. */
  lemma {:induction false} FilterSelectedIff(configs: seq<map<string, Json>>, selectedLower: seq<string>, c: map<string, Json>)
    ensures c in FilterSelected(configs, selectedLower) <==> c in configs && Lower(NameOf(c)) in selectedLower
  {
    if configs != [] {
      var n := |configs| - 1;
      FilterSelectedIff(configs[..n], selectedLower, c);
      assert configs == configs[..n] + [configs[n]];
      assert c in configs <==> c in configs[..n] || c == configs[n];
    }
  }

  /** Every channel processed is in the configuration, matches the selection
      when one is given, and a positive limit bounds how many there are. */
  lemma SelectChannelsProps(configs: seq<map<string, Json>>, selected: seq<string>, maxChannels: int)
    ensures configs == [] ==> SelectChannels(configs, selected, maxChannels).None?
    ensures SelectChannels(configs, selected, maxChannels).Some? ==>
      var r := SelectChannels(configs, selected, maxChannels).value;
      && (forall c :: c in r ==> c in configs)
      && (selected != [] ==> forall c :: c in r ==> exists s :: s in selected && Lower(s) == Lower(NameOf(c)))
      && (maxChannels > 0 ==> |r| <= maxChannels)
      && (maxChannels == 0 && selected == [] ==> r == configs)
  {
    if configs != [] && SelectChannels(configs, selected, maxChannels).Some? {
      var lowered := LowerAll(selected);
      var chosen := if selected != [] then FilterSelected(configs, lowered) else configs;
      var r := SelectChannels(configs, selected, maxChannels).value;
      assert forall c :: c in r ==> c in chosen;
      if selected != [] {
        forall c | c in r ensures exists s :: s in selected && Lower(s) == Lower(NameOf(c)) {
          var i :| 0 <= i < |lowered| && lowered[i] == Lower(NameOf(c));
          assert selected[i] in selected;
        }
      }
    }
  }
}
