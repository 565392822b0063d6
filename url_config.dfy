/** Turning a list of channel URLs into channel configuration records
    (`convert_urls_to_config`), with the channel name each record is filed
    under (`extract_channel_name`). */
module UrlConfig {
  import opened Text
  import opened JsonValue
  import opened ChannelConfig

  // ---------------------------------------------------------------------
  // extract_channel_name
  // ---------------------------------------------------------------------

  /** Trailing slashes stripped, then every `/videos` removed in one
      left-to-right pass. */
  function CleanUrl(url: string): string {
    Replace(RStripChar(url, '/'), "/videos", "")
  }

  /** `u.split(sep)[-1]`. */
  function LastPiece(u: string, sep: string): string
    requires |sep| > 0
  {
    var parts := Split(u, sep);
    parts[|parts| - 1]
  }

  /** The channel identifier: after the last `/@`, else after the last
      `/c/`, else after the last `/channel/`, else after the last `/`. */
  function Identifier(u: string): string {
    if Contains(u, "/@") then LastPiece(u, "/@")
    else if Contains(u, "/c/") then LastPiece(u, "/c/")
    else if Contains(u, "/channel/") then LastPiece(u, "/channel/")
    else LastPiece(u, "/")
  }

  /** The two percent-encodings the program decodes, in its order. */
  function Decode(id: string): string {
    Replace(Replace(id, "%C5%9A", "S"), "%C4%99", "e")
  }

  /** `\w` of a regular expression on text: ASCII letters and digits, `_`,
      and (see README) any non-ASCII character. */
  predicate IsWordChar(c: char) {
    'a' <= c <= 'z' || 'A' <= c <= 'Z' || '0' <= c <= '9' || c == '_' || c > '\U{007F}'
  }

  /** The characters `[\w\-_.]` keeps. */
  predicate Allowed(c: char) {
    IsWordChar(c) || c == '-' || c == '.'
  }

  /** `re.sub(r'[^\w\-_.]', '_', s)`. */
  function Sanitize(s: string): (r: string)
    ensures |r| == |s| && forall i :: 0 <= i < |s| ==> r[i] == if Allowed(s[i]) then s[i] else '_'
  {
    seq(|s|, i requires 0 <= i < |s| => if Allowed(s[i]) then s[i] else '_')
  }

  /** `re.sub(r'_+', '_', s)`: each run of underscores becomes one. */
  function Collapse(s: string): string {
    if |s| <= 1 then s
    else if s[|s| - 1] == '_' && s[|s| - 2] == '_' then Collapse(s[..|s| - 1])
    else Collapse(s[..|s| - 1]) + [s[|s| - 1]]
  }

  predicate NoDoubleUnderscore(s: string) {
    forall i :: 0 <= i < |s| - 1 ==> !(s[i] == '_' && s[i + 1] == '_')
  }

  /** The characters of `s` other than underscores, in order. */
  function NonUnderscores(s: string): string {
    if s == [] then []
    else NonUnderscores(s[..|s| - 1]) + (if s[|s| - 1] == '_' then [] else [s[|s| - 1]])
  }

  /** Collapsing leaves no double underscore and keeps the first and
      last characters. */
  lemma {:induction false} CollapseShape(s: string)
    ensures var r := Collapse(s);
      && NoDoubleUnderscore(r)
      && |r| <= |s| && (|s| > 0 ==> |r| > 0 && r[0] == s[0] && r[|r| - 1] == s[|s| - 1])
  {
    if |s| > 1 {
      CollapseShape(s[..|s| - 1]);
    }
  }

  /** Collapsing removes nothing but underscores. */
  lemma {:induction false} CollapseNonUnderscores(s: string)
    ensures NonUnderscores(Collapse(s)) == NonUnderscores(s)
  {
    if |s| > 1 {
      var n := |s| - 1;
      var p := s[..n];
      CollapseNonUnderscores(p);
      var q := Collapse(p);
      if !(s[n] == '_' && s[n - 1] == '_') {
        var r := q + [s[n]];
        assert r[..|r| - 1] == q;
      }
    }
  }

  /** Collapsing adds no new character. */
  lemma {:induction false} CollapseSubset(s: string)
    ensures forall c :: c in Collapse(s) ==> c in s
  {
    if |s| > 1 {
      var p := s[..|s| - 1];
      CollapseSubset(p);
      assert forall c :: c in p ==> c in s;
    }
  }

  /** A string with no double underscore is left as it is. */
  lemma {:induction false} CollapseIdentity(s: string)
    requires NoDoubleUnderscore(s)
    ensures Collapse(s) == s
  {
    if |s| > 1 {
      var p := s[..|s| - 1];
      assert NoDoubleUnderscore(p) by {
        forall i | 0 <= i < |p| - 1 ensures !(p[i] == '_' && p[i + 1] == '_') {
          assert p[i] == s[i] && p[i + 1] == s[i + 1];
        }
      }
      CollapseIdentity(p);
      assert !(s[|s| - 2] == '_' && s[|s| - 1] == '_');
    }
  }

  function CapitalizeAll(words: seq<string>): (r: seq<string>)
    ensures |r| == |words|
  {
    if words == [] then [] else [Capitalize(words[0])] + CapitalizeAll(words[1..])
  }

  /** `'_'.join(word.capitalize() for word in s.split('_'))`. */
  function CapitalizeWords(s: string): string {
    Join(CapitalizeAll(Split(s, "_")), "_")
  }

  /** What capitalising the words of `s` puts at position `i`: the
      character upper-cased when it begins a word, lower-cased otherwise. */
  function CapitalizedAt(s: string, i: int): char
    requires 0 <= i < |s|
  {
    if i == 0 || s[i - 1] == '_' then UpperChar(s[i]) else LowerChar(s[i])
  }

  /** Capitalising the words works character by character and keeps every
      underscore where it was. */
  lemma {:induction false} CapitalizeWordsAt(s: string)
    ensures |CapitalizeWords(s)| == |s|
    ensures forall i :: 0 <= i < |s| ==> CapitalizeWords(s)[i] == CapitalizedAt(s, i)
    decreases |s|
  {
    var f := Find(s, "_");
    if f.None? {
      assert Split(s, "_") == [s];
      assert forall k :: 0 <= k < |s| ==> s[k] != '_' by {
        forall k | 0 <= k < |s| ensures s[k] != '_' {
          assert !IsAt(s, "_", k);
          assert s[k..k + 1] == [s[k]];
        }
      }
      assert CapitalizeAll([s]) == [Capitalize(s)];
    } else {
      var i := f.value;
      var rest := s[i + 1..];
      assert CapitalizeWords(s) == Capitalize(s[..i]) + "_" + CapitalizeWords(rest) by {
        var tail := Split(rest, "_");
        assert Split(s, "_") == [s[..i]] + tail;
        assert CapitalizeAll([s[..i]] + tail) == [Capitalize(s[..i])] + CapitalizeAll(tail);
        JoinCons(Capitalize(s[..i]), CapitalizeAll(tail), "_");
      }
      assert forall k :: 0 <= k < i ==> s[k] != '_' by {
        forall k | 0 <= k < i ensures s[k] != '_' {
          assert !IsAt(s, "_", k);
          assert s[k..k + 1] == [s[k]];
        }
      }
      assert s[i] == '_' by {
        assert IsAt(s, "_", i);
        assert s[i..i + 1] == [s[i]];
      }
      CapitalizeWordsAt(rest);
      CapitalizeJoined(s, i, CapitalizeWords(rest));
    }
  }

  /** The first word capitalised, the underscore, then a string holding
      what capitalising the words after it puts at each position. */
  lemma CapitalizeJoined(s: string, i: nat, rr: string)
    requires i < |s| && s[i] == '_' && forall k :: 0 <= k < i ==> s[k] != '_'
    requires |rr| == |s| - i - 1 && forall k :: 0 <= k < |rr| ==> rr[k] == CapitalizedAt(s[i + 1..], k)
    ensures var r := Capitalize(s[..i]) + "_" + rr;
      |r| == |s| && forall j :: 0 <= j < |s| ==> r[j] == CapitalizedAt(s, j)
  {
    var r := Capitalize(s[..i]) + "_" + rr;
    forall j | 0 <= j < |s| ensures r[j] == CapitalizedAt(s, j) {
      if j < i {
        assert r[j] == Capitalize(s[..i])[j];
      } else if j == i {
        assert r[j] == '_';
      } else {
        assert r[j] == rr[j - i - 1];
        assert j - i - 1 == 0 || s[i + 1..][j - i - 2] == s[j - 1];
      }
    }
  }

  /** The cleaned identifier before capitalisation. */
  function Cleaned(url: string): string {
    StripChar(Collapse(Sanitize(Decode(Identifier(CleanUrl(url))))), '_')
  }

  /** `extract_channel_name(url)`. */
  function ExtractChannelName(url: string): string {
    CapitalizeWords(Cleaned(url))
  }

  /** `s.strip(c)` is a contiguous piece of `s`. */
  lemma StripCharInside(s: string, c: char) returns (k: nat)
    ensures k + |StripChar(s, c)| <= |s| && StripChar(s, c) == s[k..k + |StripChar(s, c)|]
  {
    var l := LStripChar(s, c);
    var r := RStripChar(l, c);
    k := |s| - |l|;
    assert l == s[k..];
    assert r == l[..|r|];
  }

  /** Collapsing and stripping underscores from a string of kept
      characters leaves kept characters, no double underscore, and no
      leading or trailing underscore. */
  lemma CollapseStrip(s: string)
    requires forall i :: 0 <= i < |s| ==> Allowed(s[i])
    ensures WellFormedName(StripChar(Collapse(s), '_'))
  {
    CollapseAllowed(s);
    CollapseShape(s);
    StripWellFormed(Collapse(s));
  }

  lemma CollapseAllowed(s: string)
    requires forall i :: 0 <= i < |s| ==> Allowed(s[i])
    ensures forall i :: 0 <= i < |Collapse(s)| ==> Allowed(Collapse(s)[i])
  {
    var collapsed := Collapse(s);
    CollapseSubset(s);
    forall i | 0 <= i < |collapsed| ensures Allowed(collapsed[i]) {
      assert collapsed[i] in collapsed;
      var j :| 0 <= j < |s| && s[j] == collapsed[i];
    }
  }

  /** Stripping the underscores from a string of kept characters with no
      double underscore leaves a well-formed name. */
  lemma StripWellFormed(s: string)
    requires forall i :: 0 <= i < |s| ==> Allowed(s[i])
    requires NoDoubleUnderscore(s)
    ensures WellFormedName(StripChar(s, '_'))
  {
    var k := StripCharInside(s, '_');
    InnerSlice(s, StripChar(s, '_'), k);
  }

  /** A slice of a string of kept characters with no double underscore,
      neither starting nor ending with an underscore, is well-formed. */
  lemma InnerSlice(s: string, t: string, k: nat)
    requires forall i :: 0 <= i < |s| ==> Allowed(s[i])
    requires NoDoubleUnderscore(s)
    requires k + |t| <= |s| && t == s[k..k + |t|]
    requires t == [] || (t[0] != '_' && t[|t| - 1] != '_')
    ensures WellFormedName(t)
  {
    forall i | 0 <= i < |t| ensures Allowed(t[i]) {
      assert t[i] == s[k + i];
    }
    forall i | 0 <= i < |t| - 1 ensures !(t[i] == '_' && t[i + 1] == '_') {
      assert t[i] == s[k + i] && t[i + 1] == s[k + i + 1];
    }
  }

  /** The cleaned identifier is made of kept characters, has no double
      underscore, and neither starts nor ends with one. */
  lemma CleanedProps(url: string)
    ensures WellFormedName(Cleaned(url))
  {
    CollapseStrip(Sanitize(Decode(Identifier(CleanUrl(url)))));
  }

  /** A channel name is well-formed: every character is a word character,
      `-` or `.`; there is no double underscore and no leading or trailing
      underscore. */
  predicate WellFormedName(t: string) {
    && (forall i :: 0 <= i < |t| ==> Allowed(t[i]))
    && NoDoubleUnderscore(t)
    && (t == [] || (t[0] != '_' && t[|t| - 1] != '_'))
  }

  /** Capitalising the words of a well-formed name keeps it well-formed,
      leaves each word capitalised, and changes only case. */
  lemma CapitalizeWordsProps(t: string)
    requires WellFormedName(t)
    ensures var r := CapitalizeWords(t);
      && WellFormedName(r)
      && (forall i :: 0 <= i < |r| ==> r[i] == CapitalizedAt(r, i))
      && Lower(r) == Lower(t)
  {
    CapitalizeWordsAt(t);
    CapitalizedProps(t, CapitalizeWords(t));
  }

  /** A string holding at each position what capitalising the words of a
      well-formed name puts there. */
  lemma CapitalizedProps(t: string, r: string)
    requires WellFormedName(t)
    requires |r| == |t| && forall i :: 0 <= i < |t| ==> r[i] == CapitalizedAt(t, i)
    ensures WellFormedName(r)
    ensures forall i :: 0 <= i < |r| ==> r[i] == CapitalizedAt(r, i)
    ensures Lower(r) == Lower(t)
  {
    forall i | 0 <= i < |r|
      ensures Allowed(r[i]) && (r[i] == '_' <==> t[i] == '_') && LowerChar(r[i]) == LowerChar(t[i])
    {
      CaseKeeps(t[i]);
    }
    forall i | 0 <= i < |r| ensures r[i] == CapitalizedAt(r, i) {
      CaseIdempotent(t[i]);
    }
  }

  /** Changing case keeps a character kept, an underscore an underscore,
      and the lower-case form. */
  lemma CaseKeeps(c: char)
    requires Allowed(c)
    ensures Allowed(UpperChar(c)) && Allowed(LowerChar(c))
    ensures (UpperChar(c) == '_' <==> c == '_') && (LowerChar(c) == '_' <==> c == '_')
    ensures LowerChar(UpperChar(c)) == LowerChar(c) && LowerChar(LowerChar(c)) == LowerChar(c)
  {
  }

  /** Every channel name is well-formed, each of its `_`-separated words
      is capitalised (upper-case first letter, lower-case rest), and up to
      case it is the cleaned identifier. */
  lemma ExtractChannelNameProps(url: string)
    ensures var r := ExtractChannelName(url);
      && WellFormedName(r)
      && (forall i :: 0 <= i < |r| ==> r[i] == CapitalizedAt(r, i))
      && Lower(r) == Lower(Cleaned(url))
  {
    CleanedProps(url);
    CapitalizeWordsProps(Cleaned(url));
  }

  /** Where the identifier comes from: the text after the last marker of
      the first kind present, which holds no such marker itself. */
  lemma IdentifierProps(u: string)
    ensures var id := Identifier(u);
      && (Contains(u, "/@") ==> EndsWith(u, "/@" + id) && !Contains(id, "/@"))
      && (!Contains(u, "/@") && Contains(u, "/c/") ==> EndsWith(u, "/c/" + id) && !Contains(id, "/c/"))
      && (!Contains(u, "/@") && !Contains(u, "/c/") && Contains(u, "/channel/") ==>
            EndsWith(u, "/channel/" + id) && !Contains(id, "/channel/"))
      && (!Contains(u, "/@") && !Contains(u, "/c/") && !Contains(u, "/channel/") ==>
            !Contains(id, "/") && (Contains(u, "/") ==> EndsWith(u, "/" + id)) && (!Contains(u, "/") ==> id == u))
  {
    if Contains(u, "/@") {
      MarkerPiece(u, "/@");
    } else if Contains(u, "/c/") {
      MarkerPiece(u, "/c/");
    } else if Contains(u, "/channel/") {
      MarkerPiece(u, "/channel/");
    } else {
      assert Identifier(u) == LastPiece(u, "/");
      if Contains(u, "/") {
        MarkerPiece(u, "/");
      } else {
        LastPieceFree(u, "/");
        SplitNotFound(u, "/");
      }
    }
  }

  /** The piece after the last marker of a string holding one ends the
      string, right after the marker, and holds no marker. */
  lemma MarkerPiece(u: string, sep: string)
    requires |sep| > 0 && Contains(u, sep)
    ensures EndsWith(u, sep + LastPiece(u, sep)) && !Contains(LastPiece(u, sep), sep)
  {
    LastPieceFree(u, sep);
    LastPieceEnds(u, sep);
  }

  // ---------------------------------------------------------------------
  // convert_urls_to_config
  // ---------------------------------------------------------------------

  const DefaultCutoff: string := "2025-08-01"
  const OutputFormat: string := "%(upload_date)s_%(channel_name)s_%(title)s"

  /** The input lines, stripped, blank ones dropped. */
  function NonBlank(lines: seq<string>): (r: seq<string>)
    ensures |r| <= |lines|
  {
    Trimmed(lines, Strip)
  }

  /** The lines after `trim`, the empty ones dropped. */
  function Trimmed(lines: seq<string>, trim: string -> string): (r: seq<string>)
    ensures |r| <= |lines|
  {
    if lines == [] then []
    else Trimmed(lines[..|lines| - 1], trim) + (if trim(lines[|lines| - 1]) != "" then [trim(lines[|lines| - 1])] else [])
  }

  /** `Https://` is rewritten to `https://` (every occurrence); a URL not
      starting with `http` gets `https://` in front. */
  function NormalizeUrl(url: string): string {
    if StartsWith(url, "Https://") then Replace(url, "Https://", "https://")
    else if !StartsWith(url, "http") then "https://" + url
    else url
  }

  /** Every normalised URL starts with `http`; one that started with
      `Https://` now starts with `https://`, followed by the rest with the
      same rewriting; one starting with `http` is left alone. */
  lemma NormalizeUrlProps(url: string)
    ensures StartsWith(NormalizeUrl(url), "http")
    ensures StartsWith(url, "Https://") ==>
      NormalizeUrl(url) == "https://" + Replace(url[8..], "Https://", "https://")
    ensures StartsWith(url, "http") ==> NormalizeUrl(url) == url
    ensures !StartsWith(url, "Https://") && !StartsWith(url, "http") ==> NormalizeUrl(url) == "https://" + url
  {
    if StartsWith(url, "Https://") {
      ReplaceFront(url, "Https://", "https://");
      assert ("https://" + Replace(url[8..], "Https://", "https://"))[..4] == "http";
      assert url[..8][0] == url[0] == url[..4][0];
    }
  }

  /** The record written for one URL filed under channel `name`. */
  function Record(url: string, name: string, cutoff: string): map<string, Json> {
    map[
      "url" := JStr(url),
      "channel_name" := JStr(name),
      "content_type" := JStr("audio"),
      "cutoff_date" := JStr(cutoff),
      "output_format" := JStr(OutputFormat),
      "output_directory" := JStr("downloads/" + name),
      "download_metadata" := JBool(true),
      "download_transcript" := JBool(true),
      "transcript_languages" := JList([JStr("en"), JStr("pl")]),
      "redownload_deleted" := JBool(false)
    ]
  }

  /** The records for all URLs, in input order, each filed under the name
      `nameOf` gives its normalised URL (`extract_channel_name` in the
      program). */
  function Records(urls: seq<string>, cutoff: string, nameOf: string -> string): (r: seq<map<string, Json>>)
    ensures |r| == |urls|
  {
    if urls == [] then []
    else
      var url := NormalizeUrl(urls[|urls| - 1]);
      Records(urls[..|urls| - 1], cutoff, nameOf) + [Record(url, nameOf(url), cutoff)]
  }

  /** `convert_urls_to_config`: the records it writes for the lines read. */
  method ConvertUrlsToConfig(lines: seq<string>, cutoff: string) returns (configs: seq<map<string, Json>>)
    ensures configs == Records(NonBlank(lines), cutoff, ExtractChannelName)
  {
    configs := RecordLoop(NonBlank(lines), cutoff, ExtractChannelName);
  }

  /** The loop of `convert_urls_to_config` over the non-blank lines. */
  method RecordLoop(urls: seq<string>, cutoff: string, nameOf: string -> string) returns (configs: seq<map<string, Json>>)
    ensures configs == Records(urls, cutoff, nameOf)
  {
    configs := [];
    for i := 0 to |urls|
      invariant configs == Records(urls[..i], cutoff, nameOf)
    {
      assert urls[..i + 1][..i] == urls[..i];
      var url := NormalizeUrl(urls[i]);
      configs := configs + [Record(url, nameOf(url), cutoff)];
    }
    assert urls[..|urls|] == urls;
  }

  /** One record per non-blank line, in order: the record of the
      normalised line filed under that URL's name. */
  lemma {:induction false} RecordsAt(urls: seq<string>, cutoff: string, nameOf: string -> string)
    ensures forall i :: 0 <= i < |urls| ==>
      Records(urls, cutoff, nameOf)[i] == Record(NormalizeUrl(urls[i]), nameOf(NormalizeUrl(urls[i])), cutoff)
  {
    if urls != [] {
      var n := |urls| - 1;
      RecordsAt(urls[..n], cutoff, nameOf);
      assert forall i :: 0 <= i < n ==> urls[..n][i] == urls[i];
    }
  }

  /** The non-blank lines are the stripped lines that are not empty, in
      order. */
  lemma NonBlankProps(lines: seq<string>)
    ensures forall u :: u in NonBlank(lines) ==> u != "" && exists l :: l in lines && Strip(l) == u
    ensures forall l :: l in lines && Strip(l) != "" ==> Strip(l) in NonBlank(lines)
  {
    TrimmedProps(lines, Strip);
  }

  lemma {:induction false} TrimmedProps(lines: seq<string>, trim: string -> string)
    ensures forall u :: u in Trimmed(lines, trim) ==> u != "" && exists l :: l in lines && trim(l) == u
    ensures forall l :: l in lines && trim(l) != "" ==> trim(l) in Trimmed(lines, trim)
  {
    if lines != [] {
      var n := |lines| - 1;
      TrimmedProps(lines[..n], trim);
      assert forall l :: l in lines <==> l in lines[..n] || l == lines[n];
    }
  }

  lemma RecordRequired(url: string, name: string, cutoff: string)
    ensures !MissingRequired(Record(url, name, cutoff), RequiredFields)
  {
    var rec := Record(url, name, cutoff);
    assert "url" in rec && "channel_name" in rec && "content_type" in rec && "cutoff_date" in rec;
  }

  lemma RecordFlags(url: string, name: string, cutoff: string)
    ensures !BadFlag(Record(url, name, cutoff), FlagFields)
  {
    var rec := Record(url, name, cutoff);
    BadFlagIff(rec, FlagFields);
    assert rec["download_metadata"].JBool? && rec["download_transcript"].JBool? && rec["redownload_deleted"].JBool?;
  }

  /** A generated record passes `validate_channel_config` exactly when the
      cutoff date parses. */
  lemma RecordValidates(url: string, name: string, cutoff: string, isDate: string -> bool)
    ensures Validate(Record(url, name, cutoff), isDate) == Accepted <==> isDate(cutoff)
  {
    var rec := Record(url, name, cutoff);
    RecordRequired(url, name, cutoff);
    RecordFlags(url, name, cutoff);
    assert rec["transcript_languages"].items == [JStr("en"), JStr("pl")];
    assert !BadLanguage([JStr("pl")]);
  }
}
