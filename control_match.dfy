/** `find_matching_files`: given the name of a downloaded item's
    `.info.json` and the listing of the folder holding it, find the files that
    belong to the same item. A folder is its list of file names in listing
    order; "exists" is membership in that list. */
module ControlMatch {
  import opened Wrappers
  import opened Seqs
  import opened Text
  import opened ShellPatterns

  const AudioExts: seq<string> := [".mp3", ".m4a", ".wav", ".opus"]
  const VideoExts: seq<string> := [".mp4", ".webm", ".mkv", ".avi"]
  const ThumbnailExts: seq<string> := [".jpg", ".jpeg", ".png", ".webp"]
  const SubtitleLangs: seq<string> := ["en", "pl", "auto"]
  const SubtitleExts: seq<string> := ["srt", "vtt", "ass", "ssa"]

  /** The info file's name without `.info.json` (every occurrence removed). */
  function BaseName(info: string): string {
    Replace(info, ".info.json", "")
  }

  /** The base name without `.info` (every occurrence removed). */
  function AltBaseName(info: string): string {
    Replace(BaseName(info), ".info", "")
  }

  /** `b + s` for each suffix `s` in order. */
  function Suffixed(b: string, suffixes: seq<string>): (r: seq<string>)
    ensures |r| == |suffixes| && forall i :: 0 <= i < |r| ==> r[i] == b + suffixes[i]
  {
    seq(|suffixes|, i requires 0 <= i < |suffixes| => b + suffixes[i])
  }

  /** The candidates of the nested loops "for base in [base, alt]: for ext in exts". */
  function Names(base: string, alt: string, exts: seq<string>): seq<string> {
    Suffixed(base, exts) + Suffixed(alt, exts)
  }

  /** The candidates that exist, in candidate order (repeats kept). */
  function Existing(cands: seq<string>, files: seq<string>): (r: seq<string>)
    ensures |r| <= |cands|
  {
    if cands == [] then []
    else
      var n := |cands| - 1;
      Existing(cands[..n], files) + (if cands[n] in files then [cands[n]] else [])
  }

  lemma {:induction false} ExistingMembers(cands: seq<string>, files: seq<string>)
    ensures forall x :: x in Existing(cands, files) <==> x in cands && x in files
  {
    if cands != [] {
      var n := |cands| - 1;
      ExistingMembers(cands[..n], files);
      assert forall x :: x in cands <==> x in cands[..n] || x == cands[n];
    }
  }

  lemma {:induction false} ExistingAppend(a: seq<string>, b: seq<string>, files: seq<string>)
    ensures Existing(a + b, files) == Existing(a, files) + Existing(b, files)
    decreases |b|
  {
    if b == [] {
      assert a + b == a;
    } else {
      var n := |b| - 1;
      ExistingAppend(a, b[..n], files);
      assert (a + b)[..|a + b| - 1] == a + b[..n];
      assert (a + b)[|a + b| - 1] == b[n];
    }
  }

  /** The first candidate that exists: what a loop over the candidates
      that stops at the first existing file finds. */
  function FirstExisting(cands: seq<string>, files: seq<string>): (r: Option<string>)
    ensures r.Some? ==> r.value in cands && r.value in files
    ensures r.None? ==> forall c :: c in cands ==> c !in files
  {
    ExistingMembers(cands, files);
    var e := Existing(cands, files);
    if e == [] then None else Some(e[0])
  }

  /** The file found is the first existing candidate: no earlier candidate exists. */
  lemma {:induction false} FirstExistingIsFirst(cands: seq<string>, files: seq<string>, i: int)
    requires 0 <= i < |cands| && cands[i] in files
    requires forall j :: 0 <= j < i ==> cands[j] !in files
    ensures FirstExisting(cands, files) == Some(cands[i])
  {
    ExistingAppend(cands[..i], cands[i..], files);
    assert cands == cands[..i] + cands[i..];
    ExistingMembers(cands[..i], files);
    ExistingAppend([cands[i]], cands[i + 1..], files);
    assert cands[i..] == [cands[i]] + cands[i + 1..];
    assert [cands[i]][..0] == [];
    assert Existing([cands[i]], files) == [cands[i]];
  }

  /** The list without repeats, each name kept at its first occurrence. */
  function Dedup(s: seq<string>): (r: seq<string>)
    ensures Distinct(r)
    ensures forall x :: x in r <==> x in s
  {
    if s == [] then []
    else
      var n := |s| - 1;
      var d := Dedup(s[..n]);
      assert forall x :: x in s <==> x in s[..n] || x == s[n];
      if s[n] in d then d else d + [s[n]]
  }

  /** The names `{base}.*.srt` is meant to find: `base`, a dot, anything,
      then `.srt`, with `base` read as plain text. */
  predicate MatchesLangSrt(name: string, base: string) {
    |name| >= |base| + 5 && name[..|base| + 1] == base + "." && name[|name| - 4..] == ".srt"
  }

  /** The files of the listing that match `{base}.*.srt` with `base` read
      as plain text, in listing order (`GlobLangSrtEscaped`). */
  function GlobLangSrt(files: seq<string>, base: string): (r: seq<string>)
    ensures forall x :: x in r <==> x in files && MatchesLangSrt(x, base)
  {
    if files == [] then []
    else
      var n := |files| - 1;
      assert forall x :: x in files <==> x in files[..n] || x == files[n];
      GlobLangSrt(files[..n], base) + (if MatchesLangSrt(files[n], base) then [files[n]] else [])
  }

  /** The two globs of the subtitle search as written: the title is pasted
      into the pattern, so any `[`, `*` or `?` in it acts as a pattern
      character. */
  function SubtitleGlobsAsWritten(b: string, files: seq<string>): seq<string> {
    Glob(files, b + ".*.srt") + Glob(files, b + ".srt")
  }

  /** The same globs with the title escaped (`glob.escape`). */
  function SubtitleGlobs(b: string, files: seq<string>): seq<string> {
    Glob(files, Escape(b) + ".*.srt") + Glob(files, Escape(b) + ".srt")
  }

  /** `.*.srt` after an escaped base matches `base`, a dot, anything, `.srt`. */
  lemma LangSrtPattern(base: string, n: string)
    ensures Fnmatch(Escape(base) + ".*.srt", n) <==> MatchesLangSrt(n, base)
  {
    var k := |base|;
    EscapedPrefix(base, ".*.srt", n);
    if MatchesLangSrt(n, base) {
      assert n[..k] == n[..k + 1][..k];
    }
    if |n| >= k && n[..k] == base {
      var m := n[k..];
      var q := ".*.srt";
      assert q[0] == '.' && q[1..] == "*" + ".srt";
      PlainStep('.', q[1..], m);
      assert [q[0]] + q[1..] == q;
      assert NoMeta(".srt");
      if m != [] {
        StarLiteral(".srt", m[1..]);
        if |m[1..]| >= 4 {
          assert m[1..][|m[1..]| - 4..] == n[|n| - 4..];
        }
        assert n[..k + 1] == base + [m[0]] by {
          assert n[..k + 1] == n[..k] + [n[k]];
        }
        assert [m[0]] == "." <==> m[0] == '.';
      }
    }
  }

  /** `.srt` after an escaped base matches exactly `base + ".srt"`. */
  lemma PlainSrtPattern(base: string, n: string)
    ensures Fnmatch(Escape(base) + ".srt", n) <==> n == base + ".srt"
  {
    EscapedPrefix(base, ".srt", n);
    assert NoMeta(".srt");
    if |n| >= |base| {
      LiteralMatch(".srt", n[|base|..]);
      assert n == n[..|base|] + n[|base|..];
    }
  }

  lemma {:induction false} GlobLangSrtEscaped(files: seq<string>, base: string)
    ensures GlobLangSrt(files, base) == Glob(files, Escape(base) + ".*.srt")
  {
    if files != [] {
      var n := |files| - 1;
      GlobLangSrtEscaped(files[..n], base);
      LangSrtPattern(base, files[n]);
    }
  }

  /** With the title escaped, the globs find exactly the names the search is
      after: `base.<anything>.srt` and `base.srt`, when listed. */
  lemma SubtitleGlobsProps(b: string, files: seq<string>)
    ensures forall x :: x in SubtitleGlobs(b, files) <==> x in files && (MatchesLangSrt(x, b) || x == b + ".srt")
    ensures GlobLangSrt(files, b) == Glob(files, Escape(b) + ".*.srt")
  {
    forall x ensures x in SubtitleGlobs(b, files) <==> x in files && (MatchesLangSrt(x, b) || x == b + ".srt") {
      LangSrtPattern(b, x);
      PlainSrtPattern(b, x);
    }
    GlobLangSrtEscaped(files, b);
  }

  /** A set at the front of a pattern takes one character out of the set. */
  lemma ClassStep(p: string, k: nat, n: string)
    requires |p| > 0 && p[0] == '[' && ClassClose(p) == Some(k)
    ensures Fnmatch(p, n) ==> n != [] && InClass(p[1..k], n[0])
  {
  }

  /** `[Live]` closes at its own `]` whatever follows it. */
  lemma LiveClassClose(q: string)
    ensures ClassClose("[Live]" + q) == Some(5)
  {
    var p := "[Live]" + q;
    assert p[..6] == "[Live]";
    assert p[1] == 'L' && p[2] == 'i' && p[3] == 'v' && p[4] == 'e' && p[5] == ']';
    assert CharFrom(p, ']', 5) == Some(5);
    assert CharFrom(p, ']', 4) == Some(5);
    assert CharFrom(p, ']', 3) == Some(5);
    assert CharFrom(p, ']', 2) == Some(5);
    assert CharFrom(p, ']', 1) == Some(5);
  }

  /** `[` is none of `L`, `i`, `v`, `e`. */
  lemma LiveClassMisses()
    ensures !InClass("Live", '[')
  {
    assert "Live"[1..] == "ive" && "ive"[1..] == "ve" && "ve"[1..] == "e" && "e"[1..] == "";
  }

  /** A name starting `Ep [` never matches a pattern starting `Ep [Live]`:
      `[Live]` is one character out of `L`, `i`, `v`, `e`. */
  lemma BracketClassMisses(q: string, n: string)
    requires |n| >= 4 && n[..4] == "Ep ["
    ensures !Fnmatch("Ep [Live]" + q, n)
  {
    var pre := "Ep ";
    assert NoMeta(pre);
    EscapeNoMeta(pre);
    var rest := "[Live]" + q;
    assert "Ep [Live]" + q == Escape(pre) + rest;
    EscapedPrefix(pre, rest, n);
    LiveClassClose(q);
    LiveClassMisses();
    assert rest[1..5] == "Live";
    assert n[3..][0] == n[3] == '[';
    ClassStep(rest, 5, n[3..]);
  }

  /** A glob of which no listed name matches comes back empty. */
  lemma GlobNone(files: seq<string>, pattern: string)
    requires forall x :: x in files ==> !Fnmatch(pattern, x)
    ensures Glob(files, pattern) == []
  {
  }

  /** An item titled `Ep [Live]` with subtitle files `Ep [Live].de.srt` and
      `Ep [Live].srt`: the globs as written find neither file (the title's
      brackets act as a character set), the escaped globs find both. */
  lemma BracketTitleExample(b: string, files: seq<string>)
    requires b == "Ep [Live]"
    requires files == [b + ".info.json", b + ".de.srt", b + ".srt"]
    ensures SubtitleGlobsAsWritten(b, files) == []
    ensures b + ".de.srt" in SubtitleGlobs(b, files)
    ensures b + ".srt" in SubtitleGlobs(b, files)
  {
    forall x | x in files ensures !Fnmatch(b + ".*.srt", x) && !Fnmatch(b + ".srt", x) {
      assert x[..4] == "Ep [";
      BracketClassMisses(".*.srt", x);
      BracketClassMisses(".srt", x);
    }
    GlobNone(files, b + ".*.srt");
    GlobNone(files, b + ".srt");
    var d := b + ".de.srt";
    assert d[..|b| + 1] == b + "." && d[|d| - 4..] == ".srt";
    LangSrtPattern(b, d);
    PlainSrtPattern(b, b + ".srt");
  }

  /** `.{lang}.{ext}` for every language, then every extension. */
  function LangSuffixes(langs: seq<string>, exts: seq<string>): seq<string> {
    if langs == [] then []
    else
      var n := |langs| - 1;
      LangSuffixes(langs[..n], exts) + Suffixed("." + langs[n] + ".", exts)
  }

  /** The subtitle names tried for one base: the glob matches, the plain
      `.srt`, then the fixed language names. */
  function SubtitleCandidatesFor(b: string, files: seq<string>): seq<string> {
    GlobLangSrt(files, b) + [b + ".srt"] + Suffixed(b, LangSuffixes(SubtitleLangs, SubtitleExts))
  }

  function SubtitleCandidates(base: string, alt: string, files: seq<string>): seq<string> {
    SubtitleCandidatesFor(base, files) + SubtitleCandidatesFor(alt, files)
  }

  datatype MatchedFiles = MatchedFiles(
    infoJson: string,
    description: Option<string>,
    audio: Option<string>,
    video: Option<string>,
    thumbnails: seq<string>,
    subtitles: seq<string>,
    annotations: Option<string>)

  /** The thumbnails exactly as the source lists them: the loop over both
      bases appends every existing name, with no check for repeats. */
  function ThumbnailsAsWritten(info: string, files: seq<string>): seq<string> {
    Existing(Names(BaseName(info), AltBaseName(info), ThumbnailExts), files)
  }

  /** The thumbnails listed once each, as the subtitles already are. */
  function Thumbnails(info: string, files: seq<string>): (r: seq<string>)
    ensures Distinct(r)
    ensures forall x :: x in r <==> x in ThumbnailsAsWritten(info, files)
  {
    Dedup(ThumbnailsAsWritten(info, files))
  }

  /** What `find_matching_files` reports for the info file `info` in a
      folder listing `files` (thumbnails listed once each). */
  function Matching(info: string, files: seq<string>): MatchedFiles {
    var b, a := BaseName(info), AltBaseName(info);
    MatchedFiles(
      info,
      FirstExisting([b + ".description", a + ".description"], files),
      FirstExisting(Names(b, a, AudioExts), files),
      FirstExisting(Names(b, a, VideoExts), files),
      Thumbnails(info, files),
      Dedup(Existing(SubtitleCandidates(b, a, files), files)),
      FirstExisting([b + ".annotations.xml", a + ".annotations.xml"], files))
  }

  /** A search loop that stops at the first candidate that exists. */
  method SearchFirst(cands: seq<string>, files: seq<string>) returns (r: Option<string>)
    ensures r == FirstExisting(cands, files)
  {
    r := None;
    var i := 0;
    while i < |cands|
      invariant 0 <= i <= |cands|
      invariant forall j :: 0 <= j < i ==> cands[j] !in files
    {
      if cands[i] in files {
        FirstExistingIsFirst(cands, files, i);
        return Some(cands[i]);
      }
      i := i + 1;
    }
    ExistingMembers(cands, files);
  }

  /** A loop that appends each existing candidate not listed yet. */
  method CollectNew(cands: seq<string>, files: seq<string>) returns (r: seq<string>)
    ensures r == Dedup(Existing(cands, files))
  {
    r := [];
    var i := 0;
    while i < |cands|
      invariant 0 <= i <= |cands|
      invariant r == Dedup(Existing(cands[..i], files))
    {
      assert cands[..i + 1][..i] == cands[..i];
      var prev := Existing(cands[..i], files);
      if cands[i] in files {
        var e := Existing(cands[..i + 1], files);
        assert e == prev + [cands[i]];
        assert e[..|e| - 1] == prev;
        assert Dedup(e) == if cands[i] in r then r else r + [cands[i]];
        if cands[i] !in r {
          r := r + [cands[i]];
        }
      } else {
        assert Existing(cands[..i + 1], files) == prev;
      }
      i := i + 1;
    }
    assert cands[..i] == cands;
  }

  /** `find_matching_files`. */
  method FindMatchingFiles(info: string, files: seq<string>) returns (m: MatchedFiles)
    ensures m == Matching(info, files)
  {
    var b := BaseName(info);
    var a := AltBaseName(info);
    var description := SearchFirst([b + ".description", a + ".description"], files);
    var audio := SearchFirst(Names(b, a, AudioExts), files);
    var video := SearchFirst(Names(b, a, VideoExts), files);
    var thumbnails := CollectNew(Names(b, a, ThumbnailExts), files);
    var subtitles := CollectNew(SubtitleCandidates(b, a, files), files);
    var annotations := SearchFirst([b + ".annotations.xml", a + ".annotations.xml"], files);
    m := MatchedFiles(info, description, audio, video, thumbnails, subtitles, annotations);
  }

  /** The reported names: the info file itself, and otherwise only files
      that exist; no subtitle is listed twice. */
  lemma MatchingProps(info: string, files: seq<string>)
    ensures Matching(info, files).infoJson == info
    ensures Distinct(Matching(info, files).subtitles)
    ensures forall x :: x in Matching(info, files).subtitles ==> x in files
    ensures forall x :: x in Matching(info, files).thumbnails ==> x in files
  {
    var b, a := BaseName(info), AltBaseName(info);
    ExistingMembers(SubtitleCandidates(b, a, files), files);
    ExistingMembers(Names(b, a, ThumbnailExts), files);
  }

  /** Audio is the first existing name over base then alt, each with
      `.mp3`, `.m4a`, `.wav`, `.opus` in that order; none when none exists. */
  lemma AudioIsFirstCandidate(info: string, files: seq<string>, i: int)
    requires 0 <= i < 8
    requires Names(BaseName(info), AltBaseName(info), AudioExts)[i] in files
    requires forall j :: 0 <= j < i ==> Names(BaseName(info), AltBaseName(info), AudioExts)[j] !in files
    ensures Matching(info, files).audio == Some(Names(BaseName(info), AltBaseName(info), AudioExts)[i])
  {
    FirstExistingIsFirst(Names(BaseName(info), AltBaseName(info), AudioExts), files, i);
  }

  /** When the base name holds no `.info`, both bases coincide and the
      as-written loop lists each existing thumbnail twice. */
  lemma ThumbnailsListedTwice(info: string, files: seq<string>)
    requires AltBaseName(info) == BaseName(info)
    ensures ThumbnailsAsWritten(info, files)
         == Existing(Suffixed(BaseName(info), ThumbnailExts), files)
          + Existing(Suffixed(BaseName(info), ThumbnailExts), files)
  {
    var b := BaseName(info);
    ExistingAppend(Suffixed(b, ThumbnailExts), Suffixed(b, ThumbnailExts), files);
  }

  /** The smallest case: `X.info.json` beside `X.jpg` is reported with the
      thumbnail `X.jpg` twice as written, once when corrected. */
  lemma ThumbnailExample()
    ensures ThumbnailsAsWritten("X.info.json", ["X.info.json", "X.jpg"]) == ["X.jpg", "X.jpg"]
    ensures Thumbnails("X.info.json", ["X.info.json", "X.jpg"]) == ["X.jpg"]
  {
    var info := "X.info.json";
    var files := ["X.info.json", "X.jpg"];
    assert BaseName(info) == "X" by {
      BaseNameExample();
    }
    assert AltBaseName(info) == "X" by {
      AltBaseNameExample();
    }
    ThumbnailsListedTwice(info, files);
    JpgOnlyExample();
    var t := ["X.jpg", "X.jpg"];
    assert t[..1] == ["X.jpg"];
    assert ["X.jpg"][..0] == [];
  }

  /** Of the four thumbnail names of `X`, only `X.jpg` is in the listing. */
  lemma JpgOnlyExample()
    ensures Existing(Suffixed("X", ThumbnailExts), ["X.info.json", "X.jpg"]) == ["X.jpg"]
  {
    var files := ["X.info.json", "X.jpg"];
    var s := Suffixed("X", ThumbnailExts);
    assert s[0] == "X.jpg" && s[1] == "X.jpeg" && s[2] == "X.png" && s[3] == "X.webp";
    assert s == ["X.jpg", "X.jpeg", "X.png", "X.webp"];
    assert s[..1][..0] == [];
    assert Existing(s[..1], files) == ["X.jpg"];
    assert s[..2][..1] == s[..1];
    assert Existing(s[..2], files) == ["X.jpg"];
    assert s[..3][..2] == s[..2];
    assert Existing(s[..3], files) == ["X.jpg"];
    assert s[..3] == s[..|s| - 1];
  }

  lemma BaseNameExample()
    ensures BaseName("X.info.json") == "X"
  {
    var s := "X.info.json";
    var sep := ".info.json";
    assert s[0..10] != sep by {
      assert s[0..10][0] == 'X' && sep[0] == '.';
    }
    assert !IsAt(s, sep, 0);
    assert s[1..11] == sep;
    assert IsAt(s, sep, 1);
    assert FindFrom(s, sep, 0) == FindFrom(s, sep, 1) == Some(1);
    assert s[..1] == "X" && s[1 + |sep|..] == "";
    assert Find("", sep) == None;
    assert Split("", sep) == [""];
    assert Split(s, sep) == ["X"] + Split("", sep);
    assert Join(["X", ""], "") == "X" + "" + Join([""], "");
  }

  lemma AltBaseNameExample()
    ensures AltBaseName("X.info.json") == "X"
  {
    BaseNameExample();
    var sep := ".info";
    assert !IsAt("X", sep, 0) && !IsAt("X", sep, 1);
    assert FindFrom("X", sep, 0) == FindFrom("X", sep, 1) == None;
    assert Split("X", sep) == ["X"];
  }
}
