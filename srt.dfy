/** Reading SubRip (.srt) transcripts: timestamps in integer milliseconds,
    blocks separated by blank lines, and the parse that gives up on the
    whole file at the first malformed timestamp. */
module Srt {
  import opened Wrappers
  import opened Text

  datatype Subtitle = Subtitle(startMs: int, text: string)

  /** `parse_srt_timestamp`: the part before " --> " must be
      `hours:minutes:seconds,millis`, each read by `int()`; None is the
      ValueError case (wrong number of fields or a non-number). */
  function ParseTimestamp(line: string): Option<int> {
    ParseClock(Split(line, " --> ")[0])
  }

  /** `hours, minutes, seconds_ms = time_part.split(':')`. */
  function ParseClock(timePart: string): Option<int> {
    var hms := Split(timePart, ":");
    if |hms| != 3 then None else ParseFields(hms[0], hms[1], Split(hms[2], ","))
  }

  /** `seconds, milliseconds = seconds_ms.split(',')` and the sum. */
  function ParseFields(hours: string, minutes: string, sm: seq<string>): Option<int> {
    if |sm| != 2 then None
    else
      var h, m, sec, ms := ParseInt(hours), ParseInt(minutes), ParseInt(sm[0]), ParseInt(sm[1]);
      if h.None? || m.None? || sec.None? || ms.None? then None
      else Some(((h.value * 60 + m.value) * 60 + sec.value) * 1000 + ms.value)
  }

  /** A start timestamp as subtitle files write it: `HH:MM:SS,mmm`. */
  function FormatTimestamp(h: nat, m: nat, s: nat, ms: nat): string {
    ZeroPad(h, 2) + ":" + ZeroPad(m, 2) + ":" + ZeroPad(s, 2) + "," + ZeroPad(ms, 3)
  }

  /** No character of `s` is `c`. */
  predicate Lacks(s: string, c: char) {
    forall k :: 0 <= k < |s| ==> s[k] != c
  }

  lemma DigitsLack(s: string, c: char)
    requires AllDigits(s) && !IsDigit(c)
    ensures Lacks(s, c)
  {
  }

  lemma LacksAppend(a: string, b: string, c: char)
    requires Lacks(a, c) && Lacks(b, c)
    ensures Lacks(a + b, c)
  {
    forall k | 0 <= k < |a + b| ensures (a + b)[k] != c {
      if k < |a| { assert (a + b)[k] == a[k]; } else { assert (a + b)[k] == b[k - |a|]; }
    }
  }

  /** Three pieces free of a one-character separator split back apart. */
  lemma SplitThree(a: string, b: string, c: string, sep: char)
    requires Lacks(a, sep) && Lacks(b, sep) && Lacks(c, sep)
    ensures Split(a + [sep] + (b + [sep] + c), [sep]) == [a, b, c]
  {
    var rest := b + [sep] + c;
    SplitNoSep(c, [sep]);
    SplitHead(b, [sep], c);
    assert Split(rest, [sep]) == [b, c];
    SplitHead(a, [sep], rest);
  }

  lemma CommaSplit(ss: string, mss: string)
    requires Lacks(ss, ',') && Lacks(mss, ',')
    ensures Split(ss + "," + mss, ",") == [ss, mss]
  {
    SplitNoSep(mss, ",");
    SplitHead(ss, ",", mss);
  }

  lemma TimePart(t: string, rest: string)
    requires Lacks(t, ' ')
    ensures Split(t + " --> " + rest, " --> ")[0] == t
  {
    SplitHead(t, " --> ", rest);
  }

  /** The pieces of a timestamp whose fields are digits. */
  lemma DigitFieldsSplit(hh: string, mm: string, ss: string, mss: string, rest: string)
    requires AllDigits(hh) && AllDigits(mm) && AllDigits(ss) && AllDigits(mss)
    ensures var t := hh + ":" + (mm + ":" + (ss + "," + mss));
      && Split(t + " --> " + rest, " --> ")[0] == t
      && Split(t, ":") == [hh, mm, ss + "," + mss]
      && Split(ss + "," + mss, ",") == [ss, mss]
  {
    DigitsLack(hh, ' ');
    DigitsLack(mm, ' ');
    DigitsLack(ss, ' ');
    DigitsLack(mss, ' ');
    DigitsLack(hh, ':');
    DigitsLack(mm, ':');
    DigitsLack(ss, ':');
    DigitsLack(mss, ':');
    DigitsLack(ss, ',');
    DigitsLack(mss, ',');
    assert Lacks(":", ' ') && Lacks(",", ' ') && Lacks(",", ':');
    LacksAppend(ss, ",", ' ');
    LacksAppend(ss + ",", mss, ' ');
    LacksAppend(mm, ":", ' ');
    LacksAppend(mm + ":", ss + "," + mss, ' ');
    LacksAppend(hh, ":", ' ');
    LacksAppend(hh + ":", mm + ":" + (ss + "," + mss), ' ');
    TimePart(hh + ":" + (mm + ":" + (ss + "," + mss)), rest);
    LacksAppend(ss, ",", ':');
    LacksAppend(ss + ",", mss, ':');
    SplitThree(hh, mm, ss + "," + mss, ':');
    CommaSplit(ss, mss);
  }

  /** Fields that read as numbers give their weighted sum. */
  lemma ParseFieldsValue(hh: string, mm: string, ss: string, mss: string, h: int, m: int, s: int, ms: int)
    requires ParseInt(hh) == Some(h) && ParseInt(mm) == Some(m) && ParseInt(ss) == Some(s) && ParseInt(mss) == Some(ms)
    ensures ParseFields(hh, mm, [ss, mss]) == Some(((h * 60 + m) * 60 + s) * 1000 + ms)
  {
  }

  /** A timestamp whose fields are digit strings reading as `h`, `m`, `s`
      and `ms` is their weighted sum, whatever follows the arrow. */
  lemma ParseDigitFields(hh: string, mm: string, ss: string, mss: string, rest: string, h: int, m: int, s: int, ms: int)
    requires AllDigits(hh) && AllDigits(mm) && AllDigits(ss) && AllDigits(mss)
    requires ParseInt(hh) == Some(h) && ParseInt(mm) == Some(m) && ParseInt(ss) == Some(s) && ParseInt(mss) == Some(ms)
    ensures ParseTimestamp(hh + ":" + (mm + ":" + (ss + "," + mss)) + " --> " + rest)
         == Some(((h * 60 + m) * 60 + s) * 1000 + ms)
  {
    DigitFieldsSplit(hh, mm, ss, mss, rest);
    ParseFieldsValue(hh, mm, ss, mss, h, m, s, ms);
  }

  lemma Regroup(hh: string, mm: string, ss: string, mss: string)
    ensures hh + ":" + mm + ":" + ss + "," + mss == hh + ":" + (mm + ":" + (ss + "," + mss))
  {
  }

  /** Reading a timestamp line gives back the time that was written, in
      milliseconds, whatever follows the arrow. */
  lemma ParseFormatted(h: nat, m: nat, s: nat, ms: nat, rest: string)
    ensures ParseTimestamp(FormatTimestamp(h, m, s, ms) + " --> " + rest)
         == Some(((h * 60 + m) * 60 + s) * 1000 + ms)
  {
    var hh, mm, ss, mss := ZeroPad(h, 2), ZeroPad(m, 2), ZeroPad(s, 2), ZeroPad(ms, 3);
    Regroup(hh, mm, ss, mss);
    ParseZeroPad(h, 2);
    ParseZeroPad(m, 2);
    ParseZeroPad(s, 2);
    ParseZeroPad(ms, 3);
    ParseDigitFields(hh, mm, ss, mss, rest, h, m, s, ms);
  }

  // ---------------------------------------------------------------------
  // re.split(r'\n\s*\n', text): blocks separated by blank lines
  // ---------------------------------------------------------------------

  /** The last newline of the whitespace run starting at `k`, or `best`
      when the run holds none. */
  function LastNewline(s: string, k: nat, best: Option<nat>): (r: Option<nat>)
    requires k <= |s|
    ensures r == best || (r.Some? && k <= r.value < |s| && s[r.value] == '\n'
                          && forall j :: k <= j <= r.value ==> IsSpace(s[j]))
    decreases |s| - k
  {
    if k < |s| && IsSpace(s[k]) then LastNewline(s, k + 1, if s[k] == '\n' then Some(k) else best)
    else best
  }

  /** A separator the pattern matches: whitespace from a newline to a newline. */
  predicate IsBlankSep(t: string) {
    |t| >= 2 && t[0] == '\n' && t[|t| - 1] == '\n' && forall k :: 0 <= k < |t| ==> IsSpace(t[k])
  }

  /** The pieces and separators put back together. */
  function Interleave(pieces: seq<string>, seps: seq<string>): string
    requires |pieces| == |seps| + 1
  {
    if seps == [] then pieces[0] else pieces[0] + seps[0] + Interleave(pieces[1..], seps[1..])
  }

  /** The leftmost-longest matching scan from position `i`; the current
      piece began at `start`. Returns the pieces and the separators. */
  function SplitFrom(s: string, start: nat, i: nat): (r: (seq<string>, seq<string>))
    requires start <= i <= |s|
    ensures |r.0| == |r.1| + 1
    ensures Interleave(r.0, r.1) == s[start..]
    ensures forall k :: 0 <= k < |r.1| ==> IsBlankSep(r.1[k])
    decreases |s| - i
  {
    if i == |s| then ([s[start..]], [])
    else if s[i] == '\n' && LastNewline(s, i + 1, None).Some? then
      var j := LastNewline(s, i + 1, None).value;
      var rest := SplitFrom(s, j + 1, j + 1);
      assert s[start..] == s[start..i] + s[i..j + 1] + s[j + 1..];
      assert ([s[start..i]] + rest.0)[1..] == rest.0;
      assert ([s[i..j + 1]] + rest.1)[1..] == rest.1;
      ([s[start..i]] + rest.0, [s[i..j + 1]] + rest.1)
    else SplitFrom(s, start, i + 1)
  }

  function SplitBlocks(s: string): seq<string> {
    SplitFrom(s, 0, 0).0
  }

  // ---------------------------------------------------------------------
  // parse_srt_file
  // ---------------------------------------------------------------------

  /** One block: None when its timestamp raises, Some(None) when it has
      fewer than three lines, otherwise the subtitle it holds. */
  function ParseBlock(block: string): Option<Option<Subtitle>> {
    BlockLines(Split(Strip(block), "\n"))
  }

  /** The block's lines: the second is the timing line, the rest the text. */
  function BlockLines(lines: seq<string>): Option<Option<Subtitle>> {
    if |lines| < 3 then Some(None)
    else
      var t := ParseTimestamp(lines[1]);
      if t.None? then None
      else Some(Some(Subtitle(t.value, Strip(Join(lines[2..], " ")))))
  }

  /** The blocks in order, each read by `parse`; None as soon as one
      raises. */
  function ParseBlocks(blocks: seq<string>, parse: string -> Option<Option<Subtitle>>): Option<seq<Subtitle>> {
    if blocks == [] then Some([])
    else
      var n := |blocks| - 1;
      Extend(ParseBlocks(blocks[..n], parse), parse(blocks[n]))
  }

  /** The parse so far followed by one more block's outcome. */
  function Extend(prefix: Option<seq<Subtitle>>, last: Option<Option<Subtitle>>): Option<seq<Subtitle>> {
    if prefix.None? || last.None? then None
    else if last.value.None? then prefix
    else Some(prefix.value + [last.value.value])
  }

  lemma ParseBlocksStep(blocks: seq<string>, parse: string -> Option<Option<Subtitle>>, i: nat)
    requires i < |blocks|
    ensures ParseBlocks(blocks[..i + 1], parse) == Extend(ParseBlocks(blocks[..i], parse), parse(blocks[i]))
  {
    assert blocks[..i + 1][..i] == blocks[..i];
  }

  /** `parse_srt_file` on the file's text (None when unreadable), with
      `parse` reading each block (`ParseBlock` in the source): any exception
      gives the empty list. */
  function ParseSrt(content: Option<string>, parse: string -> Option<Option<Subtitle>>): seq<Subtitle> {
    if content.None? then []
    else
      var r := ParseBlocks(SplitBlocks(Strip(content.value)), parse);
      if r.None? then [] else r.value
  }

  /** The loop over the blocks, each read by `parse` (the loop body,
      `ParseBlock` in `parse_srt_file`); None is the exception that leaves
      the loop. */
  method ReadBlocks(blocks: seq<string>, parse: string -> Option<Option<Subtitle>>) returns (r: Option<seq<Subtitle>>)
    ensures r == ParseBlocks(blocks, parse)
  {
    var subtitles := [];
    var i := 0;
    while i < |blocks|
      invariant 0 <= i <= |blocks|
      invariant ParseBlocks(blocks[..i], parse) == Some(subtitles)
    {
      ParseBlocksStep(blocks, parse, i);
      var b := parse(blocks[i]);
      if b.None? {
        NoneAbsorbs(blocks, parse, i + 1);
        assert blocks[..|blocks|] == blocks;
        return None;
      }
      if b.value.Some? {
        subtitles := subtitles + [b.value.value];
      }
      i := i + 1;
    }
    assert blocks[..i] == blocks;
    return Some(subtitles);
  }

  /** `parse_srt_file`, which returns [] from inside the loop on an exception. */
  method ParseSrtFile(content: Option<string>) returns (subtitles: seq<Subtitle>)
    ensures subtitles == ParseSrt(content, ParseBlock)
  {
    if content.None? {
      return [];
    }
    var r := ReadBlocks(SplitBlocks(Strip(content.value)), ParseBlock);
    subtitles := if r.None? then [] else r.value;
  }

  /** Once a prefix raises, the whole parse does. */
  lemma {:induction false} NoneAbsorbs(blocks: seq<string>, parse: string -> Option<Option<Subtitle>>, i: nat)
    requires i <= |blocks| && ParseBlocks(blocks[..i], parse).None?
    ensures ParseBlocks(blocks, parse).None?
    decreases |blocks| - i
  {
    if i < |blocks| {
      assert blocks[..i + 1][..i] == blocks[..i];
      NoneAbsorbs(blocks, parse, i + 1);
    } else {
      assert blocks[..i] == blocks;
    }
  }

  /** The parse fails exactly when some block raises. */
  lemma {:induction false} ParseBlocksNoneIff(blocks: seq<string>, parse: string -> Option<Option<Subtitle>>)
    ensures ParseBlocks(blocks, parse).None? <==> exists i :: 0 <= i < |blocks| && parse(blocks[i]).None?
  {
    if blocks != [] {
      var n := |blocks| - 1;
      ParseBlocksNoneIff(blocks[..n], parse);
      if ParseBlocks(blocks[..n], parse).None? {
        var i :| 0 <= i < n && parse(blocks[..n][i]).None?;
        assert blocks[i] == blocks[..n][i];
      }
      if exists i :: 0 <= i < |blocks| && parse(blocks[i]).None? {
        var i :| 0 <= i < |blocks| && parse(blocks[i]).None?;
        if i < n {
          assert blocks[..n][i] == blocks[i];
        }
      }
    }
  }

  /** The subtitles of the blocks that hold one, assuming none raises. */
  function Kept(blocks: seq<string>, parse: string -> Option<Option<Subtitle>>): seq<Subtitle> {
    if blocks == [] then []
    else
      var n := |blocks| - 1;
      var last := parse(blocks[n]);
      Kept(blocks[..n], parse) + (if last.Some? && last.value.Some? then [last.value.value] else [])
  }

  /** Otherwise it keeps one subtitle per block that holds one, in order. */
  lemma {:induction false} ParseBlocksKept(blocks: seq<string>, parse: string -> Option<Option<Subtitle>>)
    requires ParseBlocks(blocks, parse).Some?
    ensures ParseBlocks(blocks, parse).value == Kept(blocks, parse)
  {
    if blocks != [] {
      var n := |blocks| - 1;
      ParseBlocksKept(blocks[..n], parse);
    }
  }

  /** The whole-file parse: empty when a block of three or more lines has a
      timestamp that does not read, otherwise the subtitles of those blocks
      in file order. */
  lemma ParseSrtProps(content: string, parse: string -> Option<Option<Subtitle>>)
    ensures var blocks := SplitBlocks(Strip(content));
      && ((exists i :: 0 <= i < |blocks| && parse(blocks[i]).None?) ==> ParseSrt(Some(content), parse) == [])
      && ((forall i :: 0 <= i < |blocks| ==> parse(blocks[i]).Some?) ==> ParseSrt(Some(content), parse) == Kept(blocks, parse))
  {
    var blocks := SplitBlocks(Strip(content));
    ParseBlocksNoneIff(blocks, parse);
    if ParseBlocks(blocks, parse).Some? {
      ParseBlocksKept(blocks, parse);
    }
  }

  /** A string with no whitespace at either end is its own strip. */
  lemma StripUntouched(s: string)
    requires |s| > 0 && !IsSpace(s[0]) && !IsSpace(s[|s| - 1])
    ensures Strip(s) == s
  {
    assert LStrip(s) == s;
  }

  /** The lines of a block of three lines. */
  lemma ThreeLines(index: string, timing: string, text: string)
    requires Lacks(index, '\n') && Lacks(timing, '\n') && Lacks(text, '\n')
    requires |index| > 0 && !IsSpace(index[0])
    requires |text| > 0 && !IsSpace(text[|text| - 1])
    ensures Split(Strip(index + "\n" + (timing + "\n" + text)), "\n") == [index, timing, text]
  {
    var block := index + "\n" + (timing + "\n" + text);
    assert block[0] == index[0];
    assert block[|block| - 1] == text[|text| - 1];
    StripUntouched(block);
    SplitThree(index, timing, text, '\n');
    assert "\n" == ['\n'];
  }

  lemma BlockLinesThree(index: string, timing: string, text: string, start: int)
    requires ParseTimestamp(timing) == Some(start)
    ensures BlockLines([index, timing, text]) == Some(Some(Subtitle(start, Strip(Join([index, timing, text][2..], " ")))))
  {
  }

  lemma TextLineKept(index: string, timing: string, text: string)
    requires |text| > 0 && !IsSpace(text[0]) && !IsSpace(text[|text| - 1])
    ensures Strip(Join([index, timing, text][2..], " ")) == text
  {
    assert [index, timing, text][2..] == [text];
    assert Join([text], " ") == text;
    StripUntouched(text);
  }

  /** Three lines of which the middle one reads as a time. */
  lemma ThreeLinesSubtitle(index: string, timing: string, text: string, start: int)
    requires |text| > 0 && !IsSpace(text[0]) && !IsSpace(text[|text| - 1])
    requires ParseTimestamp(timing) == Some(start)
    ensures BlockLines([index, timing, text]) == Some(Some(Subtitle(start, text)))
  {
    BlockLinesThree(index, timing, text, start);
    TextLineKept(index, timing, text);
  }

  /** A block of an index line, a timing line that reads as `start`, and
      one line of text becomes the subtitle at `start` with that text. */
  lemma ParseThreeLines(index: string, timing: string, text: string, start: int)
    requires Lacks(index, '\n') && Lacks(timing, '\n') && Lacks(text, '\n')
    requires |index| > 0 && !IsSpace(index[0])
    requires |text| > 0 && !IsSpace(text[0]) && !IsSpace(text[|text| - 1])
    requires ParseTimestamp(timing) == Some(start)
    ensures ParseBlock(index + "\n" + (timing + "\n" + text)) == Some(Some(Subtitle(start, text)))
  {
    ThreeLines(index, timing, text);
    ThreeLinesSubtitle(index, timing, text, start);
  }
}
