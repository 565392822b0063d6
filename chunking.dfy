/** Cutting a parsed transcript into fixed windows (`create_5min_chunks`),
    naming the files chunks and their summaries are kept in, and cutting
    text down to the language model's context. Times are integer
    milliseconds. */
module Chunking {
  import opened Seqs
  import opened Text
  import opened Srt

  /** `chunk_duration` as the summarizer calls it: 300 seconds. */
  const Window: int := 300000
  /** The final chunk ends this long after its last subtitle starts. */
  const FinalTailMs: int := 60000

  datatype Chunk = Chunk(number: int, startMs: int, endMs: int, text: string)

  /** How a chunk's text is made from its subtitles; the program uses
      `ChunkText`, and the lemmas below hold for any such function. */
  type TextOf = seq<Subtitle> -> string

  function Texts(group: seq<Subtitle>): (r: seq<string>)
    ensures |r| == |group| && forall i :: 0 <= i < |group| ==> r[i] == group[i].text
  {
    if group == [] then [] else Texts(group[..|group| - 1]) + [group[|group| - 1].text]
  }

  /** A chunk's text: its subtitles' texts space-joined, then stripped. */
  function ChunkText(group: seq<Subtitle>): string {
    Strip(Join(Texts(group), " "))
  }

  /** The loop state of `create_5min_chunks`: the chunks emitted so far,
      the subtitles of each (`groups`), the open chunk `current`, its start
      and its number. */
  datatype Acc = Acc(chunks: seq<Chunk>, groups: seq<seq<Subtitle>>, current: seq<Subtitle>, start: int, number: int)

  const Initial: Acc := Acc([], [], [], 0, 1)

  /** Emitting the open chunk, if it has any subtitle. */
  function Close(a: Acc, textOf: TextOf): Acc {
    if a.current == [] then a
    else a.(chunks := a.chunks + [Chunk(a.number, a.start, a.start + Window, textOf(a.current))],
            groups := a.groups + [a.current],
            number := a.number + 1)
  }

  /** One subtitle: it opens a new chunk, starting at its own time rounded
      down to a multiple of the window, exactly when it starts a window or
      more after the open chunk's start; otherwise it joins the open chunk. */
  function Step(a: Acc, s: Subtitle, textOf: TextOf): Acc
  {
    if s.startMs >= a.start + Window then Close(a, textOf).(current := [s], start := s.startMs - s.startMs % Window)
    else a.(current := a.current + [s])
  }

  function Run(subs: seq<Subtitle>, textOf: TextOf): Acc
  {
    if subs == [] then Initial else Step(Run(subs[..|subs| - 1], textOf), subs[|subs| - 1], textOf)
  }

  /** After the loop: the open chunk, if any, is emitted with an end one
      minute after its last subtitle's start. Returns the chunks and their
      subtitles. */
  function Finish(a: Acc, textOf: TextOf): (seq<Chunk>, seq<seq<Subtitle>>) {
    if a.current == [] then (a.chunks, a.groups)
    else
      var last := a.current[|a.current| - 1];
      (a.chunks + [Chunk(a.number, a.start, last.startMs + FinalTailMs, textOf(a.current))], a.groups + [a.current])
  }

  function CreateChunks(subs: seq<Subtitle>, textOf: TextOf): seq<Chunk>
  {
    Finish(Run(subs, textOf), textOf).0
  }

  /** The subtitles that went into each chunk. */
  function ChunkGroups(subs: seq<Subtitle>, textOf: TextOf): seq<seq<Subtitle>>
  {
    Finish(Run(subs, textOf), textOf).1
  }

  /** `create_5min_chunks(subtitles)`. */
  method Create5MinChunks(subs: seq<Subtitle>) returns (chunks: seq<Chunk>)
    ensures chunks == CreateChunks(subs, ChunkText)
  {
    chunks := ChunkLoop(subs, ChunkText);
  }

  /** The loop of `create_5min_chunks`, with the text of a chunk made by
      `textOf`. */
  method ChunkLoop(subs: seq<Subtitle>, textOf: TextOf) returns (chunks: seq<Chunk>)
    ensures chunks == CreateChunks(subs, textOf)
  {
    chunks := [];
    var current: seq<Subtitle> := [];
    var start := 0;
    var number := 1;
    ghost var groups: seq<seq<Subtitle>> := [];
    for i := 0 to |subs|
      invariant Run(subs[..i], textOf) == Acc(chunks, groups, current, start, number)
    {
      var s := subs[i];
      assert subs[..i + 1] == subs[..i] + [s];
      RunSnoc(subs[..i], s, textOf);
      if s.startMs >= start + Window {
        if current != [] {
          chunks := chunks + [Chunk(number, start, start + Window, textOf(current))];
          groups := groups + [current];
          number := number + 1;
        }
        current := [s];
        start := s.startMs - s.startMs % Window;
      } else {
        current := current + [s];
      }
    }
    assert subs[..|subs|] == subs;
    if current != [] {
      chunks := chunks + [Chunk(number, start, current[|current| - 1].startMs + FinalTailMs, textOf(current))];
    }
  }

  // ---------------------------------------------------------------------
  // What the loop keeps true
  // ---------------------------------------------------------------------

  /** Emitted chunk `i` with subtitles `g`: numbered `i + 1`, non-empty,
      its text made from `g`, its start a multiple of the window, and every
      subtitle in it starting before the window closes. */
  ghost predicate Emitted(c: Chunk, g: seq<Subtitle>, i: int, textOf: TextOf)
  {
    && c.number == i + 1 && g != [] && c.text == textOf(g)
    && c.startMs % Window == 0
    && forall j :: 0 <= j < |g| ==> g[j].startMs < c.startMs + Window
  }

  ghost predicate Counted(a: Acc, subs: seq<Subtitle>)
  {
    && |a.groups| == |a.chunks| && a.number == |a.chunks| + 1
    && Flatten(a.groups) + a.current == subs
    && (subs != [] ==> a.current != [])
  }

  ghost predicate Timed(a: Acc, textOf: TextOf)
  {
    && |a.groups| == |a.chunks|
    && a.number == |a.chunks| + 1 && a.start % Window == 0
    && (forall j :: 0 <= j < |a.current| ==> a.current[j].startMs < a.start + Window)
    && (forall i :: 0 <= i < |a.chunks| ==> Emitted(a.chunks[i], a.groups[i], i, textOf) && a.chunks[i].endMs == a.chunks[i].startMs + Window)
    && (forall i :: 0 <= i < |a.chunks| - 1 ==> a.chunks[i].startMs + Window <= a.chunks[i + 1].startMs)
    && (a.chunks != [] ==> a.chunks[|a.chunks| - 1].startMs + Window <= a.start)
  }

  /** The subtitle that opened a chunk other than the first started a window or
      more after the previous chunk's start, and the chunk starts at its
      time rounded down. */
  ghost predicate Opened(prevStart: int, c: Chunk, g: seq<Subtitle>)
    requires g != []
  {
    g[0].startMs >= prevStart + Window && c.startMs == g[0].startMs - g[0].startMs % Window
  }

  ghost predicate Opens(a: Acc)
    requires |a.groups| == |a.chunks|
  {
    && (forall i :: 0 < i < |a.chunks| ==> a.groups[i] != [] && Opened(a.chunks[i - 1].startMs, a.chunks[i], a.groups[i]))
    && (a.chunks != [] && a.current != [] ==>
          Opened(a.chunks[|a.chunks| - 1].startMs, Chunk(a.number, a.start, 0, ""), a.current))
  }

  lemma RoundDown(t: int)
    ensures (t - t % Window) % Window == 0 && t - t % Window <= t < t - t % Window + Window
  {
  }

  /** A time a window or more past a multiple of the window rounds down to at least
      that multiple plus a window. */
  lemma RoundDownPast(start: int, t: int)
    requires start % Window == 0 && t >= start + Window
    ensures t - t % Window >= start + Window
  {
    var k := start / Window + 1;
    assert start + Window == k * Window;
    assert t == (t / Window) * Window + t % Window;
  }

  lemma StepCounted(a: Acc, prefix: seq<Subtitle>, s: Subtitle, textOf: TextOf)
    requires Counted(a, prefix)
    ensures Counted(Step(a, s, textOf), prefix + [s])
  {
    if s.startMs >= a.start + Window && a.current != [] {
      FlattenAppend(a.groups, a.current);
    }
  }

  lemma StepTimed(a: Acc, s: Subtitle, textOf: TextOf)
    requires Timed(a, textOf)
    ensures Timed(Step(a, s, textOf), textOf)
  {
    if s.startMs >= a.start + Window {
      RoundDown(s.startMs);
      RoundDownPast(a.start, s.startMs);
      var b := Step(a, s, textOf);
      if a.current != [] {
        var n := |a.chunks|;
        assert b.chunks[n] == Chunk(a.number, a.start, a.start + Window, textOf(a.current));
        assert Emitted(b.chunks[n], b.groups[n], n, textOf);
        forall i | 0 <= i < |b.chunks| ensures Emitted(b.chunks[i], b.groups[i], i, textOf) && b.chunks[i].endMs == b.chunks[i].startMs + Window {
          if i < n {
            assert b.chunks[i] == a.chunks[i] && b.groups[i] == a.groups[i];
          }
        }
      }
    }
  }

  lemma StepOpens(a: Acc, prefix: seq<Subtitle>, s: Subtitle, textOf: TextOf)
    requires Timed(a, textOf) && Counted(a, prefix) && Opens(a)
    ensures Timed(Step(a, s, textOf), textOf) && Opens(Step(a, s, textOf))
  {
    StepTimed(a, s, textOf);
    var b := Step(a, s, textOf);
    if s.startMs >= a.start + Window && a.current != [] {
      var n := |a.chunks|;
      forall i | 0 < i < |b.chunks| ensures Opened(b.chunks[i - 1].startMs, b.chunks[i], b.groups[i]) {
        if i < n {
          assert b.chunks[i] == a.chunks[i] && b.groups[i] == a.groups[i] && b.chunks[i - 1] == a.chunks[i - 1];
        } else {
          assert b.chunks[i - 1] == a.chunks[n - 1] && b.groups[i] == a.current;
        }
      }
    }
  }

  lemma {:induction false} RunKeeps(subs: seq<Subtitle>, textOf: TextOf)
    ensures Counted(Run(subs, textOf), subs) && Timed(Run(subs, textOf), textOf) && Opens(Run(subs, textOf))
  {
    if subs != [] {
      var n := |subs| - 1;
      RunKeeps(subs[..n], textOf);
      assert subs[..n] + [subs[n]] == subs;
      StepCounted(Run(subs[..n], textOf), subs[..n], subs[n], textOf);
      StepOpens(Run(subs[..n], textOf), subs[..n], subs[n], textOf);
    }
  }

  // ---------------------------------------------------------------------
  // What the chunks are
  // ---------------------------------------------------------------------

  /** No subtitles, no chunks; otherwise every subtitle lands in exactly one
      chunk, in order, and the chunks are numbered 1, 2, ... with the text
      of their own subtitles. */
  lemma ChunksPartition(subs: seq<Subtitle>, textOf: TextOf)
    ensures var chunks, groups := CreateChunks(subs, textOf), ChunkGroups(subs, textOf);
      && (chunks == [] <==> subs == [])
      && |groups| == |chunks| && Flatten(groups) == subs
      && forall i :: 0 <= i < |chunks| ==>
           chunks[i].number == i + 1 && groups[i] != [] && chunks[i].text == textOf(groups[i])
  {
    var a := Run(subs, textOf);
    RunKeeps(subs, textOf);
    if a.current != [] {
      FlattenAppend(a.groups, a.current);
      var chunks: seq<Chunk>, groups: seq<seq<Subtitle>> := CreateChunks(subs, textOf), ChunkGroups(subs, textOf);
      forall i | 0 <= i < |chunks|
        ensures chunks[i].number == i + 1 && groups[i] != [] && chunks[i].text == textOf(groups[i])
      {
        if i < |a.chunks| {
          assert Emitted(a.chunks[i], a.groups[i], i, textOf);
        }
      }
    }
  }

  /** The times of the chunks the final step hands back. */
  lemma FinishTimed(a: Acc, textOf: TextOf)
    requires Timed(a, textOf)
    ensures var chunks, groups := Finish(a, textOf).0, Finish(a, textOf).1;
      && |groups| == |chunks|
      && (forall i :: 0 <= i < |chunks| ==>
            chunks[i].startMs % Window == 0
            && forall j :: 0 <= j < |groups[i]| ==> groups[i][j].startMs < chunks[i].startMs + Window)
      && (forall i :: 0 <= i < |chunks| - 1 ==>
            chunks[i].startMs + Window <= chunks[i + 1].startMs && chunks[i].endMs == chunks[i].startMs + Window)
      && (a.current == [] ==> chunks == a.chunks)
      && (a.current != [] ==> chunks[|chunks| - 1].endMs == a.current[|a.current| - 1].startMs + FinalTailMs)
  {
    var chunks, groups := Finish(a, textOf).0, Finish(a, textOf).1;
    forall i | 0 <= i < |a.chunks|
      ensures a.chunks[i].startMs % Window == 0
        && forall j :: 0 <= j < |a.groups[i]| ==> a.groups[i][j].startMs < a.chunks[i].startMs + Window
    {
      assert Emitted(a.chunks[i], a.groups[i], i, textOf);
    }
  }

  /** Chunk starts are multiples of the window, each at least a window after the one
      before; every chunk but the last ends a window after its start, the last
      one minute after its last subtitle; every subtitle starts before its
      chunk's window closes. */
  lemma ChunksTimes(subs: seq<Subtitle>, textOf: TextOf)
    ensures var chunks, groups := CreateChunks(subs, textOf), ChunkGroups(subs, textOf);
      && |groups| == |chunks|
      && (forall i :: 0 <= i < |chunks| ==> chunks[i].startMs % Window == 0)
      && (forall i :: 0 <= i < |chunks| - 1 ==>
            chunks[i].startMs + Window <= chunks[i + 1].startMs && chunks[i].endMs == chunks[i].startMs + Window)
      && (chunks != [] ==> chunks[|chunks| - 1].endMs == subs[|subs| - 1].startMs + FinalTailMs)
      && (forall i, j :: 0 <= i < |chunks| && 0 <= j < |groups[i]| ==> groups[i][j].startMs < chunks[i].startMs + Window)
  {
    var a := Run(subs, textOf);
    RunKeeps(subs, textOf);
    FinishTimed(a, textOf);
    if a.current != [] {
      assert Flatten(a.groups) + a.current == subs;
      assert subs[|subs| - 1] == a.current[|a.current| - 1];
    } else {
      ChunksPartition(subs, textOf);
    }
  }

  /** A chunk after the first opens with a subtitle that starts a window or more
      after the previous chunk's start, at that subtitle's time rounded
      down to a multiple of the window. */
  lemma ChunksOpen(subs: seq<Subtitle>, textOf: TextOf)
    ensures var chunks, groups := CreateChunks(subs, textOf), ChunkGroups(subs, textOf);
      |groups| == |chunks| &&
      forall i :: 0 < i < |chunks| ==> groups[i] != [] && Opened(chunks[i - 1].startMs, chunks[i], groups[i])
  {
    var a := Run(subs, textOf);
    RunKeeps(subs, textOf);
    ChunksPartition(subs, textOf);
    var chunks: seq<Chunk>, groups: seq<seq<Subtitle>> := CreateChunks(subs, textOf), ChunkGroups(subs, textOf);
    if a.current != [] {
      var n := |a.chunks|;
      forall i | 0 < i < |chunks| ensures groups[i] != [] && Opened(chunks[i - 1].startMs, chunks[i], groups[i]) {
        if i < n {
          assert chunks[i - 1] == a.chunks[i - 1] && chunks[i] == a.chunks[i] && groups[i] == a.groups[i];
        } else {
          assert chunks[i - 1] == a.chunks[n - 1] && groups[i] == a.current;
        }
      }
    }
  }

  lemma RunSnoc(subs: seq<Subtitle>, s: Subtitle, textOf: TextOf)
    ensures Run(subs + [s], textOf) == Step(Run(subs, textOf), s, textOf)
  {
    assert (subs + [s])[..|subs|] == subs;
  }

  /** Subtitles at 0 s, 4 min 50 s, 5 min 5 s and 10 min 10 s give three
      chunks, starting at 0, 5 and 10 minutes. */
  lemma ChunksExample(a: string, b: string, c: string, e: string, textOf: TextOf)
    ensures var chunks := CreateChunks([Subtitle(0, a), Subtitle(290000, b), Subtitle(305000, c), Subtitle(610000, e)], textOf);
      && |chunks| == 3
      && chunks[0].startMs == 0 && chunks[1].startMs == 300000 && chunks[2].startMs == 600000
      && chunks[0].endMs == 300000 && chunks[1].endMs == 600000 && chunks[2].endMs == 670000
  {
    var s0, s1, s2, s3 := Subtitle(0, a), Subtitle(290000, b), Subtitle(305000, c), Subtitle(610000, e);
    RunSnoc([], s0, textOf);
    RunSnoc([s0], s1, textOf);
    RunSnoc([s0, s1], s2, textOf);
    RunSnoc([s0, s1, s2], s3, textOf);
    assert [] + [s0] == [s0];
    assert [s0] + [s1] == [s0, s1];
    assert [s0, s1] + [s2] == [s0, s1, s2];
    assert [s0, s1, s2] + [s3] == [s0, s1, s2, s3];
    assert Run([s0, s1], textOf).start == 0;
    assert Run([s0, s1, s2], textOf).start == 300000;
    assert Run([s0, s1, s2, s3], textOf).start == 600000;
  }

  // ---------------------------------------------------------------------
  // File names
  // ---------------------------------------------------------------------

  /** `chunks/chunk_NNN.txt` in `save_chunks`. */
  function ChunkFileName(n: int): string {
    "chunk_" + ZeroPadInt(n, 3) + ".txt"
  }

  /** `chunk_summaries/summary_NNN.txt` in `process_video_folder`. */
  function SummaryFileName(n: int): string {
    "summary_" + ZeroPadInt(n, 3) + ".txt"
  }

  lemma Unwrap(p: string, x: string, y: string, q: string)
    requires p + x + q == p + y + q
    ensures x == y
  {
    var s := p + x + q;
    assert |x| == |y|;
    assert x == s[|p|..|p| + |x|];
    assert y == (p + y + q)[|p|..|p| + |y|];
  }

  /** Distinct chunk numbers get distinct file names. */
  lemma FileNamesInjective(a: int, b: int)
    ensures ChunkFileName(a) == ChunkFileName(b) <==> a == b
    ensures SummaryFileName(a) == SummaryFileName(b) <==> a == b
  {
    if ChunkFileName(a) == ChunkFileName(b) {
      Unwrap("chunk_", ZeroPadInt(a, 3), ZeroPadInt(b, 3), ".txt");
      ZeroPadIntInjective(a, b, 3);
    }
    if SummaryFileName(a) == SummaryFileName(b) {
      Unwrap("summary_", ZeroPadInt(a, 3), ZeroPadInt(b, 3), ".txt");
      ZeroPadIntInjective(a, b, 3);
    }
  }

  /** Chunk numbers are pairwise distinct. */
  ghost predicate DistinctNumbers(chunks: seq<Chunk>) {
    forall i, j :: 0 <= i < j < |chunks| ==> chunks[i].number != chunks[j].number
  }

  /** The chunks of one transcript have distinct numbers, so they and their
      summaries are saved under distinct names. */
  lemma ChunkFilesDistinct(subs: seq<Subtitle>, textOf: TextOf)
    ensures DistinctNumbers(CreateChunks(subs, textOf))
    ensures var chunks := CreateChunks(subs, textOf);
      forall i, j :: 0 <= i < j < |chunks| ==>
        ChunkFileName(chunks[i].number) != ChunkFileName(chunks[j].number)
        && SummaryFileName(chunks[i].number) != SummaryFileName(chunks[j].number)
  {
    ChunksPartition(subs, textOf);
    var chunks := CreateChunks(subs, textOf);
    forall i, j | 0 <= i < j < |chunks|
      ensures ChunkFileName(chunks[i].number) != ChunkFileName(chunks[j].number)
        && SummaryFileName(chunks[i].number) != SummaryFileName(chunks[j].number)
    {
      FileNamesInjective(i + 1, j + 1);
    }
  }

  /** `int(a / b)` in Python: true division, then truncation toward zero. */
  function TruncDiv(a: int, b: int): (r: int)
    requires b > 0
    ensures a >= 0 ==> r * b <= a < (r + 1) * b
    ensures a < 0 ==> (r - 1) * b < a <= r * b
  {
    if a >= 0 then a / b else -((-a) / b)
  }

  /** `MM:SS` as `save_chunks` prints a time: whole minutes (floored), then
      the seconds within the minute. */
  function Clock(ms: int): string {
    ZeroPadInt(ms / 60000, 2) + ":" + ZeroPadInt(ms % 60000 / 1000, 2)
  }

  /** The lines `save_chunks` writes before a chunk's text. */
  function ChunkHeader(c: Chunk): string {
    "Chunk " + IntToString(c.number) + "\n"
    + "Time: " + Clock(c.startMs) + " - " + Clock(c.endMs) + "\n"
    + "Duration: ~" + IntToString(TruncDiv(c.endMs - c.startMs, 60000)) + " minutes\n\n"
  }

  /** The content of `chunk_NNN.txt`. */
  function ChunkFileContent(c: Chunk): string {
    ChunkHeader(c) + c.text
  }

  /** A chunk closed a full window after its start reads "~5 minutes". */
  lemma ClosedChunkDuration(c: Chunk)
    requires c.endMs == c.startMs + Window
    ensures IntToString(TruncDiv(c.endMs - c.startMs, 60000)) == "5"
  {
    assert TruncDiv(c.endMs - c.startMs, 60000) == 5;
  }

  /** A chunk starting on a multiple of the window starts on a whole minute. */
  lemma WholeMinuteStart(ms: int)
    requires ms % Window == 0
    ensures Clock(ms) == ZeroPadInt(ms / 60000, 2) + ":00"
  {
    var k := ms / Window;
    assert ms == 60000 * (5 * k);
    assert ms % 60000 == 0;
    assert ZeroPadInt(0, 2) == "00";
  }

  // ---------------------------------------------------------------------
  // truncate_text_to_context
  // ---------------------------------------------------------------------

  const TruncationNote: string := "\n\n[Note: Content truncated to fit context length]"

  /** About four characters per token: text longer than `4 * maxTokens`
      keeps `text[:4 * maxTokens - 100]` and gets the note appended. */
  function Truncate(text: string, maxTokens: int): string {
    var maxChars := maxTokens * 4;
    if |text| <= maxChars then text else PrefixSlice(text, maxChars - 100) + TruncationNote
  }

  /** Short text passes unchanged; with a budget of at least 25 tokens the
      result is a prefix of the text, followed by the note when it was cut,
      and never longer than the budget's characters. */
  lemma TruncateProps(text: string, maxTokens: int)
    ensures |text| <= 4 * maxTokens ==> Truncate(text, maxTokens) == text
    ensures maxTokens >= 25 && |text| > 4 * maxTokens ==>
      Truncate(text, maxTokens) == text[..4 * maxTokens - 100] + TruncationNote
      && |Truncate(text, maxTokens)| == 4 * maxTokens - 51
    ensures maxTokens >= 25 ==> |Truncate(text, maxTokens)| <= 4 * maxTokens
  {
    assert |TruncationNote| == 49;
  }
}
