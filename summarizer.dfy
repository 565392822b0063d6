/** Summarising one video folder (`process_video_folder`): pick a
    transcript, cut it into chunks, summarise each chunk unless its summary
    file is already there, and roll the chunk summaries up into a final
    summary. The language model is an oracle. The files of `chunks/` and
    `chunk_summaries/` are maps from the chunk number in their names
    (`chunk_NNN.txt`, `summary_NNN.txt`) to their contents: distinct numbers
    give distinct names (`Chunking.FileNamesInjective`), and a file under
    any other name is never read. */
module Summarizer {
  import opened Wrappers
  import opened Text
  import opened Srt
  import opened Chunking

  datatype PromptKind = ChunkPrompt | FinalPrompt

  /** The language model: the prompt kind and the text it is given, to an
      answer or to nothing (no configuration, no system prompt, an HTTP or
      parse failure after the retries). */
  type Llm = (PromptKind, string) -> Option<string>

  /** `call_llm_api(text, kind)`: the text is cut to the context length less
      1000 tokens before it is sent. */
  function CallLlm(llm: Llm, kind: PromptKind, text: string, contextLength: int): Option<string> {
    llm(kind, Truncate(text, contextLength - 1000))
  }

  /** `if summary:` on the model's answer: present and non-empty. */
  predicate Answered(r: Option<string>) {
    r.Some? && r.value != ""
  }

  // ---------------------------------------------------------------------
  // Choosing the transcript
  // ---------------------------------------------------------------------

  function LanguagePattern(lang: string): string {
    "." + lang + ".srt"
  }

  /** The index of the first name containing `pattern`. */
  function FirstContaining(names: seq<string>, pattern: string): (r: Option<nat>)
    ensures r.Some? ==> r.value < |names| && Contains(names[r.value], pattern)
                        && forall j :: 0 <= j < r.value ==> !Contains(names[j], pattern)
    ensures r.None? ==> forall j :: 0 <= j < |names| ==> !Contains(names[j], pattern)
  {
    if names == [] then None
    else if Contains(names[0], pattern) then Some(0)
    else
      var rest := FirstContaining(names[1..], pattern);
      if rest.Some? then Some(rest.value + 1) else None
  }

  /** The first `.srt` file whose name contains `.<lang>.srt`, else the
      first `.srt` file. */
  function PreferredSrt(srtFiles: seq<string>, lang: string): string
    requires srtFiles != []
  {
    var m := FirstContaining(srtFiles, LanguagePattern(lang));
    if m.Some? then srtFiles[m.value] else srtFiles[0]
  }

  /** The selection loop of `process_video_folder`. */
  method ChooseSrt(srtFiles: seq<string>, lang: string) returns (srt: string)
    requires srtFiles != []
    ensures srt == PreferredSrt(srtFiles, lang)
    ensures srt in srtFiles
    ensures (exists j :: 0 <= j < |srtFiles| && Contains(srtFiles[j], LanguagePattern(lang))) ==>
              Contains(srt, LanguagePattern(lang))
  {
    var pattern := LanguagePattern(lang);
    var i := 0;
    while i < |srtFiles|
      invariant 0 <= i <= |srtFiles|
      invariant forall j :: 0 <= j < i ==> !Contains(srtFiles[j], pattern)
    {
      if Contains(srtFiles[i], pattern) {
        assert FirstContaining(srtFiles, pattern) == Some(i) by {
          FirstContainingAt(srtFiles, pattern, i);
        }
        return srtFiles[i];
      }
      i := i + 1;
    }
    return srtFiles[0];
  }

  lemma {:induction false} FirstContainingAt(names: seq<string>, pattern: string, i: nat)
    requires i < |names| && Contains(names[i], pattern)
    requires forall j :: 0 <= j < i ==> !Contains(names[j], pattern)
    ensures FirstContaining(names, pattern) == Some(i)
  {
    if i > 0 {
      FirstContainingAt(names[1..], pattern, i - 1);
    }
  }

  // ---------------------------------------------------------------------
  // Saving the chunks
  // ---------------------------------------------------------------------

  /** `save_chunks`: each chunk written to its own file, in order, as
      `render` lays it out (the program passes `ChunkFileContent`). */
  function SaveChunks(files: map<int, string>, chunks: seq<Chunk>, render: Chunk -> string): map<int, string> {
    if chunks == [] then files
    else
      var c := chunks[|chunks| - 1];
      SaveChunks(files, chunks[..|chunks| - 1], render)[c.number := render(c)]
  }

  /** The files after `save_chunks`: every chunk's file holds that chunk, and
      a file no chunk is named after is left as it was. */
  ghost predicate Saved(before: map<int, string>, chunks: seq<Chunk>, render: Chunk -> string, after: map<int, string>) {
    && (forall i :: 0 <= i < |chunks| ==>
          chunks[i].number in after && after[chunks[i].number] == render(chunks[i]))
    && (forall k :: k in after <==> k in before || exists i :: 0 <= i < |chunks| && k == chunks[i].number)
    && (forall k :: k in before && (forall i :: 0 <= i < |chunks| ==> k != chunks[i].number) ==>
          after[k] == before[k])
  }

  lemma {:induction false} SaveChunksSaved(files: map<int, string>, chunks: seq<Chunk>, render: Chunk -> string)
    requires DistinctNumbers(chunks)
    ensures Saved(files, chunks, render, SaveChunks(files, chunks, render))
  {
    if chunks != [] {
      var n := |chunks| - 1;
      DistinctPrefix(chunks, n + 1);
      DistinctPrefix(chunks, n);
      SaveChunksSaved(files, chunks[..n], render);
      assert forall i :: 0 <= i < n ==> chunks[..n][i] == chunks[i];
    }
  }

  /** Saving the same chunks a second time changes nothing. */
  lemma SaveChunksTwice(files: map<int, string>, chunks: seq<Chunk>, render: Chunk -> string)
    requires DistinctNumbers(chunks)
    ensures SaveChunks(SaveChunks(files, chunks, render), chunks, render) == SaveChunks(files, chunks, render)
  {
    var once := SaveChunks(files, chunks, render);
    var twice := SaveChunks(once, chunks, render);
    SaveChunksSaved(files, chunks, render);
    SaveChunksSaved(once, chunks, render);
    assert forall k :: k in twice <==> k in once;
    forall k | k in twice ensures twice[k] == once[k] {
      if i :| 0 <= i < |chunks| && k == chunks[i].number {
      }
    }
  }

  // ---------------------------------------------------------------------
  // Chunk summaries, resumed
  // ---------------------------------------------------------------------

  datatype ChunkSummary = ChunkSummary(number: int, summary: string)

  /** One chunk of the summary loop: an existing `summary_NNN.txt` is read
      back; otherwise the model is asked and a non-empty answer is saved;
      an empty or missing answer drops the chunk. */
  function ResumeStep(done: seq<ChunkSummary>, files: map<int, string>, c: Chunk, llm: Llm, contextLength: int): (seq<ChunkSummary>, map<int, string>) {
    if c.number in files then (done + [ChunkSummary(c.number, files[c.number])], files)
    else
      var answer := CallLlm(llm, ChunkPrompt, c.text, contextLength);
      if Answered(answer) then (done + [ChunkSummary(c.number, answer.value)], files[c.number := answer.value])
      else (done, files)
  }

  /** The summary loop over the chunks: the summaries collected and the
      summary files afterwards. */
  function Resume(chunks: seq<Chunk>, files: map<int, string>, llm: Llm, contextLength: int): (seq<ChunkSummary>, map<int, string>) {
    if chunks == [] then ([], files)
    else
      var prev := Resume(chunks[..|chunks| - 1], files, llm, contextLength);
      ResumeStep(prev.0, prev.1, chunks[|chunks| - 1], llm, contextLength)
  }

  /** What one chunk yields, judged against the summary files as they were
      before the loop: the saved summary, else a non-empty answer, else
      nothing. */
  function Outcome(c: Chunk, files: map<int, string>, llm: Llm, contextLength: int): Option<string> {
    if c.number in files then Some(files[c.number])
    else
      var answer := CallLlm(llm, ChunkPrompt, c.text, contextLength);
      if Answered(answer) then answer else None
  }

  /** The chunks that yield a summary, each with it, in chunk order. */
  function Kept(chunks: seq<Chunk>, files: map<int, string>, llm: Llm, contextLength: int): seq<ChunkSummary> {
    if chunks == [] then []
    else
      var c := chunks[|chunks| - 1];
      var o := Outcome(c, files, llm, contextLength);
      Kept(chunks[..|chunks| - 1], files, llm, contextLength) + (if o.Some? then [ChunkSummary(c.number, o.value)] else [])
  }

  /** Whatever the chunks: at most one summary per chunk, each for one of
      the chunks, and an existing summary file is never overwritten. */
  lemma {:induction false} ResumeBounds(chunks: seq<Chunk>, files: map<int, string>, llm: Llm, contextLength: int)
    ensures var r := Resume(chunks, files, llm, contextLength);
      && |r.0| <= |chunks|
      && (forall j :: 0 <= j < |r.0| ==> exists i :: 0 <= i < |chunks| && r.0[j].number == chunks[i].number)
      && (forall k :: k in files ==> k in r.1 && r.1[k] == files[k])
  {
    if chunks != [] {
      var n := |chunks| - 1;
      ResumeBounds(chunks[..n], files, llm, contextLength);
      var prev := Resume(chunks[..n], files, llm, contextLength);
      var r := Resume(chunks, files, llm, contextLength);
      forall j | 0 <= j < |r.0| ensures exists i :: 0 <= i < |chunks| && r.0[j].number == chunks[i].number {
        if j < |prev.0| {
          var i :| 0 <= i < n && prev.0[j].number == chunks[..n][i].number;
          assert r.0[j] == prev.0[j] && chunks[i] == chunks[..n][i];
        } else {
          assert r.0[j].number == chunks[n].number;
        }
      }
    }
  }

  /** The summary files after the loop, judged against the files before
      it: every chunk that yields a summary has it in its file, the files
      there before are unchanged, and no other file appears. */
  ghost predicate Written(before: map<int, string>, chunks: seq<Chunk>, llm: Llm, contextLength: int, after: map<int, string>) {
    && (forall k :: k in after <==> k in before || Yields(chunks, before, llm, contextLength, k))
    && (forall i :: 0 <= i < |chunks| && Outcome(chunks[i], before, llm, contextLength).Some? ==>
          chunks[i].number in after && after[chunks[i].number] == Outcome(chunks[i], before, llm, contextLength).value)
    && (forall k :: k in before ==> k in after && after[k] == before[k])
  }

  /** Some chunk numbered `k` yields a summary. */
  ghost predicate Yields(chunks: seq<Chunk>, before: map<int, string>, llm: Llm, contextLength: int, k: int) {
    exists i :: 0 <= i < |chunks| && k == chunks[i].number && Outcome(chunks[i], before, llm, contextLength).Some?
  }

  lemma YieldsStep(chunks: seq<Chunk>, before: map<int, string>, llm: Llm, contextLength: int, k: int)
    requires chunks != []
    ensures var n := |chunks| - 1;
      Yields(chunks, before, llm, contextLength, k) <==>
        Yields(chunks[..n], before, llm, contextLength, k)
        || (k == chunks[n].number && Outcome(chunks[n], before, llm, contextLength).Some?)
  {
    if Yields(chunks, before, llm, contextLength, k) {
      YieldsShrink(chunks, before, llm, contextLength, k);
    }
    if Yields(chunks[..|chunks| - 1], before, llm, contextLength, k) {
      YieldsGrow(chunks, before, llm, contextLength, k);
    }
  }

  lemma YieldsShrink(chunks: seq<Chunk>, before: map<int, string>, llm: Llm, contextLength: int, k: int)
    requires chunks != [] && Yields(chunks, before, llm, contextLength, k)
    ensures var n := |chunks| - 1;
      Yields(chunks[..n], before, llm, contextLength, k)
      || (k == chunks[n].number && Outcome(chunks[n], before, llm, contextLength).Some?)
  {
    var n := |chunks| - 1;
    var i :| 0 <= i < |chunks| && k == chunks[i].number && Outcome(chunks[i], before, llm, contextLength).Some?;
    if i < n {
      assert chunks[..n][i] == chunks[i];
    }
  }

  lemma YieldsGrow(chunks: seq<Chunk>, before: map<int, string>, llm: Llm, contextLength: int, k: int)
    requires chunks != [] && Yields(chunks[..|chunks| - 1], before, llm, contextLength, k)
    ensures Yields(chunks, before, llm, contextLength, k)
  {
    var n := |chunks| - 1;
    var i :| 0 <= i < n && k == chunks[..n][i].number && Outcome(chunks[..n][i], before, llm, contextLength).Some?;
    assert chunks[i] == chunks[..n][i];
  }

  lemma DistinctPrefix(chunks: seq<Chunk>, n: int)
    requires DistinctNumbers(chunks) && 0 <= n <= |chunks|
    ensures DistinctNumbers(chunks[..n])
    ensures forall i :: 0 <= i < n ==> chunks[i].number != chunks[n - 1].number || i == n - 1
  {
    assert forall i :: 0 <= i < n ==> chunks[..n][i] == chunks[i];
  }

  /** With distinct chunk numbers no chunk's write hides another chunk's
      file, so the loop writes exactly the fresh answers. */
  lemma {:induction false} ResumeWrites(chunks: seq<Chunk>, files: map<int, string>, llm: Llm, contextLength: int)
    requires DistinctNumbers(chunks)
    ensures Written(files, chunks, llm, contextLength, Resume(chunks, files, llm, contextLength).1)
  {
    if chunks != [] {
      var n := |chunks| - 1;
      DistinctPrefix(chunks, n + 1);
      DistinctPrefix(chunks, n);
      ResumeWrites(chunks[..n], files, llm, contextLength);
      WrittenStep(files, chunks, llm, contextLength, Resume(chunks[..n], files, llm, contextLength));
    }
  }

  /** One more step of the loop, for a chunk whose number no earlier chunk
      has, extends what has been written to that chunk. */
  lemma WrittenStep(before: map<int, string>, chunks: seq<Chunk>, llm: Llm, contextLength: int,
                    prev: (seq<ChunkSummary>, map<int, string>))
    requires chunks != []
    requires Written(before, chunks[..|chunks| - 1], llm, contextLength, prev.1)
    requires forall i :: 0 <= i < |chunks| - 1 ==> chunks[i].number != chunks[|chunks| - 1].number
    ensures Written(before, chunks, llm, contextLength, ResumeStep(prev.0, prev.1, chunks[|chunks| - 1], llm, contextLength).1)
  {
    var n := |chunks| - 1;
    var c := chunks[n];
    var o := Outcome(c, before, llm, contextLength);
    var after := ResumeStep(prev.0, prev.1, c, llm, contextLength).1;
    assert !Yields(chunks[..n], before, llm, contextLength, c.number) by {
      forall i | 0 <= i < n ensures c.number != chunks[..n][i].number {
        assert chunks[..n][i] == chunks[i];
      }
    }
    assert after == if o.Some? then prev.1[c.number := o.value] else prev.1;
    WrittenKeys(before, chunks, llm, contextLength, prev.1, after);
    WrittenValues(before, chunks, llm, contextLength, prev.1, after);
  }

  lemma WrittenKeys(before: map<int, string>, chunks: seq<Chunk>, llm: Llm, contextLength: int,
                    prev: map<int, string>, after: map<int, string>)
    requires chunks != []
    requires Written(before, chunks[..|chunks| - 1], llm, contextLength, prev)
    requires var c := chunks[|chunks| - 1]; var o := Outcome(c, before, llm, contextLength);
      after == if o.Some? then prev[c.number := o.value] else prev
    ensures forall k :: k in after <==> k in before || Yields(chunks, before, llm, contextLength, k)
    ensures forall k :: k in before ==> k in after && after[k] == before[k]
  {
    forall k ensures k in after <==> k in before || Yields(chunks, before, llm, contextLength, k) {
      YieldsStep(chunks, before, llm, contextLength, k);
    }
  }

  lemma WrittenValues(before: map<int, string>, chunks: seq<Chunk>, llm: Llm, contextLength: int,
                      prev: map<int, string>, after: map<int, string>)
    requires chunks != []
    requires Written(before, chunks[..|chunks| - 1], llm, contextLength, prev)
    requires forall i :: 0 <= i < |chunks| - 1 ==> chunks[i].number != chunks[|chunks| - 1].number
    requires var c := chunks[|chunks| - 1]; var o := Outcome(c, before, llm, contextLength);
      after == if o.Some? then prev[c.number := o.value] else prev
    ensures forall i :: 0 <= i < |chunks| && Outcome(chunks[i], before, llm, contextLength).Some? ==>
      chunks[i].number in after && after[chunks[i].number] == Outcome(chunks[i], before, llm, contextLength).value
  {
    var n := |chunks| - 1;
    forall i | 0 <= i < |chunks| && Outcome(chunks[i], before, llm, contextLength).Some?
      ensures chunks[i].number in after && after[chunks[i].number] == Outcome(chunks[i], before, llm, contextLength).value
    {
      if i < n {
        assert chunks[..n][i] == chunks[i];
      }
    }
  }

  /** With distinct chunk numbers the loop collects exactly the chunks that
      yield a summary, judged against the files before the loop, in chunk
      order. */
  lemma {:induction false} ResumeIsKept(chunks: seq<Chunk>, files: map<int, string>, llm: Llm, contextLength: int)
    requires DistinctNumbers(chunks)
    ensures Resume(chunks, files, llm, contextLength).0 == Kept(chunks, files, llm, contextLength)
  {
    if chunks != [] {
      var n := |chunks| - 1;
      DistinctPrefix(chunks, n + 1);
      DistinctPrefix(chunks, n);
      ResumeIsKept(chunks[..n], files, llm, contextLength);
      ResumeWrites(chunks[..n], files, llm, contextLength);
      var prev := Resume(chunks[..n], files, llm, contextLength).1;
      var number := chunks[n].number;
      assert forall i :: 0 <= i < n ==> chunks[..n][i] == chunks[i];
      assert number in prev <==> number in files;
    }
  }

  /** After the loop, a chunk lacks its summary file exactly when it yielded
      no summary: the failed chunks are the ones a later run asks about. */
  lemma ResumeLeavesFailedMissing(chunks: seq<Chunk>, files: map<int, string>, llm: Llm, contextLength: int, i: int)
    requires DistinctNumbers(chunks) && 0 <= i < |chunks|
    ensures chunks[i].number !in Resume(chunks, files, llm, contextLength).1
            <==> Outcome(chunks[i], files, llm, contextLength).None?
  {
    ResumeWrites(chunks, files, llm, contextLength);
  }

  /** Judged against the files a run leaves, every chunk yields what it
      yielded in that run. */
  lemma ResumeOutcomeStable(chunks: seq<Chunk>, files: map<int, string>, llm: Llm, contextLength: int, i: int)
    requires DistinctNumbers(chunks) && 0 <= i < |chunks|
    ensures Outcome(chunks[i], Resume(chunks, files, llm, contextLength).1, llm, contextLength)
            == Outcome(chunks[i], files, llm, contextLength)
  {
    ResumeWrites(chunks, files, llm, contextLength);
    ResumeLeavesFailedMissing(chunks, files, llm, contextLength, i);
  }

  lemma {:induction false} KeptStable(chunks: seq<Chunk>, files: map<int, string>, files2: map<int, string>, llm: Llm, contextLength: int)
    requires forall i :: 0 <= i < |chunks| ==> Outcome(chunks[i], files2, llm, contextLength) == Outcome(chunks[i], files, llm, contextLength)
    ensures Kept(chunks, files2, llm, contextLength) == Kept(chunks, files, llm, contextLength)
  {
    if chunks != [] {
      KeptStable(chunks[..|chunks| - 1], files, files2, llm, contextLength);
    }
  }

  /** Running the loop again on the files it left collects the same
      summaries and writes nothing new (the model answering as before). */
  lemma ResumeRerun(chunks: seq<Chunk>, files: map<int, string>, llm: Llm, contextLength: int)
    requires DistinctNumbers(chunks)
    ensures var first := Resume(chunks, files, llm, contextLength);
      Resume(chunks, first.1, llm, contextLength) == first
  {
    var first := Resume(chunks, files, llm, contextLength);
    var second := Resume(chunks, first.1, llm, contextLength);
    forall i | 0 <= i < |chunks|
      ensures Outcome(chunks[i], first.1, llm, contextLength) == Outcome(chunks[i], files, llm, contextLength)
    {
      ResumeOutcomeStable(chunks, files, llm, contextLength, i);
    }
    KeptStable(chunks, files, first.1, llm, contextLength);
    ResumeIsKept(chunks, files, llm, contextLength);
    ResumeIsKept(chunks, first.1, llm, contextLength);
    ResumeWrites(chunks, files, llm, contextLength);
    ResumeWrites(chunks, first.1, llm, contextLength);
    assert second.0 == first.0;
    assert forall k :: k in second.1 <==> k in first.1;
    assert forall k :: k in first.1 ==> second.1[k] == first.1[k];
    assert second.1 == first.1;
  }

  /** When every chunk already has its summary file the model is never
      consulted: the result is the saved summaries whatever it would say,
      and no file changes. */
  lemma {:induction false} ResumeAllSaved(chunks: seq<Chunk>, files: map<int, string>, llm: Llm, llm2: Llm, contextLength: int)
    requires forall i :: 0 <= i < |chunks| ==> chunks[i].number in files
    ensures Resume(chunks, files, llm, contextLength) == Resume(chunks, files, llm2, contextLength)
    ensures Resume(chunks, files, llm, contextLength).1 == files
    ensures |Resume(chunks, files, llm, contextLength).0| == |chunks|
  {
    if chunks != [] {
      ResumeAllSaved(chunks[..|chunks| - 1], files, llm, llm2, contextLength);
    }
  }

  // ---------------------------------------------------------------------
  // The roll-up
  // ---------------------------------------------------------------------

  function Entry(s: ChunkSummary): string {
    "Chunk " + IntToString(s.number) + ":\n" + s.summary
  }

  function Entries(summaries: seq<ChunkSummary>): (r: seq<string>)
    ensures |r| == |summaries| && forall i :: 0 <= i < |summaries| ==> r[i] == Entry(summaries[i])
  {
    if summaries == [] then [] else [Entry(summaries[0])] + Entries(summaries[1..])
  }

  /** The text the final prompt is given: the entries `Chunk n:` followed
      by the summary, separated by blank lines. */
  function Combined(summaries: seq<ChunkSummary>): string {
    Join(Entries(summaries), "\n\n")
  }

  // ---------------------------------------------------------------------
  // The folder
  // ---------------------------------------------------------------------

  /** `summary_metadata.json`. */
  datatype Metadata = Metadata(videoFolder: string, srtFileUsed: string, totalChunks: int,
                               processedChunks: int, processingDate: string, preferredLanguage: string)

  /** A video folder: its name, its `.srt` files in listing order with the
      contents of those that can be read, the files of `chunks/` and
      `chunk_summaries/`, and `final_summary.txt` and
      `summary_metadata.json` of `content_summary/` when present. */
  datatype Folder = Folder(name: string, srtFiles: seq<string>, srtContent: map<string, string>,
                           chunkFiles: map<int, string>, summaryFiles: map<int, string>,
                           finalSummary: Option<string>, metadata: Option<Metadata>)

  function ContentOf(f: Folder, srt: string): Option<string> {
    if srt in f.srtContent then Some(f.srtContent[srt]) else None
  }

  /** From the chunks on: save them, summarise them, roll up; the final
      summary and the metadata are written only when the roll-up answers. */
  function Finalize(f: Folder, srt: string, chunks: seq<Chunk>, lang: string, llm: Llm, contextLength: int, now: string): (bool, Folder) {
    var resumed := Resume(chunks, f.summaryFiles, llm, contextLength);
    var g := f.(chunkFiles := SaveChunks(f.chunkFiles, chunks, ChunkFileContent), summaryFiles := resumed.1);
    var final := CallLlm(llm, FinalPrompt, Combined(resumed.0), contextLength);
    if Answered(final) then
      (true, g.(finalSummary := Some(final.value),
                metadata := Some(Metadata(f.name, srt, |chunks|, |resumed.0|, now, lang))))
    else (false, g)
  }

  /** From the parsed subtitles on: nothing parsed is a failure. */
  function Summarize(f: Folder, srt: string, subs: seq<Subtitle>, lang: string, llm: Llm, contextLength: int, now: string): (bool, Folder) {
    if subs == [] then (false, f)
    else Finalize(f, srt, CreateChunks(subs, ChunkText), lang, llm, contextLength, now)
  }

  /** `process_video_folder(folder, lang)`: the result and the folder after. */
  function Process(f: Folder, lang: string, llm: Llm, contextLength: int, now: string): (bool, Folder) {
    if f.srtFiles == [] then (false, f)
    else
      var srt := PreferredSrt(f.srtFiles, lang);
      if f.finalSummary.Some? then (true, f)
      else Summarize(f, srt, ParseSrt(ContentOf(f, srt), ParseBlock), lang, llm, contextLength, now)
  }

  /** The roll-up step keeps the transcript and the old summaries, writes
      the final summary and metadata exactly when it succeeds, and the
      metadata counts at most as many processed chunks as there are. */
  lemma FinalizeProps(f: Folder, srt: string, chunks: seq<Chunk>, lang: string, llm: Llm, contextLength: int, now: string)
    ensures var r := Finalize(f, srt, chunks, lang, llm, contextLength, now);
      && r.1.name == f.name && r.1.srtFiles == f.srtFiles && r.1.srtContent == f.srtContent
      && (forall k :: k in f.summaryFiles ==> k in r.1.summaryFiles && r.1.summaryFiles[k] == f.summaryFiles[k])
      && (r.0 <==> Answered(CallLlm(llm, FinalPrompt, Combined(Resume(chunks, f.summaryFiles, llm, contextLength).0), contextLength)))
      && (r.0 ==> r.1.finalSummary.Some? && r.1.finalSummary.value != ""
                  && r.1.metadata.Some? && r.1.metadata.value.totalChunks == |chunks|
                  && 0 <= r.1.metadata.value.processedChunks <= r.1.metadata.value.totalChunks)
      && (!r.0 ==> r.1.finalSummary == f.finalSummary && r.1.metadata == f.metadata)
  {
    ResumeBounds(chunks, f.summaryFiles, llm, contextLength);
  }

  /** The outcomes of one run: no transcript fails and changes nothing; a
      folder already summarised succeeds and changes nothing; otherwise
      the run succeeds only by writing a non-empty final summary, a failed
      run writes neither summary nor metadata, and an existing chunk
      summary is never overwritten. */
  lemma ProcessProps(f: Folder, lang: string, llm: Llm, contextLength: int, now: string)
    ensures f.srtFiles == [] ==> Process(f, lang, llm, contextLength, now) == (false, f)
    ensures f.srtFiles != [] && f.finalSummary.Some? ==> Process(f, lang, llm, contextLength, now) == (true, f)
    ensures var r := Process(f, lang, llm, contextLength, now);
      && r.1.srtFiles == f.srtFiles && r.1.srtContent == f.srtContent
      && (forall k :: k in f.summaryFiles ==> k in r.1.summaryFiles && r.1.summaryFiles[k] == f.summaryFiles[k])
      && (r.0 ==> r.1.finalSummary.Some?)
      && (f.finalSummary.None? && r.0 ==> r.1.finalSummary.value != "" && r.1.metadata.Some?
                                          && r.1.metadata.value.processedChunks <= r.1.metadata.value.totalChunks)
      && (!r.0 ==> r.1.finalSummary == f.finalSummary && r.1.metadata == f.metadata)
  {
    if f.srtFiles != [] && f.finalSummary.None? {
      var srt := PreferredSrt(f.srtFiles, lang);
      var subs := ParseSrt(ContentOf(f, srt), ParseBlock);
      if subs != [] {
        FinalizeProps(f, srt, CreateChunks(subs, ChunkText), lang, llm, contextLength, now);
      }
    }
  }

  /** Running the roll-up step again on what it left gives the same result
      (the model answering as before). */
  lemma FinalizeRerun(f: Folder, srt: string, chunks: seq<Chunk>, lang: string, llm: Llm, contextLength: int, now: string)
    requires DistinctNumbers(chunks)
    ensures var r := Finalize(f, srt, chunks, lang, llm, contextLength, now);
      !r.0 ==> Finalize(r.1, srt, chunks, lang, llm, contextLength, now) == r
  {
    ResumeRerun(chunks, f.summaryFiles, llm, contextLength);
    SaveChunksTwice(f.chunkFiles, chunks, ChunkFileContent);
  }

  /** A second run on the folder a run left has the same outcome and leaves
      the folder as it is: after a success the final summary is there; after
      a failure the saved chunk summaries are reused and the model, asked
      the same questions, answers the same. */
  lemma ProcessRerun(f: Folder, lang: string, llm: Llm, contextLength: int, now: string)
    ensures var r := Process(f, lang, llm, contextLength, now);
      Process(r.1, lang, llm, contextLength, now) == r
  {
    var r := Process(f, lang, llm, contextLength, now);
    ProcessProps(f, lang, llm, contextLength, now);
    if f.srtFiles != [] && f.finalSummary.None? {
      var srt := PreferredSrt(f.srtFiles, lang);
      var subs := ParseSrt(ContentOf(f, srt), ParseBlock);
      if subs != [] && !r.0 {
        var chunks := CreateChunks(subs, ChunkText);
        ChunkFilesDistinct(subs, ChunkText);
        FinalizeRerun(f, srt, chunks, lang, llm, contextLength, now);
        assert ContentOf(r.1, srt) == ContentOf(f, srt);
      }
    }
  }

  // ---------------------------------------------------------------------
  // The folder as the program changes it
  // ---------------------------------------------------------------------

  class VideoFolder {
    var name: string
    var srtFiles: seq<string>
    var srtContent: map<string, string>
    var chunkFiles: map<int, string>
    var summaryFiles: map<int, string>
    var finalSummary: Option<string>
    var metadata: Option<Metadata>

    function State(): Folder
      reads this
    {
      Folder(name, srtFiles, srtContent, chunkFiles, summaryFiles, finalSummary, metadata)
    }

    /** `save_chunks(chunks, chunks_dir)`. */
    method SaveChunkFiles(chunks: seq<Chunk>)
      modifies this
      ensures chunkFiles == SaveChunks(old(chunkFiles), chunks, ChunkFileContent)
      ensures State() == old(State()).(chunkFiles := chunkFiles)
    {
      for i := 0 to |chunks|
        invariant chunkFiles == SaveChunks(old(chunkFiles), chunks[..i], ChunkFileContent)
        invariant State() == old(State()).(chunkFiles := chunkFiles)
      {
        assert chunks[..i + 1][..i] == chunks[..i];
        var c := chunks[i];
        chunkFiles := chunkFiles[c.number := ChunkFileContent(c)];
      }
      assert chunks[..|chunks|] == chunks;
    }

    /** The chunk loop of `process_video_folder`. */
    method SummarizeEach(chunks: seq<Chunk>, llm: Llm, contextLength: int) returns (collected: seq<ChunkSummary>)
      modifies this
      ensures (collected, summaryFiles) == Resume(chunks, old(summaryFiles), llm, contextLength)
      ensures State() == old(State()).(summaryFiles := summaryFiles)
    {
      collected := [];
      for i := 0 to |chunks|
        invariant (collected, summaryFiles) == Resume(chunks[..i], old(summaryFiles), llm, contextLength)
        invariant State() == old(State()).(summaryFiles := summaryFiles)
      {
        assert chunks[..i + 1][..i] == chunks[..i];
        var c := chunks[i];
        if c.number in summaryFiles {
          collected := collected + [ChunkSummary(c.number, summaryFiles[c.number])];
        } else {
          var summary := CallLlm(llm, ChunkPrompt, c.text, contextLength);
          if summary.Some? && summary.value != "" {
            summaryFiles := summaryFiles[c.number := summary.value];
            collected := collected + [ChunkSummary(c.number, summary.value)];
          }
        }
      }
      assert chunks[..|chunks|] == chunks;
    }

    /** From the chunks on: save them, summarise them, roll up. */
    method SummarizeChunks(srt: string, chunks: seq<Chunk>, lang: string, llm: Llm, contextLength: int, now: string)
      returns (ok: bool)
      modifies this
      ensures (ok, State()) == Finalize(old(State()), srt, chunks, lang, llm, contextLength, now)
    {
      SaveChunkFiles(chunks);
      var collected := SummarizeEach(chunks, llm, contextLength);
      var final := CallLlm(llm, FinalPrompt, Combined(collected), contextLength);
      if final.Some? && final.value != "" {
        finalSummary := Some(final.value);
        metadata := Some(Metadata(name, srt, |chunks|, |collected|, now, lang));
        return true;
      }
      return false;
    }

    /** `process_video_folder(video_folder, preferred_language)`; `now` is
        the processing date written to the metadata. */
    method ProcessVideoFolder(lang: string, llm: Llm, contextLength: int, now: string) returns (ok: bool)
      modifies this
      ensures (ok, State()) == Process(old(State()), lang, llm, contextLength, now)
    {
      if srtFiles == [] {
        return false;
      }
      var srt := ChooseSrt(srtFiles, lang);
      if finalSummary.Some? {
        return true;
      }
      var content := if srt in srtContent then Some(srtContent[srt]) else None;
      var subtitles := ParseSrtFile(content);
      if subtitles == [] {
        return false;
      }
      var chunks := Create5MinChunks(subtitles);
      ok := SummarizeChunks(srt, chunks, lang, llm, contextLength, now);
    }
  }
}
