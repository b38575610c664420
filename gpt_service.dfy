/**
 * `processAndGenerateStickies` (js/services/gptService.js:32-93): cut the
 * raw text into windows, send each window to the completion service with
 * its chunk number, parse the reply into sticky notes, append them to the
 * result and hand them to the progress callback; a window whose request
 * fails is skipped and the loop goes on with the next one.
 *
 * The completion service and the clock that stamps new notes are fixed for
 * one run and passed in as `Env`; the progress callback is modelled by the
 * log of the batches it receives.
 */
module GptService {
  import opened Wrappers
  import opened JsText
  import opened Notes
  import opened Chunker
  import opened PromptBuilder
  import opened CompletionClient
  import opened ResponseParser

  /**
   * What the pipeline cannot see: the completion endpoint, and the
   * identifiers and timestamps given to the notes parsed from the reply to
   * the chunk with a given number.
   */
  datatype Env = Env(complete: seq<Message> -> Reply, clock: nat -> nat -> Stamp)

  /** Every window lies inside `text`. */
  predicate InText(text: string, ws: seq<Window>)
  {
    forall k :: 0 <= k < |ws| ==> ws[k].start <= ws[k].end <= |text|
  }

  /**
   * The notes obtained for one chunk (lines 69-74): the parsed reply, or
   * `None` when the request fails (the catch at lines 80-82).
   */
  function ChunkStickies(env: Env, documentName: string, chunk: string, chunkIndex: nat): (r: Option<seq<NoteRecord>>)
    ensures r.None? <==> !env.complete(ChunkMessages(chunk, chunkIndex)).Completed?
    ensures r.Some? ==>
      r.value == ParsedNotes(Trim(env.complete(ChunkMessages(chunk, chunkIndex)).content), documentName, env.clock(chunkIndex))
  {
    match CallGPT4API(env.complete, ChunkMessages(chunk, chunkIndex))
    case Success(response) => Some(ParsedNotes(response, documentName, env.clock(chunkIndex)))
    case Failure(_) => None
  }

  /**
   * What a run has produced so far: the notes collected (`allStickies`),
   * the prompts sent, and the batches handed to the progress callback.
   */
  datatype Run = Run(stickies: seq<NoteRecord>, requests: seq<seq<Message>>, reported: seq<seq<NoteRecord>>)

  /**
   * A run after one more window whose prompt was `messages` and whose
   * outcome was `outcome`: the prompt is logged either way; the notes of a
   * successful window are appended and, when there is a callback, reported.
   */
  function Record(run: Run, messages: seq<Message>, outcome: Option<seq<NoteRecord>>, hasProgressCallback: bool): (next: Run)
    ensures next.requests == run.requests + [messages]
    ensures outcome.None? ==> next.stickies == run.stickies && next.reported == run.reported
    ensures outcome.Some? ==> next.stickies == run.stickies + outcome.value
    ensures next.reported == run.reported + (if outcome.Some? && hasProgressCallback then [outcome.value] else [])
  {
    match outcome
    case None => Run(run.stickies, run.requests + [messages], run.reported)
    case Some(notes) =>
      Run(run.stickies + notes, run.requests + [messages],
          if hasProgressCallback then run.reported + [notes] else run.reported)
  }

  /**
   * The run over the windows `ws`, the `k`-th numbered `k + 1`: one prompt
   * per window, failed or not, and at most one reported batch per window,
   * none without a callback.
   */
  function RunOver(env: Env, text: string, documentName: string, hasProgressCallback: bool, ws: seq<Window>): (run: Run)
    requires InText(text, ws)
    ensures |run.requests| == |ws|
    ensures |run.reported| <= |ws|
    ensures !hasProgressCallback ==> run.reported == []
  {
    if ws == [] then Run([], [], [])
    else
      var w := ws[|ws| - 1];
      var chunk := text[w.start..w.end];
      Record(RunOver(env, text, documentName, hasProgressCallback, ws[..|ws| - 1]),
             ChunkMessages(chunk, |ws|), ChunkStickies(env, documentName, chunk, |ws|), hasProgressCallback)
  }

  /** The lists of `bs` one after the other. */
  function Flatten<T>(bs: seq<seq<T>>): seq<T>
  {
    if bs == [] then [] else Flatten(bs[..|bs| - 1]) + bs[|bs| - 1]
  }

  lemma AppendAssoc<T>(a: seq<T>, b: seq<T>, c: seq<T>)
    ensures a + (b + c) == (a + b) + c
  {
  }

  /** One more window: the run grows by what that window contributes. */
  lemma RunOverSnoc(env: Env, text: string, documentName: string, hasProgressCallback: bool,
                    done: seq<Window>, w: Window, chunk: string, n: nat)
    requires InText(text, done) && w.start <= w.end <= |text|
    requires chunk == text[w.start..w.end] && n == |done| + 1
    ensures InText(text, done + [w])
    ensures RunOver(env, text, documentName, hasProgressCallback, done + [w])
      == Record(RunOver(env, text, documentName, hasProgressCallback, done),
                ChunkMessages(chunk, n), ChunkStickies(env, documentName, chunk, n), hasProgressCallback)
  {
    var ws := done + [w];
    assert ws[..|ws| - 1] == done;
    assert ws[|ws| - 1] == w;
  }

  /**
   * One pass of the loop body, lines 53-82: build the prompt, call the
   * service, and on success parse the reply into notes stamped by the clock
   * for this chunk number, append them and report them to the callback; a
   * failed call is caught and only the prompt remains logged.
   */
  method ProcessChunk(env: Env, documentName: string, hasProgressCallback: bool, chunk: string, chunkIndex: nat,
                      allStickies: seq<NoteRecord>, requests: seq<seq<Message>>, progress: seq<seq<NoteRecord>>)
    returns (allStickies': seq<NoteRecord>, requests': seq<seq<Message>>, progress': seq<seq<NoteRecord>>)
    ensures Run(allStickies', requests', progress')
      == Record(Run(allStickies, requests, progress), ChunkMessages(chunk, chunkIndex),
                ChunkStickies(env, documentName, chunk, chunkIndex), hasProgressCallback)
  {
    var messages := ChunkMessages(chunk, chunkIndex);
    requests' := requests + [messages];
    allStickies', progress' := allStickies, progress;
    var response := CallGPT4API(env.complete, messages);
    if response.Success? {
      var chunkStickies := ParseStickiesFromResponse(response.value, documentName, env.clock(chunkIndex));
      allStickies' := allStickies + chunkStickies;
      if hasProgressCallback {
        progress' := progress + [chunkStickies];
      }
    }
  }

  /**
   * The loop of lines 35-92: number the chunk, cut the window (lines 43-51),
   * process it, and move on to the end of the window, stopping at the end of
   * the text. The outputs are the run over the windows of `rawData`.
   */
  method ProcessAndGenerateStickies(env: Env, rawData: string, documentName: string, hasProgressCallback: bool)
    returns (allStickies: seq<NoteRecord>, requests: seq<seq<Message>>, progress: seq<seq<NoteRecord>>)
    ensures Run(allStickies, requests, progress)
      == RunOver(env, rawData, documentName, hasProgressCallback, Windows(rawData, 0))
  {
    allStickies, requests, progress := [], [], [];
    var startIndex: nat := 0;
    var chunkIndex: nat := 0;
    ghost var done: seq<Window> := [];
    while startIndex < |rawData|
      invariant startIndex <= |rawData|
      invariant Windows(rawData, 0) == done + Windows(rawData, startIndex)
      invariant InText(rawData, done)
      invariant chunkIndex == |done|
      invariant Run(allStickies, requests, progress) == RunOver(env, rawData, documentName, hasProgressCallback, done)
      decreases |rawData| - startIndex
    {
      chunkIndex := chunkIndex + 1;
      var endIndex: int := Min(startIndex + MaxChunkSize, |rawData|);
      var naturalBreak := LastIndexOf(rawData, '.', endIndex);
      if naturalBreak > startIndex && naturalBreak < endIndex {
        endIndex := naturalBreak + 1;
      }
      assert endIndex == WindowEnd(rawData, startIndex);
      var chunk := rawData[startIndex..endIndex];
      allStickies, requests, progress :=
        ProcessChunk(env, documentName, hasProgressCallback, chunk, chunkIndex, allStickies, requests, progress);
      var w := Window(startIndex, endIndex);
      RunOverSnoc(env, rawData, documentName, hasProgressCallback, done, w, chunk, chunkIndex);
      WindowsStep(rawData, startIndex);
      AppendAssoc(done, [w], Windows(rawData, endIndex));
      done := done + [w];
      startIndex := endIndex;
      if startIndex >= |rawData| {
        break;
      }
      startIndex := Max(startIndex - OverlapSize, endIndex);
    }
    assert Windows(rawData, 0) == done + [];
    assert done + [] == done;
  }

  /** An empty document has no window: nothing is sent, nothing reported, no note returned. */
  lemma EmptyDocumentSendsNothing(env: Env, documentName: string, hasProgressCallback: bool)
    ensures RunOver(env, "", documentName, hasProgressCallback, Windows("", 0)) == Run([], [], [])
  {
  }

  /** The `k`-th prompt is the prompt for the `k`-th window, numbered `k + 1`. */
  lemma {:induction false} RunOverRequest(env: Env, text: string, documentName: string, hasProgressCallback: bool,
                                          ws: seq<Window>, k: nat)
    requires InText(text, ws) && k < |ws|
    ensures |RunOver(env, text, documentName, hasProgressCallback, ws).requests| == |ws|
    ensures RunOver(env, text, documentName, hasProgressCallback, ws).requests[k]
      == ChunkMessages(text[ws[k].start..ws[k].end], k + 1)
    decreases |ws|
  {
    var prefix := ws[..|ws| - 1];
    if k < |ws| - 1 {
      RunOverRequest(env, text, documentName, hasProgressCallback, prefix, k);
      assert prefix[k] == ws[k];
    }
  }

  /** The text of the user message that carries the window, if there is one. */
  function ChunkTextOf(messages: seq<Message>): string
  {
    if |messages| >= 2 then messages[1].content else []
  }

  /** The window texts the prompts carry, in order. */
  function SentChunks(requests: seq<seq<Message>>): (chunks: seq<string>)
    ensures |chunks| == |requests|
    ensures forall k :: 0 <= k < |requests| ==> chunks[k] == ChunkTextOf(requests[k])
  {
    seq(|requests|, k requires 0 <= k < |requests| => ChunkTextOf(requests[k]))
  }

  /** The `k`-th prompt of a run carries the `k`-th window's text and names chunk `k + 1`. */
  lemma PromptAt(env: Env, text: string, documentName: string, hasProgressCallback: bool, ws: seq<Window>, k: nat)
    requires InText(text, ws) && k < |ws|
    ensures var requests := RunOver(env, text, documentName, hasProgressCallback, ws).requests;
      && k < |requests|
      && ChunkTextOf(requests[k]) == WindowTexts(text, ws)[k]
      && ChunkNumber(requests[k]) == Some(k + 1)
  {
    RunOverRequest(env, text, documentName, hasProgressCallback, ws, k);
    WindowTextsAt(text, ws, k);
    ChunkMessagesNameTheChunk(text[ws[k].start..ws[k].end], k + 1);
  }

  /**
   * The prompts of a run cover the text: put together, the window texts
   * they carry are exactly `rawData`, and the `k`-th prompt names chunk
   * `k + 1`.
   */
  lemma PromptsCoverText(env: Env, rawData: string, documentName: string, hasProgressCallback: bool)
    ensures var requests := RunOver(env, rawData, documentName, hasProgressCallback, Windows(rawData, 0)).requests;
      && Concat(SentChunks(requests)) == rawData
      && forall k :: 0 <= k < |requests| ==> ChunkNumber(requests[k]) == Some(k + 1)
  {
    var ws := Windows(rawData, 0);
    var requests := RunOver(env, rawData, documentName, hasProgressCallback, ws).requests;
    forall k | 0 <= k < |ws|
      ensures SentChunks(requests)[k] == WindowTexts(rawData, ws)[k]
      ensures ChunkNumber(requests[k]) == Some(k + 1)
    {
      PromptAt(env, rawData, documentName, hasProgressCallback, ws, k);
    }
    assert SentChunks(requests) == WindowTexts(rawData, ws);
    WindowsReassemble(rawData, 0);
    assert rawData[0..] == rawData;
  }

  lemma FlattenSnoc<T>(bs: seq<seq<T>>, b: seq<T>)
    ensures Flatten(bs + [b]) == Flatten(bs) + b
  {
    assert (bs + [b])[..|bs|] == bs;
  }

  /**
   * With a callback, the batches it receives, put together, are exactly the
   * notes returned, in order; without one nothing is reported, and, for the
   * same service answers and stamps, the notes returned are the same either
   * way.
   */
  lemma {:induction false} ProgressReportsEveryNote(env: Env, text: string, documentName: string, ws: seq<Window>)
    requires InText(text, ws)
    ensures Flatten(RunOver(env, text, documentName, true, ws).reported) == RunOver(env, text, documentName, true, ws).stickies
    ensures RunOver(env, text, documentName, false, ws).reported == []
    ensures RunOver(env, text, documentName, false, ws).stickies == RunOver(env, text, documentName, true, ws).stickies
    decreases |ws|
  {
    if ws != [] {
      var prefix := ws[..|ws| - 1];
      ProgressReportsEveryNote(env, text, documentName, prefix);
      var w := ws[|ws| - 1];
      var outcome := ChunkStickies(env, documentName, text[w.start..w.end], |ws|);
      if outcome.Some? {
        FlattenSnoc(RunOver(env, text, documentName, true, prefix).reported, outcome.value);
      }
    }
  }

  /**
   * A service that answers none of the prompts sent leaves the run without
   * notes and without reports, although every window was still sent.
   */
  lemma {:induction false} UnansweredRunHasNoNotes(env: Env, text: string, documentName: string, hasProgressCallback: bool,
                                                   ws: seq<Window>)
    requires InText(text, ws)
    requires forall m :: m in RunOver(env, text, documentName, hasProgressCallback, ws).requests ==> !env.complete(m).Completed?
    ensures RunOver(env, text, documentName, hasProgressCallback, ws).stickies == []
    ensures RunOver(env, text, documentName, hasProgressCallback, ws).reported == []
    decreases |ws|
  {
    if ws != [] {
      var prefix := ws[..|ws| - 1];
      var w := ws[|ws| - 1];
      var messages := ChunkMessages(text[w.start..w.end], |ws|);
      var before := RunOver(env, text, documentName, hasProgressCallback, prefix);
      assert RunOver(env, text, documentName, hasProgressCallback, ws).requests == before.requests + [messages];
      assert messages in RunOver(env, text, documentName, hasProgressCallback, ws).requests;
      UnansweredRunHasNoNotes(env, text, documentName, hasProgressCallback, prefix);
    }
  }

  /** A note as the parser makes it: from the document, not yet filed under an id, with trimmed fields. */
  predicate FromDocument(note: NoteRecord, documentName: string)
  {
    && note.documentName == documentName && note.documentId == None
    && Trimmed(note.source) && Trimmed(note.content) && Trimmed(note.insight)
  }


  /** Every note of a run carries the document name, no document id and trimmed fields. */
  lemma {:induction false} RunNotesFromDocument(env: Env, text: string, documentName: string, hasProgressCallback: bool,
                                                ws: seq<Window>, i: nat)
    requires InText(text, ws)
    requires i < |RunOver(env, text, documentName, hasProgressCallback, ws).stickies|
    ensures FromDocument(RunOver(env, text, documentName, hasProgressCallback, ws).stickies[i], documentName)
    decreases |ws|
  {
    var prefix := ws[..|ws| - 1];
    var before := RunOver(env, text, documentName, hasProgressCallback, prefix).stickies;
    var notes := RunOver(env, text, documentName, hasProgressCallback, ws).stickies;
    if i < |before| {
      RunNotesFromDocument(env, text, documentName, hasProgressCallback, prefix, i);
      var w := ws[|ws| - 1];
      var outcome := ChunkStickies(env, documentName, text[w.start..w.end], |ws|);
      if outcome.Some? {
        assert notes == before + outcome.value;
      }
      assert notes[i] == before[i];
    } else {
      var w := ws[|ws| - 1];
      var n := |ws|;
      var response := CallGPT4API(env.complete, ChunkMessages(text[w.start..w.end], n));
      var parsed := ParsedNotes(response.value, documentName, env.clock(n));
      assert notes == before + parsed;
      ParsedNotesFields(response.value, documentName, env.clock(n), i - |before|);
      assert notes[i] == parsed[i - |before|];
    }
  }
}
