/**
 * How `processAndGenerateStickies` cuts a document into windows
 * (js/services/gptService.js:35-51 and 84-88): a window is at most
 * `MaxChunkSize` characters and ends, when it can, just after the last
 * period that lies strictly inside it.
 */
module Chunker {
  import opened JsText

  const MaxChunkSize: nat := 4000
  /** Declared by the source, but without effect (see `NextStart`). */
  const OverlapSize: nat := 1000

  /** The half-open range `[start, end)` of one window. */
  datatype Window = Window(start: nat, end: nat)

  /**
   * Where the window that starts at `start` ends. The candidate end is
   * `start + MaxChunkSize`, capped by the length; `lastIndexOf('.', cand)`
   * then finds the last period at or before the candidate end, and the
   * window is pulled back to just after it only when that period lies
   * strictly between `start` and `cand` (`WindowEndRule`).
   */
  function WindowEnd(text: string, start: nat): (end: nat)
    requires start < |text|
    ensures start < end <= Min(start + MaxChunkSize, |text|)
  {
    var cand := Min(start + MaxChunkSize, |text|);
    var naturalBreak := LastIndexOf(text, '.', cand);
    if start < naturalBreak < cand then naturalBreak + 1 else cand
  }

  /**
   * The window-end rule in full, with `cand` the candidate end. A period at
   * `cand` itself hides every earlier one and the window is a hard cut; so
   * is a window with no period strictly between `start` and `cand`.
   * Otherwise the window ends just after the last such period, so it ends
   * with a period (a period at `start` itself is never used). This applies
   * to the final window too.
   */
  lemma WindowEndRule(text: string, start: nat)
    requires start < |text|
    ensures var cand := Min(start + MaxChunkSize, |text|);
      var end := WindowEnd(text, start);
      var periodInside := exists j :: start < j < cand && text[j] == '.';
      && (cand < |text| && text[cand] == '.' ==> end == cand)
      && (!periodInside ==> end == cand)
      && (periodInside && !(cand < |text| && text[cand] == '.') ==>
            && start + 1 < end
            && text[end - 1] == '.'
            && forall j :: end <= j < cand ==> text[j] != '.')
  {
    var cand := Min(start + MaxChunkSize, |text|);
    var q := LastIndexOf(text, '.', cand);
    if cand < |text| && text[cand] == '.' {
      assert q == cand;
    } else if exists j :: start < j < cand && text[j] == '.' {
      var j :| start < j < cand && text[j] == '.';
      assert start < j <= q < cand;
      assert WindowEnd(text, start) == q + 1;
    } else {
      assert q <= start;
    }
  }

  /**
   * The start of the next window, as line 88 computes it after setting the
   * start to the previous end: `max(start - OverlapSize, end)` with
   * `start == end`, which is always `end`. The declared overlap never takes
   * effect.
   */
  function NextStart(endIndex: nat): (next: int)
    ensures next == endIndex
  {
    var startIndex := endIndex;
    Max(startIndex - OverlapSize, endIndex)
  }

  /** The windows of `text` from offset `start` on, in order. */
  function Windows(text: string, start: nat): (ws: seq<Window>)
    requires start <= |text|
    ensures ws == [] <==> start == |text|
    ensures forall k :: 0 <= k < |ws| ==> start <= ws[k].start < ws[k].end <= |text|
    decreases |text| - start
  {
    if start == |text| then []
    else
      var end := WindowEnd(text, start);
      var rest := Windows(text, NextStart(end));
      var ws := [Window(start, end)] + rest;
      assert forall k :: 1 <= k < |ws| ==> ws[k] == rest[k - 1];
      ws
  }

  /** The windows from `start` are the window at `start` followed by the windows from its end. */
  lemma WindowsStep(text: string, start: nat)
    requires start < |text|
    ensures Windows(text, start) == [Window(start, WindowEnd(text, start))] + Windows(text, WindowEnd(text, start))
  {
  }

  /**
   * The windows tile the text: the first starts at `start`, the last ends
   * at the end of the text, each next window starts exactly where the
   * previous one ended (no overlap, no gap), and every window is non-empty,
   * at most `MaxChunkSize` long and ends where `WindowEnd` says.
   */
  lemma {:induction false} WindowsTile(text: string, start: nat)
    requires start < |text|
    ensures var ws := Windows(text, start);
      && ws[0].start == start
      && ws[|ws| - 1].end == |text|
      && (forall k :: 0 <= k < |ws| ==>
            && ws[k].end - ws[k].start <= MaxChunkSize
            && ws[k].end == WindowEnd(text, ws[k].start))
      && (forall i, j {:trigger ws[i], ws[j]} :: 0 <= i && j == i + 1 < |ws| ==> ws[i].end == ws[j].start)
    decreases |text| - start
  {
    var ws := Windows(text, start);
    var end := WindowEnd(text, start);
    var rest := Windows(text, end);
    assert ws == [Window(start, end)] + rest;
    if end < |text| {
      WindowsTile(text, end);
      forall i, j | 0 <= i && j == i + 1 < |ws|
        ensures ws[i].end == ws[j].start
      {
        if i > 0 { assert ws[i] == rest[i - 1] && ws[j] == rest[j - 1]; }
      }
    }
  }

  /** The text of each window, in order. */
  function WindowTexts(text: string, ws: seq<Window>): (chunks: seq<string>)
    requires forall k :: 0 <= k < |ws| ==> ws[k].start <= ws[k].end <= |text|
    ensures |chunks| == |ws|
  {
    if ws == [] then [] else [text[ws[0].start..ws[0].end]] + WindowTexts(text, ws[1..])
  }

  /** The `k`-th window text is the slice of the `k`-th window. */
  lemma {:induction false} WindowTextsAt(text: string, ws: seq<Window>, k: nat)
    requires forall k :: 0 <= k < |ws| ==> ws[k].start <= ws[k].end <= |text|
    requires k < |ws|
    ensures WindowTexts(text, ws)[k] == text[ws[k].start..ws[k].end]
    decreases k
  {
    if k > 0 {
      WindowTextsAt(text, ws[1..], k - 1);
    }
  }

  /** The strings of `chunks` one after the other. */
  function Concat(chunks: seq<string>): string
  {
    if chunks == [] then [] else chunks[0] + Concat(chunks[1..])
  }

  /**
   * Nothing is lost and nothing is repeated: the windows, put back together,
   * are exactly the text from `start` on.
   */
  lemma {:induction false} WindowsReassemble(text: string, start: nat)
    requires start <= |text|
    ensures Concat(WindowTexts(text, Windows(text, start))) == text[start..]
    decreases |text| - start
  {
    if start < |text| {
      var end := WindowEnd(text, start);
      var rest := Windows(text, end);
      var ws := Windows(text, start);
      assert ws == [Window(start, end)] + rest;
      assert ws[1..] == rest;
      var chunks := WindowTexts(text, ws);
      assert chunks == [text[start..end]] + WindowTexts(text, rest);
      assert chunks[1..] == WindowTexts(text, rest);
      WindowsReassemble(text, end);
      assert text[start..] == text[start..end] + text[end..];
    }
  }

  /** With no period in the text every window is a hard cut of `MaxChunkSize`. */
  lemma {:induction false} HardCutsWithoutPeriods(text: string, start: nat)
    requires start <= |text|
    requires forall j :: 0 <= j < |text| ==> text[j] != '.'
    ensures var ws := Windows(text, start);
      forall k :: 0 <= k < |ws| ==>
        ws[k] == Window(start + k * MaxChunkSize, Min(start + (k + 1) * MaxChunkSize, |text|))
    decreases |text| - start
  {
    if start < |text| {
      var end := WindowEnd(text, start);
      assert end == Min(start + MaxChunkSize, |text|);
      HardCutsWithoutPeriods(text, end);
      var ws := Windows(text, start);
      forall k | 1 <= k < |ws|
        ensures ws[k] == Window(start + k * MaxChunkSize, Min(start + (k + 1) * MaxChunkSize, |text|))
      {
        assert ws[k] == Windows(text, end)[k - 1];
      }
    }
  }

  /** A 9000-character text without a period gives [0,4000), [4000,8000), [8000,9000). */
  lemma NineThousandWithoutPeriods(text: string)
    requires |text| == 9000
    requires forall j :: 0 <= j < |text| ==> text[j] != '.'
    ensures Windows(text, 0) == [Window(0, 4000), Window(4000, 8000), Window(8000, 9000)]
  {
    HardCutsWithoutPeriods(text, 0);
    WindowsTile(text, 0);
    var ws := Windows(text, 0);
    var n := |ws|;
    assert ws[n - 1] == Window((n - 1) * 4000, Min(n * 4000, 9000));
    assert (n - 1) * 4000 < 9000 <= n * 4000;
    assert n == 3;
  }

  /** The final window is also pulled back to a period: "Hello. World" splits after "Hello.". */
  lemma FinalWindowPulledBack()
    ensures Windows("Hello. World", 0) == [Window(0, 6), Window(6, 12)]
  {
    var text := "Hello. World";
    assert text[5] == '.';
    WindowEndRule(text, 0);
    var e0 := WindowEnd(text, 0);
    assert e0 == 6 by {
      assert forall k :: 5 < k < 12 ==> text[k] != '.';
      assert forall k :: 0 <= k < 5 ==> text[k] != '.';
    }
    WindowEndRule(text, 6);
    assert WindowEnd(text, 6) == 12 by {
      assert forall j :: 6 < j < 12 ==> text[j] != '.';
    }
  }
}
