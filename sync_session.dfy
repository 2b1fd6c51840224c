/**
 * The manual sync session of the lyric lab ("TAP to STAMP"): the pasted lyrics
 * become a list of raw lines, each tap stamps the next line with the current
 * playback time, restart throws the stamps away, and once every line has been
 * stamped the stamps become the lyrics being played and are written out as LRC.
 *
 * script.js keeps this state in four globals; here they are the fields of one
 * `Studio` object, and the reads of the audio clock and of the text field
 * become parameters.
 */
module SyncSession {
  import opened JsText
  import opened Timeline
  import opened LrcFormat
  import opened LrcRoundTrip

  // ---------------------------------------------------------------------------
  // Raw lines
  // ---------------------------------------------------------------------------

  /** `lines.map(l => l.trim()).filter(l => l)`: trimmed lines, empty ones left out. */
  function TrimmedNonEmpty(lines: seq<string>): seq<string> {
    if lines == [] then []
    else (if Trim(lines[0]) == "" then [] else [Trim(lines[0])]) + TrimmedNonEmpty(lines[1..])
  }

  /** `rawLines` for the (already trimmed) text of the lyrics field. */
  function RawLines(txt: string): seq<string> {
    TrimmedNonEmpty(SplitLines(txt))
  }

  /** What a raw line is: not empty, no whitespace at either end, no line feed. */
  predicate IsRawLine(l: string) {
    l != "" && IsTrimmed(l) && '\n' !in l
  }

  /** Every raw line is non-empty, trimmed and free of line feeds. */
  lemma {:induction false} RawLinesAreRaw(lines: seq<string>)
    requires forall i :: 0 <= i < |lines| ==> '\n' !in lines[i]
    ensures forall i :: 0 <= i < |TrimmedNonEmpty(lines)| ==> IsRawLine(TrimmedNonEmpty(lines)[i])
    decreases |lines|
  {
    if lines != [] {
      RawLinesAreRaw(lines[1..]);
      TrimSpec(lines[0]);
      TrimKeepsOut(lines[0], '\n');
      var head := if Trim(lines[0]) == "" then [] else [Trim(lines[0])];
      assert TrimmedNonEmpty(lines) == head + TrimmedNonEmpty(lines[1..]);
    }
  }

  /** Trimming only removes characters. */
  lemma TrimKeepsOut(s: string, c: char)
    requires c !in s
    ensures c !in Trim(s)
  {
    TrimStartSpec(s);
    TrimEndSpec(TrimStart(s));
    var a := TrimStart(s);
    var r := TrimEnd(a);
    forall k | 0 <= k < |r| ensures r[k] != c {
      assert r[k] == a[k] == s[|s| - |a| + k];
    }
  }

  /** Line order is kept: the raw lines of two blocks are the raw lines of each, one after the other. */
  lemma {:induction false} TrimmedNonEmptyAppend(a: seq<string>, b: seq<string>)
    ensures TrimmedNonEmpty(a + b) == TrimmedNonEmpty(a) + TrimmedNonEmpty(b)
    decreases |a|
  {
    if a == [] {
      assert a + b == b;
    } else {
      assert (a + b)[0] == a[0] && (a + b)[1..] == a[1..] + b;
      TrimmedNonEmptyAppend(a[1..], b);
    }
  }

  /** A single line becomes its trimmed self, or disappears when it is blank. */
  lemma TrimmedNonEmptyOne(l: string)
    ensures TrimmedNonEmpty([l]) == if AllSpace(l) then [] else [Trim(l)]
  {
    TrimSpec(l);
  }

  /** A session only starts on non-blank text, and non-blank text always gives at least one raw line. */
  lemma StartGivesLines(field: string)
    requires Trim(field) != ""
    ensures |RawLines(Trim(field))| >= 1
  {
    var txt := Trim(field);
    TrimSpec(field);
    var lines := SplitLines(txt);
    var i := NewlineIndex(txt);
    assert txt[0] != '\n';
    assert lines[0] == txt[..i] && i >= 1;
    assert lines == [lines[0]] + lines[1..];
    TrimmedNonEmptyAppend([lines[0]], lines[1..]);
    TrimmedNonEmptyOne(lines[0]);
    assert !IsSpace(lines[0][0]);
  }

  /** Lines that are already raw survive `trim`, `split` and the filter unchanged. */
  lemma {:induction false} RawLinesKept(lines: seq<string>)
    requires forall i :: 0 <= i < |lines| ==> IsRawLine(lines[i])
    ensures TrimmedNonEmpty(lines) == lines
    decreases |lines|
  {
    if lines != [] {
      TrimSpec(lines[0]);
      RawLinesKept(lines[1..]);
    }
  }

  /**
   * Pasting raw lines, one per line, gives exactly those lines to stamp, in
   * order: `"line1\nline2"` becomes `["line1", "line2"]`.
   */
  lemma RawLinesOfPasted(lines: seq<string>)
    requires |lines| >= 1
    requires forall i :: 0 <= i < |lines| ==> IsRawLine(lines[i])
    ensures Trim(JoinLines(lines)) == JoinLines(lines)
    ensures RawLines(Trim(JoinLines(lines))) == lines
  {
    var j := JoinLines(lines);
    var last := lines[|lines| - 1];
    JoinEnds(lines);
    assert IsRawLine(lines[0]) && IsRawLine(last);
    assert !IsSpace(j[0]) && !IsSpace(j[|j| - 1]);
    TrimSpec(j);
    assert Trim(j) == j;
    forall i | 0 <= i < |lines| ensures '\n' !in lines[i] {
      assert IsRawLine(lines[i]);
    }
    SplitJoin(lines);
    RawLinesKept(lines);
  }

  /** The joined text starts with the first line's first character and ends with the last line's last one. */
  lemma {:induction false} JoinEnds(lines: seq<string>)
    requires |lines| >= 1
    requires forall i :: 0 <= i < |lines| ==> lines[i] != ""
    ensures var j := JoinLines(lines);
      |j| >= 1 && j[0] == lines[0][0] && j[|j| - 1] == lines[|lines| - 1][|lines[|lines| - 1]| - 1]
    decreases |lines|
  {
    if |lines| > 1 {
      JoinEnds(lines[1..]);
    }
  }

  // ---------------------------------------------------------------------------
  // The lab display
  // ---------------------------------------------------------------------------

  /** What `updateLabDisplay` puts on screen; `fill` is the progress bar width in percent. */
  datatype LabView = LabView(status: string, fill: real, prev: string, cur: string, next: string, button: string)

  /** `lines[i] || fallback`: the line when it exists and is not empty, the fallback otherwise. */
  function LineOr(lines: seq<string>, i: int, fallback: string): string {
    if 0 <= i < |lines| && lines[i] != "" then lines[i] else fallback
  }

  /**
   * `updateLabDisplay`: while lines remain, the previous, current and next line
   * around the cursor; once all are stamped, the completion screen. (Writing
   * `undefined` into an element shows the text "undefined".) script.js only
   * calls it while lines remain, so the completion branch is never on screen:
   * the last tap runs `finishGen` instead, which hides the lab.
   */
  function View(rawLines: seq<string>, syncIndex: nat): LabView {
    if syncIndex < |rawLines| then
      LabView("Line " + NatToDecimal(syncIndex + 1) + " / " + NatToDecimal(|rawLines|),
              syncIndex as real / |rawLines| as real * 100.0,
              LineOr(rawLines, syncIndex - 1, "..."),
              rawLines[syncIndex],
              LineOr(rawLines, syncIndex + 1, "(End)"),
              "TAP to STAMP")
    else
      LabView("COMPLETE", 100.0,
              if |rawLines| > 0 then rawLines[|rawLines| - 1] else "undefined",
              "DONE!", "Saving...", "FINISH")
  }

  /**
   * The window over the raw lines: the current line is the one the next tap
   * stamps, flanked by its neighbours or by "..." before the first and "(End)"
   * after the last; the bar is below 100% until the session completes.
   */
  lemma ViewWindow(rawLines: seq<string>, k: nat)
    requires forall i :: 0 <= i < |rawLines| ==> rawLines[i] != ""
    requires k < |rawLines|
    ensures View(rawLines, k).cur == rawLines[k]
    ensures View(rawLines, k).prev == if k == 0 then "..." else rawLines[k - 1]
    ensures View(rawLines, k).next == if k + 1 == |rawLines| then "(End)" else rawLines[k + 1]
    ensures 0.0 <= View(rawLines, k).fill < 100.0
  {
    Fraction(k as real, |rawLines| as real);
  }

  lemma Fraction(a: real, b: real)
    requires 0.0 <= a < b
    ensures 0.0 <= a / b < 1.0
  {
    assert a / b * b == a;
  }

  /**
   * As a function of the cursor, one step slides the window by one line: the
   * current line becomes the previous one, the next line becomes the current
   * one, and the bar grows. For the step past the last line this speaks of the
   * completion branch, which script.js never puts on screen (see `View`).
   */
  lemma ViewSlides(rawLines: seq<string>, k: nat)
    requires forall i :: 0 <= i < |rawLines| ==> rawLines[i] != ""
    requires k < |rawLines|
    ensures View(rawLines, k + 1).prev == View(rawLines, k).cur
    ensures k + 1 < |rawLines| ==> View(rawLines, k + 1).cur == View(rawLines, k).next
    ensures View(rawLines, k).fill < View(rawLines, k + 1).fill
  {
    var n := |rawLines| as real;
    Fraction(k as real, n);
    if k + 1 < |rawLines| {
      FractionGrows(k as real, (k + 1) as real, n);
    }
  }

  /** After the tap that stamps line `k`, that line is shown as the previous one, and the next line as current. */
  lemma TapShows(rawLines: seq<string>, k: nat)
    requires forall i :: 0 <= i < |rawLines| ==> IsRawLine(rawLines[i])
    requires k < |rawLines|
    ensures View(rawLines, k + 1).prev == rawLines[k]
    ensures k + 1 < |rawLines| ==> View(rawLines, k + 1).cur == rawLines[k + 1]
  {
  }

  lemma FractionGrows(a: real, b: real, c: real)
    requires a < b && 0.0 < c
    ensures a / c < b / c
  {
    assert a / c * c == a && b / c * c == b;
  }

  // ---------------------------------------------------------------------------
  // The session state
  // ---------------------------------------------------------------------------

  datatype StartOutcome = Started | NoAudio | NoLyrics

  class Studio {
    /** The lyrics the player shows (`parsedLyrics`). */
    var parsedLyrics: seq<TimedLine>
    /** The lines still to be, or already, stamped (`rawLines`). */
    var rawLines: seq<string>
    /** How many lines have been stamped (`syncIndex`). */
    var syncIndex: nat
    /** The stamps so far (`generatedLyrics`). */
    var generatedLyrics: seq<TimedLine>

    /**
     * The cursor/accumulator invariant: one stamp per line passed, each carrying
     * that line's text, and the cursor never beyond the last line.
     */
    predicate Valid()
      reads this
    {
      syncIndex <= |rawLines| &&
      |generatedLyrics| == syncIndex &&
      (forall i :: 0 <= i < syncIndex ==> generatedLyrics[i].text == rawLines[i]) &&
      (forall i :: 0 <= i < |rawLines| ==> IsRawLine(rawLines[i]))
    }

    /** What `updateLabDisplay` shows for the current state. */
    function Display(): LabView
      reads this
    {
      View(rawLines, syncIndex)
    }

    /** The initial values of the four globals. */
    constructor()
      ensures Valid()
      ensures parsedLyrics == [] && rawLines == [] && syncIndex == 0 && generatedLyrics == []
    {
      parsedLyrics := [];
      rawLines := [];
      syncIndex := 0;
      generatedLyrics := [];
    }

    /**
     * The start button: refuse without audio or with blank lyrics, otherwise
     * split the trimmed text into raw lines and start from the first one.
     */
    method StartSync(hasAudio: bool, field: string) returns (outcome: StartOutcome)
      requires Valid()
      modifies this
      ensures Valid()
      ensures outcome == (if !hasAudio then NoAudio else if Trim(field) == "" then NoLyrics else Started)
      ensures outcome != Started ==>
        rawLines == old(rawLines) && syncIndex == old(syncIndex) && generatedLyrics == old(generatedLyrics)
      ensures outcome == Started ==>
        rawLines == RawLines(Trim(field)) && |rawLines| >= 1 && syncIndex == 0 && generatedLyrics == []
      ensures parsedLyrics == old(parsedLyrics)
    {
      if !hasAudio {
        return NoAudio;
      }
      var txt := Trim(field);
      if txt == "" {
        return NoLyrics;
      }
      var lines := SplitLines(txt);
      RawLinesAreRaw(lines);
      StartGivesLines(field);
      rawLines := TrimmedNonEmpty(lines);
      syncIndex := 0;
      generatedLyrics := [];
      outcome := Started;
    }

    /** The restart button: forget every stamp and go back to the first line. */
    method Restart()
      requires Valid()
      modifies this
      ensures Valid()
      ensures syncIndex == 0 && generatedLyrics == []
      ensures rawLines == old(rawLines) && parsedLyrics == old(parsedLyrics)
    {
      syncIndex := 0;
      generatedLyrics := [];
    }

    /**
     * `finishGen`: the stamps become the lyrics being played, and their LRC text
     * is what gets saved and offered for download.
     */
    method FinishGen() returns (content: string)
      modifies this
      ensures parsedLyrics == generatedLyrics && content == LrcText(generatedLyrics)
      ensures rawLines == old(rawLines) && syncIndex == old(syncIndex) && generatedLyrics == old(generatedLyrics)
    {
      parsedLyrics := generatedLyrics;
      content := BuildLrc(generatedLyrics);
    }

    /**
     * A tap at playback time `now`. Past the last line it only runs `finishGen`
     * again. Otherwise it stamps the current line with `now`, moves the cursor,
     * and runs `finishGen` when that was the last line. The LRC text is returned
     * whenever `finishGen` ran. The lab is refreshed with `updateLabDisplay` only
     * when lines remain; otherwise `finishGen` hides it, so `Display()` is stated
     * only for that case.
     */
    method RecordTimestamp(now: Seconds) returns (saved: Option<string>)
      requires Valid()
      modifies this
      ensures Valid()
      ensures rawLines == old(rawLines)
      ensures old(syncIndex) >= |rawLines| ==>
        syncIndex == old(syncIndex) && generatedLyrics == old(generatedLyrics)
      ensures old(syncIndex) < |rawLines| ==>
        syncIndex == old(syncIndex) + 1 &&
        generatedLyrics == old(generatedLyrics) + [TimedLine(now, rawLines[old(syncIndex)])]
      ensures syncIndex == |rawLines| ==> parsedLyrics == generatedLyrics && saved == Some(LrcText(generatedLyrics))
      ensures syncIndex < |rawLines| ==> parsedLyrics == old(parsedLyrics) && saved == None
      ensures syncIndex < |rawLines| ==> Display().prev == rawLines[old(syncIndex)]
      ensures syncIndex < |rawLines| ==> Display().cur == rawLines[syncIndex]
    {
      if syncIndex >= |rawLines| {
        var content := FinishGen();
        return Some(content);
      }
      TapShows(rawLines, syncIndex);
      generatedLyrics := generatedLyrics + [TimedLine(now, rawLines[syncIndex])];
      syncIndex := syncIndex + 1;
      if syncIndex >= |rawLines| {
        var content := FinishGen();
        saved := Some(content);
      } else {
        saved := None;
      }
    }

    /** `parseLrc` on an uploaded or pasted file: the player now shows its lines. */
    method LoadLrc(txt: string)
      modifies this
      ensures parsedLyrics == ParseLrc(txt)
      ensures rawLines == old(rawLines) && syncIndex == old(syncIndex) && generatedLyrics == old(generatedLyrics)
    {
      parsedLyrics := ParseLrc(txt);
    }
  }

  // ---------------------------------------------------------------------------
  // What a completed session saves
  // ---------------------------------------------------------------------------

  /**
   * Stamps taken in order of playback, under 100 minutes, on lines that hold no
   * carriage return or other line terminator, are saved as LRC text that reads
   * back as the same lines in the same order, each time rounded to hundredths.
   */
  lemma CompletedSessionReadsBack(rawLines: seq<string>, stamps: seq<TimedLine>)
    requires |stamps| == |rawLines|
    requires forall i :: 0 <= i < |rawLines| ==> stamps[i].text == rawLines[i] && IsRawLine(rawLines[i])
    requires forall i :: 0 <= i < |rawLines| ==> forall k :: 0 <= k < |rawLines[i]| ==> !IsLineTerminator(rawLines[i][k])
    requires forall i :: 0 <= i < |stamps| ==> stamps[i].time < 6000.0
    requires SortedByTime(stamps)
    ensures var back := ParseLrc(LrcText(stamps));
      |back| == |rawLines| &&
      forall i :: 0 <= i < |rawLines| ==> back[i].text == rawLines[i] && back[i].time == RoundToCenti(stamps[i].time)
  {
    RoundTrip(stamps);
  }
}
