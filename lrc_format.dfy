/**
 * The LRC timed-lyrics text format as script.js reads it (`parseLrc`) and
 * writes it (the string-building loop of `finishGen`).
 *
 * A line reads `[MM:SS.ss]text`. The reader looks for the regular expression
 * `/\[(\d{2}):(\d{2}\.?\d*)\](.*)/` anywhere in each line, drops lines without
 * it, and stable-sorts what is left by time. The writer emits one such line per
 * entry, in the order given.
 */
module LrcFormat {
  import opened JsText
  import opened Timeline

  // ---------------------------------------------------------------------------
  // The regular expression
  // ---------------------------------------------------------------------------

  /** The three capture groups of the timestamp pattern. */
  datatype Groups = Groups(minutes: string, seconds: string, rest: string)

  /** A match: where it starts in the line and what it captured. */
  datatype Match = Match(at: nat, groups: Groups)

  /** What `\d{2}\.?\d*` can capture: two digits, then an optional point, then digits. */
  predicate IsSecondsText(g: string) {
    |g| >= 2 && IsDigit(g[0]) && IsDigit(g[1]) &&
    ((forall k :: 2 <= k < |g| ==> IsDigit(g[k])) ||
     (|g| > 2 && g[2] == '.' && forall k :: 3 <= k < |g| ==> IsDigit(g[k])))
  }

  /** The end of the longest run of digits in `s` that starts at `i`. */
  function DigitRunEnd(s: string, i: nat): (e: nat)
    requires i <= |s|
    ensures i <= e <= |s|
    ensures forall k :: i <= k < e ==> IsDigit(s[k])
    ensures e == |s| || !IsDigit(s[e])
    decreases |s| - i
  {
    if i < |s| && IsDigit(s[i]) then DigitRunEnd(s, i + 1) else i
  }

  /** What `(.*)` captures: the longest prefix free of line terminators. */
  function UpToLineTerminator(s: string): (r: string)
    ensures |r| <= |s| && r == s[..|r|]
    ensures forall k :: 0 <= k < |r| ==> !IsLineTerminator(r[k])
    ensures |r| == |s| || IsLineTerminator(s[|r|])
  {
    if s == [] || IsLineTerminator(s[0]) then [] else [s[0]] + UpToLineTerminator(s[1..])
  }

  /**
   * The pattern tried at position `p` of `s`.
   *
   * Greedy matching without backtracking gives the same answer as the regular
   * expression engine: if `\.?` takes a point and the digits after it are not
   * followed by `]`, giving the point back leaves `\d*` facing that point and
   * `\]` failing on it; and giving back digits always leaves `\]` facing a digit.
   */
  function MatchAt(s: string, p: nat): (r: Option<Groups>)
    ensures r.Some? ==> |r.value.minutes| == 2 && AllDigits(r.value.minutes)
    ensures r.Some? ==> IsSecondsText(r.value.seconds)
    ensures r.Some? ==> forall k :: 0 <= k < |r.value.rest| ==> !IsLineTerminator(r.value.rest[k])
    ensures r.Some? ==> p < |s| && s[p] == '['
  {
    if p + 6 <= |s| && s[p] == '[' && IsDigit(s[p + 1]) && IsDigit(s[p + 2]) && s[p + 3] == ':'
       && IsDigit(s[p + 4]) && IsDigit(s[p + 5])
    then
      var q := if p + 6 < |s| && s[p + 6] == '.' then p + 7 else p + 6;
      var e := DigitRunEnd(s, q);
      if e < |s| && s[e] == ']' then
        Some(Groups(s[p + 1..p + 3], s[p + 4..e], UpToLineTerminator(s[e + 1..])))
      else None
    else None
  }

  /**
   * The pattern occurs in `s` from `p` to the closing `]` at `e`: `[`, two
   * digits, `:`, a seconds group `s[p+4..e]` of the shape `\d{2}\.?\d*`, `]`.
   */
  predicate PatternAt(s: string, p: nat, e: nat) {
    p + 6 <= e < |s| && s[p] == '[' && IsDigit(s[p + 1]) && IsDigit(s[p + 2]) && s[p + 3] == ':' &&
    IsSecondsText(s[p + 4..e]) && s[e] == ']'
  }

  /** The groups the pattern captures when it occurs from `p` to `e`. */
  function GroupsAt(s: string, p: nat, e: nat): Groups
    requires PatternAt(s, p, e)
  {
    Groups(s[p + 1..p + 3], s[p + 4..e], UpToLineTerminator(s[e + 1..]))
  }

  /**
   * The matcher agrees with the pattern both ways: wherever the pattern occurs
   * at `p`, `MatchAt` matches there and captures the pattern's groups; and
   * `MatchAt` matches only where the pattern occurs.
   */
  lemma MatchAtSpec(s: string, p: nat)
    ensures forall e: nat :: PatternAt(s, p, e) ==> MatchAt(s, p) == Some(GroupsAt(s, p, e))
    ensures MatchAt(s, p).Some? ==> exists e: nat :: PatternAt(s, p, e) && MatchAt(s, p) == Some(GroupsAt(s, p, e))
  {
    forall e: nat | PatternAt(s, p, e) ensures MatchAt(s, p) == Some(GroupsAt(s, p, e)) {
      PatternMatches(s, p, e);
    }
    if MatchAt(s, p).Some? {
      var q := if p + 6 < |s| && s[p + 6] == '.' then p + 7 else p + 6;
      var e := DigitRunEnd(s, q);
      assert s[p + 4..e][2..] == s[p + 6..e];
      assert PatternAt(s, p, e);
    }
  }

  lemma PatternMatches(s: string, p: nat, e: nat)
    requires PatternAt(s, p, e)
    ensures MatchAt(s, p) == Some(GroupsAt(s, p, e))
  {
    var g := s[p + 4..e];
    assert g[0] == s[p + 4] && g[1] == s[p + 5];
    var q := if p + 6 < |s| && s[p + 6] == '.' then p + 7 else p + 6;
    forall k | q <= k < e ensures IsDigit(s[k]) {
      assert s[k] == g[k - p - 4];
    }
  }

  /**
   * `line.match(regex)` for the non-global pattern: the leftmost position, from
   * `p` on, at which the pattern matches.
   */
  function FirstMatch(s: string, p: nat): (r: Option<Match>)
    ensures r.Some? ==> p <= r.value.at < |s| && MatchAt(s, r.value.at) == Some(r.value.groups)
    ensures r.Some? ==> forall q :: p <= q < r.value.at ==> MatchAt(s, q).None?
    ensures r.None? ==> forall q :: p <= q < |s| ==> MatchAt(s, q).None?
    decreases |s| - p
  {
    if p >= |s| then None
    else
      match MatchAt(s, p)
      case Some(g) => Some(Match(p, g))
      case None => FirstMatch(s, p + 1)
  }

  /**
   * `match` stated on the pattern alone: there is no match exactly when the
   * pattern occurs nowhere in the line; otherwise the match is at the leftmost
   * position where it occurs, with that occurrence's groups.
   */
  lemma FirstMatchSpec(s: string)
    ensures FirstMatch(s, 0).None? <==> forall p: nat, e: nat :: !PatternAt(s, p, e)
    ensures FirstMatch(s, 0).Some? ==>
      var m := FirstMatch(s, 0).value;
      (exists e: nat :: PatternAt(s, m.at, e) && m.groups == GroupsAt(s, m.at, e)) &&
      forall q: nat, e: nat :: q < m.at ==> !PatternAt(s, q, e)
  {
    forall q: nat, e: nat | PatternAt(s, q, e) ensures MatchAt(s, q).Some? {
      MatchAtSpec(s, q);
    }
    if FirstMatch(s, 0).Some? {
      MatchAtSpec(s, FirstMatch(s, 0).value.at);
    }
  }

  // ---------------------------------------------------------------------------
  // Reading
  // ---------------------------------------------------------------------------

  /** `parseFloat` of the seconds group: the exact decimal value it spells. */
  function SecondsValue(g: string): (r: real)
    requires IsSecondsText(g)
    ensures 0.0 <= r
  {
    if |g| > 2 && g[2] == '.' then
      DecimalValue(g[..2]) as real + DecimalValue(g[3..]) as real / Pow10(|g| - 3) as real
    else DecimalValue(g) as real
  }

  /**
   * One line of `parseLrc`: the entry `{ time: min * 60 + sec, text: rest.trim() }`
   * when the line holds a timestamp, nothing otherwise.
   */
  function ParseLine(line: string): Option<TimedLine> {
    match FirstMatch(line, 0)
    case None => None
    case Some(m) =>
      Some(TimedLine((DecimalValue(m.groups.minutes) * 60) as real + SecondsValue(m.groups.seconds),
                     Trim(m.groups.rest)))
  }

  /** `parseInt(m[1])*60 + parseFloat(m[2])` for the occurrence of the pattern from `p` to `e`. */
  function StampTime(s: string, p: nat, e: nat): Seconds
    requires PatternAt(s, p, e)
  {
    (DecimalValue(s[p + 1..p + 3]) * 60) as real + SecondsValue(s[p + 4..e])
  }

  /** The `map`/`filter` stage of `parseLrc`: the entries of the matching lines, in line order. */
  function Matched(lines: seq<string>): seq<TimedLine> {
    if lines == [] then []
    else
      (match ParseLine(lines[0]) case Some(e) => [e] case None => []) + Matched(lines[1..])
  }

  /** `parseLrc(txt)`: split on line feeds, keep the matching lines, stable-sort by time. */
  function ParseLrc(txt: string): seq<TimedLine> {
    SortByTime(Matched(SplitLines(txt)))
  }

  // ---------------------------------------------------------------------------
  // Writing
  // ---------------------------------------------------------------------------

  /** `Math.floor(time / 60)`. */
  function Minutes(t: Seconds): (m: nat)
    ensures 60.0 * m as real <= t < 60.0 * m as real + 60.0
  {
    (t / 60.0).Floor
  }

  /** The seconds within the minute: `time % 60` on a non-negative time. */
  function SecondsInMinute(t: Seconds): (x: Seconds)
    ensures x < 60.0
  {
    t - 60.0 * Minutes(t) as real
  }

  /** The `[MM:SS.ss]` stamp: minutes padded to two digits, seconds to two decimals and width five. */
  function Stamp(t: Seconds): string {
    "[" + PadStart(NatToDecimal(Minutes(t)), 2, '0') + ":" + PadStart(ToFixed2(SecondsInMinute(t)), 5, '0') + "]"
  }

  /** The line `finishGen` writes for one entry, without its line feed. */
  function LrcBody(e: TimedLine): string {
    Stamp(e.time) + e.text
  }

  /** The lines `finishGen` writes, one per entry, in the given order. */
  function Bodies(lyrics: seq<TimedLine>): (r: seq<string>)
    ensures |r| == |lyrics|
    ensures forall i :: 0 <= i < |lyrics| ==> r[i] == LrcBody(lyrics[i])
  {
    if lyrics == [] then [] else Bodies(lyrics[..|lyrics| - 1]) + [LrcBody(lyrics[|lyrics| - 1])]
  }

  /** Lines written out one after the other, each ended by a line feed. */
  function Lines(ls: seq<string>): string {
    if ls == [] then "" else Lines(ls[..|ls| - 1]) + ls[|ls| - 1] + "\n"
  }

  /** The text `finishGen` accumulates in `lrcContent`. */
  function LrcText(lyrics: seq<TimedLine>): string {
    Lines(Bodies(lyrics))
  }

  lemma {:induction false} LrcTextStep(lyrics: seq<TimedLine>, i: nat)
    requires i < |lyrics|
    ensures LrcText(lyrics[..i + 1]) == LrcText(lyrics[..i]) + LrcBody(lyrics[i]) + "\n"
  {
    assert lyrics[..i + 1][..i] == lyrics[..i];
    var b := Bodies(lyrics[..i + 1]);
    assert b[..i] == Bodies(lyrics[..i]);
  }

  /** The string-building loop of `finishGen`. */
  method BuildLrc(lyrics: seq<TimedLine>) returns (content: string)
    ensures content == LrcText(lyrics)
  {
    content := "";
    var i := 0;
    while i < |lyrics|
      invariant 0 <= i <= |lyrics|
      invariant content == LrcText(lyrics[..i])
    {
      LrcTextStep(lyrics, i);
      content := content + LrcBody(lyrics[i]) + "\n";
      i := i + 1;
    }
    assert lyrics[..i] == lyrics;
  }
}
