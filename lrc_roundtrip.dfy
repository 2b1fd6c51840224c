/**
 * What reading and writing LRC text promise about each other: the writer emits
 * one line per entry in order, the reader keeps exactly the timestamped lines
 * and orders them stably, and reading back what was written gives the same
 * timeline with each time rounded to hundredths of a second, as long as every
 * time is below 100 minutes and every text is trimmed and on one line.
 */
module LrcRoundTrip {
  import opened JsText
  import opened Timeline
  import opened LrcFormat

  // ---------------------------------------------------------------------------
  // Reading: what parseLrc keeps and how it orders it
  // ---------------------------------------------------------------------------

  /** The result of `parseLrc` is ordered by time, a permutation of the matched lines, and stable. */
  lemma ParseLrcOrder(txt: string)
    ensures SortedByTime(ParseLrc(txt))
    ensures multiset(ParseLrc(txt)) == multiset(Matched(SplitLines(txt)))
    ensures forall v :: AtTime(ParseLrc(txt), v) == AtTime(Matched(SplitLines(txt)), v)
  {
    SortByTimeSpec(Matched(SplitLines(txt)));
  }

  /** An entry is kept exactly when some line parses to it. */
  lemma {:induction false} MatchedMembers(lines: seq<string>)
    ensures forall e :: e in Matched(lines) <==> exists i :: 0 <= i < |lines| && ParseLine(lines[i]) == Some(e)
    decreases |lines|
  {
    if lines != [] {
      MatchedMembers(lines[1..]);
      forall e ensures e in Matched(lines) <==> exists i :: 0 <= i < |lines| && ParseLine(lines[i]) == Some(e) {
        if e in Matched(lines[1..]) {
          var i :| 0 <= i < |lines[1..]| && ParseLine(lines[1..][i]) == Some(e);
          assert ParseLine(lines[i + 1]) == Some(e);
        }
        if exists i :: 0 <= i < |lines| && ParseLine(lines[i]) == Some(e) {
          var i :| 0 <= i < |lines| && ParseLine(lines[i]) == Some(e);
          if i > 0 {
            assert ParseLine(lines[1..][i - 1]) == Some(e);
          }
        }
      }
    }
  }

  /** Keeping the matching lines respects concatenation, so the line order is kept. */
  lemma {:induction false} MatchedAppend(a: seq<string>, b: seq<string>)
    ensures Matched(a + b) == Matched(a) + Matched(b)
    decreases |a|
  {
    if a == [] {
      assert a + b == b;
    } else {
      assert (a + b)[0] == a[0] && (a + b)[1..] == a[1..] + b;
      MatchedFront(a);
      MatchedFront(a + b);
      MatchedAppend(a[1..], b);
      var h := if ParseLine(a[0]).Some? then [ParseLine(a[0]).value] else [];
      ConcatStep(Matched(a + b), h, Matched(a[1..] + b), Matched(a[1..]), Matched(b), Matched(a));
    }
  }

  lemma ConcatStep(x: seq<TimedLine>, h: seq<TimedLine>, y: seq<TimedLine>, p: seq<TimedLine>, q: seq<TimedLine>, m: seq<TimedLine>)
    requires x == h + y && y == p + q && m == h + p
    ensures x == m + q
  {
  }

  /** The first line's entry, if any, comes first. */
  lemma MatchedFront(lines: seq<string>)
    requires lines != []
    ensures Matched(lines) ==
      (if ParseLine(lines[0]).Some? then [ParseLine(lines[0]).value] else []) + Matched(lines[1..])
  {
  }

  /**
   * One line of `parseLrc`, stated on the line's own characters: it gives no
   * entry exactly when the pattern occurs nowhere in it; otherwise the entry
   * comes from the leftmost occurrence, from `p` to the `]` at `e`: its time is
   * the minutes times 60 plus the seconds spelled there, and its text is what
   * follows the `]` up to the first line terminator, trimmed.
   */
  lemma ParsedEntry(line: string)
    ensures ParseLine(line).None? <==> forall p: nat, e: nat :: !PatternAt(line, p, e)
    ensures ParseLine(line).Some? ==> IsTrimmed(ParseLine(line).value.text)
    ensures ParseLine(line).Some? ==>
      exists p: nat, e: nat :: PatternAt(line, p, e) &&
        (forall q: nat, e2: nat :: q < p ==> !PatternAt(line, q, e2)) &&
        ParseLine(line).value == TimedLine(StampTime(line, p, e), Trim(UpToLineTerminator(line[e + 1..])))
  {
    FirstMatchSpec(line);
    if ParseLine(line).Some? {
      var m := FirstMatch(line, 0).value;
      TrimSpec(m.groups.rest);
      var e: nat :| PatternAt(line, m.at, e) && m.groups == GroupsAt(line, m.at, e);
      assert ParseLine(line).value == TimedLine(StampTime(line, m.at, e), Trim(UpToLineTerminator(line[e + 1..])));
    }
  }

  /** A line without `[` never holds a timestamp, so it is dropped. */
  lemma NoBracketNoEntry(line: string)
    requires '[' !in line
    ensures ParseLine(line) == None
  {
    forall p | 0 <= p < |line| ensures MatchAt(line, p).None? {
      assert line[p] != '[';
    }
  }

  /** Text without any `[` (blank input included) parses to the empty timeline. */
  lemma {:induction false} NoBracketNoLyrics(txt: string)
    requires '[' !in txt
    ensures ParseLrc(txt) == []
  {
    var lines := SplitLines(txt);
    JoinSplit(txt);
    forall i | 0 <= i < |lines| ensures ParseLine(lines[i]) == None {
      PieceOfJoin(lines, i);
      NoBracketNoEntry(lines[i]);
    }
    NothingMatched(lines);
  }

  lemma {:induction false} PieceOfJoin(lines: seq<string>, i: nat)
    requires i < |lines|
    ensures forall c :: c in lines[i] ==> c in JoinLines(lines)
    decreases |lines|
  {
    if |lines| > 1 && i > 0 {
      PieceOfJoin(lines[1..], i - 1);
    }
  }

  lemma {:induction false} NothingMatched(lines: seq<string>)
    requires forall i :: 0 <= i < |lines| ==> ParseLine(lines[i]) == None
    ensures Matched(lines) == []
    decreases |lines|
  {
    if lines != [] {
      NothingMatched(lines[1..]);
    }
  }

  /** `parseLrc("")` and `parseLrc("not a timestamp line\n")` are both empty. */
  lemma EmptyAndGarbage()
    ensures ParseLrc("") == []
    ensures ParseLrc("not a timestamp line\n") == []
  {
    NoBracketNoLyrics("");
    NoBracketNoLyrics("not a timestamp line\n");
  }

  // ---------------------------------------------------------------------------
  // The pattern on a written line
  // ---------------------------------------------------------------------------

  /** Characters a stamp is made of: its fields hold only digits and a point. */
  predicate IsStampChar(c: char) {
    IsDigit(c) || c == '.'
  }

  /** The two fields of a stamp as written below 100 minutes: `MM` and `SS.ss`. */
  predicate IsShortStamp(mm: string, ss: string) {
    |mm| == 2 && AllDigits(mm) &&
    |ss| == 5 && ss[2] == '.' && IsDigit(ss[0]) && IsDigit(ss[1]) && IsDigit(ss[3]) && IsDigit(ss[4])
  }

  /** The time such a stamp spells, in seconds. */
  function ShortStampValue(mm: string, ss: string): real
    requires IsShortStamp(mm, ss)
  {
    (DecimalValue(mm) * 60) as real + DecimalValue(ss[..2]) as real + DecimalValue(ss[3..]) as real / 100.0
  }

  /**
   * A line that starts `[MM:SS.ss]` matches at its first character, with the
   * two fields as the first two groups and the rest of the line, up to any line
   * terminator, as the third.
   */
  lemma MatchWritten(mm: string, ss: string, text: string)
    requires IsShortStamp(mm, ss)
    ensures FirstMatch("[" + mm + ":" + ss + "]" + text, 0) ==
      Some(Match(0, Groups(mm, ss, UpToLineTerminator(text))))
  {
    var s := "[" + mm + ":" + ss + "]" + text;
    MatchAtWritten(mm, ss, text);
    assert MatchAt(s, 0).Some?;
  }

  lemma MatchAtWritten(mm: string, ss: string, text: string)
    requires IsShortStamp(mm, ss)
    ensures MatchAt("[" + mm + ":" + ss + "]" + text, 0) == Some(Groups(mm, ss, UpToLineTerminator(text)))
  {
    var s := "[" + mm + ":" + ss + "]" + text;
    assert s[0] == '[' && s[1] == mm[0] && s[2] == mm[1] && s[3] == ':';
    assert s[4] == ss[0] && s[5] == ss[1] && s[6] == '.' && s[7] == ss[3] && s[8] == ss[4] && s[9] == ']';
    assert DigitRunEnd(s, 7) == 9;
    assert s[1..3] == mm && s[4..9] == ss && s[10..] == text;
  }

  /**
   * Reading a line that starts with a short stamp gives the time it spells and,
   * as text, the rest of the line up to any line terminator, trimmed.
   */
  lemma ParseShortStamped(mm: string, ss: string, text: string)
    requires IsShortStamp(mm, ss)
    ensures ParseLine("[" + mm + ":" + ss + "]" + text) ==
      Some(TimedLine(ShortStampValue(mm, ss), Trim(UpToLineTerminator(text))))
  {
    MatchWritten(mm, ss, text);
    ShortSecondsValue(ss);
  }

  /** With a trimmed one-line text, the text read back is the text written. */
  lemma ParseShortStampedOneLine(mm: string, ss: string, text: string)
    requires IsShortStamp(mm, ss)
    requires forall k :: 0 <= k < |text| ==> !IsLineTerminator(text[k])
    requires IsTrimmed(text)
    ensures ParseLine("[" + mm + ":" + ss + "]" + text) == Some(TimedLine(ShortStampValue(mm, ss), text))
  {
    ParseShortStamped(mm, ss, text);
    assert UpToLineTerminator(text) == text;
    TrimSpec(text);
  }

  lemma ShortSecondsValue(ss: string)
    requires |ss| == 5 && ss[2] == '.' && IsDigit(ss[0]) && IsDigit(ss[1]) && IsDigit(ss[3]) && IsDigit(ss[4])
    ensures IsSecondsText(ss)
    ensures SecondsValue(ss) == DecimalValue(ss[..2]) as real + DecimalValue(ss[3..]) as real / 100.0
  {
    assert Pow10(2) == 100;
  }

  /** The stamp of a time of 100 minutes or more starts `[` followed by three digits. */
  lemma LongMinutes(t: Seconds)
    requires t >= 6000.0
    ensures var s := Stamp(t); |s| >= 5 && s[0] == '[' && IsDigit(s[1]) && IsDigit(s[2]) && IsDigit(s[3])
  {
    var d := NatToDecimal(Minutes(t));
    assert PadStart(d, 2, '0') == d;
  }

  predicate AllStampChars(s: string) {
    forall k :: 0 <= k < |s| ==> IsStampChar(s[k])
  }

  lemma {:induction false} PadStampChars(s: string, width: nat)
    requires AllStampChars(s)
    ensures AllStampChars(PadStart(s, width, '0'))
    decreases width
  {
    if |s| < width {
      PadStampChars(s, width - 1);
      var r := PadStart(s, width, '0');
      assert r == "0" + PadStart(s, width - 1, '0');
      assert forall k :: 1 <= k < |r| ==> r[k] == PadStart(s, width - 1, '0')[k - 1];
    }
  }

  lemma CentiTextChars(n: nat)
    ensures AllStampChars(CentiText(n))
  {
    var r := CentiText(n);
    CentiTextValue(n);
    forall k | 0 <= k < |r| ensures IsStampChar(r[k]) {
      if k < |r| - 3 { assert r[k] == r[..|r| - 3][k]; }
      else if k > |r| - 3 { assert r[k] == r[|r| - 2..][k - (|r| - 2)]; }
    }
  }

  /** After its opening `[`, a stamp holds digits, `:`, a point and the closing `]` only. */
  lemma StampChars(t: Seconds)
    ensures var s := Stamp(t); |s| >= 1 && s[0] == '[' && '[' !in s[1..] && '\n' !in s
  {
    var mm := PadStart(NatToDecimal(Minutes(t)), 2, '0');
    var ss := PadStart(ToFixed2(SecondsInMinute(t)), 5, '0');
    CentiTextChars(Centi(SecondsInMinute(t)));
    PadStampChars(ToFixed2(SecondsInMinute(t)), 5);
    PadStampChars(NatToDecimal(Minutes(t)), 2);
    StampCharsOf(mm, ss);
  }

  lemma StampCharsOf(mm: string, ss: string)
    requires AllStampChars(mm) && AllStampChars(ss)
    ensures var s := "[" + mm + ":" + ss + "]"; '[' !in s[1..] && '\n' !in s
  {
    var s := "[" + mm + ":" + ss + "]";
    assert s[1..] == mm + ":" + ss + "]";
    forall k | 1 <= k < |s| ensures s[k] != '[' && s[k] != '\n' {
      if k <= |mm| { assert s[k] == mm[k - 1]; }
      else if |mm| + 1 < k < |s| - 1 { assert s[k] == ss[k - |mm| - 2]; }
    }
  }

  /**
   * The minute field has three digits from 100 minutes on, so `\d{2}:` fails at
   * the stamp: a written line whose text has no `[` is then dropped on reading.
   */
  lemma LongLineDropped(e: TimedLine)
    requires e.time >= 6000.0
    requires '[' !in e.text
    ensures ParseLine(LrcBody(e)) == None
  {
    var s := LrcBody(e);
    var st := Stamp(e.time);
    LongMinutes(e.time);
    StampChars(e.time);
    assert s == st + e.text;
    assert MatchAt(s, 0).None? by {
      assert s[3] == st[3];
    }
    assert forall p :: 1 <= p < |s| ==> s[p] != '[' by {
      forall p | 1 <= p < |s| ensures s[p] != '[' {
        if p < |st| { assert s[p] == st[1..][p - 1]; }
        else { assert s[p] == e.text[p - |st|]; }
      }
    }
    forall p | 1 <= p < |s| ensures MatchAt(s, p).None? {
      assert s[p] != '[';
    }
  }

  // ---------------------------------------------------------------------------
  // Reading back one written line
  // ---------------------------------------------------------------------------

  /** A time rounded to hundredths the way `toFixed(2)` rounds (half up). */
  function RoundToCenti(t: Seconds): (r: Seconds)
    ensures t - 0.005 < r <= t + 0.005
  {
    Centi(t) as real / 100.0
  }

  function Rounded(e: TimedLine): TimedLine {
    TimedLine(RoundToCenti(e.time), e.text)
  }

  /** An entry the writer and reader agree on: under 100 minutes, a trimmed one-line text. */
  predicate Writable(e: TimedLine) {
    e.time < 6000.0 && IsTrimmed(e.text) &&
    forall k :: 0 <= k < |e.text| ==> !IsLineTerminator(e.text[k])
  }

  /** Whole minutes split off exactly: rounding the rest to hundredths rounds the whole time. */
  lemma CentiSplit(t: Seconds)
    ensures Centi(t) == 6000 * Minutes(t) + Centi(SecondsInMinute(t))
  {
    var m := Minutes(t);
    assert 100.0 * SecondsInMinute(t) + 0.5 == (100.0 * t + 0.5) - (6000 * m) as real;
  }

  /** Below 100 minutes the stamp is `[` two digits `:` five characters `]`, and it spells the rounded time. */
  lemma ShortStamp(t: Seconds)
    requires t < 6000.0
    ensures var s := Stamp(t); var mm := s[1..3]; var ss := s[4..9];
      |s| == 10 && s == "[" + mm + ":" + ss + "]" &&
      IsShortStamp(mm, ss) && ShortStampValue(mm, ss) == RoundToCenti(t)
  {
    var m := Minutes(t);
    var x := SecondsInMinute(t);
    var n := Centi(x);
    CentiBelowMinute(x);
    MinutesField(m);
    SecondsField(n);
    var mm := PadStart(NatToDecimal(m), 2, '0');
    var q := Digits4(n);
    var ss := q[..2] + "." + q[2..];
    assert PadStart(ToFixed2(x), 5, '0') == ss;
    var s := Stamp(t);
    assert s == "[" + mm + ":" + ss + "]";
    assert s[1..3] == mm && s[4..9] == ss;
    MinutesValue(m);
    Digits4Value(n);
    assert ss[..2] == q[..2] && ss[3..] == q[2..];
    CentiSplit(t);
  }

  lemma MinutesValue(m: nat)
    requires m < 100
    ensures DecimalValue([DigitChar(m / 10), DigitChar(m % 10)]) == m
  {
    TwoDigits(DigitChar(m / 10), DigitChar(m % 10));
    DigitRoundTrip(m / 10);
    DigitRoundTrip(m % 10);
  }

  /** Reading back a written line gives the entry with its time rounded to hundredths. */
  lemma LineRoundTrip(e: TimedLine)
    requires Writable(e)
    ensures ParseLine(LrcBody(e)) == Some(Rounded(e))
  {
    var s := Stamp(e.time);
    ShortStamp(e.time);
    var mm, ss := s[1..3], s[4..9];
    ParseShortStampedOneLine(mm, ss, e.text);
    assert LrcBody(e) == "[" + mm + ":" + ss + "]" + e.text;
  }

  /**
   * A text holding a line terminator (a `\r`, U+2028 or U+2029 left inside a
   * line) is cut there when read back: `(.*)` stops at the first terminator.
   */
  lemma TerminatorCutsText(e: TimedLine, k: nat)
    requires e.time < 6000.0
    requires k < |e.text| && IsLineTerminator(e.text[k])
    requires forall j :: 0 <= j < k ==> !IsLineTerminator(e.text[j])
    ensures ParseLine(LrcBody(e)) == Some(TimedLine(RoundToCenti(e.time), Trim(e.text[..k])))
  {
    var s := Stamp(e.time);
    ShortStamp(e.time);
    var mm, ss := s[1..3], s[4..9];
    ParseShortStamped(mm, ss, e.text);
    UpToFirstTerminator(e.text, k);
    assert LrcBody(e) == "[" + mm + ":" + ss + "]" + e.text;
  }

  lemma UpToFirstTerminator(text: string, k: nat)
    requires k < |text| && IsLineTerminator(text[k])
    requires forall j :: 0 <= j < k ==> !IsLineTerminator(text[j])
    ensures UpToLineTerminator(text) == text[..k]
  {
  }

  // ---------------------------------------------------------------------------
  // Writing: one line per entry, in order
  // ---------------------------------------------------------------------------

  lemma {:induction false} LinesCons(x: string, rest: seq<string>)
    ensures Lines([x] + rest) == x + "\n" + Lines(rest)
    decreases |rest|
  {
    if rest == [] {
      assert ([x] + rest)[..0] == [];
    } else {
      var init := rest[..|rest| - 1];
      assert ([x] + rest)[..|rest|] == [x] + init;
      LinesCons(x, init);
    }
  }

  /** Lines each ended by a line feed are the same text as the lines joined by line feeds, then an empty line. */
  lemma {:induction false} LinesIsJoin(ls: seq<string>)
    ensures Lines(ls) == JoinLines(ls + [""])
    decreases |ls|
  {
    if ls != [] {
      assert ls == [ls[0]] + ls[1..];
      LinesCons(ls[0], ls[1..]);
      LinesIsJoin(ls[1..]);
      assert ls + [""] == [ls[0]] + (ls[1..] + [""]);
    }
  }

  /**
   * Splitting the written text on line feeds gives exactly one line per entry,
   * in the given order, then the empty piece after the last line feed.
   */
  lemma SplitWritten(lyrics: seq<TimedLine>)
    requires forall i :: 0 <= i < |lyrics| ==> '\n' !in lyrics[i].text
    ensures SplitLines(LrcText(lyrics)) == Bodies(lyrics) + [""]
  {
    var b := Bodies(lyrics);
    forall i | 0 <= i < |b| ensures '\n' !in b[i] {
      BodyOneLine(lyrics[i]);
    }
    SplitOneLines(b);
  }

  lemma BodyOneLine(e: TimedLine)
    requires '\n' !in e.text
    ensures '\n' !in LrcBody(e)
  {
    StampChars(e.time);
  }

  lemma SplitOneLines(ls: seq<string>)
    requires forall i :: 0 <= i < |ls| ==> '\n' !in ls[i]
    ensures SplitLines(Lines(ls)) == ls + [""]
  {
    LinesIsJoin(ls);
    SplitJoin(ls + [""]);
  }

  // ---------------------------------------------------------------------------
  // Round trip
  // ---------------------------------------------------------------------------

  function RoundAll(lyrics: seq<TimedLine>): (r: seq<TimedLine>)
    ensures |r| == |lyrics|
    ensures forall i :: 0 <= i < |lyrics| ==> r[i] == Rounded(lyrics[i])
  {
    if lyrics == [] then [] else [Rounded(lyrics[0])] + RoundAll(lyrics[1..])
  }

  lemma MatchedWritten(lyrics: seq<TimedLine>)
    requires forall i :: 0 <= i < |lyrics| ==> Writable(lyrics[i])
    ensures Matched(Bodies(lyrics) + [""]) == RoundAll(lyrics)
  {
    var b, r := Bodies(lyrics), RoundAll(lyrics);
    forall i | 0 <= i < |b| ensures ParseLine(b[i]) == Some(r[i]) {
      LineRoundTrip(lyrics[i]);
    }
    MatchedEach(b, r);
  }

  /** Lines that each parse, then an empty line, give their entries in order. */
  lemma {:induction false} MatchedEach(ls: seq<string>, es: seq<TimedLine>)
    requires |ls| == |es|
    requires forall i :: 0 <= i < |ls| ==> ParseLine(ls[i]) == Some(es[i])
    ensures Matched(ls + [""]) == es
    decreases |ls|
  {
    if ls == [] {
      EmptyLineDropped();
    } else {
      var rest := ls[1..] + [""];
      assert ls + [""] == [ls[0]] + rest;
      forall i | 0 <= i < |ls| - 1 ensures ParseLine(ls[1..][i]) == Some(es[1..][i]) {
        assert ls[1..][i] == ls[i + 1] && es[1..][i] == es[i + 1];
      }
      MatchedEach(ls[1..], es[1..]);
      MatchedCons(ls[0], rest, es[0]);
      assert es == [es[0]] + es[1..];
    }
  }

  lemma EmptyLineDropped()
    ensures Matched([""]) == []
  {
    assert FirstMatch("", 0).None?;
  }

  lemma MatchedCons(line: string, rest: seq<string>, e: TimedLine)
    requires ParseLine(line) == Some(e)
    ensures Matched([line] + rest) == [e] + Matched(rest)
  {
    assert ([line] + rest)[0] == line && ([line] + rest)[1..] == rest;
  }

  /** Rounding to hundredths never reorders two times. */
  lemma RoundingKeepsOrder(lyrics: seq<TimedLine>)
    requires SortedByTime(lyrics)
    ensures SortedByTime(RoundAll(lyrics))
  {
    var r := RoundAll(lyrics);
    forall i, j | 0 <= i < j < |r| ensures r[i].time <= r[j].time {
      CentiMonotone(lyrics[i].time, lyrics[j].time);
    }
  }

  /** `toFixed(2)` rounding is monotone. */
  lemma CentiMonotone(x: real, y: real)
    requires x <= y
    ensures Centi(x) <= Centi(y)
  {
  }

  /**
   * Reading back the written text of any writable timeline gives it stably
   * sorted, with each time rounded to hundredths.
   */
  lemma ParseWritten(lyrics: seq<TimedLine>)
    requires forall i :: 0 <= i < |lyrics| ==> Writable(lyrics[i])
    ensures ParseLrc(LrcText(lyrics)) == SortByTime(RoundAll(lyrics))
  {
    SplitWritten(lyrics);
    MatchedWritten(lyrics);
  }

  /**
   * The round trip: a time-sorted writable timeline reads back as itself, each
   * time within half a hundredth of a second of the one written.
   */
  lemma RoundTrip(lyrics: seq<TimedLine>)
    requires forall i :: 0 <= i < |lyrics| ==> Writable(lyrics[i])
    requires SortedByTime(lyrics)
    ensures var back := ParseLrc(LrcText(lyrics));
      |back| == |lyrics| &&
      forall i :: 0 <= i < |lyrics| ==>
        back[i].text == lyrics[i].text &&
        back[i].time == RoundToCenti(lyrics[i].time) &&
        lyrics[i].time - 0.005 < back[i].time <= lyrics[i].time + 0.005
  {
    ParseWritten(lyrics);
    RoundingKeepsOrder(lyrics);
    SortSortedIsIdentity(RoundAll(lyrics));
  }

  /** Times already in whole hundredths come back exactly. */
  predicate InHundredths(t: real) {
    (100.0 * t).Floor as real == 100.0 * t
  }

  lemma ExactRoundTrip(lyrics: seq<TimedLine>)
    requires forall i :: 0 <= i < |lyrics| ==> Writable(lyrics[i]) && InHundredths(lyrics[i].time)
    requires SortedByTime(lyrics)
    ensures ParseLrc(LrcText(lyrics)) == lyrics
  {
    ParseWritten(lyrics);
    forall i | 0 <= i < |lyrics| ensures RoundAll(lyrics)[i] == lyrics[i] {
      ExactCenti(lyrics[i].time);
    }
    assert RoundAll(lyrics) == lyrics;
    SortSortedIsIdentity(lyrics);
  }

  lemma ExactCenti(t: Seconds)
    requires InHundredths(t)
    ensures RoundToCenti(t) == t
  {
    assert Centi(t) == (100.0 * t).Floor;
  }

  // ---------------------------------------------------------------------------
  // A file whose lines are out of order
  // ---------------------------------------------------------------------------

  /** `[MM:SS.ss]` with the fields given by digit: reading it gives minutes * 60 + seconds + hundredths. */
  lemma StampDigitsValue(m1: char, m2: char, s1: char, s2: char, c1: char, c2: char)
    requires IsDigit(m1) && IsDigit(m2) && IsDigit(s1) && IsDigit(s2) && IsDigit(c1) && IsDigit(c2)
    ensures IsShortStamp([m1, m2], [s1, s2, '.', c1, c2])
    ensures ShortStampValue([m1, m2], [s1, s2, '.', c1, c2]) ==
      ((10 * DigitValue(m1) + DigitValue(m2)) * 60) as real + (10 * DigitValue(s1) + DigitValue(s2)) as real +
      (10 * DigitValue(c1) + DigitValue(c2)) as real / 100.0
  {
    var ss := [s1, s2, '.', c1, c2];
    assert ss[..2] == [s1, s2] && ss[3..] == [c1, c2];
    TwoDigits(m1, m2);
    TwoDigits(s1, s2);
    TwoDigits(c1, c2);
  }

  /** A text of letters only is trimmed and holds no line terminator. */
  lemma PlainText(text: string)
    requires forall k :: 0 <= k < |text| ==> 'A' <= text[k] <= 'z'
    ensures IsTrimmed(text)
    ensures forall k :: 0 <= k < |text| ==> !IsLineTerminator(text[k])
  {
  }

  lemma HelloLine(line: string)
    requires line == "[00:01.50]Hello"
    ensures ParseLine(line) == Some(TimedLine(1.5, "Hello"))
  {
    var mm, ss, text := "00", "01.50", "Hello";
    assert line == "[" + mm + ":" + ss + "]" + text;
    StampDigitsValue('0', '0', '0', '1', '5', '0');
    assert [mm[0], mm[1]] == mm && [ss[0], ss[1], '.', ss[3], ss[4]] == ss;
    assert ShortStampValue(mm, ss) == 1.5;
    PlainText(text);
    ParseShortStampedOneLine(mm, ss, text);
  }

  lemma WorldLine(line: string)
    requires line == "[00:00.25]World"
    ensures ParseLine(line) == Some(TimedLine(0.25, "World"))
  {
    var mm, ss, text := "00", "00.25", "World";
    assert line == "[" + mm + ":" + ss + "]" + text;
    StampDigitsValue('0', '0', '0', '0', '2', '5');
    assert [mm[0], mm[1]] == mm && [ss[0], ss[1], '.', ss[3], ss[4]] == ss;
    assert ShortStampValue(mm, ss) == 0.25;
    PlainText(text);
    ParseShortStampedOneLine(mm, ss, text);
  }

  /** A file with a later line first is read back sorted by time. */
  lemma UnsortedFileExample(txt: string)
    requires txt == "[00:01.50]Hello\n[00:00.25]World\n"
    ensures ParseLrc(txt) == [TimedLine(0.25, "World"), TimedLine(1.5, "Hello")]
  {
    var l1, l2 := "[00:01.50]Hello", "[00:00.25]World";
    assert txt == l1 + "\n" + l2 + "\n";
    assert '\n' !in l1 && '\n' !in l2;
    HelloLine(l1);
    WorldLine(l2);
    TwoLineFile(txt, l1, l2, TimedLine(1.5, "Hello"), TimedLine(0.25, "World"));
  }

  /** Two lines that each hold a stamp, the second one earlier, come back swapped. */
  lemma TwoLineFile(txt: string, l1: string, l2: string, e1: TimedLine, e2: TimedLine)
    requires txt == l1 + "\n" + l2 + "\n"
    requires '\n' !in l1 && '\n' !in l2
    requires ParseLine(l1) == Some(e1) && ParseLine(l2) == Some(e2)
    requires e2.time < e1.time
    ensures ParseLrc(txt) == [e2, e1]
  {
    var lines := [l1, l2] + [""];
    assert lines == [l1, l2, ""];
    JoinThree(l1, l2);
    SplitJoin(lines);
    assert SplitLines(txt) == lines;
    MatchedEach([l1, l2], [e1, e2]);
    assert Matched(SplitLines(txt)) == [e1, e2];
    SortTwo(e1, e2);
  }

  lemma JoinThree(a: string, b: string)
    ensures JoinLines([a, b, ""]) == a + "\n" + b + "\n"
  {
    assert [a, b, ""][1..] == [b, ""] && [b, ""][1..] == [""];
    assert JoinLines([""]) == "";
    assert JoinLines([b, ""]) == b + "\n";
    assert JoinLines([a, b, ""]) == a + "\n" + (b + "\n");
  }

  /** Two entries out of order are swapped by the sort. */
  lemma SortTwo(a: TimedLine, b: TimedLine)
    requires b.time < a.time
    ensures SortByTime([a, b]) == [b, a]
  {
    assert [a, b][..1] == [a] && [a][..0] == [];
    assert SortByTime([a]) == InsertByTime([], a) == [a];
    assert SortByTime([a, b]) == InsertByTime([a], b);
    assert InsertByTime([a], b) == [b] + [a];
  }
}
