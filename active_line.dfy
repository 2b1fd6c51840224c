/**
 * The active-line lookup of the playback loop: on every time update script.js
 * shows the entry `[...parsedLyrics].reverse().find(l => currentTime >= l.time)`,
 * the last entry in list order whose time has been reached.
 */
module ActiveLine {
  import opened Timeline

  /** `[...s].reverse()`. */
  function Reverse(s: seq<TimedLine>): (r: seq<TimedLine>)
    ensures |r| == |s|
    ensures forall i :: 0 <= i < |s| ==> r[i] == s[|s| - 1 - i]
  {
    if s == [] then [] else [s[|s| - 1]] + Reverse(s[..|s| - 1])
  }

  /** `s.find(l => now >= l.time)`: the first entry, from the front, whose time has been reached. */
  function FindReached(s: seq<TimedLine>, now: real): Option<TimedLine> {
    if s == [] then None
    else if now >= s[0].time then Some(s[0])
    else FindReached(s[1..], now)
  }

  /** The line shown at playback position `now`. */
  function Active(lyrics: seq<TimedLine>, now: real): Option<TimedLine> {
    FindReached(Reverse(lyrics), now)
  }

  /**
   * The reference definition: the largest index whose time is at most `now`,
   * or -1 when no entry has been reached.
   */
  function LastReached(lyrics: seq<TimedLine>, now: real): (k: int)
    ensures -1 <= k < |lyrics|
    ensures k >= 0 ==> lyrics[k].time <= now
    ensures forall j :: k < j < |lyrics| ==> lyrics[j].time > now
  {
    if lyrics == [] then -1
    else if lyrics[|lyrics| - 1].time <= now then |lyrics| - 1
    else LastReached(lyrics[..|lyrics| - 1], now)
  }

  /** What `find` returns: the first entry reached, found at the smallest such index. */
  lemma {:induction false} FindReachedSpec(s: seq<TimedLine>, now: real)
    ensures FindReached(s, now).None? <==> forall i :: 0 <= i < |s| ==> s[i].time > now
    ensures FindReached(s, now).Some? ==>
      exists i :: 0 <= i < |s| && s[i] == FindReached(s, now).value && s[i].time <= now &&
        forall j :: 0 <= j < i ==> s[j].time > now
    decreases |s|
  {
    if s != [] && now < s[0].time {
      FindReachedSpec(s[1..], now);
      if FindReached(s, now).Some? {
        var i :| 0 <= i < |s[1..]| && s[1..][i] == FindReached(s, now).value && s[1..][i].time <= now &&
          forall j :: 0 <= j < i ==> s[1..][j].time > now;
        assert s[i + 1] == s[1..][i];
        forall j | 0 <= j < i + 1 ensures s[j].time > now {
          if j > 0 { assert s[j] == s[1..][j - 1]; }
        }
      } else {
        forall i | 0 <= i < |s| ensures s[i].time > now {
          if i > 0 { assert s[i] == s[1..][i - 1]; }
        }
      }
    }
  }

  /**
   * Searching the reversed list from the front finds the entry at the largest
   * reached index: the lookup shows `lyrics[LastReached(lyrics, now)]`, and
   * nothing when no entry has been reached yet.
   */
  lemma ActiveIsLastReached(lyrics: seq<TimedLine>, now: real)
    ensures var k := LastReached(lyrics, now);
      Active(lyrics, now) == if k < 0 then None else Some(lyrics[k])
  {
    var r := Reverse(lyrics);
    var k := LastReached(lyrics, now);
    FindReachedSpec(r, now);
    if k < 0 {
      assert forall i :: 0 <= i < |r| ==> r[i].time > now;
    } else {
      var n := |lyrics|;
      assert r[n - 1 - k] == lyrics[k];
      forall j | 0 <= j < n - 1 - k ensures r[j].time > now {
        assert r[j] == lyrics[n - 1 - j];
      }
      assert FindReached(r, now).Some?;
      var i :| 0 <= i < |r| && r[i] == FindReached(r, now).value && r[i].time <= now &&
        forall j :: 0 <= j < i ==> r[j].time > now;
      assert i == n - 1 - k;
    }
  }

  /**
   * The lookup, stated on its own: the line shown is one whose time has been
   * reached (inclusively), no later entry in the list has been reached, and
   * nothing is shown exactly when no entry has been reached.
   */
  lemma ActiveSpec(lyrics: seq<TimedLine>, now: real)
    ensures Active(lyrics, now).None? <==> forall i :: 0 <= i < |lyrics| ==> lyrics[i].time > now
    ensures Active(lyrics, now).Some? ==>
      exists k :: 0 <= k < |lyrics| && lyrics[k] == Active(lyrics, now).value &&
        lyrics[k].time <= now && forall j :: k < j < |lyrics| ==> lyrics[j].time > now
  {
    ActiveIsLastReached(lyrics, now);
  }

  /** An entry is active from its own time on, until some later entry is reached. */
  lemma ActiveAtOwnTime(lyrics: seq<TimedLine>, k: nat)
    requires k < |lyrics|
    requires forall j :: k < j < |lyrics| ==> lyrics[j].time > lyrics[k].time
    ensures Active(lyrics, lyrics[k].time) == Some(lyrics[k])
  {
    ActiveIsLastReached(lyrics, lyrics[k].time);
  }

  /** Of two reached entries with equal times, the one at the earlier index is never the one shown. */
  lemma TieGoesToLater(lyrics: seq<TimedLine>, now: real, i: nat, j: nat)
    requires i < j < |lyrics|
    requires lyrics[i].time == lyrics[j].time <= now
    ensures LastReached(lyrics, now) >= j > i
    ensures Active(lyrics, now) == Some(lyrics[LastReached(lyrics, now)])
  {
    ActiveIsLastReached(lyrics, now);
  }

  /** As playback moves forward, the active index never moves back. */
  lemma {:induction false} LastReachedMonotone(lyrics: seq<TimedLine>, now1: real, now2: real)
    requires now1 <= now2
    ensures LastReached(lyrics, now1) <= LastReached(lyrics, now2)
  {
  }

  /**
   * Playing forward never brings back an earlier line: once a line is shown,
   * a line is shown at every later position, and it sits at the same index or
   * further down the list.
   */
  lemma PlaybackNeverGoesBack(lyrics: seq<TimedLine>, now1: real, now2: real)
    requires now1 <= now2
    requires Active(lyrics, now1).Some?
    ensures 0 <= LastReached(lyrics, now1) <= LastReached(lyrics, now2) &&
      Active(lyrics, now1) == Some(lyrics[LastReached(lyrics, now1)]) &&
      Active(lyrics, now2) == Some(lyrics[LastReached(lyrics, now2)])
  {
    ActiveIsLastReached(lyrics, now1);
    ActiveIsLastReached(lyrics, now2);
    LastReachedMonotone(lyrics, now1, now2);
  }

  /**
   * On a time-sorted list the active line has the greatest time not after `now`:
   * every entry at or before `now` is no later than it.
   */
  lemma SortedActiveIsLatest(lyrics: seq<TimedLine>, now: real)
    requires SortedByTime(lyrics)
    requires Active(lyrics, now).Some?
    ensures var e := Active(lyrics, now).value;
      e.time <= now && forall i :: 0 <= i < |lyrics| && lyrics[i].time <= now ==> lyrics[i].time <= e.time
  {
    ActiveIsLastReached(lyrics, now);
  }

  /** Three lines at 0, 5 and 10 seconds, queried before, between, at and after their times. */
  lemma ThreeLineExample()
    ensures var tl := [TimedLine(0.0, "A"), TimedLine(5.0, "B"), TimedLine(10.0, "C")];
      Active(tl, 0.0) == Some(tl[0]) && Active(tl, 4.999) == Some(tl[0]) &&
      Active(tl, 5.0) == Some(tl[1]) && Active(tl, -1.0) == None && Active(tl, 100.0) == Some(tl[2])
  {
    var tl := [TimedLine(0.0, "A"), TimedLine(5.0, "B"), TimedLine(10.0, "C")];
    ActiveIsLastReached(tl, 0.0);
    ActiveIsLastReached(tl, 4.999);
    ActiveIsLastReached(tl, 5.0);
    ActiveIsLastReached(tl, -1.0);
    ActiveIsLastReached(tl, 100.0);
  }

  /** Two lines stamped at the same instant: the second one is shown. */
  lemma TieExample()
    ensures Active([TimedLine(5.0, "X"), TimedLine(5.0, "Y")], 5.0) == Some(TimedLine(5.0, "Y"))
  {
    ActiveIsLastReached([TimedLine(5.0, "X"), TimedLine(5.0, "Y")], 5.0);
  }
}
