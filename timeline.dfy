/**
 * Timed lyric lines and the stable ordering by time that script.js gets from
 * `Array.prototype.sort((a, b) => a.time - b.time)` (stable since ECMAScript 2019).
 */
module Timeline {

  datatype Option<+T> = None | Some(value: T)

  /** A playback position in seconds; the audio clock never reports a negative one. */
  type Seconds = r: real | 0.0 <= r

  /** One lyric line with the moment it becomes active: `{ time, text }` in script.js. */
  datatype TimedLine = TimedLine(time: Seconds, text: string)

  predicate SortedByTime(s: seq<TimedLine>) {
    forall i, j :: 0 <= i < j < |s| ==> s[i].time <= s[j].time
  }

  /** The entries of `s` stamped exactly at `v`, in their order in `s`. */
  function AtTime(s: seq<TimedLine>, v: real): (r: seq<TimedLine>)
    ensures forall e :: e in r <==> e in s && e.time == v
  {
    if s == [] then []
    else (if s[0].time == v then [s[0]] else []) + AtTime(s[1..], v)
  }

  lemma {:induction false} NoneAtTime(s: seq<TimedLine>, v: real)
    requires forall i :: 0 <= i < |s| ==> s[i].time != v
    ensures AtTime(s, v) == []
    decreases |s|
  {
    if s != [] {
      NoneAtTime(s[1..], v);
    }
  }

  lemma {:induction false} AtTimeAppend(a: seq<TimedLine>, b: seq<TimedLine>, v: real)
    ensures AtTime(a + b, v) == AtTime(a, v) + AtTime(b, v)
    decreases |a|
  {
    if a != [] {
      assert (a + b)[0] == a[0] && (a + b)[1..] == a[1..] + b;
      AtTimeAppend(a[1..], b, v);
    } else {
      assert a + b == b;
    }
  }

  /**
   * Inserts `x` into `s` after every entry whose time is not later than its own:
   * the step a stable sort by time takes for each new element.
   */
  function InsertByTime(s: seq<TimedLine>, x: TimedLine): seq<TimedLine> {
    if s == [] then [x]
    else if x.time < s[0].time then [x] + s
    else [s[0]] + InsertByTime(s[1..], x)
  }

  /** Inserting adds exactly `x` and keeps a sorted timeline sorted. */
  lemma InsertSpec(s: seq<TimedLine>, x: TimedLine)
    ensures multiset(InsertByTime(s, x)) == multiset(s) + multiset{x}
    ensures SortedByTime(s) ==> SortedByTime(InsertByTime(s, x))
  {
    InsertPermutes(s, x);
    if SortedByTime(s) {
      InsertSorted(s, x);
    }
  }

  lemma {:induction false} InsertPermutes(s: seq<TimedLine>, x: TimedLine)
    ensures multiset(InsertByTime(s, x)) == multiset(s) + multiset{x}
    decreases |s|
  {
    if s != [] && x.time >= s[0].time {
      assert s == [s[0]] + s[1..];
      InsertPermutes(s[1..], x);
    }
  }

  lemma {:induction false} InsertSorted(s: seq<TimedLine>, x: TimedLine)
    requires SortedByTime(s)
    ensures SortedByTime(InsertByTime(s, x))
    decreases |s|
  {
    if s == [] {
    } else if x.time < s[0].time {
      ConsSorted(x, s);
    } else {
      InsertSorted(s[1..], x);
      InsertLowerBound(s[1..], x, s[0].time);
      ConsSorted(s[0], InsertByTime(s[1..], x));
    }
  }

  lemma ConsSorted(a: TimedLine, r: seq<TimedLine>)
    requires SortedByTime(r)
    requires forall i :: 0 <= i < |r| ==> a.time <= r[i].time
    ensures SortedByTime([a] + r)
  {
    var t := [a] + r;
    forall i, j | 0 <= i < j < |t| ensures t[i].time <= t[j].time {
      assert t[j] == r[j - 1];
      if i > 0 { assert t[i] == r[i - 1]; }
    }
  }

  /** A lower bound on every time survives the insertion. */
  lemma {:induction false} InsertLowerBound(s: seq<TimedLine>, x: TimedLine, b: real)
    requires forall i :: 0 <= i < |s| ==> b <= s[i].time
    requires b <= x.time
    ensures forall i :: 0 <= i < |InsertByTime(s, x)| ==> b <= InsertByTime(s, x)[i].time
    decreases |s|
  {
    if s != [] && x.time >= s[0].time {
      InsertLowerBound(s[1..], x, b);
    }
  }

  /** Among equal times, the inserted entry comes last. */
  lemma {:induction false} InsertKeepsTies(s: seq<TimedLine>, x: TimedLine, v: real)
    requires SortedByTime(s)
    ensures AtTime(InsertByTime(s, x), v) == AtTime(s, v) + AtTime([x], v)
    decreases |s|
  {
    if s == [] {
    } else if x.time < s[0].time {
      if x.time == v {
        assert forall i :: 0 <= i < |s| ==> s[i].time > v;
        NoneAtTime(s, v);
      }
    } else {
      InsertKeepsTies(s[1..], x, v);
    }
  }

  /** Appending an entry at least as late as every other one is what the insertion does. */
  lemma {:induction false} InsertAtEnd(s: seq<TimedLine>, x: TimedLine)
    requires forall i :: 0 <= i < |s| ==> s[i].time <= x.time
    ensures InsertByTime(s, x) == s + [x]
    decreases |s|
  {
    if s != [] {
      InsertAtEnd(s[1..], x);
      assert s == [s[0]] + s[1..];
    }
  }

  /** The stable sort by time: each entry in turn is inserted into the sorted prefix. */
  function SortByTime(s: seq<TimedLine>): seq<TimedLine> {
    if s == [] then [] else InsertByTime(SortByTime(s[..|s| - 1]), s[|s| - 1])
  }

  /**
   * What the sort promises: the result is ordered by time, is a permutation of
   * the input, and keeps entries with equal times in their input order.
   */
  lemma {:induction false} SortByTimeSpec(s: seq<TimedLine>)
    ensures SortedByTime(SortByTime(s))
    ensures multiset(SortByTime(s)) == multiset(s)
    ensures forall v :: AtTime(SortByTime(s), v) == AtTime(s, v)
    decreases |s|
  {
    if s != [] {
      var init, last := s[..|s| - 1], s[|s| - 1];
      SortByTimeSpec(init);
      InsertSpec(SortByTime(init), last);
      assert s == init + [last];
      forall v ensures AtTime(SortByTime(s), v) == AtTime(s, v) {
        InsertKeepsTies(SortByTime(init), last, v);
        AtTimeAppend(init, [last], v);
      }
    }
  }

  /** Sorting an already sorted timeline changes nothing. */
  lemma {:induction false} SortSortedIsIdentity(s: seq<TimedLine>)
    requires SortedByTime(s)
    ensures SortByTime(s) == s
    decreases |s|
  {
    if s != [] {
      var init, last := s[..|s| - 1], s[|s| - 1];
      SortSortedIsIdentity(init);
      InsertAtEnd(init, last);
      assert s == init + [last];
    }
  }
}
