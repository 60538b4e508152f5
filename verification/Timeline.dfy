/** Timelines: looking up the ranges and the events of an interval by binary search. */
module Timeline {

  datatype DataRange = DataRange(start: real, end: real, value: string)

  datatype Event = Event(at: real, value: string)

  // ----- filters and slices

  function Filter<T>(s: seq<T>, p: T -> bool): seq<T> {
    if s == [] then [] else Filter(s[..|s| - 1], p) + if p(s[|s| - 1]) then [s[|s| - 1]] else []
  }

  lemma {:induction false} FilterNone<T>(s: seq<T>, p: T -> bool)
    requires forall i :: 0 <= i < |s| ==> !p(s[i])
    ensures Filter(s, p) == []
  {
    if s != [] {
      FilterNone(s[..|s| - 1], p);
    }
  }

  /** If exactly the items of a slice pass, the filter gives the slice. */
  lemma {:induction false} FilterIsSlice<T>(s: seq<T>, p: T -> bool, lo: nat, hi: nat)
    requires lo <= hi <= |s| && forall i :: 0 <= i < |s| ==> (p(s[i]) <==> lo <= i < hi)
    ensures Filter(s, p) == s[lo..hi]
  {
    if lo == hi {
      FilterNone(s, p);
    } else if hi < |s| {
      FilterIsSlice(s[..|s| - 1], p, lo, hi);
      assert s[..|s| - 1][lo..hi] == s[lo..hi];
    } else {
      FilterIsSlice(s[..|s| - 1], p, lo, hi - 1);
      assert s[..|s| - 1][lo..hi - 1] + [s[hi - 1]] == s[lo..hi];
    }
  }

  lemma {:induction false} FilterMember<T>(s: seq<T>, p: T -> bool, x: T)
    ensures x in Filter(s, p) <==> x in s && p(x)
  {
    if s != [] {
      FilterMember(s[..|s| - 1], p, x);
      assert s == s[..|s| - 1] + [s[|s| - 1]];
    }
  }

  /** A slice whose upper bound may lie below its lower bound. */
  function Slice<T>(s: seq<T>, lo: nat, hi: nat): seq<T> {
    if lo >= |s| || hi <= lo then [] else s[lo..if hi < |s| then hi else |s|]
  }

  // ----- ranges

  predicate Contains(r: DataRange, key: real) {
    r.start <= key <= r.end
  }

  /** The range has a point in common with the interval. */
  function Meets(start: real, end: real): DataRange -> bool {
    (r: DataRange) => r.start <= end && start <= r.end
  }

  /** Sorted and disjoint. */
  ghost predicate InOrder(ranges: seq<DataRange>) {
    && (forall i :: 0 <= i < |ranges| ==> ranges[i].start <= ranges[i].end)
    && (forall i, j :: 0 <= i < j < |ranges| ==> ranges[i].end < ranges[j].start)
  }

  ghost predicate Covers(ranges: seq<DataRange>, key: real) {
    exists i :: 0 <= i < |ranges| && Contains(ranges[i], key)
  }

  class TimelineDataRange {
    var ranges: seq<DataRange>

    constructor ()
      ensures ranges == []
    {
      ranges := [];
    }

    method AddRange(r: DataRange)
      modifies this
      ensures ranges == old(ranges) + [r]
    {
      ranges := ranges + [r];
    }

    /** A range that contains the key, if one is found; in an ordered list it is found if there is one. */
    method Search(key: real) returns (r: int)
      ensures -1 <= r < |ranges| && (r >= 0 ==> Contains(ranges[r], key))
      ensures InOrder(ranges) ==> (r == -1 <==> !Covers(ranges, key))
    {
      var l, u := 0, |ranges| - 1;
      while l <= u
        invariant 0 <= l <= |ranges| && -1 <= u < |ranges| && l <= u + 1
        invariant InOrder(ranges) ==> forall i :: 0 <= i < |ranges| && Contains(ranges[i], key) ==> l <= i <= u
      {
        var i := (l + u) / 2;
        if ranges[i].start <= key && key <= ranges[i].end {
          return i;
        } else if key < ranges[i].start {
          u := i - 1;
        } else {
          l := i + 1;
        }
      }
      return -1;
    }

    /** For an ordered list the bounds of the slice that `RangeBounds` describes. */
    method GetRangesBounds(start: real, end: real) returns (lo: nat, hi: nat)
      ensures hi <= |ranges| && (InOrder(ranges) ==> RangeBounds(ranges, start, end, lo, hi))
    {
      var s := Search(start);
      var e := Search(end);
      if s == -1 && e == -1 {
        return 0, 0;
      } else if s == -1 {
        return 0, e + 1;
      } else if e == -1 {
        return s, |ranges|;
      } else {
        return s, e + 1;
      }
    }

    method GetRanges(start: real, end: real) returns (r: seq<DataRange>)
      ensures InOrder(ranges) ==>
                exists lo: nat, hi: nat :: RangeBounds(ranges, start, end, lo, hi) && r == Slice(ranges, lo, hi)
    {
      var s := Search(start);
      var e := Search(end);
      ghost var lo := if s == -1 then 0 else s;
      ghost var hi := if s == -1 && e == -1 then 0 else if e == -1 then |ranges| else e + 1;
      assert InOrder(ranges) ==> RangeBounds(ranges, start, end, lo, hi);
      if s == -1 && e == -1 {
        return [];
      } else if s == -1 {
        return ranges[0..e + 1];
      } else if e == -1 {
        return ranges[s..];
      } else {
        return Slice(ranges, s, e + 1);
      }
    }
  }

  /** The lower bound is the range of `start` or 0, the upper one is past the range of `end` or the end of the list. */
  ghost predicate RangeBounds(ranges: seq<DataRange>, start: real, end: real, lo: nat, hi: nat) {
    if !Covers(ranges, start) && !Covers(ranges, end) then lo == 0 && hi == 0
    else
      && (if Covers(ranges, start) then lo < |ranges| && Contains(ranges[lo], start) else lo == 0)
      && (if Covers(ranges, end) then 0 < hi <= |ranges| && Contains(ranges[hi - 1], end) else hi == |ranges|)
  }

  lemma {:induction false} ContainingIsUnique(ranges: seq<DataRange>, key: real, i: nat, j: nat)
    requires InOrder(ranges) && i < |ranges| && j < |ranges| && Contains(ranges[i], key) && Contains(ranges[j], key)
    ensures i == j
  {
  }

  /** What can be checked beforehand: no range is given too much, and none is missed. */
  ghost predicate IsExact(ranges: seq<DataRange>, start: real, end: real) {
    if Covers(ranges, start) && Covers(ranges, end) then true
    else if Covers(ranges, start) then ranges[|ranges| - 1].start <= end
    else if Covers(ranges, end) then start <= ranges[0].end
    else forall i :: 0 <= i < |ranges| ==> ranges[i].end < start || end < ranges[i].start
  }

  lemma {:induction false} MeetingIsInside(ranges: seq<DataRange>, start: real, end: real, lo: nat, hi: nat, i: nat)
    requires InOrder(ranges) && RangeBounds(ranges, start, end, lo, hi) && i < |ranges| && Meets(start, end)(ranges[i])
    requires Covers(ranges, start) || Covers(ranges, end)
    ensures lo <= i < hi
  {
  }

  lemma {:induction false} InsideMeets(ranges: seq<DataRange>, start: real, end: real, lo: nat, hi: nat, i: nat)
    requires InOrder(ranges) && RangeBounds(ranges, start, end, lo, hi) && IsExact(ranges, start, end) && lo <= i < hi
    ensures i < |ranges| && Meets(start, end)(ranges[i])
  {
    assert Covers(ranges, start) || Covers(ranges, end);
    assert i == lo || ranges[lo].end < ranges[i].start;
    assert i == hi - 1 || ranges[i].end < ranges[hi - 1].start;
  }

  /** With one end of the interval in a range, no range that meets the interval is missed. */
  lemma {:induction false} NothingIsMissed(ranges: seq<DataRange>, start: real, end: real, lo: nat, hi: nat,
                                           r: DataRange)
    requires InOrder(ranges) && RangeBounds(ranges, start, end, lo, hi)
    requires Covers(ranges, start) || Covers(ranges, end)
    requires r in ranges && Meets(start, end)(r)
    ensures r in Slice(ranges, lo, hi)
  {
    var i :| 0 <= i < |ranges| && ranges[i] == r;
    MeetingIsInside(ranges, start, end, lo, hi, i);
    assert Slice(ranges, lo, hi)[i - lo] == r;
  }

  lemma {:induction false} ExactSlice(ranges: seq<DataRange>, start: real, end: real, lo: nat, hi: nat)
    requires InOrder(ranges) && RangeBounds(ranges, start, end, lo, hi) && IsExact(ranges, start, end)
    ensures Slice(ranges, lo, hi) == Filter(ranges, Meets(start, end))
  {
    if !Covers(ranges, start) && !Covers(ranges, end) {
      FilterNone(ranges, Meets(start, end));
    } else {
      forall i | 0 <= i < |ranges| ensures Meets(start, end)(ranges[i]) <==> lo <= i < hi {
        if Meets(start, end)(ranges[i]) {
          MeetingIsInside(ranges, start, end, lo, hi, i);
        } else if lo <= i < hi {
          InsideMeets(ranges, start, end, lo, hi, i);
        }
      }
      if lo <= hi {
        FilterIsSlice(ranges, Meets(start, end), lo, hi);
      } else {
        FilterNone(ranges, Meets(start, end));
      }
    }
  }

  /** An item that is in the answer and does not meet the interval, or the other way round. */
  lemma {:induction false} InexactAt(ranges: seq<DataRange>, start: real, end: real, lo: nat, hi: nat) returns (i: nat)
    requires InOrder(ranges) && RangeBounds(ranges, start, end, lo, hi) && !IsExact(ranges, start, end)
    ensures i < |ranges| && (ranges[i] in Slice(ranges, lo, hi) <==> !Meets(start, end)(ranges[i]))
  {
    if Covers(ranges, start) {
      i := |ranges| - 1;
      assert Slice(ranges, lo, hi)[i - lo] == ranges[i];
    } else if Covers(ranges, end) {
      i := 0;
      assert Slice(ranges, lo, hi)[0] == ranges[0];
    } else {
      i :| 0 <= i < |ranges| && !(ranges[i].end < start || end < ranges[i].start);
    }
  }

  /** The answer is the ranges that meet the interval, no more and no less, exactly under the condition above. */
  lemma {:induction false} GetRangesIsExactIff(ranges: seq<DataRange>, start: real, end: real, lo: nat, hi: nat)
    requires InOrder(ranges) && RangeBounds(ranges, start, end, lo, hi)
    ensures Slice(ranges, lo, hi) == Filter(ranges, Meets(start, end)) <==> IsExact(ranges, start, end)
  {
    if IsExact(ranges, start, end) {
      ExactSlice(ranges, start, end, lo, hi);
    } else {
      var i := InexactAt(ranges, start, end, lo, hi);
      FilterMember(ranges, Meets(start, end), ranges[i]);
    }
  }

  /** With the end between two ranges, the range after it is given too. */
  lemma {:induction false} EndBetweenRanges()
    ensures var ranges := [DataRange(0.0, 1.0, "a"), DataRange(5.0, 6.0, "b")];
            && InOrder(ranges) && RangeBounds(ranges, 0.5, 2.0, 0, 2) && !IsExact(ranges, 0.5, 2.0)
            && Slice(ranges, 0, 2) == ranges && !Meets(0.5, 2.0)(ranges[1])
  {
    var ranges := [DataRange(0.0, 1.0, "a"), DataRange(5.0, 6.0, "b")];
    assert Contains(ranges[0], 0.5);
    assert ranges[0..2] == ranges;
  }

  // ----- events

  function IsIn(start: real, end: real): Event -> bool {
    (e: Event) => start <= e.at <= end
  }

  ghost predicate Increasing(events: seq<Event>) {
    forall i, j :: 0 <= i < j < |events| ==> events[i].at < events[j].at
  }

  /** The first event that is not before the key, or the end of the list. */
  ghost predicate IsFirstFrom(events: seq<Event>, key: real, k: nat) {
    k <= |events| && forall i :: 0 <= i < |events| ==> (events[i].at < key <==> i < k)
  }

  class TimelineEvent {
    var events: seq<Event>

    constructor ()
      ensures events == []
    {
      events := [];
    }

    method AddEvent(e: Event)
      modifies this
      ensures events == old(events) + [e]
    {
      events := events + [e];
    }

    method Search(key: real) returns (k: nat)
      ensures k <= |events| && (Increasing(events) ==> IsFirstFrom(events, key, k))
    {
      var l, u := 0, |events| - 1;
      while l <= u
        invariant 0 <= l <= |events| && -1 <= u < |events| && l <= u + 1
        invariant Increasing(events) ==> forall i :: 0 <= i < l ==> events[i].at < key
        invariant Increasing(events) ==> forall i :: u < i < |events| ==> key < events[i].at
      {
        var i := (l + u) / 2;
        if key == events[i].at {
          return i;
        } else if key < events[i].at {
          u := i - 1;
        } else {
          l := i + 1;
        }
      }
      return l;
    }

    method GetEventsBounds(start: real, end: real) returns (lo: nat, hi: nat)
      ensures Increasing(events) ==> IsFirstFrom(events, start, lo) && hi > 0 && IsFirstFrom(events, end, hi - 1)
    {
      lo := Search(start);
      var e := Search(end);
      hi := e + 1;
    }

    /** The events of the interval, and the next one after it if the interval is not turned round. */
    method GetEvents(start: real, end: real) returns (r: seq<Event>)
      ensures Increasing(events) ==> exists lo: nat, hi: nat ::
                IsFirstFrom(events, start, lo) && IsFirstFrom(events, end, hi) && r == Slice(events, lo, hi + 1)
    {
      var s := Search(start);
      var e := Search(end);
      r := Slice(events, s, e + 1);
    }
  }

  /** The next event after the interval, unless an event is at its end or the list is at its end. */
  ghost function NextEvent(events: seq<Event>, end: real, lo: nat, hi: nat): seq<Event> {
    if lo <= hi < |events| && end < events[hi].at then [events[hi]] else []
  }

  lemma {:induction false} InIsSlice(events: seq<Event>, start: real, end: real, lo: nat, hi: nat, stop: nat)
    requires Increasing(events) && IsFirstFrom(events, start, lo) && IsFirstFrom(events, end, hi)
    requires stop == if hi < |events| && events[hi].at == end then hi + 1 else hi
    ensures Filter(events, IsIn(start, end)) == Slice(events, lo, stop)
  {
    forall i | 0 <= i < |events| ensures IsIn(start, end)(events[i]) <==> lo <= i < stop {
    }
    if lo <= stop {
      FilterIsSlice(events, IsIn(start, end), lo, stop);
    } else {
      FilterNone(events, IsIn(start, end));
    }
  }

  /** What is returned is every event of the interval and at most one later event. */
  lemma {:induction false} GetEventsIs(events: seq<Event>, start: real, end: real, lo: nat, hi: nat)
    requires Increasing(events) && IsFirstFrom(events, start, lo) && IsFirstFrom(events, end, hi)
    ensures Slice(events, lo, hi + 1) == Filter(events, IsIn(start, end)) + NextEvent(events, end, lo, hi)
  {
    var stop := if hi < |events| && events[hi].at == end then hi + 1 else hi;
    InIsSlice(events, start, end, lo, hi, stop);
    if lo > hi {
      assert Slice(events, lo, stop) == [];
    } else if stop == hi < |events| {
      assert Slice(events, lo, hi + 1) == events[lo..hi] + [events[hi]];
    }
  }
}
