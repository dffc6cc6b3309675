/** The timeline index of grid.py: binary searches over ranges and events, and the windows they cut
    out, against the plain filters they stand for. */
module Timeline {
  import opened Places

  datatype DataRange = DataRange(start: int, end: int, value: string)
  datatype Event = Event(at: int, value: string)

  /** Python's xs[a:b] for non-negative a and b. */
  function Slice<T>(xs: seq<T>, a: nat, b: nat): seq<T> {
    var hi := if b <= |xs| then b else |xs|;
    if a < hi then xs[a..hi] else []
  }

  // ---------- Ranges ----------

  predicate Contains(r: DataRange, key: int) {
    r.start <= key <= r.end
  }

  predicate Meets(r: DataRange, start: int, end: int) {
    r.start <= end && start <= r.end
  }

  /** Starts and ends both go up: enough for the search. */
  ghost predicate Ordered(rs: seq<DataRange>) {
    forall i, j | 0 <= i < j < |rs| :: rs[i].start <= rs[j].start && rs[i].end <= rs[j].end
  }

  /** Proper ranges, each ending before the next one starts. */
  ghost predicate Disjoint(rs: seq<DataRange>) {
    && (forall i | 0 <= i < |rs| :: rs[i].start <= rs[i].end)
    && (forall i, j | 0 <= i < j < |rs| :: rs[i].end < rs[j].start)
  }

  ghost predicate Covered(rs: seq<DataRange>, key: int) {
    exists i :: 0 <= i < |rs| && Contains(rs[i], key)
  }

  /** The plain filter: the ranges that meet [start, end]. */
  function Meeting(rs: seq<DataRange>, start: int, end: int): seq<DataRange> {
    if rs == [] then []
    else
      var last := rs[|rs| - 1];
      Meeting(rs[..|rs| - 1], start, end) + if Meets(last, start, end) then [last] else []
  }

  lemma {:induction false} MeetingMeets(rs: seq<DataRange>, start: int, end: int, r: DataRange)
    ensures r in Meeting(rs, start, end) <==> r in rs && Meets(r, start, end)
  {
    if rs != [] {
      MeetingMeets(rs[..|rs| - 1], start, end, r);
      assert r in rs <==> r in rs[..|rs| - 1] || r == rs[|rs| - 1];
    }
  }

  /** Some point lies in the range and in the window. */
  ghost predicate ShareAPoint(r: DataRange, start: int, end: int) {
    exists x :: Contains(r, x) && start <= x <= end
  }

  /** A proper range meets the window exactly when they share a point. */
  lemma MeetsIff(r: DataRange, start: int, end: int)
    requires r.start <= r.end && start <= end
    ensures Meets(r, start, end) <==> ShareAPoint(r, start, end)
  {
    if Meets(r, start, end) {
      assert Contains(r, if r.start <= start then start else r.start);
    }
  }

  lemma MeetingLast(rs: seq<DataRange>, start: int, end: int)
    ensures rs == [] ==> Meeting(rs, start, end) == []
    ensures rs != [] ==>
              Meeting(rs, start, end) ==
                Meeting(rs[..|rs| - 1], start, end) + if Meets(rs[|rs| - 1], start, end) then [rs[|rs| - 1]] else []
  {
  }

  /** The filter keeps the ranges with a point in the window, in order, each once. */
  lemma {:induction false} MeetingAre(rs: seq<DataRange>, start: int, end: int) returns (at: seq<nat>)
    requires start <= end && forall i | 0 <= i < |rs| :: rs[i].start <= rs[i].end
    ensures Ascending(at, |rs|) && |Meeting(rs, start, end)| == |at|
    ensures forall n | 0 <= n < |at| :: Meeting(rs, start, end)[n] == rs[at[n]]
    ensures forall k: nat :: k in at <==> k < |rs| && ShareAPoint(rs[k], start, end)
  {
    hide Meets, ShareAPoint, Ascending, Meeting;
    at := [];
    NoPlaces();
    MeetingLast(rs, start, end);
    if rs != [] {
      var last := |rs| - 1;
      at := MeetingAre(rs[..last], start, end);
      AscendingMore(at, last);
      MeetsIff(rs[last], start, end);
      if Meets(rs[last], start, end) { at := at + [last]; }
    }
  }

  lemma LastOfSlice<T>(xs: seq<T>, a: nat)
    requires a < |xs|
    ensures xs[a..] == xs[..|xs| - 1][a..] + [xs[|xs| - 1]] && xs[a..] == xs[a..|xs|]
    ensures xs[..|xs| - 1][a..] == xs[..|xs| - 1][a..|xs| - 1]
  {
  }

  lemma InInit<T>(xs: seq<T>, a: nat, b: nat)
    requires a <= b < |xs|
    ensures xs[a..b] == xs[..|xs| - 1][a..b]
  {
  }

  lemma {:induction false} MeetingIsSlice(rs: seq<DataRange>, start: int, end: int, a: nat, b: nat)
    requires a <= b <= |rs|
    requires forall k | 0 <= k < |rs| :: Meets(rs[k], start, end) <==> a <= k < b
    ensures Meeting(rs, start, end) == rs[a..b]
  {
    hide Meets;
    if rs == [] {
    } else if b == |rs| {
      var init := rs[..|rs| - 1];
      if a == b {
        MeetingIsSlice(init, start, end, b - 1, b - 1);
        assert !Meets(rs[|rs| - 1], start, end);
      } else {
        MeetingIsSlice(init, start, end, a, b - 1);
        LastOfSlice(rs, a);
      }
    } else {
      MeetingIsSlice(rs[..|rs| - 1], start, end, a, b);
      InInit(rs, a, b);
    }
  }

  /** No range ends between the two points. */
  ghost predicate SameGap(rs: seq<DataRange>, start: int, end: int) {
    forall r | r in rs :: r.end < start <==> r.end < end
  }

  /** When get_ranges agrees with the plain filter. Where one end point is in no range, the code
      cuts at that end of the list instead, which is right only if the list does not reach beyond
      the point; where neither is, it returns nothing, which is right only if both are in the same
      gap. */
  ghost predicate Exact(rs: seq<DataRange>, start: int, end: int) {
    if Covered(rs, start) then Covered(rs, end) || rs[|rs| - 1].start <= end
    else if Covered(rs, end) then start <= rs[0].end
    else SameGap(rs, start, end)
  }

  /** What get_ranges returns: the ranges that meet the window, which opens to the end of the list
      on a side where its end point is in no range; none at all when neither is. */
  ghost function Shown(rs: seq<DataRange>, start: int, end: int): seq<DataRange> {
    if Covered(rs, start) then Meeting(rs, start, if Covered(rs, end) then end else rs[|rs| - 1].end)
    else if Covered(rs, end) then Meeting(rs, rs[0].start, end)
    else []
  }

  class TimelineDataRange {
    var ranges: seq<DataRange>

    constructor ()
      ensures ranges == []
    {
      ranges := [];
    }

    method AddRange(range: DataRange)
      modifies this`ranges
      ensures ranges == old(ranges) + [range]
    {
      ranges := ranges + [range];
    }

    /** A range that holds the key, or -1, which for ordered ranges means that none does. */
    method Search(key: int) returns (index: int)
      ensures -1 <= index < |ranges|
      ensures index >= 0 ==> ranges[index].start <= key <= ranges[index].end
      ensures Ordered(ranges) && index == -1 ==>
                forall j | 0 <= j < |ranges| :: !(ranges[j].start <= key <= ranges[j].end)
      ensures Disjoint(ranges) ==>
                forall j | 0 <= j < |ranges| :: ranges[j].start <= key <= ranges[j].end <==> j == index
    {
      var l, u := 0, |ranges| - 1;
      while l <= u
        invariant 0 <= l <= |ranges| && -1 <= u < |ranges|
        invariant Ordered(ranges) || Disjoint(ranges) ==>
                    forall j | 0 <= j < |ranges| && !(l <= j <= u) :: !Contains(ranges[j], key)
      {
        var i := (l + u) / 2;
        if key >= ranges[i].start && key <= ranges[i].end {
          return i;
        } else if key < ranges[i].start {
          u := i - 1;
        } else {
          l := i + 1;
        }
      }
      return -1;
    }

    method GetRangesBounds(start: int, end: int) returns (lo: nat, hi: nat)
      ensures Disjoint(ranges) && start <= end ==> Slice(ranges, lo, hi) == Shown(ranges, start, end)
      ensures Disjoint(ranges) && start <= end ==>
                (Slice(ranges, lo, hi) == Meeting(ranges, start, end) <==> Exact(ranges, start, end))
      ensures Disjoint(ranges) && start <= end && (Covered(ranges, start) || Covered(ranges, end)) ==>
                forall r | r in ranges && Meets(r, start, end) :: r in Slice(ranges, lo, hi)
    {
      var s := Search(start);
      var e := Search(end);
      if s == -1 && e == -1 {
        lo, hi := 0, 0;
      } else if s == -1 {
        lo, hi := 0, e + 1;
      } else if e == -1 {
        lo, hi := s, |ranges|;
      } else {
        lo, hi := s, e + 1;
      }
      if Disjoint(ranges) && start <= end {
        BoundsAreRight(ranges, start, end, s, e, lo, hi);
      }
    }

    /** Always a contiguous part of the ranges; exactly those that meet [start, end] precisely when
        `Exact` holds, and all of them and perhaps more when only one end point lies in a range. */
    method GetRanges(start: int, end: int) returns (found: seq<DataRange>)
      ensures exists lo: nat, hi: nat :: found == Slice(ranges, lo, hi)
      ensures Disjoint(ranges) && start <= end ==> found == Shown(ranges, start, end)
      ensures Disjoint(ranges) && start <= end ==>
                (found == Meeting(ranges, start, end) <==> Exact(ranges, start, end))
      ensures Disjoint(ranges) && start <= end && (Covered(ranges, start) || Covered(ranges, end)) ==>
                forall r | r in ranges && Meets(r, start, end) :: r in found
    {
      var lo, hi := GetRangesBounds(start, end);
      found := Slice(ranges, lo, hi);
    }
  }

  /** The index a search returns for disjoint ranges. */
  ghost predicate IsIndex(rs: seq<DataRange>, key: int, index: int) {
    -1 <= index < |rs| && forall j | 0 <= j < |rs| :: Contains(rs[j], key) <==> j == index
  }

  lemma BoundsAreRight(rs: seq<DataRange>, start: int, end: int, s: int, e: int, lo: nat, hi: nat)
    requires Disjoint(rs) && start <= end && IsIndex(rs, start, s) && IsIndex(rs, end, e)
    requires (lo, hi) == if s == -1 && e == -1 then (0, 0) else if s == -1 then (0, e + 1)
                         else if e == -1 then (s, |rs|) else (s, e + 1)
    ensures Slice(rs, lo, hi) == Shown(rs, start, end)
    ensures Slice(rs, lo, hi) == Meeting(rs, start, end) <==> Exact(rs, start, end)
    ensures Covered(rs, start) || Covered(rs, end) ==>
              forall r | r in rs && Meets(r, start, end) :: r in Slice(rs, lo, hi)
  {
    assert s != -1 ==> Contains(rs[s], start);
    assert e != -1 ==> Contains(rs[e], end);
    assert Covered(rs, start) <==> s != -1;
    assert Covered(rs, end) <==> e != -1;
    if s == -1 && e == -1 {
      NothingFound(rs, start, end);
      GapMeetsNothing(rs, start, end);
    } else {
      Inside(rs, start, end, s, e, lo, hi);
      SliceIsShown(rs, start, end, s, e, lo, hi);
      assert Slice(rs, lo, hi) == rs[lo..hi];
      if Exact(rs, start, end) {
        MeetingIsSlice(rs, start, end, lo, hi);
      } else if s == -1 {
        MeetingMeets(rs, start, end, rs[0]);
        assert rs[lo..hi][0] == rs[0];
      } else {
        MeetingMeets(rs, start, end, rs[|rs| - 1]);
        assert rs[lo..hi][hi - lo - 1] == rs[|rs| - 1];
      }
    }
  }

  lemma SliceIsShown(rs: seq<DataRange>, start: int, end: int, s: int, e: int, lo: nat, hi: nat)
    requires Disjoint(rs) && start <= end && IsIndex(rs, start, s) && IsIndex(rs, end, e)
    requires s != -1 || e != -1
    requires (lo, hi) == if s == -1 then (0, e + 1) else if e == -1 then (s, |rs|) else (s, e + 1)
    ensures lo < hi <= |rs| && rs[lo..hi] == Shown(rs, start, end)
  {
    Inside(rs, start, end, s, e, lo, hi);
    assert s != -1 ==> Contains(rs[s], start);
    assert e != -1 ==> Contains(rs[e], end);
    assert Covered(rs, start) <==> s != -1;
    assert Covered(rs, end) <==> e != -1;
    var from := if s != -1 then start else rs[0].start;
    var to := if e != -1 then end else rs[|rs| - 1].end;
    hide Meeting;
    forall k | 0 <= k < |rs| ensures Meets(rs[k], from, to) <==> lo <= k < hi {
      assert 0 < k ==> rs[0].end < rs[k].start;
      assert k < |rs| - 1 ==> rs[k].end < rs[|rs| - 1].start;
      if s != -1 && s != k { assert if s < k then rs[s].end < rs[k].start else rs[k].end < rs[s].start; }
      if e != -1 && e != k { assert if e < k then rs[e].end < rs[k].start else rs[k].end < rs[e].start; }
    }
    MeetingIsSlice(rs, from, to, lo, hi);
  }

  const TWO_RANGES := [DataRange(0, 1, "a"), DataRange(5, 6, "b")]

  /** Where the end of the window is in no range, a range beyond it is returned; where neither end
      point is in one, ranges in between are not. */
  lemma RangesCanBeWrong()
    ensures Disjoint(TWO_RANGES)
    ensures Shown(TWO_RANGES, 0, 3) == TWO_RANGES && Meeting(TWO_RANGES, 0, 3) == TWO_RANGES[..1]
    ensures Shown(TWO_RANGES, 2, 8) == [] && Meeting(TWO_RANGES, 2, 8) == TWO_RANGES[1..]
  {
    hide Meeting;
    var rs := TWO_RANGES;
    TwoCovered();
    MeetingIsSlice(rs, 0, 6, 0, 2);
    MeetingIsSlice(rs, 0, 3, 0, 1);
    MeetingIsSlice(rs, 2, 8, 1, 2);
    hide Covered;
    assert rs[0..2] == rs && rs[0..1] == rs[..1] && rs[1..2] == rs[1..];
  }

  lemma TwoCovered()
    ensures Covered(TWO_RANGES, 0)
    ensures !Covered(TWO_RANGES, 2) && !Covered(TWO_RANGES, 3) && !Covered(TWO_RANGES, 8)
  {
    assert Contains(TWO_RANGES[0], 0);
  }

  lemma GapMeetsNothing(rs: seq<DataRange>, start: int, end: int)
    requires start <= end && !Covered(rs, start) && !Covered(rs, end)
    requires forall i | 0 <= i < |rs| :: rs[i].start <= rs[i].end
    ensures SameGap(rs, start, end) <==> forall r | r in rs :: !Meets(r, start, end)
  {
    forall r | r in rs ensures !Contains(r, start) && !Contains(r, end) && r.start <= r.end {
      var i :| 0 <= i < |rs| && rs[i] == r;
    }
  }

  lemma NothingFound(rs: seq<DataRange>, start: int, end: int)
    ensures [] == Meeting(rs, start, end) <==> forall r | r in rs :: !Meets(r, start, end)
  {
    var found := Meeting(rs, start, end);
    if found != [] {
      MeetingMeets(rs, start, end, found[0]);
    }
    forall r | r in rs && Meets(r, start, end) ensures found != [] {
      MeetingMeets(rs, start, end, r);
    }
  }

  /** With an end point covered, a range that meets the window lies inside the bounds, and all
      inside do when the bounds are exact. */
  lemma Inside(rs: seq<DataRange>, start: int, end: int, s: int, e: int, lo: nat, hi: nat)
    requires Disjoint(rs) && start <= end && IsIndex(rs, start, s) && IsIndex(rs, end, e)
    requires s != -1 || e != -1
    requires (lo, hi) == if s == -1 then (0, e + 1) else if e == -1 then (s, |rs|) else (s, e + 1)
    ensures lo < hi <= |rs|
    ensures forall k | 0 <= k < |rs| && Meets(rs[k], start, end) :: lo <= k < hi
    ensures (s != -1 || start <= rs[0].end) && (e != -1 || rs[|rs| - 1].start <= end) ==>
              forall k | lo <= k < hi :: Meets(rs[k], start, end)
    ensures forall r | r in rs && Meets(r, start, end) :: r in rs[lo..hi]
  {
    assert s != -1 ==> Contains(rs[s], start);
    assert e != -1 ==> Contains(rs[e], end);
    assert forall k | 0 <= k < |rs| && Meets(rs[k], start, end) :: lo <= k < hi;
    forall r | r in rs && Meets(r, start, end) ensures r in rs[lo..hi] {
      var k :| 0 <= k < |rs| && rs[k] == r;
      assert rs[lo..hi][k - lo] == r;
    }
    if (s != -1 || start <= rs[0].end) && (e != -1 || rs[|rs| - 1].start <= end) {
      forall k | lo <= k < hi ensures Meets(rs[k], start, end) {
        assert 0 < k ==> rs[0].end < rs[k].start;
        assert k < |rs| - 1 ==> rs[k].end < rs[|rs| - 1].start;
        if s != -1 { assert s < k ==> rs[s].end < rs[k].start; }
        if e != -1 { assert k < e ==> rs[k].end < rs[e].start; }
      }
    }
  }

  // ---------- Events ----------

  ghost predicate Increasing(es: seq<Event>) {
    forall i, j | 0 <= i < j < |es| :: es[i].at < es[j].at
  }

  /** The plain filter: the events within [start, end]. */
  function Within(es: seq<Event>, start: int, end: int): seq<Event> {
    if es == [] then []
    else
      var last := es[|es| - 1];
      Within(es[..|es| - 1], start, end) + if start <= last.at <= end then [last] else []
  }

  /** The first event after a time, if there is one. */
  function FirstAfter(es: seq<Event>, time: int): seq<Event> {
    if es == [] then [] else if es[0].at > time then [es[0]] else FirstAfter(es[1..], time)
  }

  ghost predicate Happens(es: seq<Event>, time: int) {
    exists i :: 0 <= i < |es| && es[i].at == time
  }

  /** The filter keeps the events with start <= at <= end, in order, each once. */
  lemma {:induction false} WithinAre(es: seq<Event>, start: int, end: int) returns (at: seq<nat>)
    ensures Ascending(at, |es|) && |Within(es, start, end)| == |at|
    ensures forall n | 0 <= n < |at| :: Within(es, start, end)[n] == es[at[n]]
    ensures forall k: nat :: k in at <==> k < |es| && start <= es[k].at <= end
  {
    hide Ascending;
    at := [];
    NoPlaces();
    if es != [] {
      var last := |es| - 1;
      at := WithinAre(es[..last], start, end);
      AscendingMore(at, last);
      if start <= es[last].at <= end { at := at + [last]; }
    }
  }

  lemma {:induction false} WithinIsSlice(es: seq<Event>, start: int, end: int, a: nat, b: nat)
    requires a <= b <= |es|
    requires forall k | 0 <= k < |es| :: start <= es[k].at <= end <==> a <= k < b
    ensures Within(es, start, end) == es[a..b]
  {
    if es == [] {
    } else if b == |es| {
      var init := es[..|es| - 1];
      if a == b {
        WithinIsSlice(init, start, end, b - 1, b - 1);
        assert !(start <= es[|es| - 1].at <= end);
      } else {
        WithinIsSlice(init, start, end, a, b - 1);
        LastOfSlice(es, a);
      }
    } else {
      WithinIsSlice(es[..|es| - 1], start, end, a, b);
      InInit(es, a, b);
    }
  }

  lemma {:induction false} FirstAfterIs(es: seq<Event>, time: int, k: nat)
    requires k <= |es| && forall i | 0 <= i < k :: es[i].at <= time
    requires k < |es| ==> es[k].at > time
    ensures FirstAfter(es, time) == es[k..if k < |es| then k + 1 else k]
  {
    if k > 0 {
      FirstAfterIs(es[1..], time, k - 1);
    }
  }

  class TimelineEvent {
    var events: seq<Event>

    constructor ()
      ensures events == []
    {
      events := [];
    }

    method AddEvent(event: Event)
      modifies this`events
      ensures events == old(events) + [event]
    {
      events := events + [event];
    }

    /** For events in order of time, the place of the key: behind all earlier events. */
    method Search(key: int) returns (index: nat)
      ensures index <= |events|
      ensures Increasing(events) ==>
                && (forall j | 0 <= j < index :: events[j].at < key)
                && (forall j | index <= j < |events| :: key <= events[j].at)
    {
      var l, u := 0, |events| - 1;
      while l <= u
        invariant 0 <= l <= |events| && -1 <= u < |events| && l <= u + 1
        invariant Increasing(events) ==>
                    (forall j | 0 <= j < l :: events[j].at < key) && (forall j | u < j < |events| :: key < events[j].at)
      {
        var i := (l + u) / 2;
        if key == events[i].at {
          return i;
        } else if key < events[i].at {
          u := i - 1;
        } else {
          l := i + 1;
        }
      }
      return l;
    }

    method GetEventsBounds(start: int, end: int) returns (lo: nat, hi: nat)
      ensures Increasing(events) && start <= end ==>
                Slice(events, lo, hi) ==
                  Within(events, start, end) + if Happens(events, end) then [] else FirstAfter(events, end)
    {
      var s := Search(start);
      var e := Search(end);
      lo, hi := s, e + 1;
      if Increasing(events) && start <= end {
        WindowIsRight(events, start, end, s, e);
      }
    }

    /** Precisely the events within [start, end], followed by the next one after `end` unless an
        event happens at `end` itself. */
    method GetEvents(start: int, end: int) returns (found: seq<Event>)
      ensures Increasing(events) && start <= end ==>
                found == Within(events, start, end) + if Happens(events, end) then [] else FirstAfter(events, end)
      ensures Increasing(events) && start <= end ==>
                (found == Within(events, start, end) <==> Happens(events, end) || FirstAfter(events, end) == [])
    {
      var lo, hi := GetEventsBounds(start, end);
      found := Slice(events, lo, hi);
    }
  }

  lemma WindowIsRight(es: seq<Event>, start: int, end: int, s: nat, e: nat)
    requires Increasing(es) && start <= end && s <= |es| && e <= |es|
    requires (forall j | 0 <= j < s :: es[j].at < start) && (forall j | s <= j < |es| :: start <= es[j].at)
    requires (forall j | 0 <= j < e :: es[j].at < end) && (forall j | e <= j < |es| :: end <= es[j].at)
    ensures Slice(es, s, e + 1) == Within(es, start, end) + if Happens(es, end) then [] else FirstAfter(es, end)
  {
    assert forall k | e < k < |es| :: es[e].at < es[k].at;
    if Happens(es, end) {
      var i :| 0 <= i < |es| && es[i].at == end;
      assert i == e;
      WindowClosed(es, start, end, s, e);
    } else {
      if e < |es| { assert es[e].at != end; }
      WindowOpen(es, start, end, s, e);
    }
  }

  lemma WindowClosed(es: seq<Event>, start: int, end: int, s: nat, e: nat)
    requires s <= e < |es| && es[e].at == end
    requires forall k | 0 <= k < |es| :: start <= es[k].at <= end <==> s <= k <= e
    ensures Slice(es, s, e + 1) == Within(es, start, end)
  {
    WithinIsSlice(es, start, end, s, e + 1);
  }

  lemma WindowOpen(es: seq<Event>, start: int, end: int, s: nat, e: nat)
    requires s <= e <= |es|
    requires forall k | 0 <= k < |es| :: start <= es[k].at <= end <==> s <= k < e
    requires forall k | 0 <= k < e :: es[k].at <= end
    requires forall k | e <= k < |es| :: es[k].at > end
    ensures Slice(es, s, e + 1) == Within(es, start, end) + FirstAfter(es, end)
  {
    WithinIsSlice(es, start, end, s, e);
    FirstAfterIs(es, end, e);
    hide Within, FirstAfter;
    if e < |es| {
      assert es[s..e + 1] == es[s..e] + es[e..e + 1];
    } else {
      assert Slice(es, s, e + 1) == es[s..e] + es[e..e];
    }
  }

  /** With no event at the end of the window, the next one is returned although it lies beyond. */
  lemma EventBeyondWindow()
    ensures var es := [Event(0, "a"), Event(5, "b")];
            && Increasing(es) && !Happens(es, 3)
            && Within(es, 0, 3) + FirstAfter(es, 3) == es && Within(es, 0, 3) == es[..1]
  {
    var es := [Event(0, "a"), Event(5, "b")];
    WithinIsSlice(es, 0, 3, 0, 1);
    FirstAfterIs(es, 3, 1);
  }
}
