/**
 The scope of the analytics repair: for each hotel the least range of dates
 that covers its live stays and its existing facts, or an explicit window.
 */
module RepairRange {
  import opened Wrappers

  /** Dates are day numbers. The nights of a stay are checkIn up to the day before checkOut. */
  datatype Stay = Stay(hotel: int, checkIn: int, checkOut: int, deleted: bool, cancelled: bool)

  datatype Fact = Fact(hotel: int, date: int)

  datatype Tables = Tables(hotels: set<int>, stays: seq<Stay>, stayFacts: seq<Fact>, roomFacts: seq<Fact>)

  datatype Arguments = Arguments(hotel: Option<int>, dateFrom: Option<int>, dateTo: Option<int>)

  datatype Refusal = HalfWindow | WindowBackwards | NoSuchHotel

  /** A hotel and the first and last date of something that is its own. */
  datatype Span = Span(hotel: int, first: int, last: int)

  // ----- what a range has to cover -----

  predicate Live(s: Stay) {
    !s.deleted && s.checkOut > s.checkIn
  }

  predicate IsNight(s: Stay, d: int) {
    s.checkIn <= d < s.checkOut
  }

  /** The date is a night of a live stay, or a fact's, at this hotel. */
  ghost predicate Concerns(t: Tables, h: int, d: int) {
    || (exists s | s in t.stays :: s.hotel == h && Live(s) && IsNight(s, d))
    || Fact(h, d) in t.stayFacts
    || Fact(h, d) in t.roomFacts
  }

  ghost predicate HasDates(t: Tables, h: int) {
    exists d :: Concerns(t, h, d)
  }

  /** The least interval that covers all dates of a hotel: it does, and both ends are needed. */
  ghost predicate IsLeast(t: Tables, h: int, first: int, last: int) {
    Concerns(t, h, first) && Concerns(t, h, last) && forall d | Concerns(t, h, d) :: first <= d <= last
  }

  // ----- the queries, as spans -----

  function StaySpans(stays: seq<Stay>, selected: set<int>): seq<Span> {
    if stays == [] then []
    else
      var s := stays[0];
      (if s.hotel in selected && Live(s) then [Span(s.hotel, s.checkIn, s.checkOut - 1)] else [])
      + StaySpans(stays[1..], selected)
  }

  /** With no hotel selected the filter is left out. */
  function FactSpans(facts: seq<Fact>, selected: set<int>): seq<Span> {
    if facts == [] then []
    else
      var f := facts[0];
      (if selected == {} || f.hotel in selected then [Span(f.hotel, f.date, f.date)] else []) + FactSpans(facts[1..], selected)
  }

  lemma {:induction false} StaySpansAre(stays: seq<Stay>, selected: set<int>)
    ensures forall p :: p in StaySpans(stays, selected) <==>
      exists s | s in stays :: s.hotel in selected && Live(s) && p == Span(s.hotel, s.checkIn, s.checkOut - 1)
  {
    if stays != [] {
      StaySpansAre(stays[1..], selected);
      assert stays == [stays[0]] + stays[1..];
    }
  }

  lemma {:induction false} FactSpansAre(facts: seq<Fact>, selected: set<int>)
    ensures forall p :: p in FactSpans(facts, selected) <==>
      p.first == p.last && Fact(p.hotel, p.first) in facts && (selected == {} || p.hotel in selected)
  {
    if facts != [] {
      FactSpansAre(facts[1..], selected);
      assert facts == [facts[0]] + facts[1..];
    }
  }

  /** The dictionary of ranges covers these spans, tightly, and nothing else. */
  ghost predicate Covers(ranges: map<int, (int, int)>, spans: seq<Span>) {
    && (forall p | p in spans :: p.hotel in ranges && ranges[p.hotel].0 <= p.first && p.last <= ranges[p.hotel].1)
    && (forall h | h in ranges :: exists p | p in spans :: p.hotel == h && p.first == ranges[h].0)
    && (forall h | h in ranges :: exists p | p in spans :: p.hotel == h && p.last == ranges[h].1)
  }

  /** Widening the range of one hotel. */
  function Widened(ranges: map<int, (int, int)>, p: Span): map<int, (int, int)> {
    if p.hotel in ranges then
      var current := ranges[p.hotel];
      ranges[p.hotel := (if p.first < current.0 then p.first else current.0,
                         if p.last > current.1 then p.last else current.1)]
    else
      ranges[p.hotel := (p.first, p.last)]
  }

  lemma WideningCovers(ranges: map<int, (int, int)>, p: Span, done: seq<Span>)
    requires Covers(ranges, done)
    ensures Covers(Widened(ranges, p), done + [p])
  {
    var all, out := done + [p], Widened(ranges, p);
    assert p in all && forall q | q in done :: q in all;
    forall h | h in out
      ensures exists q | q in all :: q.hotel == h && q.first == out[h].0
      ensures exists q | q in all :: q.hotel == h && q.last == out[h].1
    {
      if h in ranges {
        var q :| q in done && q.hotel == h && q.first == ranges[h].0;
        var r :| r in done && r.hotel == h && r.last == ranges[h].1;
        assert q in all && r in all;
      }
    }
  }

  // ----- the loops -----

  method IncludeRange(ranges: map<int, (int, int)>, p: Span, ghost done: seq<Span>) returns (out: map<int, (int, int)>)
    requires Covers(ranges, done)
    ensures Covers(out, done + [p])
  {
    if p.hotel in ranges {
      var current := ranges[p.hotel];
      out := ranges[p.hotel := (if p.first < current.0 then p.first else current.0,
                                if p.last > current.1 then p.last else current.1)];
    } else {
      out := ranges[p.hotel := (p.first, p.last)];
    }
    assert out == Widened(ranges, p);
    WideningCovers(ranges, p, done);
  }

  /** Minimum and maximum by hotel. */
  method GroupByHotel(spans: seq<Span>) returns (groups: map<int, (int, int)>)
    ensures Covers(groups, spans)
  {
    groups := map[];
    for i := 0 to |spans|
      invariant Covers(groups, spans[..i])
    {
      groups := IncludeRange(groups, spans[i], spans[..i]);
      assert spans[..i + 1] == spans[..i] + [spans[i]];
    }
    assert spans[..|spans|] == spans;
  }

  /** The ranges of `done`, and after them the extremes of the groups that are not pending. */
  ghost predicate Including(groups: map<int, (int, int)>, pending: set<int>, done: seq<Span>, included: seq<Span>) {
    && (forall p | p in done :: p in included)
    && (forall h | h in groups && h !in pending :: Span(h, groups[h].0, groups[h].1) in included)
    && (forall p | p in included && p !in done ::
          p.hotel in groups && p == Span(p.hotel, groups[p.hotel].0, groups[p.hotel].1))
  }

  lemma IncludeOneMore(groups: map<int, (int, int)>, pending: set<int>, done: seq<Span>, included: seq<Span>, h: int)
    requires Including(groups, pending, done, included) && h in pending && h in groups
    ensures Including(groups, pending - {h}, done, included + [Span(h, groups[h].0, groups[h].1)])
  {
    var p := Span(h, groups[h].0, groups[h].1);
    assert forall q :: q in included + [p] <==> q in included || q == p;
  }

  /** The groups of one query, in any order, widen the ranges so far. */
  method IncludeGroups(ranges: map<int, (int, int)>, groups: map<int, (int, int)>, ghost done: seq<Span>, ghost spans: seq<Span>)
    returns (out: map<int, (int, int)>)
    requires Covers(ranges, done) && Covers(groups, spans)
    ensures Covers(out, done + spans)
  {
    out := ranges;
    ghost var included := done;
    var pending := groups.Keys;
    while pending != {}
      invariant pending <= groups.Keys && Covers(out, included) && Including(groups, pending, done, included)
      decreases |pending|
    {
      var h := PickFrom(pending);
      ghost var p := Span(h, groups[h].0, groups[h].1);
      out := IncludeRange(out, Span(h, groups[h].0, groups[h].1), included);
      IncludeOneMore(groups, pending, done, included, h);
      included := included + [p];
      pending := pending - {h};
    }
    GroupsStandForSpans(out, groups, done, spans, included);
  }

  /** Covering the extremes of each group is covering the spans they come from. */
  lemma GroupsStandForSpans(ranges: map<int, (int, int)>, groups: map<int, (int, int)>,
                            done: seq<Span>, spans: seq<Span>, included: seq<Span>)
    requires Covers(ranges, included) && Covers(groups, spans) && Including(groups, {}, done, included)
    ensures Covers(ranges, done + spans)
  {
    var all := done + spans;
    assert forall p :: p in all <==> p in done || p in spans;
    forall p | p in spans ensures p.hotel in ranges && ranges[p.hotel].0 <= p.first && p.last <= ranges[p.hotel].1 {
      assert Span(p.hotel, groups[p.hotel].0, groups[p.hotel].1) in included;
    }
    forall h | h in ranges
      ensures exists p | p in all :: p.hotel == h && p.first == ranges[h].0
      ensures exists p | p in all :: p.hotel == h && p.last == ranges[h].1
    {
      var p :| p in included && p.hotel == h && p.first == ranges[h].0;
      if p !in done {
        var q :| q in spans && q.hotel == h && q.first == groups[h].0;
        assert q in all;
      }
      var r :| r in included && r.hotel == h && r.last == ranges[h].1;
      if r !in done {
        var q :| q in spans && q.hotel == h && q.last == groups[h].1;
        assert q in all;
      }
    }
  }

  /** Hotel ids in ascending order. */
  ghost predicate Ascending(hotels: seq<int>) {
    forall i, j | 0 <= i < j < |hotels| :: hotels[i] < hotels[j]
  }

  method Sorted(ids: set<int>) returns (hotels: seq<int>)
    ensures Ascending(hotels) && forall h :: h in hotels <==> h in ids
  {
    hotels := [];
    var rest := ids;
    while rest != {}
      invariant rest <= ids && Ascending(hotels)
      invariant forall h :: h in hotels <==> h in ids && h !in rest
      invariant forall i, h | 0 <= i < |hotels| && h in rest :: hotels[i] < h
      decreases |rest|
    {
      var least := PickFrom(rest);
      var others := rest - {least};
      while others != {}
        invariant others <= rest && least in rest
        invariant forall h | h in rest && h !in others :: least <= h
        decreases |others|
      {
        var h := PickFrom(others);
        others := others - {h};
        if h < least {
          least := h;
        }
      }
      hotels := hotels + [least];
      rest := rest - {least};
    }
  }

  // ----- the scope -----

  /** The hotels that the queries are about: all of them, or the one asked for. */
  function Selected(t: Tables, a: Arguments): set<int> {
    match a.hotel
    case None => t.hotels
    case Some(h) => {h}
  }

  predicate Rejects(t: Tables, a: Arguments) {
    || a.dateFrom.Some? != a.dateTo.Some?
    || (a.dateFrom.Some? && a.dateTo.Some? && a.dateTo.value < a.dateFrom.value)
    || (a.hotel.Some? && a.hotel.value !in t.hotels)
  }

  /** With an explicit window every selected hotel gets it. */
  ghost predicate WindowScope(t: Tables, a: Arguments, ranges: seq<(int, int, int)>)
    requires a.dateFrom.Some? && a.dateTo.Some?
  {
    && (forall h :: (h, a.dateFrom.value, a.dateTo.value) in ranges <==> h in Selected(t, a))
    && (forall r | r in ranges :: r.1 == a.dateFrom.value && r.2 == a.dateTo.value)
  }

  /**
   Without one a hotel appears exactly when it has a date, with the least range.
   With no hotel configured at all the fact queries are not filtered.
   */
  ghost predicate LeastScope(t: Tables, a: Arguments, ranges: seq<(int, int, int)>) {
    && (forall r | r in ranges :: IsLeast(t, r.0, r.1, r.2))
    && (forall h :: (exists r | r in ranges :: r.0 == h) <==> HasDates(t, h) && (h in Selected(t, a) || Selected(t, a) == {}))
  }

  /** Stays belong to configured hotels. */
  ghost predicate Consistent(t: Tables) {
    forall s | s in t.stays :: s.hotel in t.hotels
  }

  function SpansOf(t: Tables, selected: set<int>): seq<Span> {
    StaySpans(t.stays, selected) + FactSpans(t.stayFacts, selected) + FactSpans(t.roomFacts, selected)
  }

  lemma SpanEndsAreDates(t: Tables, selected: set<int>, p: Span)
    requires p in SpansOf(t, selected)
    ensures Concerns(t, p.hotel, p.first) && Concerns(t, p.hotel, p.last) && (p.hotel in selected || selected == {})
  {
    StaySpansAre(t.stays, selected);
    FactSpansAre(t.stayFacts, selected);
    FactSpansAre(t.roomFacts, selected);
    if s: Stay :| s in t.stays && s.hotel in selected && Live(s) && p == Span(s.hotel, s.checkIn, s.checkOut - 1) {
      assert IsNight(s, p.first) && IsNight(s, p.last);
    }
  }

  lemma DatesAreSpanned(t: Tables, selected: set<int>, h: int, d: int) returns (p: Span)
    requires Consistent(t) && (selected == {} ==> t.hotels == {})
    requires Concerns(t, h, d) && (h in selected || selected == {})
    ensures p in SpansOf(t, selected) && p.hotel == h && p.first <= d <= p.last
  {
    StaySpansAre(t.stays, selected);
    FactSpansAre(t.stayFacts, selected);
    FactSpansAre(t.roomFacts, selected);
    p := Span(h, d, d);
    if s: Stay :| s in t.stays && s.hotel == h && Live(s) && IsNight(s, d) {
      p := Span(h, s.checkIn, s.checkOut - 1);
    }
  }

  lemma RangesAreLeast(t: Tables, selected: set<int>, ranges: map<int, (int, int)>, h: int)
    requires Consistent(t) && (selected == {} ==> t.hotels == {})
    requires Covers(ranges, SpansOf(t, selected))
    ensures h in ranges ==> IsLeast(t, h, ranges[h].0, ranges[h].1)
    ensures h in ranges <==> HasDates(t, h) && (h in selected || selected == {})
  {
    if h in ranges {
      var p :| p in SpansOf(t, selected) && p.hotel == h && p.first == ranges[h].0;
      var q :| q in SpansOf(t, selected) && q.hotel == h && q.last == ranges[h].1;
      SpanEndsAreDates(t, selected, p);
      SpanEndsAreDates(t, selected, q);
    }
    if h in selected || selected == {} {
      forall d | Concerns(t, h, d) ensures h in ranges && ranges[h].0 <= d <= ranges[h].1 {
        var p := DatesAreSpanned(t, selected, h, d);
      }
    }
  }

  method HotelRanges(t: Tables, a: Arguments) returns (r: Result<seq<(int, int, int)>, Refusal>)
    requires Consistent(t)
    ensures r.Failure? <==> Rejects(t, a)
    ensures r.Success? ==> forall i, j | 0 <= i < j < |r.value| :: r.value[i].0 < r.value[j].0
    ensures r.Success? && a.dateFrom.Some? ==> WindowScope(t, a, r.value)
    ensures r.Success? && a.dateFrom.None? ==> LeastScope(t, a, r.value)
  {
    if a.dateFrom.Some? != a.dateTo.Some? {
      return Failure(HalfWindow);
    }
    if a.dateFrom.Some? && a.dateTo.Some? && a.dateTo.value < a.dateFrom.value {
      return Failure(WindowBackwards);
    }
    if a.hotel.Some? && a.hotel.value !in t.hotels {
      return Failure(NoSuchHotel);
    }
    if a.dateFrom.Some? {
      var hotels := Sorted(Selected(t, a));
      r := Success(seq(|hotels|, i requires 0 <= i < |hotels| => (hotels[i], a.dateFrom.value, a.dateTo.value)));
      forall h | h in Selected(t, a) ensures (h, a.dateFrom.value, a.dateTo.value) in r.value {
        var i :| 0 <= i < |hotels| && hotels[i] == h;
        assert r.value[i] == (h, a.dateFrom.value, a.dateTo.value);
      }
    } else {
      var ranges := FoldQueries(t, Selected(t, a));
      var hotels := Sorted(ranges.Keys);
      r := Success(Listed(hotels, ranges));
      ListedScope(t, a, hotels, ranges);
    }
  }

  function Entry(ranges: map<int, (int, int)>, h: int): (int, int, int) {
    if h in ranges then (h, ranges[h].0, ranges[h].1) else (h, 0, 0)
  }

  function Listed(hotels: seq<int>, ranges: map<int, (int, int)>): seq<(int, int, int)> {
    seq(|hotels|, i requires 0 <= i < |hotels| => Entry(ranges, hotels[i]))
  }

  lemma ListedScope(t: Tables, a: Arguments, hotels: seq<int>, ranges: map<int, (int, int)>)
    requires Consistent(t) && (a.hotel.Some? ==> a.hotel.value in t.hotels)
    requires (forall h :: h in hotels <==> h in ranges) && Covers(ranges, SpansOf(t, Selected(t, a)))
    ensures LeastScope(t, a, Listed(hotels, ranges))
  {
    var listed := Listed(hotels, ranges);
    forall h ensures (exists r | r in listed :: r.0 == h) <==> h in ranges {
      if h in ranges {
        var i :| 0 <= i < |hotels| && hotels[i] == h;
        assert listed[i] in listed;
      }
    }
    forall h ensures h in ranges <==> HasDates(t, h) && (h in Selected(t, a) || Selected(t, a) == {}) {
      RangesAreLeast(t, Selected(t, a), ranges, h);
    }
    forall r | r in listed ensures IsLeast(t, r.0, r.1, r.2) {
      RangesAreLeast(t, Selected(t, a), ranges, r.0);
    }
  }

  /** The stays, then the two fact tables, into one dictionary. */
  method FoldQueries(t: Tables, selected: set<int>) returns (ranges: map<int, (int, int)>)
    ensures Covers(ranges, SpansOf(t, selected))
  {
    var stays := StaySpans(t.stays, selected);
    var stayFacts, roomFacts := FactSpans(t.stayFacts, selected), FactSpans(t.roomFacts, selected);
    var groups := GroupByHotel(stays);
    ranges := IncludeGroups(map[], groups, [], stays);
    assert [] + stays == stays;
    groups := GroupByHotel(stayFacts);
    ranges := IncludeGroups(ranges, groups, stays, stayFacts);
    groups := GroupByHotel(roomFacts);
    ranges := IncludeGroups(ranges, groups, stays + stayFacts, roomFacts);
  }

  // ----- the overlap test -----

  predicate Overlaps(s: Stay, dateFrom: int, dateTo: int) {
    s.checkIn <= dateTo && s.checkOut > dateFrom
  }

  /** The test finds the stays with a night in the window, and a zero-night stay strictly inside it as well. */
  lemma OverlapMeansNight(s: Stay, dateFrom: int, dateTo: int)
    requires dateFrom <= dateTo
    ensures s.checkIn < s.checkOut ==>
      (Overlaps(s, dateFrom, dateTo) <==> exists d | dateFrom <= d <= dateTo :: IsNight(s, d))
    ensures s.checkIn >= s.checkOut ==>
      !(exists d | dateFrom <= d <= dateTo :: IsNight(s, d))
      && (Overlaps(s, dateFrom, dateTo) <==> dateFrom < s.checkOut && s.checkIn <= dateTo)
  {
    if s.checkIn < s.checkOut && Overlaps(s, dateFrom, dateTo) {
      assert IsNight(s, if s.checkIn < dateFrom then dateFrom else s.checkIn);
    }
  }

  /** A window inside a zero-night stay's only day: the test says yes, no night says no. */
  lemma ZeroNightStayOverlaps()
    ensures
      var s := Stay(1, 5, 5, false, false);
      Overlaps(s, 4, 6) && !exists d | 4 <= d <= 6 :: IsNight(s, d)
  {
    OverlapMeansNight(Stay(1, 5, 5, false, false), 4, 6);
  }

  /** The number of stays that the report counts for a hotel and a window. */
  method CountOverlapping(t: Tables, h: int, dateFrom: int, dateTo: int) returns (n: nat)
    requires dateFrom <= dateTo && forall s | s in t.stays :: s.checkIn < s.checkOut
    ensures n == |CountedAmong(t.stays, |t.stays|, h, dateFrom, dateTo)|
  {
    n := 0;
    for i := 0 to |t.stays|
      invariant n == |CountedAmong(t.stays, i, h, dateFrom, dateTo)|
    {
      var s := t.stays[i];
      OverlapMeansNight(s, dateFrom, dateTo);
      CountStep(t.stays, i, h, dateFrom, dateTo);
      if s.hotel == h && !s.deleted && !s.cancelled && Overlaps(s, dateFrom, dateTo) {
        n := n + 1;
      }
    }
  }

  /** Which of the first n stays count. */
  ghost function CountedAmong(stays: seq<Stay>, n: nat, h: int, dateFrom: int, dateTo: int): set<int>
    requires n <= |stays|
  {
    set i | 0 <= i < n && Counted(stays[i], h, dateFrom, dateTo)
  }

  lemma CountStep(stays: seq<Stay>, n: nat, h: int, dateFrom: int, dateTo: int)
    requires n < |stays|
    ensures |CountedAmong(stays, n + 1, h, dateFrom, dateTo)| ==
      |CountedAmong(stays, n, h, dateFrom, dateTo)| + if Counted(stays[n], h, dateFrom, dateTo) then 1 else 0
  {
    var before, after := CountedAmong(stays, n, h, dateFrom, dateTo), CountedAmong(stays, n + 1, h, dateFrom, dateTo);
    assert after == before + if Counted(stays[n], h, dateFrom, dateTo) then {n} else {};
  }

  /** A live reservation that is not cancelled and has a night in the window. */
  predicate Counted(s: Stay, h: int, dateFrom: int, dateTo: int) {
    s.hotel == h && !s.deleted && !s.cancelled && exists d | dateFrom <= d <= dateTo :: IsNight(s, d)
  }

  /** The least range loses nothing: every live stay of the hotel overlaps it, and all its nights and facts are inside. */
  lemma LeastRangeMissesNothing(t: Tables, h: int, first: int, last: int, s: Stay)
    requires IsLeast(t, h, first, last) && s in t.stays && s.hotel == h && Live(s)
    ensures first <= s.checkIn && s.checkOut - 1 <= last && first <= last && Overlaps(s, first, last)
  {
    assert IsNight(s, s.checkIn) && IsNight(s, s.checkOut - 1);
    assert Concerns(t, h, s.checkIn) && Concerns(t, h, s.checkOut - 1);
  }

  // ----- in the columns -----

  /** A reservation that is not deleted, with its first night or its last. */
  predicate StayStarts(t: Tables, h: int, d: int) {
    exists s | s in t.stays :: s.hotel == h && s.deleted == false && s.checkIn == d && d < s.checkOut
  }

  predicate StayEnds(t: Tables, h: int, d: int) {
    exists s | s in t.stays :: s.hotel == h && s.deleted == false && s.checkOut == d + 1 && s.checkIn <= d
  }

  predicate FactAt(t: Tables, h: int, d: int) {
    Fact(h, d) in t.stayFacts + t.roomFacts
  }

  lemma DatesOfStays(t: Tables, h: int, s: Stay)
    requires s in t.stays && s.hotel == h && s.deleted == false && s.checkIn < s.checkOut
    ensures Concerns(t, h, s.checkIn) && Concerns(t, h, s.checkOut - 1)
  {
    assert Live(s) && IsNight(s, s.checkIn) && IsNight(s, s.checkOut - 1);
  }

  /** A range starts and ends with a night of a reservation that is not deleted, or with a fact, and covers them all. */
  lemma RangeColumns(t: Tables, h: int, first: int, last: int)
    requires IsLeast(t, h, first, last)
    ensures StayStarts(t, h, first) || FactAt(t, h, first)
    ensures StayEnds(t, h, last) || FactAt(t, h, last)
    ensures forall s | s in t.stays && s.hotel == h && s.deleted == false && s.checkIn < s.checkOut ::
      first <= s.checkIn && s.checkOut <= last + 1
    ensures forall d | FactAt(t, h, d) :: first <= d <= last
  {
    forall s | s in t.stays && s.hotel == h && s.deleted == false && s.checkIn < s.checkOut
      ensures first <= s.checkIn && s.checkOut <= last + 1
    {
      DatesOfStays(t, h, s);
    }
    forall d | FactAt(t, h, d) ensures first <= d <= last {
      assert Concerns(t, h, d);
    }
    if s :| s in t.stays && s.hotel == h && Live(s) && IsNight(s, first) {
      DatesOfStays(t, h, s);
      assert s.checkIn == first;
    }
    if s :| s in t.stays && s.hotel == h && Live(s) && IsNight(s, last) {
      DatesOfStays(t, h, s);
      assert s.checkOut == last + 1;
    }
  }

  /** Which hotels appear: those that were asked for and have a reservation with a night, or a fact. */
  lemma AppearsIff(t: Tables, a: Arguments, ranges: seq<(int, int, int)>, h: int)
    requires LeastScope(t, a, ranges)
    ensures (exists r | r in ranges :: r.0 == h) <==>
      && (a.hotel == Some(h) || (a.hotel == None && (h in t.hotels || t.hotels == {})))
      && ((exists d :: StayStarts(t, h, d)) || exists d :: FactAt(t, h, d))
  {
    assert h in Selected(t, a) || Selected(t, a) == {} <==>
      a.hotel == Some(h) || (a.hotel == None && (h in t.hotels || t.hotels == {})) by {
      if a.hotel.Some? {
        assert a.hotel.value in Selected(t, a);
      }
    }
    if d :| Concerns(t, h, d) {
      if s :| s in t.stays && s.hotel == h && Live(s) && IsNight(s, d) {
        assert StayStarts(t, h, s.checkIn);
      } else {
        assert FactAt(t, h, d);
      }
    }
    if d :| StayStarts(t, h, d) {
      var s :| s in t.stays && s.hotel == h && s.deleted == false && s.checkIn == d && d < s.checkOut;
      DatesOfStays(t, h, s);
    }
    if d :| FactAt(t, h, d) {
      assert Concerns(t, h, d);
    }
  }

  /** No window, or one that ends no earlier than it starts. */
  predicate WindowIsSound(a: Arguments) {
    match a.dateFrom
    case None => a.dateTo == None
    case Some(first) =>
      match a.dateTo
      case None => false
      case Some(last) => first <= last
  }

  /** What is refused: a window that is not sound, and a hotel that is not there. */
  lemma RejectedIff(t: Tables, a: Arguments, h: int)
    ensures a.hotel == None ==> (Rejects(t, a) <==> !WindowIsSound(a))
    ensures a.hotel == Some(h) ==> (Rejects(t, a) <==> !WindowIsSound(a) || h !in t.hotels)
  {
  }
}
