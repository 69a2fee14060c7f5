/** Transit departures of a tile: the search for the next departure of a line, and for the departure of a
    given trip. */
module Departures {
  import opened Wrappers

  /** A departure at a fixed time, or one that repeats until an end time. */
  datatype Timing = Fixed | Frequency(endTime: nat, frequency: nat)

  datatype Departure = Departure(
    lineid: nat, tripid: nat, timing: Timing, time: nat, schedule: nat, wheelchair: bool, bicycle: bool)

  datatype DepartureError = ExceededMaximumTime

  const MAX_DEPARTURE_TIME: nat := 131071

  /** kFixedSchedule and kFrequencySchedule. */
  function TypeOf(d: Departure): nat {
    if d.timing.Fixed? then 0 else 1
  }

  /** operator<. */
  predicate Less(a: Departure, b: Departure) {
    if a.lineid == b.lineid then
      if TypeOf(a) == TypeOf(b) then
        if a.time == b.time then a.tripid < b.tripid else a.time < b.time
      else TypeOf(a) < TypeOf(b)
    else a.lineid < b.lineid
  }

  predicate Sorted(ds: seq<Departure>) {
    forall i, j | 0 <= i < j < |ds| :: !Less(ds[j], ds[i])
  }

  /** Until when the departure can be taken. */
  function Deadline(d: Departure): nat {
    match d.timing
    case Fixed => d.time
    case Frequency(endTime, _) => endTime
  }

  /** The condition of the binary search: the line, and a workable time. */
  predicate Hit(d: Departure, line: nat, now: nat) {
    d.lineid == line && now <= Deadline(d)
  }

  /** Once a departure of the line can be taken, so can all the later ones. */
  predicate Monotone(ds: seq<Departure>, line: nat, now: nat) {
    forall i, j | 0 <= i < j < |ds| && ds[j].lineid == line :: Hit(ds[i], line, now) ==> Hit(ds[j], line, now)
  }

  // ---------------------------------------------------------------------------------------------
  // The binary search

  /** The search loop from some bounds on; `found` is the last hit, or the number of departures. */
  function SearchFrom(ds: seq<Departure>, line: nat, now: nat, low: int, high: int, found: nat): (r: nat)
    requires 0 <= low && high < |ds| && found <= |ds|
    ensures r == found || low <= r <= high
    decreases high - low + 1
  {
    if low > high then found
    else
      var mid := (low + high) / 2;
      if Hit(ds[mid], line, now) then SearchFrom(ds, line, now, low, mid - 1, mid)
      else if line < ds[mid].lineid then SearchFrom(ds, line, now, low, mid - 1, found)
      else SearchFrom(ds, line, now, mid + 1, high, found)
  }

  function Search(ds: seq<Departure>, line: nat, now: nat): (r: nat)
    ensures r <= |ds|
  {
    SearchFrom(ds, line, now, 0, |ds| - 1, |ds|)
  }

  /** The first departure from `from` on that can be taken. */
  function FirstHit(ds: seq<Departure>, line: nat, now: nat, from: nat): (r: nat)
    requires from <= |ds|
    ensures from <= r <= |ds| && (r < |ds| ==> Hit(ds[r], line, now))
    ensures forall i | from <= i < r :: !Hit(ds[i], line, now)
    decreases |ds| - from
  {
    if from == |ds| || Hit(ds[from], line, now) then from else FirstHit(ds, line, now, from + 1)
  }

  lemma LinesAscend(ds: seq<Departure>, i: nat, j: nat)
    requires Sorted(ds) && i <= j < |ds|
    ensures ds[i].lineid <= ds[j].lineid
  {
  }

  predicate NoHit(ds: seq<Departure>, line: nat, now: nat, lo: nat, hi: nat)
    requires hi <= |ds|
  {
    forall i | lo <= i < hi :: !Hit(ds[i], line, now)
  }

  lemma MissesBelow(ds: seq<Departure>, line: nat, now: nat, mid: nat)
    requires Sorted(ds) && Monotone(ds, line, now) && mid < |ds|
    requires !Hit(ds[mid], line, now) && ds[mid].lineid <= line
    ensures NoHit(ds, line, now, 0, mid + 1)
  {
    forall i | 0 <= i <= mid ensures ds[i].lineid <= ds[mid].lineid { LinesAscend(ds, i, mid); }
    hide Sorted;
  }

  lemma MissesAbove(ds: seq<Departure>, line: nat, now: nat, mid: nat, hi: nat)
    requires Sorted(ds) && mid < |ds| && line < ds[mid].lineid && hi <= |ds|
    ensures NoHit(ds, line, now, mid, hi)
  {
    forall i | mid <= i < |ds| ensures ds[mid].lineid <= ds[i].lineid { LinesAscend(ds, mid, i); }
    hide Sorted;
  }

  lemma SearchStep(ds: seq<Departure>, line: nat, now: nat, low: int, high: int, found: nat) returns (mid: int)
    requires 0 <= low && high < |ds| && found <= |ds|
    ensures low > high ==> SearchFrom(ds, line, now, low, high, found) == found
    ensures low <= high ==>
      && low <= mid <= high && mid == (low + high) / 2
      && SearchFrom(ds, line, now, low, high, found) ==
         (if Hit(ds[mid], line, now) then SearchFrom(ds, line, now, low, mid - 1, mid)
          else if line < ds[mid].lineid then SearchFrom(ds, line, now, low, mid - 1, found)
          else SearchFrom(ds, line, now, mid + 1, high, found))
  {
    hide Hit;
    mid := (low + high) / 2;
  }

  /** With a monotone line the search keeps the first hit between its bounds, or has found it. */
  lemma {:induction false} SearchFromFindsFirst(ds: seq<Departure>, line: nat, now: nat, low: int, high: int,
                                                found: nat)
    requires 0 <= low && high < |ds| && low <= high + 1 && high < found <= |ds|
    requires Sorted(ds) && Monotone(ds, line, now)
    requires NoHit(ds, line, now, 0, low) && NoHit(ds, line, now, high + 1, found)
    requires found < |ds| ==> Hit(ds[found], line, now)
    ensures var r := SearchFrom(ds, line, now, low, high, found);
            (r < |ds| ==> Hit(ds[r], line, now)) && NoHit(ds, line, now, 0, r)
    decreases high - low + 1
  {
    hide Sorted, Monotone, Hit, NoHit, SearchFrom;
    var mid := SearchStep(ds, line, now, low, high, found);
    if low > high {
      NoHitJoined(ds, line, now, low, found);
    } else {
      if Hit(ds[mid], line, now) {
        NoHitInNothing(ds, line, now, mid);
        SearchFromFindsFirst(ds, line, now, low, mid - 1, mid);
      } else if line < ds[mid].lineid {
        MissesAbove(ds, line, now, mid, found);
        SearchFromFindsFirst(ds, line, now, low, mid - 1, found);
      } else {
        MissesBelow(ds, line, now, mid);
        SearchFromFindsFirst(ds, line, now, mid + 1, high, found);
      }
    }
  }

  lemma NoHitJoined(ds: seq<Departure>, line: nat, now: nat, mid: nat, hi: nat)
    requires hi <= |ds| && mid <= hi && NoHit(ds, line, now, 0, mid) && NoHit(ds, line, now, mid, hi)
    ensures NoHit(ds, line, now, 0, hi)
  {
  }

  lemma NoHitInNothing(ds: seq<Departure>, line: nat, now: nat, i: nat)
    requires i <= |ds|
    ensures NoHit(ds, line, now, i, i) && NoHit(ds, line, now, 0, 0)
  {
  }

  /** In a sorted tile and on a monotone line, the search finds the first departure that can be taken. */
  lemma SearchFindsFirst(ds: seq<Departure>, line: nat, now: nat)
    requires Sorted(ds) && Monotone(ds, line, now)
    ensures Search(ds, line, now) == FirstHit(ds, line, now, 0)
  {
    hide Sorted, Monotone, Hit, SearchFrom;
    NoHitInNothing(ds, line, now, |ds|);
    SearchFromFindsFirst(ds, line, now, 0, |ds| - 1, |ds|);
  }

  predicate OfLine(block: seq<Departure>, line: nat) {
    forall d | d in block :: d.lineid == line
  }

  /** The tile that has the block between departures of other lines. */
  predicate Surrounds(before: seq<Departure>, after: seq<Departure>, block: seq<Departure>, line: nat) {
    && (forall d | d in before :: d.lineid < line) && (forall d | d in after :: d.lineid > line)
    && Sorted(before + block + after)
  }

  function Filler(line: nat, n: nat): (ds: seq<Departure>)
    ensures |ds| == n && forall d | d in ds :: d == Departure(line, 0, Fixed, 0, 0, true, true)
  {
    seq(n, _ => Departure(line, 0, Fixed, 0, 0, true, true))
  }

  lemma FillerSurrounds(block: seq<Departure>, line: nat, n: nat)
    requires Sorted(block) && OfLine(block, line)
    ensures Surrounds([], Filler(line + 1, n), block, line)
  {
    var ds := [] + block + Filler(line + 1, n);
    forall i | 0 <= i < |ds|
      ensures ds[i].lineid == if i < |block| then line else line + 1
      ensures i >= |block| ==> ds[i].timing == Fixed && ds[i].time == 0 && ds[i].tripid == 0
      ensures i < |block| ==> ds[i] == block[i]
    {
      assert i < |block| ==> ds[i] in block;
      assert i >= |block| ==> ds[i] in Filler(line + 1, n);
    }
  }

  /** Upper bounds from which the bisection down from 0 comes by place k + 1. */
  function High(k: nat, i: nat): (h: nat)
    ensures h >= i && h >= k
  {
    if i == 0 then 2 * k + 2 else 2 * High(k, i - 1) + 2
  }

  /** From such a bound the search ends behind a hit at place k that a miss follows. */
  lemma {:induction false} SearchGoesBy(ds: seq<Departure>, line: nat, now: nat, k: nat, i: nat, found: nat)
    requires High(k, i) < |ds| && k < found <= |ds|
    requires k + 1 < |ds| && ds[k + 1].lineid == line && !Hit(ds[k + 1], line, now)
    ensures SearchFrom(ds, line, now, 0, High(k, i), found) > k
  {
    hide Hit, SearchFrom;
    var mid := SearchStep(ds, line, now, 0, High(k, i), found);
    assert mid == if i == 0 then k + 1 else High(k, i - 1) + 1;
    if i > 0 {
      SearchGoesBy(ds, line, now, k, i - 1, mid);
      SearchGoesBy(ds, line, now, k, i - 1, found);
    }
  }

  /** Where a hit is followed by a miss, some departures of later lines lead the search past the hit. */
  lemma SearchMissesHit(block: seq<Departure>, line: nat, now: nat, k: nat)
    requires Sorted(block) && OfLine(block, line)
    requires k + 1 < |block| && Hit(block[k], line, now) && !Hit(block[k + 1], line, now)
    ensures exists before, after :: Surrounds(before, after, block, line) &&
              Search(before + block + after, line, now) != FirstHit(before + block + after, line, now, 0)
  {
    hide Hit, Sorted, High, SearchFrom, Filler;
    var n := High(k, |block|) + 1 - |block|;
    var after := Filler(line + 1, n);
    FillerSurrounds(block, line, n);
    var ds := [] + block + after;
    assert block[k + 1] in block && ds[k] == block[k] && ds[k + 1] == block[k + 1];
    SearchGoesBy(ds, line, now, k, |block|, |ds|);
  }

  lemma {:induction false} FindStepDown(block: seq<Departure>, line: nat, now: nat, i: nat, j: nat) returns (k: nat)
    requires i < j < |block| && Hit(block[i], line, now) && !Hit(block[j], line, now)
    ensures k + 1 < |block| && Hit(block[k], line, now) && !Hit(block[k + 1], line, now)
    decreases j - i
  {
    if Hit(block[i + 1], line, now) {
      k := FindStepDown(block, line, now, i + 1, j);
    } else {
      k := i;
    }
  }

  lemma InsideBlock(before: seq<Departure>, after: seq<Departure>, block: seq<Departure>, line: nat, i: nat)
    requires Surrounds(before, after, block, line) && i < |before + block + after|
    requires (before + block + after)[i].lineid == line
    ensures |before| <= i < |before| + |block| && (before + block + after)[i] == block[i - |before|]
  {
    var d := (before + block + after)[i];
    assert d in before || d in after || |before| <= i < |before| + |block|;
  }

  lemma MonotoneInside(before: seq<Departure>, after: seq<Departure>, block: seq<Departure>, line: nat, now: nat)
    requires OfLine(block, line) && Surrounds(before, after, block, line) && Monotone(block, line, now)
    ensures Monotone(before + block + after, line, now)
  {
    hide Sorted;
    var ds := before + block + after;
    var m := |before|;
    forall i, j | 0 <= i < j < |ds| && ds[j].lineid == line && Hit(ds[i], line, now)
      ensures Hit(ds[j], line, now)
    {
      InsideBlock(before, after, block, line, i);
      InsideBlock(before, after, block, line, j);
    }
  }

  /** The condition is exact: a line's block is searched rightly wherever it stands among the departures of
      other lines if and only if it is monotone. */
  lemma SearchIsRightIffMonotone(block: seq<Departure>, line: nat, now: nat)
    requires Sorted(block) && OfLine(block, line)
    ensures Monotone(block, line, now) <==>
            forall before, after | Surrounds(before, after, block, line) ::
              Search(before + block + after, line, now) == FirstHit(before + block + after, line, now, 0)
  {
    hide Search, FirstHit, Sorted;
    if Monotone(block, line, now) {
      forall before, after | Surrounds(before, after, block, line)
        ensures Search(before + block + after, line, now) == FirstHit(before + block + after, line, now, 0)
      {
        MonotoneInside(before, after, block, line, now);
        SearchFindsFirst(before + block + after, line, now);
      }
    } else {
      var i, j :| 0 <= i < j < |block| && block[j].lineid == line
                  && Hit(block[i], line, now) && !Hit(block[j], line, now);
      var k := FindStepDown(block, line, now, i, j);
      SearchMissesHit(block, line, now, k);
    }
  }

  /** A line of a fixed departure and one that repeats until an earlier time is sorted but not monotone:
      among the departures of one more line, the search misses the one that can be taken. */
  lemma SearchMissesFixed()
    ensures var fixed := Departure(0, 1, Fixed, 100, 0, true, true);
            var repeating := Departure(0, 2, Frequency(50, 10), 20, 0, true, true);
            var other := Departure(1, 3, Fixed, 100, 0, true, true);
            && Sorted([fixed, repeating, other]) && Hit(fixed, 0, 80)
            && Search([fixed, repeating, other], 0, 80) == 3
  {
    var ds := [Departure(0, 1, Fixed, 100, 0, true, true), Departure(0, 2, Frequency(50, 10), 20, 0, true, true),
               Departure(1, 3, Fixed, 100, 0, true, true)];
    assert SearchFrom(ds, 0, 80, 0, 2, 3) == SearchFrom(ds, 0, 80, 2, 2, 3) == SearchFrom(ds, 0, 80, 2, 1, 3) == 3;
  }

  /** A block is monotone at every time exactly if its deadlines ascend. */
  lemma MonotoneAlwaysIffDeadlinesAscend(block: seq<Departure>, line: nat)
    requires OfLine(block, line)
    ensures (forall now :: Monotone(block, line, now)) <==>
            forall i, j | 0 <= i < j < |block| :: Deadline(block[i]) <= Deadline(block[j])
  {
    if forall now :: Monotone(block, line, now) {
      forall i, j | 0 <= i < j < |block|
        ensures Deadline(block[i]) <= Deadline(block[j])
      {
        assert block[i] in block && block[j] in block;
        assert Monotone(block, line, Deadline(block[i]));
        assert Hit(block[i], line, Deadline(block[i]));
      }
    }
  }

  predicate FixedLine(ds: seq<Departure>, line: nat) {
    forall i | 0 <= i < |ds| && ds[i].lineid == line :: ds[i].timing.Fixed?
  }

  /** A line with nothing but fixed departures is monotone. */
  lemma FixedLineIsMonotone(ds: seq<Departure>, line: nat, now: nat)
    requires Sorted(ds) && FixedLine(ds, line)
    ensures Monotone(ds, line, now)
  {
  }

  // ---------------------------------------------------------------------------------------------
  // Departures that repeat

  /** The loop that moves a repeating departure up to the current time; it stops at the end time too. */
  function RunFrom(time: nat, now: nat, endTime: nat, frequency: nat): (t: nat)
    requires frequency > 0
    decreases now - time
  {
    if time < now && time < endTime then RunFrom(time + frequency, now, endTime, frequency) else time
  }

  /** The time of the k-th run. */
  function Run(time: nat, frequency: nat, k: nat): nat {
    time + k * frequency
  }

  /** The run it finds: the first that is not over, or is behind the end. */
  lemma {:induction false} RunFromIsFirst(time: nat, now: nat, endTime: nat, frequency: nat) returns (n: nat)
    requires frequency > 0
    ensures RunFrom(time, now, endTime, frequency) == Run(time, frequency, n)
    ensures now <= Run(time, frequency, n) || endTime <= Run(time, frequency, n)
    ensures forall k | 0 <= k < n :: Run(time, frequency, k) < now && Run(time, frequency, k) < endTime
    decreases now - time
  {
    if time < now && time < endTime {
      var m := RunFromIsFirst(time + frequency, now, endTime, frequency);
      n := m + 1;
      forall k | 0 <= k < n
        ensures Run(time, frequency, k) < now && Run(time, frequency, k) < endTime
      {
        if k > 0 { assert Run(time, frequency, k) == Run(time + frequency, frequency, k - 1); }
      }
    } else {
      n := 0;
    }
  }

  /** There is a run to take: not before the current time, and before the end. */
  ghost predicate HasRun(d: Departure, now: nat)
    requires d.timing.Frequency?
  {
    exists k :: RunsAt(d, now, k)
  }

  predicate RunsAt(d: Departure, now: nat, k: nat)
    requires d.timing.Frequency?
  {
    now <= Run(d.time, d.timing.frequency, k) < d.timing.endTime
  }

  function NextRun(d: Departure, now: nat): nat
    requires d.timing.Frequency? && d.timing.frequency > 0
  {
    RunFrom(d.time, now, d.timing.endTime, d.timing.frequency)
  }

  lemma RunsAscend(time: nat, frequency: nat, j: nat, k: nat)
    requires j <= k
    ensures Run(time, frequency, j) <= Run(time, frequency, k)
  {
    assert k * frequency == j * frequency + (k - j) * frequency;
  }

  /** The time offered is in the window exactly if there is a run to take, and then it is the first one.
      Otherwise the departure offered is one that does not run. */
  lemma NextRunIsFirst(d: Departure, now: nat)
    requires d.timing.Frequency? && d.timing.frequency > 0
    ensures now <= NextRun(d, now) < d.timing.endTime <==> HasRun(d, now)
    ensures HasRun(d, now) ==> forall k | RunsAt(d, now, k) :: NextRun(d, now) <= Run(d.time, d.timing.frequency, k)
  {
    var n := RunFromIsFirst(d.time, now, d.timing.endTime, d.timing.frequency);
    if now <= NextRun(d, now) < d.timing.endTime {
      assert RunsAt(d, now, n);
    }
    forall k | RunsAt(d, now, k)
      ensures NextRun(d, now) <= Run(d.time, d.timing.frequency, k)
    {
      if k >= n { RunsAscend(d.time, d.timing.frequency, n, k); }
    }
  }

  /** A departure that runs at 20 and 45 until 50 can still be taken at 47 by the search's test, but what
      is offered then is a run at 70. */
  lemma OfferBehindEnd()
    ensures var d := Departure(0, 2, Frequency(50, 25), 20, 0, true, true);
            Hit(d, 0, 47) && !HasRun(d, 47) && NextRun(d, 47) == 70
  {
    var d := Departure(0, 2, Frequency(50, 25), 20, 0, true, true);
    assert RunFrom(20, 47, 50, 25) == RunFrom(45, 47, 50, 25) == RunFrom(70, 47, 50, 25) == 70;
    NextRunIsFirst(d, 47);
  }

  // ---------------------------------------------------------------------------------------------
  // The next departure of a line

  /** When a departure runs: on days after the tile's creation, up to a last one, or else on weekdays. */
  datatype Schedule = Schedule(days: set<nat>, daysOfWeek: set<nat>, endDay: nat)

  predicate IsValid(s: Schedule, day: nat, dow: nat, dateBeforeTile: bool) {
    if !dateBeforeTile && day <= s.endDay then day in s.days else dow in s.daysOfWeek
  }

  datatype Query = Query(
    line: nat, now: nat, day: nat, dow: nat, dateBeforeTile: bool, wheelchair: bool, bicycle: bool)

  predicate Usable(d: Departure, schedules: seq<Schedule>, q: Query)
    requires d.schedule < |schedules|
  {
    && (q.wheelchair ==> d.wheelchair) && (q.bicycle ==> d.bicycle)
    && IsValid(schedules[d.schedule], q.day, q.dow, q.dateBeforeTile)
  }

  /** What a stored tile guarantees: schedules exist, times have 17 bits, and repeating departures repeat. */
  predicate WellStored(ds: seq<Departure>, schedules: seq<Schedule>) {
    forall i | 0 <= i < |ds| ::
      && ds[i].schedule < |schedules|
      && ds[i].time <= MAX_DEPARTURE_TIME
      && (ds[i].timing.Frequency? ==> ds[i].timing.frequency > 0 && ds[i].timing.endTime <= MAX_DEPARTURE_TIME)
  }

  /** A departure of the line that can be taken and fits the query. */
  predicate Eligible(ds: seq<Departure>, schedules: seq<Schedule>, q: Query, i: nat)
    requires WellStored(ds, schedules) && i < |ds|
  {
    Hit(ds[i], q.line, q.now) && Usable(ds[i], schedules, q)
  }

  /** The rider can use it and it runs on the day: within the schedule's days by the day itself, else by the day of the
      week. */
  predicate Carries(d: Departure, s: Schedule, q: Query) {
    && (!q.wheelchair || d.wheelchair) && (!q.bicycle || d.bicycle)
    && (if q.dateBeforeTile || s.endDay < q.day then q.dow in s.daysOfWeek else q.day in s.days)
  }

  /** It is of the line, not over yet, and carries the rider that day. */
  predicate Boards(d: Departure, s: Schedule, q: Query) {
    && d.lineid == q.line && Carries(d, s, q)
    && (d.timing.Fixed? ==> q.now <= d.time) && (d.timing.Frequency? ==> q.now <= d.timing.endTime)
  }

  lemma EligibleIffBoards(ds: seq<Departure>, schedules: seq<Schedule>, q: Query)
    requires WellStored(ds, schedules)
    ensures forall i | 0 <= i < |ds| ::
              && (Usable(ds[i], schedules, q) <==> Carries(ds[i], schedules[ds[i].schedule], q))
              && (Eligible(ds, schedules, q, i) <==> Boards(ds[i], schedules[ds[i].schedule], q))
  {
  }

  /** What is returned for a departure: itself, or a copy that leaves at its next run. */
  function Offered(d: Departure, now: nat): Result<Departure, DepartureError>
    requires d.timing.Frequency? ==> d.timing.frequency > 0
  {
    if d.timing.Fixed? then Ok(d)
    else if NextRun(d, now) > MAX_DEPARTURE_TIME then Err(ExceededMaximumTime)
    else Ok(d.(time := NextRun(d, now)))
  }

  /** An eligible departure that no eligible one leaves before. */
  predicate Earliest(ds: seq<Departure>, schedules: seq<Schedule>, q: Query, at: nat)
    requires WellStored(ds, schedules) && at < |ds|
  {
    && Eligible(ds, schedules, q, at)
    && forall i | 0 <= i < |ds| && Eligible(ds, schedules, q, i) :: ds[at].time <= ds[i].time
  }

  /** On a line of fixed departures the first eligible one is the earliest. */
  lemma FirstIsEarliest(ds: seq<Departure>, schedules: seq<Schedule>, q: Query)
    requires WellStored(ds, schedules) && Sorted(ds) && FixedLine(ds, q.line)
    ensures forall at | 0 <= at < |ds| && Eligible(ds, schedules, q, at) &&
                        (forall i | 0 <= i < at :: !Eligible(ds, schedules, q, i)) ::
              Earliest(ds, schedules, q, at)
  {
    hide Usable;
  }

  /** The loop over repetitions. */
  method MoveUp(d: Departure, now: nat) returns (time: nat)
    requires d.timing.Frequency? && d.timing.frequency > 0
    ensures time == NextRun(d, now)
  {
    time := d.time;
    while time < now && time < d.timing.endTime
      invariant RunFrom(time, now, d.timing.endTime, d.timing.frequency) == NextRun(d, now)
      decreases now - time
    {
      time := time + d.timing.frequency;
    }
  }

  /** The binary search loop of both look-ups. */
  method FindDeparture(ds: seq<Departure>, line: nat, now: nat) returns (found: nat)
    ensures found == Search(ds, line, now)
    ensures Sorted(ds) && Monotone(ds, line, now) ==> found == FirstHit(ds, line, now, 0)
  {
    hide Sorted, Monotone, SearchFrom, FirstHit;
    var low, high := 0, |ds| - 1;
    found := |ds|;
    while low <= high
      invariant 0 <= low <= high + 1 <= |ds| && found <= |ds|
      invariant SearchFrom(ds, line, now, low, high, found) == Search(ds, line, now)
    {
      ghost var middle := SearchStep(ds, line, now, low, high, found);
      var mid := (low + high) / 2;
      var dep := ds[mid];
      if line == dep.lineid && ((dep.timing.Fixed? && now <= dep.time) ||
                                (dep.timing.Frequency? && now <= dep.timing.endTime)) {
        found := mid;
        high := mid - 1;
      } else if line < dep.lineid {
        high := mid - 1;
      } else {
        low := mid + 1;
      }
    }
    ghost var nowhere := SearchStep(ds, line, now, low, high, found);
    if Sorted(ds) && Monotone(ds, line, now) {
      SearchFindsFirst(ds, line, now);
    }
  }

  /** The first departure, in the tile's order, that can be taken and fits the query. */
  predicate FirstEligible(ds: seq<Departure>, schedules: seq<Schedule>, q: Query, at: nat)
    requires WellStored(ds, schedules) && at < |ds|
  {
    Eligible(ds, schedules, q, at) && forall i | 0 <= i < at :: !Eligible(ds, schedules, q, i)
  }

  ghost predicate NoneEligible(ds: seq<Departure>, schedules: seq<Schedule>, q: Query)
    requires WellStored(ds, schedules)
  {
    forall i | 0 <= i < |ds| :: !Eligible(ds, schedules, q, i)
  }

  function Returned(d: Departure, now: nat): Result<Option<Departure>, DepartureError>
    requires d.timing.Frequency? ==> d.timing.frequency > 0
  {
    match Offered(d, now)
    case Ok(offered) => Ok(Some(offered))
    case Err(e) => Err(e)
  }

  /** In a sorted tile with a monotone line: the first departure that can be taken and fits the query, and
      nothing exactly if there is none. On a line of fixed departures that is the earliest. Whatever the line
      looks like, only departures of the line that fit the query are returned. */
  method GetNextDeparture(ds: seq<Departure>, schedules: seq<Schedule>, q: Query)
    returns (r: Result<Option<Departure>, DepartureError>)
    requires WellStored(ds, schedules)
    ensures r != Ok(None) ==>
      exists i :: && 0 <= i < |ds| && ds[i].lineid == q.line && Carries(ds[i], schedules[ds[i].schedule], q)
                  && r == Returned(ds[i], q.now)
    ensures Sorted(ds) && Monotone(ds, q.line, q.now) ==>
      && (r == Ok(None) <==> forall i | 0 <= i < |ds| :: !Boards(ds[i], schedules[ds[i].schedule], q))
      && forall i | 0 <= i < |ds| && FirstEligible(ds, schedules, q, i) :: r == Returned(ds[i], q.now)
    ensures r.Ok? && r.value.Some? ==> r.value.value.time < 0x2_0000
    ensures r.Err? ==> exists i :: 0 <= i < |ds| && ds[i].timing.Frequency? && ds[i].timing.frequency > 0
                                   && NextRun(ds[i], q.now) >= 0x2_0000
    ensures Sorted(ds) && FixedLine(ds, q.line) ==>
      && (r == Ok(None) <==> NoneEligible(ds, schedules, q))
      && (r != Ok(None) ==> exists i :: 0 <= i < |ds| && r == Ok(Some(ds[i])) && Earliest(ds, schedules, q, i))
  {
    var found := FindDeparture(ds, q.line, q.now);
    ghost var first := found;
    hide Sorted, Monotone, FixedLine, NextRun, IsValid, Carries, Boards;
    EligibleIffBoards(ds, schedules, q);
    while found < |ds| && ds[found].lineid == q.line
      invariant first <= found <= |ds|
      invariant forall i | first <= i < found :: ds[i].lineid == q.line && !Usable(ds[i], schedules, q)
      decreases |ds| - found
    {
      var d := ds[found];
      if (q.wheelchair && !d.wheelchair) || (q.bicycle && !d.bicycle) ||
         !IsValid(schedules[d.schedule], q.day, q.dow, q.dateBeforeTile) {
        found := found + 1;
        continue;
      }
      FirstFound(ds, schedules, q, first, found);
      if d.timing.Fixed? {
        return Ok(Some(d));
      }
      var time := MoveUp(d, q.now);
      if time > MAX_DEPARTURE_TIME {
        return Err(ExceededMaximumTime);
      }
      return Ok(Some(d.(time := time)));
    }
    NothingFound(ds, schedules, q, first, found);
    r := Ok(None);
  }

  /** The departure the scan stops at is the first eligible one, and the earliest on a fixed line. */
  lemma FirstFound(ds: seq<Departure>, schedules: seq<Schedule>, q: Query, first: nat, found: nat)
    requires WellStored(ds, schedules) && first == Search(ds, q.line, q.now) && first <= found < |ds|
    requires ds[found].lineid == q.line && Usable(ds[found], schedules, q)
    requires forall i | first <= i < found :: !Usable(ds[i], schedules, q)
    ensures Sorted(ds) && Monotone(ds, q.line, q.now) ==>
      FirstEligible(ds, schedules, q, found) &&
      forall i | 0 <= i < |ds| && FirstEligible(ds, schedules, q, i) :: i == found
    ensures Sorted(ds) && FixedLine(ds, q.line) ==>
      ds[found].timing.Fixed? && Earliest(ds, schedules, q, found)
  {
    if Sorted(ds) && FixedLine(ds, q.line) {
      FixedLineIsMonotone(ds, q.line, q.now);
      FirstIsEarliest(ds, schedules, q);
    }
    if Sorted(ds) && Monotone(ds, q.line, q.now) {
      SearchFindsFirst(ds, q.line, q.now);
      hide Search, Sorted, Usable;
      assert Eligible(ds, schedules, q, found);
    }
  }

  /** When the scan leaves the line's block without a find, nothing is eligible. */
  lemma NothingFound(ds: seq<Departure>, schedules: seq<Schedule>, q: Query, first: nat, found: nat)
    requires WellStored(ds, schedules) && first == Search(ds, q.line, q.now) && first <= found <= |ds|
    requires found < |ds| ==> ds[found].lineid != q.line
    requires forall i | first <= i < found :: !Usable(ds[i], schedules, q)
    ensures Sorted(ds) && (Monotone(ds, q.line, q.now) || FixedLine(ds, q.line)) ==> NoneEligible(ds, schedules, q)
  {
    if Sorted(ds) && (Monotone(ds, q.line, q.now) || FixedLine(ds, q.line)) {
      if FixedLine(ds, q.line) {
        FixedLineIsMonotone(ds, q.line, q.now);
      }
      SearchFindsFirst(ds, q.line, q.now);
      if found < |ds| {
        OtherLinesFollow(ds, q.line, first, found);
      }
      hide Search, Sorted, Usable;
    }
  }

  /** Behind the line's block there are only other lines. */
  lemma OtherLinesFollow(ds: seq<Departure>, line: nat, first: nat, found: nat)
    requires Sorted(ds) && first <= found < |ds| && ds[found].lineid != line
    requires ds[first].lineid == line
    ensures forall i | found <= i < |ds| :: ds[i].lineid != line
  {
    LinesAscend(ds, first, found);
    forall i | found <= i < |ds| ensures ds[i].lineid != line { LinesAscend(ds, found, i); }
  }

  // ---------------------------------------------------------------------------------------------
  // The departure of a trip

  /** The trip's departure on the line, if it is fixed or has a run to take. */
  ghost predicate Takes(d: Departure, tripid: nat, now: nat) {
    d.tripid == tripid && (d.timing.Fixed? || HasRun(d, now))
  }

  /** The first departure of the line, in the tile's order, that can be taken and is the trip's. */
  ghost predicate FirstOfTrip(ds: seq<Departure>, line: nat, tripid: nat, now: nat, at: nat)
    requires at < |ds|
  {
    && Hit(ds[at], line, now) && Takes(ds[at], tripid, now)
    && forall i | 0 <= i < at :: !(Hit(ds[i], line, now) && Takes(ds[i], tripid, now))
  }

  function AtNextRun(d: Departure, now: nat): Departure
    requires d.timing.Frequency? ==> d.timing.frequency > 0
  {
    if d.timing.Fixed? then d else d.(time := NextRun(d, now))
  }

  /** In a sorted tile with a monotone line: the first departure of the trip that can be taken, at its first
      run if it repeats, and nothing exactly if there is none. */
  method GetTransitDeparture(ds: seq<Departure>, schedules: seq<Schedule>, line: nat, tripid: nat, now: nat)
    returns (r: Option<Departure>)
    requires WellStored(ds, schedules)
    ensures r.Some? ==>
      exists i :: 0 <= i < |ds| && ds[i].lineid == line && Takes(ds[i], tripid, now) && r.value == AtNextRun(ds[i], now)
    ensures Sorted(ds) && Monotone(ds, line, now) ==>
      && (r.None? <==> forall i | 0 <= i < |ds| :: !(Hit(ds[i], line, now) && Takes(ds[i], tripid, now)))
      && (forall i | 0 <= i < |ds| && FirstOfTrip(ds, line, tripid, now, i) :: r == Some(AtNextRun(ds[i], now)))
      && (r.Some? ==> now <= r.value.time <= Deadline(r.value))
  {
    var found := FindDeparture(ds, line, now);
    ghost var first := found;
    hide Sorted, Monotone, NextRun, HasRun, IsValid;
    while found < |ds| && ds[found].lineid == line
      invariant first <= found <= |ds|
      invariant forall i | first <= i < found :: ds[i].lineid == line && !Takes(ds[i], tripid, now)
      decreases |ds| - found
    {
      var d := ds[found];
      if d.tripid == tripid {
        if d.timing.Fixed? {
          FirstTripFound(ds, line, tripid, now, first, found);
          return Some(d);
        }
        var time := MoveUp(d, now);
        NextRunIsFirst(d, now);
        if time >= now && time < d.timing.endTime {
          FirstTripFound(ds, line, tripid, now, first, found);
          return Some(d.(time := time));
        }
      }
      found := found + 1;
    }
    NoTripFound(ds, line, tripid, now, first, found);
    r := None;
  }

  lemma FirstTripFound(ds: seq<Departure>, line: nat, tripid: nat, now: nat, first: nat, found: nat)
    requires first == Search(ds, line, now) && first <= found < |ds|
    requires ds[found].lineid == line && Takes(ds[found], tripid, now)
    requires forall i | first <= i < found :: !Takes(ds[i], tripid, now)
    ensures Sorted(ds) && Monotone(ds, line, now) ==>
      && FirstOfTrip(ds, line, tripid, now, found) && now <= Deadline(ds[found])
      && forall i | 0 <= i < |ds| && FirstOfTrip(ds, line, tripid, now, i) :: i == found
  {
    hide Takes;
    if Sorted(ds) && Monotone(ds, line, now) {
      SearchFindsFirst(ds, line, now);
      hide Search, Sorted;
      assert Hit(ds[found], line, now);
    }
  }

  lemma NoTripFound(ds: seq<Departure>, line: nat, tripid: nat, now: nat, first: nat, found: nat)
    requires first == Search(ds, line, now) && first <= found <= |ds|
    requires found < |ds| ==> ds[found].lineid != line
    requires forall i | first <= i < found :: !Takes(ds[i], tripid, now)
    ensures Sorted(ds) && Monotone(ds, line, now) ==>
      forall i | 0 <= i < |ds| :: !(Hit(ds[i], line, now) && Takes(ds[i], tripid, now))
  {
    hide Takes;
    if Sorted(ds) && Monotone(ds, line, now) {
      SearchFindsFirst(ds, line, now);
      if found < |ds| {
        OtherLinesFollow(ds, line, first, found);
      }
      hide Search, Sorted;
    }
  }
}
