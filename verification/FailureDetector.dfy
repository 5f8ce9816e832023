/**
 The accrual failure detector (gms/failure_detector.cc): each endpoint's recent heartbeat
 intervals, and conviction once silence is long compared with their mean.  Times and
 intervals are in nanoseconds; means and phi are exact reals.
 */
module FailureDetectors {
  import opened EndpointStates

  /** clk::time_point::min(), the "nothing yet" value of an arrival window. */
  const NEVER: int := -0x8000_0000_0000_0000
  /** get_initial_value and get_max_interval: two seconds. */
  const MAX_INTERVAL: int := 2_000_000_000
  const SAMPLE_SIZE: nat := 1000
  /** log10(e) */
  const PHI_FACTOR: real := 0.434294481903251827651

  // -------------------------------------------------------------- bounded deque

  datatype Stats = Stats(items: seq<int>, sum: int)

  function Sum(xs: seq<int>): int {
    if xs == [] then 0 else xs[0] + Sum(xs[1..])
  }

  /** bounded_stats_deque::add */
  function Record(s: Stats, size: nat, x: int): Stats
    requires 0 < size
  {
    if |s.items| >= size then Stats(s.items[1..] + [x], s.sum - s.items[0] + x)
    else Stats(s.items + [x], s.sum + x)
  }

  lemma {:induction false} SumAppend(xs: seq<int>, x: int)
    ensures Sum(xs + [x]) == Sum(xs) + x
  {
    if xs == [] {
      assert xs + [x] == [x];
    } else {
      assert (xs + [x])[1..] == xs[1..] + [x];
      SumAppend(xs[1..], x);
    }
  }

  lemma {:induction false} SumBounds(xs: seq<int>, low: int, high: int)
    requires forall i | 0 <= i < |xs| :: low <= xs[i] <= high
    ensures |xs| * low <= Sum(xs) <= |xs| * high
  {
    if xs != [] {
      SumBounds(xs[1..], low, high);
    }
  }

  function Last<T>(xs: seq<T>, n: nat): (r: seq<T>)
    requires n <= |xs|
  {
    xs[|xs| - n..]
  }

  // ------------------------------------------------------------- arrival window

  datatype Window = Window(last: int, intervals: Stats)

  const EMPTY: Window := Window(NEVER, Stats([], 0))

  /** arrival_window::add */
  function Extended(w: Window, now: int): Window {
    if w.last > NEVER then
      var interval := now - w.last;
      if interval <= MAX_INTERVAL then Window(now, Record(w.intervals, SAMPLE_SIZE, interval))
      else w.(last := now)
    else
      Window(now, Record(w.intervals, SAMPLE_SIZE, MAX_INTERVAL))
  }

  function Mean(w: Window): real
    requires w.intervals.items != []
  {
    w.intervals.sum as real / |w.intervals.items| as real
  }

  /** The assertion in arrival_window::phi. */
  predicate HasSamples(w: Window) {
    w.intervals.items != [] && w.last > NEVER
  }

  /**
   Whether PHI_FACTOR * phi(now) exceeds the threshold.  Division by a zero mean is that of
   floating point: infinite after positive silence, and not a number after none.
   */
  predicate Convicts(w: Window, now: int, threshold: real)
    requires HasSamples(w)
  {
    var t := now - w.last;
    if Mean(w) == 0.0 then t > 0
    else PHI_FACTOR * (t as real / Mean(w)) > threshold
  }

  predicate WindowOk(w: Window) {
    && w.last > NEVER
    && 0 < |w.intervals.items| <= SAMPLE_SIZE
    && w.intervals.sum == Sum(w.intervals.items)
    && forall i | 0 <= i < |w.intervals.items| :: 0 <= w.intervals.items[i] <= MAX_INTERVAL
  }

  lemma RecordKeepsSum(s: Stats, size: nat, x: int)
    requires 0 < size && s.sum == Sum(s.items)
    ensures Record(s, size, x).sum == Sum(Record(s, size, x).items)
  {
    SumAppend(s.items, x);
    if |s.items| >= size {
      SumAppend(s.items[1..], x);
    }
  }

  lemma AddKeepsOk(w: Window, now: int)
    requires w == EMPTY || (WindowOk(w) && w.last <= now)
    requires now > NEVER
    ensures WindowOk(Extended(w, now)) && Extended(w, now).last == now
  {
    hide Sum;
    assert Sum([]) == 0 by { SumBounds([], 0, 0); }
    var x := if w == EMPTY then MAX_INTERVAL else now - w.last;
    RecordKeepsSum(w.intervals, SAMPLE_SIZE, x);
  }

  lemma MeanBounds(w: Window)
    requires WindowOk(w)
    ensures 0.0 <= Mean(w) <= MAX_INTERVAL as real
  {
    var n := |w.intervals.items|;
    SumBounds(w.intervals.items, 0, MAX_INTERVAL);
    QuotientBounds(w.intervals.sum as real, n as real, MAX_INTERVAL as real);
  }

  lemma QuotientBounds(s: real, n: real, high: real)
    requires 0.0 <= s <= n * high && n > 0.0
    ensures 0.0 <= s / n <= high
  {
  }

  /** With a mean that is not negative, conviction is a comparison without division. */
  lemma ConvictsExactly(w: Window, now: int, threshold: real)
    requires HasSamples(w) && Mean(w) >= 0.0
    ensures Convicts(w, now, threshold) <==> PHI_FACTOR * (now - w.last) as real > threshold * Mean(w)
  {
    var t, m := (now - w.last) as real, Mean(w);
    if m == 0.0 {
      assert threshold * m == 0.0;
    } else {
      ScaledQuotient(PHI_FACTOR, t, m, threshold);
    }
  }

  lemma ScaledQuotient(f: real, t: real, m: real, threshold: real)
    requires m > 0.0
    ensures f * (t / m) > threshold <==> f * t > threshold * m
  {
    var q := t / m;
    assert t == q * m;
    assert f * t == (f * q) * m;
    if f * q > threshold {
      assert (f * q - threshold) * m > 0.0;
    } else {
      assert (threshold - f * q) * m >= 0.0;
    }
  }

  lemma SilenceConvicts(w: Window, now: int, threshold: real)
    requires WindowOk(w) && threshold >= 0.0
    requires (now - w.last) as real > threshold * MAX_INTERVAL as real / PHI_FACTOR
    ensures Convicts(w, now, threshold)
  {
    hide Convicts, Mean;
    MeanBounds(w);
    var m, high := Mean(w), MAX_INTERVAL as real;
    assert threshold * m <= threshold * high by {
      assert threshold * (high - m) >= 0.0;
    }
    MultiplyOut(PHI_FACTOR, (now - w.last) as real, threshold * high);
    ConvictsExactly(w, now, threshold);
  }

  lemma MultiplyOut(f: real, t: real, x: real)
    requires f > 0.0 && t > x / f
    ensures f * t > x
  {
    var q := x / f;
    assert x == q * f;
    assert f * (t - q) > 0.0;
  }

  /** Whatever the window holds, some silence convicts if and only if the mean is not negative. */
  lemma DetectsIffMeanNotNegative(w: Window, threshold: real)
    requires HasSamples(w) && threshold >= 0.0
    ensures (exists now :: now >= w.last && Convicts(w, now, threshold)) <==> Mean(w) >= 0.0
  {
    var m := Mean(w);
    if m >= 0.0 {
      var bound := threshold * m / PHI_FACTOR;
      var now := w.last + bound.Floor + 1;
      assert bound >= 0.0;
      MultiplyOut(PHI_FACTOR, (now - w.last) as real, threshold * m);
      ConvictsExactly(w, now, threshold);
      assert now >= w.last && Convicts(w, now, threshold);
    } else {
      forall now | now >= w.last ensures !Convicts(w, now, threshold) {
        NegativeQuotient(PHI_FACTOR, (now - w.last) as real, m);
      }
    }
  }

  lemma NegativeQuotient(f: real, t: real, m: real)
    requires f > 0.0 && t >= 0.0 && m < 0.0
    ensures f * (t / m) <= 0.0
  {
    var q := t / m;
    assert t == q * m;
    assert q > 0.0 ==> q * m < 0.0;
  }

  // ----------------------------------------------------------- whole histories

  datatype Event = Report(ep: Endpoint, now: int) | Interpret(ep: Endpoint, now: int) | Remove(ep: Endpoint)

  type Samples = map<Endpoint, Window>

  function Step(d: Samples, e: Event): Samples {
    match e
    case Report(ep, now) => d[ep := Extended(if ep in d then d[ep] else EMPTY, now)]
    case Interpret(_, _) => d
    case Remove(ep) => d - {ep}
  }

  function Run(events: seq<Event>): Samples {
    if events == [] then map[]
    else Step(Run(events[..|events|-1]), events[|events|-1])
  }

  /** The time of the last event that has one. */
  function LastTime(events: seq<Event>): int {
    if events == [] then NEVER + 1
    else
      var e := events[|events|-1];
      if e.Remove? then LastTime(events[..|events|-1]) else e.now
  }

  /** The clock never goes back. */
  predicate IsHistory(events: seq<Event>) {
    events == [] ||
    var e, before := events[|events|-1], events[..|events|-1];
    IsHistory(before) && (e.Remove? || LastTime(before) <= e.now)
  }

  ghost predicate AllOk(d: Samples, clock: int) {
    forall ep | ep in d :: WindowOk(d[ep]) && d[ep].last <= clock
  }

  lemma {:induction false} HistoryIsOk(events: seq<Event>)
    requires IsHistory(events)
    ensures AllOk(Run(events), LastTime(events)) && NEVER < LastTime(events)
    decreases |events|
  {
    hide WindowOk, Extended;
    if events != [] {
      var n := |events| - 1;
      HistoryIsOk(events[..n]);
      var d := Run(events[..n]);
      if events[n].Report? {
        var ep := events[n].ep;
        AddKeepsOk(if ep in d then d[ep] else EMPTY, events[n].now);
      }
    }
  }

  /** The times of the reports about ep since it was last removed. */
  function Reports(events: seq<Event>, ep: Endpoint): seq<int> {
    if events == [] then []
    else
      var e, before := events[|events|-1], Reports(events[..|events|-1], ep);
      if e.ep != ep || e.Interpret? then before
      else if e.Report? then before + [e.now]
      else []
  }

  /** Two seconds for the first report, then every interval between two reports that is no longer than that. */
  function Gaps(times: seq<int>): seq<int> {
    if times == [] then []
    else if |times| == 1 then [2_000_000_000]
    else
      var n := |times| - 1;
      var gap := times[n] - times[n-1];
      Gaps(times[..n]) + (if gap <= 2_000_000_000 then [gap] else [])
  }

  /** The window of an endpoint that reported at these times. */
  ghost predicate Reflects(w: Window, times: seq<int>) {
    && times != []
    && w.last == times[|times|-1]
    && var gaps := Gaps(times);
    w.intervals.items == Last(gaps, if |gaps| < 1000 then |gaps| else 1000)
  }

  lemma ExtendedReflects(w: Window, times: seq<int>, now: int)
    requires if times == [] then w == EMPTY else Reflects(w, times) && w.last > NEVER
    ensures Reflects(Extended(w, now), times + [now])
  {
    var all := times + [now];
    var n := |times|;
    assert all[..n] == times;
    if n > 0 {
      var gaps, gap := Gaps(times), now - times[n-1];
      assert all[n] == now && all[n-1] == times[n-1];
      assert Gaps(all) == gaps + (if gap <= MAX_INTERVAL then [gap] else []);
      if gap <= MAX_INTERVAL && |gaps| >= SAMPLE_SIZE {
        assert Last(gaps, SAMPLE_SIZE)[1..] + [gap] == Last(gaps + [gap], SAMPLE_SIZE);
      }
    } else {
      assert Gaps(all) == [MAX_INTERVAL];
    }
  }

  lemma LastReport(events: seq<Event>, ep: Endpoint)
    requires IsHistory(events)
    ensures ep in Run(events) ==> Run(events)[ep].last > NEVER
  {
    HistoryIsOk(events);
  }

  /** In every history an endpoint has a window just when it reported since its last removal, and the window says how. */
  lemma {:induction false} WindowReflectsReports(events: seq<Event>, ep: Endpoint)
    requires IsHistory(events)
    ensures ep in Run(events) <==> Reports(events, ep) != []
    ensures ep in Run(events) ==> Reflects(Run(events)[ep], Reports(events, ep))
    decreases |events|
  {
    hide Reflects, Extended, WindowOk;
    if events != [] {
      var n := |events| - 1;
      var before := events[..n];
      WindowReflectsReports(before, ep);
      LastReport(before, ep);
      var d := Run(before);
      if events[n].Report? && events[n].ep == ep {
        ExtendedReflects(if ep in d then d[ep] else EMPTY, Reports(before, ep), events[n].now);
      }
    }
  }

  /**
   Bounded detection: in every history the assertion in phi holds for every endpoint with a
   window, its mean lies between 0 and the maximum interval, and silence longer than
   threshold * MAX_INTERVAL / PHI_FACTOR convicts.
   */
  lemma BoundedDetection(events: seq<Event>, ep: Endpoint, now: int, threshold: real)
    requires IsHistory(events) && ep in Run(events) && threshold >= 0.0
    ensures var w := Run(events)[ep];
      && HasSamples(w) && |w.intervals.items| <= SAMPLE_SIZE
      && 0.0 <= Mean(w) <= MAX_INTERVAL as real
      && ((now - w.last) as real > threshold * MAX_INTERVAL as real / PHI_FACTOR ==> Convicts(w, now, threshold))
  {
    hide IsHistory, Run, Convicts, Mean;
    HistoryIsOk(events);
    var w := Run(events)[ep];
    MeanBounds(w);
    if (now - w.last) as real > threshold * MAX_INTERVAL as real / PHI_FACTOR {
      SilenceConvicts(w, now, threshold);
    }
  }

  /**
   With the threshold of 8 that a detector starts with, 37 seconds of silence convict in every
   history, and 36 do not while every interval was of the longest kind.
   */
  lemma DefaultDetectionTime(events: seq<Event>, ep: Endpoint, now: int)
    requires IsHistory(events) && ep in Run(events)
    ensures var w := Run(events)[ep];
      && HasSamples(w)
      && (now - w.last >= 37_000_000_000 ==> Convicts(w, now, 8.0))
      && (Mean(w) == 2_000_000_000.0 && now - w.last <= 36_000_000_000 ==> !Convicts(w, now, 8.0))
  {
    hide IsHistory, Run, Convicts, Mean;
    BoundedDetection(events, ep, now, 8.0);
    ConvictsExactly(Run(events)[ep], now, 8.0);
  }

  /**
   A clock that goes back can make the mean negative: after two reports, the second more than
   two seconds before the first, no silence is ever long enough.
   */
  lemma SteppedClockNeverConvicts(first: int, second: int, now: int, threshold: real)
    requires NEVER < second < first - MAX_INTERVAL && second <= now && threshold >= 0.0
    ensures var w := Extended(Extended(EMPTY, first), second); HasSamples(w) && !Convicts(w, now, threshold)
  {
    var w := Extended(Extended(EMPTY, first), second);
    assert w.intervals == Stats([MAX_INTERVAL, second - first], MAX_INTERVAL + second - first);
    assert Mean(w) < 0.0;
    DetectsIffMeanNotNegative(w, threshold);
  }

  // -------------------------------------------------------------- the objects

  class BoundedStatsDeque {
    var deque: seq<int>
    var sum: int
    const maxSize: nat

    /** The running sum is the sum of what is kept, which never exceeds the bound. */
    predicate Valid()
      reads this
    {
      0 < maxSize && |deque| <= maxSize && sum == Sum(deque)
    }

    constructor (size: nat)
      requires 0 < size
      ensures Valid() && deque == [] && maxSize == size
    {
      deque, sum, maxSize := [], 0, size;
    }

    method Add(x: int)
      requires Valid()
      modifies this
      ensures Valid()
      ensures Stats(deque, sum) == Record(old(Stats(deque, sum)), maxSize, x)
      ensures deque == Last(old(deque) + [x], if |old(deque)| == maxSize then maxSize else |old(deque)| + 1)
    {
      if |deque| >= maxSize {
        var removed := deque[0];
        deque := deque[1..];
        sum := sum - removed;
      }
      SumAppend(deque, x);
      deque := deque + [x];
      sum := sum + x;
    }

    method Mean() returns (m: real)
      requires Valid()
      ensures m == if deque == [] then 0.0 else Sum(deque) as real / |deque| as real
    {
      m := if |deque| > 0 then sum as real / |deque| as real else 0.0;
    }
  }

  class ArrivalWindow {
    var last: int
    const intervals: BoundedStatsDeque

    predicate Valid()
      reads this, intervals
    {
      intervals.Valid() && intervals.maxSize == SAMPLE_SIZE
    }

    function Value(): Window
      reads this, intervals
    {
      Window(last, Stats(intervals.deque, intervals.sum))
    }

    constructor ()
      ensures Valid() && Value() == EMPTY && fresh(intervals)
    {
      last := NEVER;
      intervals := new BoundedStatsDeque(SAMPLE_SIZE);
    }

    method Add(now: int)
      requires Valid()
      modifies this, intervals
      ensures Valid() && Value() == Extended(old(Value()), now)
    {
      hide Sum, Record, Last;
      if last > NEVER {
        var interval := now - last;
        if interval <= MAX_INTERVAL {
          intervals.Add(interval);
        }
      } else {
        intervals.Add(MAX_INTERVAL);
      }
      last := now;
    }

    /** Whether phi, scaled, is above the threshold; the source asserts the precondition. */
    method IsOver(now: int, threshold: real) returns (over: bool)
      requires Valid() && HasSamples(Value())
      ensures over == Convicts(Value(), now, threshold)
    {
      var t := now - last;
      var m := intervals.Mean();
      over := if m == 0.0 then t > 0 else PHI_FACTOR * (t as real / m) > threshold;
    }
  }

  class FailureDetector {
    var samples: map<Endpoint, ArrivalWindow>
    const phi: real

    /** Windows are well formed, and no two endpoints share one. */
    ghost predicate Valid()
      reads this, samples.Values, set w | w in samples.Values :: w.intervals
    {
      && (forall e | e in samples :: samples[e].Valid())
      && (forall e, f | e in samples && f in samples && e != f ::
            samples[e] != samples[f] && samples[e].intervals != samples[f].intervals)
    }

    ghost function Current(): Samples
      reads this, samples.Values, set w | w in samples.Values :: w.intervals
    {
      map e | e in samples :: samples[e].Value()
    }

    constructor (threshold: real)
      ensures Valid() && Current() == map[] && phi == threshold
    {
      samples, phi := map[], threshold;
    }

    method Report(ep: Endpoint, now: int)
      requires Valid()
      modifies this, if ep in samples then {samples[ep], samples[ep].intervals} else {}
      ensures Valid() && Current() == Step(old(Current()), Event.Report(ep, now))
    {
      hide Extended, ArrivalWindow.Valid, ArrivalWindow.Value;
      if ep !in samples {
        var window := new ArrivalWindow();
        window.Add(now);
        samples := samples[ep := window];
      } else {
        ghost var before := Current();
        samples[ep].Add(now);
        assert forall e | e in samples && e != ep :: samples[e].Value() == before[e];
        assert Current() == before[ep := Extended(before[ep], now)];
      }
    }

    /** `paused` is whether a local pause, recent or just now, stops conviction. */
    method Interpret(ep: Endpoint, now: int, paused: bool) returns (convicted: bool)
      requires Valid() && (ep in samples ==> HasSamples(samples[ep].Value()))
      ensures convicted <==> ep in Current() && !paused && Convicts(Current()[ep], now, phi)
    {
      if ep !in samples || paused {
        return false;
      }
      convicted := samples[ep].IsOver(now, phi);
    }

    method Remove(ep: Endpoint)
      requires Valid()
      modifies this
      ensures Valid() && Current() == Step(old(Current()), Event.Remove(ep))
    {
      samples := samples - {ep};
    }
  }
}
