/** The answer to a track query: a summary over all fixes and a thinned list for the map. */
module Tracks {
  import opened Common
  import opened Numerals

  const MIN_SEGMENT := 20.0
  const MAX_KMH := 200.0
  const IDLE_KMH := 3.0

  /** A stored fix: where, when in seconds, and what the tracker said of its speed and accuracy. */
  datatype Fix = Fix(lat: real, lon: real, at: real, speed: Option<real>, accuracy: Option<real>)

  /** Metres between two fixes; nothing is assumed of it. */
  type Metres = (Fix, Fix) -> real

  // ----- Summary -----

  /** Neither jitter of a parked vehicle nor a jump after a lost fix. */
  predicate Counts(a: Fix, b: Fix, metres: Metres) {
    var (seg, dt) := (metres(a, b), b.at - a.at);
    dt > 0.0 && seg >= MIN_SEGMENT && seg / dt * 3.6 <= MAX_KMH
  }

  function Distance(fixes: seq<Fix>, metres: Metres): real {
    var n := |fixes|;
    if n < 2 then 0.0 else
      Distance(fixes[..n - 1], metres)
      + if Counts(fixes[n - 2], fixes[n - 1], metres) then metres(fixes[n - 2], fixes[n - 1]) else 0.0
  }

  function MovingTime(fixes: seq<Fix>, metres: Metres): real {
    var n := |fixes|;
    if n < 2 then 0.0 else
      MovingTime(fixes[..n - 1], metres)
      + if Counts(fixes[n - 2], fixes[n - 1], metres) then fixes[n - 1].at - fixes[n - 2].at else 0.0
  }

  predicate TimeSorted(fixes: seq<Fix>) { forall i :: 0 < i < |fixes| ==> fixes[i - 1].at <= fixes[i].at }

  // ----- Speeds and accuracies -----

  /** The values that are known. */
  function Known(fixes: seq<Fix>, get: Fix -> Option<real>): seq<real> {
    if fixes == [] then [] else
      (if get(fixes[0]).Some? then [get(fixes[0]).value] else []) + Known(fixes[1..], get)
  }

  function Total(s: seq<real>): real { if s == [] then 0.0 else s[0] + Total(s[1..]) }

  function Max(s: seq<real>): (m: real)
    requires s != []
    ensures m in s && forall x <- s :: x <= m
  {
    if |s| == 1 then s[0] else
      var rest := Max(s[1..]);
      assert s == [s[0]] + s[1..];
      if s[0] > rest then s[0] else rest
  }

  function Mean(s: seq<real>): real
    requires s != []
  {
    Total(s) / |s| as real
  }

  lemma {:induction false} TotalBetween(s: seq<real>, lo: real, hi: real)
    requires forall i :: 0 <= i < |s| ==> lo <= s[i] <= hi
    ensures lo * |s| as real <= Total(s) <= hi * |s| as real
  {
    if s == [] {
    } else {
      TotalBetween(s[1..], lo, hi);
      assert lo * |s| as real == lo * |s[1..]| as real + lo && hi * |s| as real == hi * |s[1..]| as real + hi;
    }
  }

  lemma NotNegative(x: real, n: real)
    requires n > 0.0 && x * n >= 0.0
    ensures x >= 0.0
  {
  }

  lemma Divided(t: real, n: real, lo: real, hi: real)
    requires n > 0.0 && lo * n <= t <= hi * n
    ensures lo <= t / n <= hi
  {
    var q := t / n;
    assert q * n == t;
    assert (q - lo) * n == t - lo * n && (hi - q) * n == hi * n - t;
    NotNegative(q - lo, n);
    NotNegative(hi - q, n);
  }

  lemma MeanBetween(s: seq<real>, lo: real, hi: real)
    requires s != [] && forall x <- s :: lo <= x <= hi
    ensures lo <= Mean(s) <= hi
  {
    forall i | 0 <= i < |s| ensures lo <= s[i] <= hi {
      assert s[i] in s;
    }
    TotalBetween(s, lo, hi);
    Divided(Total(s), |s| as real, lo, hi);
  }

  function Speeds(fixes: seq<Fix>): seq<real> { Known(fixes, (f: Fix) => f.speed) }

  function MovingSpeeds(fixes: seq<Fix>): seq<real> { Filter(Speeds(fixes), (v: real) => v >= IDLE_KMH) }

  datatype Summary = Summary(points: nat, distance: real, moving: real, maxSpeed: Option<real>,
                             averageSpeed: Option<real>, averageAccuracy: Option<real>,
                             firstAt: Option<real>, lastAt: Option<real>)

  /** What the summary says of speeds: the largest known one, and the mean of those that are not idling,
      which lies between idling and the largest. */
  ghost predicate SpeedsTold(summary: Summary, fixes: seq<Fix>) {
    && (summary.maxSpeed.None? <==> Speeds(fixes) == [])
    && (summary.maxSpeed.Some? ==>
          summary.maxSpeed.value in Speeds(fixes) && forall v <- Speeds(fixes) :: v <= summary.maxSpeed.value)
    && (summary.averageSpeed.None? <==> forall v <- Speeds(fixes) :: v < IDLE_KMH)
    && (summary.averageSpeed.Some? ==>
          && MovingSpeeds(fixes) != [] && summary.averageSpeed.value == Mean(MovingSpeeds(fixes))
          && summary.maxSpeed.Some? && IDLE_KMH <= summary.averageSpeed.value <= summary.maxSpeed.value)
  }

  method TellSpeeds(fixes: seq<Fix>) returns (max: Option<real>, average: Option<real>)
    ensures SpeedsTold(Summary(0, 0.0, 0.0, max, average, None, None, None), fixes)
  {
    var speeds := Speeds(fixes);
    var moving := MovingSpeeds(fixes);
    FilterNonEmpty(speeds, (v: real) => v >= IDLE_KMH);
    FilterMembers(speeds, (v: real) => v >= IDLE_KMH);
    max := if speeds != [] then Some(Max(speeds)) else None;
    average := if moving != [] then Some(Mean(moving)) else None;
    if moving != [] {
      MeanBetween(moving, IDLE_KMH, Max(speeds));
    }
  }

  /** The whole summary, before rounding. */
  ghost predicate Summarizes(summary: Summary, fixes: seq<Fix>, metres: Metres) {
    && summary.points == |fixes|
    && summary.distance == Distance(fixes, metres)
    && summary.moving == MovingTime(fixes, metres)
    && SpeedsTold(summary, fixes)
    && (var known := Known(fixes, (f: Fix) => f.accuracy);
        summary.averageAccuracy == if known == [] then None else Some(Mean(known)))
    && summary.firstAt == (if fixes == [] then None else Some(fixes[0].at))
    && summary.lastAt == (if fixes == [] then None else Some(fixes[|fixes| - 1].at))
  }

  method TrackSummary(fixes: seq<Fix>, metres: Metres) returns (summary: Summary)
    ensures Summarizes(summary, fixes, metres)
  {
    var max, average := TellSpeeds(fixes);
    if fixes == [] {
      return Summary(0, 0.0, 0.0, max, average, None, None, None);
    }
    var (distance, moving) := (0.0, 0.0);
    for i := 1 to |fixes|
      invariant distance == Distance(fixes[..i], metres) && moving == MovingTime(fixes[..i], metres)
    {
      var (previous, current) := (fixes[i - 1], fixes[i]);
      var (seg, dt) := (metres(previous, current), current.at - previous.at);
      assert fixes[..i + 1][..i] == fixes[..i];
      if dt <= 0.0 || seg < MIN_SEGMENT || seg / dt * 3.6 > MAX_KMH {
        continue;
      }
      distance := distance + seg;
      moving := moving + dt;
    }
    assert fixes[..|fixes|] == fixes;
    var accuracies := Known(fixes, (f: Fix) => f.accuracy);
    return Summary(|fixes|, distance, moving, max, average, if accuracies == [] then None else Some(Mean(accuracies)),
                   Some(fixes[0].at), Some(fixes[|fixes| - 1].at));
  }

  /** No vehicle moves longer than its track lasts. */
  lemma {:induction false} MovingWithinTrack(fixes: seq<Fix>, metres: Metres)
    requires fixes != [] && TimeSorted(fixes)
    ensures 0.0 <= MovingTime(fixes, metres) <= fixes[|fixes| - 1].at - fixes[0].at
  {
    var n := |fixes|;
    if n >= 2 {
      MovingWithinTrack(fixes[..n - 1], metres);
    }
  }

  lemma SlowEnough(seg: real, dt: real)
    requires dt > 0.0 && seg / dt * 3.6 <= MAX_KMH
    ensures 3.6 * seg <= MAX_KMH * dt
  {
    var v := seg / dt;
    assert v * dt == seg;
    assert (MAX_KMH - v * 3.6) * dt >= 0.0;
  }

  /** Over the time it moved a vehicle never averages more than the speed taken for an outlier. */
  lemma {:induction false} NeverFasterThanOutliers(fixes: seq<Fix>, metres: Metres)
    ensures 3.6 * Distance(fixes, metres) <= MAX_KMH * MovingTime(fixes, metres)
  {
    var n := |fixes|;
    if n >= 2 {
      NeverFasterThanOutliers(fixes[..n - 1], metres);
      var (a, b) := (fixes[n - 2], fixes[n - 1]);
      if Counts(a, b, metres) {
        SlowEnough(metres(a, b), b.at - a.at);
      }
    }
  }

  /** Every metre counted was driven in a segment long enough to be one. */
  lemma {:induction false} NothingCountedStandsStill(fixes: seq<Fix>, metres: Metres)
    ensures Distance(fixes, metres) >= 0.0
    ensures MovingTime(fixes, metres) > 0.0 <==> Distance(fixes, metres) >= MIN_SEGMENT
    ensures MovingTime(fixes, metres) >= 0.0
  {
    if |fixes| >= 2 {
      NothingCountedStandsStill(fixes[..|fixes| - 1], metres);
    }
  }

  // ----- The summary, fix by fix -----

  /** A segment that took time, is at least 20 metres long and was driven at no more than 200 km/h. */
  predicate Driven(a: Fix, b: Fix, metres: Metres) {
    b.at - a.at > 0.0 && metres(a, b) >= 20.0 && 3.6 * metres(a, b) <= 200.0 * (b.at - a.at)
  }

  lemma FastEnough(seg: real, dt: real)
    requires dt > 0.0 && 3.6 * seg <= MAX_KMH * dt
    ensures seg / dt * 3.6 <= MAX_KMH
  {
    var v := seg / dt;
    assert v * dt == seg;
    assert (MAX_KMH - v * 3.6) * dt >= 0.0;
    NotNegative(MAX_KMH - v * 3.6, dt);
  }

  lemma CountsExactly(a: Fix, b: Fix, metres: Metres)
    ensures Counts(a, b, metres) <==> Driven(a, b, metres)
  {
    var (seg, dt) := (metres(a, b), b.at - a.at);
    if dt > 0.0 {
      if seg / dt * 3.6 <= MAX_KMH {
        SlowEnough(seg, dt);
      } else if 3.6 * seg <= MAX_KMH * dt {
        FastEnough(seg, dt);
      }
    }
  }

  lemma DistanceAppend(fixes: seq<Fix>, x: Fix, metres: Metres)
    requires fixes != []
    ensures var (last, driven) := (fixes[|fixes| - 1], Driven(fixes[|fixes| - 1], x, metres));
      && Distance(fixes + [x], metres) == Distance(fixes, metres) + (if driven then metres(last, x) else 0.0)
      && MovingTime(fixes + [x], metres) == MovingTime(fixes, metres) + (if driven then x.at - last.at else 0.0)
  {
    assert (fixes + [x])[..|fixes|] == fixes;
    CountsExactly(fixes[|fixes| - 1], x, metres);
  }

  /** The length of the whole line of fixes. */
  function Length(fixes: seq<Fix>, metres: Metres): real {
    if |fixes| < 2 then 0.0 else metres(fixes[0], fixes[1]) + Length(fixes[1..], metres)
  }

  lemma {:induction false} LengthAppend(fixes: seq<Fix>, x: Fix, metres: Metres)
    requires fixes != []
    ensures Length(fixes + [x], metres) == Length(fixes, metres) + metres(fixes[|fixes| - 1], x)
  {
    if |fixes| == 1 {
      assert (fixes + [x])[1..] == [x];
    } else {
      assert (fixes + [x])[1..] == fixes[1..] + [x];
      LengthAppend(fixes[1..], x, metres);
    }
  }

  /** A vehicle that drives all the way, no faster than an outlier, covers the whole line in the whole time. */
  lemma {:induction false} AllDrivenCounts(fixes: seq<Fix>, metres: Metres)
    requires fixes != [] && forall i :: 0 < i < |fixes| ==> Driven(fixes[i - 1], fixes[i], metres)
    ensures Distance(fixes, metres) == Length(fixes, metres)
    ensures MovingTime(fixes, metres) == fixes[|fixes| - 1].at - fixes[0].at
  {
    if |fixes| == 1 {
    } else {
      var (before, x) := (fixes[..|fixes| - 1], fixes[|fixes| - 1]);
      assert fixes == before + [x];
      AllDrivenCounts(before, metres);
      DistanceAppend(before, x, metres);
      LengthAppend(before, x, metres);
    }
  }

  lemma {:induction false} KnownAppend(fixes: seq<Fix>, x: Fix, get: Fix -> Option<real>)
    ensures Known(fixes + [x], get) == Known(fixes, get) + if get(x).Some? then [get(x).value] else []
  {
    var more := fixes + [x];
    if fixes == [] {
      assert more[1..] == [];
    } else {
      var rest := fixes[1..];
      assert more[1..] == rest + [x] && more[0] == fixes[0];
      KnownAppend(rest, x, get);
      var head := if get(fixes[0]).Some? then [get(fixes[0]).value] else [];
      assert Known(more, get) == head + Known(rest + [x], get) && Known(fixes, get) == head + Known(rest, get);
    }
  }

  lemma {:induction false} TotalAppend(s: seq<real>, x: real)
    ensures Total(s + [x]) == Total(s) + x
  {
    if s == [] {
      assert [x][1..] == [];
    } else {
      assert (s + [x])[1..] == s[1..] + [x];
      TotalAppend(s[1..], x);
    }
  }

  /** A mean of so many values, none when there are none. */
  predicate MeanOf(mean: Option<real>, s: seq<real>) { mean == if s == [] then None else Some(Mean(s)) }

  /** One value more: the mean times the number of values grows by it. */
  predicate MeanGrows(before: Option<real>, n: nat, x: real, after: Option<real>) {
    after.Some? && after.value * (n + 1) as real == (if before.Some? then before.value * n as real else 0.0) + x
  }

  lemma MeanTimesCount(s: seq<real>)
    requires s != []
    ensures Mean(s) * |s| as real == Total(s)
  {
  }

  lemma MeanAppend(s: seq<real>, x: real, before: Option<real>, after: Option<real>)
    requires MeanOf(before, s) && MeanOf(after, s + [x])
    ensures MeanGrows(before, |s|, x, after)
  {
    TotalAppend(s, x);
    MeanTimesCount(s + [x]);
    if s != [] {
      MeanTimesCount(s);
    }
  }

  /** How many fixes have a known speed of at least 3 km/h, and how many a known accuracy. */
  function NotIdling(fixes: seq<Fix>): nat {
    if fixes == [] then 0 else
      var x := fixes[|fixes| - 1];
      NotIdling(fixes[..|fixes| - 1]) + if x.speed.Some? && x.speed.value >= 3.0 then 1 else 0
  }

  function Gauged(fixes: seq<Fix>): nat {
    if fixes == [] then 0 else
      Gauged(fixes[..|fixes| - 1]) + if fixes[|fixes| - 1].accuracy.Some? then 1 else 0
  }

  lemma MovingSpeedsAppend(fixes: seq<Fix>, x: Fix)
    ensures Speeds(fixes + [x]) == Speeds(fixes) + if x.speed.Some? then [x.speed.value] else []
    ensures MovingSpeeds(fixes + [x])
      == MovingSpeeds(fixes) + if x.speed.Some? && x.speed.value >= 3.0 then [x.speed.value] else []
  {
    KnownAppend(fixes, x, (f: Fix) => f.speed);
    if x.speed.Some? {
      FilterAppend(Speeds(fixes), x.speed.value, (v: real) => v >= IDLE_KMH);
    } else {
      assert Speeds(fixes) + [] == Speeds(fixes) && MovingSpeeds(fixes) + [] == MovingSpeeds(fixes);
    }
  }

  lemma {:induction false} CountsOfKnown(fixes: seq<Fix>)
    ensures |MovingSpeeds(fixes)| == NotIdling(fixes) && |Known(fixes, (f: Fix) => f.accuracy)| == Gauged(fixes)
  {
    if fixes == [] {
    } else {
      var (before, x) := (fixes[..|fixes| - 1], fixes[|fixes| - 1]);
      assert fixes == before + [x];
      CountsOfKnown(before);
      MovingSpeedsAppend(before, x);
      KnownAppend(before, x, (f: Fix) => f.accuracy);
    }
  }

  /** The larger of what is known. */
  function Larger(m: Option<real>, x: real): Option<real> {
    if m.Some? && m.value >= x then m else Some(x)
  }

  /** The largest of some values, none when there are none. */
  predicate MaxOf(max: Option<real>, s: seq<real>) {
    && (max.None? <==> s == [])
    && (max.Some? ==> max.value in s && forall v <- s :: v <= max.value)
  }

  lemma MaxSame(s: seq<real>, a: Option<real>, b: Option<real>)
    requires MaxOf(a, s) && MaxOf(b, s)
    ensures a == b
  {
    if a.Some? {
      assert a.value <= b.value && b.value <= a.value;
    }
  }

  lemma MaxAppend(s: seq<real>, x: real, before: Option<real>, after: Option<real>)
    requires MaxOf(before, s) && MaxOf(after, s + [x])
    ensures after == Larger(before, x)
  {
    assert x in s + [x];
    if before.Some? {
      assert before.value in s + [x];
    }
  }

  lemma MaxOfOneMore(fixes: seq<Fix>, x: Fix, before: Option<real>, after: Option<real>)
    requires MaxOf(before, Speeds(fixes)) && MaxOf(after, Speeds(fixes + [x]))
    ensures after == if x.speed.Some? then Larger(before, x.speed.value) else before
  {
    MovingSpeedsAppend(fixes, x);
    if x.speed.Some? {
      MaxAppend(Speeds(fixes), x.speed.value, before, after);
    } else {
      assert Speeds(fixes) + [] == Speeds(fixes);
      MaxSame(Speeds(fixes), before, after);
    }
  }

  lemma AverageOfOneMore(fixes: seq<Fix>, x: Fix, before: Option<real>, after: Option<real>)
    requires MeanOf(before, MovingSpeeds(fixes)) && MeanOf(after, MovingSpeeds(fixes + [x]))
    ensures if x.speed.Some? && x.speed.value >= 3.0 then MeanGrows(before, NotIdling(fixes), x.speed.value, after)
            else after == before
  {
    MovingSpeedsAppend(fixes, x);
    CountsOfKnown(fixes);
    if x.speed.Some? && x.speed.value >= 3.0 {
      MeanAppend(MovingSpeeds(fixes), x.speed.value, before, after);
    } else {
      assert MovingSpeeds(fixes) + [] == MovingSpeeds(fixes);
    }
  }

  lemma AccuracyOfOneMore(fixes: seq<Fix>, x: Fix, before: Option<real>, after: Option<real>)
    requires MeanOf(before, Known(fixes, (f: Fix) => f.accuracy))
    requires MeanOf(after, Known(fixes + [x], (f: Fix) => f.accuracy))
    ensures if x.accuracy.Some? then MeanGrows(before, Gauged(fixes), x.accuracy.value, after) else after == before
  {
    KnownAppend(fixes, x, (f: Fix) => f.accuracy);
    CountsOfKnown(fixes);
    var accuracies := Known(fixes, (f: Fix) => f.accuracy);
    if x.accuracy.Some? {
      MeanAppend(accuracies, x.accuracy.value, before, after);
    } else {
      assert accuracies + [] == accuracies;
    }
  }

  lemma IdlingOrNot(summary: Summary, fixes: seq<Fix>)
    requires SpeedsTold(summary, fixes)
    ensures MeanOf(summary.averageSpeed, MovingSpeeds(fixes))
  {
    FilterNonEmpty(Speeds(fixes), (v: real) => v >= IDLE_KMH);
  }

  /** One fix more in a summary: its segment and time if it was driven, its speed if that is the largest or not
      idling, its accuracy if known. */
  lemma SummaryOfOneMore(fixes: seq<Fix>, x: Fix, metres: Metres, before: Summary, after: Summary)
    requires Summarizes(before, fixes, metres) && Summarizes(after, fixes + [x], metres)
    ensures var last := if fixes == [] then x else fixes[|fixes| - 1];
      var driven := fixes != [] && Driven(last, x, metres);
      && after.points == before.points + 1
      && after.distance == before.distance + (if driven then metres(last, x) else 0.0)
      && after.moving == before.moving + (if driven then x.at - last.at else 0.0)
      && after.maxSpeed == (if x.speed.Some? then Larger(before.maxSpeed, x.speed.value) else before.maxSpeed)
      && (if x.speed.Some? && x.speed.value >= 3.0
          then MeanGrows(before.averageSpeed, NotIdling(fixes), x.speed.value, after.averageSpeed)
          else after.averageSpeed == before.averageSpeed)
      && (if x.accuracy.Some?
          then MeanGrows(before.averageAccuracy, Gauged(fixes), x.accuracy.value, after.averageAccuracy)
          else after.averageAccuracy == before.averageAccuracy)
      && after.firstAt == (if fixes == [] then Some(x.at) else before.firstAt) && after.lastAt == Some(x.at)
  {
    if fixes != [] {
      DistanceAppend(fixes, x, metres);
    }
    MaxOfOneMore(fixes, x, before.maxSpeed, after.maxSpeed);
    IdlingOrNot(before, fixes);
    IdlingOrNot(after, fixes + [x]);
    AverageOfOneMore(fixes, x, before.averageSpeed, after.averageSpeed);
    AccuracyOfOneMore(fixes, x, before.averageAccuracy, after.averageAccuracy);
  }

  lemma SummaryOfNone(metres: Metres, summary: Summary)
    requires Summarizes(summary, [], metres)
    ensures summary == Summary(0, 0.0, 0.0, None, None, None, None, None)
  {
  }

  // ----- Thinning -----

  /** Where the kth shown fix is taken from: k * (n - 1) / (max - 1), rounded half to even. */
  function Index(k: nat, n: nat, max: nat): (i: nat)
    requires 2 <= max < n && k < max
    ensures i < n
  {
    Monotone(k, max - 1, n - 1);
    HalfEvenBound(k * (n - 1), max - 1, n - 1);
    HalfEven(k * (n - 1), max - 1)
  }

  function Downsample<T>(points: seq<T>, max: int): seq<T> {
    var n := |points|;
    if max < 2 || n <= max then points else
      var picked := seq(max, k requires 0 <= k < max => points[Index(k, n, max)]);
      picked[max - 1 := points[n - 1]]
  }

  lemma IndexNearest(k: nat, n: nat, max: nat, even: nat)
    requires 2 <= max < n && k < max && even == k * (n - 1)
    ensures Nearest(Index(k, n, max), even, max - 1)
  {
    HalfEvenNearest(even, max - 1);
  }

  lemma Apart(a: int, b: int, d: nat, x: int, y: int)
    requires Nearest(a, x, d) && Nearest(b, y, d) && y - x > d
    ensures a < b
  {
    assert b * d - a * d == (b - a) * d;
    PositiveFactor(b - a, d);
  }

  lemma PositiveFactor(x: int, d: nat)
    requires x * d > 0
    ensures x > 0
  {
  }

  lemma Spread(j: nat, k: nat, w: nat)
    requires j < k
    ensures k * w >= j * w + w
  {
    Monotone(j + 1, k, w);
    assert (j + 1) * w == j * w + w;
  }

  lemma IndexIncreasing(j: nat, k: nat, n: nat, max: nat)
    requires 2 <= max < n && j < k < max
    ensures Index(j, n, max) < Index(k, n, max)
  {
    Spread(j, k, n - 1);
    var (x, y) := (j * (n - 1), k * (n - 1));
    IndexNearest(j, n, max, x);
    IndexNearest(k, n, max, y);
    Apart(Index(j, n, max), Index(k, n, max), max - 1, x, y);
  }

  lemma IndexEnds(n: nat, max: nat)
    requires 2 <= max < n
    ensures Index(0, n, max) == 0 && Index(max - 1, n, max) == n - 1
  {
    assert 0 * (n - 1) == 0;
    Remainder((max - 1) * (n - 1), max - 1, n - 1, 0);
  }

  /** Thinning keeps the order and both ends, takes no fix twice, fills the list, and takes every fix from
      within half a place of where even spacing would. */
  lemma ThinnedEvenly<T>(points: seq<T>, max: nat)
    requires 2 <= max < |points|
    ensures |Downsample(points, max)| == max
    ensures forall k: nat | k < max :: Downsample(points, max)[k] == points[Index(k, |points|, max)]
    ensures forall j: nat, k: nat | j < k < max :: Index(j, |points|, max) < Index(k, |points|, max)
    ensures Downsample(points, max)[0] == points[0] && Downsample(points, max)[max - 1] == points[|points| - 1]
    ensures forall k: nat | k < max :: Nearest(Index(k, |points|, max), k * (|points| - 1), max - 1)
  {
    var n := |points|;
    IndexEnds(n, max);
    forall j: nat, k: nat | j < k < max ensures Index(j, n, max) < Index(k, n, max) {
      IndexIncreasing(j, k, n, max);
    }
    forall k: nat | k < max ensures Nearest(Index(k, n, max), k * (n - 1), max - 1) {
      IndexNearest(k, n, max, k * (n - 1));
    }
  }

  /** The shown list is taken from these places, in order and none twice. */
  predicate TakenFrom<T(==)>(shown: seq<T>, points: seq<T>, places: seq<nat>) {
    && |places| == |shown|
    && (forall k :: 0 <= k < |places| ==> places[k] < |points| && shown[k] == points[places[k]])
    && (forall j, k :: 0 <= j < k < |places| ==> places[j] < places[k])
  }

  /** Each place is within a half of where even spacing would put it. */
  predicate EvenlySpaced(places: seq<nat>, n: nat, max: nat) {
    n > 0 && max > 0 && forall k :: 0 <= k < |places| ==> Nearest(places[k], k * (n - 1), max - 1)
  }

  lemma ShownInOrder<T>(points: seq<T>, max: int) returns (places: seq<nat>)
    ensures TakenFrom(Downsample(points, max), points, places)
    ensures 2 <= max < |points| ==> EvenlySpaced(places, |points|, max)
  {
    if max < 2 || |points| <= max {
      places := seq(|points|, (k: nat) => k);
    } else {
      ThinnedEvenly(points, max);
      places := seq(max, (k: nat) requires k < max => Index(k, |points|, max));
    }
  }

  lemma ShownFromEndToEnd<T>(points: seq<T>, max: int)
    ensures var shown := Downsample(points, max);
      && |shown| == (if max < 2 || |points| <= max then |points| else max)
      && (points != [] ==> shown != [] && shown[0] == points[0] && shown[|shown| - 1] == points[|points| - 1])
  {
    if max >= 2 && |points| > max {
      ThinnedEvenly(points, max);
    }
  }

  /** The answer to a track query: at most max fixes (all, when max is no sensible limit), in order, from the
      first to the last, and a summary of them all, whose figures do not depend on how many are shown. */
  method GetTrack(fixes: seq<Fix>, max: int, metres: Metres) returns (shown: seq<Fix>, summary: Summary)
    ensures |shown| == if max < 2 || |fixes| <= max then |fixes| else max
    ensures exists places ::
              TakenFrom(shown, fixes, places) && (2 <= max < |fixes| ==> EvenlySpaced(places, |fixes|, max))
    ensures fixes != [] ==> shown != [] && shown[0] == fixes[0] && shown[|shown| - 1] == fixes[|fixes| - 1]
    ensures Summarizes(summary, fixes, metres)
    ensures 3.6 * summary.distance <= MAX_KMH * summary.moving
    ensures fixes != [] && TimeSorted(fixes) ==> 0.0 <= summary.moving <= summary.lastAt.value - summary.firstAt.value
  {
    summary := TrackSummary(fixes, metres);
    NeverFasterThanOutliers(fixes, metres);
    if fixes != [] && TimeSorted(fixes) {
      MovingWithinTrack(fixes, metres);
    }
    shown := Downsample(fixes, max);
    ghost var places := ShownInOrder(fixes, max);
    ShownFromEndToEnd(fixes, max);
  }
}
