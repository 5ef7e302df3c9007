// Hourly usage of catalog deployments from returned metric series, and the
// sizing that consumes it after checking its numbers again.
module UsageMetrics {
  import opened Wrappers
  import opened Filters

  const HOUR := 3_600_000_000
  const MAX_NUMBER := 0x1F_FFFF_FFFF_FFFF
  const MAX_SERIES := 256
  const MAX_POINTS := 168
  const MAX_TOTAL_POINTS := 200_000

  type Name = string
  type Code = string

  // Whole hours, in microseconds; the end is exclusive.
  datatype Window = Window(start: int, hours: nat) {
    ghost predicate Valid() { start % HOUR == 0 && 1 <= hours <= MAX_POINTS }

    function At(k: int): int { start + k * HOUR }

    function End(): int { At(hours) }
  }

  // `total` is missing, a number as the source of numbers demands it, or
  // anything else.
  datatype Reading = Missing | Count(n: int) | NotANumber

  datatype Point = Point(stamp: int, total: Reading)

  // One returned series: unreadable dimensions, or the deployment and the rest
  // of its identity, whether that is the live model, and its points.
  datatype Series =
    | Malformed
    | Series(name: Name, key: string, modelMatches: bool, points: seq<Point>)

  function Number(n: int): Result<int, Code> {
    if 0 <= n <= MAX_NUMBER then Ok(n) else Err("invalid_numeric_value")
  }

  class PointBudget {
    var remaining: nat

    constructor ()
      ensures remaining == MAX_TOTAL_POINTS
    {
      remaining := MAX_TOTAL_POINTS;
    }

    method Consume(count: nat) returns (ok: bool)
      modifies this
      ensures ok <==> count <= old(remaining)
      ensures remaining == if ok then old(remaining) - count else old(remaining)
    {
      ok := count <= remaining;
      if ok {
        remaining := remaining - count;
      }
    }
  }

  // ----- Hours of the window

  function Get(m: map<int, int>, stamp: int): int {
    if stamp in m then m[stamp] else 0
  }

  function SumHours(m: map<int, int>, w: Window, n: nat): int {
    if n == 0 then 0 else SumHours(m, w, n - 1) + Get(m, w.At(n - 1))
  }

  function Max(a: int, b: int): int { if a < b then b else a }

  function PeakHour(m: map<int, int>, w: Window, n: nat): int {
    if n == 0 then 0 else Max(PeakHour(m, w, n - 1), Get(m, w.At(n - 1)))
  }

  // The earliest and latest stamps kept, when there are any.
  function FirstHour(m: map<int, int>, w: Window, k: nat): int
    requires k <= w.hours
    decreases w.hours - k
  {
    if k == w.hours || w.At(k) in m then w.At(k) else FirstHour(m, w, k + 1)
  }

  function LastHour(m: map<int, int>, w: Window, n: nat): int {
    if n == 0 || w.At(n - 1) in m then w.At(n - 1) else LastHour(m, w, n - 1)
  }

  ghost predicate InWindow(stamp: int, w: Window) {
    stamp % HOUR == 0 && w.start <= stamp < w.End()
  }

  ghost function Hours(w: Window, n: nat): (s: set<int>)
    ensures |s| == n
    ensures forall h :: h in s <==> exists k :: 0 <= k < n && h == w.At(k)
  {
    if n == 0 then {} else Hours(w, n - 1) + {w.At(n - 1)}
  }

  lemma StampIsHour(stamp: int, w: Window)
    requires w.Valid() && InWindow(stamp, w)
    ensures stamp in AllHours(w)
  {
    var k := (stamp - w.start) / HOUR;
    assert stamp == w.At(k);
  }

  ghost function AllHours(w: Window): set<int> { Hours(w, w.hours) }

  // Distinct hour stamps, as many as the window has hours, are all of them.
  lemma Pigeonhole(stamps: set<int>, w: Window)
    requires stamps <= AllHours(w) && |stamps| == w.hours
    ensures stamps == AllHours(w)
  {
    assert |AllHours(w) - stamps| == 0;
  }

  lemma {:induction false} SumOne(m: map<int, int>, w: Window, n: nat, k: nat, extra: int)
    ensures SumHours(m[w.At(k) := Get(m, w.At(k)) + extra], w, n) == SumHours(m, w, n) + if k < n then extra else 0
  {
    if n > 0 {
      SumOne(m, w, n - 1, k, extra);
    }
  }

  ghost predicate NonNegative(m: map<int, int>) {
    forall h :: h in m ==> m[h] >= 0
  }

  lemma {:induction false} PeakBounds(m: map<int, int>, w: Window, n: nat)
    requires NonNegative(m)
    ensures 0 <= PeakHour(m, w, n) <= SumHours(m, w, n) <= Times(n, PeakHour(m, w, n))
  {
    if n > 0 {
      PeakBounds(m, w, n - 1);
      TimesMonotone(n - 1, PeakHour(m, w, n - 1), PeakHour(m, w, n));
    }
  }

  // `n` times `x`, by repeated addition.
  function Times(n: nat, x: int): int {
    if n == 0 then 0 else Times(n - 1, x) + x
  }

  lemma {:induction false} TimesIsProduct(n: nat, x: int)
    ensures Times(n, x) == n * x
  {
    if n > 0 {
      TimesIsProduct(n - 1, x);
    }
  }

  lemma {:induction false} TimesMonotone(n: nat, x: int, y: int)
    requires x <= y
    ensures Times(n, x) <= Times(n, y)
  {
    if n > 0 {
      TimesMonotone(n - 1, x, y);
    }
  }

  // The peak is one of the hours, and no hour exceeds it.
  lemma {:induction false} PeakIsMaximum(m: map<int, int>, w: Window, n: nat)
    requires NonNegative(m) && n > 0
    ensures forall k :: 0 <= k < n ==> Get(m, w.At(k)) <= PeakHour(m, w, n)
    ensures exists k :: 0 <= k < n && Get(m, w.At(k)) == PeakHour(m, w, n)
  {
    assert n == 1 ==> PeakHour(m, w, 0) == 0;
    if n > 1 {
      PeakIsMaximum(m, w, n - 1);
    }
    assert Get(m, w.At(n - 1)) <= PeakHour(m, w, n);
  }

  // ----- What the returned series add up to

  function PointsAt(points: seq<Point>, stamp: int): int {
    if points == [] then 0
    else
      var p := points[|points|-1];
      PointsAt(points[..|points|-1], stamp) + if p.stamp == stamp && p.total.Count? then p.total.n else 0
  }

  // One deployment's count in one hour, over all its series.
  function Column(entries: seq<Series>, name: Name, stamp: int): int {
    if entries == [] then 0
    else
      var e := entries[|entries|-1];
      Column(entries[..|entries|-1], name, stamp) + if e.Series? && e.name == name then PointsAt(e.points, stamp) else 0
  }

  function SeriesCount(entries: seq<Series>, name: Name): nat {
    if entries == [] then 0
    else
      var e := entries[|entries|-1];
      SeriesCount(entries[..|entries|-1], name) + if e.Series? && e.name == name then 1 else 0
  }

  // ----- Accumulation

  datatype Acc = Acc(buckets: map<int, int>, samples: nat, zeros: nat, series: nat, codes: set<Code>)

  const EMPTY := Acc(map[], 0, 0, 0, {})

  // Whatever has gone wrong, the sample counts agree with the buckets.
  ghost predicate Tallied(acc: Acc, w: Window) {
    && acc.buckets.Keys <= AllHours(w) && NonNegative(acc.buckets)
    && (forall h :: h in acc.buckets ==> acc.buckets[h] <= MAX_NUMBER)
    && acc.zeros <= acc.samples
    && (acc.zeros == acc.samples <==> SumHours(acc.buckets, w, w.hours) == 0)
  }

  // And when nothing has, every series covered every hour.
  ghost predicate Covered(acc: Acc, w: Window, entries: seq<Series>, name: Name) {
    acc.codes == {} ==>
      && acc.series == SeriesCount(entries, name)
      && acc.samples == Times(acc.series, w.hours)
      && acc.buckets.Keys == (if acc.series > 0 then AllHours(w) else {})
      && Columns(acc, w, entries, name)
  }

  datatype Sample = Sample(stamp: int, total: int)

  ghost function Stamps(valid: seq<Sample>): set<int> {
    set s | s in valid :: s.stamp
  }

  function SamplesAt(valid: seq<Sample>, stamp: int): int {
    if valid == [] then 0
    else
      var s := valid[|valid|-1];
      SamplesAt(valid[..|valid|-1], stamp) + if s.stamp == stamp then s.total else 0
  }

  ghost predicate GoodSamples(valid: seq<Sample>, w: Window) {
    && (forall s :: s in valid ==> 0 <= s.total <= MAX_NUMBER)
    && Stamps(valid) <= AllHours(w)
    && |Stamps(valid)| == |valid|
  }

  lemma SampleAppend(valid: seq<Sample>, s: Sample)
    ensures Stamps(valid + [s]) == Stamps(valid) + {s.stamp}
    ensures forall h :: SamplesAt(valid + [s], h) == SamplesAt(valid, h) + if s.stamp == h then s.total else 0
  {
    assert (valid + [s])[..|valid|] == valid;
  }

  ghost function StampsOf(points: seq<Point>): set<int> {
    set p | p in points :: p.stamp
  }

  // The count a point carries, if any, or why the whole series is refused.
  function ReadPoint(p: Point, w: Window, seen: set<int>): Result<Option<int>, Code> {
    if p.stamp % HOUR != 0 || !(w.start <= p.stamp < w.End()) then Err("metric_sample_out_of_window")
    else if p.stamp in seen then Err("duplicate_metric_sample")
    else
      match p.total
      case Missing => Ok(None)
      case NotANumber => Err("invalid_numeric_value")
      case Count(n) => var total :- Number(n); Ok(Some(total))
  }

  // Every point is in the window, at an hour of its own, with a proper count or
  // none.
  ghost predicate Proper(points: seq<Point>, w: Window) {
    && (forall i :: 0 <= i < |points| ==> InWindow(points[i].stamp, w) && !points[i].total.NotANumber?)
    && (forall i :: 0 <= i < |points| && points[i].total.Count? ==> 0 <= points[i].total.n <= MAX_NUMBER)
    && (forall i, j :: 0 <= i < j < |points| ==> points[i].stamp != points[j].stamp)
  }

  // And has a count for every hour.
  ghost predicate Complete(points: seq<Point>, w: Window) {
    && Proper(points, w) && |points| == w.hours
    && forall i :: 0 <= i < |points| ==> points[i].total.Count?
  }

  lemma ProperOneMore(points: seq<Point>, p: Point, w: Window)
    requires Proper(points, w)
    ensures Proper(points + [p], w) <==> ReadPoint(p, w, StampsOf(points)).Ok?
    ensures StampsOf(points + [p]) == StampsOf(points) + {p.stamp}
  {
    var more := points + [p];
    assert more[|points|] == p && forall i :: 0 <= i < |points| ==> more[i] == points[i];
    assert forall i :: 0 <= i < |points| ==> points[i] in points;
    if p.stamp in StampsOf(points) {
      var i :| 0 <= i < |points| && points[i].stamp == p.stamp;
      assert more[i].stamp == more[|points|].stamp;
    }
  }

  lemma ImproperStays(points: seq<Point>, i: nat, w: Window)
    requires i <= |points| && !Proper(points[..i], w)
    ensures !Proper(points, w)
  {
    assert forall k :: 0 <= k < i ==> points[..i][k] == points[k];
  }

  lemma {:induction false} StampsCount(points: seq<Point>, w: Window)
    requires Proper(points, w)
    ensures |StampsOf(points)| == |points|
  {
    if points != [] {
      var prefix, p := points[..|points|-1], points[|points|-1];
      assert points == prefix + [p];
      StampsCount(prefix, w);
      ProperOneMore(prefix, p, w);
    }
  }

  lemma AtMostHours(points: seq<Point>, w: Window)
    requires w.Valid() && Proper(points, w)
    ensures |points| <= w.hours
  {
    StampsCount(points, w);
    forall h | h in StampsOf(points) ensures h in AllHours(w) {
      StampIsHour(h, w);
    }
    SubsetSize(StampsOf(points), AllHours(w));
  }

  // The samples kept of the points.
  ghost predicate Reads(valid: seq<Sample>, points: seq<Point>, w: Window) {
    && GoodSamples(valid, w) && Stamps(valid) <= StampsOf(points)
    && (forall h :: SamplesAt(valid, h) == PointsAt(points, h))
    && |valid| == Counts(points)
  }

  function Counts(points: seq<Point>): nat {
    if points == [] then 0
    else Counts(points[..|points|-1]) + if points[|points|-1].total.Count? then 1 else 0
  }

  lemma {:induction false} AllCounted(points: seq<Point>)
    ensures Counts(points) <= |points|
    ensures Counts(points) == |points| <==> forall i :: 0 <= i < |points| ==> points[i].total.Count?
  {
    if points != [] {
      AllCounted(points[..|points|-1]);
      assert points == points[..|points|-1] + [points[|points|-1]];
    }
  }

  lemma PointsOneMore(points: seq<Point>, p: Point)
    ensures StampsOf(points + [p]) == StampsOf(points) + {p.stamp}
    ensures Counts(points + [p]) == Counts(points) + if p.total.Count? then 1 else 0
    ensures forall h :: PointsAt(points + [p], h)
                     == PointsAt(points, h) + if p.stamp == h && p.total.Count? then p.total.n else 0
  {
    assert (points + [p])[..|points|] == points && (points + [p])[|points|] == p;
    assert forall i :: 0 <= i < |points| ==> (points + [p])[i] == points[i];
  }

  lemma GoodOneMore(valid: seq<Sample>, s: Sample, w: Window)
    requires GoodSamples(valid, w) && 0 <= s.total <= MAX_NUMBER && s.stamp in AllHours(w) && s.stamp !in Stamps(valid)
    ensures GoodSamples(valid + [s], w)
  {
    SampleAppend(valid, s);
  }

  lemma ReadsMissing(valid: seq<Sample>, points: seq<Point>, p: Point, w: Window)
    requires Reads(valid, points, w) && !p.total.Count?
    ensures Reads(valid, points + [p], w)
  {
    PointsOneMore(points, p);
  }

  lemma ReadsOneMore(valid: seq<Sample>, points: seq<Point>, p: Point, w: Window)
    requires Reads(valid, points, w) && p.total.Count? && 0 <= p.total.n <= MAX_NUMBER
    requires p.stamp in AllHours(w) && p.stamp !in StampsOf(points)
    ensures Reads(valid + [Sample(p.stamp, p.total.n)], points + [p], w)
  {
    var s := Sample(p.stamp, p.total.n);
    PointsOneMore(points, p);
    GoodOneMore(valid, s, w);
    SampleAppend(valid, s);
    assert Stamps(valid + [s]) <= StampsOf(points + [p]);
  }

  // One series' points: each hour at most once, inside the window, with a
  // proper count or none.
  method ReadPoints(points: seq<Point>, w: Window) returns (r: Result<seq<Sample>, Code>)
    requires w.Valid()
    ensures r.Ok? <==> Proper(points, w)
    ensures r.Ok? ==> GoodSamples(r.value, w) && forall h :: SamplesAt(r.value, h) == PointsAt(points, h)
    ensures r.Ok? ==> (|r.value| == w.hours <==> Complete(points, w))
  {
    var seen: set<int> := {};
    var valid: seq<Sample> := [];
    for i := 0 to |points|
      invariant Proper(points[..i], w) && Reads(valid, points[..i], w) && seen == StampsOf(points[..i])
    {
      assert points[..i+1] == points[..i] + [points[i]];
      ProperOneMore(points[..i], points[i], w);
      var count := ReadPoint(points[i], w, seen);
      if count.Err? {
        ImproperStays(points, i + 1, w);
        return Err(count.error);
      }
      seen := seen + {points[i].stamp};
      if count.value.Some? {
        StampIsHour(points[i].stamp, w);
        ReadsOneMore(valid, points[..i], points[i], w);
        valid := valid + [Sample(points[i].stamp, count.value.value)];
      } else {
        ReadsMissing(valid, points[..i], points[i], w);
      }
    }
    assert points[..|points|] == points;
    AtMostHours(points, w);
    AllCounted(points);
    return Ok(valid);
  }

  function AddSample(acc: Acc, s: Sample): Acc {
    acc.(buckets := acc.buckets[s.stamp := Get(acc.buckets, s.stamp) + s.total], samples := acc.samples + 1,
         zeros := acc.zeros + if s.total == 0 then 1 else 0)
  }

  lemma AddOne(acc: Acc, s: Sample, w: Window)
    requires Tallied(acc, w) && s.stamp in AllHours(w) && 0 <= s.total
    requires Get(acc.buckets, s.stamp) + s.total <= MAX_NUMBER
    ensures Tallied(AddSample(acc, s), w)
  {
    var k :| 0 <= k < w.hours && s.stamp == w.At(k);
    SumOne(acc.buckets, w, w.hours, k, s.total);
    PeakBounds(acc.buckets, w, w.hours);
  }

  // What adding some samples does to the counts and to every hour.
  ghost predicate Added(acc: Acc, after: Acc, valid: seq<Sample>) {
    && after.series == acc.series && after.codes == acc.codes
    && after.samples == acc.samples + |valid|
    && after.buckets.Keys == acc.buckets.Keys + Stamps(valid)
    && forall h :: Get(after.buckets, h) == Get(acc.buckets, h) + SamplesAt(valid, h)
  }

  lemma AddedOne(acc: Acc, after: Acc, valid: seq<Sample>, s: Sample)
    requires Added(acc, after, valid)
    ensures Added(acc, AddSample(after, s), valid + [s])
  {
    SampleAppend(valid, s);
  }

  // No hour overflows when these samples are added.
  ghost predicate Fits(acc: Acc, valid: seq<Sample>) {
    forall h :: Get(acc.buckets, h) + SamplesAt(valid, h) <= MAX_NUMBER
  }

  lemma {:induction false} SamplesGrow(valid: seq<Sample>, i: nat, h: int)
    requires i <= |valid| && forall s :: s in valid ==> s.total >= 0
    ensures 0 <= SamplesAt(valid[..i], h) <= SamplesAt(valid, h)
  {
    if i == |valid| {
      assert valid[..i] == valid;
      if valid != [] {
        SamplesGrow(valid[..i-1], i - 1, h);
        assert valid[..i-1][..i-1] == valid[..i-1];
      }
    } else {
      assert valid[..|valid|-1][..i] == valid[..i];
      SamplesGrow(valid[..|valid|-1], i, h);
    }
  }

  lemma Overflows(acc: Acc, after: Acc, valid: seq<Sample>, i: nat)
    requires i < |valid| && (forall s :: s in valid ==> s.total >= 0) && Added(acc, after, valid[..i])
    requires Get(after.buckets, valid[i].stamp) + valid[i].total > MAX_NUMBER
    ensures !Fits(acc, valid)
  {
    var h := valid[i].stamp;
    assert valid[..i+1] == valid[..i] + [valid[i]];
    SampleAppend(valid[..i], valid[i]);
    SamplesGrow(valid, i + 1, h);
    assert Get(acc.buckets, h) + SamplesAt(valid, h) > MAX_NUMBER;
  }

  // Adds the samples one by one; an overflowing hour stops it part way.
  method AddSamples(acc: Acc, valid: seq<Sample>, w: Window) returns (after: Acc, error: Option<Code>)
    requires Tallied(acc, w) && GoodSamples(valid, w)
    ensures Tallied(after, w)
    ensures after.series == acc.series && after.codes == acc.codes
    ensures error.None? ==> Added(acc, after, valid)
    ensures error.None? <==> Fits(acc, valid)
  {
    after, error := acc, None;
    for i := 0 to |valid|
      invariant Tallied(after, w) && Added(acc, after, valid[..i])
    {
      assert valid[i] in valid && valid[i].stamp in Stamps(valid);
      var next := NextSample(after, valid[i], w, acc, valid[..i]);
      if next.Err? {
        Overflows(acc, after, valid, i);
        return after, Some(next.error);
      }
      assert valid[..i+1] == valid[..i] + [valid[i]];
      after := next.value;
    }
    assert valid[..|valid|] == valid;
    AllFit(acc, after, valid, w);
  }

  lemma AllFit(acc: Acc, after: Acc, valid: seq<Sample>, w: Window)
    requires Tallied(after, w) && Added(acc, after, valid)
    ensures Fits(acc, valid)
  {
    forall h ensures Get(acc.buckets, h) + SamplesAt(valid, h) <= MAX_NUMBER {
      assert Get(after.buckets, h) <= MAX_NUMBER;
    }
  }

  method NextSample(after: Acc, s: Sample, w: Window, ghost acc: Acc, ghost valid: seq<Sample>)
    returns (r: Result<Acc, Code>)
    requires Tallied(after, w) && Added(acc, after, valid) && s.stamp in AllHours(w) && 0 <= s.total
    ensures r.Ok? ==> Tallied(r.value, w) && Added(acc, r.value, valid + [s])
    ensures r.Ok? <==> Get(after.buckets, s.stamp) + s.total <= MAX_NUMBER
  {
    var sum :- Number(Get(after.buckets, s.stamp) + s.total);
    AddOne(after, s, w);
    AddedOne(acc, after, valid, s);
    return Ok(AddSample(after, s));
  }

  // A series of the live model with a count for every hour, whose counts the
  // hours still hold.
  ghost predicate Addable(acc: Acc, e: Series, w: Window)
    requires e.Series?
  {
    && e.modelMatches && Complete(e.points, w)
    && forall h :: Get(acc.buckets, h) + PointsAt(e.points, h) <= MAX_NUMBER
  }

  // One more series of a live deployment; a problem only leaves its code.
  method AddSeries(acc: Acc, e: Series, w: Window, ghost entries: seq<Series>) returns (after: Acc)
    requires e.Series? && w.Valid() && Tallied(acc, w) && Covered(acc, w, entries, e.name)
    ensures Tallied(after, w) && Covered(after, w, entries + [e], e.name)
    ensures after.codes == {} <==> acc.codes == {} && Addable(acc, e, w)
  {
    if !e.modelMatches {
      return acc.(codes := acc.codes + {"metric_model_version_mismatch"});
    }
    var counted := acc.(series := acc.series + 1);
    var valid := ReadPoints(e.points, w);
    if valid.Err? {
      return counted.(codes := acc.codes + {valid.error});
    }
    if |valid.value| != w.hours {
      counted := counted.(codes := acc.codes + {"missing_metric_samples"});
    }
    assert Fits(counted, valid.value) <==> forall h :: Get(acc.buckets, h) + PointsAt(e.points, h) <= MAX_NUMBER;
    var error;
    after, error := AddSamples(counted, valid.value, w);
    if error.Some? {
      return after.(codes := after.codes + {error.value});
    }
    if after.codes == {} {
      CoveredStep(acc, after, e, valid.value, w, entries);
    }
  }

  lemma EntryAppend(entries: seq<Series>, e: Series, name: Name)
    ensures SeriesCount(entries + [e], name) == SeriesCount(entries, name) + if e.Series? && e.name == name then 1 else 0
    ensures forall h :: Column(entries + [e], name, h)
                     == Column(entries, name, h) + if e.Series? && e.name == name then PointsAt(e.points, h) else 0
  {
    assert (entries + [e])[..|entries|] == entries;
  }

  // The hours of the accumulator after a series with a count for each of them.
  lemma HoursAdded(acc: Acc, after: Acc, valid: seq<Sample>, w: Window)
    requires acc.buckets.Keys <= AllHours(w)
    requires GoodSamples(valid, w) && |valid| == w.hours && Added(acc, after, valid)
    ensures after.buckets.Keys == AllHours(w) && after.samples == acc.samples + w.hours
  {
    Pigeonhole(Stamps(valid), w);
  }

  ghost predicate Columns(acc: Acc, w: Window, entries: seq<Series>, name: Name) {
    forall k :: 0 <= k < w.hours ==> Get(acc.buckets, w.At(k)) == Column(entries, name, w.At(k))
  }

  lemma ColumnsAdded(acc: Acc, after: Acc, e: Series, valid: seq<Sample>, w: Window, entries: seq<Series>)
    requires e.Series? && Columns(acc, w, entries, e.name) && Added(acc, after, valid)
    requires forall h :: SamplesAt(valid, h) == PointsAt(e.points, h)
    ensures Columns(after, w, entries + [e], e.name)
  {
    EntryAppend(entries, e, e.name);
    forall k | 0 <= k < w.hours
      ensures Get(after.buckets, w.At(k)) == Column(entries + [e], e.name, w.At(k))
    {
      assert SamplesAt(valid, w.At(k)) == PointsAt(e.points, w.At(k));
    }
  }

  lemma CoveredStep(acc: Acc, after: Acc, e: Series, valid: seq<Sample>, w: Window, entries: seq<Series>)
    requires e.Series? && acc.codes == {} && Covered(acc, w, entries, e.name)
    requires GoodSamples(valid, w) && |valid| == w.hours && forall h :: SamplesAt(valid, h) == PointsAt(e.points, h)
    requires Added(acc.(series := acc.series + 1), after, valid)
    ensures Covered(after, w, entries + [e], e.name)
  {
    var counted := acc.(series := acc.series + 1);
    HoursAdded(counted, after, valid, w);
    ColumnsAdded(counted, after, e, valid, w, entries);
    CoveredThen(acc, after, e, w, entries);
  }

  lemma CoveredThen(acc: Acc, after: Acc, e: Series, w: Window, entries: seq<Series>)
    requires e.Series? && acc.codes == {} && Covered(acc, w, entries, e.name)
    requires after.series == acc.series + 1 && after.samples == acc.samples + w.hours
    requires after.buckets.Keys == AllHours(w) && Columns(after, w, entries + [e], e.name)
    ensures Covered(after, w, entries + [e], e.name)
  {
    EntryAppend(entries, e, e.name);
  }

  // ----- Records

  datatype Status = Measured | Partial | Unknown

  datatype Usage = Usage(
    status: Status, codes: set<Code>, total: Option<int>, observedTotal: Option<int>, peak: Option<int>,
    series: nat, samples: nat, zeros: nat, expected: Option<int>, first: Option<int>, last: Option<int>)

  function UnknownUsage(code: Code): Usage {
    Usage(Unknown, {code}, None, None, None, 0, 0, 0, None, None, None)
  }

  function Summarize(acc: Acc, metricCodes: set<Code>, w: Window): Result<Usage, Code> {
    var codes := acc.codes + metricCodes
      + if acc.series == 0 then {"no_series"} else if acc.samples == 0 then {"no_samples"} else {};
    if acc.samples == 0 then
      Ok(Usage(Unknown, codes, None, None, None, acc.series, 0, acc.zeros,
               if acc.series == 0 then None else Some(Times(acc.series, w.hours)), None, None))
    else
      var total :- Number(SumHours(acc.buckets, w, w.hours));
      Ok(Usage(if codes == {} then Measured else Partial, codes, if codes == {} then Some(total) else None, Some(total),
               Some(PeakHour(acc.buckets, w, w.hours)), acc.series, acc.samples, acc.zeros,
               if acc.series == 0 then None else Some(Times(acc.series, w.hours)),
               Some(FirstHour(acc.buckets, w, 0)), Some(LastHour(acc.buckets, w, w.hours))))
  }

  predicate Within(n: int, low: int, high: int) { low <= n <= high }

  // The numbers the sizing demands of a measured record.
  predicate Sizable(u: Usage, w: Window) {
    && u.status == Measured && u.codes == {}
    && Within(u.series, 1, MAX_SERIES)
    && Within(u.samples, 1, MAX_TOTAL_POINTS)
    && Within(u.zeros, 0, u.samples)
    && u.total.Some? && Within(u.total.value, 0, MAX_NUMBER)
    && u.peak.Some? && Within(u.peak.value, 0, MAX_NUMBER)
    && u.samples == Times(u.series, w.hours) && u.expected == Some(u.samples)
    && u.observedTotal == u.total
    && u.peak.value <= u.total.value <= Times(w.hours, u.peak.value)
    && (u.zeros == u.samples <==> u.total.value == 0)
    && u.first == Some(w.start)
    && u.last == Some(w.End() - HOUR)
  }

  // A record says how much was read and, with samples, its total, peak and first
  // and last hour; it is measured exactly without codes, partial with some, and
  // unknown without samples.
  lemma SummarizeSays(acc: Acc, metricCodes: set<Code>, w: Window)
    requires Summarize(acc, metricCodes, w).Ok?
    ensures var u := Summarize(acc, metricCodes, w).value;
      && u.series == acc.series && u.samples == acc.samples && u.zeros == acc.zeros
      && u.expected == (if acc.series == 0 then None else Some(acc.series * w.hours))
      && acc.codes <= u.codes && metricCodes <= u.codes
      && (acc.series == 0 ==> u.codes == acc.codes + metricCodes + {"no_series"})
      && (acc.series > 0 && acc.samples == 0 ==> u.codes == acc.codes + metricCodes + {"no_samples"})
      && (acc.series > 0 && acc.samples > 0 ==> u.codes == acc.codes + metricCodes)
      && (u.status == Unknown <==> acc.samples == 0)
      && (u.status == Measured <==> acc.samples > 0 && u.codes == {})
      && (u.total.Some? <==> u.status == Measured)
      && (acc.samples == 0 ==> u.observedTotal == None && u.peak == None && u.first == None && u.last == None)
      && (acc.samples > 0 ==> u.observedTotal == Some(SumHours(acc.buckets, w, w.hours))
                              && u.peak == Some(PeakHour(acc.buckets, w, w.hours)))
      && (u.total.Some? ==> u.total == u.observedTotal)
  {
    TimesIsProduct(acc.series, w.hours);
  }

  // The hours of the first and last sample.
  lemma {:induction false} FirstHourMeans(m: map<int, int>, w: Window, k: nat)
    requires k <= w.hours && exists i :: k <= i < w.hours && w.At(i) in m
    ensures exists i :: k <= i < w.hours && FirstHour(m, w, k) == w.At(i) && w.At(i) in m
                        && forall j :: k <= j < i ==> w.At(j) !in m
    decreases w.hours - k
  {
    if w.At(k) !in m {
      FirstHourMeans(m, w, k + 1);
    } else {
      assert FirstHour(m, w, k) == w.At(k);
    }
  }

  lemma {:induction false} LastHourMeans(m: map<int, int>, w: Window, n: nat)
    requires exists i :: 0 <= i < n && w.At(i) in m
    ensures exists i :: 0 <= i < n && LastHour(m, w, n) == w.At(i) && w.At(i) in m
                        && forall j :: i < j < n ==> w.At(j) !in m
  {
    if w.At(n - 1) !in m {
      LastHourMeans(m, w, n - 1);
    } else {
      assert LastHour(m, w, n) == w.At(n - 1);
    }
  }

  // The numbers the sizing demands, but for those that follow from the others.
  lemma SizableMeans(u: Usage, w: Window)
    requires w.Valid()
    ensures Sizable(u, w) <==>
      && u.status == Measured && u.codes == {} && 1 <= u.series <= 256
      && u.samples == u.series * w.hours && u.expected == Some(u.series * w.hours)
      && 0 <= u.zeros <= u.samples && (u.zeros == u.samples <==> u.total == Some(0))
      && u.total.Some? && u.observedTotal == u.total && u.peak.Some?
      && 0 <= u.peak.value <= u.total.value <= w.hours * u.peak.value && u.total.value <= MAX_NUMBER
      && u.first == Some(w.start) && u.last == Some(w.start + (w.hours - 1) * HOUR)
  {
    TimesIsProduct(u.series, w.hours);
    if u.peak.Some? {
      TimesIsProduct(w.hours, u.peak.value);
    }
    if 1 <= u.series <= 256 {
      SampleBound(u.series, w.hours);
    }
  }

  function ColumnSum(entries: seq<Series>, name: Name, w: Window, n: nat): int {
    if n == 0 then 0 else ColumnSum(entries, name, w, n - 1) + Column(entries, name, w.At(n - 1))
  }

  // The record's total and peak are those of the returned points.
  ghost predicate TrueTo(u: Usage, entries: seq<Series>, name: Name, w: Window) {
    && u.total == Some(ColumnSum(entries, name, w, w.hours)) && u.peak.Some?
    && (forall k :: 0 <= k < w.hours ==> Column(entries, name, w.At(k)) <= u.peak.value)
    && (exists k :: 0 <= k < w.hours && Column(entries, name, w.At(k)) == u.peak.value)
  }

  lemma {:induction false} SumsAgree(m: map<int, int>, entries: seq<Series>, name: Name, w: Window, n: nat)
    requires forall k :: 0 <= k < n ==> Get(m, w.At(k)) == Column(entries, name, w.At(k))
    ensures SumHours(m, w, n) == ColumnSum(entries, name, w, n)
  {
    if n > 0 {
      SumsAgree(m, entries, name, w, n - 1);
    }
  }

  lemma {:induction false} SeriesBound(entries: seq<Series>, name: Name)
    ensures SeriesCount(entries, name) <= |entries|
  {
    if entries != [] {
      SeriesBound(entries[..|entries|-1], name);
    }
  }

  lemma MeasuredIsSizable(acc: Acc, metricCodes: set<Code>, w: Window, entries: seq<Series>, name: Name)
    requires w.Valid() && Tallied(acc, w) && Covered(acc, w, entries, name) && |entries| <= MAX_SERIES
    requires var u := Summarize(acc, metricCodes, w); u.Ok? && u.value.status == Measured
    ensures Sizable(Summarize(acc, metricCodes, w).value, w)
  {
    assert acc.codes == {} && acc.series > 0;
    SeriesBound(entries, name);
    SampleBound(acc.series, w.hours);
    BucketFacts(acc, w);
  }

  lemma BucketFacts(acc: Acc, w: Window)
    requires w.Valid() && Tallied(acc, w) && acc.buckets.Keys == AllHours(w)
    ensures 0 <= PeakHour(acc.buckets, w, w.hours) <= SumHours(acc.buckets, w, w.hours)
    ensures SumHours(acc.buckets, w, w.hours) <= Times(w.hours, PeakHour(acc.buckets, w, w.hours))
    ensures FirstHour(acc.buckets, w, 0) == w.start
    ensures LastHour(acc.buckets, w, w.hours) == w.End() - HOUR
  {
    PeakBounds(acc.buckets, w, w.hours);
  }

  lemma MeasuredIsTrue(acc: Acc, metricCodes: set<Code>, w: Window, entries: seq<Series>, name: Name)
    requires w.Valid() && Tallied(acc, w) && Covered(acc, w, entries, name)
    requires var u := Summarize(acc, metricCodes, w); u.Ok? && u.value.status == Measured
    ensures TrueTo(Summarize(acc, metricCodes, w).value, entries, name, w)
  {
    PeakIsMaximum(acc.buckets, w, w.hours);
    SumsAgree(acc.buckets, entries, name, w, w.hours);
  }

  lemma SampleBound(series: nat, hours: nat)
    requires 1 <= series <= MAX_SERIES && 1 <= hours <= MAX_POINTS
    ensures 1 <= Times(series, hours) <= MAX_TOTAL_POINTS
  {
    TimesIsProduct(series, 1);
    TimesIsProduct(series, MAX_POINTS);
    TimesMonotone(series, 1, hours);
    TimesMonotone(series, hours, MAX_POINTS);
  }

  // ----- When nothing is wrong with a deployment's series

  // The identities of the series short enough to be looked at.
  function SeenIn(entries: seq<Series>): set<(Name, string)> {
    if entries == [] then {}
    else
      var e := entries[|entries|-1];
      SeenIn(entries[..|entries|-1]) + if e.Series? && |e.points| <= MAX_POINTS then {(e.name, e.key)} else {}
  }

  // A new series of the live model with exactly one proper count for every hour.
  ghost predicate CleanSeries(before: seq<Series>, e: Series, w: Window)
    requires e.Series?
  {
    e.modelMatches && (e.name, e.key) !in SeenIn(before) && Complete(e.points, w)
  }

  ghost predicate Holds(entries: seq<Series>, name: Name, w: Window) {
    forall k :: 0 <= k < w.hours ==> Column(entries, name, w.At(k)) <= MAX_NUMBER
  }

  // All series of the deployment are clean, and no hour overflows on the way.
  ghost predicate Clean(entries: seq<Series>, name: Name, w: Window) {
    entries == []
    || (var n := |entries| - 1;
        && Clean(entries[..n], name, w)
        && (entries[n].Series? && entries[n].name == name ==>
              CleanSeries(entries[..n], entries[n], w) && Holds(entries, name, w)))
  }

  // Every series has readable dimensions, and those of no live deployment are
  // short enough and new.
  ghost predicate Dimensioned(entries: seq<Series>, live: set<Name>) {
    entries == []
    || (var n := |entries| - 1;
        && Dimensioned(entries[..n], live) && entries[n].Series?
        && (entries[n].name !in live ==>
              |entries[n].points| <= MAX_POINTS && (entries[n].name, entries[n].key) !in SeenIn(entries[..n])))
  }

  lemma {:induction false} PointsOutside(points: seq<Point>, w: Window, h: int)
    requires Proper(points, w)
    ensures 0 <= PointsAt(points, h)
    ensures !InWindow(h, w) ==> PointsAt(points, h) == 0
  {
    if points != [] {
      var prefix := points[..|points|-1];
      assert forall i :: 0 <= i < |prefix| ==> prefix[i] == points[i];
      PointsOutside(prefix, w, h);
    }
  }

  ghost predicate AllClean(entries: seq<Series>, name: Name, w: Window) {
    forall i :: 0 <= i < |entries| && entries[i].Series? && entries[i].name == name ==>
      CleanSeries(entries[..i], entries[i], w)
  }

  lemma AllCleanOneMore(entries: seq<Series>, e: Series, name: Name, w: Window)
    ensures AllClean(entries + [e], name, w) <==>
      AllClean(entries, name, w) && (e.Series? && e.name == name ==> CleanSeries(entries, e, w))
  {
    var more := entries + [e];
    assert more[|entries|] == e && more[..|entries|] == entries;
    assert forall i :: 0 <= i < |entries| ==> more[i] == entries[i] && more[..i] == entries[..i];
  }

  // A deployment's series are clean when each of them is and no hour of all of
  // them together overflows: hours only grow.
  lemma {:induction false} CleanMeans(entries: seq<Series>, name: Name, w: Window)
    ensures Clean(entries, name, w) <==> AllClean(entries, name, w) && Holds(entries, name, w)
  {
    if entries != [] {
      var before, e := entries[..|entries|-1], entries[|entries|-1];
      assert entries == before + [e];
      CleanMeans(before, name, w);
      AllCleanOneMore(before, e, name, w);
      EntryAppend(before, e, name);
      if e.Series? && Proper(e.points, w) {
        forall k | 0 <= k < w.hours
          ensures Column(before, name, w.At(k)) <= Column(entries, name, w.At(k))
        {
          PointsOutside(e.points, w, w.At(k));
        }
      }
    }
  }

  // Where the accumulator is that of clean series, what it can still take is
  // what keeps the columns small enough.
  lemma AddableIsClean(acc: Acc, entries: seq<Series>, e: Series, w: Window)
    requires e.Series? && w.Valid() && acc.codes == {} && Tallied(acc, w) && Covered(acc, w, entries, e.name)
    requires Complete(e.points, w)
    ensures (forall h :: Get(acc.buckets, h) + PointsAt(e.points, h) <= MAX_NUMBER) <==> Holds(entries + [e], e.name, w)
  {
    EntryAppend(entries, e, e.name);
    forall h
      ensures h in AllHours(w) || PointsAt(e.points, h) == 0
    {
      if InWindow(h, w) {
        StampIsHour(h, w);
      }
      PointsOutside(e.points, w, h);
    }
    if Holds(entries + [e], e.name, w) {
      forall h
        ensures Get(acc.buckets, h) + PointsAt(e.points, h) <= MAX_NUMBER
      {
        if h in AllHours(w) {
          var k :| 0 <= k < w.hours && h == w.At(k);
        }
      }
    }
    if forall h :: Get(acc.buckets, h) + PointsAt(e.points, h) <= MAX_NUMBER {
      forall k | 0 <= k < w.hours
        ensures Column(entries + [e], e.name, w.At(k)) <= MAX_NUMBER
      {
        assert Get(acc.buckets, w.At(k)) + PointsAt(e.points, w.At(k)) <= MAX_NUMBER;
      }
    }
  }

  // Every live deployment's accumulator, after some of the series.
  ghost predicate Accounted(accs: map<Name, Acc>, live: set<Name>, w: Window, entries: seq<Series>) {
    accs.Keys == live && forall n :: n in live ==> Tallied(accs[n], w) && Covered(accs[n], w, entries, n)
  }

  lemma AccountedUpdate(accs: map<Name, Acc>, live: set<Name>, w: Window, entries: seq<Series>, e: Series, acc: Acc)
    requires Accounted(accs, live, w, entries) && e.Series? && e.name in live
    requires Tallied(acc, w) && Covered(acc, w, entries + [e], e.name)
    ensures Accounted(accs[e.name := acc], live, w, entries + [e])
  {
    forall n | n in live && n != e.name
      ensures Covered(accs[n], w, entries + [e], n)
    {
      CoveredOther(accs[n], w, entries, e, n);
    }
  }

  // A series of another deployment, or an unreadable one, counts for nobody else.
  lemma CoveredOther(acc: Acc, w: Window, entries: seq<Series>, e: Series, n: Name)
    requires Covered(acc, w, entries, n) && (e.Malformed? || e.name != n)
    ensures Covered(acc, w, entries + [e], n)
  {
    EntryAppend(entries, e, n);
  }

  // Every record that is marked measured passes the sizing's checks and is true
  // to the returned points.
  ghost predicate Trustworthy(records: map<Name, Usage>, entries: seq<Series>, w: Window) {
    forall n :: n in records && records[n].status == Measured ==>
      Sizable(records[n], w) && TrueTo(records[n], entries, n, w)
  }

  // And the measured ones are those of accumulators with series and no codes.
  ghost predicate Exact(records: map<Name, Usage>, accs: map<Name, Acc>, metricCodes: set<Code>)
    requires records.Keys <= accs.Keys
  {
    forall n :: n in records ==>
      (records[n].status == Measured <==> accs[n].codes == {} && metricCodes == {} && accs[n].series > 0)
  }

  method NextRecord(acc: Acc, metricCodes: set<Code>, w: Window, ghost entries: seq<Series>, ghost n: Name)
    returns (r: Result<Usage, Code>)
    requires w.Valid() && Tallied(acc, w) && Covered(acc, w, entries, n) && |entries| <= MAX_SERIES
    ensures r.Ok? && r.value.status == Measured ==> Sizable(r.value, w) && TrueTo(r.value, entries, n, w)
    ensures r.Ok? ==> (r.value.status == Measured <==> acc.codes == {} && metricCodes == {} && acc.series > 0)
    ensures r.Err? ==> r.error == "invalid_numeric_value"
  {
    r := Summarize(acc, metricCodes, w);
    if r.Ok? && r.value.status == Measured {
      MeasuredIsSizable(acc, metricCodes, w, entries, n);
      MeasuredIsTrue(acc, metricCodes, w, entries, n);
    }
    if acc.codes == {} && acc.series > 0 {
      TimesIsProduct(acc.series, w.hours);
      TimesMonotone(acc.series, 1, w.hours);
      TimesIsProduct(acc.series, 1);
    }
  }

  method Records(accs: map<Name, Acc>, metricCodes: set<Code>, w: Window, ghost entries: seq<Series>)
    returns (r: Result<map<Name, Usage>, Code>)
    requires w.Valid() && Accounted(accs, accs.Keys, w, entries) && |entries| <= MAX_SERIES
    ensures r.Ok? ==> r.value.Keys == accs.Keys && Trustworthy(r.value, entries, w) && Exact(r.value, accs, metricCodes)
    ensures r.Err? ==> r.error == "invalid_numeric_value"
  {
    var result: map<Name, Usage> := map[];
    var names := accs.Keys;
    while names != {}
      invariant names <= accs.Keys && result.Keys == accs.Keys - names
      invariant Trustworthy(result, entries, w) && Exact(result, accs, metricCodes)
    {
      var n :| n in names;
      var u :- NextRecord(accs[n], metricCodes, w, entries, n);
      result := result[n := u];
      names := names - {n};
    }
    return Ok(result);
  }

  // What the loop over one metric's series carries along.
  datatype Progress = Progress(accs: map<Name, Acc>, metricCodes: set<Code>, seen: set<(Name, string)>)

  // After some of the series: what was added up, and what was found wrong.
  ghost predicate Tracks(p: Progress, live: set<Name>, w: Window, entries: seq<Series>) {
    && Accounted(p.accs, live, w, entries)
    && p.seen == SeenIn(entries)
    && (p.metricCodes == {} <==> Dimensioned(entries, live))
    && CodesTrue(p.accs, live, w, entries)
  }

  lemma CleanOneMore(entries: seq<Series>, e: Series, name: Name, w: Window)
    ensures Clean(entries + [e], name, w) <==>
      && Clean(entries, name, w)
      && (e.Series? && e.name == name ==> CleanSeries(entries, e, w) && Holds(entries + [e], name, w))
  {
    assert (entries + [e])[..|entries|] == entries;
  }

  lemma SeenOneMore(entries: seq<Series>, e: Series, live: set<Name>)
    ensures SeenIn(entries + [e]) == Seen(SeenIn(entries), e)
    ensures Dimensioned(entries + [e], live) <==>
      && Dimensioned(entries, live) && e.Series?
      && (e.name !in live ==> |e.points| <= MAX_POINTS && (e.name, e.key) !in SeenIn(entries))
  {
    assert (entries + [e])[..|entries|] == entries;
  }

  // The points that some series take from the budget: those of every one that is
  // short enough to be looked at.
  function PointsOf(entries: seq<Series>): nat {
    if entries == [] then 0
    else
      var e := entries[|entries|-1];
      PointsOf(entries[..|entries|-1]) + if e.Series? && |e.points| <= MAX_POINTS then |e.points| else 0
  }

  lemma {:induction false} PointsGrow(entries: seq<Series>, i: nat)
    requires i < |entries|
    ensures PointsOf(entries[..i+1]) == PointsOf(entries[..i]) + PointsOf([entries[i]]) <= PointsOf(entries)
    decreases |entries| - i
  {
    assert entries[..i+1][..i] == entries[..i] && [entries[i]][..0] == [] && PointsOf([]) == 0;
    if i + 1 == |entries| {
      assert entries[..i+1] == entries;
    } else {
      PointsGrow(entries, i + 1);
    }
  }

  // What is wrong with a series before it is added to anything.
  function Problem(e: Series, seen: set<(Name, string)>): Option<Code>
    requires e.Series?
  {
    if |e.points| > MAX_POINTS then Some("row_limit_exceeded")
    else if (e.name, e.key) in seen then Some("duplicate_metric_series")
    else None
  }

  // One more series of a live deployment, with a problem or not.
  method NextLive(acc: Acc, e: Series, problem: Option<Code>, w: Window, ghost entries: seq<Series>)
    returns (after: Acc)
    requires e.Series? && w.Valid() && Tallied(acc, w) && Covered(acc, w, entries, e.name)
    requires acc.codes == {} <==> Clean(entries, e.name, w)
    requires problem == Problem(e, SeenIn(entries))
    ensures Tallied(after, w) && Covered(after, w, entries + [e], e.name)
    ensures after.codes == {} <==> Clean(entries + [e], e.name, w)
  {
    CleanOneMore(entries, e, e.name, w);
    if problem.Some? {
      return acc.(codes := acc.codes + {problem.value});
    }
    if acc.codes == {} && Complete(e.points, w) {
      AddableIsClean(acc, entries, e, w);
    }
    after := AddSeries(acc, e, w, entries);
  }

  function Seen(seen: set<(Name, string)>, e: Series): set<(Name, string)> {
    seen + if e.Series? && |e.points| <= MAX_POINTS then {(e.name, e.key)} else {}
  }

  ghost predicate CodesTrue(accs: map<Name, Acc>, live: set<Name>, w: Window, entries: seq<Series>)
    requires live <= accs.Keys
  {
    forall n :: n in live ==> (accs[n].codes == {} <==> Clean(entries, n, w))
  }

  lemma CodesUpdate(accs: map<Name, Acc>, acc: Acc, live: set<Name>, w: Window, entries: seq<Series>, e: Series)
    requires live <= accs.Keys && CodesTrue(accs, live, w, entries) && e.Series? && e.name in live
    requires acc.codes == {} <==> Clean(entries + [e], e.name, w)
    ensures CodesTrue(accs[e.name := acc], live, w, entries + [e])
  {
    forall n | n in live && n != e.name
      ensures accs[n].codes == {} <==> Clean(entries + [e], n, w)
    {
      CleanOneMore(entries, e, n, w);
    }
  }

  lemma TracksLive(p: Progress, acc: Acc, live: set<Name>, w: Window, entries: seq<Series>, e: Series)
    requires Tracks(p, live, w, entries) && e.Series? && e.name in live
    requires Tallied(acc, w) && Covered(acc, w, entries + [e], e.name)
    requires acc.codes == {} <==> Clean(entries + [e], e.name, w)
    ensures Tracks(Progress(p.accs[e.name := acc], p.metricCodes, Seen(p.seen, e)), live, w, entries + [e])
  {
    AccountedUpdate(p.accs, live, w, entries, e, acc);
    SeenOneMore(entries, e, live);
    CodesUpdate(p.accs, acc, live, w, entries, e);
  }

  // A series of no live deployment leaves at most a code for all of them.
  lemma TracksOther(p: Progress, q: Progress, live: set<Name>, w: Window, entries: seq<Series>, e: Series)
    requires Tracks(p, live, w, entries) && (e.Series? ==> e.name !in live) && q.accs == p.accs
    requires q.seen == Seen(p.seen, e)
    requires q.metricCodes == {} <==> p.metricCodes == {} && e.Series? && Problem(e, p.seen).None?
    ensures Tracks(q, live, w, entries + [e])
  {
    SeenOneMore(entries, e, live);
    forall n | n in live
      ensures q.accs[n].codes == {} <==> Clean(entries + [e], n, w)
      ensures Covered(q.accs[n], w, entries + [e], n)
    {
      CleanOneMore(entries, e, n, w);
      CoveredOther(p.accs[n], w, entries, e, n);
    }
  }

  method NextSeries(p: Progress, e: Series, live: set<Name>, w: Window, budget: PointBudget, ghost entries: seq<Series>)
    returns (r: Result<Progress, Code>)
    requires w.Valid() && Tracks(p, live, w, entries)
    modifies budget
    ensures r.Ok? ==> Tracks(r.value, live, w, entries + [e])
    ensures r.Err? ==> r.error == "point_budget_exceeded"
    ensures r.Ok? <==> PointsOf([e]) <= old(budget.remaining)
    ensures r.Ok? ==> budget.remaining == old(budget.remaining) - PointsOf([e])
  {
    assert PointsOf([e][..0]) == 0;
    if e.Malformed? {
      var q := p.(metricCodes := p.metricCodes + {"metric_dimensions_mismatch"});
      TracksOther(p, q, live, w, entries, e);
      return Ok(q);
    }
    var problem := Problem(e, p.seen);
    if |e.points| <= MAX_POINTS {
      var ok := budget.Consume(|e.points|);
      if !ok {
        return Err("point_budget_exceeded");
      }
    }
    var q := p.(seen := Seen(p.seen, e));
    if e.name !in live {
      q := q.(metricCodes := p.metricCodes + if problem.Some? then {problem.value} else {});
      TracksOther(p, q, live, w, entries, e);
      return Ok(q);
    }
    var acc := NextLive(p.accs[e.name], e, problem, w, entries);
    TracksLive(p, acc, live, w, entries, e);
    return Ok(q.(accs := p.accs[e.name := acc]));
  }

  // The deployment's series say all that there is to say about the metric.
  ghost predicate Whole(entries: seq<Series>, live: set<Name>, n: Name, w: Window) {
    && |entries| <= MAX_SERIES && Dimensioned(entries, live)
    && SeriesCount(entries, n) > 0 && AllClean(entries, n, w) && Holds(entries, n, w)
  }

  // One metric of one account: a deployment's record is marked measured exactly
  // when its series are whole, and is then to be trusted.
  method ParseMetric(entries: seq<Series>, live: set<Name>, w: Window, budget: PointBudget)
    returns (r: Result<map<Name, Usage>, Code>)
    requires w.Valid()
    modifies budget
    ensures r.Ok? ==> r.value.Keys == live && Trustworthy(r.value, entries, w)
    ensures r.Ok? ==> forall n :: n in live ==> (r.value[n].status == Measured <==> Whole(entries, live, n, w))
    ensures |entries| > 256 ==> r == Ok(map n | n in live ::
      Usage(Unknown, {"series_limit_exceeded"}, None, None, None, 0, 0, 0, None, None, None))
    ensures |entries| <= 256 ==> (r == Err("point_budget_exceeded") <==> PointsOf(entries) > old(budget.remaining))
    ensures |entries| <= 256 && r.Ok? ==> budget.remaining == old(budget.remaining) - PointsOf(entries)
  {
    if |entries| > MAX_SERIES {
      return Ok(AllUnknown(live, "series_limit_exceeded"));
    }
    var p := Begin(live);
    BeginTracks(live, w);
    assert entries[..0] == [];
    for i := 0 to |entries|
      invariant Tracks(p, live, w, entries[..i])
      invariant budget.remaining == old(budget.remaining) - PointsOf(entries[..i])
    {
      PointsGrow(entries, i);
      p :- NextSeries(p, entries[i], live, w, budget, entries[..i]);
      assert entries[..i+1] == entries[..i] + [entries[i]];
    }
    assert entries[..|entries|] == entries;
    r := Records(p.accs, p.metricCodes, w, entries);
    if r.Ok? {
      forall n | n in live
        ensures r.value[n].status == Measured <==> Whole(entries, live, n, w)
      {
        CleanMeans(entries, n, w);
      }
    }
  }

  function AllUnknown(live: set<Name>, code: Code): (r: map<Name, Usage>)
    ensures r.Keys == live && forall n :: n in live ==> r[n].status == Unknown
  {
    map n | n in live :: UnknownUsage(code)
  }

  function Begin(live: set<Name>): (p: Progress)
    ensures p.accs.Keys == live && forall n :: n in live ==> p.accs[n] == EMPTY
  {
    Progress(map n | n in live :: EMPTY, {}, {})
  }

  lemma BeginTracks(live: set<Name>, w: Window)
    ensures Tracks(Begin(live), live, w, [])
  {
    SumEmpty(w, w.hours);
  }

  lemma {:induction false} SumEmpty(w: Window, n: nat)
    ensures SumHours(map[], w, n) == 0
  {
    if n > 0 {
      SumEmpty(w, n - 1);
    }
  }

  // ----- Sizing

  predicate Carries(capacity: nat, perCapacityHour: nat, peak: int) {
    peak <= Times(capacity, perCapacityHour)
  }

  lemma {:induction false} CarriesMonotone(c: nat, d: nat, perCapacityHour: nat, peak: int)
    requires c <= d && Carries(c, perCapacityHour, peak)
    ensures Carries(d, perCapacityHour, peak)
    decreases d
  {
    if c < d {
      CarriesMonotone(c, d - 1, perCapacityHour, peak);
    }
  }

  // Ceiling division gives the least capacity that carries a peak hour.
  lemma CeilingIsLeast(peak: nat, perCapacityHour: nat, d: nat)
    requires perCapacityHour >= 1 && d == (peak + perCapacityHour - 1) / perCapacityHour
    ensures Carries(d, perCapacityHour, peak)
    ensures forall c: nat :: c < d ==> !Carries(c, perCapacityHour, peak)
  {
    assert peak + perCapacityHour - 1 == d * perCapacityHour + (peak + perCapacityHour - 1) % perCapacityHour;
    TimesIsProduct(d, perCapacityHour);
    forall c: nat | c < d
      ensures !Carries(c, perCapacityHour, peak)
    {
      if Carries(c, perCapacityHour, peak) {
        CarriesMonotone(c, d - 1, perCapacityHour, peak);
      }
    }
  }

  // The smallest capacity from the floor up that carries the peak hour, or a
  // refusal when even the ceiling does not.
  method UsageTarget(u: Usage, w: Window, floor: nat, ceiling: nat, perCapacityHour: nat,
                     minimumHours: nat, minimumTotal: nat) returns (r: Result<nat, Code>)
    requires perCapacityHour >= 1 && floor <= ceiling
    ensures r.Ok? ==>
      && Sizable(u, w) && w.hours >= minimumHours && u.total.value >= minimumTotal
      && floor <= r.value <= ceiling && Carries(r.value, perCapacityHour, u.peak.value)
      && forall c: nat :: floor <= c < r.value ==> !Carries(c, perCapacityHour, u.peak.value)
    ensures r.Err? ==>
      || !Sizable(u, w)
      || w.hours < minimumHours || u.total.value < minimumTotal
      || !Carries(ceiling, perCapacityHour, u.peak.value)
  {
    if !Sizable(u, w) {
      return Err("incomplete_usage");
    }
    if w.hours < minimumHours || u.total.value < minimumTotal {
      return Err("insufficient_usage_for_sizing");
    }
    var demand := (u.peak.value + perCapacityHour - 1) / perCapacityHour;
    CeilingIsLeast(u.peak.value, perCapacityHour, demand);
    if demand > ceiling {
      return Err("observed_demand_above_production_ceiling");
    }
    CarriesMonotone(demand, if floor < demand then demand else floor, perCapacityHour, u.peak.value);
    return Ok(if floor < demand then demand else floor);
  }
}
