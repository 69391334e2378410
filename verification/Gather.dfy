/** From gathered metric families to time series: one series for each value, bucket and quantile. */
module Gather {
  import opened Options
  import opened Labels

  // A value that is not a number is None. Histograms and summaries have a count, and a sum as value.
  datatype Bucket = Bucket(bound: Bound, count: real)
  datatype Quantile = Quantile(text: string, value: Option<real>)
  datatype Metric = Metric(
    labels: seq<Label>, present: bool, value: Option<real>, count: real, buckets: seq<Bucket>, quantiles: seq<Quantile>)
  datatype Kind = Simple | Histogram | Summary | Other
  datatype Family = Family(name: string, kind: Kind, metrics: seq<Metric>)

  datatype Point = Point(series: Series, value: real)
  datatype TimeSeries = TimeSeries(labels: seq<Label>, value: real)

  // ---- What is sent -------------------------------------------------------------------

  function Plain(name: string, labels: seq<Label>, value: Option<real>): seq<Point> {
    if value.None? then [] else [Point(Series(name, labels, None), value.value)]
  }

  function BoundsOf(buckets: seq<Bucket>): (bounds: seq<Bound>)
    ensures |bounds| == |buckets| && forall i :: 0 <= i < |bounds| ==> bounds[i] == buckets[i].bound
  {
    seq(|buckets|, i requires 0 <= i < |buckets| => buckets[i].bound)
  }

  // The buckets, and the infinite one if there is none.
  function AllBuckets(m: Metric): seq<Bucket> {
    m.buckets + if Infinite in BoundsOf(m.buckets) then [] else [Bucket(Infinite, m.count)]
  }

  function BucketPoint(name: string, labels: seq<Label>, b: Bucket): Point {
    Point(Series(name + "_bucket", labels, Some(Label("le", BoundText(b.bound)))), b.count)
  }

  function BucketPoints(name: string, labels: seq<Label>, buckets: seq<Bucket>): (ps: seq<Point>)
    ensures |ps| == |buckets|
    ensures forall i :: 0 <= i < |ps| ==> ps[i] == BucketPoint(name, labels, buckets[i])
    decreases |buckets|
  {
    if buckets == [] then []
    else BucketPoints(name, labels, buckets[..|buckets| - 1]) + [BucketPoint(name, labels, buckets[|buckets| - 1])]
  }

  function QuantilePoint(name: string, labels: seq<Label>, q: Quantile): seq<Point> {
    if q.value.None? then []
    else [Point(Series(name, labels, Some(Label("quantile", q.text))), q.value.value)]
  }

  function QuantilePoints(name: string, labels: seq<Label>, quantiles: seq<Quantile>): seq<Point>
    decreases |quantiles|
  {
    if quantiles == [] then []
    else
      QuantilePoints(name, labels, quantiles[..|quantiles| - 1])
      + QuantilePoint(name, labels, quantiles[|quantiles| - 1])
  }

  function Totals(name: string, m: Metric): seq<Point> {
    Plain(name + "_count", m.labels, Some(m.count)) + Plain(name + "_sum", m.labels, m.value)
  }

  function Expand(name: string, kind: Kind, m: Metric): seq<Point> {
    match kind
    case Simple => Plain(name, m.labels, m.value)
    case Histogram => if m.present then Totals(name, m) + BucketPoints(name, m.labels, AllBuckets(m)) else []
    case Summary => if m.present then Totals(name, m) + QuantilePoints(name, m.labels, m.quantiles) else []
    case Other => []
  }

  function ExpandFamily(name: string, kind: Kind, metrics: seq<Metric>): seq<Point>
    decreases |metrics|
  {
    if metrics == [] then []
    else ExpandFamily(name, kind, metrics[..|metrics| - 1]) + Expand(name, kind, metrics[|metrics| - 1])
  }

  function Points(f: Family): seq<Point> {
    if f.name == "" then [] else ExpandFamily(f.name, f.kind, f.metrics)
  }

  function ExpandAll(families: seq<Family>): seq<Point>
    decreases |families|
  {
    if families == [] then [] else ExpandAll(families[..|families| - 1]) + Points(families[|families| - 1])
  }

  // The series carry the merged labels of the points, and their values, in order.
  ghost predicate Represents(ps: seq<Point>, ext: seq<Label>, out: seq<TimeSeries>) {
    && |out| == |ps|
    && forall i :: 0 <= i < |out| ==>
         out[i].value == ps[i].value && Merges(CandidatesOf(ps[i].series, ext), out[i].labels)
  }

  lemma RepresentsJoin(ps: seq<Point>, qs: seq<Point>, ext: seq<Label>, a: seq<TimeSeries>, b: seq<TimeSeries>)
    requires Represents(ps, ext, a) && Represents(qs, ext, b)
    ensures Represents(ps + qs, ext, a + b)
  {
    hide Merges, CandidatesOf;
  }

  // ---- The loops of the source -------------------------------------------------------------

  method BuildSeries(p: Point, ext: seq<Label>) returns (out: seq<TimeSeries>)
    requires p.series.extra.Some? ==> p.series.extra.value.name != ""
    ensures Represents([p], ext, out)
  {
    var s := p.series;
    var extra := if s.extra.Some? then s.extra.value else Label("", "");
    var labels := MergeLabels(s.name, s.labels, ext, extra.name, extra.value);
    return [TimeSeries(labels, p.value)];
  }

  method BuildPlain(name: string, labels: seq<Label>, value: Option<real>, ext: seq<Label>)
    returns (out: seq<TimeSeries>)
    ensures Represents(Plain(name, labels, value), ext, out)
  {
    if value.None? {
      return [];
    }
    out := BuildSeries(Point(Series(name, labels, None), value.value), ext);
  }

  method BuildTotals(name: string, m: Metric, ext: seq<Label>) returns (out: seq<TimeSeries>)
    ensures Represents(Totals(name, m), ext, out)
  {
    hide Plain, Represents;
    out := BuildPlain(name + "_count", m.labels, Some(m.count), ext);
    var sum := BuildPlain(name + "_sum", m.labels, m.value, ext);
    RepresentsJoin(Plain(name + "_count", m.labels, Some(m.count)), Plain(name + "_sum", m.labels, m.value),
                   ext, out, sum);
    out := out + sum;
  }

  method BuildBuckets(name: string, m: Metric, ext: seq<Label>) returns (out: seq<TimeSeries>)
    ensures Represents(BucketPoints(name, m.labels, AllBuckets(m)), ext, out)
  {
    hide Represents;
    out := [];
    var sawInf := false;
    NothingRepresents(ext);
    for i := 0 to |m.buckets|
      invariant Represents(BucketPoints(name, m.labels, m.buckets[..i]), ext, out)
      invariant sawInf <==> Infinite in BoundsOf(m.buckets[..i])
    {
      var b := m.buckets[i];
      assert m.buckets[..i + 1][..i] == m.buckets[..i];
      assert BoundsOf(m.buckets[..i + 1]) == BoundsOf(m.buckets[..i]) + [b.bound];
      if b.bound.Infinite? {
        sawInf := true;
      }
      var one := BuildSeries(BucketPoint(name, m.labels, b), ext);
      RepresentsJoin(BucketPoints(name, m.labels, m.buckets[..i]), [BucketPoint(name, m.labels, b)], ext, out, one);
      out := out + one;
    }
    assert m.buckets[..|m.buckets|] == m.buckets;
    if !sawInf {
      var b := Bucket(Infinite, m.count);
      assert AllBuckets(m)[..|m.buckets|] == m.buckets;
      var one := BuildSeries(BucketPoint(name, m.labels, b), ext);
      RepresentsJoin(BucketPoints(name, m.labels, m.buckets), [BucketPoint(name, m.labels, b)], ext, out, one);
      out := out + one;
    } else {
      assert AllBuckets(m) == m.buckets;
    }
  }

  lemma NothingRepresents(ext: seq<Label>)
    ensures Represents([], ext, [])
  {
  }

  method BuildQuantiles(name: string, m: Metric, ext: seq<Label>) returns (out: seq<TimeSeries>)
    ensures Represents(QuantilePoints(name, m.labels, m.quantiles), ext, out)
  {
    hide Represents;
    out := [];
    NothingRepresents(ext);
    for i := 0 to |m.quantiles|
      invariant Represents(QuantilePoints(name, m.labels, m.quantiles[..i]), ext, out)
    {
      var q := m.quantiles[i];
      assert m.quantiles[..i + 1][..i] == m.quantiles[..i];
      var one: seq<TimeSeries> := [];
      if q.value.Some? {
        one := BuildSeries(Point(Series(name, m.labels, Some(Label("quantile", q.text))), q.value.value), ext);
      }
      RepresentsJoin(QuantilePoints(name, m.labels, m.quantiles[..i]), QuantilePoint(name, m.labels, q), ext, out, one);
      out := out + one;
    }
    assert m.quantiles[..|m.quantiles|] == m.quantiles;
  }

  method BuildMetric(name: string, kind: Kind, m: Metric, ext: seq<Label>) returns (out: seq<TimeSeries>)
    ensures Represents(Expand(name, kind, m), ext, out)
  {
    hide Represents, Plain, Totals, BucketPoints, QuantilePoints;
    out := [];
    NothingRepresents(ext);
    match kind {
      case Simple =>
        out := BuildPlain(name, m.labels, m.value, ext);
      case Histogram =>
        if m.present {
          out := BuildTotals(name, m, ext);
          var more := BuildBuckets(name, m, ext);
          RepresentsJoin(Totals(name, m), BucketPoints(name, m.labels, AllBuckets(m)), ext, out, more);
          out := out + more;
        }
      case Summary =>
        if m.present {
          out := BuildTotals(name, m, ext);
          var more := BuildQuantiles(name, m, ext);
          RepresentsJoin(Totals(name, m), QuantilePoints(name, m.labels, m.quantiles), ext, out, more);
          out := out + more;
        }
      case Other =>
    }
  }

  /** Every number that was gathered becomes one series, with canonical labels, in order. */
  method GatherAll(families: seq<Family>, ext: seq<Label>) returns (out: seq<TimeSeries>)
    ensures Represents(ExpandAll(families), ext, out)
  {
    hide Represents, Expand;
    out := [];
    NothingRepresents(ext);
    for i := 0 to |families|
      invariant Represents(ExpandAll(families[..i]), ext, out)
    {
      var f := families[i];
      assert families[..i + 1][..i] == families[..i];
      var series: seq<TimeSeries> := [];
      if f.name != "" {
        for k := 0 to |f.metrics|
          invariant Represents(ExpandFamily(f.name, f.kind, f.metrics[..k]), ext, series)
        {
          var m := f.metrics[k];
          assert f.metrics[..k + 1][..k] == f.metrics[..k];
          var more := BuildMetric(f.name, f.kind, m, ext);
          RepresentsJoin(ExpandFamily(f.name, f.kind, f.metrics[..k]), Expand(f.name, f.kind, m), ext, series, more);
          series := series + more;
        }
        assert f.metrics[..|f.metrics|] == f.metrics;
      }
      RepresentsJoin(ExpandAll(families[..i]), Points(f), ext, out, series);
      out := out + series;
    }
    assert families[..|families|] == families;
  }

  // ---- The numbers that are sent ---------------------------------------------------------------

  // Some series carries this value under the merged labels of s.
  ghost predicate Sends(out: seq<TimeSeries>, ext: seq<Label>, s: Series, value: real) {
    exists i :: 0 <= i < |out| && out[i].value == value && Merges(CandidatesOf(s, ext), out[i].labels)
  }

  lemma {:induction false} MetricIn(name: string, kind: Kind, metrics: seq<Metric>, k: nat, p: Point)
    requires k < |metrics| && p in Expand(name, kind, metrics[k])
    ensures p in ExpandFamily(name, kind, metrics)
    decreases |metrics|
  {
    hide Expand;
    if k < |metrics| - 1 {
      MetricIn(name, kind, metrics[..|metrics| - 1], k, p);
    }
  }

  lemma {:induction false} FamilyIn(families: seq<Family>, i: nat, p: Point)
    requires i < |families| && p in Points(families[i])
    ensures p in ExpandAll(families)
    decreases |families|
  {
    hide Points;
    if i < |families| - 1 {
      FamilyIn(families[..|families| - 1], i, p);
    }
  }

  // The metric k of family i.
  ghost predicate Gathered(families: seq<Family>, i: nat, k: nat, kind: Kind) {
    i < |families| && families[i].name != "" && families[i].kind == kind && k < |families[i].metrics|
  }

  lemma PointSent(families: seq<Family>, ext: seq<Label>, out: seq<TimeSeries>, i: nat, k: nat, kind: Kind, p: Point)
    requires Represents(ExpandAll(families), ext, out) && Gathered(families, i, k, kind)
    requires p in Expand(families[i].name, kind, families[i].metrics[k])
    ensures Sends(out, ext, p.series, p.value)
  {
    hide Expand, ExpandAll, ExpandFamily, Merges, CandidatesOf;
    MetricIn(families[i].name, kind, families[i].metrics, k, p);
    FamilyIn(families, i, p);
    var j :| 0 <= j < |ExpandAll(families)| && ExpandAll(families)[j] == p;
    assert out[j].value == p.value;
  }

  // Where a point comes from.
  lemma {:induction false} MetricOf(name: string, kind: Kind, metrics: seq<Metric>, p: Point) returns (k: nat)
    requires p in ExpandFamily(name, kind, metrics)
    ensures k < |metrics| && p in Expand(name, kind, metrics[k])
    decreases |metrics|
  {
    hide Expand;
    k := |metrics| - 1;
    if p !in Expand(name, kind, metrics[k]) {
      k := MetricOf(name, kind, metrics[..k], p);
    }
  }

  lemma {:induction false} FamilyOf(families: seq<Family>, p: Point) returns (i: nat)
    requires p in ExpandAll(families)
    ensures i < |families| && p in Points(families[i])
    decreases |families|
  {
    hide Points;
    i := |families| - 1;
    if p !in Points(families[i]) {
      i := FamilyOf(families[..i], p);
    }
  }

  lemma ExpandsNothing(name: string, kind: Kind, m: Metric, p: Point)
    requires p in Expand(name, kind, m)
    ensures !kind.Other? && (kind.Simple? ==> m.value.Some?) && (!kind.Simple? ==> m.present)
    ensures p.series.labels == m.labels && (kind.Simple? ==> p == Point(Series(name, m.labels, None), m.value.value))
  {
    hide BucketPoints, QuantilePoints;
    if kind.Histogram? && m.present {
      assert forall q :: q in BucketPoints(name, m.labels, AllBuckets(m)) ==> q.series.labels == m.labels;
    } else if kind.Summary? && m.present {
      QuantileLabels(name, m.labels, m.quantiles);
    }
  }

  lemma {:induction false} QuantileLabels(name: string, labels: seq<Label>, qs: seq<Quantile>)
    ensures forall q :: q in QuantilePoints(name, labels, qs) ==> q.series.labels == labels
    decreases |qs|
  {
    if qs != [] {
      QuantileLabels(name, labels, qs[..|qs| - 1]);
    }
  }

  // The series carries a number of metric k of family i, under the labels of that metric.
  ghost predicate SentFor(families: seq<Family>, ext: seq<Label>, one: TimeSeries, i: nat, k: nat, s: Series) {
    && i < |families| && Gathered(families, i, k, families[i].kind) && !families[i].kind.Other?
    && var m := families[i].metrics[k];
       && s.labels == m.labels && Merges(CandidatesOf(s, ext), one.labels)
       && (if families[i].kind.Simple? then m.value == Some(one.value) else m.present)
  }

  /** Nothing is sent but the numbers of metrics of a known kind in a family with a name, under their labels. */
  lemma OnlyMetrics(families: seq<Family>, ext: seq<Label>, out: seq<TimeSeries>, j: nat)
    requires Represents(ExpandAll(families), ext, out) && j < |out|
    ensures exists i: nat, k: nat, s :: SentFor(families, ext, out[j], i, k, s)
  {
    hide ExpandAll, Expand, ExpandFamily, Merges, CandidatesOf;
    var p := ExpandAll(families)[j];
    var i := FamilyOf(families, p);
    var k := MetricOf(families[i].name, families[i].kind, families[i].metrics, p);
    ExpandsNothing(families[i].name, families[i].kind, families[i].metrics[k], p);
    assert SentFor(families, ext, out[j], i, k, p.series);
  }

  /** A counter or gauge is sent with its value. */
  lemma ValueSent(families: seq<Family>, ext: seq<Label>, out: seq<TimeSeries>, i: nat, k: nat)
    requires Represents(ExpandAll(families), ext, out) && Gathered(families, i, k, Simple)
    ensures var f, m := families[i], families[i].metrics[k];
            m.value.Some? ==> Sends(out, ext, Series(f.name, m.labels, None), m.value.value)
  {
    hide Represents, ExpandAll, Sends;
    var f, m := families[i], families[i].metrics[k];
    if m.value.Some? {
      PointSent(families, ext, out, i, k, Simple, Point(Series(f.name, m.labels, None), m.value.value));
    }
  }

  lemma TotalsSent(families: seq<Family>, ext: seq<Label>, out: seq<TimeSeries>, i: nat, k: nat, kind: Kind)
    requires Represents(ExpandAll(families), ext, out) && Gathered(families, i, k, kind)
    requires (kind.Histogram? || kind.Summary?) && families[i].metrics[k].present
    ensures var f, m := families[i], families[i].metrics[k];
            && Sends(out, ext, Series(f.name + "_count", m.labels, None), m.count)
            && (m.value.Some? ==> Sends(out, ext, Series(f.name + "_sum", m.labels, None), m.value.value))
  {
    hide Represents, ExpandAll, Sends, BucketPoints, QuantilePoints;
    var f, m := families[i], families[i].metrics[k];
    var count := Point(Series(f.name + "_count", m.labels, None), m.count);
    assert Totals(f.name, m)[0] == count;
    PointSent(families, ext, out, i, k, kind, count);
    if m.value.Some? {
      var sum := Point(Series(f.name + "_sum", m.labels, None), m.value.value);
      assert Totals(f.name, m)[1] == sum;
      PointSent(families, ext, out, i, k, kind, sum);
    }
  }

  /**
   A histogram is sent with its count, its sum unless that is no number, and every bucket with its count and
   its upper bound as label; without an infinite bucket one is sent that holds the whole count.
   */
  lemma HistogramSent(families: seq<Family>, ext: seq<Label>, out: seq<TimeSeries>, i: nat, k: nat)
    requires Represents(ExpandAll(families), ext, out) && Gathered(families, i, k, Histogram)
    requires families[i].metrics[k].present
    ensures var f, m := families[i], families[i].metrics[k];
            && Sends(out, ext, Series(f.name + "_count", m.labels, None), m.count)
            && (m.value.Some? ==> Sends(out, ext, Series(f.name + "_sum", m.labels, None), m.value.value))
            && (forall b :: b in m.buckets ==>
                  var text := if b.bound.Infinite? then "+Inf" else b.bound.text;
                  Sends(out, ext, Series(f.name + "_bucket", m.labels, Some(Label("le", text))), b.count))
            && ((forall b :: b in m.buckets ==> b.bound.Finite?) ==>
                  Sends(out, ext, Series(f.name + "_bucket", m.labels, Some(Label("le", "+Inf"))), m.count))
  {
    hide Represents, ExpandAll, Sends, Totals;
    var f, m := families[i], families[i].metrics[k];
    TotalsSent(families, ext, out, i, k, Histogram);
    var all := AllBuckets(m);
    forall b | b in all
      ensures var text := if b.bound.Infinite? then "+Inf" else b.bound.text;
              Sends(out, ext, Series(f.name + "_bucket", m.labels, Some(Label("le", text))), b.count)
    {
      var j :| 0 <= j < |all| && all[j] == b;
      assert BucketPoints(f.name, m.labels, all)[j] == BucketPoint(f.name, m.labels, b);
      PointSent(families, ext, out, i, k, Histogram, BucketPoint(f.name, m.labels, b));
    }
    if forall b :: b in m.buckets ==> b.bound.Finite? {
      assert Infinite !in BoundsOf(m.buckets);
      assert all[|m.buckets|] == Bucket(Infinite, m.count);
    }
  }

  lemma {:induction false} QuantileIn(name: string, labels: seq<Label>, qs: seq<Quantile>, q: Quantile)
    requires q in qs && q.value.Some?
    ensures Point(Series(name, labels, Some(Label("quantile", q.text))), q.value.value)
            in QuantilePoints(name, labels, qs)
    decreases |qs|
  {
    if q != qs[|qs| - 1] {
      QuantileIn(name, labels, qs[..|qs| - 1], q);
    }
  }

  /** A summary is sent with its count, its sum and every quantile, except those that are no numbers. */
  lemma SummarySent(families: seq<Family>, ext: seq<Label>, out: seq<TimeSeries>, i: nat, k: nat)
    requires Represents(ExpandAll(families), ext, out) && Gathered(families, i, k, Summary)
    requires families[i].metrics[k].present
    ensures var f, m := families[i], families[i].metrics[k];
            && Sends(out, ext, Series(f.name + "_count", m.labels, None), m.count)
            && (m.value.Some? ==> Sends(out, ext, Series(f.name + "_sum", m.labels, None), m.value.value))
            && (forall q :: q in m.quantiles && q.value.Some? ==>
                  Sends(out, ext, Series(f.name, m.labels, Some(Label("quantile", q.text))), q.value.value))
  {
    hide Represents, ExpandAll, Sends, Totals, QuantilePoints;
    var f, m := families[i], families[i].metrics[k];
    TotalsSent(families, ext, out, i, k, Summary);
    forall q | q in m.quantiles && q.value.Some?
      ensures Sends(out, ext, Series(f.name, m.labels, Some(Label("quantile", q.text))), q.value.value)
    {
      QuantileIn(f.name, m.labels, m.quantiles, q);
      PointSent(families, ext, out, i, k, Summary,
                Point(Series(f.name, m.labels, Some(Label("quantile", q.text))), q.value.value));
    }
  }

  // ---- Distinct series -------------------------------------------------------------------------

  // Either the metric names differ, or the same label names have other values.
  ghost predicate Apart(a: Series, b: Series) {
    a.name != b.name || (SameShape(a, b) && a != b)
  }

  ghost predicate CrossApart(ps: seq<Point>, qs: seq<Point>) {
    forall i, j :: 0 <= i < |ps| && 0 <= j < |qs| ==> Apart(ps[i].series, qs[j].series)
  }

  ghost predicate AllApart(ps: seq<Point>) {
    forall i, j :: 0 <= i < j < |ps| ==> Apart(ps[i].series, ps[j].series)
  }

  lemma ApartJoin(ps: seq<Point>, qs: seq<Point>)
    requires AllApart(ps) && AllApart(qs) && CrossApart(ps, qs)
    ensures AllApart(ps + qs)
  {
    hide Apart;
    var all := ps + qs;
    forall i, j | 0 <= i < j < |all|
      ensures Apart(all[i].series, all[j].series)
    {
      assert all[i] == if i < |ps| then ps[i] else qs[i - |ps|];
      assert all[j] == if j < |ps| then ps[j] else qs[j - |ps|];
    }
  }

  // A metric that the registry accepts.
  ghost predicate GoodMetric(kind: Kind, m: Metric) {
    && WellNamed(m.labels)
    && (kind.Histogram? ==>
          && (forall i :: 0 <= i < |m.labels| ==> m.labels[i].name != "le")
          && (forall i :: 0 <= i < |m.buckets| && m.buckets[i].bound.Finite? ==> m.buckets[i].bound.text != "+Inf")
          && (forall i, j :: 0 <= i < j < |m.buckets| ==> m.buckets[i].bound != m.buckets[j].bound))
    && (kind.Summary? ==>
          && (forall i :: 0 <= i < |m.labels| ==> m.labels[i].name != "quantile")
          && (forall i, j :: 0 <= i < j < |m.quantiles| ==> m.quantiles[i].text != m.quantiles[j].text))
  }

  ghost predicate SameNames(a: seq<Label>, b: seq<Label>) {
    |a| == |b| && forall i :: 0 <= i < |a| ==> a[i].name == b[i].name
  }

  // The metrics of a family have the same label names, and no two of them the same values.
  ghost predicate GoodFamily(kind: Kind, metrics: seq<Metric>) {
    && (forall i :: 0 <= i < |metrics| ==> GoodMetric(kind, metrics[i]))
    && (forall i, j :: 0 <= i < j < |metrics| ==>
          SameNames(metrics[i].labels, metrics[j].labels) && metrics[i].labels != metrics[j].labels)
  }

  // The metric names that a family expands to.
  ghost function NamesOf(f: Family): set<string> {
    if f.name == "" then {}
    else
      match f.kind
      case Simple => {f.name}
      case Histogram => {f.name + "_count", f.name + "_sum", f.name + "_bucket"}
      case Summary => {f.name, f.name + "_count", f.name + "_sum"}
      case Other => {}
  }

  ghost predicate GoodFamilies(families: seq<Family>) {
    && (forall i :: 0 <= i < |families| ==> GoodFamily(families[i].kind, families[i].metrics))
    && (forall i, j :: 0 <= i < j < |families| ==> NamesOf(families[i]) !! NamesOf(families[j]))
  }

  // Where a series of a metric comes from.
  ghost predicate From(name: string, kind: Kind, labels: seq<Label>, s: Series) {
    && s.labels == labels
    && match kind
       case Simple => s.name == name && s.extra.None?
       case Histogram =>
         if s.extra.None? then s.name == name + "_count" || s.name == name + "_sum"
         else s.name == name + "_bucket" && s.extra.value.name == "le"
       case Summary =>
         if s.extra.None? then s.name == name + "_count" || s.name == name + "_sum"
         else s.name == name && s.extra.value.name == "quantile"
       case Other => false
  }

  ghost predicate AllFrom(name: string, kind: Kind, labels: seq<Label>, ps: seq<Point>) {
    forall i :: 0 <= i < |ps| ==> From(name, kind, labels, ps[i].series)
  }

  // The extra label of each point is the quantile label of one of the texts.
  ghost predicate Quantiled(ps: seq<Point>, texts: set<string>) {
    forall i :: 0 <= i < |ps| ==>
      ps[i].series.extra.Some? && ps[i].series.extra.value.name == "quantile" && ps[i].series.extra.value.value in texts
  }

  ghost function TextsOf(qs: seq<Quantile>): set<string> {
    set q | q in qs :: q.text
  }

  lemma {:induction false} QuantilesFrom(name: string, labels: seq<Label>, qs: seq<Quantile>)
    requires forall i, j :: 0 <= i < j < |qs| ==> qs[i].text != qs[j].text
    ensures AllFrom(name, Summary, labels, QuantilePoints(name, labels, qs))
    ensures Quantiled(QuantilePoints(name, labels, qs), TextsOf(qs))
    ensures AllApart(QuantilePoints(name, labels, qs))
    decreases |qs|
  {
    if qs != [] {
      var init, q := qs[..|qs| - 1], qs[|qs| - 1];
      QuantilesFrom(name, labels, init);
      assert forall x :: x in qs <==> x in init || x == q;
      assert q.text !in TextsOf(init);
      var ps, last := QuantilePoints(name, labels, init), QuantilePoint(name, labels, q);
      forall i, j | 0 <= i < |ps| && 0 <= j < |last|
        ensures Apart(ps[i].series, last[j].series)
      {
        assert ps[i].series.extra.value.value in TextsOf(init);
      }
      ApartJoin(ps, last);
    }
  }

  lemma TotalsFrom(name: string, kind: Kind, m: Metric)
    requires kind.Histogram? || kind.Summary?
    ensures AllFrom(name, kind, m.labels, Totals(name, m)) && AllApart(Totals(name, m))
    ensures forall i :: 0 <= i < |Totals(name, m)| ==> Totals(name, m)[i].series.extra.None?
  {
    LongerNames(name);
  }

  lemma LongerNames(name: string)
    ensures name != name + "_count" && name != name + "_sum" && name + "_count" != name + "_sum"
    ensures name + "_count" != name + "_bucket" && name + "_sum" != name + "_bucket"
  {
    assert |name + "_count"| == |name| + 6 && |name + "_sum"| == |name| + 4 && |name + "_bucket"| == |name| + 7;
  }

  lemma BucketsFrom(name: string, m: Metric)
    requires GoodMetric(Histogram, m)
    ensures var ps := BucketPoints(name, m.labels, AllBuckets(m));
            && AllFrom(name, Histogram, m.labels, ps) && AllApart(ps)
            && forall i :: 0 <= i < |ps| ==> ps[i].series.extra.Some?
  {
    var buckets := AllBuckets(m);
    forall i, j | 0 <= i < j < |buckets|
      ensures BoundText(buckets[i].bound) != BoundText(buckets[j].bound)
    {
      assert forall k :: 0 <= k < |m.buckets| ==> BoundsOf(m.buckets)[k] == buckets[k].bound;
    }
  }

  lemma MetricApart(name: string, kind: Kind, m: Metric)
    requires GoodMetric(kind, m)
    ensures AllFrom(name, kind, m.labels, Expand(name, kind, m)) && AllApart(Expand(name, kind, m))
  {
    LongerNames(name);
    match kind {
      case Simple =>
      case Histogram =>
        TotalsFrom(name, kind, m);
        BucketsFrom(name, m);
        ApartJoin(Totals(name, m), BucketPoints(name, m.labels, AllBuckets(m)));
      case Summary =>
        TotalsFrom(name, kind, m);
        QuantilesFrom(name, m.labels, m.quantiles);
        ApartJoin(Totals(name, m), QuantilePoints(name, m.labels, m.quantiles));
      case Other =>
    }
  }

  lemma SameFamilyApart(name: string, kind: Kind, a: Series, b: Series, la: seq<Label>, lb: seq<Label>)
    requires From(name, kind, la, a) && From(name, kind, lb, b) && SameNames(la, lb) && la != lb
    ensures Apart(a, b)
  {
    LongerNames(name);
  }

  // What is known of the points of the metrics so far.
  ghost predicate FromOne(name: string, kind: Kind, metrics: seq<Metric>, ps: seq<Point>) {
    forall i :: 0 <= i < |ps| ==>
      exists k :: 0 <= k < |metrics| && From(name, kind, metrics[k].labels, ps[i].series)
  }

  lemma {:induction false} FamilyApart(name: string, kind: Kind, metrics: seq<Metric>)
    requires GoodFamily(kind, metrics)
    ensures AllApart(ExpandFamily(name, kind, metrics))
    ensures FromOne(name, kind, metrics, ExpandFamily(name, kind, metrics))
    decreases |metrics|
  {
    hide Expand, GoodMetric, From, SameNames, Apart, AllApart;
    if metrics == [] {
      assert AllApart([]) by { NothingApart(); }
    } else {
      var init, m := metrics[..|metrics| - 1], metrics[|metrics| - 1];
      FamilyApart(name, kind, init);
      MetricApart(name, kind, m);
      var ps, last := ExpandFamily(name, kind, init), Expand(name, kind, m);
      forall i, j | 0 <= i < |ps| && 0 <= j < |last|
        ensures Apart(ps[i].series, last[j].series)
      {
        var k :| 0 <= k < |init| && From(name, kind, init[k].labels, ps[i].series);
        assert init[k] == metrics[k];
        SameFamilyApart(name, kind, ps[i].series, last[j].series, init[k].labels, m.labels);
      }
      ApartJoin(ps, last);
      FromJoin(name, kind, metrics, ps, last);
    }
  }

  lemma NothingApart()
    ensures AllApart([])
  {
  }

  lemma FromJoin(name: string, kind: Kind, metrics: seq<Metric>, ps: seq<Point>, last: seq<Point>)
    requires metrics != [] && FromOne(name, kind, metrics[..|metrics| - 1], ps)
    requires AllFrom(name, kind, metrics[|metrics| - 1].labels, last)
    ensures FromOne(name, kind, metrics, ps + last)
  {
    hide From;
    var all := ps + last;
    forall i | 0 <= i < |all|
      ensures exists k :: 0 <= k < |metrics| && From(name, kind, metrics[k].labels, all[i].series)
    {
      if i < |ps| {
        var k :| 0 <= k < |metrics| - 1 && From(name, kind, metrics[..|metrics| - 1][k].labels, ps[i].series);
        assert metrics[..|metrics| - 1][k] == metrics[k];
      } else {
        assert all[i] == last[i - |ps|];
        assert From(name, kind, metrics[|metrics| - 1].labels, last[i - |ps|].series);
      }
    }
  }

  ghost predicate Within(ps: seq<Point>, names: set<string>) {
    forall i :: 0 <= i < |ps| ==> ps[i].series.name in names
  }

  lemma FamilyWithin(f: Family)
    requires GoodFamily(f.kind, f.metrics)
    ensures AllApart(Points(f)) && Within(Points(f), NamesOf(f))
  {
    hide AllApart, ExpandFamily;
    if f.name == "" {
      NothingApart();
    } else {
      FamilyApart(f.name, f.kind, f.metrics);
    }
  }

  ghost function AllNames(families: seq<Family>): set<string>
    decreases |families|
  {
    if families == [] then {} else AllNames(families[..|families| - 1]) + NamesOf(families[|families| - 1])
  }

  lemma {:induction false} NamesApart(families: seq<Family>, f: Family)
    requires forall i :: 0 <= i < |families| ==> NamesOf(families[i]) !! NamesOf(f)
    ensures AllNames(families) !! NamesOf(f)
    decreases |families|
  {
    if families != [] {
      NamesApart(families[..|families| - 1], f);
    }
  }

  lemma {:induction false} FamiliesApart(families: seq<Family>)
    requires GoodFamilies(families)
    ensures AllApart(ExpandAll(families)) && Within(ExpandAll(families), AllNames(families))
    decreases |families|
  {
    hide Points, GoodFamily, NamesOf, AllApart;
    if families == [] {
      NothingApart();
    } else {
      var init, f := families[..|families| - 1], families[|families| - 1];
      assert forall i :: 0 <= i < |init| ==> init[i] == families[i];
      FamiliesApart(init);
      FamilyWithin(f);
      NamesApart(init, f);
      forall i, j | 0 <= i < |ExpandAll(init)| && 0 <= j < |Points(f)|
        ensures Apart(ExpandAll(init)[i].series, Points(f)[j].series)
      {
        assert ExpandAll(init)[i].series.name in AllNames(init);
      }
      ApartJoin(ExpandAll(init), Points(f));
    }
  }

  ghost predicate AllGood(ps: seq<Point>) {
    forall i :: 0 <= i < |ps| ==> WellFormed(ps[i].series)
  }

  lemma FromWellFormed(name: string, kind: Kind, m: Metric, s: Series)
    requires GoodMetric(kind, m) && From(name, kind, m.labels, s)
    ensures WellFormed(s)
  {
    assert "le" != "__name__" && "quantile" != "__name__";
  }

  lemma FamilyGood(f: Family)
    requires GoodFamily(f.kind, f.metrics)
    ensures AllGood(Points(f))
  {
    hide ExpandFamily, From, GoodMetric, WellFormed, AllApart;
    if f.name != "" {
      FamilyApart(f.name, f.kind, f.metrics);
      var ps := Points(f);
      assert FromOne(f.name, f.kind, f.metrics, ps);
      forall i | 0 <= i < |ps|
        ensures WellFormed(ps[i].series)
      {
        var k :| 0 <= k < |f.metrics| && From(f.name, f.kind, f.metrics[k].labels, ps[i].series);
        FromWellFormed(f.name, f.kind, f.metrics[k], ps[i].series);
      }
    }
  }

  lemma {:induction false} FamiliesGood(families: seq<Family>)
    requires GoodFamilies(families)
    ensures AllGood(ExpandAll(families))
    decreases |families|
  {
    hide Points, GoodFamily, NamesOf, WellFormed;
    if families != [] {
      var init := families[..|families| - 1];
      assert forall i :: 0 <= i < |init| ==> init[i] == families[i];
      FamiliesGood(init);
      FamilyGood(families[|families| - 1]);
    }
  }

  /** No two of the series sent have the same labels, whatever the external labels are. */
  lemma DistinctSeries(families: seq<Family>, ext: seq<Label>, out: seq<TimeSeries>)
    requires GoodFamilies(families)
    requires Represents(ExpandAll(families), ext, out)
    ensures forall i, j :: 0 <= i < j < |out| ==> out[i].labels != out[j].labels
  {
    hide GoodFamilies, ExpandAll, Merges, CandidatesOf, WellFormed;
    var ps := ExpandAll(families);
    FamiliesApart(families);
    FamiliesGood(families);
    forall i, j | 0 <= i < j < |out|
      ensures out[i].labels != out[j].labels
    {
      var a, b := ps[i].series, ps[j].series;
      assert Apart(a, b);
      if out[i].labels == out[j].labels {
        MergeInjective(a, b, ext, out[i].labels);
        assert false;
      }
    }
  }

  // ---- The infinite bucket -----------------------------------------------------------------------

  // The bucket labels of the series of a histogram.
  ghost function Texts(buckets: seq<Bucket>): (texts: seq<string>)
    ensures |texts| == |buckets| && forall i :: 0 <= i < |texts| ==> texts[i] == BoundText(buckets[i].bound)
  {
    seq(|buckets|, i requires 0 <= i < |buckets| => BoundText(buckets[i].bound))
  }

  lemma {:induction false} InfiniteBuckets(buckets: seq<Bucket>)
    requires forall i :: 0 <= i < |buckets| && buckets[i].bound.Finite? ==> buckets[i].bound.text != "+Inf"
    ensures Occurrences(Texts(buckets), "+Inf") == Occurrences(BoundsOf(buckets), Infinite)
    ensures Infinite in BoundsOf(buckets) <==> Occurrences(BoundsOf(buckets), Infinite) > 0
    decreases |buckets|
  {
    if buckets != [] {
      var init, b := buckets[..|buckets| - 1], buckets[|buckets| - 1];
      InfiniteBuckets(init);
      assert Texts(buckets)[..|init|] == Texts(init);
      assert BoundsOf(buckets)[..|init|] == BoundsOf(init);
      assert BoundsOf(buckets) == BoundsOf(init) + [b.bound];
    }
  }

  /** A histogram has exactly one series for the infinite bucket unless its own buckets already have several. */
  lemma OneInfiniteBucket(m: Metric)
    requires forall i :: 0 <= i < |m.buckets| && m.buckets[i].bound.Finite? ==> m.buckets[i].bound.text != "+Inf"
    ensures Occurrences(Texts(AllBuckets(m)), "+Inf") == 1 <==> Occurrences(BoundsOf(m.buckets), Infinite) <= 1
  {
    InfiniteBuckets(m.buckets);
    if Infinite in BoundsOf(m.buckets) {
      assert AllBuckets(m) == m.buckets;
    } else {
      assert Texts(AllBuckets(m))[..|m.buckets|] == Texts(m.buckets);
    }
  }
}
