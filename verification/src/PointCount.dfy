/** Counting points and time series by measurement: the loop of `parseLineProto`. */
module PointCount {

  datatype Point = Point(name: string, id: int)

  datatype Measurement = Measurement(points: nat, series: nat)

  type Counts = map<string, Measurement>

  /** Sums over all measurements. */
  ghost function TotalPoints(m: Counts): nat {
    if m == map[] then 0 else
      var k :| k in m;
      m[k].points + TotalPoints(m - {k})
  }

  ghost function TotalSeries(m: Counts): nat {
    if m == map[] then 0 else
      var k :| k in m;
      m[k].series + TotalSeries(m - {k})
  }

  /** The sums do not depend on the order of the measurements. */
  lemma TotalsWithout(m: Counts, k: string)
    requires k in m
    ensures TotalPoints(m) == m[k].points + TotalPoints(m - {k})
    ensures TotalSeries(m) == m[k].series + TotalSeries(m - {k})
  {
    PointsWithout(m, k);
    SeriesWithout(m, k);
  }

  lemma {:induction false} PointsWithout(m: Counts, k: string)
    requires k in m
    ensures TotalPoints(m) == m[k].points + TotalPoints(m - {k})
    decreases m
  {
    var j :| j in m && TotalPoints(m) == m[j].points + TotalPoints(m - {j});
    if j != k {
      PointsWithout(m - {j}, k);
      PointsWithout(m - {k}, j);
      assert m - {j} - {k} == m - {k} - {j};
    }
  }

  lemma {:induction false} SeriesWithout(m: Counts, k: string)
    requires k in m
    ensures TotalSeries(m) == m[k].series + TotalSeries(m - {k})
    decreases m
  {
    var j :| j in m && TotalSeries(m) == m[j].series + TotalSeries(m - {j});
    if j != k {
      SeriesWithout(m - {j}, k);
      SeriesWithout(m - {k}, j);
      assert m - {j} - {k} == m - {k} - {j};
    }
  }

  function Get(m: Counts, k: string): Measurement {
    if k in m then m[k] else Measurement(0, 0)
  }

  lemma TotalsUpdated(m: Counts, k: string, v: Measurement)
    ensures TotalPoints(m[k := v]) == TotalPoints(m) + v.points - Get(m, k).points
    ensures TotalSeries(m[k := v]) == TotalSeries(m) + v.series - Get(m, k).series
  {
    var m' := m[k := v];
    TotalsWithout(m', k);
    assert m' - {k} == m - {k};
    if k in m {
      TotalsWithout(m, k);
    } else {
      assert m - {k} == m;
    }
  }

  function Ids(pts: seq<Point>): set<int> {
    set i | 0 <= i < |pts| :: pts[i].id
  }

  function Named(pts: seq<Point>, name: string): nat {
    if pts == [] then 0
    else Named(pts[..|pts| - 1], name) + if pts[|pts| - 1].name == name then 1 else 0
  }

  /** Points of a measurement whose series was not seen before. */
  function Firsts(pts: seq<Point>, name: string): nat {
    if pts == [] then 0
    else
      var n := |pts| - 1;
      Firsts(pts[..n], name) + if pts[n].name == name && pts[n].id !in Ids(pts[..n]) then 1 else 0
  }

  /** Every measurement has the number of its points and of the series that it was the
      first to show; the sums over all measurements are
      the number of points and the number of distinct series, also when one series
      appears under several names. */
  method CountPoints(pts: seq<Point>) returns (measurements: Counts, hashids: set<int>)
    ensures hashids == Ids(pts)
    ensures TotalPoints(measurements) == |pts| && TotalSeries(measurements) == |Ids(pts)|
    ensures forall name :: Get(measurements, name) == Measurement(Named(pts, name), Firsts(pts, name))
  {
    measurements, hashids := map[], {};
    var i := 0;
    while i < |pts|
      invariant 0 <= i <= |pts| && hashids == Ids(pts[..i])
      invariant TotalPoints(measurements) == i && TotalSeries(measurements) == |hashids|
      invariant Counted(pts[..i], measurements)
    {
      CountedMore(pts, i, measurements);
      IdsGrow(pts, i);
      measurements, hashids := CountOne(measurements, hashids, pts[i]);
      i := i + 1;
    }
    assert pts[..i] == pts;
  }

  ghost predicate Counted(pts: seq<Point>, m: Counts) {
    forall name :: Get(m, name) == Measurement(Named(pts, name), Firsts(pts, name))
  }

  /** What a point adds to its measurement. */
  function Plus(m: Measurement, isNew: bool): Measurement {
    Measurement(m.points + 1, m.series + if isNew then 1 else 0)
  }

  lemma CountedMore(pts: seq<Point>, i: nat, m: Counts)
    requires i < |pts| && Counted(pts[..i], m)
    ensures Counted(pts[..i + 1], m[pts[i].name := Plus(Get(m, pts[i].name), pts[i].id !in Ids(pts[..i]))])
  {
    var p := pts[i];
    var m' := m[p.name := Plus(Get(m, p.name), p.id !in Ids(pts[..i]))];
    assert pts[..i + 1][..i] == pts[..i];
    forall name
      ensures Get(m', name) == Measurement(Named(pts[..i + 1], name), Firsts(pts[..i + 1], name))
    {
      assert Get(m, name) == Measurement(Named(pts[..i], name), Firsts(pts[..i], name));
    }
  }

  /** One round of the loop. */
  method CountOne(have: Counts, seen: set<int>, p: Point) returns (measurements: Counts, hashids: set<int>)
    ensures measurements == have[p.name := Plus(Get(have, p.name), p.id !in seen)]
    ensures hashids == seen + {p.id}
    ensures TotalPoints(measurements) == TotalPoints(have) + 1
    ensures TotalSeries(measurements) - |hashids| == TotalSeries(have) - |seen|
  {
    measurements, hashids := have, seen;
    if p.name in measurements {
      measurements := measurements[p.name := measurements[p.name].(points := measurements[p.name].points + 1)];
    } else {
      measurements := measurements[p.name := Measurement(1, 0)];
    }
    if p.id !in hashids {
      hashids := hashids + {p.id};
      measurements := measurements[p.name := measurements[p.name].(series := measurements[p.name].series + 1)];
    } else {
      assert seen + {p.id} == seen;
    }
    TotalsUpdated(have, p.name, measurements[p.name]);
  }

  lemma IdsGrow(pts: seq<Point>, i: nat)
    requires i < |pts|
    ensures Ids(pts[..i + 1]) == Ids(pts[..i]) + {pts[i].id}
  {
    assert pts[..i + 1] == pts[..i] + [pts[i]];
    forall x | x in Ids(pts[..i])
      ensures x in Ids(pts[..i + 1])
    {
      var k :| 0 <= k < |pts[..i]| && pts[..i][k].id == x;
      assert pts[..i + 1][k].id == x;
    }
    assert pts[..i + 1][i].id == pts[i].id;
  }
}
