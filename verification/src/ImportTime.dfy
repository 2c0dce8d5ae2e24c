/** Moving recorded points to the present: `adjustPointTime`. Times are nanoseconds. */
module ImportTime {
  import opened Distinctness

  const MAX_DURATION: int := 0x7FFF_FFFF_FFFF_FFFF
  const MIN_DURATION: int := -0x8000_0000_0000_0000

  /** time.Time.Sub, which saturates at the range of a Duration. */
  function Sub(t: int, u: int): int {
    if t - u > MAX_DURATION then MAX_DURATION
    else if t - u < MIN_DURATION then MIN_DURATION
    else t - u
  }

  class Point {
    var time: int
  }

  /** In the order of their times. */
  predicate Ascending(ps: seq<Point>)
    reads ps
  {
    forall i, j :: 0 <= i < j < |ps| ==> ps[i].time <= ps[j].time
  }

  /** The comparison of point.SortByTime: the difference saturates, and still its sign
      orders all times. */
  function Compare(l: int, r: int): (c: int)
    ensures (c < 0 <==> l < r) && (c == 0 <==> l == r) && (c > 0 <==> l > r)
  {
    var diff := Sub(l, r);
    if diff == 0 then 0 else if diff > 0 then 1 else -1
  }

  /** The same points in some order. */
  ghost predicate Permutation(a: seq<Point>, b: seq<Point>) {
    |a| == |b| && multiset(a) == multiset(b)
  }

  /** point.SortByTime; which of equal times comes first is not promised. */
  method SortByTime(ps: seq<Point>) returns (r: seq<Point>)
    ensures Permutation(r, ps) && Ascending(r)
  {
    r := [];
    var i := 0;
    while i < |ps|
      invariant 0 <= i <= |ps|
      invariant Permutation(r, ps[..i]) && Ascending(r)
    {
      var k := PlaceFor(r, ps[i]);
      InsertedAscends(r, ps[i], k);
      InsertedOnce(r, ps, i, k);
      r := Inserted(r, ps[i], k);
      i := i + 1;
    }
    assert ps[..i] == ps;
  }

  method PlaceFor(r: seq<Point>, p: Point) returns (k: nat)
    ensures k <= |r|
    ensures k > 0 ==> r[k - 1].time <= p.time
    ensures k < |r| ==> p.time <= r[k].time
  {
    k := |r|;
    while k > 0 && Compare(p.time, r[k - 1].time) < 0
      invariant 0 <= k <= |r|
      invariant k < |r| ==> p.time <= r[k].time
    {
      k := k - 1;
    }
  }

  function Inserted(r: seq<Point>, p: Point, k: nat): seq<Point>
    requires k <= |r|
  {
    r[..k] + [p] + r[k..]
  }

  lemma InsertedOnce(r: seq<Point>, ps: seq<Point>, i: nat, k: nat)
    requires i < |ps| && k <= |r| && Permutation(r, ps[..i])
    ensures Permutation(Inserted(r, ps[i], k), ps[..i + 1])
  {
    assert r == r[..k] + r[k..];
    assert ps[..i + 1] == ps[..i] + [ps[i]];
  }

  lemma InsertedAscends(r: seq<Point>, p: Point, k: nat)
    requires k <= |r| && Ascending(r)
    requires k > 0 ==> r[k - 1].time <= p.time
    requires k < |r| ==> p.time <= r[k].time
    ensures Ascending(Inserted(r, p, k))
  {
    var s := Inserted(r, p, k);
    forall i, j | 0 <= i < j < |s|
      ensures s[i].time <= s[j].time
    {
      var x := if i < k then r[i] else if i == k then p else r[i - 1];
      var y := if j < k then r[j] else if j == k then p else r[j - 1];
      assert s[i] == x && s[j] == y;
      assert i < k ==> r[i].time <= r[k - 1].time;
      assert k < j ==> r[k].time <= r[j - 1].time;
    }
  }

  function Times(d: int, n: nat): int { if n == 0 then 0 else Times(d, n - 1) + d }

  /** How far a point goes that is moved by `d` as often as it is listed. */
  ghost function Moves(d: int, ps: seq<Point>, p: Point): int {
    Times(d, multiset(ps)[p])
  }

  /** The points come back sorted by their old times, each moved by `shift` as often as
      it is listed; `was` are the old times. If no point is listed twice, all are moved once, so that every
      difference between two of them is kept; the latest one lands exactly on `when` if
      and only if the move fits a Duration, and no point comes after it. */
  method AdjustPointTime(when: int, pts: seq<Point>) returns (out: seq<Point>, ghost was: seq<int>, ghost shift: int)
    modifies pts
    ensures Permutation(out, pts) && |was| == |out|
    ensures forall i :: 0 <= i < |out| ==> out[i] in pts && was[i] == old(out[i].time)
    ensures forall i, j :: 0 <= i < j < |was| ==> was[i] <= was[j]
    ensures forall i :: 0 <= i < |out| ==> out[i].time == was[i] + Moves(shift, out, out[i])
    ensures pts != [] ==> shift == Sub(when, was[|was| - 1])
    ensures Distinct(pts) ==> Ascending(out) && forall i :: 0 <= i < |out| ==> out[i].time == was[i] + shift
    ensures Distinct(pts) && pts != [] ==>
              (out[|out| - 1].time == when <==> MIN_DURATION <= when - was[|was| - 1] <= MAX_DURATION)
  {
    if |pts| == 0 {
      return [], [], 0;
    }
    var sorted;
    sorted, was := Sorted(pts);
    var timeDiff := Sub(when, sorted[|sorted| - 1].time);
    out := MoveAll(sorted, timeDiff, was);
    shift := timeDiff;
    if Distinct(pts) {
      MovedTogether(out, pts, was, shift, when);
    }
  }

  method Sorted(pts: seq<Point>) returns (sorted: seq<Point>, ghost was: seq<int>)
    ensures Permutation(sorted, pts) && |was| == |sorted|
    ensures forall i :: 0 <= i < |sorted| ==> sorted[i] in pts && was[i] == sorted[i].time
    ensures forall i, j :: 0 <= i < j < |was| ==> was[i] <= was[j]
  {
    sorted := SortByTime(pts);
    SamePoints(sorted, pts);
    assert forall i :: 0 <= i < |sorted| ==> sorted[i] in sorted;
    was := TimesOf(sorted);
  }

  lemma MovedTogether(out: seq<Point>, pts: seq<Point>, was: seq<int>, d: int, when: int)
    requires Distinct(pts) && Permutation(out, pts) && |was| == |out| > 0
    requires forall i :: 0 <= i < |out| ==> out[i].time == was[i] + Moves(d, out, out[i])
    requires forall i, j :: 0 <= i < j < |was| ==> was[i] <= was[j]
    requires d == Sub(when, was[|was| - 1])
    ensures Ascending(out) && forall i :: 0 <= i < |out| ==> out[i].time == was[i] + d
    ensures out[|out| - 1].time == when <==> MIN_DURATION <= when - was[|was| - 1] <= MAX_DURATION
  {
    DistinctPermutation(pts, out);
    MovedOnce(out, d);
    Shifted(out, was, d, when);
  }

  lemma SamePoints(a: seq<Point>, b: seq<Point>)
    requires Permutation(a, b)
    ensures forall p :: p in a <==> p in b
  {
    forall p
      ensures p in a <==> p in b
    {
      assert p in multiset(a) <==> p in multiset(b);
    }
  }

  lemma MovedOnce(ps: seq<Point>, d: int)
    requires Distinct(ps)
    ensures forall i :: 0 <= i < |ps| ==> Moves(d, ps, ps[i]) == d
  {
    DistinctCounts(ps);
    assert Times(d, 1) == Times(d, 0) + d;
    assert forall i :: 0 <= i < |ps| ==> ps[i] in ps;
  }

  /** The loop that sets the new times; `was` are the old ones. */
  method MoveAll(ps: seq<Point>, d: int, ghost was: seq<int>) returns (out: seq<Point>)
    requires |was| == |ps| && forall j :: 0 <= j < |ps| ==> was[j] == ps[j].time
    modifies ps
    ensures out == ps
    ensures forall j :: 0 <= j < |ps| ==> ps[j].time == was[j] + Moves(d, ps, ps[j])
  {
    out := [];
    var i := 0;
    while i < |ps|
      invariant 0 <= i <= |ps| && out == ps[..i]
      invariant forall j :: 0 <= j < |ps| ==> ps[j].time == was[j] + Moves(d, ps[..i], ps[j])
    {
      CountNext(ps, i, d);
      ps[i].time := ps[i].time + d;
      out := out + [ps[i]];
      i := i + 1;
    }
    assert ps[..i] == ps;
  }

  ghost function TimesOf(ps: seq<Point>): (ts: seq<int>)
    reads ps
    ensures |ts| == |ps| && forall i :: 0 <= i < |ps| ==> ts[i] == ps[i].time
  {
    seq(|ps|, i requires 0 <= i < |ps| reads ps => ps[i].time)
  }

  /** Points moved by one shift keep their order, and the last one shows where it went. */
  lemma Shifted(ps: seq<Point>, was: seq<int>, d: int, when: int)
    requires |was| == |ps| > 0 && forall i :: 0 <= i < |ps| ==> ps[i].time == was[i] + d
    requires forall i, j :: 0 <= i < j < |was| ==> was[i] <= was[j]
    requires d == Sub(when, was[|was| - 1])
    ensures Ascending(ps) && forall p :: p in ps ==> p.time <= ps[|ps| - 1].time
    ensures ps[|ps| - 1].time == when <==> MIN_DURATION <= when - was[|was| - 1] <= MAX_DURATION
  {
  }

  lemma CountNext(ps: seq<Point>, i: nat, d: int)
    requires i < |ps|
    ensures forall p :: Moves(d, ps[..i + 1], p) == Moves(d, ps[..i], p) + if p == ps[i] then d else 0
  {
    assert ps[..i + 1] == ps[..i] + [ps[i]];
  }
}
