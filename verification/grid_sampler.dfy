/**
 * `generate_points_in_polygon`: lay a grid of step `step_m` over the bounding
 * box of the projected region, walk it x-major, keep the candidates the
 * projected region contains, and map each kept one back to longitude/latitude.
 *
 * Metric coordinates are whole metres. The projection of the region, its
 * bounding box, its membership test and the reverse projection with 6-digit
 * rounding are library work and enter as parameters: the box, `inside` and
 * `toLonLat`.
 */
module GridSampler {

  /** A geographic point (longitude, latitude) as emitted by the sampler. */
  type LonLat = (real, real)

  /** `polygon_m.bounds`: the bounding box of the projected region, in metres. */
  datatype Box = Box(minx: int, miny: int, maxx: int, maxy: int)

  /** Length of `np.arange(lo, hi, step)`: ceil((hi - lo) / step), or 0 when hi <= lo. */
  function ArangeLength(lo: int, hi: int, step: int): nat
    requires step > 0
  {
    if hi <= lo then 0 else (hi - lo + step - 1) / step
  }

  lemma ArangeLengthBounds(lo: int, hi: int, step: int)
    requires step > 0
    ensures lo + ArangeLength(lo, hi, step) * step >= hi
    ensures ArangeLength(lo, hi, step) > 0 ==> lo + (ArangeLength(lo, hi, step) - 1) * step < hi
  {
    if hi > lo {
      var d, n := hi - lo, ArangeLength(lo, hi, step);
      assert d + step - 1 == n * step + (d + step - 1) % step;
      assert (n - 1) * step == n * step - step;
    }
  }

  lemma MulMonotone(i: int, n: int, step: int)
    requires 0 <= i <= n && step > 0
    ensures i * step <= n * step
  {
  }

  /**
   * `np.arange(lo, hi, step)` on whole numbers: starts at `lo`, steps by
   * `step`, holds only values strictly below `hi`, and leaves out no such value.
   */
  function Arange(lo: int, hi: int, step: int): (r: seq<int>)
    requires step > 0
    ensures forall i :: 0 <= i < |r| ==> r[i] == lo + i * step
    ensures forall i :: 0 <= i < |r| ==> lo <= r[i] < hi
    ensures lo + |r| * step >= hi
  {
    var n := ArangeLength(lo, hi, step);
    ArangeLengthBounds(lo, hi, step);
    var r := seq(n, i requires 0 <= i < n => lo + i * step);
    assert forall i :: 0 <= i < n ==> lo <= r[i] < hi by {
      forall i | 0 <= i < n
        ensures lo <= r[i] < hi
      {
        MulMonotone(i, n - 1, step);
      }
    }
    r
  }

  /** An extent no larger than one step gives the one coordinate `lo`. */
  lemma ArangeSingleCell(lo: int, hi: int, step: int)
    requires step > 0 && lo < hi <= lo + step
    ensures Arange(lo, hi, step) == [lo]
  {
    var n := ArangeLength(lo, hi, step);
    ArangeLengthBounds(lo, hi, step);
    if n > 1 {
      MulMonotone(1, n - 1, step);
    }
  }

  /** The candidates of one grid column: (x, y) for each y, in order. */
  function Column(x: int, ys: seq<int>): (c: seq<(int, int)>)
    ensures |c| == |ys|
    ensures forall j :: 0 <= j < |ys| ==> c[j] == (x, ys[j])
  {
    seq(|ys|, j requires 0 <= j < |ys| => (x, ys[j]))
  }

  /** One more `y` extends the column by one candidate. */
  lemma ColumnNext(x: int, ys: seq<int>, j: nat)
    requires j < |ys|
    ensures Column(x, ys[..j + 1]) == Column(x, ys[..j]) + [(x, ys[j])]
  {
    assert Column(x, ys[..j + 1])[j] == (x, ys[j]);
  }

  /** The nested `for x in xs: for y in ys` walk: all candidates, x-major. */
  function Candidates(xs: seq<int>, ys: seq<int>): seq<(int, int)>
  {
    if xs == [] then [] else Candidates(xs[..|xs| - 1], ys) + Column(xs[|xs| - 1], ys)
  }

  /** Keep the candidates the projected region contains, mapped back to longitude/latitude. */
  function Emit(cands: seq<(int, int)>, inside: (int, int) -> bool, toLonLat: (int, int) -> LonLat): seq<LonLat>
  {
    if cands == [] then []
    else
      var c := cands[|cands| - 1];
      Emit(cands[..|cands| - 1], inside, toLonLat) + (if inside(c.0, c.1) then [toLonLat(c.0, c.1)] else [])
  }

  /** What `generate_points_in_polygon` returns for the given box and step. */
  function GridPoints(box: Box, step: int, inside: (int, int) -> bool, toLonLat: (int, int) -> LonLat): seq<LonLat>
    requires step > 0
  {
    Emit(Candidates(Arange(box.minx, box.maxx, step), Arange(box.miny, box.maxy, step)), inside, toLonLat)
  }

  /** The sampler itself: two nested loops appending to `points`. */
  method GeneratePoints(box: Box, step: int, inside: (int, int) -> bool, toLonLat: (int, int) -> LonLat)
    returns (points: seq<LonLat>)
    requires step > 0
    ensures points == GridPoints(box, step, inside, toLonLat)
  {
    var xs := Arange(box.minx, box.maxx, step);
    var ys := Arange(box.miny, box.maxy, step);
    points := [];
    var i := 0;
    while i < |xs|
      invariant 0 <= i <= |xs|
      invariant points == Emit(Candidates(xs[..i], ys), inside, toLonLat)
    {
      ghost var done := Candidates(xs[..i], ys);
      var j := 0;
      assert done + Column(xs[i], ys[..0]) == done;
      while j < |ys|
        invariant 0 <= j <= |ys|
        invariant points == Emit(done + Column(xs[i], ys[..j]), inside, toLonLat)
      {
        EmitNextY(done, xs[i], ys, j, inside, toLonLat);
        if inside(xs[i], ys[j]) {
          points := points + [toLonLat(xs[i], ys[j])];
        }
        j := j + 1;
      }
      assert ys[..j] == ys;
      CandidatesNextX(xs, ys, i);
      i := i + 1;
    }
    assert xs[..i] == xs;
  }

  /** The inner loop's step: candidate `(x, ys[j])` is emitted after everything before it. */
  lemma EmitNextY(done: seq<(int, int)>, x: int, ys: seq<int>, j: nat, inside: (int, int) -> bool, toLonLat: (int, int) -> LonLat)
    requires j < |ys|
    ensures Emit(done + Column(x, ys[..j + 1]), inside, toLonLat)
         == Emit(done + Column(x, ys[..j]), inside, toLonLat) + (if inside(x, ys[j]) then [toLonLat(x, ys[j])] else [])
  {
    var before := done + Column(x, ys[..j]);
    ColumnNext(x, ys, j);
    assert done + Column(x, ys[..j + 1]) == before + [(x, ys[j])];
    assert (before + [(x, ys[j])])[..|before|] == before;
  }

  /** The outer loop's step: column `xs[i]` follows the columns before it. */
  lemma CandidatesNextX(xs: seq<int>, ys: seq<int>, i: nat)
    requires i < |xs|
    ensures Candidates(xs[..i + 1], ys) == Candidates(xs[..i], ys) + Column(xs[i], ys)
  {
    assert xs[..i + 1][..i] == xs[..i];
  }

  /** Emitting over a concatenation emits the first part's points first. */
  lemma {:induction false} EmitAppend(a: seq<(int, int)>, b: seq<(int, int)>, inside: (int, int) -> bool, toLonLat: (int, int) -> LonLat)
    ensures Emit(a + b, inside, toLonLat) == Emit(a, inside, toLonLat) + Emit(b, inside, toLonLat)
    decreases |b|
  {
    if b == [] {
      assert a + b == a;
    } else {
      var b' := b[..|b| - 1];
      assert (a + b)[..|a + b| - 1] == a + b';
      EmitAppend(a, b', inside, toLonLat);
    }
  }

  /** There are |xs| * |ys| candidates. */
  lemma {:induction false} CandidatesLength(xs: seq<int>, ys: seq<int>)
    ensures |Candidates(xs, ys)| == |xs| * |ys|
    decreases |xs|
  {
    if xs != [] {
      CandidatesLength(xs[..|xs| - 1], ys);
      assert (|xs| - 1) * |ys| + |ys| == |xs| * |ys|;
    }
  }

  /** The walk is x-major: candidate number i * |ys| + j is (xs[i], ys[j]). */
  lemma {:induction false} CandidateAt(xs: seq<int>, ys: seq<int>, i: int, j: int)
    requires 0 <= i < |xs| && 0 <= j < |ys|
    ensures i * |ys| + j < |Candidates(xs, ys)|
    ensures Candidates(xs, ys)[i * |ys| + j] == (xs[i], ys[j])
    decreases |xs|
  {
    var n, m := |xs|, |ys|;
    var xs' := xs[..n - 1];
    CandidatesLength(xs', ys);
    if i < n - 1 {
      CandidateAt(xs', ys, i, j);
    } else {
      assert i * m == (n - 1) * m;
    }
  }

  /** Every emitted point is the image of a candidate the projected region contains. */
  lemma {:induction false} EmitSound(cands: seq<(int, int)>, inside: (int, int) -> bool, toLonLat: (int, int) -> LonLat)
    ensures |Emit(cands, inside, toLonLat)| <= |cands|
    ensures forall p :: p in Emit(cands, inside, toLonLat) ==>
              exists c :: c in cands && inside(c.0, c.1) && p == toLonLat(c.0, c.1)
  {
    if cands != [] {
      var init := cands[..|cands| - 1];
      EmitSound(init, inside, toLonLat);
      assert forall c :: c in init ==> c in cands;
    }
  }

  /** Every candidate the projected region contains is emitted. */
  lemma {:induction false} EmitComplete(cands: seq<(int, int)>, inside: (int, int) -> bool, toLonLat: (int, int) -> LonLat)
    ensures forall c :: c in cands && inside(c.0, c.1) ==> toLonLat(c.0, c.1) in Emit(cands, inside, toLonLat)
  {
    if cands != [] {
      var init := cands[..|cands| - 1];
      EmitComplete(init, inside, toLonLat);
      assert cands == init + [cands[|cands| - 1]];
    }
  }

  /** The sampler emits at most |xs| * |ys| points. */
  lemma GridPointsBound(box: Box, step: int, inside: (int, int) -> bool, toLonLat: (int, int) -> LonLat)
    requires step > 0
    ensures |GridPoints(box, step, inside, toLonLat)|
            <= |Arange(box.minx, box.maxx, step)| * |Arange(box.miny, box.maxy, step)|
  {
    var xs, ys := Arange(box.minx, box.maxx, step), Arange(box.miny, box.maxy, step);
    CandidatesLength(xs, ys);
    EmitSound(Candidates(xs, ys), inside, toLonLat);
  }

  /** Every emitted point is the image of a grid candidate inside the projected region. */
  lemma GridPointsSound(box: Box, step: int, inside: (int, int) -> bool, toLonLat: (int, int) -> LonLat, p: LonLat)
    requires step > 0
    requires p in GridPoints(box, step, inside, toLonLat)
    ensures exists x, y :: x in Arange(box.minx, box.maxx, step) && y in Arange(box.miny, box.maxy, step)
                           && inside(x, y) && p == toLonLat(x, y)
  {
    var xs, ys := Arange(box.minx, box.maxx, step), Arange(box.miny, box.maxy, step);
    EmitSound(Candidates(xs, ys), inside, toLonLat);
    CandidatesInGrid(xs, ys);
    var c :| c in Candidates(xs, ys) && inside(c.0, c.1) && p == toLonLat(c.0, c.1);
    assert c.0 in xs && c.1 in ys;
  }

  /** Every grid candidate inside the projected region is emitted. */
  lemma GridPointsComplete(box: Box, step: int, inside: (int, int) -> bool, toLonLat: (int, int) -> LonLat, i: int, j: int)
    requires step > 0
    requires 0 <= i < |Arange(box.minx, box.maxx, step)| && 0 <= j < |Arange(box.miny, box.maxy, step)|
    requires inside(Arange(box.minx, box.maxx, step)[i], Arange(box.miny, box.maxy, step)[j])
    ensures toLonLat(box.minx + i * step, box.miny + j * step) in GridPoints(box, step, inside, toLonLat)
  {
    var xs, ys := Arange(box.minx, box.maxx, step), Arange(box.miny, box.maxy, step);
    var cands := Candidates(xs, ys);
    CandidateAt(xs, ys, i, j);
    var c := cands[i * |ys| + j];
    assert c in cands && c == (xs[i], ys[j]);
    EmitComplete(cands, inside, toLonLat);
    assert toLonLat(c.0, c.1) in Emit(cands, inside, toLonLat);
  }

  /** Every candidate combines a grid x with a grid y. */
  lemma {:induction false} CandidatesInGrid(xs: seq<int>, ys: seq<int>)
    ensures forall c :: c in Candidates(xs, ys) ==> c.0 in xs && c.1 in ys
    decreases |xs|
  {
    if xs != [] {
      var xs' := xs[..|xs| - 1];
      CandidatesInGrid(xs', ys);
      assert forall x :: x in xs' ==> x in xs;
    }
  }

  /**
   * A bounding box no larger than one grid cell: the only candidate is the
   * box's corner (minx, miny). A region never strictly contains the corner of
   * its own bounding box, so the sampler returns no point at all.
   */
  lemma SmallRegionYieldsNothing(box: Box, step: int, inside: (int, int) -> bool, toLonLat: (int, int) -> LonLat)
    requires step > 0
    requires box.minx < box.maxx <= box.minx + step && box.miny < box.maxy <= box.miny + step
    requires !inside(box.minx, box.miny)
    ensures GridPoints(box, step, inside, toLonLat) == []
  {
    ArangeSingleCell(box.minx, box.maxx, step);
    ArangeSingleCell(box.miny, box.maxy, step);
    OneCandidate(box.minx, box.miny, inside, toLonLat);
  }

  /** A one-by-one grid whose only candidate lies outside yields nothing. */
  lemma OneCandidate(x: int, y: int, inside: (int, int) -> bool, toLonLat: (int, int) -> LonLat)
    requires !inside(x, y)
    ensures Emit(Candidates([x], [y]), inside, toLonLat) == []
  {
    assert [x][..0] == [];
    var c := Candidates([x], [y]);
    assert c == Candidates([], [y]) + Column(x, [y]);
    assert c == [(x, y)];
    assert c[..0] == [];
  }

  /** A 5000 m square sampled every 3000 m: one point, at (3000, 3000). */
  lemma SquareExample(inside: (int, int) -> bool, toLonLat: (int, int) -> LonLat)
    requires forall x, y :: inside(x, y) <==> 0 < x < 5000 && 0 < y < 5000
    ensures GridPoints(Box(0, 0, 5000, 5000), 3000, inside, toLonLat) == [toLonLat(3000, 3000)]
  {
    var xs := Arange(0, 5000, 3000);
    assert |xs| == 2;
    assert xs == [0, 3000];
    assert xs[..1] == [0] && [0][..0] == [];
    var c := Candidates(xs, xs);
    assert Candidates([0], xs) == [(0, 0), (0, 3000)];
    assert c == [(0, 0), (0, 3000), (3000, 0), (3000, 3000)];
    assert c[..3] == [(0, 0), (0, 3000), (3000, 0)];
    assert c[..3][..2] == [(0, 0), (0, 3000)];
    assert c[..3][..2][..1] == [(0, 0)];
    assert [(0, 0)][..0] == [];
    assert Emit([(0, 0)], inside, toLonLat) == [];
    assert Emit([(0, 0), (0, 3000)], inside, toLonLat) == [];
    assert Emit(c[..3], inside, toLonLat) == [];
  }
}
