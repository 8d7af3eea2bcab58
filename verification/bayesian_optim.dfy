/** The two pieces of the single Bayesian optimiser that are plain
    arithmetic: how many initial points 'max' asks for, and how many bound
    circuits a set of parameter points yields. */
module BayesianOptim {
  import opened Ledger

  /** Circuits one backend job accepts. */
  const JobCapacity: nat := 900

  /** The number of initial points: a count, or as many as fill the
      initial jobs. */
  datatype NbInit = Count(k: nat) | Max

  /** An initial point count, or the division by zero raised when 'max'
      meets a cost object without measurement circuits. */
  datatype InitSize = Points(count: int) | ZeroDivision

  /** 'max' gives the largest number of points whose measurement circuits
      fit in initJobs jobs: the floor of initJobs * 900 / nbMeas. */
  function InitPointCount(nbInit: NbInit, initJobs: int, nbMeas: nat): (r: InitSize)
    ensures nbInit.Count? ==> r == Points(nbInit.k)
    ensures nbInit.Max? ==> (r.ZeroDivision? <==> nbMeas == 0)
    ensures nbInit.Max? && r.Points? ==>
      r.count * nbMeas <= initJobs * JobCapacity < (r.count + 1) * nbMeas
  {
    match nbInit
    case Count(k) => Points(k)
    case Max =>
      if nbMeas == 0 then ZeroDivision
      else Points(initJobs * JobCapacity / nbMeas)
  }

  /** The parameter values handed to the binder: one point (a 1-D array)
      or a batch of points. */
  datatype Params = Single(x: Point) | Batch(xs: seq<Point>)

  function PointsOf(params: Params): (pts: seq<Point>)
    ensures params.Single? ==> pts == [params.x]
    ensures params.Batch? ==> pts == params.xs
  {
    match params
    case Single(x) => [x]
    case Batch(xs) => xs
  }

  /** A measurement circuit bound to a point: the point's position in the
      batch (the name prefix), the circuit's index and the point. */
  datatype BoundCircuit = BoundCircuit(pointIdx: nat, circuit: nat, x: Point)

  /** Index arithmetic of the point-major layout. */
  lemma LayoutIndex(p: nat, c: nat, m: nat)
    requires c < m
    ensures (p * m + c) / m == p && (p * m + c) % m == c
  {
    var k := p * m + c;
    assert k == m * p + c;
    if k / m > p {
      assert k / m >= p + 1;
      assert m * (k / m) >= m * (p + 1) by {
        MulMonotone(m, p + 1, k / m);
      }
      assert false;
    } else if k / m < p {
      assert k / m + 1 <= p;
      assert m * (k / m + 1) <= m * p by {
        MulMonotone(m, k / m + 1, p);
      }
      assert false;
    }
  }

  lemma MulMonotone(m: nat, a: int, b: int)
    requires a <= b
    ensures m * a <= m * b
  {
    assert m * b - m * a == m * (b - a);
  }

  /** The m measurement circuits bound to point x, the p-th of its batch. */
  function PointCircuits(p: nat, x: Point, m: nat): (cs: seq<BoundCircuit>)
    ensures |cs| == m
    ensures forall c | 0 <= c < m :: cs[c] == BoundCircuit(p, c, x)
  {
    seq(m, c requires 0 <= c < m => BoundCircuit(p, c, x))
  }

  /** Every point's circuits, point after point. */
  function BindAll(pts: seq<Point>, m: nat): seq<BoundCircuit>
    decreases |pts|
  {
    if pts == [] then []
    else BindAll(pts[..|pts| - 1], m) + PointCircuits(|pts| - 1, pts[|pts| - 1], m)
  }

  /** #points x #circuits bound circuits, point-major: position k holds
      circuit k % m bound to point k / m. */
  lemma {:induction false} BindAllLayout(pts: seq<Point>, m: nat)
    ensures |BindAll(pts, m)| == |pts| * m
    ensures forall k | 0 <= k < |BindAll(pts, m)| ::
      k / m < |pts| && BindAll(pts, m)[k] == BoundCircuit(k / m, k % m, pts[k / m])
    decreases |pts|
  {
    if pts != [] {
      var n := |pts| - 1;
      var init := pts[..n];
      BindAllLayout(init, m);
      var all := BindAll(pts, m);
      assert |all| == n * m + m;
      assert |pts| * m == n * m + m;
      forall k | 0 <= k < |all| ensures k / m < |pts| && all[k] == BoundCircuit(k / m, k % m, pts[k / m]) {
        if k < n * m {
          assert all[k] == BindAll(init, m)[k];
          assert init[k / m] == pts[k / m];
        } else {
          var c := k - n * m;
          LayoutIndex(n, c, m);
          assert all[k] == PointCircuits(n, pts[n], m)[c];
        }
      }
    }
  }

  /** Binds every measurement circuit (m of them) to every point, point by
      point; a single point is one point. */
  method BindCircuits(params: Params, m: nat) returns (circs: seq<BoundCircuit>)
    ensures |circs| == |PointsOf(params)| * m
    ensures forall k | 0 <= k < |circs| ::
      k / m < |PointsOf(params)| && circs[k] == BoundCircuit(k / m, k % m, PointsOf(params)[k / m])
  {
    var pts := PointsOf(params);
    circs := [];
    var p := 0;
    while p < |pts|
      invariant p <= |pts|
      invariant circs == BindAll(pts[..p], m)
    {
      var row := PointCircuits(p, pts[p], m);
      var c := 0;
      while c < m
        invariant c <= m
        invariant circs == BindAll(pts[..p], m) + row[..c]
      {
        circs := circs + [BoundCircuit(p, c, pts[p])];
        assert row[..c + 1] == row[..c] + [row[c]];
        c := c + 1;
      }
      assert row[..m] == row;
      assert pts[..p + 1][..p] == pts[..p];
      p := p + 1;
    }
    assert pts[..p] == pts;
    BindAllLayout(pts, m);
  }
}
