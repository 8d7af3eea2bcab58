/** The coordination layer that runs several optimisers side by side: it
    merges their evaluation requests into one batch, keeps a per-round
    ledger of what was requested under which name, and routes the results
    back to the optimisers according to the sharing matrix. */
module ParallelOptim {
  import opened Sharing
  import opened Ledger

  /** One internal optimiser: its data set and, for every refit of its
      model so far, the number of data points that fit saw. */
  class Optimiser {
    var X: seq<Point>
    var Y: seq<Value>
    var fitSizes: seq<nat>

    constructor ()
      ensures X == [] && Y == [] && fitSizes == []
    {
      X := [];
      Y := [];
      fitSizes := [];
    }
  }

  /** What the parallel optimiser's constructor yields: an object, or the
      error it raises on an unrecognised sharing method. */
  datatype Built = Built(opt: ParallelOptimizer) | Refused(error: ModeError)

  class ParallelOptimizer {
    /** Number of cost objects, one optimiser each. */
    const n: nat
    const mode: Mode
    const shareInit: bool
    const nbInit: nat
    const optims: seq<Optimiser>
    const sharingMatrix: seq<Entry>

    /** The ledger: name and point of every request of the current phase,
        keyed by (requester, point index). */
    var ids: map<Key, Token>
    var xs: map<Key, Point>
    /** The next unused request name. */
    var nextToken: Token
    /** The batch of the last request phase. */
    var circsToExec: seq<Request>

    ghost function CurrentRound(): Round
      reads this
    {
      Round(ids, xs, circsToExec, nextToken)
    }

    /** One distinct optimiser per cost object. */
    ghost predicate Distinct()
    {
      && |optims| == n
      && forall i, j | 0 <= i < j < n :: optims[i] != optims[j]
    }

    /** Every optimiser has as many values as points. */
    ghost predicate Balanced()
      reads optims
    {
      forall i | 0 <= i < |optims| :: |optims[i].X| == |optims[i].Y|
    }

    ghost predicate Valid()
      reads this, optims
    {
      && Distinct()
      && Balanced()
      && sharingMatrix == Matrix(n, mode)
      && WellFormed(CurrentRound())
    }

    /** One fresh optimiser per cost object, the sharing matrix of the
        mode, and an empty ledger. */
    constructor (nCosts: nat, mode: Mode, shareInit: bool, nbInit: nat)
      ensures Valid()
      ensures n == nCosts && this.mode == mode && this.shareInit == shareInit && this.nbInit == nbInit
      ensures forall i | 0 <= i < n :: fresh(optims[i]) && optims[i].X == [] && optims[i].Y == [] && optims[i].fitSizes == []
      ensures ids == map[] && xs == map[] && circsToExec == [] && nextToken == 0
    {
      var os: seq<Optimiser> := [];
      while |os| < nCosts
        invariant |os| <= nCosts
        invariant forall i | 0 <= i < |os| :: fresh(os[i]) && os[i].X == [] && os[i].Y == [] && os[i].fitSizes == []
        invariant forall i, j | 0 <= i < j < |os| :: os[i] != os[j]
      {
        var o := new Optimiser();
        os := os + [o];
      }
      n := nCosts;
      this.mode := mode;
      this.shareInit := shareInit;
      this.nbInit := nbInit;
      optims := os;
      sharingMatrix := Matrix(nCosts, mode);
      ids := map[];
      xs := map[];
      nextToken := 0;
      circsToExec := [];
    }

    /** The constructor with the method given by name, as written: an
        unrecognised name raises NameError before any state is built. */
    static method Create(nCosts: nat, method_: string, shareInit: bool, nbInit: nat) returns (r: Built)
      ensures r.Refused? <==> ParseMode(method_).Rejected?
      ensures r.Refused? ==> r.error == NameError
      ensures r.Built? ==> r.opt.Valid() && r.opt.n == nCosts && NameOf(r.opt.mode) == method_
      ensures r.Built? ==> r.opt.shareInit == shareInit && r.opt.nbInit == nbInit
      ensures r.Built? ==> forall i | 0 <= i < r.opt.n ::
        fresh(r.opt.optims[i]) && r.opt.optims[i].X == [] && r.opt.optims[i].Y == [] && r.opt.optims[i].fitSizes == []
      ensures r.Built? ==> fresh(r.opt) && r.opt.ids == map[] && r.opt.xs == map[] && r.opt.circsToExec == [] && r.opt.nextToken == 0
    {
      var parsed := ParseMode(method_);
      if parsed.Rejected? {
        r := Refused(parsed.error);
      } else {
        var p := new ParallelOptimizer(nCosts, parsed.mode, shareInit, nbInit);
        r := Built(p);
      }
    }

    /** The point each optimiser proposes from its current data. */
    function Proposals(propose: (seq<Point>, seq<Value>) -> Point): (pts: seq<Point>)
      reads optims
      requires |optims| == n
      ensures |pts| == n
      ensures forall i | 0 <= i < n :: pts[i] == propose(optims[i].X, optims[i].Y)
    {
      seq(n, i requires 0 <= i < n && |optims| == n reads optims => propose(optims[i].X, optims[i].Y))
    }

    /** The request phase: empties the ledger, records every optimiser's
        point under (i, i), then the padding points, and returns the batch.
        The points are x_new when given, else the optimisers' proposals. */
    method NextEvaluationCircuits(xNew: Option<seq<Point>>, propose: (seq<Point>, seq<Value>) -> Point,
                                  pad: (Point, Point, Token) -> Point)
      returns (batch: seq<Request>)
      requires Valid()
      requires xNew.Some? ==> |xNew.value| >= n
      modifies this`ids, this`xs, this`nextToken, this`circsToExec
      ensures Valid()
      ensures CurrentRound() == RequestRound(n, mode, if xNew.Some? then xNew.value else Proposals(propose), old(nextToken), pad)
      ensures batch == circsToExec
      ensures |ids| == ExpectedKeyCount(n, mode)
      ensures forall e | e in sharingMatrix :: KeyOf(e) in ids && KeyOf(e) in xs
    {
      ids := map[];
      xs := map[];
      var pts := if xNew.Some? then xNew.value else Proposals(propose);
      ghost var t := nextToken;
      var own := RecordOwnPoints(pts);
      RequestRoundSplit(n, mode, pts, t, pad);
      var padding := GetPaddingCircuits(pad);
      circsToExec := own + padding;
      batch := circsToExec;
      assert CurrentRound() == RequestRound(n, mode, pts, t, pad);
      RequestRoundKeys(n, mode, pts, t, pad);
      assert pts == if xNew.Some? then xNew.value else Proposals(propose);
    }

    /** Records every optimiser's point under (i, i) in the emptied ledger,
        and returns their requests. */
    method RecordOwnPoints(pts: seq<Point>) returns (own: seq<Request>)
      requires n <= |pts|
      requires ids == map[] && xs == map[]
      modifies this`ids, this`xs, this`nextToken
      ensures Round(ids, xs, own, nextToken) == OwnRound(pts, n, old(nextToken))
    {
      ghost var t := nextToken;
      ghost var items := OwnItems(pts, n);
      own := [];
      var i := 0;
      while i < n
        invariant 0 <= i <= n
        invariant Round(ids, xs, own, nextToken) == RecordAll(items[..i], EmptyRound(t))
      {
        RecordAllSnoc(items[..i], items[i], EmptyRound(t));
        assert items[..i + 1] == items[..i] + [items[i]];
        var id := nextToken;
        nextToken := nextToken + 1;
        own := own + [Request(id, i, pts[i])];
        ids := ids[(i, i) := id];
        xs := xs[(i, i) := pts[i]];
        i := i + 1;
      }
      assert items[..n] == items;
    }

    /** The padding pass: for every sharing entry whose consumer generates a
        point for another optimiser's index, records a point derived from
        the two own points under (requester, point), and returns those
        requests. */
    method GetPaddingCircuits(pad: (Point, Point, Token) -> Point) returns (circs: seq<Request>)
      requires PadReady(sharingMatrix, xs)
      modifies this`ids, this`xs, this`nextToken
      ensures Round(ids, xs, circs, nextToken) == PadFold(sharingMatrix, Round(old(ids), old(xs), [], old(nextToken)), pad)
    {
      circs := [];
      ghost var start := Round(ids, xs, [], nextToken);
      var q := 0;
      while q < |sharingMatrix|
        invariant q <= |sharingMatrix|
        invariant PadReady(sharingMatrix[q..], xs)
        invariant PadFold(sharingMatrix[q..], Round(ids, xs, circs, nextToken), pad) == PadFold(sharingMatrix, start, pad)
      {
        var e := sharingMatrix[q];
        assert sharingMatrix[q..][1..] == sharingMatrix[q + 1..];
        assert sharingMatrix[q..][0] == e;
        if e.consumer == e.requester && e.requester != e.point {
          var generator := xs[(e.requester, e.requester)];
          var other := xs[(e.point, e.point)];
          var newPt := pad(generator, other, nextToken);
          var id := nextToken;
          nextToken := nextToken + 1;
          circs := circs + [Request(id, e.requester, newPt)];
          ids := ids[(e.requester, e.point) := id];
          xs := xs[(e.requester, e.point) := newPt];
        }
        q := q + 1;
      }
    }

    /** Walks the entries es in order, appending to the consumer's data the
        point recorded under (requester, point) and its value decoded by
        the consumer's cost object; stops at the first key missing from the
        ledger, as the lookup raises there. */
    method Absorb(es: seq<Entry>, decode: Decoder) returns (ok: bool)
      requires Distinct() && Balanced() && ids.Keys == xs.Keys
      requires forall e | e in es :: e.consumer < n
      modifies optims
      ensures Balanced()
      ensures ok == (FirstMiss(es, ids) == |es|)
      ensures var m := FirstMiss(es, ids);
        forall i | 0 <= i < n ::
          && optims[i].X == old(optims[i].X) + XsFor(i, es[..m], xs)
          && optims[i].Y == old(optims[i].Y) + YsFor(i, es[..m], ids, decode)
          && optims[i].fitSizes == old(optims[i].fitSizes)
    {
      var m := FirstMiss(es, ids);
      var q := 0;
      ok := true;
      while q < |es|
        invariant q <= m
        invariant forall e | e in es[..q] :: KeyOf(e) in ids && KeyOf(e) in xs
        invariant forall i | 0 <= i < n ::
          && optims[i].X == old(optims[i].X) + XsFor(i, es[..q], xs)
          && optims[i].Y == old(optims[i].Y) + YsFor(i, es[..q], ids, decode)
          && optims[i].fitSizes == old(optims[i].fitSizes)
      {
        var e := es[q];
        assert e in es;
        var routed := CrossEvaluation(ids, xs, e.consumer, e.requester, Some(e.point), decode);
        if routed.UnknownRequest? {
          ok := false;
          break;
        }
        assert q < m;
        assert forall e' | e' in es[..q + 1] :: KeyOf(e') in ids && KeyOf(e') in xs by {
          AbsorbStep(0, es, q, ids, xs, decode);
        }
        Receive(e.consumer, routed.obs);
        forall i | 0 <= i < n
          ensures optims[i].X == old(optims[i].X) + XsFor(i, es[..q + 1], xs)
          ensures optims[i].Y == old(optims[i].Y) + YsFor(i, es[..q + 1], ids, decode)
        {
          AbsorbData(i, es, q, ids, xs, decode, old(optims[i].X), old(optims[i].Y), optims[i].X, optims[i].Y, routed.obs);
        }
        q := q + 1;
      }
      assert q == m && (ok <==> m == |es|);
      KeepsBalance(es[..q], decode);
    }

    /** Appends one observation to optimiser c's data. */
    method Receive(c: nat, obs: Observation)
      requires Distinct()
      requires c < n
      modifies optims[c]
      ensures forall i | 0 <= i < n ::
        && optims[i].X == old(optims[i].X) + (if i == c then [obs.x] else [])
        && optims[i].Y == old(optims[i].Y) + (if i == c then [obs.y] else [])
        && optims[i].fitSizes == old(optims[i].fitSizes)
    {
      var opt := optims[c];
      opt.X := opt.X + [obs.x];
      opt.Y := opt.Y + [obs.y];
      forall i | 0 <= i < n && i != c ensures optims[i] != opt {
        // Distinct() orders the pair, so either index may come first.
        assert i < c || c < i;
      }
    }

    /** Data appended along es keeps every optimiser's X and Y of equal
        length. */
    lemma KeepsBalance(es: seq<Entry>, decode: Decoder)
      requires |optims| == n
      requires forall e | e in es :: KeyOf(e) in ids && KeyOf(e) in xs
      requires forall i | 0 <= i < n :: |optims[i].X| - |XsFor(i, es, xs)| == |optims[i].Y| - |YsFor(i, es, ids, decode)|
      ensures Balanced()
    {
      forall i | 0 <= i < n ensures |optims[i].X| == |optims[i].Y| {
        RowsForCount(i, es, ids, xs, decode);
      }
    }

    /** Every optimiser refits its model once, on the data it holds now. */
    method Refit()
      requires Distinct() && Balanced()
      modifies optims
      ensures Balanced()
      ensures forall i | 0 <= i < n ::
        && optims[i].X == old(optims[i].X) && optims[i].Y == old(optims[i].Y)
        && optims[i].fitSizes == old(optims[i].fitSizes) + [|optims[i].X|]
    {
      var i := 0;
      while i < n
        invariant i <= n
        invariant forall j | 0 <= j < n ::
          && optims[j].X == old(optims[j].X) && optims[j].Y == old(optims[j].Y)
          && optims[j].fitSizes == old(optims[j].fitSizes) + (if j < i then [|optims[j].X|] else [])
      {
        optims[i].fitSizes := optims[i].fitSizes + [|optims[i].X|];
        i := i + 1;
      }
    }

    /** The update phase: every sharing entry's result goes to its consumer,
        in matrix order; then every model is refitted, unless a lookup
        failed; the refit comes after all the appends. */
    method Update(decode: Decoder) returns (ok: bool)
      requires Valid()
      modifies optims
      ensures Valid()
      ensures ok == (FirstMiss(sharingMatrix, ids) == |sharingMatrix|)
      ensures var m := FirstMiss(sharingMatrix, ids);
        forall i | 0 <= i < n ::
          && optims[i].X == old(optims[i].X) + XsFor(i, sharingMatrix[..m], xs)
          && optims[i].Y == old(optims[i].Y) + YsFor(i, sharingMatrix[..m], ids, decode)
          && optims[i].fitSizes == old(optims[i].fitSizes) + (if ok then [|optims[i].X|] else [])
    {
      MatrixInRange(n, mode);
      ok := Absorb(sharingMatrix, decode);
      if ok {
        Refit();
      }
    }

    /** The initialisation phase's requests: nbInit drawn points for cost 0
        alone when the init data is shared, for every cost otherwise, each
        recorded under (cost, k) on top of the current ledger. Sharing with
        no cost object fails, as indexing the first one raises. */
    method GenInitCircuits(draw: (nat, nat) -> Point) returns (ok: bool, circs: seq<Request>)
      requires Valid()
      modifies this`ids, this`xs, this`nextToken, this`circsToExec
      ensures Valid()
      ensures ok == !(shareInit && n == 0)
      ensures !ok ==> CurrentRound() == old(CurrentRound())
      ensures ok ==> CurrentRound() == RecordAll(InitItems(if shareInit then 1 else n, nbInit, draw),
                                           Round(old(ids), old(xs), [], old(nextToken)))
      ensures ok ==> circs == circsToExec
    {
      if shareInit && n == 0 {
        ok, circs := false, [];
        return;
      }
      ok := true;
      var costs := if shareInit then 1 else n;
      ghost var start := Round(ids, xs, [], nextToken);
      circs := [];
      var c := 0;
      while c < costs
        invariant c <= costs
        invariant Round(ids, xs, circs, nextToken) == RecordAll(InitItems(c, nbInit, draw), start)
      {
        circs := RecordDrawRow(c, draw, circs);
        RecordAllAppend(InitItems(c, nbInit, draw), InitDrawRow(c, nbInit, draw), start);
        assert InitItems(c + 1, nbInit, draw) == InitItems(c, nbInit, draw) + InitDrawRow(c, nbInit, draw);
        c := c + 1;
      }
      RecordAllFresh(InitItems(costs, nbInit, draw), start);
      circsToExec := circs;
    }

    /** Draws cost c's nbInit init points, recording each under (c, run)
        and appending its request to circs. */
    method RecordDrawRow(c: nat, draw: (nat, nat) -> Point, circs0: seq<Request>) returns (circs: seq<Request>)
      modifies this`ids, this`xs, this`nextToken
      ensures Round(ids, xs, circs, nextToken) ==
        RecordAll(InitDrawRow(c, nbInit, draw), Round(old(ids), old(xs), circs0, old(nextToken)))
    {
      ghost var start := Round(ids, xs, circs0, nextToken);
      ghost var row := InitDrawRow(c, nbInit, draw);
      circs := circs0;
      var run := 0;
      while run < nbInit
        invariant run <= nbInit
        invariant Round(ids, xs, circs, nextToken) == RecordAll(row[..run], start)
      {
        RecordAllSnoc(row[..run], row[run], start);
        assert row[..run + 1] == row[..run] + [row[run]];
        var pt := draw(c, run);
        var id := nextToken;
        nextToken := nextToken + 1;
        circs := circs + [Request(id, c, pt)];
        ids := ids[(c, run) := id];
        xs := xs[(c, run) := pt];
        run := run + 1;
      }
      assert row[..nbInit] == row;
    }

    /** The initialisation phase's update: every optimiser receives the
        nbInit init points of its source cost, then every model is refitted,
        unless a lookup failed; the refit comes after all the appends. */
    method InitOptimisers(decode: Decoder) returns (ok: bool)
      requires Valid()
      modifies optims
      ensures Valid()
      ensures var es := InitRows(n, nbInit, shareInit);
        && ok == (FirstMiss(es, ids) == |es|)
        && forall i | 0 <= i < n ::
          && optims[i].X == old(optims[i].X) + XsFor(i, es[..FirstMiss(es, ids)], xs)
          && optims[i].Y == old(optims[i].Y) + YsFor(i, es[..FirstMiss(es, ids)], ids, decode)
          && optims[i].fitSizes == old(optims[i].fitSizes) + (if ok then [|optims[i].X|] else [])
    {
      InitRowsShape(n, nbInit, shareInit, 0);
      ok := Absorb(InitRows(n, nbInit, shareInit), decode);
      if ok {
        Refit();
      }
    }

    /** Every optimiser's points. */
    function Points(): (data: seq<seq<Point>>)
      reads optims
      requires |optims| == n
      ensures |data| == n && forall i | 0 <= i < n :: data[i] == optims[i].X
    {
      seq(n, i requires 0 <= i < n && |optims| == n reads optims => optims[i].X)
    }

    /** Every optimiser's fit history. */
    function FitSizes(): (fits: seq<seq<nat>>)
      reads optims
      requires |optims| == n
      ensures |fits| == n && forall i | 0 <= i < n :: fits[i] == optims[i].fitSizes
    {
      seq(n, i requires 0 <= i < n && |optims| == n reads optims => optims[i].fitSizes)
    }

    /** The initialisation phases on optimisers without data: the init
        requests on an empty ledger, then the init update. Every lookup
        succeeds, and every optimiser holds the nbInit points drawn for its
        source cost. */
    method InitPhase(draw: (nat, nat) -> Point, decode: Decoder) returns (ok: bool)
      requires Valid()
      requires ids == map[] && xs == map[]
      requires forall i | 0 <= i < n :: optims[i].X == [] && optims[i].Y == []
      modifies this`ids, this`xs, this`nextToken, this`circsToExec, optims
      ensures Valid()
      ensures ok == !(shareInit && n == 0)
      ensures forall i | 0 <= i < n ::
        && optims[i].X == InitDraws(InitSource(shareInit, i), nbInit, draw)
        && optims[i].fitSizes == old(optims[i].fitSizes) + [nbInit]
    {
      ghost var t := nextToken;
      var initOk, _ := GenInitCircuits(draw);
      var es := InitRows(n, nbInit, shareInit);
      InitKeysPresent(draw, initOk, t);
      FirstMissNone(es, ids);
      assert es[..|es|] == es;
      var fed := InitOptimisers(decode);
      assert fed;
      forall i | 0 <= i < n
        ensures optims[i].X == InitDraws(InitSource(shareInit, i), nbInit, draw)
      {
        InitRowsDrawn(n, nbInit, shareInit, i, xs, draw);
      }
      ok := initOk && fed;
    }

    /** After the init requests on an empty ledger, every init sharing
        entry's key holds the point drawn for it. */
    lemma InitKeysPresent(draw: (nat, nat) -> Point, initOk: bool, t: Token)
      requires initOk == !(shareInit && n == 0)
      requires initOk ==> CurrentRound() == RecordAll(InitItems(if shareInit then 1 else n, nbInit, draw), Round(map[], map[], [], t))
      requires !initOk ==> ids == map[] && xs == map[]
      ensures forall e | e in InitRows(n, nbInit, shareInit) :: KeyOf(e) in ids && KeyOf(e) in xs
      ensures forall i, run | 0 <= i < n && 0 <= run < nbInit ::
        (InitSource(shareInit, i), run) in xs && xs[(InitSource(shareInit, i), run)] == draw(InitSource(shareInit, i), run)
    {
      var es := InitRows(n, nbInit, shareInit);
      InitRowsShape(n, nbInit, shareInit, 0);
      if initOk {
        var costs := if shareInit then 1 else n;
        var items := InitItems(costs, nbInit, draw);
        InitItemsKeys(costs, nbInit, draw);
        RecordAllShape(items, Round(map[], map[], [], t));
        RecordAllDrawn(items, Round(map[], map[], [], t), draw);
        forall e | e in es ensures KeyOf(e) in ids && KeyOf(e) in xs {
          assert KeyOf(e) == (InitSource(shareInit, e.consumer), e.point);
        }
        forall i, run | 0 <= i < n && 0 <= run < nbInit
          ensures (InitSource(shareInit, i), run) in xs && xs[(InitSource(shareInit, i), run)] == draw(InitSource(shareInit, i), run)
        {
          assert (InitSource(shareInit, i), run) in KeysOf(items);
        }
      }
    }

    /** One request phase with the optimisers' own proposals and its update:
        every lookup succeeds, every optimiser gains one row per sharing
        entry naming it and is refitted once, on all of its data. */
    method RequestAndUpdate(propose: (seq<Point>, seq<Value>) -> Point, pad: (Point, Point, Token) -> Point,
                            decode: Decoder) returns (ok: bool)
      requires Valid()
      modifies this`ids, this`xs, this`nextToken, this`circsToExec, optims
      ensures Valid()
      ensures ok
      ensures forall i | 0 <= i < n ::
        && |optims[i].X| == |old(optims[i].X)| + RowLength(n, mode)
        && optims[i].X[..|old(optims[i].X)|] == old(optims[i].X)
        && optims[i].fitSizes == old(optims[i].fitSizes) + [|optims[i].X|]
    {
      var _ := NextEvaluationCircuits(None, propose, pad);
      var m := FirstMiss(sharingMatrix, ids);
      FirstMissNone(sharingMatrix, ids);
      assert sharingMatrix[..m] == sharingMatrix;
      ok := Update(decode);
      forall i | 0 <= i < n ensures |XsFor(i, sharingMatrix, xs)| == RowLength(n, mode) {
        MatrixXs(n, mode, i, xs);
      }
    }
  }

  /** The driver's order of phases on a fresh parallel optimiser: the
      initialisation requests, the initialisation update, one request phase
      with the optimisers' own proposals, and its update. Every lookup
      succeeds (unless the init data is shared with no cost object to draw
      it), every optimiser holds its nbInit initialisation points followed
      by one row per sharing entry naming it, and every model was fitted
      twice: first on its init points, then on all its data. */
  method Lifecycle(nCosts: nat, mode: Mode, shareInit: bool, nbInit: nat, draw: (nat, nat) -> Point,
                   propose: (seq<Point>, seq<Value>) -> Point, pad: (Point, Point, Token) -> Point,
                   decodeInit: Decoder, decode: Decoder)
    returns (ok: bool, data: seq<seq<Point>>, fits: seq<seq<nat>>)
    ensures ok == !(shareInit && nCosts == 0)
    ensures |data| == nCosts && |fits| == nCosts
    ensures forall i | 0 <= i < nCosts ::
      && |data[i]| == nbInit + RowLength(nCosts, mode)
      && data[i][..nbInit] == InitDraws(InitSource(shareInit, i), nbInit, draw)
      && |fits[i]| == 2 && fits[i][0] == nbInit && fits[i][1] == nbInit + RowLength(nCosts, mode)
  {
    var p := new ParallelOptimizer(nCosts, mode, shareInit, nbInit);
    var initOk := p.InitPhase(draw, decodeInit);
    ghost var initData := p.Points();
    ghost var initFits := p.FitSizes();
    var roundOk := p.RequestAndUpdate(propose, pad, decode);
    ok := initOk && roundOk;
    data := p.Points();
    fits := p.FitSizes();
    forall i | 0 <= i < nCosts
      ensures |data[i]| == nbInit + RowLength(nCosts, mode)
      ensures data[i][..nbInit] == InitDraws(InitSource(shareInit, i), nbInit, draw)
      ensures |fits[i]| == 2 && fits[i][0] == nbInit && fits[i][1] == nbInit + RowLength(nCosts, mode)
    {
      AfterInit(InitDraws(InitSource(shareInit, i), nbInit, draw), initData[i], data[i],
                initFits[i], fits[i], nbInit, RowLength(nCosts, mode));
    }
  }

  /** An optimiser that was fitted once on its nbInit init points and then
      gained len rows and was refitted on all its data. */
  lemma AfterInit(draws: seq<Point>, initX: seq<Point>, x: seq<Point>, initFit: seq<nat>, fit: seq<nat>,
                  nbInit: nat, len: nat)
    requires initX == draws && |draws| == nbInit && initFit == [nbInit]
    requires |x| == |initX| + len && x[..|initX|] == initX && fit == initFit + [|x|]
    ensures |x| == nbInit + len && x[..nbInit] == draws
    ensures |fit| == 2 && fit[0] == nbInit && fit[1] == nbInit + len
  {
  }
}
