/** The per-round request ledger of the parallel optimiser, as values:
    recording a request, the padding pass over the sharing matrix, the
    initialisation batch, and the router that reads the ledger back. */
module Ledger {
  import opened Sharing

  /** A parameter point (angles) and a cost value. */
  type Point = seq<real>
  type Value = real
  /** Request identifiers: a counter stands for the random names. */
  type Token = nat

  /** One submitted evaluation: the point, bound into the measurement
      circuits of cost object `cost`, under the name `id`. */
  datatype Request = Request(id: Token, cost: nat, x: Point)

  /** The ledger (`ids`, `xs`), the requests submitted in the current
      phase, and the next unused token. */
  datatype Round = Round(ids: map<Key, Token>, xs: map<Key, Point>, batch: seq<Request>, next: Token)

  /** Both maps have the same keys, every id was issued before `next`,
      and no two keys share an id. */
  ghost predicate WellFormed(r: Round)
  {
    && r.ids.Keys == r.xs.Keys
    && (forall k | k in r.ids :: r.ids[k] < r.next)
    && (forall k, k' | k in r.ids && k' in r.ids && k != k' :: r.ids[k] != r.ids[k'])
  }

  /** Record one request under key k: fresh id, point, and its request. */
  function Record(r: Round, k: Key, x: Point): Round
  {
    Round(r.ids[k := r.next], r.xs[k := x], r.batch + [Request(r.next, k.0, x)], r.next + 1)
  }

  /** Record a sequence of (key, point) items in order. */
  function RecordAll(items: seq<(Key, Point)>, r: Round): Round
    decreases |items|
  {
    if items == [] then r else RecordAll(items[1..], Record(r, items[0].0, items[0].1))
  }

  ghost function KeysOf(items: seq<(Key, Point)>): set<Key>
  {
    set it | it in items :: it.0
  }

  ghost predicate DistinctKeys(items: seq<(Key, Point)>)
  {
    forall p, q | 0 <= p < q < |items| :: items[p].0 != items[q].0
  }

  /** The requests RecordAll appends, with ids issued from t on. */
  function Requests(items: seq<(Key, Point)>, t: Token): (rs: seq<Request>)
    ensures |rs| == |items|
  {
    seq(|items|, q requires 0 <= q < |items| => Request(t + q, items[q].0.0, items[q].1))
  }

  lemma {:induction false} RecordAllAppend(a: seq<(Key, Point)>, b: seq<(Key, Point)>, r: Round)
    ensures RecordAll(a + b, r) == RecordAll(b, RecordAll(a, r))
    decreases |a|
  {
    if a == [] {
      assert a + b == b;
    } else {
      assert (a + b)[1..] == a[1..] + b;
      RecordAllAppend(a[1..], b, Record(r, a[0].0, a[0].1));
    }
  }

  /** Recording one more item extends a recorded prefix by one step. */
  lemma RecordAllSnoc(a: seq<(Key, Point)>, it: (Key, Point), r: Round)
    ensures RecordAll(a + [it], r) == Record(RecordAll(a, r), it.0, it.1)
  {
    RecordAllAppend(a, [it], r);
  }

  lemma {:induction false} KeysOfCons(items: seq<(Key, Point)>)
    requires items != []
    ensures KeysOf(items) == {items[0].0} + KeysOf(items[1..])
  {
    assert items == [items[0]] + items[1..];
  }

  lemma RequestsCons(items: seq<(Key, Point)>, t: Token)
    requires items != []
    ensures Requests(items, t) == [Request(t, items[0].0.0, items[0].1)] + Requests(items[1..], t + 1)
  {
    var rs := Requests(items, t);
    var tail := Requests(items[1..], t + 1);
    forall q | 1 <= q < |items| ensures rs[q] == tail[q - 1] {
      assert items[1..][q - 1] == items[q];
    }
    assert rs == [rs[0]] + rs[1..];
    assert rs[1..] == tail;
  }

  /** Recording appends one request per item, in order, with consecutive
      ids. */
  lemma {:induction false} RecordAllBatch(items: seq<(Key, Point)>, r: Round)
    ensures RecordAll(items, r).next == r.next + |items|
    ensures RecordAll(items, r).batch == r.batch + Requests(items, r.next)
    decreases |items|
  {
    if items != [] {
      var r1 := Record(r, items[0].0, items[0].1);
      RecordAllBatch(items[1..], r1);
      RequestsCons(items, r.next);
      assert r1.batch + Requests(items[1..], r1.next) == r.batch + Requests(items, r.next);
    }
  }

  /** Recording adds exactly the items' keys. */
  lemma {:induction false} RecordAllKeys(items: seq<(Key, Point)>, r: Round)
    ensures RecordAll(items, r).ids.Keys == r.ids.Keys + KeysOf(items)
    ensures RecordAll(items, r).xs.Keys == r.xs.Keys + KeysOf(items)
    decreases |items|
  {
    if items != [] {
      var r1 := Record(r, items[0].0, items[0].1);
      RecordAllKeys(items[1..], r1);
      KeysOfCons(items);
      assert r1.ids.Keys == r.ids.Keys + {items[0].0};
      assert r1.xs.Keys == r.xs.Keys + {items[0].0};
    }
  }

  /** Recording appends one request per item, in order, with consecutive
      ids, and adds exactly the items' keys. */
  lemma RecordAllShape(items: seq<(Key, Point)>, r: Round)
    ensures var r' := RecordAll(items, r);
      && r'.ids.Keys == r.ids.Keys + KeysOf(items)
      && r'.xs.Keys == r.xs.Keys + KeysOf(items)
      && r'.next == r.next + |items|
      && r'.batch == r.batch + Requests(items, r.next)
  {
    RecordAllBatch(items, r);
    RecordAllKeys(items, r);
  }

  /** Keys that are not recorded keep their id and point. */
  lemma {:induction false} RecordAllKeeps(items: seq<(Key, Point)>, r: Round, k: Key)
    requires k !in KeysOf(items)
    ensures var r' := RecordAll(items, r);
      && (k in r.ids ==> k in r'.ids && r'.ids[k] == r.ids[k])
      && (k in r.xs ==> k in r'.xs && r'.xs[k] == r.xs[k])
    decreases |items|
  {
    if items != [] {
      KeysOfCons(items);
      RecordAllKeeps(items[1..], Record(r, items[0].0, items[0].1), k);
    }
  }

  /** Recording keeps the ledger well formed and gives every recorded key
      an id issued during the recording. */
  lemma {:induction false} RecordAllFresh(items: seq<(Key, Point)>, r: Round)
    requires WellFormed(r)
    ensures var r' := RecordAll(items, r);
      && WellFormed(r')
      && forall k | k in KeysOf(items) :: k in r'.ids && r.next <= r'.ids[k]
    decreases |items|
  {
    if items != [] {
      var r1 := Record(r, items[0].0, items[0].1);
      assert WellFormed(r1);
      RecordAllFresh(items[1..], r1);
      KeysOfCons(items);
      RecordAllShape(items[1..], r1);
      if items[0].0 !in KeysOf(items[1..]) {
        RecordAllKeeps(items[1..], r1, items[0].0);
      }
    }
  }

  lemma NotInTail(items: seq<(Key, Point)>)
    requires items != [] && DistinctKeys(items)
    ensures items[0].0 !in KeysOf(items[1..])
    ensures DistinctKeys(items[1..])
  {
    forall it | it in items[1..] ensures it.0 != items[0].0 {
      var p :| 0 <= p < |items[1..]| && items[1..][p] == it;
      assert items[p + 1] == it;
    }
    forall p, q | 0 <= p < q < |items[1..]| ensures items[1..][p].0 != items[1..][q].0 {
      assert items[1..][p] == items[p + 1] && items[1..][q] == items[q + 1];
    }
  }

  /** With distinct keys, item q is recorded with id r.next + q and its
      own point. */
  lemma {:induction false} RecordAllAt(items: seq<(Key, Point)>, r: Round)
    requires DistinctKeys(items)
    ensures var r' := RecordAll(items, r);
      forall q | 0 <= q < |items| ::
        items[q].0 in r'.ids && items[q].0 in r'.xs &&
        r'.ids[items[q].0] == r.next + q && r'.xs[items[q].0] == items[q].1
    decreases |items|
  {
    if items != [] {
      var r1 := Record(r, items[0].0, items[0].1);
      NotInTail(items);
      RecordAllAt(items[1..], r1);
      RecordAllKeeps(items[1..], r1, items[0].0);
      var r' := RecordAll(items, r);
      forall q | 1 <= q < |items|
        ensures items[q].0 in r'.ids && items[q].0 in r'.xs &&
                r'.ids[items[q].0] == r.next + q && r'.xs[items[q].0] == items[q].1
      {
        assert items[1..][q - 1] == items[q];
      }
    }
  }

  /** Distinct keys: the number of keys equals the number of items. */
  lemma {:induction false} DistinctKeysCount(items: seq<(Key, Point)>)
    requires DistinctKeys(items)
    ensures |KeysOf(items)| == |items|
    decreases |items|
  {
    if items != [] {
      NotInTail(items);
      DistinctKeysCount(items[1..]);
      KeysOfCons(items);
    }
  }

  // ------------------------------------------------------------ padding

  /** The own points of every padding entry are recorded. */
  ghost predicate PadReady(es: seq<Entry>, xs: map<Key, Point>)
  {
    forall e | e in es && IsPadding(e) :: (e.requester, e.requester) in xs && (e.point, e.point) in xs
  }

  /** The padding pass over sharing entries, in order: an entry whose
      consumer generates a point for another optimiser's index records a
      padding point computed by `pad` from the consumer's own point, the
      other optimiser's own point and a fresh draw. */
  function PadFold(es: seq<Entry>, r: Round, pad: (Point, Point, Token) -> Point): Round
    requires PadReady(es, r.xs)
    decreases |es|
  {
    if es == [] then r
    else
      var e := es[0];
      if IsPadding(e) then
        var x := pad(r.xs[(e.requester, e.requester)], r.xs[(e.point, e.point)], r.next);
        PadFold(es[1..], Record(r, KeyOf(e), x), pad)
      else
        PadFold(es[1..], r, pad)
  }

  function PaddingEntries(es: seq<Entry>): (ps: seq<Entry>)
    ensures forall e | e in ps :: e in es && IsPadding(e)
  {
    if es == [] then []
    else (if IsPadding(es[0]) then [es[0]] else []) + PaddingEntries(es[1..])
  }

  /** The own points of every entry of ps are recorded. */
  ghost predicate OwnRecorded(ps: seq<Entry>, xs: map<Key, Point>)
  {
    forall q | 0 <= q < |ps| :: (ps[q].requester, ps[q].requester) in xs && (ps[q].point, ps[q].point) in xs
  }

  /** The items the padding pass records, given the own points in xs and
      the first token t. */
  function PadItems(ps: seq<Entry>, xs: map<Key, Point>, t: Token, pad: (Point, Point, Token) -> Point): (items: seq<(Key, Point)>)
    requires OwnRecorded(ps, xs)
    ensures |items| == |ps|
  {
    seq(|ps|, q requires 0 <= q < |ps| && OwnRecorded(ps, xs) =>
      (KeyOf(ps[q]), pad(xs[(ps[q].requester, ps[q].requester)], xs[(ps[q].point, ps[q].point)], t + q)))
  }

  lemma {:induction false} PaddingEntriesMembership(es: seq<Entry>, e: Entry)
    ensures e in PaddingEntries(es) <==> e in es && IsPadding(e)
  {
    if es != [] {
      PaddingEntriesMembership(es[1..], e);
    }
  }

  lemma PaddingEntriesReady(es: seq<Entry>, xs: map<Key, Point>)
    requires PadReady(es, xs)
    ensures OwnRecorded(PaddingEntries(es), xs)
  {
    var ps := PaddingEntries(es);
    forall q | 0 <= q < |ps| ensures (ps[q].requester, ps[q].requester) in xs && (ps[q].point, ps[q].point) in xs {
      assert ps[q] in ps;
    }
  }

  lemma PadItemsCons(e: Entry, rest: seq<Entry>, xs: map<Key, Point>, t: Token, pad: (Point, Point, Token) -> Point)
    requires OwnRecorded([e] + rest, xs)
    ensures (e.requester, e.requester) in xs && (e.point, e.point) in xs
    ensures OwnRecorded(rest, xs)
    ensures PadItems([e] + rest, xs, t, pad) ==
      [(KeyOf(e), pad(xs[(e.requester, e.requester)], xs[(e.point, e.point)], t))] + PadItems(rest, xs, t + 1, pad)
  {
    assert ([e] + rest)[0] == e;
    forall q | 0 <= q < |rest| ensures (rest[q].requester, rest[q].requester) in xs && (rest[q].point, rest[q].point) in xs {
      assert ([e] + rest)[q + 1] == rest[q];
    }
  }

  /** PadItems only reads the own-point keys. */
  lemma PadItemsOwnOnly(ps: seq<Entry>, xs: map<Key, Point>, k: Key, x: Point, t: Token, pad: (Point, Point, Token) -> Point)
    requires OwnRecorded(ps, xs) && k.0 != k.1
    ensures OwnRecorded(ps, xs[k := x])
    ensures PadItems(ps, xs[k := x], t, pad) == PadItems(ps, xs, t, pad)
  {
  }

  /** Padding never touches an own-point key, so the pass reads the same
      own points all along and equals recording its items in one go. */
  lemma {:induction false} PadFoldRecords(es: seq<Entry>, r: Round, pad: (Point, Point, Token) -> Point)
    requires PadReady(es, r.xs)
    ensures OwnRecorded(PaddingEntries(es), r.xs)
    ensures PadFold(es, r, pad) == RecordAll(PadItems(PaddingEntries(es), r.xs, r.next, pad), r)
    decreases |es|
  {
    PaddingEntriesReady(es, r.xs);
    if es != [] {
      var e := es[0];
      var rest := PaddingEntries(es[1..]);
      if IsPadding(e) {
        var x := pad(r.xs[(e.requester, e.requester)], r.xs[(e.point, e.point)], r.next);
        var r1 := Record(r, KeyOf(e), x);
        PadFoldRecords(es[1..], r1, pad);
        assert PaddingEntries(es) == [e] + rest;
        PadItemsCons(e, rest, r.xs, r.next, pad);
        PadItemsOwnOnly(rest, r.xs, KeyOf(e), x, r.next + 1, pad);
      } else {
        PadFoldRecords(es[1..], r, pad);
        assert PaddingEntries(es) == rest;
      }
    }
  }

  /** The padding pass appends to whatever batch it starts from and does
      not otherwise depend on it. */
  lemma {:induction false} PadFoldBatch(es: seq<Entry>, ids: map<Key, Token>, xs: map<Key, Point>, b: seq<Request>,
                                        t: Token, pad: (Point, Point, Token) -> Point)
    requires PadReady(es, xs)
    ensures var p := PadFold(es, Round(ids, xs, [], t), pad);
      PadFold(es, Round(ids, xs, b, t), pad) == Round(p.ids, p.xs, b + p.batch, p.next)
    decreases |es|
  {
    if es != [] {
      var e := es[0];
      if IsPadding(e) {
        var x := pad(xs[(e.requester, e.requester)], xs[(e.point, e.point)], t);
        var k := KeyOf(e);
        var req := Request(t, k.0, x);
        PadFoldBatch(es[1..], ids[k := t], xs[k := x], b + [req], t + 1, pad);
        PadFoldBatch(es[1..], ids[k := t], xs[k := x], [req], t + 1, pad);
        assert [] + [req] == [req];
      } else {
        PadFoldBatch(es[1..], ids, xs, b, t, pad);
      }
    }
  }

  // ------------------------------------------------------ request round

  /** The own points: optimiser i records its point under (i, i). */
  function OwnItems(pts: seq<Point>, n: nat): (items: seq<(Key, Point)>)
    requires n <= |pts|
    ensures |items| == n
  {
    seq(n, i requires 0 <= i < n && n <= |pts| => ((i, i), pts[i]))
  }

  function EmptyRound(t: Token): Round { Round(map[], map[], [], t) }

  /** The ledger after the own points of a round are recorded. */
  function OwnRound(pts: seq<Point>, n: nat, t: Token): Round
    requires n <= |pts|
  {
    RecordAll(OwnItems(pts, n), EmptyRound(t))
  }

  lemma OwnRoundFacts(pts: seq<Point>, n: nat, t: Token)
    requires n <= |pts|
    ensures var own := OwnRound(pts, n, t);
      && own.next == t + n
      && (forall i | 0 <= i < n :: (i, i) in own.xs && own.xs[(i, i)] == pts[i])
      && (forall mode: Mode :: PadReady(Matrix(n, mode), own.xs))
  {
    var items := OwnItems(pts, n);
    RecordAllShape(items, EmptyRound(t));
    RecordAllAt(items, EmptyRound(t));
    forall i | 0 <= i < n ensures (i, i) in OwnRound(pts, n, t).xs && OwnRound(pts, n, t).xs[(i, i)] == pts[i] {
      assert items[i] == ((i, i), pts[i]);
    }
    forall mode: Mode ensures PadReady(Matrix(n, mode), OwnRound(pts, n, t).xs) {
      MatrixInRange(n, mode);
      forall e | e in Matrix(n, mode) && IsPadding(e)
        ensures (e.requester, e.requester) in OwnRound(pts, n, t).xs && (e.point, e.point) in OwnRound(pts, n, t).xs
      {
        assert items[e.requester].0 == (e.requester, e.requester);
        assert items[e.point].0 == (e.point, e.point);
      }
    }
  }

  /** The request round: start from an empty ledger, record the n own
      points, then run the padding pass over the sharing matrix. */
  function RequestRound(n: nat, mode: Mode, pts: seq<Point>, t: Token, pad: (Point, Point, Token) -> Point): Round
    requires n <= |pts|
  {
    OwnRoundFacts(pts, n, t);
    PadFold(Matrix(n, mode), OwnRound(pts, n, t), pad)
  }

  // Distinctness of the sharing matrix.

  ghost predicate NoDup<T>(s: seq<T>)
  {
    forall p, q | 0 <= p < q < |s| :: s[p] != s[q]
  }

  lemma NoDupAppend<T>(a: seq<T>, b: seq<T>)
    requires NoDup(a) && NoDup(b)
    requires forall x | x in a :: x !in b
    ensures NoDup(a + b)
  {
    forall p, q | 0 <= p < q < |a + b| ensures (a + b)[p] != (a + b)[q] {
      if p < |a| && q >= |a| {
        assert (a + b)[p] in a;
        assert (a + b)[q] == b[q - |a|];
      }
    }
  }

  lemma {:induction false} RowsNoDup(n: nat, mode: Mode, c: nat)
    requires c <= n
    ensures NoDup(Rows(n, mode, c))
  {
    if c > 0 {
      RowsNoDup(n, mode, c - 1);
      var row := Row(n, mode, c - 1);
      assert NoDup(row) by {
        if mode != Independent {
          forall p, q | 0 <= p < q < |row| ensures row[p] != row[q] {
            assert row[p].point == p && row[q].point == q;
          }
        }
      }
      forall x | x in Rows(n, mode, c - 1) ensures x !in row {
        RowsMembership(n, mode, c - 1, x);
        RowMembership(n, mode, c - 1, x);
      }
      NoDupAppend(Rows(n, mode, c - 1), row);
    }
  }

  lemma {:induction false} PaddingEntriesNoDup(es: seq<Entry>)
    requires NoDup(es)
    ensures NoDup(PaddingEntries(es))
  {
    if es != [] {
      var tail := es[1..];
      assert NoDup(tail) by {
        forall p, q | 0 <= p < q < |tail| ensures tail[p] != tail[q] {
          assert tail[p] == es[p + 1] && tail[q] == es[q + 1];
        }
      }
      PaddingEntriesNoDup(tail);
      if IsPadding(es[0]) {
        forall x | x in PaddingEntries(tail) ensures x != es[0] {
          PaddingEntriesMembership(tail, x);
          var q :| 0 <= q < |tail| && tail[q] == x;
          assert es[q + 1] == x;
        }
        NoDupAppend([es[0]], PaddingEntries(tail));
      } else {
        assert PaddingEntries(es) == PaddingEntries(tail);
      }
    }
  }

  /** All items of a request round, in the order they are recorded. */
  function RoundItems(n: nat, mode: Mode, pts: seq<Point>, t: Token, pad: (Point, Point, Token) -> Point): seq<(Key, Point)>
    requires n <= |pts|
  {
    var own := OwnRound(pts, n, t);
    OwnRoundFacts(pts, n, t);
    PaddingEntriesReady(Matrix(n, mode), own.xs);
    OwnItems(pts, n) + PadItems(PaddingEntries(Matrix(n, mode)), own.xs, own.next, pad)
  }

  /** The request round records its items in order. */
  lemma RoundItemsRecord(n: nat, mode: Mode, pts: seq<Point>, t: Token, pad: (Point, Point, Token) -> Point)
    requires n <= |pts|
    ensures RequestRound(n, mode, pts, t, pad) == RecordAll(RoundItems(n, mode, pts, t, pad), EmptyRound(t))
  {
    var own := OwnRound(pts, n, t);
    OwnRoundFacts(pts, n, t);
    var M := Matrix(n, mode);
    PadFoldRecords(M, own, pad);
    RecordAllAppend(OwnItems(pts, n), PadItems(PaddingEntries(M), own.xs, own.next, pad), EmptyRound(t));
  }

  /** The first n items of a request round are the own points. */
  lemma RoundItemsOwn(n: nat, mode: Mode, pts: seq<Point>, t: Token, pad: (Point, Point, Token) -> Point)
    requires n <= |pts|
    ensures n <= |RoundItems(n, mode, pts, t, pad)|
    ensures forall q | 0 <= q < n :: RoundItems(n, mode, pts, t, pad)[q] == ((q, q), pts[q])
  {
  }

  /** The items after the first n are padding points under off-diagonal
      keys, each derived from the two own points with its own id as the
      draw. */
  lemma RoundItemsPad(n: nat, mode: Mode, pts: seq<Point>, t: Token, pad: (Point, Point, Token) -> Point)
    requires n <= |pts|
    ensures var items := RoundItems(n, mode, pts, t, pad);
      forall q | n <= q < |items| ::
        items[q].0.0 != items[q].0.1 && items[q].0.0 < n && items[q].0.1 < n &&
        items[q].1 == pad(pts[items[q].0.0], pts[items[q].0.1], t + q)
  {
    var own := OwnRound(pts, n, t);
    OwnRoundFacts(pts, n, t);
    var M := Matrix(n, mode);
    PaddingEntriesReady(M, own.xs);
    var ps := PaddingEntries(M);
    var padItems := PadItems(ps, own.xs, own.next, pad);
    MatrixInRange(n, mode);
    var items := RoundItems(n, mode, pts, t, pad);
    assert items == OwnItems(pts, n) + padItems;
    forall q | n <= q < |items|
      ensures items[q].0.0 != items[q].0.1 && items[q].0.0 < n && items[q].0.1 < n &&
              items[q].1 == pad(pts[items[q].0.0], pts[items[q].0.1], t + q)
    {
      var e := ps[q - n];
      assert e in ps;
      assert e in M && IsPadding(e);
      assert e.requester < n && e.point < n;
      assert items[q] == padItems[q - n];
      assert padItems[q - n] == (KeyOf(e), pad(own.xs[(e.requester, e.requester)], own.xs[(e.point, e.point)], t + n + (q - n)));
    }
  }

  lemma KeysOfAppend(a: seq<(Key, Point)>, b: seq<(Key, Point)>)
    ensures KeysOf(a + b) == KeysOf(a) + KeysOf(b)
  {
  }

  /** Own items under the diagonal keys followed by items under the keys of
      distinct padding entries have distinct keys. */
  lemma OwnPadDistinct(n: nat, ownItems: seq<(Key, Point)>, ps: seq<Entry>, padItems: seq<(Key, Point)>)
    requires |ownItems| == n && forall i | 0 <= i < n :: ownItems[i].0 == (i, i)
    requires |padItems| == |ps| && forall q | 0 <= q < |ps| :: padItems[q].0 == KeyOf(ps[q])
    requires forall e | e in ps :: IsPadding(e)
    requires NoDup(ps)
    ensures DistinctKeys(ownItems + padItems)
  {
    var items := ownItems + padItems;
    forall p, q | 0 <= p < q < |items| ensures items[p].0 != items[q].0 {
      if q >= n {
        var e2 := ps[q - n];
        assert e2 in ps;
        assert items[q].0 == KeyOf(e2);
        if p >= n {
          var e1 := ps[p - n];
          assert e1 in ps;
          assert items[p].0 == KeyOf(e1);
        } else {
          assert items[p] == ownItems[p];
        }
      } else {
        assert items[p] == ownItems[p] && items[q] == ownItems[q];
      }
    }
  }

  /** The request round's keys are distinct. */
  lemma RoundItemsDistinct(n: nat, mode: Mode, pts: seq<Point>, t: Token, pad: (Point, Point, Token) -> Point)
    requires n <= |pts|
    ensures DistinctKeys(RoundItems(n, mode, pts, t, pad))
  {
    var own := OwnRound(pts, n, t);
    OwnRoundFacts(pts, n, t);
    var M := Matrix(n, mode);
    PaddingEntriesReady(M, own.xs);
    var ps := PaddingEntries(M);
    var ownItems := OwnItems(pts, n);
    var padItems := PadItems(ps, own.xs, own.next, pad);
    RowsNoDup(n, mode, n);
    PaddingEntriesNoDup(M);
    OwnPadDistinct(n, ownItems, ps, padItems);
    assert RoundItems(n, mode, pts, t, pad) == ownItems + padItems;
  }

  lemma RoundItemsKeys(n: nat, mode: Mode, pts: seq<Point>, t: Token, pad: (Point, Point, Token) -> Point)
    requires n <= |pts|
    ensures KeysOf(RoundItems(n, mode, pts, t, pad)) == RoundKeys(n, mode)
  {
    var own := OwnRound(pts, n, t);
    OwnRoundFacts(pts, n, t);
    var M := Matrix(n, mode);
    PaddingEntriesReady(M, own.xs);
    var ps := PaddingEntries(M);
    var ownItems := OwnItems(pts, n);
    var padItems := PadItems(ps, own.xs, own.next, pad);
    KeysOfAppend(ownItems, padItems);
    assert KeysOf(ownItems) == OwnKeys(n) by {
      forall k | k in OwnKeys(n) ensures k in KeysOf(ownItems) {
        var i :| 0 <= i < n && k == (i, i);
        assert ownItems[i] in ownItems;
      }
    }
    assert KeysOf(padItems) == PaddingKeys(M) by {
      forall k | k in KeysOf(padItems) ensures k in PaddingKeys(M) {
        var it :| it in padItems && it.0 == k;
        var q :| 0 <= q < |padItems| && padItems[q] == it;
        assert ps[q] in ps;
      }
      forall k | k in PaddingKeys(M) ensures k in KeysOf(padItems) {
        var e :| e in M && IsPadding(e) && KeyOf(e) == k;
        PaddingEntriesMembership(M, e);
        var q :| 0 <= q < |ps| && ps[q] == e;
        assert padItems[q] in padItems;
      }
    }
  }

  /** The ledger of a request round holds exactly the keys the sharing
      mode calls for (n or n(n+1)/2 of them), including the key of every
      sharing entry, under fresh and distinct ids. */
  lemma RequestRoundKeys(n: nat, mode: Mode, pts: seq<Point>, t: Token, pad: (Point, Point, Token) -> Point)
    requires n <= |pts|
    ensures var r := RequestRound(n, mode, pts, t, pad);
      && WellFormed(r)
      && r.ids.Keys == RoundKeys(n, mode)
      && |r.ids| == ExpectedKeyCount(n, mode)
      && (forall e | e in Matrix(n, mode) :: KeyOf(e) in r.ids)
      && (forall k | k in r.ids :: t <= r.ids[k] < r.next)
  {
    var items := RoundItems(n, mode, pts, t, pad);
    var r := RequestRound(n, mode, pts, t, pad);
    RoundItemsRecord(n, mode, pts, t, pad);
    RoundItemsKeys(n, mode, pts, t, pad);
    RecordAllKeys(items, EmptyRound(t));
    RecordAllFresh(items, EmptyRound(t));
    assert r.ids.Keys == RoundKeys(n, mode);
    RoundKeysCount(n, mode);
    assert |r.ids| == |r.ids.Keys|;
    MatrixKeysRecorded(n, mode);
  }

  /** The position of a recorded key among the items. */
  lemma KeyIndex(items: seq<(Key, Point)>, k: Key) returns (q: nat)
    requires k in KeysOf(items)
    ensures q < |items| && items[q].0 == k
  {
    var it :| it in items && it.0 == k;
    var p :| 0 <= p < |items| && items[p] == it;
    q := p;
  }

  /** Round r holds exactly the items' keys, each with the id of its
      position (from t on) and its item's point, and their requests in
      order. */
  ghost predicate Positioned(items: seq<(Key, Point)>, t: Token, r: Round)
  {
    && r.ids.Keys == KeysOf(items)
    && r.xs.Keys == KeysOf(items)
    && r.batch == Requests(items, t)
    && forall q | 0 <= q < |items| ::
      items[q].0 in r.ids && items[q].0 in r.xs &&
      r.ids[items[q].0] == t + q && r.xs[items[q].0] == items[q].1
  }

  /** Everything a request round's ledger owes to the positions of its
      items. */
  lemma RequestRoundAt(n: nat, mode: Mode, pts: seq<Point>, t: Token, pad: (Point, Point, Token) -> Point)
    requires n <= |pts|
    ensures DistinctKeys(RoundItems(n, mode, pts, t, pad))
    ensures Positioned(RoundItems(n, mode, pts, t, pad), t, RequestRound(n, mode, pts, t, pad))
  {
    var items := RoundItems(n, mode, pts, t, pad);
    RoundItemsRecord(n, mode, pts, t, pad);
    RoundItemsDistinct(n, mode, pts, t, pad);
    RecordAllShape(items, EmptyRound(t));
    RecordAllAt(items, EmptyRound(t));
  }

  /** A key of a positioned round sits at one position q of the items. */
  lemma PositionedKey(items: seq<(Key, Point)>, t: Token, r: Round, k: Key) returns (q: nat)
    requires Positioned(items, t, r)
    requires k in r.ids
    ensures q < |items| && items[q].0 == k
    ensures k in r.xs && r.ids[k] == t + q && r.xs[k] == items[q].1
  {
    q := KeyIndex(items, k);
  }

  /** With distinct keys, a positioned round has one request per key,
      each with the key's id and point. */
  lemma PositionedBatch(items: seq<(Key, Point)>, t: Token, r: Round)
    requires DistinctKeys(items)
    requires Positioned(items, t, r)
    ensures |r.batch| == |r.ids|
    ensures forall k | k in r.ids :: k in r.xs && Request(r.ids[k], k.0, r.xs[k]) in r.batch
  {
    DistinctKeysCount(items);
    assert |r.ids| == |r.ids.Keys|;
    forall k | k in r.ids ensures k in r.xs && Request(r.ids[k], k.0, r.xs[k]) in r.batch {
      var q := PositionedKey(items, t, r, k);
      assert r.batch[q] == Request(t + q, items[q].0.0, items[q].1);
    }
  }

  /** Own items first, padding items after: the round's points. */
  lemma PositionedPoints(n: nat, pts: seq<Point>, items: seq<(Key, Point)>, t: Token, r: Round,
                         pad: (Point, Point, Token) -> Point)
    requires n <= |pts| && n <= |items|
    requires Positioned(items, t, r)
    requires forall q | 0 <= q < n :: items[q] == ((q, q), pts[q])
    requires forall q | n <= q < |items| ::
      items[q].0.0 != items[q].0.1 && items[q].0.0 < n && items[q].0.1 < n &&
      items[q].1 == pad(pts[items[q].0.0], pts[items[q].0.1], t + q)
    ensures forall i | 0 <= i < n :: (i, i) in r.xs && r.xs[(i, i)] == pts[i]
    ensures forall k | k in r.xs && k.0 != k.1 ::
      k.0 < n && k.1 < n && k in r.ids && r.xs[k] == pad(pts[k.0], pts[k.1], r.ids[k])
  {
    forall i | 0 <= i < n ensures (i, i) in r.xs && r.xs[(i, i)] == pts[i] {
      assert items[i].0 == (i, i);
    }
    forall k | k in r.xs && k.0 != k.1
      ensures k.0 < n && k.1 < n && k in r.ids && r.xs[k] == pad(pts[k.0], pts[k.1], r.ids[k])
    {
      var q := PositionedKey(items, t, r, k);
      assert q >= n;
    }
  }

  /** The points of a request round: optimiser i's own point under (i, i),
      and under every other key a padding point derived by `pad` from the
      two optimisers' own points, with the key's own id as the draw. */
  lemma RequestRoundPoints(n: nat, mode: Mode, pts: seq<Point>, t: Token, pad: (Point, Point, Token) -> Point)
    requires n <= |pts|
    ensures var r := RequestRound(n, mode, pts, t, pad);
      && (forall i | 0 <= i < n :: (i, i) in r.xs && r.xs[(i, i)] == pts[i])
      && (forall k | k in r.xs && k.0 != k.1 ::
            k.0 < n && k.1 < n && k in r.ids && r.xs[k] == pad(pts[k.0], pts[k.1], r.ids[k]))
  {
    RequestRoundAt(n, mode, pts, t, pad);
    RoundItemsOwn(n, mode, pts, t, pad);
    RoundItemsPad(n, mode, pts, t, pad);
    PositionedPoints(n, pts, RoundItems(n, mode, pts, t, pad), t, RequestRound(n, mode, pts, t, pad), pad);
  }

  /** The batch of a request round lists every ledger entry exactly once:
      as many requests as keys, and each key's request among them. */
  lemma RequestRoundBatch(n: nat, mode: Mode, pts: seq<Point>, t: Token, pad: (Point, Point, Token) -> Point)
    requires n <= |pts|
    ensures var r := RequestRound(n, mode, pts, t, pad);
      && |r.batch| == |r.ids|
      && (forall k | k in r.ids :: k in r.xs && Request(r.ids[k], k.0, r.xs[k]) in r.batch)
  {
    RequestRoundAt(n, mode, pts, t, pad);
    PositionedBatch(RoundItems(n, mode, pts, t, pad), t, RequestRound(n, mode, pts, t, pad));
  }

  /** The request round is the own round followed by the padding pass
      started on an empty batch, the two batches concatenated. */
  lemma RequestRoundSplit(n: nat, mode: Mode, pts: seq<Point>, t: Token, pad: (Point, Point, Token) -> Point)
    requires n <= |pts|
    ensures PadReady(Matrix(n, mode), OwnRound(pts, n, t).xs)
    ensures var own := OwnRound(pts, n, t);
      var p := PadFold(Matrix(n, mode), Round(own.ids, own.xs, [], own.next), pad);
      RequestRound(n, mode, pts, t, pad) == Round(p.ids, p.xs, own.batch + p.batch, p.next)
  {
    var own := OwnRound(pts, n, t);
    OwnRoundFacts(pts, n, t);
    PadFoldBatch(Matrix(n, mode), own.ids, own.xs, own.batch, own.next, pad);
  }

  // ---------------------------------------------------------- init round

  /** The nbInit init points drawn for cost c, in draw order. */
  function InitDraws(c: nat, nbInit: nat, draw: (nat, nat) -> Point): (pts: seq<Point>)
    ensures |pts| == nbInit && forall run | 0 <= run < nbInit :: pts[run] == draw(c, run)
  {
    seq(nbInit, run requires 0 <= run < nbInit => draw(c, run))
  }

  function InitDrawRow(c: nat, nbInit: nat, draw: (nat, nat) -> Point): (row: seq<(Key, Point)>)
    ensures |row| == nbInit
  {
    seq(nbInit, k requires 0 <= k < nbInit => ((c, k), draw(c, k)))
  }

  /** The initialisation points: each cost c < costs draws nbInit points,
      recorded under (c, k). */
  function InitItems(costs: nat, nbInit: nat, draw: (nat, nat) -> Point): seq<(Key, Point)>
  {
    if costs == 0 then [] else InitItems(costs - 1, nbInit, draw) + InitDrawRow(costs - 1, nbInit, draw)
  }

  /** The init batch records exactly the keys (c, k) for c < costs and
      k < nbInit, with the drawn points. */
  lemma {:induction false} InitItemsKeys(costs: nat, nbInit: nat, draw: (nat, nat) -> Point)
    ensures forall c: nat, k: nat :: (c, k) in KeysOf(InitItems(costs, nbInit, draw)) <==> c < costs && k < nbInit
    ensures forall it | it in InitItems(costs, nbInit, draw) :: it.1 == draw(it.0.0, it.0.1)
  {
    if costs > 0 {
      InitItemsKeys(costs - 1, nbInit, draw);
      var row := InitDrawRow(costs - 1, nbInit, draw);
      var items := InitItems(costs, nbInit, draw);
      assert items == InitItems(costs - 1, nbInit, draw) + row;
      KeysOfAppend(InitItems(costs - 1, nbInit, draw), row);
      forall c: nat, k: nat ensures (c, k) in KeysOf(row) <==> c == costs - 1 && k < nbInit {
        if (c, k) in KeysOf(row) {
          var it :| it in row && it.0 == (c, k);
          var q :| 0 <= q < |row| && row[q] == it;
        }
        if c == costs - 1 && k < nbInit {
          assert row[k].0 == (c, k);
          assert row[k] in row;
        }
      }
      forall it | it in row ensures it.1 == draw(it.0.0, it.0.1) {
        var q :| 0 <= q < |row| && row[q] == it;
      }
    }
  }

  /** When every item carries the drawn point of its own key, so does
      every key the recording touches, whatever was recorded before. */
  lemma {:induction false} RecordAllDrawn(items: seq<(Key, Point)>, r: Round, draw: (nat, nat) -> Point)
    requires forall it | it in items :: it.1 == draw(it.0.0, it.0.1)
    ensures forall k | k in KeysOf(items) :: k in RecordAll(items, r).xs && RecordAll(items, r).xs[k] == draw(k.0, k.1)
    decreases |items|
  {
    if items != [] {
      var r1 := Record(r, items[0].0, items[0].1);
      assert forall it | it in items[1..] :: it in items;
      RecordAllDrawn(items[1..], r1, draw);
      KeysOfCons(items);
      if items[0].0 !in KeysOf(items[1..]) {
        RecordAllKeeps(items[1..], r1, items[0].0);
      }
    }
  }

  // -------------------------------------------------------------- router

  datatype Observation = Observation(x: Point, y: Value)

  /** A ledger lookup either finds the request or fails (KeyError). */
  datatype Routed = Found(obs: Observation) | UnknownRequest(key: Key)

  /** `decode(c, id)` is cost object c's reading of the current results
      object at the request named id. */
  type Decoder = (nat, Token) -> Value

  /** Cross-evaluation: the point recorded under (requester, point) and
      its value as decoded by the consumer's cost object. */
  function CrossEvaluation(ids: map<Key, Token>, xs: map<Key, Point>, consumer: nat, requester: nat,
                           point: Option<nat>, decode: Decoder): (r: Routed)
    ensures var k := (requester, point.GetOr(requester));
      && (r.Found? <==> k in ids && k in xs)
      && (r.Found? ==> r.obs == Observation(xs[k], decode(consumer, ids[k])))
      && (r.UnknownRequest? ==> r.key == k)
  {
    var k := (requester, if point.Some? then point.value else requester);
    if k !in ids then UnknownRequest(k)
    else if k !in xs then UnknownRequest(k)
    else Found(Observation(xs[k], decode(consumer, ids[k])))
  }

  datatype Option<T> = None | Some(value: T) {
    function GetOr(default: T): T { if Some? then value else default }
  }

  /** Index of the first entry whose key is not in the ledger (|es| when
      every key is present): where the update loop stops on a KeyError. */
  function FirstMiss(es: seq<Entry>, ids: map<Key, Token>): (m: nat)
    ensures m <= |es|
    ensures forall q | 0 <= q < m :: KeyOf(es[q]) in ids
    ensures m < |es| ==> KeyOf(es[m]) !in ids
  {
    if es == [] then 0
    else if KeyOf(es[0]) !in ids then 0
    else 1 + FirstMiss(es[1..], ids)
  }

  /** The points optimiser i receives from the entries es, in order. */
  function XsFor(i: nat, es: seq<Entry>, xs: map<Key, Point>): seq<Point>
    requires forall e | e in es :: KeyOf(e) in xs
  {
    if es == [] then []
    else
      var last := es[|es| - 1];
      XsFor(i, es[..|es| - 1], xs) + (if last.consumer == i then [xs[KeyOf(last)]] else [])
  }

  /** The values optimiser i receives from the entries es, each decoded by
      cost object i. */
  function YsFor(i: nat, es: seq<Entry>, ids: map<Key, Token>, decode: Decoder): seq<Value>
    requires forall e | e in es :: KeyOf(e) in ids
  {
    if es == [] then []
    else
      var last := es[|es| - 1];
      YsFor(i, es[..|es| - 1], ids, decode) + (if last.consumer == i then [decode(i, ids[KeyOf(last)])] else [])
  }

  /** Reading one more entry appends at most one point and one value, and
      only for the entry's consumer. */
  lemma AbsorbStep(i: nat, es: seq<Entry>, q: nat, ids: map<Key, Token>, xs: map<Key, Point>, decode: Decoder)
    requires q < |es|
    requires forall p | 0 <= p <= q :: KeyOf(es[p]) in ids && KeyOf(es[p]) in xs
    ensures forall e | e in es[..q] :: KeyOf(e) in ids && KeyOf(e) in xs
    ensures forall e | e in es[..q + 1] :: KeyOf(e) in ids && KeyOf(e) in xs
    ensures XsFor(i, es[..q + 1], xs) ==
      XsFor(i, es[..q], xs) + (if es[q].consumer == i then [xs[KeyOf(es[q])]] else [])
    ensures YsFor(i, es[..q + 1], ids, decode) ==
      YsFor(i, es[..q], ids, decode) + (if es[q].consumer == i then [decode(i, ids[KeyOf(es[q])])] else [])
  {
    forall e | e in es[..q + 1] ensures KeyOf(e) in ids && KeyOf(e) in xs {
      var p :| 0 <= p < q + 1 && es[..q + 1][p] == e;
    }
    assert es[..q + 1][..q] == es[..q];
    assert es[..q + 1][q] == es[q];
  }

  /** Data that held optimiser i's share of es[..q] plus what entry q
      delivers holds its share of es[..q + 1]. */
  lemma AbsorbData(i: nat, es: seq<Entry>, q: nat, ids: map<Key, Token>, xs: map<Key, Point>, decode: Decoder,
                   x0: seq<Point>, y0: seq<Value>, x1: seq<Point>, y1: seq<Value>, obs: Observation)
    requires q < |es|
    requires forall p | 0 <= p <= q :: KeyOf(es[p]) in ids && KeyOf(es[p]) in xs
    requires obs == Observation(xs[KeyOf(es[q])], decode(es[q].consumer, ids[KeyOf(es[q])]))
    requires forall e | e in es[..q] :: KeyOf(e) in ids && KeyOf(e) in xs
    requires x1 == x0 + XsFor(i, es[..q], xs) + (if i == es[q].consumer then [obs.x] else [])
    requires y1 == y0 + YsFor(i, es[..q], ids, decode) + (if i == es[q].consumer then [obs.y] else [])
    ensures forall e | e in es[..q + 1] :: KeyOf(e) in ids && KeyOf(e) in xs
    ensures x1 == x0 + XsFor(i, es[..q + 1], xs)
    ensures y1 == y0 + YsFor(i, es[..q + 1], ids, decode)
  {
    AbsorbStep(i, es, q, ids, xs, decode);
    var newX := if i == es[q].consumer then [obs.x] else [];
    var newY := if i == es[q].consumer then [obs.y] else [];
    assert x0 + XsFor(i, es[..q], xs) + newX == x0 + (XsFor(i, es[..q], xs) + newX);
    assert y0 + YsFor(i, es[..q], ids, decode) + newY == y0 + (YsFor(i, es[..q], ids, decode) + newY);
  }

  /** When every key is in the ledger, nothing is missed. */
  lemma {:induction false} FirstMissNone(es: seq<Entry>, ids: map<Key, Token>)
    requires forall e | e in es :: KeyOf(e) in ids
    ensures FirstMiss(es, ids) == |es|
    decreases |es|
  {
    if es != [] {
      assert es[0] in es;
      assert forall e | e in es[1..] :: e in es;
      FirstMissNone(es[1..], ids);
    }
  }

  /** Keys before the first miss are all in the ledger. */
  lemma PrefixKeys(es: seq<Entry>, q: nat, ids: map<Key, Token>, xs: map<Key, Point>)
    requires q <= FirstMiss(es, ids)
    requires ids.Keys == xs.Keys
    ensures forall e | e in es[..q] :: KeyOf(e) in ids && KeyOf(e) in xs
  {
    forall e | e in es[..q] ensures KeyOf(e) in ids && KeyOf(e) in xs {
      var p :| 0 <= p < q && es[..q][p] == e;
      assert es[p] == e;
    }
  }

  /** One row per entry naming optimiser i. */
  lemma {:induction false} RowsForCount(i: nat, es: seq<Entry>, ids: map<Key, Token>, xs: map<Key, Point>, decode: Decoder)
    requires forall e | e in es :: KeyOf(e) in ids && KeyOf(e) in xs
    ensures |XsFor(i, es, xs)| == CountFor(i, es)
    ensures |YsFor(i, es, ids, decode)| == CountFor(i, es)
  {
    if es != [] {
      RowsForCount(i, es[..|es| - 1], ids, xs, decode);
    }
  }

  lemma {:induction false} XsForAppend(i: nat, a: seq<Entry>, b: seq<Entry>, xs: map<Key, Point>)
    requires forall e | e in a + b :: KeyOf(e) in xs
    ensures XsFor(i, a + b, xs) == XsFor(i, a, xs) + XsFor(i, b, xs)
    decreases |b|
  {
    if b == [] {
      assert a + b == a;
    } else {
      assert (a + b)[..|a + b| - 1] == a + b[..|b| - 1];
      assert (a + b)[|a + b| - 1] == b[|b| - 1];
      XsForAppend(i, a, b[..|b| - 1], xs);
    }
  }

  lemma {:induction false} XsForUniform(i: nat, c: nat, es: seq<Entry>, xs: map<Key, Point>)
    requires forall e | e in es :: KeyOf(e) in xs && e.consumer == c
    ensures i != c ==> XsFor(i, es, xs) == []
    ensures i == c ==> (|XsFor(i, es, xs)| == |es| &&
      forall q | 0 <= q < |es| :: KeyOf(es[q]) in xs && XsFor(i, es, xs)[q] == xs[KeyOf(es[q])])
    decreases |es|
  {
    if es != [] {
      XsForUniform(i, c, es[..|es| - 1], xs);
      assert es[|es| - 1] in es;
      forall q | 0 <= q < |es| ensures KeyOf(es[q]) in xs {
        assert es[q] in es;
      }
    }
  }

  lemma KeysInParts(a: seq<Entry>, b: seq<Entry>, xs: map<Key, Point>)
    requires forall e | e in a + b :: KeyOf(e) in xs
    ensures forall e | e in a :: KeyOf(e) in xs
    ensures forall e | e in b :: KeyOf(e) in xs
  {
    forall e | e in a ensures KeyOf(e) in xs {
      assert e in a + b;
    }
    forall e | e in b ensures KeyOf(e) in xs {
      assert e in a + b;
    }
  }

  /** pts are the points optimiser i is owed by its row of the sharing
      matrix: one per generator j, the one recorded under entry (i, j)'s key. */
  ghost predicate RowPoints(pts: seq<Point>, n: nat, mode: Mode, i: nat, xs: map<Key, Point>)
  {
    && |pts| == RowLength(n, mode)
    && forall j | 0 <= j < RowLength(n, mode) ::
      KeyOf(EntryFor(mode, i, j)) in xs && pts[j] == xs[KeyOf(EntryFor(mode, i, j))]
  }

  /** The points optimiser i receives from row c of the sharing matrix. */
  lemma RowXs(n: nat, mode: Mode, c: nat, i: nat, xs: map<Key, Point>)
    requires c < n
    requires forall e | e in Row(n, mode, c) :: KeyOf(e) in xs
    ensures i != c ==> XsFor(i, Row(n, mode, c), xs) == []
    ensures i == c ==> RowPoints(XsFor(i, Row(n, mode, c), xs), n, mode, i, xs)
  {
    var row := Row(n, mode, c);
    forall e | e in row ensures KeyOf(e) in xs && e.consumer == c {
      RowMembership(n, mode, c, e);
    }
    XsForUniform(i, c, row, xs);
    assert |row| == RowLength(n, mode);
    forall j | 0 <= j < |row| ensures row[j] == EntryFor(mode, c, j) {
    }
  }

  /** Step of RowsXs: the rows before c - 1, then row c - 1. */
  lemma RowPointsStep(n: nat, mode: Mode, i: nat, c: nat, xs: map<Key, Point>, a: seq<Point>, b: seq<Point>)
    requires c > 0
    requires i >= c - 1 ==> a == []
    requires i < c - 1 ==> RowPoints(a, n, mode, i, xs)
    requires i != c - 1 ==> b == []
    requires i == c - 1 ==> RowPoints(b, n, mode, i, xs)
    ensures i >= c ==> a + b == []
    ensures i < c ==> RowPoints(a + b, n, mode, i, xs)
  {
    if i == c - 1 {
      assert a + b == b;
    } else {
      assert a + b == a;
    }
  }

  /** The points optimiser i receives from consumers 0 .. c-1's rows: the
      keys of its own row, one per generator. */
  lemma {:induction false} RowsXs(n: nat, mode: Mode, c: nat, i: nat, xs: map<Key, Point>)
    requires c <= n
    requires forall e | e in Rows(n, mode, c) :: KeyOf(e) in xs
    ensures i >= c ==> XsFor(i, Rows(n, mode, c), xs) == []
    ensures i < c ==> RowPoints(XsFor(i, Rows(n, mode, c), xs), n, mode, i, xs)
  {
    if c > 0 {
      var row := Row(n, mode, c - 1);
      var before := Rows(n, mode, c - 1);
      assert Rows(n, mode, c) == before + row;
      KeysInParts(before, row, xs);
      var a := XsFor(i, before, xs);
      var b := XsFor(i, row, xs);
      assert (i >= c - 1 ==> a == []) && (i < c - 1 ==> RowPoints(a, n, mode, i, xs)) by {
        RowsXs(n, mode, c - 1, i, xs);
      }
      assert (i != c - 1 ==> b == []) && (i == c - 1 ==> RowPoints(b, n, mode, i, xs)) by {
        RowXs(n, mode, c - 1, i, xs);
      }
      XsForAppend(i, before, row, xs);
      RowPointsStep(n, mode, i, c, xs, a, b);
    }
  }

  /** The points an optimiser receives in one update: for a square mode,
      one per generator j, namely the point recorded under the key of entry
      (i, j); for independent, its own point only. */
  lemma MatrixXs(n: nat, mode: Mode, i: nat, xs: map<Key, Point>)
    requires i < n
    requires forall e | e in Matrix(n, mode) :: KeyOf(e) in xs
    ensures |XsFor(i, Matrix(n, mode), xs)| == RowLength(n, mode)
    ensures forall j | 0 <= j < RowLength(n, mode) ::
      KeyOf(EntryFor(mode, i, j)) in xs && XsFor(i, Matrix(n, mode), xs)[j] == xs[KeyOf(EntryFor(mode, i, j))]
  {
    RowsXs(n, mode, n, i, xs);
  }

  // ------------------------------------------------------ init sharing

  /** The sharing list of the init phase: every optimiser receives the nbInit
      points of cost 0 when the init data is shared, its own otherwise. */
  function InitRows(c: nat, nbInit: nat, shareInit: bool): seq<Entry>
  {
    if c == 0 then []
    else InitRows(c - 1, nbInit, shareInit) + InitEntryRow(c - 1, nbInit, shareInit)
  }

  function InitSource(shareInit: bool, c: nat): nat
  {
    if shareInit then 0 else c
  }

  function InitEntryRow(c: nat, nbInit: nat, shareInit: bool): (row: seq<Entry>)
    ensures |row| == nbInit
    ensures forall run | 0 <= run < nbInit :: row[run] == Entry(c, InitSource(shareInit, c), run)
  {
    seq(nbInit, run requires 0 <= run < nbInit => Entry(c, InitSource(shareInit, c), run))
  }

  /** Consumer c's init row: its entries name c and c's source cost. */
  lemma InitEntryRowMembers(c: nat, nbInit: nat, shareInit: bool)
    ensures forall e | e in InitEntryRow(c, nbInit, shareInit) ::
      e.consumer == c && e.requester == InitSource(shareInit, c) && e.point < nbInit
  {
    var row := InitEntryRow(c, nbInit, shareInit);
    forall e | e in row ensures e.consumer == c && e.requester == InitSource(shareInit, c) && e.point < nbInit {
      var q :| 0 <= q < |row| && row[q] == e;
    }
  }

  lemma {:induction false} InitRowsMembers(c: nat, nbInit: nat, shareInit: bool)
    ensures forall e | e in InitRows(c, nbInit, shareInit) ::
      e.consumer < c && e.requester == InitSource(shareInit, e.consumer) && e.point < nbInit
  {
    if c > 0 {
      var before := InitRows(c - 1, nbInit, shareInit);
      var row := InitEntryRow(c - 1, nbInit, shareInit);
      InitRowsMembers(c - 1, nbInit, shareInit);
      InitEntryRowMembers(c - 1, nbInit, shareInit);
      assert InitRows(c, nbInit, shareInit) == before + row;
    }
  }

  /** Consumer c's init row holds nbInit entries for c and none for anyone
      else. */
  lemma InitEntryRowCount(c: nat, nbInit: nat, shareInit: bool, i: nat)
    ensures CountFor(i, InitEntryRow(c, nbInit, shareInit)) == if i == c then nbInit else 0
  {
    InitEntryRowMembers(c, nbInit, shareInit);
    CountForUniform(i, c, InitEntryRow(c, nbInit, shareInit));
  }

  lemma {:induction false} InitRowsCount(c: nat, nbInit: nat, shareInit: bool, i: nat)
    ensures CountFor(i, InitRows(c, nbInit, shareInit)) == if i < c then nbInit else 0
  {
    if c > 0 {
      var before := InitRows(c - 1, nbInit, shareInit);
      var row := InitEntryRow(c - 1, nbInit, shareInit);
      InitRowsCount(c - 1, nbInit, shareInit, i);
      InitEntryRowCount(c - 1, nbInit, shareInit, i);
      assert InitRows(c, nbInit, shareInit) == before + row;
      CountForAppend(i, before, row);
      CountStep(i, c, CountFor(i, before), CountFor(i, row), nbInit);
    }
  }

  /** Every init entry names a consumer below c, requests from cost 0
      (shared) or from the consumer itself, and a point index below nbInit;
      every consumer below c gets nbInit of them. */
  lemma InitRowsShape(c: nat, nbInit: nat, shareInit: bool, i: nat)
    ensures forall e | e in InitRows(c, nbInit, shareInit) ::
      e.consumer < c && e.requester == InitSource(shareInit, e.consumer) && e.point < nbInit
    ensures CountFor(i, InitRows(c, nbInit, shareInit)) == if i < c then nbInit else 0
  {
    InitRowsMembers(c, nbInit, shareInit);
    InitRowsCount(c, nbInit, shareInit, i);
  }

  /** The init points optimiser i receives from consumer c's init row. */
  lemma InitRowXs(c: nat, nbInit: nat, shareInit: bool, i: nat, xs: map<Key, Point>)
    requires forall e | e in InitEntryRow(c, nbInit, shareInit) :: KeyOf(e) in xs
    ensures i != c ==> XsFor(i, InitEntryRow(c, nbInit, shareInit), xs) == []
    ensures i == c ==> (|XsFor(i, InitEntryRow(c, nbInit, shareInit), xs)| == nbInit &&
      forall run | 0 <= run < nbInit ::
        (InitSource(shareInit, i), run) in xs &&
        XsFor(i, InitEntryRow(c, nbInit, shareInit), xs)[run] == xs[(InitSource(shareInit, i), run)])
  {
    var row := InitEntryRow(c, nbInit, shareInit);
    forall e | e in row ensures KeyOf(e) in xs && e.consumer == c {
      var q :| 0 <= q < |row| && row[q] == e;
    }
    XsForUniform(i, c, row, xs);
    forall run | 0 <= run < nbInit ensures KeyOf(row[run]) == (InitSource(shareInit, c), run) {
    }
  }

  /** The init points optimiser i receives: the nbInit points of its source
      cost, in order. */
  lemma {:induction false} InitRowsXs(c: nat, nbInit: nat, shareInit: bool, i: nat, xs: map<Key, Point>)
    requires forall e | e in InitRows(c, nbInit, shareInit) :: KeyOf(e) in xs
    ensures i >= c ==> XsFor(i, InitRows(c, nbInit, shareInit), xs) == []
    ensures i < c ==> (|XsFor(i, InitRows(c, nbInit, shareInit), xs)| == nbInit &&
      forall run | 0 <= run < nbInit ::
        (InitSource(shareInit, i), run) in xs &&
        XsFor(i, InitRows(c, nbInit, shareInit), xs)[run] == xs[(InitSource(shareInit, i), run)])
  {
    if c > 0 {
      var row := InitEntryRow(c - 1, nbInit, shareInit);
      var before := InitRows(c - 1, nbInit, shareInit);
      assert InitRows(c, nbInit, shareInit) == before + row;
      KeysInParts(before, row, xs);
      InitRowsXs(c - 1, nbInit, shareInit, i, xs);
      XsForAppend(i, before, row, xs);
      InitRowXs(c - 1, nbInit, shareInit, i, xs);
      if i == c - 1 {
        assert XsFor(i, before, xs) + XsFor(i, row, xs) == XsFor(i, row, xs);
      } else {
        assert XsFor(i, before, xs) + XsFor(i, row, xs) == XsFor(i, before, xs);
      }
    }
  }

  /** With the drawn points recorded under their keys, optimiser i's init
      data is the nbInit points drawn for its source cost, in order. */
  lemma InitRowsDrawn(n: nat, nbInit: nat, shareInit: bool, i: nat, xs: map<Key, Point>, draw: (nat, nat) -> Point)
    requires i < n
    requires forall e | e in InitRows(n, nbInit, shareInit) :: KeyOf(e) in xs
    requires forall run | 0 <= run < nbInit ::
      (InitSource(shareInit, i), run) in xs && xs[(InitSource(shareInit, i), run)] == draw(InitSource(shareInit, i), run)
    ensures XsFor(i, InitRows(n, nbInit, shareInit), xs) ==
      InitDraws(InitSource(shareInit, i), nbInit, draw)
  {
    InitRowsXs(n, nbInit, shareInit, i, xs);
  }
}
