/** Sharing topologies of the parallel optimiser: which optimiser consumes
    which evaluated point, and the request keys a round has to create. */
module Sharing {

  /** The four sharing modes the constructor accepts. */
  datatype Mode = Independent | Shared | Left | Right

  /** Why a mode name is refused. NameError is what the constructor's
      check raises as written; ValueError is the error it means to raise;
      NotImplementedError is reserved for the random modes. */
  datatype ModeError = NameError | ValueError | NotImplementedError

  datatype ModeResult = Accepted(mode: Mode) | Rejected(error: ModeError)

  /** A sharing entry: optimiser `consumer` receives the evaluation of the
      point with index `point` that optimiser `requester` asked for. */
  datatype Entry = Entry(consumer: nat, requester: nat, point: nat)

  /** A request key: (requester, point). */
  type Key = (nat, nat)

  function KeyOf(e: Entry): Key { (e.requester, e.point) }

  /** The constructor's check of the `method` argument as written, branch
      for branch. The first test rejects every name outside the four
      modes, but the message it prints is sent to `sys.stderr` and the
      module never imports `sys`, so evaluating that argument raises
      NameError before the ValueError is reached. The second test
      (reserved random modes) can never fire. */
  function ParseMode(name: string): (r: ModeResult)
    ensures r.Accepted? <==> name in {"independent", "shared", "left", "right"}
    ensures r.Accepted? ==> NameOf(r.mode) == name
    ensures r.Rejected? ==> r.error == NameError
  {
    if name !in ["independent", "shared", "left", "right"] then Rejected(NameError)
    else if name in ["random1", "random2"] then Rejected(NotImplementedError)
    else if name == "independent" then Accepted(Independent)
    else if name == "shared" then Accepted(Shared)
    else if name == "left" then Accepted(Left)
    else Accepted(Right)
  }

  /** The check as it is evidently meant to behave: the same names are
      accepted, and every other name is refused with ValueError. */
  function IntendedParseMode(name: string): (r: ModeResult)
    ensures r.Accepted? <==> name in {"independent", "shared", "left", "right"}
    ensures r.Accepted? ==> NameOf(r.mode) == name
    ensures r.Rejected? ==> r.error == ValueError
  {
    match ParseMode(name)
    case Accepted(mode) => Accepted(mode)
    case Rejected(_) => Rejected(ValueError)
  }

  /** The two checks accept the same names with the same mode, and differ
      on every other name: NameError as written, ValueError as intended. */
  lemma ParseModeMismatch(name: string)
    ensures ParseMode(name).Accepted? <==> IntendedParseMode(name).Accepted?
    ensures ParseMode(name).Accepted? ==> ParseMode(name) == IntendedParseMode(name)
    ensures ParseMode(name).Rejected? ==>
      ParseMode(name) == Rejected(NameError) && IntendedParseMode(name) == Rejected(ValueError)
  {
  }

  /** An unknown name, such as "bogus", shows the discrepancy. */
  lemma UnknownModeRaisesNameError()
    ensures ParseMode("bogus") == Rejected(NameError)
    ensures IntendedParseMode("bogus") == Rejected(ValueError)
  {
    assert "bogus" !in ["independent", "shared", "left", "right"];
  }

  function NameOf(mode: Mode): string
  {
    match mode
    case Independent => "independent"
    case Shared => "shared"
    case Left => "left"
    case Right => "right"
  }

  /** The entry for consumer i and generator j in a square (non-independent)
      topology. Left: lower-or-equal generators are shared, higher ones are
      replaced by a padding point the consumer generates itself. Right is
      the mirror image. */
  function EntryFor(mode: Mode, i: nat, j: nat): Entry
  {
    match mode
    case Independent => Entry(i, i, i)
    case Shared => Entry(i, j, j)
    case Left => if i >= j then Entry(i, j, j) else Entry(i, i, j)
    case Right => if i <= j then Entry(i, j, j) else Entry(i, i, j)
  }

  /** Entries of consumer i, in generator order. */
  function Row(n: nat, mode: Mode, i: nat): seq<Entry>
  {
    if mode == Independent then [Entry(i, i, i)]
    else seq(n, j requires 0 <= j < n => EntryFor(mode, i, j))
  }

  /** Rows of consumers 0 .. c-1, consumer-major. */
  function Rows(n: nat, mode: Mode, c: nat): seq<Entry>
  {
    if c == 0 then [] else Rows(n, mode, c - 1) + Row(n, mode, c - 1)
  }

  /** The sharing matrix of n optimisers. */
  function Matrix(n: nat, mode: Mode): seq<Entry>
  {
    Rows(n, mode, n)
  }

  function RowLength(n: nat, mode: Mode): nat
  {
    if mode == Independent then 1 else n
  }

  /** Independent description of the entries of each mode. */
  ghost predicate Shares(n: nat, mode: Mode, e: Entry)
  {
    e.consumer < n && e.point < n &&
    match mode
    case Independent => e.requester == e.consumer && e.point == e.consumer
    case Shared => e.requester == e.point
    case Left => if e.consumer >= e.point then e.requester == e.point else e.requester == e.consumer
    case Right => if e.consumer <= e.point then e.requester == e.point else e.requester == e.consumer
  }

  // ---------------------------------------------------------------- sizes

  lemma {:induction false} RowsSize(n: nat, mode: Mode, c: nat)
    ensures |Rows(n, mode, c)| == c * RowLength(n, mode)
  {
    if c > 0 {
      RowsSize(n, mode, c - 1);
      assert |Row(n, mode, c - 1)| == RowLength(n, mode);
      assert Rows(n, mode, c) == Rows(n, mode, c - 1) + Row(n, mode, c - 1);
      MulSucc(c - 1, RowLength(n, mode));
    }
  }

  /** n entries for independent, n*n for the other modes. */
  lemma MatrixSize(n: nat, mode: Mode)
    ensures |Matrix(n, mode)| == if mode == Independent then n else n * n
  {
    RowsSize(n, mode, n);
  }

  // ----------------------------------------------------------- positions

  lemma MulSucc(a: nat, len: nat)
    ensures (a + 1) * len == a * len + len
  {
  }

  /** The rows of the first a consumers are a prefix of those of the
      first c. */
  lemma {:induction false} RowsPrefix(n: nat, mode: Mode, a: nat, c: nat)
    requires a <= c
    ensures |Rows(n, mode, a)| <= |Rows(n, mode, c)|
    ensures forall k | 0 <= k < |Rows(n, mode, a)| :: Rows(n, mode, c)[k] == Rows(n, mode, a)[k]
    decreases c
  {
    if a < c {
      RowsPrefix(n, mode, a, c - 1);
      var before := Rows(n, mode, c - 1);
      assert Rows(n, mode, c) == before + Row(n, mode, c - 1);
    }
  }

  lemma RowsAt(n: nat, mode: Mode, c: nat, i: nat, j: nat)
    requires i < c && j < RowLength(n, mode)
    ensures i * RowLength(n, mode) + j < |Rows(n, mode, c)|
    ensures Rows(n, mode, c)[i * RowLength(n, mode) + j] == Row(n, mode, i)[j]
  {
    var len := RowLength(n, mode);
    var before := Rows(n, mode, i);
    var row := Row(n, mode, i);
    var k := i * len + j;
    assert k == |before| + j by {
      RowsSize(n, mode, i);
    }
    assert |row| == len by {
      RowShape(n, mode, i);
    }
    var upTo := Rows(n, mode, i + 1);
    assert k < |upTo| && upTo[k] == row[j] by {
      assert upTo == before + row;
    }
    RowsPrefix(n, mode, i + 1, c);
  }

  /** Entry i*n + j is the one built for consumer i and generator j
      (the i-th entry for independent). */
  lemma MatrixAt(n: nat, mode: Mode, i: nat, j: nat)
    requires i < n && j < RowLength(n, mode)
    ensures i * RowLength(n, mode) + j < |Matrix(n, mode)|
    ensures Matrix(n, mode)[i * RowLength(n, mode) + j]
            == if mode == Independent then Entry(i, i, i) else EntryFor(mode, i, j)
  {
    RowsAt(n, mode, n, i, j);
  }

  // ---------------------------------------------------------- membership

  lemma RowMembership(n: nat, mode: Mode, i: nat, e: Entry)
    requires i < n
    ensures e in Row(n, mode, i) <==> Shares(n, mode, e) && e.consumer == i
  {
    if mode != Independent {
      if e in Row(n, mode, i) {
        var j :| 0 <= j < n && Row(n, mode, i)[j] == e;
      }
      if Shares(n, mode, e) && e.consumer == i {
        assert Row(n, mode, i)[e.point] == e;
      }
    }
  }

  lemma {:induction false} RowsMembership(n: nat, mode: Mode, c: nat, e: Entry)
    requires c <= n
    ensures e in Rows(n, mode, c) <==> Shares(n, mode, e) && e.consumer < c
  {
    if c > 0 {
      RowsMembership(n, mode, c - 1, e);
      RowMembership(n, mode, c - 1, e);
    }
  }

  /** The matrix holds exactly the entries the mode describes. */
  lemma MatrixMembership(n: nat, mode: Mode, e: Entry)
    ensures e in Matrix(n, mode) <==> Shares(n, mode, e)
  {
    RowsMembership(n, mode, n, e);
  }

  /** Every consumer index of the matrix is an optimiser index. */
  lemma MatrixInRange(n: nat, mode: Mode)
    ensures forall e | e in Matrix(n, mode) :: e.consumer < n && e.requester < n && e.point < n
  {
    forall e | e in Matrix(n, mode)
      ensures e.consumer < n && e.requester < n && e.point < n
    {
      MatrixMembership(n, mode, e);
    }
  }

  /** 'shared' is the full cross product of consumers and generators. */
  lemma SharedIsCrossProduct(n: nat)
    ensures forall i, j | 0 <= i < n && 0 <= j < n :: Entry(i, j, j) in Matrix(n, Shared)
    ensures forall e | e in Matrix(n, Shared) :: e.consumer < n && e.point < n && e.requester == e.point
  {
    forall i, j | 0 <= i < n && 0 <= j < n ensures Entry(i, j, j) in Matrix(n, Shared) {
      MatrixMembership(n, Shared, Entry(i, j, j));
    }
    forall e | e in Matrix(n, Shared) ensures e.consumer < n && e.point < n && e.requester == e.point {
      MatrixMembership(n, Shared, e);
    }
  }

  // ------------------------------------------------------- per consumer

  /** Number of entries naming optimiser i as consumer. */
  function CountFor(i: nat, es: seq<Entry>): nat
  {
    if es == [] then 0
    else CountFor(i, es[..|es| - 1]) + (if es[|es| - 1].consumer == i then 1 else 0)
  }

  lemma {:induction false} CountForAppend(i: nat, a: seq<Entry>, b: seq<Entry>)
    ensures CountFor(i, a + b) == CountFor(i, a) + CountFor(i, b)
  {
    if b == [] {
      assert a + b == a;
    } else {
      assert (a + b)[..|a + b| - 1] == a + b[..|b| - 1];
      assert (a + b)[|a + b| - 1] == b[|b| - 1];
      CountForAppend(i, a, b[..|b| - 1]);
    }
  }

  lemma {:induction false} CountForUniform(i: nat, c: nat, es: seq<Entry>)
    requires forall e | e in es :: e.consumer == c
    ensures CountFor(i, es) == if i == c then |es| else 0
  {
    if es != [] {
      assert es[|es| - 1] in es;
      CountForUniform(i, c, es[..|es| - 1]);
    }
  }

  /** Row i has RowLength entries, all consumed by optimiser i. */
  lemma RowShape(n: nat, mode: Mode, i: nat)
    ensures |Row(n, mode, i)| == RowLength(n, mode)
    ensures forall e | e in Row(n, mode, i) :: e.consumer == i
  {
    var row := Row(n, mode, i);
    forall e | e in row ensures e.consumer == i {
      var j :| 0 <= j < |row| && row[j] == e;
    }
  }

  /** Row c holds RowLength entries for optimiser c and none for others. */
  lemma RowCount(n: nat, mode: Mode, c: nat, i: nat)
    ensures CountFor(i, Row(n, mode, c)) == if i == c then RowLength(n, mode) else 0
  {
    RowShape(n, mode, c);
    CountForUniform(i, c, Row(n, mode, c));
  }

  lemma {:induction false} RowsCountFor(n: nat, mode: Mode, c: nat, i: nat)
    ensures CountFor(i, Rows(n, mode, c)) == if i < c then RowLength(n, mode) else 0
  {
    if c > 0 {
      var row := Row(n, mode, c - 1);
      var before := Rows(n, mode, c - 1);
      var len := RowLength(n, mode);
      var x := CountFor(i, before);
      var y := CountFor(i, row);
      assert CountFor(i, Rows(n, mode, c)) == x + y by {
        assert Rows(n, mode, c) == before + row;
        CountForAppend(i, before, row);
      }
      assert x == if i < c - 1 then len else 0 by {
        RowsCountFor(n, mode, c - 1, i);
      }
      assert y == if i == c - 1 then len else 0 by {
        RowCount(n, mode, c - 1, i);
      }
      CountStep(i, c, x, y, len);
    }
  }

  /** Counting step of RowsCountFor: rows before c - 1, then row c - 1. */
  lemma CountStep(i: nat, c: nat, x: nat, y: nat, len: nat)
    requires c > 0
    requires x == if i < c - 1 then len else 0
    requires y == if i == c - 1 then len else 0
    ensures x + y == if i < c then len else 0
  {
  }

  /** Each optimiser is the consumer of exactly n entries (one for
      independent): every optimiser receives the same number of points. */
  lemma MatrixCountFor(n: nat, mode: Mode, i: nat)
    requires i < n
    ensures CountFor(i, Matrix(n, mode)) == if mode == Independent then 1 else n
  {
    RowsCountFor(n, mode, n, i);
  }

  // -------------------------------------------------------- request keys

  /** Entries that make their requester generate a padding point. */
  predicate IsPadding(e: Entry)
  {
    e.consumer == e.requester && e.requester != e.point
  }

  /** The keys of the points the optimisers choose themselves. */
  ghost function OwnKeys(n: nat): set<Key>
  {
    set i | 0 <= i < n :: (i, i)
  }

  ghost function PaddingKeys(es: seq<Entry>): set<Key>
  {
    set e | e in es && IsPadding(e) :: KeyOf(e)
  }

  /** The keys a request round creates: own points plus padding points. */
  ghost function RoundKeys(n: nat, mode: Mode): set<Key>
  {
    OwnKeys(n) + PaddingKeys(Matrix(n, mode))
  }

  /** The ledger size the request round checks for. */
  function ExpectedKeyCount(n: nat, mode: Mode): nat
  {
    if mode == Independent || mode == Shared then n else n * (n + 1) / 2
  }

  /** Which keys a round creates: the diagonal for independent and shared,
      (i, j) with i <= j for left and with i >= j for right. */
  lemma RoundKeysMembership(n: nat, mode: Mode, k: Key)
    ensures k in RoundKeys(n, mode) <==>
      k.0 < n && k.1 < n &&
      match mode
      case Independent => k.0 == k.1
      case Shared => k.0 == k.1
      case Left => k.0 <= k.1
      case Right => k.0 >= k.1
  {
    var M := Matrix(n, mode);
    if k in PaddingKeys(M) {
      var e :| e in M && IsPadding(e) && KeyOf(e) == k;
      MatrixMembership(n, mode, e);
    }
    if k.0 < n && k.1 < n && k.0 != k.1 {
      if (mode == Left && k.0 < k.1) || (mode == Right && k.0 > k.1) {
        var e := Entry(k.0, k.0, k.1);
        MatrixMembership(n, mode, e);
        assert e in M && IsPadding(e) && KeyOf(e) == k;
      }
    }
    if k.0 == k.1 && k.0 < n {
      assert k in OwnKeys(n);
    }
  }

  /** Every lookup the update phase makes hits a key the request round
      creates. */
  lemma MatrixKeysRecorded(n: nat, mode: Mode)
    ensures forall e | e in Matrix(n, mode) :: KeyOf(e) in RoundKeys(n, mode)
  {
    forall e | e in Matrix(n, mode) ensures KeyOf(e) in RoundKeys(n, mode) {
      MatrixMembership(n, mode, e);
      if IsPadding(e) {
        assert KeyOf(e) in PaddingKeys(Matrix(n, mode));
      } else {
        assert KeyOf(e) in OwnKeys(n);
      }
    }
  }

  // Cardinalities of the key sets.

  ghost function Upper(n: nat): set<Key> { set i, j | 0 <= i <= j < n :: (i, j) }
  ghost function Lower(n: nat): set<Key> { set i, j | 0 <= j <= i < n :: (i, j) }
  ghost function Column(c: nat, k: nat): set<Key> { set i | 0 <= i < k :: (i, c) }
  ghost function Line(c: nat, k: nat): set<Key> { set j | 0 <= j < k :: (c, j) }

  lemma {:induction false} OwnKeysSize(n: nat)
    ensures |OwnKeys(n)| == n
  {
    if n > 0 {
      OwnKeysSize(n - 1);
      assert OwnKeys(n) == OwnKeys(n - 1) + {(n - 1, n - 1)};
    }
  }

  lemma {:induction false} ColumnSize(c: nat, k: nat)
    ensures |Column(c, k)| == k
  {
    if k > 0 {
      ColumnSize(c, k - 1);
      assert Column(c, k) == Column(c, k - 1) + {(k - 1, c)};
    }
  }

  lemma {:induction false} LineSize(c: nat, k: nat)
    ensures |Line(c, k)| == k
  {
    if k > 0 {
      LineSize(c, k - 1);
      assert Line(c, k) == Line(c, k - 1) + {(c, k - 1)};
    }
  }

  /** The triangular numbers grow by n at step n. */
  lemma TriangleStep(n: nat)
    requires n > 0
    ensures (n - 1) * n / 2 + n == n * (n + 1) / 2
  {
    MulSucc(n, n);
    MulSucc(n - 1, n);
    assert (n - 1) * n + 2 * n == n * (n + 1);
  }

  lemma UpperSplit(n: nat)
    requires n > 0
    ensures Upper(n) == Upper(n - 1) + Column(n - 1, n)
    ensures Upper(n - 1) !! Column(n - 1, n)
  {
  }

  lemma LowerSplit(n: nat)
    requires n > 0
    ensures Lower(n) == Lower(n - 1) + Line(n - 1, n)
    ensures Lower(n - 1) !! Line(n - 1, n)
  {
  }

  lemma {:induction false} UpperSize(n: nat)
    ensures |Upper(n)| == n * (n + 1) / 2
  {
    if n > 0 {
      UpperSize(n - 1);
      ColumnSize(n - 1, n);
      UpperSplit(n);
      TriangleStep(n);
    }
  }

  lemma {:induction false} LowerSize(n: nat)
    ensures |Lower(n)| == n * (n + 1) / 2
  {
    if n > 0 {
      LowerSize(n - 1);
      LineSize(n - 1, n);
      LowerSplit(n);
      TriangleStep(n);
    }
  }

  /** The key count the request round asserts: n for independent and
      shared, n(n+1)/2 for left and right. */
  lemma RoundKeysCount(n: nat, mode: Mode)
    ensures |RoundKeys(n, mode)| == ExpectedKeyCount(n, mode)
  {
    forall k ensures k in RoundKeys(n, mode) <==>
      k in (match mode
            case Independent => OwnKeys(n)
            case Shared => OwnKeys(n)
            case Left => Upper(n)
            case Right => Lower(n))
    {
      RoundKeysMembership(n, mode, k);
    }
    match mode
    case Independent =>
      assert RoundKeys(n, mode) == OwnKeys(n);
      OwnKeysSize(n);
    case Shared =>
      assert RoundKeys(n, mode) == OwnKeys(n);
      OwnKeysSize(n);
    case Left =>
      assert RoundKeys(n, mode) == Upper(n);
      UpperSize(n);
    case Right =>
      assert RoundKeys(n, mode) == Lower(n);
      LowerSize(n);
  }
}
