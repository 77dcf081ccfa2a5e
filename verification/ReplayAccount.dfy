/** The replay's own account: what the books of a schedule net, day by day. */
module ReplayAccount {
  import opened Prelude
  import opened Sums
  import Backtest

  /** One day's net return. */
  datatype Point = Point(time: int, net: real)

  /** The full price panel, and the books chosen at the rebalances so far. */
  datatype Account = Account(
    panel: Backtest.Panel,
    rebalances: seq<int>,
    books: seq<Backtest.Weights>,
    change: (seq<Backtest.Row>, string) -> real,
    turnoverCost: (Backtest.Weights, Backtest.Weights) -> real) {

    ghost predicate Valid() {
      panel.Valid() && Backtest.Ascending(rebalances) && |books| <= |rebalances|
    }

    function BookBefore(k: nat): Backtest.Weights
      requires k <= |books|
    {
      if k == 0 then map[] else books[k - 1]
    }

    function LatestAt(j: int): (k: int)
      requires 0 <= j < |panel.rows|
      ensures -1 <= k < |rebalances|
    {
      Backtest.LatestBefore(rebalances, panel.rows[j].time)
    }

    function Market(): Backtest.Setup {
      Backtest.Setup(panel, (_, _) => map[], change, turnoverCost, (_, _) => 0.0)
    }

    /** What book k nets on row j: its return, less the cost of trading into it on the first row of its window. */
    function NetAt(k: nat, j: int): real
      requires k < |books| && 0 <= j < |panel.rows|
    {
      Backtest.Earned(Market(), books[k], j, panel.columns)
      - if Backtest.OpensWindow(panel, rebalances, j) then turnoverCost(BookBefore(k), books[k]) else 0.0
    }

    /** Row j's entry, if the latest rebalance strictly before it is among [lo, hi) and chose a book. */
    function Entry(lo: int, hi: int, j: int): seq<Point>
      requires 0 <= lo <= hi <= |books| && 0 <= j < |panel.rows|
    {
      var k := LatestAt(j);
      if lo <= k < hi && books[k] != map[] then [Point(panel.rows[j].time, NetAt(k, j))] else []
    }

    /** The entries of the first n rows. */
    function Entries(lo: int, hi: int, n: nat): seq<Point>
      requires 0 <= lo <= hi <= |books| && n <= |panel.rows|
    {
      if n == 0 then [] else Entries(lo, hi, n - 1) + Entry(lo, hi, n - 1)
    }
  }

  lemma LatestIsMonotone(a: Account, j: int, l: int)
    requires a.Valid() && 0 <= j <= l < |a.panel.rows|
    ensures a.LatestAt(j) <= a.LatestAt(l)
  {
    Backtest.LatestBeforeGrows(a.rebalances, a.panel.rows[j].time, a.panel.rows[l].time);
  }

  lemma {:induction false} NoEntriesYet(a: Account, i: int, n: nat)
    requires a.Valid() && 0 <= i < |a.books| && n <= |a.panel.rows|
    requires n > 0 ==> a.LatestAt(n - 1) < i
    ensures a.Entries(i, i + 1, n) == []
  {
    if n > 0 {
      if n > 1 {
        LatestIsMonotone(a, n - 2, n - 1);
      }
      NoEntriesYet(a, i, n - 1);
    }
  }

  lemma NextEntry(a: Account, i: int, j: int)
    requires 0 <= i < |a.books| && 0 <= j < |a.panel.rows|
    ensures a.Entry(0, i + 1, j) == if a.LatestAt(j) < i then a.Entry(0, i, j) else a.Entry(i, i + 1, j)
    ensures a.LatestAt(j) < i ==> a.Entry(i, i + 1, j) == []
    ensures a.LatestAt(j) >= i ==> a.Entry(0, i, j) == []
  {
  }

  /** The pieces of successive windows, one after the other, are the entries in row order. */
  lemma {:induction false} NextPiece(a: Account, i: int, n: nat)
    requires a.Valid() && 0 <= i < |a.books| && n <= |a.panel.rows|
    ensures a.Entries(0, i + 1, n) == a.Entries(0, i, n) + a.Entries(i, i + 1, n)
  {
    if n > 0 {
      NextPiece(a, i, n - 1);
      if a.LatestAt(n - 1) < i {
        PieceWaits(a, i, n);
      } else {
        PieceGrows(a, i, n);
      }
    }
  }

  lemma PieceWaits(a: Account, i: int, n: nat)
    requires a.Valid() && 0 <= i < |a.books| && 0 < n <= |a.panel.rows| && a.LatestAt(n - 1) < i
    requires a.Entries(0, i + 1, n - 1) == a.Entries(0, i, n - 1) + a.Entries(i, i + 1, n - 1)
    ensures a.Entries(0, i + 1, n) == a.Entries(0, i, n) + a.Entries(i, i + 1, n)
  {
    NextEntry(a, i, n - 1);
    NoEntriesYet(a, i, n);
    assert a.Entries(i, i + 1, n - 1) == [];
  }

  lemma PieceGrows(a: Account, i: int, n: nat)
    requires 0 <= i < |a.books| && 0 < n <= |a.panel.rows| && a.LatestAt(n - 1) >= i
    requires a.Entries(0, i + 1, n - 1) == a.Entries(0, i, n - 1) + a.Entries(i, i + 1, n - 1)
    ensures a.Entries(0, i + 1, n) == a.Entries(0, i, n) + a.Entries(i, i + 1, n)
  {
    NextEntry(a, i, n - 1);
    assert a.Entries(0, i, n) == a.Entries(0, i, n - 1);
  }

  /** The entry of row j for the window of rebalance i. */
  lemma EntryInWindow(a: Account, i: nat, j: int)
    requires a.Valid() && i < |a.books| && a.books[i] != map[] && 0 <= j < |a.panel.rows|
    ensures Backtest.InWindow(a.panel, a.rebalances, i, j) ==>
      var opens := j == 0 || !Backtest.InWindow(a.panel, a.rebalances, i, j - 1);
      var cost := if opens then a.turnoverCost(a.BookBefore(i), a.books[i]) else 0.0;
      a.Entry(i, i + 1, j) ==
        [Point(a.panel.rows[j].time, Backtest.Earned(a.Market(), a.books[i], j, a.panel.columns) - cost)]
    ensures !Backtest.InWindow(a.panel, a.rebalances, i, j) ==> a.Entry(i, i + 1, j) == []
  {
    Backtest.WindowIsLatest(a.panel, a.rebalances, i, j);
    if Backtest.InWindow(a.panel, a.rebalances, i, j) {
      Backtest.OpeningRow(a.panel, a.rebalances, i, j);
    }
  }

  /** The window of rebalance i: each day's return of its book, with the cost taken from the first. */
  method AccountPiece(a: Account, i: nat, cost: real) returns (piece: seq<Point>)
    requires a.Valid() && i < |a.books| && a.books[i] != map[]
    requires cost == a.turnoverCost(a.BookBefore(i), a.books[i])
    ensures piece == a.Entries(i, i + 1, |a.panel.rows|)
  {
    piece := [];
    var begun := false;
    for j := 0 to |a.panel.rows|
      invariant piece == a.Entries(i, i + 1, j)
      invariant begun ==> j > 0 && a.rebalances[i] < a.panel.rows[j - 1].time
      invariant begun <== j > 0 && Backtest.InWindow(a.panel, a.rebalances, i, j - 1)
    {
      EntryInWindow(a, i, j);
      assert j > 0 ==> a.panel.rows[j - 1].time < a.panel.rows[j].time;
      if Backtest.InWindow(a.panel, a.rebalances, i, j) {
        var earned := Backtest.Contribution(a.Market(), a.books[i], j);
        piece := piece + [Point(a.panel.rows[j].time, earned - if begun then 0.0 else cost)];
        begun := true;
      }
    }
  }

  /** The entries of the books so far do not depend on books chosen later. */
  lemma {:induction false} MoreBooks(a: Account, w: Backtest.Weights, lo: int, hi: int, n: nat)
    requires 0 <= lo <= hi <= |a.books| && n <= |a.panel.rows|
    ensures a.(books := a.books + [w]).Entries(lo, hi, n) == a.Entries(lo, hi, n)
  {
    if n > 0 {
      MoreBooks(a, w, lo, hi, n - 1);
      SameEarnings(a, a.(books := a.books + [w]), lo, hi, n - 1);
    }
  }

  lemma SameEarnings(a: Account, b: Account, lo: int, hi: int, j: int)
    requires b == a.(books := b.books) && |b.books| >= |a.books| && b.books[..|a.books|] == a.books
    requires 0 <= lo <= hi <= |a.books| && 0 <= j < |a.panel.rows|
    ensures b.Entry(lo, hi, j) == a.Entry(lo, hi, j)
  {
    assert forall k :: 0 <= k < |a.books| ==> b.books[k] == b.books[..|a.books|][k];
    assert b.Market() == a.Market();
  }

  /**
   * A day of the account: the return of the book in force, name by name, less what it cost to trade into it if the day
   * is the first of its window.
   */
  ghost predicate IsDay(a: Account, j: int, k: int, p: Point) {
    && 0 <= j < |a.panel.rows| && 0 <= k < |a.books| <= |a.rebalances|
    && Backtest.Governs(a.panel, a.rebalances, k, j)
    && a.books[k] != map[]
    && p.time == a.panel.rows[j].time
    && p.net == Total(Backtest.Returns(a.Market(), a.books[k], j, a.panel.columns))
         - if j == 0 || a.panel.rows[j - 1].time <= a.rebalances[k]
           then a.turnoverCost(if k == 0 then map[] else a.books[k - 1], a.books[k]) else 0.0
  }

  lemma EntryIsDay(a: Account, j: int, p: Point)
    requires a.Valid() && Backtest.NoColumnTwice(a.panel.columns) && 0 <= j < |a.panel.rows|
    ensures p in a.Entry(0, |a.books|, j) <==> exists k :: IsDay(a, j, k, p)
  {
    var t := a.panel.rows[j].time;
    forall k | 0 <= k < |a.books|
      ensures IsDay(a, j, k, p) <==>
        k == a.LatestAt(j) && a.books[k] != map[] && p == Point(t, a.NetAt(k, j))
    {
      Backtest.LatestBeforeIs(a.rebalances, t, k);
      Backtest.EarnedIsTotal(a.Market(), a.books[k], j, a.panel.columns);
    }
    var k := a.LatestAt(j);
    if p in a.Entry(0, |a.books|, j) {
      assert IsDay(a, j, k, p);
    }
  }

  /** The entries are exactly the days of the account. */
  lemma {:induction false} EntriesAreDays(a: Account, n: nat, p: Point)
    requires a.Valid() && Backtest.NoColumnTwice(a.panel.columns) && n <= |a.panel.rows|
    ensures p in a.Entries(0, |a.books|, n) <==> exists j, k :: j < n && IsDay(a, j, k, p)
  {
    if n > 0 {
      EntriesAreDays(a, n - 1, p);
      EntryIsDay(a, n - 1, p);
    }
  }

  ghost predicate Ascending(points: seq<Point>) {
    forall i, j :: 0 <= i < j < |points| ==> points[i].time < points[j].time
  }

  /** The days come in order, each at most once: sorting them by date changes nothing. */
  lemma {:induction false} EntriesAscend(a: Account, lo: int, hi: int, n: nat)
    requires a.Valid() && 0 <= lo <= hi <= |a.books| && n <= |a.panel.rows|
    ensures Ascending(a.Entries(lo, hi, n))
    ensures forall p :: p in a.Entries(lo, hi, n) ==> n > 0 && p.time <= a.panel.rows[n - 1].time
  {
    if n > 0 {
      EntriesAscend(a, lo, hi, n - 1);
      if n > 1 {
        assert a.panel.rows[n - 2].time < a.panel.rows[n - 1].time;
      }
      var before := a.Entries(lo, hi, n - 1);
      forall i | 0 <= i < |before| ensures before[i].time < a.panel.rows[n - 1].time {
        assert before[i] in before;
      }
    }
  }
}
