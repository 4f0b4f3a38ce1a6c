/** Time series of lending statistics: one market's points as they are, or all markets' points
    gathered by time bucket, with the rates weighted by total value locked. */
module Series {
  import opened Lists
  import opened Numbers
  import opened StableSort

  const WAD: real := 1_000_000_000_000_000_000.0
  const SECONDS_PER_YEAR: real := 31_536_000.0

  /** The last snapshot of a market in a bucket; the bucket's start is in milliseconds. */
  datatype Point = Point(
    bucketTs: int, supplyUsd: real, collateralUsd: real, borrowUsd: real, supplyAssets: real, borrowAssets: real,
    fee: real, borrowApy: real, cumulativeSupply: real, cumulativeBorrow: real, badDebt: real)

  // ----- rates

  function Ratio(a: real, b: real): real
    requires b != 0.0
  {
    a / b
  }

  function Product(a: real, b: real): real {
    a * b
  }

  function Utilization(supplyAssets: real, borrowAssets: real): real {
    if supplyAssets == 0.0 then 0.0 else Ratio(borrowAssets, supplyAssets)
  }

  function DeriveSupplyApy(borrowApy: real, supplyAssets: real, borrowAssets: real, fee: real): real {
    if supplyAssets == 0.0 then 0.0
    else Product(Product(borrowApy, Ratio(borrowAssets, supplyAssets)), 1.0 - Ratio(fee, WAD))
  }

  /** A rate per second, in units of 1/WAD, as a yearly rate. */
  function RatePerSecondToApy(ratePerSecond: real): real {
    var first := ratePerSecond * SECONDS_PER_YEAR;
    var second := first * first / (2.0 * WAD);
    var third := second * first / (3.0 * WAD);
    (first + second + third) / WAD
  }

  function Square(x: real): real {
    x * x
  }

  function Cube(x: real): real {
    x * x * x
  }

  /** The scaled computation is the start of the exponential series of the plain yearly rate x, there being
      31536000 seconds in a year. */
  lemma ApyIsTaylor(ratePerSecond: real, x: real)
    requires x * 1_000_000_000_000_000_000.0 == ratePerSecond * 31_536_000.0
    ensures RatePerSecondToApy(ratePerSecond) == x + Square(x) / 2.0 + Cube(x) / 6.0
    ensures Square(x) == x * x && Cube(x) == x * x * x
  {
    var first := ratePerSecond * SECONDS_PER_YEAR;
    assert first == x * WAD;
    var second := first * first / (2.0 * WAD);
    assert second == Square(x) / 2.0 * WAD;
    var third := second * first / (3.0 * WAD);
    assert third == Square(x) / 2.0 * x * WAD / 3.0;
    assert Square(x) * x == Cube(x);
  }

  /** What suppliers earn on their assets is what borrowers pay on theirs, less the fee. */
  lemma SupplyApyConserves(borrowApy: real, supplyAssets: real, borrowAssets: real, fee: real)
    requires supplyAssets != 0.0
    ensures Product(DeriveSupplyApy(borrowApy, supplyAssets, borrowAssets, fee), supplyAssets)
         == Product(Product(borrowApy, borrowAssets), 1.0 - Ratio(fee, WAD))
  {
    var u, f := Ratio(borrowAssets, supplyAssets), 1.0 - Ratio(fee, WAD);
    assert u * supplyAssets == borrowAssets;
    assert borrowApy * u * f * supplyAssets == borrowApy * (u * supplyAssets) * f;
  }

  /** Suppliers earn between nothing and what borrowers pay, if no more is lent than was supplied. */
  lemma SupplyApyBounded(borrowApy: real, supplyAssets: real, borrowAssets: real, fee: real)
    requires borrowApy >= 0.0 && 0.0 <= borrowAssets <= supplyAssets && 0.0 <= fee <= WAD
    ensures 0.0 <= DeriveSupplyApy(borrowApy, supplyAssets, borrowAssets, fee) <= borrowApy
  {
    if supplyAssets != 0.0 {
      RatioWithin(borrowAssets, supplyAssets);
      RatioWithin(fee, WAD);
      ShrinkBy(borrowApy, Ratio(borrowAssets, supplyAssets));
      ShrinkBy(Product(borrowApy, Ratio(borrowAssets, supplyAssets)), 1.0 - Ratio(fee, WAD));
    }
  }

  lemma RatioWithin(a: real, b: real)
    requires 0.0 <= a <= b && b > 0.0
    ensures 0.0 <= Ratio(a, b) <= 1.0
  {
  }

  lemma ShrinkBy(a: real, f: real)
    requires a >= 0.0 && 0.0 <= f <= 1.0
    ensures 0.0 <= Product(a, f) <= a
  {
    assert a * (1.0 - f) >= 0.0;
  }

  // ----- one market

  function Tvl(p: Point): real {
    p.supplyUsd + p.collateralUsd
  }

  function UtilizationOf(p: Point): real {
    Utilization(p.supplyAssets, p.borrowAssets)
  }

  function SupplyApyOf(p: Point): real {
    DeriveSupplyApy(p.borrowApy, p.supplyAssets, p.borrowAssets, p.fee)
  }

  function BorrowApyOf(p: Point): real {
    p.borrowApy
  }

  /** One bucket of the response. */
  datatype Row = Row(
    timestamp: int, tvlUsd: real, supplyUsd: real, borrowUsd: real, utilization: real, supplyApr: real, borrowApr: real,
    cumulativeSupply: real, cumulativeBorrow: real, badDebt: real)

  /** The response as it is sent: a column for every figure. */
  datatype Response = Response(
    timestamps: seq<int>, tvlUsd: seq<real>, supplyUsd: seq<real>, borrowUsd: seq<real>, utilization: seq<real>,
    supplyApr: seq<real>, borrowApr: seq<real>, cumulativeSupply: seq<real>, cumulativeBorrow: seq<real>,
    badDebt: seq<real>)

  const EMPTY: Response := Response([], [], [], [], [], [], [], [], [], [])

  /** A `push` on every column. */
  function Pushed(r: Response, row: Row): Response {
    Response(r.timestamps + [row.timestamp], r.tvlUsd + [row.tvlUsd], r.supplyUsd + [row.supplyUsd],
             r.borrowUsd + [row.borrowUsd], r.utilization + [row.utilization], r.supplyApr + [row.supplyApr],
             r.borrowApr + [row.borrowApr], r.cumulativeSupply + [row.cumulativeSupply],
             r.cumulativeBorrow + [row.cumulativeBorrow], r.badDebt + [row.badDebt])
  }

  function Columns(rows: seq<Row>): Response {
    if rows == [] then EMPTY else Pushed(Columns(rows[..|rows| - 1]), rows[|rows| - 1])
  }

  ghost predicate EqualLengths(r: Response, n: nat) {
    |r.timestamps| == |r.tvlUsd| == |r.supplyUsd| == |r.borrowUsd| == |r.utilization| == |r.supplyApr|
    == |r.borrowApr| == |r.cumulativeSupply| == |r.cumulativeBorrow| == |r.badDebt| == n
  }

  function RowAt(r: Response, i: nat): Row
    requires EqualLengths(r, |r.timestamps|) && i < |r.timestamps|
  {
    Row(r.timestamps[i], r.tvlUsd[i], r.supplyUsd[i], r.borrowUsd[i], r.utilization[i], r.supplyApr[i], r.borrowApr[i],
        r.cumulativeSupply[i], r.cumulativeBorrow[i], r.badDebt[i])
  }

  /** All columns are as long as there are rows, and the rows can be read back from them. */
  lemma {:induction false} ColumnsHoldRows(rows: seq<Row>)
    ensures EqualLengths(Columns(rows), |rows|)
    ensures forall i :: 0 <= i < |rows| ==> RowAt(Columns(rows), i) == rows[i]
  {
    if rows != [] {
      var front := rows[..|rows| - 1];
      ColumnsHoldRows(front);
      forall i | 0 <= i < |rows| ensures RowAt(Columns(rows), i) == rows[i] {
        assert i < |front| ==> RowAt(Columns(front), i) == front[i];
      }
    }
  }

  function BucketTs(p: Point): int {
    p.bucketTs
  }

  function SingleRow(p: Point): Row {
    Row(p.bucketTs, WithScale(Tvl(p), 2), p.supplyUsd, p.borrowUsd, WithScale(UtilizationOf(p), 3),
        WithScale(SupplyApyOf(p), 3), p.borrowApy, p.cumulativeSupply, p.cumulativeBorrow, p.badDebt)
  }

  function SingleRows(points: seq<Point>): (rows: seq<Row>)
    ensures |rows| == |points|
    ensures forall i :: 0 <= i < |rows| ==> rows[i] == SingleRow(points[i])
  {
    if points == [] then [] else SingleRows(points[..|points| - 1]) + [SingleRow(points[|points| - 1])]
  }

  lemma ColumnsOneMore(rows: seq<Row>, row: Row)
    ensures Columns(rows + [row]) == Pushed(Columns(rows), row)
  {
    assert (rows + [row])[..|rows|] == rows;
  }

  lemma SingleRowsOneMore(points: seq<Point>, p: Point)
    ensures SingleRows(points + [p]) == SingleRows(points) + [SingleRow(p)]
  {
    assert (points + [p])[..|points|] == points;
  }

  lemma NoRows()
    ensures SingleRows([]) == [] && Columns([]) == EMPTY
    ensures forall points :: BucketRows(points, []) == []
  {
  }

  method SingleMarketSeries(points: seq<Point>) returns (response: Response)
    ensures response == Columns(SingleRows(Sort(points, BucketTs)))
  {
    hide Utilization, DeriveSupplyApy, WithScale, Sort, Columns, Pushed, SingleRows;
    NoRows();
    var sorted := Sort(points, BucketTs);
    response := EMPTY;
    for i := 0 to |sorted|
      invariant response == Columns(SingleRows(sorted[..i]))
    {
      var p := sorted[i];
      assert sorted[..i + 1] == sorted[..i] + [p];
      var util := Utilization(p.supplyAssets, p.borrowAssets);
      var supplyApy := DeriveSupplyApy(p.borrowApy, p.supplyAssets, p.borrowAssets, p.fee);
      var row := Row(p.bucketTs, WithScale(p.supplyUsd + p.collateralUsd, 2), p.supplyUsd, p.borrowUsd,
                     WithScale(util, 3), WithScale(supplyApy, 3), p.borrowApy, p.cumulativeSupply,
                     p.cumulativeBorrow, p.badDebt);
      SingleRowsOneMore(sorted[..i], p);
      ColumnsOneMore(SingleRows(sorted[..i]), row);
      response := Pushed(response, row);
    }
    assert sorted[..|sorted|] == sorted;
  }

  // ----- all markets

  function SupplyUsd(p: Point): real {
    p.supplyUsd
  }

  function BorrowUsd(p: Point): real {
    p.borrowUsd
  }

  function CollateralUsd(p: Point): real {
    p.collateralUsd
  }

  function CumulativeSupply(p: Point): real {
    p.cumulativeSupply
  }

  function CumulativeBorrow(p: Point): real {
    p.cumulativeBorrow
  }

  function BadDebt(p: Point): real {
    p.badDebt
  }

  function Weighted(rate: Point -> real): Point -> real {
    p => Product(rate(p), Tvl(p))
  }

  /** The running sums over one bucket. */
  datatype Tally = Tally(
    supply: real, borrow: real, collateral: real, tvl: real, util: real, sup: real, bor: real,
    cumulativeSupply: real, cumulativeBorrow: real, badDebt: real)

  function TallyOf(points: seq<Point>): Tally {
    Tally(Total(points, SupplyUsd), Total(points, BorrowUsd), Total(points, CollateralUsd), Total(points, Tvl),
          Total(points, Weighted(UtilizationOf)), Total(points, Weighted(SupplyApyOf)),
          Total(points, Weighted(BorrowApyOf)), Total(points, CumulativeSupply), Total(points, CumulativeBorrow),
          Total(points, BadDebt))
  }

  function Added(t: Tally, p: Point): Tally {
    var util := Utilization(p.supplyAssets, p.borrowAssets);
    var supplyApy := DeriveSupplyApy(p.borrowApy, p.supplyAssets, p.borrowAssets, p.fee);
    var tvl := p.supplyUsd + p.collateralUsd;
    Tally(t.supply + p.supplyUsd, t.borrow + p.borrowUsd, t.collateral + p.collateralUsd, t.tvl + tvl,
          t.util + Product(util, tvl), t.sup + Product(supplyApy, tvl), t.bor + Product(p.borrowApy, tvl),
          t.cumulativeSupply + p.cumulativeSupply, t.cumulativeBorrow + p.cumulativeBorrow, t.badDebt + p.badDebt)
  }

  lemma WeightedAt(rate: Point -> real, p: Point)
    ensures Weighted(rate)(p) == Product(rate(p), Tvl(p))
  {
  }

  lemma TallyOneMore(points: seq<Point>, p: Point)
    ensures TallyOf(points + [p]) == Added(TallyOf(points), p)
  {
    hide Product, Utilization, DeriveSupplyApy, Total;
    TotalOneMore(points, p, SupplyUsd);
    TotalOneMore(points, p, BorrowUsd);
    TotalOneMore(points, p, CollateralUsd);
    TotalOneMore(points, p, Tvl);
    TotalOneMore(points, p, Weighted(UtilizationOf));
    TotalOneMore(points, p, Weighted(SupplyApyOf));
    TotalOneMore(points, p, Weighted(BorrowApyOf));
    TotalOneMore(points, p, CumulativeSupply);
    TotalOneMore(points, p, CumulativeBorrow);
    TotalOneMore(points, p, BadDebt);
    WeightedAt(UtilizationOf, p);
    WeightedAt(SupplyApyOf, p);
    WeightedAt(BorrowApyOf, p);
  }

  method TallyUp(points: seq<Point>) returns (t: Tally)
    ensures t == TallyOf(points)
  {
    hide TallyOf, Added;
    t := Tally(0.0, 0.0, 0.0, 0.0, 0.0, 0.0, 0.0, 0.0, 0.0, 0.0);
    NothingTallied();
    for i := 0 to |points|
      invariant t == TallyOf(points[..i])
    {
      TallyOneMore(points[..i], points[i]);
      assert points[..i + 1] == points[..i] + [points[i]];
      t := Added(t, points[i]);
    }
    assert points[..|points|] == points;
  }

  lemma NothingTallied()
    ensures TallyOf([]) == Tally(0.0, 0.0, 0.0, 0.0, 0.0, 0.0, 0.0, 0.0, 0.0, 0.0)
  {
  }

  /** A rate over all markets, weighted by value locked. */
  function Average(points: seq<Point>, rate: Point -> real): real {
    if Total(points, Tvl) == 0.0 then 0.0 else Ratio(Total(points, Weighted(rate)), Total(points, Tvl))
  }

  function BucketRow(bucket: int, points: seq<Point>): Row {
    Row(bucket, WithScale(Total(points, Tvl), 2), WithScale(Total(points, SupplyUsd), 2),
        WithScale(Total(points, BorrowUsd), 2), WithScale(Average(points, UtilizationOf), 3),
        WithScale(Average(points, SupplyApyOf), 3), WithScale(Average(points, BorrowApyOf), 3),
        WithScale(Total(points, CumulativeSupply), 2), WithScale(Total(points, CumulativeBorrow), 2),
        WithScale(Total(points, BadDebt), 2))
  }

  function AtBucket(bucket: int): Point -> bool {
    (p: Point) => p.bucketTs == bucket
  }

  function InBucket(points: seq<Point>, bucket: int): seq<Point> {
    Filter(points, AtBucket(bucket))
  }

  /** A key goes into the ordered keys of the tree map unless it is there. */
  function AddKey(keys: seq<int>, k: int): seq<int> {
    if keys == [] then [k]
    else if k < keys[0] then [k] + keys
    else if k == keys[0] then keys
    else [keys[0]] + AddKey(keys[1..], k)
  }

  function Buckets(points: seq<Point>): seq<int> {
    if points == [] then [] else AddKey(Buckets(points[..|points| - 1]), points[|points| - 1].bucketTs)
  }

  function BucketRows(points: seq<Point>, buckets: seq<int>): (rows: seq<Row>)
    ensures |rows| == |buckets|
    ensures forall i :: 0 <= i < |rows| ==> rows[i] == BucketRow(buckets[i], InBucket(points, buckets[i]))
  {
    if buckets == [] then [] else
      var b := buckets[|buckets| - 1];
      BucketRows(points, buckets[..|buckets| - 1]) + [BucketRow(b, InBucket(points, b))]
  }

  lemma {:induction false} AddKeyFacts(keys: seq<int>, k: int)
    requires Increasing(keys)
    ensures Increasing(AddKey(keys, k))
    ensures forall x :: x in AddKey(keys, k) <==> x in keys || x == k
  {
    if keys != [] && k > keys[0] {
      var rest := AddKey(keys[1..], k);
      AddKeyFacts(keys[1..], k);
      assert keys == [keys[0]] + keys[1..];
      forall j | 0 <= j < |rest| ensures keys[0] < rest[j] {
        assert rest[j] in rest;
      }
    }
  }

  ghost predicate HasBucket(points: seq<Point>, b: int) {
    exists i :: 0 <= i < |points| && points[i].bucketTs == b
  }

  /** The buckets come in strictly ascending order, and are those of the points. */
  lemma {:induction false} BucketsAscend(points: seq<Point>)
    ensures Increasing(Buckets(points))
    ensures forall b :: b in Buckets(points) <==> HasBucket(points, b)
  {
    if points != [] {
      var front, last := points[..|points| - 1], points[|points| - 1];
      BucketsAscend(front);
      AddKeyFacts(Buckets(front), last.bucketTs);
      forall b ensures HasBucket(points, b) <==> HasBucket(front, b) || b == last.bucketTs {
        if HasBucket(front, b) {
          var i :| 0 <= i < |front| && front[i].bucketTs == b;
          assert points[i].bucketTs == b;
        }
      }
    }
  }

  ghost predicate Gathered(groups: map<int, seq<Point>>, points: seq<Point>) {
    && (forall b :: b in groups <==> InBucket(points, b) != [])
    && (forall b :: b in groups ==> groups[b] == InBucket(points, b))
  }

  lemma GatheredOneMore(groups: map<int, seq<Point>>, points: seq<Point>, i: nat)
    requires i < |points| && Gathered(groups, points[..i])
    ensures var b := points[i].bucketTs;
            Gathered(groups[b := (if b in groups then groups[b] else []) + [points[i]]], points[..i + 1])
  {
    assert points[..i + 1][..i] == points[..i];
  }

  lemma InBucketMembers(points: seq<Point>, b: int)
    ensures forall p :: p in InBucket(points, b) <==> p in points && p.bucketTs == b
    ensures InBucket(points, b) != [] <==> HasBucket(points, b)
  {
    hide Filter;
    FilterMembers(points, AtBucket(b));
  }

  lemma NothingGathered()
    ensures Gathered(map[], [])
  {
  }

  lemma BucketRowsOneMore(points: seq<Point>, buckets: seq<int>, b: int)
    ensures BucketRows(points, buckets + [b]) == BucketRows(points, buckets) + [BucketRow(b, InBucket(points, b))]
  {
    assert (buckets + [b])[..|buckets|] == buckets;
  }

  method AggregateSeries(points: seq<Point>) returns (response: Response)
    ensures response == Columns(BucketRows(points, Buckets(points)))
  {
    hide InBucket, WithScale, Total, TallyOf, Gathered, HasBucket, Columns, Pushed, BucketRow, BucketRows, RowOfTally;
    NoRows();
    var keys: seq<int> := [];
    var groups: map<int, seq<Point>> := map[];
    NothingGathered();
    for i := 0 to |points|
      invariant keys == Buckets(points[..i])
      invariant Gathered(groups, points[..i])
    {
      var b := points[i].bucketTs;
      assert points[..i + 1][..i] == points[..i];
      GatheredOneMore(groups, points, i);
      keys := AddKey(keys, b);
      groups := groups[b := (if b in groups then groups[b] else []) + [points[i]]];
    }
    assert points[..|points|] == points;
    response := EMPTY;
    for i := 0 to |keys|
      invariant response == Columns(BucketRows(points, keys[..i]))
    {
      var bucket := keys[i];
      assert keys[..i + 1] == keys[..i] + [bucket];
      GroupThere(groups, points, bucket);
      var t := TallyUp(groups[bucket]);
      var row := RowOfTally(bucket, t);
      RowOfTallyIs(bucket, groups[bucket]);
      BucketRowsOneMore(points, keys[..i], bucket);
      ColumnsOneMore(BucketRows(points, keys[..i]), row);
      response := Pushed(response, row);
    }
    assert keys[..|keys|] == keys;
  }

  lemma GroupThere(groups: map<int, seq<Point>>, points: seq<Point>, b: int)
    requires Gathered(groups, points) && b in Buckets(points)
    ensures b in groups && groups[b] == InBucket(points, b)
  {
    BucketsAscend(points);
    InBucketMembers(points, b);
  }

  /** The figures of a bucket from its sums. */
  function RowOfTally(bucket: int, t: Tally): Row {
    var (util, supplyApr, borrowApr) :=
      if t.tvl == 0.0 then (0.0, 0.0, 0.0) else (Ratio(t.util, t.tvl), Ratio(t.sup, t.tvl), Ratio(t.bor, t.tvl));
    Row(bucket, WithScale(t.tvl, 2), WithScale(t.supply, 2), WithScale(t.borrow, 2), WithScale(util, 3),
        WithScale(supplyApr, 3), WithScale(borrowApr, 3), WithScale(t.cumulativeSupply, 2),
        WithScale(t.cumulativeBorrow, 2), WithScale(t.badDebt, 2))
  }

  lemma RowOfTallyIs(bucket: int, points: seq<Point>)
    ensures RowOfTally(bucket, TallyOf(points)) == BucketRow(bucket, points)
  {
    hide Total, WithScale, Ratio;
  }

  // ----- the shape of the aggregated series

  /** Equal columns, one place per bucket, in ascending order, filled from the bucket's own points. */
  lemma SeriesShape(points: seq<Point>)
    ensures var r, buckets := Columns(BucketRows(points, Buckets(points))), Buckets(points);
            && EqualLengths(r, |buckets|)
            && r.timestamps == buckets && Increasing(r.timestamps)
            && forall i :: 0 <= i < |buckets| ==> RowAt(r, i) == BucketRow(buckets[i], InBucket(points, buckets[i]))
  {
    hide BucketRow, Buckets, Columns;
    var buckets := Buckets(points);
    var rows := BucketRows(points, buckets);
    BucketsAscend(points);
    ColumnsHoldRows(rows);
    var r := Columns(rows);
    forall i | 0 <= i < |buckets| ensures r.timestamps[i] == buckets[i] {
      assert RowAt(r, i).timestamp == r.timestamps[i];
      TimestampOf(buckets[i], InBucket(points, buckets[i]));
    }
  }

  lemma TimestampOf(bucket: int, points: seq<Point>)
    ensures BucketRow(bucket, points).timestamp == bucket
  {
  }

  function OverBuckets(points: seq<Point>, buckets: seq<int>, f: Point -> real): real {
    if buckets == [] then 0.0 else
      OverBuckets(points, buckets[..|buckets| - 1], f) + Total(InBucket(points, buckets[|buckets| - 1]), f)
  }

  lemma {:induction false} OverBucketsOneMore(points: seq<Point>, p: Point, buckets: seq<int>, f: Point -> real)
    requires Increasing(buckets)
    ensures OverBuckets(points + [p], buckets, f)
         == OverBuckets(points, buckets, f) + if p.bucketTs in buckets then f(p) else 0.0
  {
    if buckets != [] {
      var front, b := buckets[..|buckets| - 1], buckets[|buckets| - 1];
      OverBucketsOneMore(points, p, front, f);
      assert buckets == front + [b];
      assert (points + [p])[..|points|] == points;
      TotalOneMore(InBucket(points, b), p, f);
    }
  }

  lemma {:induction false} NothingOverBuckets(buckets: seq<int>, f: Point -> real)
    ensures OverBuckets([], buckets, f) == 0.0
  {
    if buckets != [] {
      NothingOverBuckets(buckets[..|buckets| - 1], f);
    }
  }

  lemma {:induction false} OverEnoughBuckets(points: seq<Point>, buckets: seq<int>, f: Point -> real)
    requires Increasing(buckets)
    requires forall p :: p in points ==> p.bucketTs in buckets
    ensures OverBuckets(points, buckets, f) == Total(points, f)
  {
    if points == [] {
      NothingOverBuckets(buckets, f);
    } else {
      var front, p := points[..|points| - 1], points[|points| - 1];
      hide OverBuckets, Total;
      assert points == front + [p];
      OverEnoughBuckets(front, buckets, f);
      OverBucketsOneMore(front, p, buckets, f);
      TotalOneMore(front, p, f);
      assert p in points;
    }
  }

  /** Every point goes into exactly one bucket: a figure summed by buckets and then over them is
      its sum over all points. */
  lemma BucketsPartition(points: seq<Point>, f: Point -> real)
    ensures OverBuckets(points, Buckets(points), f) == Total(points, f)
  {
    hide OverBuckets, Total, Buckets;
    BucketsAscend(points);
    forall p | p in points ensures p.bucketTs in Buckets(points) {
      var i :| 0 <= i < |points| && points[i] == p;
      assert points[i].bucketTs == p.bucketTs;
      assert HasBucket(points, p.bucketTs);
    }
    OverEnoughBuckets(points, Buckets(points), f);
  }

  // ----- weighted rates

  lemma ProductBounds(rate: real, tvl: real, lo: real, hi: real)
    requires tvl >= 0.0 && (tvl > 0.0 ==> lo <= rate <= hi)
    ensures Product(lo, tvl) <= Product(rate, tvl) <= Product(hi, tvl)
  {
    if tvl > 0.0 {
      MulMono(lo, rate, tvl);
      MulMono(rate, hi, tvl);
    }
  }

  lemma ProductAdds(x: real, a: real, b: real)
    ensures Product(x, a + b) == Product(x, a) + Product(x, b)
    ensures Product(x, 0.0) == 0.0
  {
    assert x * (a + b) == x * a + x * b;
  }

  ghost predicate RatesBetween(points: seq<Point>, rate: Point -> real, lo: real, hi: real) {
    forall p :: p in points ==> Tvl(p) >= 0.0 && (Tvl(p) > 0.0 ==> lo <= rate(p) <= hi)
  }

  lemma {:induction false} WeightedBounds(points: seq<Point>, rate: Point -> real, lo: real, hi: real)
    requires RatesBetween(points, rate, lo, hi)
    ensures Total(points, Tvl) >= 0.0
    ensures Product(lo, Total(points, Tvl)) <= Total(points, Weighted(rate)) <= Product(hi, Total(points, Tvl))
  {
    hide Product;
    ProductAdds(lo, 0.0, 0.0);
    ProductAdds(hi, 0.0, 0.0);
    if points != [] {
      var front, p := points[..|points| - 1], points[|points| - 1];
      assert points == front + [p];
      WeightedBounds(front, rate, lo, hi);
      ProductBounds(rate(p), Tvl(p), lo, hi);
      WeightedAt(rate, p);
      ProductAdds(lo, Total(front, Tvl), Tvl(p));
      ProductAdds(hi, Total(front, Tvl), Tvl(p));
    }
  }

  lemma RatioBetween(w: real, t: real, lo: real, hi: real)
    requires t > 0.0 && Product(lo, t) <= w <= Product(hi, t)
    ensures lo <= Ratio(w, t) <= hi
  {
    var r := Ratio(w, t);
    assert Product(r, t) == w;
    Factor(lo, r, t);
    Factor(r, hi, t);
  }

  /** The weighted rate lies between the rates of the markets that hold something. */
  lemma AverageBetween(points: seq<Point>, rate: Point -> real, lo: real, hi: real)
    requires RatesBetween(points, rate, lo, hi)
    ensures Total(points, Tvl) != 0.0 ==> lo <= Average(points, rate) <= hi
    ensures Total(points, Tvl) == 0.0 ==> Average(points, rate) == 0.0
  {
    hide Product, Ratio, Total;
    WeightedBounds(points, rate, lo, hi);
    if Total(points, Tvl) != 0.0 {
      RatioBetween(Total(points, Weighted(rate)), Total(points, Tvl), lo, hi);
    }
  }

  // ----- what the columns show of the points

  /** The part of a market's supply that is lent; 0 without one. */
  predicate IsUtilization(x: real, p: Point) {
    if p.supplyAssets == 0.0 then x == 0.0 else x * p.supplyAssets == p.borrowAssets
  }

  /** The rate at which suppliers share what borrowers pay less the fee, which is in units of 10^-18. */
  predicate IsSupplyApy(x: real, p: Point) {
    if p.supplyAssets == 0.0 then x == 0.0
    else x * p.supplyAssets * 1_000_000_000_000_000_000.0
         == p.borrowApy * p.borrowAssets * (1_000_000_000_000_000_000.0 - p.fee)
  }

  lemma RatesAre(p: Point)
    ensures IsUtilization(UtilizationOf(p), p) && IsSupplyApy(SupplyApyOf(p), p)
  {
    if p.supplyAssets != 0.0 {
      SupplyApyConserves(p.borrowApy, p.supplyAssets, p.borrowAssets, p.fee);
      var f, paid := Ratio(p.fee, WAD), p.borrowApy * p.borrowAssets;
      assert f * WAD == p.fee;
      assert (1.0 - f) * WAD == WAD - p.fee;
      assert SupplyApyOf(p) * p.supplyAssets == paid * (1.0 - f);
      assert paid * (1.0 - f) * WAD == paid * ((1.0 - f) * WAD);
    }
  }

  /** Cents, and thousandths. */
  lemma CentsShown(x: real)
    ensures Shown(WithScale(x, 2), x, 100.0)
  {
    hide WithScale;
    WithScaleShows(x, 2);
    Pow10Adds(1, 1);
  }

  lemma ThousandthsShown(x: real)
    ensures Shown(WithScale(x, 3), x, 1000.0)
  {
    hide WithScale;
    WithScaleShows(x, 3);
    Pow10Adds(1, 1);
    Pow10Adds(1, 2);
  }

  lemma ColumnsAt(rows: seq<Row>, i: nat)
    requires i < |rows|
    ensures EqualLengths(Columns(rows), |rows|)
    ensures var r := Columns(rows);
            && r.timestamps[i] == rows[i].timestamp && r.tvlUsd[i] == rows[i].tvlUsd
            && r.supplyUsd[i] == rows[i].supplyUsd && r.borrowUsd[i] == rows[i].borrowUsd
            && r.utilization[i] == rows[i].utilization && r.supplyApr[i] == rows[i].supplyApr
            && r.borrowApr[i] == rows[i].borrowApr && r.cumulativeSupply[i] == rows[i].cumulativeSupply
            && r.cumulativeBorrow[i] == rows[i].cumulativeBorrow && r.badDebt[i] == rows[i].badDebt
  {
    hide Columns;
    ColumnsHoldRows(rows);
    assert RowAt(Columns(rows), i) == rows[i];
  }

  /** One market's series: every place shows its point's own figures. */
  lemma SingleSeriesShows(points: seq<Point>, i: nat) returns (utilization: real, supplyApy: real)
    requires i < |points|
    ensures |Sort(points, BucketTs)| == |points|
    ensures var r, p := Columns(SingleRows(Sort(points, BucketTs))), Sort(points, BucketTs)[i];
            && EqualLengths(r, |points|) && r.timestamps[i] == p.bucketTs
            && Shown(r.tvlUsd[i], p.supplyUsd + p.collateralUsd, 100.0)
            && r.supplyUsd[i] == p.supplyUsd && r.borrowUsd[i] == p.borrowUsd
            && IsUtilization(utilization, p) && Shown(r.utilization[i], utilization, 1000.0)
            && IsSupplyApy(supplyApy, p) && Shown(r.supplyApr[i], supplyApy, 1000.0)
            && r.borrowApr[i] == p.borrowApy && r.cumulativeSupply[i] == p.cumulativeSupply
            && r.cumulativeBorrow[i] == p.cumulativeBorrow && r.badDebt[i] == p.badDebt
  {
    hide Sort, Columns, WithScale, Shown, IsUtilization, IsSupplyApy, UtilizationOf, SupplyApyOf, EqualLengths;
    SortFacts(points, BucketTs);
    var s := Sort(points, BucketTs);
    ColumnsAt(SingleRows(s), i);
    utilization, supplyApy := UtilizationOf(s[i]), SupplyApyOf(s[i]);
    RatesAre(s[i]);
    CentsShown(Tvl(s[i]));
    ThousandthsShown(utilization);
    ThousandthsShown(supplyApy);
  }

  /** The figures of a point that a bucket sums up: `lent`, `earned` and `paid` are its three rates, each
      weighted by the value locked. */
  datatype Figures = Figures(
    tvl: Point -> real, supply: Point -> real, borrow: Point -> real, collateral: Point -> real,
    cumulativeSupply: Point -> real, cumulativeBorrow: Point -> real, badDebt: Point -> real,
    utilization: Point -> real, supplyApy: Point -> real, lent: Point -> real, earned: Point -> real,
    paid: Point -> real)

  ghost predicate AreFigures(f: Figures) {
    forall p: Point :: AreFiguresOf(f, p)
  }

  ghost predicate AreFiguresOf(f: Figures, p: Point) {
    var locked := p.supplyUsd + p.collateralUsd;
    && f.tvl(p) == locked && f.supply(p) == p.supplyUsd && f.borrow(p) == p.borrowUsd
    && f.collateral(p) == p.collateralUsd && f.cumulativeSupply(p) == p.cumulativeSupply
    && f.cumulativeBorrow(p) == p.cumulativeBorrow && f.badDebt(p) == p.badDebt
    && IsUtilization(f.utilization(p), p) && IsSupplyApy(f.supplyApy(p), p)
    && f.lent(p) == f.utilization(p) * locked && f.earned(p) == f.supplyApy(p) * locked
    && f.paid(p) == p.borrowApy * locked
  }

  lemma OneUtilization(x: real, y: real, p: Point)
    requires IsUtilization(x, p) && IsUtilization(y, p)
    ensures x == y
  {
    if p.supplyAssets != 0.0 {
      CancelRatio(x, p.supplyAssets);
      CancelRatio(y, p.supplyAssets);
    }
  }

  lemma OneSupplyApy(x: real, y: real, p: Point)
    requires IsSupplyApy(x, p) && IsSupplyApy(y, p)
    ensures x == y
  {
    if p.supplyAssets != 0.0 {
      CancelRatio(x, p.supplyAssets);
      CancelRatio(y, p.supplyAssets);
    }
  }

  lemma FiguresAre(f: Figures, p: Point)
    requires AreFiguresOf(f, p)
    ensures f.tvl(p) == Tvl(p) && f.supply(p) == SupplyUsd(p) && f.borrow(p) == BorrowUsd(p)
    ensures f.collateral(p) == CollateralUsd(p) && f.cumulativeSupply(p) == CumulativeSupply(p)
    ensures f.cumulativeBorrow(p) == CumulativeBorrow(p) && f.badDebt(p) == BadDebt(p)
    ensures f.lent(p) == Weighted(UtilizationOf)(p) && f.earned(p) == Weighted(SupplyApyOf)(p)
    ensures f.paid(p) == Weighted(BorrowApyOf)(p)
  {
    hide IsUtilization, IsSupplyApy, UtilizationOf, SupplyApyOf;
    RatesAre(p);
    OneUtilization(f.utilization(p), UtilizationOf(p), p);
    OneSupplyApy(f.supplyApy(p), SupplyApyOf(p), p);
    WeightedIs(UtilizationOf, p, f.utilization(p), f.lent(p));
    WeightedIs(SupplyApyOf, p, f.supplyApy(p), f.earned(p));
    WeightedIs(BorrowApyOf, p, p.borrowApy, f.paid(p));
  }

  lemma WeightedIs(rate: Point -> real, p: Point, x: real, weighted: real)
    requires x == rate(p) && weighted == x * (p.supplyUsd + p.collateralUsd)
    ensures weighted == Weighted(rate)(p)
  {
  }

  lemma SumsAre(points: seq<Point>, f: Figures)
    requires AreFigures(f)
    ensures TallyOf(points)
         == Tally(Total(points, f.supply), Total(points, f.borrow), Total(points, f.collateral), Total(points, f.tvl),
                  Total(points, f.lent), Total(points, f.earned), Total(points, f.paid),
                  Total(points, f.cumulativeSupply), Total(points, f.cumulativeBorrow), Total(points, f.badDebt))
  {
    hide Total, AreFiguresOf, Weighted, Tvl;
    forall p: Point ensures AreFiguresOf(f, p) {
    }
    forall p: Point
      ensures f.tvl(p) == Tvl(p) && f.supply(p) == SupplyUsd(p) && f.borrow(p) == BorrowUsd(p)
      ensures f.collateral(p) == CollateralUsd(p) && f.cumulativeSupply(p) == CumulativeSupply(p)
      ensures f.cumulativeBorrow(p) == CumulativeBorrow(p) && f.badDebt(p) == BadDebt(p)
      ensures f.lent(p) == Weighted(UtilizationOf)(p) && f.earned(p) == Weighted(SupplyApyOf)(p)
      ensures f.paid(p) == Weighted(BorrowApyOf)(p)
    {
      FiguresAre(f, p);
    }
    TotalSame(points, Tvl, f.tvl);
    TotalSame(points, SupplyUsd, f.supply);
    TotalSame(points, BorrowUsd, f.borrow);
    TotalSame(points, CollateralUsd, f.collateral);
    TotalSame(points, CumulativeSupply, f.cumulativeSupply);
    TotalSame(points, CumulativeBorrow, f.cumulativeBorrow);
    TotalSame(points, BadDebt, f.badDebt);
    TotalSame(points, Weighted(UtilizationOf), f.lent);
    TotalSame(points, Weighted(SupplyApyOf), f.earned);
    TotalSame(points, Weighted(BorrowApyOf), f.paid);
  }

  /** A mean over points by the value locked; 0 without any. */
  predicate IsMean(x: real, locked: real, weighted: real) {
    if locked == 0.0 then x == 0.0 else x * locked == weighted
  }

  function Mean(locked: real, weighted: real): (x: real)
    ensures IsMean(x, locked, weighted)
  {
    if locked == 0.0 then 0.0 else weighted / locked
  }

  /** A bucket's row, and the headline's, show the sums over its points and the means of the three rates. */
  lemma BucketShows(bucket: int, points: seq<Point>, f: Figures)
    returns (utilization: real, supplyApy: real, borrowApy: real)
    requires AreFigures(f)
    ensures var row, locked := BucketRow(bucket, points), Total(points, f.tvl);
            && row.timestamp == bucket && Shown(row.tvlUsd, locked, 100.0)
            && Shown(row.supplyUsd, Total(points, f.supply), 100.0)
            && Shown(row.borrowUsd, Total(points, f.borrow), 100.0)
            && IsMean(utilization, locked, Total(points, f.lent)) && Shown(row.utilization, utilization, 1000.0)
            && IsMean(supplyApy, locked, Total(points, f.earned)) && Shown(row.supplyApr, supplyApy, 1000.0)
            && IsMean(borrowApy, locked, Total(points, f.paid)) && Shown(row.borrowApr, borrowApy, 1000.0)
            && Shown(row.cumulativeSupply, Total(points, f.cumulativeSupply), 100.0)
            && Shown(row.cumulativeBorrow, Total(points, f.cumulativeBorrow), 100.0)
            && Shown(row.badDebt, Total(points, f.badDebt), 100.0)
    ensures Total(points, CollateralUsd) == Total(points, f.collateral)
    ensures Total(points, SupplyUsd) - Total(points, BorrowUsd) == Total(points, f.supply) - Total(points, f.borrow)
  {
    hide Total, WithScale, Shown, IsMean, AreFigures, Weighted;
    SumsAre(points, f);
    var locked := Total(points, f.tvl);
    utilization, supplyApy := Mean(locked, Total(points, f.lent)), Mean(locked, Total(points, f.earned));
    borrowApy := Mean(locked, Total(points, f.paid));
    CentsShown(locked);
    CentsShown(Total(points, f.supply));
    CentsShown(Total(points, f.borrow));
    ThousandthsShown(utilization);
    ThousandthsShown(supplyApy);
    ThousandthsShown(borrowApy);
    CentsShown(Total(points, f.cumulativeSupply));
    CentsShown(Total(points, f.cumulativeBorrow));
    CentsShown(Total(points, f.badDebt));
  }

  /** All markets' series: every place shows the sums and means over the points of its time. */
  lemma AggregateSeriesShows(points: seq<Point>, i: nat, f: Figures)
    returns (utilization: real, supplyApy: real, borrowApy: real)
    requires AreFigures(f) && i < |Buckets(points)|
    ensures EqualLengths(Columns(BucketRows(points, Buckets(points))), |Buckets(points)|)
    ensures var r := Columns(BucketRows(points, Buckets(points)));
            var own := InBucket(points, r.timestamps[i]);
            var locked := Total(own, f.tvl);
            && Shown(r.tvlUsd[i], locked, 100.0)
            && Shown(r.supplyUsd[i], Total(own, f.supply), 100.0)
            && Shown(r.borrowUsd[i], Total(own, f.borrow), 100.0)
            && IsMean(utilization, locked, Total(own, f.lent)) && Shown(r.utilization[i], utilization, 1000.0)
            && IsMean(supplyApy, locked, Total(own, f.earned)) && Shown(r.supplyApr[i], supplyApy, 1000.0)
            && IsMean(borrowApy, locked, Total(own, f.paid)) && Shown(r.borrowApr[i], borrowApy, 1000.0)
            && Shown(r.cumulativeSupply[i], Total(own, f.cumulativeSupply), 100.0)
            && Shown(r.cumulativeBorrow[i], Total(own, f.cumulativeBorrow), 100.0)
            && Shown(r.badDebt[i], Total(own, f.badDebt), 100.0)
  {
    hide *;
    var buckets := Buckets(points);
    var rows := BucketRows(points, buckets);
    ColumnsAt(rows, i);
    utilization, supplyApy, borrowApy := BucketShows(buckets[i], InBucket(points, buckets[i]), f);
  }



  // ----- the two series agree on a single market

  /** What a point must look like for both series to show the same. */
  predicate Agrees(p: Point) {
    && WithScale(p.supplyUsd, 2) == p.supplyUsd && WithScale(p.borrowUsd, 2) == p.borrowUsd
    && WithScale(p.cumulativeSupply, 2) == p.cumulativeSupply && WithScale(p.cumulativeBorrow, 2) == p.cumulativeBorrow
    && WithScale(p.badDebt, 2) == p.badDebt
    && if Tvl(p) != 0.0 then WithScale(p.borrowApy, 3) == p.borrowApy
       else p.borrowApy == 0.0 && WithScale(UtilizationOf(p), 3) == 0.0 && WithScale(SupplyApyOf(p), 3) == 0.0
  }

  lemma TotalOfOne(p: Point, f: Point -> real)
    ensures Total([p], f) == f(p)
  {
    assert [p][..0] == [];
  }

  lemma AverageOfOne(p: Point, rate: Point -> real)
    ensures Average([p], rate) == if Tvl(p) == 0.0 then 0.0 else rate(p)
  {
    hide Total;
    TotalOfOne(p, Tvl);
    TotalOfOne(p, Weighted(rate));
    WeightedAt(rate, p);
    if Tvl(p) != 0.0 {
      CancelRatio(rate(p), Tvl(p));
    }
  }

  lemma CancelRatio(a: real, b: real)
    requires b != 0.0
    ensures Ratio(Product(a, b), b) == a
  {
  }

  lemma WithScaleZero(k: nat)
    ensures WithScale(0.0, k) == 0.0
  {
    assert 0.0 * Pow10(k) == 0.0;
  }

  lemma RowsAgreeIff(p: Point)
    ensures SingleRow(p) == BucketRow(p.bucketTs, [p]) <==> Agrees(p)
  {
    hide WithScale, Total, Average, Utilization, DeriveSupplyApy;
    TotalOfOne(p, Tvl);
    TotalOfOne(p, SupplyUsd);
    TotalOfOne(p, BorrowUsd);
    TotalOfOne(p, CumulativeSupply);
    TotalOfOne(p, CumulativeBorrow);
    TotalOfOne(p, BadDebt);
    AverageOfOne(p, UtilizationOf);
    AverageOfOne(p, SupplyApyOf);
    AverageOfOne(p, BorrowApyOf);
    WithScaleZero(3);
  }

  /** One point per bucket, as the query gives for one market. */
  ghost predicate OnePerBucket(points: seq<Point>) {
    forall i, j :: 0 <= i < j < |points| ==> points[i].bucketTs != points[j].bucketTs
  }

  lemma {:induction false} InBucketOfOne(points: seq<Point>, p: Point)
    requires OnePerBucket(points) && p in points
    ensures InBucket(points, p.bucketTs) == [p]
  {
    var front, last := points[..|points| - 1], points[|points| - 1];
    assert points == front + [last];
    if p == last {
      InBucketMembers(front, p.bucketTs);
      NoMembers(InBucket(front, p.bucketTs));
    } else {
      InBucketOfOne(front, p);
    }
  }

  lemma SortOnePerBucket(points: seq<Point>)
    requires OnePerBucket(points)
    ensures OnePerBucket(Sort(points, BucketTs))
  {
    hide Sort;
    var s := Sort(points, BucketTs);
    SortFacts(points, BucketTs);
    SortMembers(points, BucketTs);
    forall p ensures multiset(s)[p] <= 1 {
      CountsOfDistinct(points, p);
    }
    DistinctOfCounts(s);
    forall i, j | 0 <= i < j < |s| ensures s[i].bucketTs != s[j].bucketTs {
      assert s[i] in points && s[j] in points;
      var k :| 0 <= k < |points| && points[k] == s[i];
      var l :| 0 <= l < |points| && points[l] == s[j];
      assert points[k] != points[l];
    }
  }

  lemma IncreasingTail(s: seq<int>, x: int)
    requires Increasing(s) && s != []
    ensures Increasing(s[1..])
    ensures x in s ==> s[0] <= x
    ensures x in s[1..] <==> x in s && x != s[0]
  {
    assert s == [s[0]] + s[1..];
  }

  lemma {:induction false} SameIncreasing(a: seq<int>, b: seq<int>)
    requires Increasing(a) && Increasing(b) && forall x :: x in a <==> x in b
    ensures a == b
  {
    NoNumbers(a);
    NoNumbers(b);
    if a != [] {
      hide Increasing;
      var x, y: int := a[0], b[0];
      IncreasingTail(a, y);
      IncreasingTail(b, x);
      assert x in a && y in b;
      forall z ensures z in a[1..] <==> z in b[1..] {
        IncreasingTail(a, z);
        IncreasingTail(b, z);
      }
      SameIncreasing(a[1..], b[1..]);
      assert a == [a[0]] + a[1..] && b == [b[0]] + b[1..];
    }
  }

  function BucketsOf(points: seq<Point>): seq<int> {
    seq(|points|, i requires 0 <= i < |points| => points[i].bucketTs)
  }

  /** The buckets are then the times of the sorted points. */
  lemma BucketsOfSorted(points: seq<Point>)
    requires OnePerBucket(points)
    ensures Buckets(points) == BucketsOf(Sort(points, BucketTs))
  {
    hide Sort, Buckets;
    var s := Sort(points, BucketTs);
    SortOnePerBucket(points);
    SortSorted(points, BucketTs);
    SortMembers(points, BucketTs);
    forall i, j | 0 <= i < j < |s| ensures s[i].bucketTs < s[j].bucketTs {
      assert BucketTs(s[i]) <= BucketTs(s[j]);
    }
    BucketsAscend(points);
    forall b ensures b in Buckets(points) <==> b in BucketsOf(s) {
      SameBuckets(points, s, b);
    }
    SameIncreasing(Buckets(points), BucketsOf(s));
  }

  lemma SameBuckets(a: seq<Point>, b: seq<Point>, t: int)
    requires forall p :: p in a <==> p in b
    ensures HasBucket(a, t) <==> t in BucketsOf(b)
  {
    if HasBucket(a, t) {
      var i :| 0 <= i < |a| && a[i].bucketTs == t;
      assert a[i] in b;
      var j :| 0 <= j < |b| && b[j] == a[i];
      assert BucketsOf(b)[j] == t;
    }
    if t in BucketsOf(b) {
      var j :| 0 <= j < |b| && BucketsOf(b)[j] == t;
      assert b[j] in a;
      var i :| 0 <= i < |a| && a[i] == b[j];
      assert a[i].bucketTs == t;
    }
  }

  lemma ColumnsEqualIff(a: seq<Row>, b: seq<Row>)
    requires |a| == |b|
    ensures Columns(a) == Columns(b) <==> forall i :: 0 <= i < |a| ==> a[i] == b[i]
  {
    hide Columns;
    ColumnsHoldRows(a);
    ColumnsHoldRows(b);
    if Columns(a) == Columns(b) {
      forall i | 0 <= i < |a| ensures a[i] == b[i] {
        assert RowAt(Columns(a), i) == a[i] && RowAt(Columns(b), i) == b[i];
      }
    } else {
      assert a != b;
    }
  }

  /** On one market's points the aggregated series and the single market's are the same exactly
      if every point's dollar values have at most two digits after the point and its borrow rate
      three; where nothing is locked the aggregate shows no rates, so there must be none. */
  lemma SeriesAgreeIff(points: seq<Point>)
    requires OnePerBucket(points)
    ensures Columns(SingleRows(Sort(points, BucketTs))) == Columns(BucketRows(points, Buckets(points)))
            <==> forall p :: p in points ==> Agrees(p)
  {
    hide Sort, Buckets, Columns, Agrees, SingleRow, BucketRow, InBucket;
    var s := Sort(points, BucketTs);
    SortSorted(points, BucketTs);
    SortMembers(points, BucketTs);
    BucketsOfSorted(points);
    var a, b := SingleRows(s), BucketRows(points, Buckets(points));
    ColumnsEqualIff(a, b);
    forall i | 0 <= i < |s| ensures a[i] == b[i] <==> Agrees(s[i]) {
      assert s[i] in points;
      InBucketOfOne(points, s[i]);
      RowsAgreeIff(s[i]);
    }
    assert (forall i :: 0 <= i < |s| ==> Agrees(s[i])) <==> forall p :: p in s ==> Agrees(p);
  }

  /** Where one market has value locked and lends no negative amount, both series show the part of its supply
      that is lent, less than a thousandth below. */
  lemma UtilizationShown(points: seq<Point>, i: nat)
    requires OnePerBucket(points) && i < |points|
    ensures |Sort(points, BucketTs)| == |points|
    ensures var p := Sort(points, BucketTs)[i];
            var single := Columns(SingleRows(Sort(points, BucketTs)));
            var aggregate := Columns(BucketRows(points, Buckets(points)));
            && |single.utilization| == |aggregate.utilization| == |points|
            && (p.supplyUsd + p.collateralUsd != 0.0 && p.supplyAssets > 0.0 && p.borrowAssets >= 0.0 ==>
                  && single.utilization[i] <= p.borrowAssets / p.supplyAssets < single.utilization[i] + 0.001
                  && aggregate.utilization[i] <= p.borrowAssets / p.supplyAssets < aggregate.utilization[i] + 0.001)
  {
    hide Sort, Columns, WithScale, Buckets, InBucket, Average, Utilization;
    SortFacts(points, BucketTs);
    SortMembers(points, BucketTs);
    BucketsOfSorted(points);
    var p := Sort(points, BucketTs)[i];
    InBucketOfOne(points, p);
    AverageOfOne(p, UtilizationOf);
    ColumnsAt(SingleRows(Sort(points, BucketTs)), i);
    ColumnsAt(BucketRows(points, Buckets(points)), i);
    if p.supplyAssets > 0.0 && p.borrowAssets >= 0.0 {
      RatesAre(p);
      var u := UtilizationOf(p);
      LentPart(u, p);
      ThousandthsShown(u);
    }
  }

  lemma LentPart(x: real, p: Point)
    requires IsUtilization(x, p) && p.supplyAssets > 0.0 && p.borrowAssets >= 0.0
    ensures x == p.borrowAssets / p.supplyAssets && x >= 0.0
  {
    CancelRatio(x, p.supplyAssets);
  }

  /** A market in which nothing is locked but that still has a borrow rate shows the rate on its own,
      and not in the aggregate. */
  lemma UnlockedMarketShownDifferently(p: Point)
    requires Tvl(p) == 0.0 && p.borrowApy != 0.0
    ensures Columns(SingleRows(Sort([p], BucketTs))) != Columns(BucketRows([p], Buckets([p])))
  {
    hide Columns, SingleRows, BucketRows, Sort, Buckets;
    assert p in [p];
    assert !Agrees(p);
    SeriesAgreeIff([p]);
  }

  /** A market that is emptied, with the rate it last had. */
  const EMPTIED: Point := Point(0, 0.0, 0.0, 0.0, 0.0, 0.0, 0.0, 0.05, 0.0, 0.0, 0.0)

  lemma EmptiedMarketShownDifferently()
    ensures Columns(SingleRows(Sort([EMPTIED], BucketTs))) != Columns(BucketRows([EMPTIED], Buckets([EMPTIED])))
  {
    hide Columns, SingleRows, BucketRows, Sort, Buckets;
    UnlockedMarketShownDifferently(EMPTIED);
  }

  // ----- the headline figures

  datatype Stats = Stats(figures: Row, collateralUsd: real, liquidity: real)

  /** All markets' latest snapshots as if they were one bucket, with two more figures. */
  method BuildAggregate(snapshots: seq<Point>) returns (stats: Stats)
    ensures stats.figures == BucketRow(0, snapshots)
    ensures stats.collateralUsd == WithScale(Total(snapshots, CollateralUsd), 2)
    ensures stats.liquidity == WithScale(Total(snapshots, SupplyUsd) - Total(snapshots, BorrowUsd), 2)
  {
    var t := TallyUp(snapshots);
    RowOfTallyIs(0, snapshots);
    stats := Stats(RowOfTally(0, t), WithScale(t.collateral, 2), WithScale(t.supply - t.borrow, 2));
  }
}
