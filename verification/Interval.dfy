/** The fold of block ledgers over an interval, and the rows it compares with the node's figures. */
module Interval {
  import opened Wrappers
  import opened Money
  import opened Ledger

  datatype AnchorBalances = AnchorBalances(orchard: Zatoshi, ironwood: Zatoshi) {
    function Balance(pool: Pool): Zatoshi {
      match pool
      case Orchard => orchard
      case Ironwood => ironwood
      case _ => 0
    }
  }

  datatype Agreement = Agrees | Differs | NotReported

  function AgreementOf(reconstructed: Zatoshi, reported: Option<Zatoshi>): Agreement {
    match reported
    case Some(value) => if value == reconstructed then Agrees else Differs
    case None => NotReported
  }

  datatype HeightOutcome = HeightOutcome(
    height: u32,
    orchardDelta: Zatoshi, ironwoodDelta: Zatoshi,
    expectedOrchard: Zatoshi, expectedIronwood: Zatoshi,
    reportedOrchard: Option<Zatoshi>, reportedIronwood: Option<Zatoshi>,
    reportedOrchardDelta: Option<Zatoshi>, reportedIronwoodDelta: Option<Zatoshi>)
  {
    function ExpectedBalance(pool: Pool): Option<Zatoshi> {
      match pool
      case Orchard => Some(expectedOrchard)
      case Ironwood => Some(expectedIronwood)
      case _ => None
    }

    function BalanceAgreement(pool: Pool): Agreement {
      match pool
      case Orchard => AgreementOf(expectedOrchard, reportedOrchard)
      case Ironwood => AgreementOf(expectedIronwood, reportedIronwood)
      case _ => NotReported
    }

    function DeltaAgreement(pool: Pool): Agreement {
      match pool
      case Orchard => AgreementOf(orchardDelta, reportedOrchardDelta)
      case Ironwood => AgreementOf(ironwoodDelta, reportedIronwoodDelta)
      case _ => NotReported
    }

    predicate Diverges() {
      || BalanceAgreement(Orchard).Differs? || DeltaAgreement(Orchard).Differs?
      || BalanceAgreement(Ironwood).Differs? || DeltaAgreement(Ironwood).Differs?
    }
  }

  datatype PoolFlows = PoolFlows(orchardOutflow: Zatoshi, ironwoodInflow: Zatoshi)

  datatype IntervalOutcome = IntervalOutcome(
    interval: HeightInterval, anchor: AnchorBalances, heights: seq<HeightOutcome>,
    cumulativeOrchard: Zatoshi, cumulativeIronwood: Zatoshi,
    expectedEndOrchard: Zatoshi, expectedEndIronwood: Zatoshi, flows: PoolFlows)

  /** How many of the first `n` rows diverge. */
  ghost function CountDiverging(heights: seq<HeightOutcome>, n: nat): nat
    requires n <= |heights|
  {
    if n == 0 then 0 else CountDiverging(heights, n - 1) + if heights[n - 1].Diverges() then 1 else 0
  }

  /** The heights of the diverging rows, each at the place the number of diverging rows before it gives. */
  function DivergentHeights(heights: seq<HeightOutcome>): (divergent: seq<u32>)
    ensures |divergent| == CountDiverging(heights, |heights|)
    ensures forall i | 0 <= i < |heights| && heights[i].Diverges() ::
              CountDiverging(heights, i) < |divergent| && divergent[CountDiverging(heights, i)] == heights[i].height
  {
    if heights == [] then []
    else
      var init, last := heights[..|heights| - 1], heights[|heights| - 1];
      CountsAgree(heights, init);
      DivergentHeights(init) + if last.Diverges() then [last.height] else []
  }

  lemma CountsAgree(heights: seq<HeightOutcome>, prefix: seq<HeightOutcome>)
    requires prefix <= heights
    ensures forall n | 0 <= n <= |prefix| :: CountDiverging(heights, n) == CountDiverging(prefix, n)
  {
    forall n | 0 <= n <= |prefix|
      ensures CountDiverging(heights, n) == CountDiverging(prefix, n)
    {
      CountAgrees(heights, prefix, n);
    }
  }

  lemma {:induction false} CountAgrees(heights: seq<HeightOutcome>, prefix: seq<HeightOutcome>, n: nat)
    requires prefix <= heights && n <= |prefix|
    ensures CountDiverging(heights, n) == CountDiverging(prefix, n)
  {
    if n > 0 {
      CountAgrees(heights, prefix, n - 1);
    }
  }

  /** There are none exactly when no row diverges, and the first is that of the first row that does. */
  lemma FirstDivergent(heights: seq<HeightOutcome>)
    ensures var divergent := DivergentHeights(heights);
            && (divergent == [] <==> forall i | 0 <= i < |heights| :: !heights[i].Diverges())
            && (divergent != [] ==> exists i | 0 <= i < |heights| ::
                  && heights[i].Diverges() && divergent[0] == heights[i].height
                  && forall j | 0 <= j < i :: !heights[j].Diverges())
  {
    CountIsZero(heights, |heights|);
    match FindIndex(heights, (row: HeightOutcome) => row.Diverges()) {
      case None =>
      case Some(i) => CountIsZero(heights, i);
    }
  }

  lemma {:induction false} CountIsZero(heights: seq<HeightOutcome>, n: nat)
    requires n <= |heights|
    ensures CountDiverging(heights, n) == 0 <==> forall i | 0 <= i < n :: !heights[i].Diverges()
  {
    if n > 0 {
      CountIsZero(heights, n - 1);
    }
  }

  // ---- What the accumulators mean, over unbounded integers ----

  type Reports = map<u32, ReportedPoolState>

  ghost function Deltas(ledgers: seq<BlockLedger>, pool: Pool): (ds: seq<int>)
    ensures |ds| == |ledgers|
  {
    seq(|ledgers|, i requires 0 <= i < |ledgers| => ledgers[i].Delta(pool) as int)
  }

  ghost function Leaving(ds: seq<int>): (out: seq<int>)
    ensures |out| == |ds|
  {
    seq(|ds|, i requires 0 <= i < |ds| => if ds[i] < 0 then -ds[i] else 0)
  }

  ghost function Entering(ds: seq<int>): (into: seq<int>)
    ensures |into| == |ds|
  {
    seq(|ds|, i requires 0 <= i < |ds| => if ds[i] > 0 then ds[i] else 0)
  }

  /** What a block moves out, less nothing that it moves in: one of the two is zero and they differ by the net. */
  lemma FlowsExact(ds: seq<int>, i: nat)
    requires i < |ds|
    ensures Entering(ds)[i] - Leaving(ds)[i] == ds[i]
    ensures Entering(ds)[i] >= 0 && Leaving(ds)[i] >= 0
    ensures Entering(ds)[i] == 0 || Leaving(ds)[i] == 0
  {
  }

  /** Net change of a pool over the first `k` blocks. */
  ghost function Cumulative(ledgers: seq<BlockLedger>, pool: Pool, k: nat): int
    requires k <= |ledgers|
  {
    SumTo(Deltas(ledgers, pool), k)
  }

  /** Balance of a pool after the first `k` blocks. */
  ghost function Balance(ledgers: seq<BlockLedger>, anchor: AnchorBalances, pool: Pool, k: nat): int
    requires k <= |ledgers|
  {
    anchor.Balance(pool) + Cumulative(ledgers, pool, k)
  }

  ghost function Outflow(ledgers: seq<BlockLedger>): int {
    Sum(Leaving(Deltas(ledgers, Orchard)))
  }

  ghost function Inflow(ledgers: seq<BlockLedger>): int {
    Sum(Entering(Deltas(ledgers, Ironwood)))
  }

  /** The running balances narrowed at the first `k` heights, in order. */
  ghost function HeightFigures(ledgers: seq<BlockLedger>, anchor: AnchorBalances, k: nat): seq<int>
    requires k <= |ledgers|
  {
    if k == 0 then []
    else
      HeightFigures(ledgers, anchor, k - 1)
      + [Balance(ledgers, anchor, Orchard, k), Balance(ledgers, anchor, Ironwood, k)]
  }

  /** Every figure the fold must represent as money, in the order it commits to them. */
  ghost function Figures(ledgers: seq<BlockLedger>, anchor: AnchorBalances): seq<int> {
    var n := |ledgers|;
    HeightFigures(ledgers, anchor, n) + FinalFigures(TotalsAt(ledgers, anchor, n))
  }

  ghost function FinalFigures(totals: Totals): seq<int> {
    [totals.orchardCumulative, totals.ironwoodCumulative, totals.orchardRunning, totals.ironwoodRunning,
     totals.orchardOutflow, totals.ironwoodInflow]
  }

  /** The exact condition under which an interval can be reconciled at all. */
  ghost predicate Reconcilable(ledgers: seq<BlockLedger>, anchor: AnchorBalances) {
    var n := |ledgers|;
    && (forall k | 0 < k <= n ::
          InMoneyRange(Balance(ledgers, anchor, Orchard, k)) && InMoneyRange(Balance(ledgers, anchor, Ironwood, k)))
    && InMoneyRange(Balance(ledgers, anchor, Orchard, n)) && InMoneyRange(Balance(ledgers, anchor, Ironwood, n))
    && InMoneyRange(Cumulative(ledgers, Orchard, n)) && InMoneyRange(Cumulative(ledgers, Ironwood, n))
    && InMoneyRange(Outflow(ledgers)) && InMoneyRange(Inflow(ledgers))
  }

  function ReportedBalance(reported: Reports, height: u32, pool: Pool): Option<Zatoshi> {
    if height in reported then reported[height].Balance(pool) else None
  }

  function ReportedDelta(reported: Reports, height: u32, pool: Pool): Option<Zatoshi> {
    if height in reported then reported[height].Delta(pool) else None
  }

  /** The row for block `i`: what its transactions did, where that leaves each pool, and what the
      node said about the same height. */
  ghost function RowOf(ledgers: seq<BlockLedger>, anchor: AnchorBalances, reported: Reports, i: nat): HeightOutcome
    requires i < |ledgers|
    requires InMoneyRange(Balance(ledgers, anchor, Orchard, i + 1))
    requires InMoneyRange(Balance(ledgers, anchor, Ironwood, i + 1))
  {
    var height := ledgers[i].height;
    HeightOutcome(
      height, ledgers[i].orchardDelta, ledgers[i].ironwoodDelta,
      Balance(ledgers, anchor, Orchard, i + 1), Balance(ledgers, anchor, Ironwood, i + 1),
      ReportedBalance(reported, height, Orchard), ReportedBalance(reported, height, Ironwood),
      ReportedDelta(reported, height, Orchard), ReportedDelta(reported, height, Ironwood))
  }

  ghost function OutcomeOf(
    ledgers: seq<BlockLedger>, interval: HeightInterval, anchor: AnchorBalances, reported: Reports)
    : IntervalOutcome
    requires Reconcilable(ledgers, anchor)
  {
    var n := |ledgers|;
    IntervalOutcome(
      interval, anchor,
      seq(n, i requires 0 <= i < n => RowOf(ledgers, anchor, reported, i)),
      Cumulative(ledgers, Orchard, n), Cumulative(ledgers, Ironwood, n),
      Balance(ledgers, anchor, Orchard, n), Balance(ledgers, anchor, Ironwood, n),
      PoolFlows(Outflow(ledgers), Inflow(ledgers)))
  }

  // ---- The fold ----

  /** A 128-bit addition, refused exactly when the integer sum has no 128-bit form. */
  function Add(accumulator: int, delta: int): (r: Result<int>)
    ensures r.Ok? <==> I128_MIN - 1 < accumulator + delta < I128_MAX + 1
    ensures r.Ok? ==> r.value - delta == accumulator
  {
    if I128_MIN <= accumulator + delta <= I128_MAX then Ok(accumulator + delta) else Err(ArithmeticOverflow)
  }

  /** A total as money, if it is money. */
  function Narrow(accumulator: int): Result<Zatoshi> {
    if !InI64(accumulator) then Err(ArithmeticOverflow) else NewChecked(accumulator)
  }

  function NarrowError(figure: int): ReconcileError
    requires !InMoneyRange(figure)
  {
    if InI64(figure) then ValueOutOfBounds(figure) else ArithmeticOverflow
  }

  /** The running accumulators of the fold, held in 128 bits by the source. */
  datatype Totals = Totals(
    orchardRunning: int, ironwoodRunning: int, orchardCumulative: int, ironwoodCumulative: int,
    orchardOutflow: int, ironwoodInflow: int)

  /** One block's checked additions. */
  function AddBlock(totals: Totals, ledger: BlockLedger): Result<Totals> {
    var orchardRunning :- Add(totals.orchardRunning, ledger.orchardDelta);
    var ironwoodRunning :- Add(totals.ironwoodRunning, ledger.ironwoodDelta);
    var orchardCumulative :- Add(totals.orchardCumulative, ledger.orchardDelta);
    var ironwoodCumulative :- Add(totals.ironwoodCumulative, ledger.ironwoodDelta);
    var orchardOutflow :-
      if ledger.orchardDelta < 0 then Add(totals.orchardOutflow, -(ledger.orchardDelta as int))
      else Ok(totals.orchardOutflow);
    var ironwoodInflow :-
      if ledger.ironwoodDelta > 0 then Add(totals.ironwoodInflow, ledger.ironwoodDelta)
      else Ok(totals.ironwoodInflow);
    Ok(Totals(orchardRunning, ironwoodRunning, orchardCumulative, ironwoodCumulative,
              orchardOutflow, ironwoodInflow))
  }

  ghost function TotalsAt(ledgers: seq<BlockLedger>, anchor: AnchorBalances, k: nat): Totals
    requires k <= |ledgers|
  {
    Totals(Balance(ledgers, anchor, Orchard, k), Balance(ledgers, anchor, Ironwood, k),
           Cumulative(ledgers, Orchard, k), Cumulative(ledgers, Ironwood, k),
           SumTo(Leaving(Deltas(ledgers, Orchard)), k), SumTo(Entering(Deltas(ledgers, Ironwood)), k))
  }

  /** The error reported: that of the first figure money cannot represent. */
  ghost predicate FailsAtFirst(figures: seq<int>, error: ReconcileError) {
    exists j | 0 <= j < |figures| ::
      && !InMoneyRange(figures[j])
      && (forall i | 0 <= i < j :: InMoneyRange(figures[i]))
      && error == NarrowError(figures[j])
  }

  lemma FailsAt(good: seq<int>, bad: int, rest: seq<int>)
    requires forall i | 0 <= i < |good| :: InMoneyRange(good[i])
    requires !InMoneyRange(bad)
    ensures FailsAtFirst(good + [bad] + rest, NarrowError(bad))
  {
    var figures := good + [bad] + rest;
    assert figures[|good|] == bad;
    assert forall i | 0 <= i < |good| :: figures[i] == good[i];
  }

  lemma {:induction false} HeightFiguresPrefix(ledgers: seq<BlockLedger>, anchor: AnchorBalances, k: nat, n: nat)
    requires k <= n <= |ledgers|
    ensures HeightFigures(ledgers, anchor, k) <= HeightFigures(ledgers, anchor, n)
    decreases n
  {
    if k < n {
      HeightFiguresPrefix(ledgers, anchor, k, n - 1);
    }
  }

  lemma {:induction false} FlowBounds(flows: seq<int>, k: nat)
    requires k <= |flows|
    requires forall i | 0 <= i < |flows| :: 0 <= flows[i] <= I64_MAX + 1
    ensures 0 <= SumTo(flows, k) <= Sum(flows)
    ensures SumTo(flows, k) <= k * (I64_MAX + 1)
    decreases |flows| - k
  {
    if k < |flows| {
      FlowBounds(flows, k + 1);
    }
    FlowPrefixBounds(flows, k);
  }

  lemma {:induction false} FlowPrefixBounds(flows: seq<int>, k: nat)
    requires k <= |flows|
    requires forall i | 0 <= i < |flows| :: 0 <= flows[i] <= I64_MAX + 1
    ensures 0 <= SumTo(flows, k) <= k * (I64_MAX + 1)
  {
    if k > 0 {
      FlowPrefixBounds(flows, k - 1);
    }
  }

  /** The next accumulators over unbounded integers. */
  lemma TotalsStep(ledgers: seq<BlockLedger>, anchor: AnchorBalances, k: nat)
    requires k < |ledgers|
    ensures var t, d := TotalsAt(ledgers, anchor, k), ledgers[k];
            TotalsAt(ledgers, anchor, k + 1) == Totals(
              t.orchardRunning + d.orchardDelta, t.ironwoodRunning + d.ironwoodDelta,
              t.orchardCumulative + d.orchardDelta, t.ironwoodCumulative + d.ironwoodDelta,
              t.orchardOutflow + if d.orchardDelta < 0 then -(d.orchardDelta as int) else 0,
              t.ironwoodInflow + if d.ironwoodDelta > 0 then d.ironwoodDelta else 0)
  {
    var orchard, ironwood := Deltas(ledgers, Orchard), Deltas(ledgers, Ironwood);
    assert orchard[k] == ledgers[k].orchardDelta && ironwood[k] == ledgers[k].ironwoodDelta;
  }

  lemma FlowsStay128(ledgers: seq<BlockLedger>, anchor: AnchorBalances, k: nat)
    requires k <= |ledgers|
    ensures var t := TotalsAt(ledgers, anchor, k);
            && 0 <= t.orchardOutflow <= Outflow(ledgers) && 0 <= t.ironwoodInflow <= Inflow(ledgers)
            && (|ledgers| <= ISIZE_MAX ==> t.orchardOutflow <= I128_MAX && t.ironwoodInflow <= I128_MAX)
  {
    FlowBounds(Leaving(Deltas(ledgers, Orchard)), k);
    FlowBounds(Entering(Deltas(ledgers, Ironwood)), k);
  }

  /** The balances and cumulative deltas cannot overflow 128 bits once the previous height narrowed;
      only a gross flow could, on a slice too long to exist, and then the interval is not
      reconcilable anyway. */
  lemma AddBlockExact(ledgers: seq<BlockLedger>, anchor: AnchorBalances, k: nat)
    requires k < |ledgers|
    requires k > 0 ==>
               InMoneyRange(Balance(ledgers, anchor, Orchard, k)) && InMoneyRange(Balance(ledgers, anchor, Ironwood, k))
    ensures var next := AddBlock(TotalsAt(ledgers, anchor, k), ledgers[k]);
            || next == Ok(TotalsAt(ledgers, anchor, k + 1))
            || (next == Err(ArithmeticOverflow) && !Reconcilable(ledgers, anchor) && |ledgers| > ISIZE_MAX)
  {
    TotalsStep(ledgers, anchor, k);
    FlowsStay128(ledgers, anchor, k);
    FlowsStay128(ledgers, anchor, k + 1);
    var t := TotalsAt(ledgers, anchor, k);
    assert I64_MIN - MAX_MONEY <= t.orchardRunning <= I64_MAX + MAX_MONEY;
    assert I64_MIN - MAX_MONEY <= t.ironwoodRunning <= I64_MAX + MAX_MONEY;
    var next := AddBlock(t, ledgers[k]);
    if next.Err? {
      var u := TotalsAt(ledgers, anchor, k + 1);
      assert u.orchardOutflow > I128_MAX || u.ironwoodInflow > I128_MAX;
      assert !InMoneyRange(Outflow(ledgers)) || !InMoneyRange(Inflow(ledgers));
    }
  }

  ghost predicate HeightsNarrow(ledgers: seq<BlockLedger>, anchor: AnchorBalances, k: nat)
    requires k <= |ledgers|
  {
    forall j | 0 < j <= k ::
      InMoneyRange(Balance(ledgers, anchor, Orchard, j)) && InMoneyRange(Balance(ledgers, anchor, Ironwood, j))
  }

  lemma {:induction false} HeightFiguresAreMoney(ledgers: seq<BlockLedger>, anchor: AnchorBalances, k: nat)
    requires k <= |ledgers| && HeightsNarrow(ledgers, anchor, k)
    ensures forall i | 0 <= i < |HeightFigures(ledgers, anchor, k)| ::
              InMoneyRange(HeightFigures(ledgers, anchor, k)[i])
  {
    if k > 0 {
      HeightFiguresAreMoney(ledgers, anchor, k - 1);
    }
  }

  /** The row pushed at one height, narrowing both running balances. */
  function NarrowRow(totals: Totals, ledger: BlockLedger, reported: Reports): Result<HeightOutcome> {
    var expectedOrchard :- Narrow(totals.orchardRunning);
    var expectedIronwood :- Narrow(totals.ironwoodRunning);
    Ok(HeightOutcome(
      ledger.height, ledger.orchardDelta, ledger.ironwoodDelta, expectedOrchard, expectedIronwood,
      ReportedBalance(reported, ledger.height, Orchard), ReportedBalance(reported, ledger.height, Ironwood),
      ReportedDelta(reported, ledger.height, Orchard), ReportedDelta(reported, ledger.height, Ironwood)))
  }

  lemma RowFiguresFail(ledgers: seq<BlockLedger>, anchor: AnchorBalances, k: nat)
    requires k < |ledgers| && HeightsNarrow(ledgers, anchor, k)
    ensures var orchard := Balance(ledgers, anchor, Orchard, k + 1);
            var ironwood := Balance(ledgers, anchor, Ironwood, k + 1);
            !InMoneyRange(orchard) || !InMoneyRange(ironwood) ==>
              FailsAtFirst(Figures(ledgers, anchor), NarrowError(if InMoneyRange(orchard) then ironwood else orchard))
  {
    hide Balance, FailsAtFirst, NarrowError;
    var orchard, ironwood := Balance(ledgers, anchor, Orchard, k + 1), Balance(ledgers, anchor, Ironwood, k + 1);
    var done := HeightFigures(ledgers, anchor, k);
    HeightFiguresAreMoney(ledgers, anchor, k);
    HeightFiguresPrefix(ledgers, anchor, k + 1, |ledgers|);
    var figures := Figures(ledgers, anchor);
    if !InMoneyRange(orchard) {
      assert figures == done + [orchard] + figures[|done| + 1..];
      FailsAt(done, orchard, figures[|done| + 1..]);
    } else if !InMoneyRange(ironwood) {
      assert figures == done + [orchard] + [ironwood] + figures[|done| + 2..];
      FailsAt(done + [orchard], ironwood, figures[|done| + 2..]);
    }
  }

  /** A row narrows exactly when its two balances are money; otherwise the first that is not is the
      first failing figure of the whole interval. */
  lemma NarrowRowExact(ledgers: seq<BlockLedger>, anchor: AnchorBalances, reported: Reports, k: nat)
    requires k < |ledgers| && HeightsNarrow(ledgers, anchor, k)
    ensures var row := NarrowRow(TotalsAt(ledgers, anchor, k + 1), ledgers[k], reported);
            && (row.Ok? ==> HeightsNarrow(ledgers, anchor, k + 1) && row.value == RowOf(ledgers, anchor, reported, k))
            && (row.Err? ==> !Reconcilable(ledgers, anchor) && FailsAtFirst(Figures(ledgers, anchor), row.error))
  {
    RowFiguresFail(ledgers, anchor, k);
    hide Balance, FailsAtFirst, Figures;
  }

  /** Narrows the final accumulators, in the order the outcome lists them. */
  function NarrowTotals(
    totals: Totals, interval: HeightInterval, anchor: AnchorBalances, heights: seq<HeightOutcome>)
    : Result<IntervalOutcome>
  {
    var cumulativeOrchard :- Narrow(totals.orchardCumulative);
    var cumulativeIronwood :- Narrow(totals.ironwoodCumulative);
    var endOrchard :- Narrow(totals.orchardRunning);
    var endIronwood :- Narrow(totals.ironwoodRunning);
    var outflow :- Narrow(totals.orchardOutflow);
    var inflow :- Narrow(totals.ironwoodInflow);
    Ok(IntervalOutcome(
      interval, anchor, heights, cumulativeOrchard, cumulativeIronwood, endOrchard, endIronwood,
      PoolFlows(outflow, inflow)))
  }

  /** The order in which figures are narrowed, and so which is first to fail: at each height Orchard's balance, then
      Ironwood's; then the net changes, the ends and the flows, Orchard's before Ironwood's. */
  lemma {:induction false} FiguresExact(ledgers: seq<BlockLedger>, anchor: AnchorBalances, k: nat)
    requires k < |ledgers|
    ensures var figures, n := Figures(ledgers, anchor), |ledgers|;
            && |figures| == 2 * n + 6
            && figures[2 * k] == anchor.orchard + SumTo(Deltas(ledgers, Orchard), k + 1)
            && figures[2 * k + 1] == anchor.ironwood + SumTo(Deltas(ledgers, Ironwood), k + 1)
            && figures[2 * n] == Sum(Deltas(ledgers, Orchard)) && figures[2 * n + 1] == Sum(Deltas(ledgers, Ironwood))
            && figures[2 * n + 2] == anchor.orchard + Sum(Deltas(ledgers, Orchard))
            && figures[2 * n + 3] == anchor.ironwood + Sum(Deltas(ledgers, Ironwood))
            && figures[2 * n + 4] == Sum(Leaving(Deltas(ledgers, Orchard)))
            && figures[2 * n + 5] == Sum(Entering(Deltas(ledgers, Ironwood)))
  {
    hide Deltas, Leaving, Entering, SumTo;
    HeightFiguresAt(ledgers, anchor, k, |ledgers|);
  }

  lemma {:induction false} HeightFiguresAt(ledgers: seq<BlockLedger>, anchor: AnchorBalances, k: nat, n: nat)
    requires k < n <= |ledgers|
    ensures |HeightFigures(ledgers, anchor, n)| == 2 * n
    ensures HeightFigures(ledgers, anchor, n)[2 * k] == Balance(ledgers, anchor, Orchard, k + 1)
    ensures HeightFigures(ledgers, anchor, n)[2 * k + 1] == Balance(ledgers, anchor, Ironwood, k + 1)
  {
    hide Balance;
    if n > 1 {
      HeightFiguresAt(ledgers, anchor, if k < n - 1 then k else 0, n - 1);
    } else {
      assert HeightFigures(ledgers, anchor, 0) == [];
    }
  }

  lemma FinalFiguresFail(good: seq<int>, totals: Totals, j: nat)
    requires j < 6 && !InMoneyRange(FinalFigures(totals)[j])
    requires forall i | 0 <= i < j :: InMoneyRange(FinalFigures(totals)[i])
    requires forall i | 0 <= i < |good| :: InMoneyRange(good[i])
    ensures FailsAtFirst(good + FinalFigures(totals), NarrowError(FinalFigures(totals)[j]))
  {
    var final := FinalFigures(totals);
    assert good + final == good + final[..j] + [final[j]] + final[j + 1..];
    FailsAt(good + final[..j], final[j], final[j + 1..]);
  }

  lemma NarrowTotalsDecides(
    ledgers: seq<BlockLedger>, interval: HeightInterval, anchor: AnchorBalances, heights: seq<HeightOutcome>)
    requires HeightsNarrow(ledgers, anchor, |ledgers|)
    ensures var r := NarrowTotals(TotalsAt(ledgers, anchor, |ledgers|), interval, anchor, heights);
            && (r.Ok? <==> Reconcilable(ledgers, anchor))
            && (r.Err? ==> FailsAtFirst(Figures(ledgers, anchor), r.error))
  {
    var totals := TotalsAt(ledgers, anchor, |ledgers|);
    var r := NarrowTotals(totals, interval, anchor, heights);
    if r.Err? {
      var final := FinalFigures(totals);
      var j := if !InMoneyRange(totals.orchardCumulative) then 0
               else if !InMoneyRange(totals.ironwoodCumulative) then 1
               else if !InMoneyRange(totals.orchardRunning) then 2
               else if !InMoneyRange(totals.ironwoodRunning) then 3
               else if !InMoneyRange(totals.orchardOutflow) then 4
               else 5;
      HeightFiguresAreMoney(ledgers, anchor, |ledgers|);
      FinalFiguresFail(HeightFigures(ledgers, anchor, |ledgers|), totals, j);
    }
  }

  /** Folds the ledgers, block by block. It succeeds exactly when every figure is
      representable money; the 128-bit additions never decide between success and failure, and on
      any slice that can exist they never overflow, so the error is that of the first figure that
      does not narrow. */
  method ReconcileInterval(
    ledgers: seq<BlockLedger>, interval: HeightInterval, anchor: AnchorBalances, reported: Reports)
    returns (r: Result<IntervalOutcome>)
    ensures r.Ok? <==> Reconcilable(ledgers, anchor)
    ensures r.Ok? ==> r.value == OutcomeOf(ledgers, interval, anchor, reported)
    ensures r.Err? && |ledgers| <= ISIZE_MAX ==> FailsAtFirst(Figures(ledgers, anchor), r.error)
  {
    var totals := Totals(anchor.orchard, anchor.ironwood, 0, 0, 0, 0);
    var heights: seq<HeightOutcome> := [];
    for i := 0 to |ledgers|
      invariant totals == TotalsAt(ledgers, anchor, i)
      invariant HeightsNarrow(ledgers, anchor, i)
      invariant |heights| == i
      invariant forall k | 0 <= k < i :: heights[k] == RowOf(ledgers, anchor, reported, k)
    {
      AddBlockExact(ledgers, anchor, i);
      totals :- AddBlock(totals, ledgers[i]);
      NarrowRowExact(ledgers, anchor, reported, i);
      var row :- NarrowRow(totals, ledgers[i], reported);
      heights := heights + [row];
    }
    NarrowTotalsDecides(ledgers, interval, anchor, heights);
    r := NarrowTotals(totals, interval, anchor, heights);
  }
}
