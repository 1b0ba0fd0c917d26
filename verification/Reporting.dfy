/** Assembly of the canonical report. */
module Reporting {
  import opened Wrappers
  import opened Money
  import opened Ledger
  import opened Interval
  import opened Checks

  datatype HeightRow = HeightRow(
    height: u32, orchardDelta: Zatoshi, ironwoodDelta: Zatoshi,
    orchardExpected: Zatoshi, ironwoodExpected: Zatoshi,
    orchardReported: Option<Zatoshi>, ironwoodReported: Option<Zatoshi>,
    orchardBalance: Agreement, ironwoodBalance: Agreement,
    orchardDeltaAgreement: Agreement, ironwoodDeltaAgreement: Agreement)
  {
    predicate Diverges() {
      || orchardBalance.Differs? || ironwoodBalance.Differs?
      || orchardDeltaAgreement.Differs? || ironwoodDeltaAgreement.Differs?
    }
  }

  datatype PerHeightSummary = PerHeightSummary(
    heightsCompared: u32, heightsDiverging: u32, firstDivergingHeight: Option<u32>)

  datatype Context = Context(
    bundleId: string, network: Network, reportedEndOrchard: Option<Zatoshi>, reportedEndIronwood: Option<Zatoshi>)

  datatype Report = Report(
    context: Context, interval: HeightInterval, blockCount: u32, anchor: AnchorBalances,
    cumulativeOrchard: Zatoshi, cumulativeIronwood: Zatoshi,
    expectedEndOrchard: Zatoshi, expectedEndIronwood: Zatoshi, flows: PoolFlows,
    summary: PerHeightSummary, perHeight: seq<HeightRow>, checks: seq<Check>, overallStatus: Status)

  function RowFor(outcome: HeightOutcome): (row: HeightRow)
    ensures row.Diverges() <==> outcome.Diverges()
  {
    HeightRow(
      outcome.height, outcome.orchardDelta, outcome.ironwoodDelta, outcome.expectedOrchard, outcome.expectedIronwood,
      outcome.reportedOrchard, outcome.reportedIronwood,
      outcome.BalanceAgreement(Orchard), outcome.BalanceAgreement(Ironwood),
      outcome.DeltaAgreement(Orchard), outcome.DeltaAgreement(Ironwood))
  }

  function RowsFor(heights: seq<HeightOutcome>): (rows: seq<HeightRow>)
    ensures |rows| == |heights| && forall i | 0 <= i < |rows| :: rows[i] == RowFor(heights[i])
  {
    seq(|heights|, i requires 0 <= i < |heights| => RowFor(heights[i]))
  }

  function DivergingRows(rows: seq<HeightRow>): seq<HeightRow> {
    if rows == [] then []
    else DivergingRows(rows[..|rows| - 1]) + if rows[|rows| - 1].Diverges() then [rows[|rows| - 1]] else []
  }

  /** The summary counts the outcome's divergent heights and names the first. */
  ghost predicate Summarises(summary: PerHeightSummary, heights: seq<HeightOutcome>) {
    var divergent := DivergentHeights(heights);
    && summary.heightsCompared == |heights|
    && summary.heightsDiverging == |divergent|
    && summary.firstDivergingHeight == if divergent == [] then None else Some(divergent[0])
  }

  lemma {:induction false} DivergingRowsMatch(heights: seq<HeightOutcome>)
    ensures |DivergingRows(RowsFor(heights))| == |DivergentHeights(heights)| <= |heights|
    ensures forall i | 0 <= i < |DivergentHeights(heights)| ::
              DivergingRows(RowsFor(heights))[i].height == DivergentHeights(heights)[i]
  {
    if heights != [] {
      var init := heights[..|heights| - 1];
      DivergingRowsMatch(init);
      assert RowsFor(heights)[..|heights| - 1] == RowsFor(init);
    }
  }

  /** The report carries the outcome unaltered, one row per height, and the checks in canonical order. */
  ghost predicate Presents(report: Report, outcome: IntervalOutcome, checks: seq<Check>, context: Context)
    requires outcome.interval.Valid()
  {
    && report.context == context
    && report.interval == outcome.interval && report.blockCount == outcome.interval.BlockCount()
    && report.anchor == outcome.anchor
    && report.cumulativeOrchard == outcome.cumulativeOrchard && report.cumulativeIronwood == outcome.cumulativeIronwood
    && report.expectedEndOrchard == outcome.expectedEndOrchard
    && report.expectedEndIronwood == outcome.expectedEndIronwood
    && report.flows == outcome.flows
    && Summarises(report.summary, outcome.heights)
    && report.perHeight == RowsFor(outcome.heights)
    && report.checks == Canonical(checks)
    && report.overallStatus == Verdict(checks)
  }

  /** Builds the canonical report, sorting a copy of the registry. */
  method Build(outcome: IntervalOutcome, registry: CheckRegistry, context: Context) returns (r: Result<Report>)
    requires outcome.interval.Valid()
    ensures registry.checks == old(registry.checks)
    ensures r.Ok? <==> |outcome.heights| <= U32_MAX
    ensures r.Ok? ==> Presents(r.value, outcome, registry.checks, context)
    ensures r.Err? ==> r.error == Internal
  {
    var ordered := new CheckRegistry.Clone(registry.checks);
    ordered.SortCanonically();
    CanonicalKeepsVerdict(registry.checks);
    var perHeight := RowsFor(outcome.heights);
    var diverging := DivergingRows(perHeight);
    DivergingRowsMatch(outcome.heights);
    if |perHeight| > U32_MAX {
      return Err(Internal);
    }
    if |diverging| > U32_MAX {
      return Err(Internal);
    }
    var summary := PerHeightSummary(
      |perHeight|, |diverging|, if diverging == [] then None else Some(diverging[0].height));
    r := Ok(Report(
      context, outcome.interval, outcome.interval.BlockCount(), outcome.anchor,
      outcome.cumulativeOrchard, outcome.cumulativeIronwood, outcome.expectedEndOrchard, outcome.expectedEndIronwood,
      outcome.flows, summary, perHeight, ordered.checks, ordered.OverallStatus()));
  }

  /** One outcome, one list of checks and one context make one report. */
  lemma PresentedOnce(a: Report, b: Report, outcome: IntervalOutcome, checks: seq<Check>, context: Context)
    requires outcome.interval.Valid()
    requires Presents(a, outcome, checks, context) && Presents(b, outcome, checks, context)
    ensures a == b
  {
    hide Canonical, Verdict, RowsFor, DivergentHeights;
  }

  /** Evaluating the checks in another order yields the very same report, exactly when no identifier's
      own checks change places. */
  lemma ReportForgetsEvaluationOrder(
    a: Report, b: Report, outcome: IntervalOutcome, checks: seq<Check>, reordered: seq<Check>, context: Context)
    requires outcome.interval.Valid()
    requires Presents(a, outcome, checks, context) && Presents(b, outcome, reordered, context)
    ensures a == b <==> SamePerId(checks, reordered)
  {
    hide Canonical, SamePerId, Verdict, RowsFor, DivergentHeights;
    CanonicalOrderExact(checks, reordered);
    CanonicalKeepsVerdict(checks);
    CanonicalKeepsVerdict(reordered);
  }
}
