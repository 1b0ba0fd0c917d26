/** How reconciled intervals compose, and what the two comparison axes say about each other. */
module IntervalLaws {
  import opened Wrappers
  import opened Money
  import opened Ledger
  import opened Interval

  // ---- Composition ----

  /** The anchor an interval leaves for the one that follows it. */
  ghost function EndAnchor(ledgers: seq<BlockLedger>, anchor: AnchorBalances): AnchorBalances
    requires InI64(Balance(ledgers, anchor, Orchard, |ledgers|))
    requires InI64(Balance(ledgers, anchor, Ironwood, |ledgers|))
  {
    AnchorBalances(Balance(ledgers, anchor, Orchard, |ledgers|), Balance(ledgers, anchor, Ironwood, |ledgers|))
  }

  lemma CumulativeConcat(first: seq<BlockLedger>, second: seq<BlockLedger>, pool: Pool, k: nat)
    requires k <= |first| + |second|
    ensures Cumulative(first + second, pool, k) ==
            if k <= |first| then Cumulative(first, pool, k)
            else Cumulative(first, pool, |first|) + Cumulative(second, pool, k - |first|)
  {
    var a, b := Deltas(first, pool), Deltas(second, pool);
    assert Deltas(first + second, pool) == a + b;
    if k <= |first| {
      SumToPrefix(a + b, a, k);
    } else {
      SumToConcat(a, b, k - |first|);
    }
  }

  lemma FlowsConcat(first: seq<BlockLedger>, second: seq<BlockLedger>)
    ensures Outflow(first + second) == Outflow(first) + Outflow(second)
    ensures Inflow(first + second) == Inflow(first) + Inflow(second)
    ensures Outflow(first) >= 0 && Inflow(first) >= 0
    ensures Outflow(second) >= 0 && Inflow(second) >= 0
  {
    var a, b := Leaving(Deltas(first, Orchard)), Leaving(Deltas(second, Orchard));
    assert Leaving(Deltas(first + second, Orchard)) == a + b;
    SumToConcat(a, b, |b|);
    FlowBounds(a, |a|);
    FlowBounds(b, |b|);
    InflowConcat(first, second);
  }

  lemma InflowConcat(first: seq<BlockLedger>, second: seq<BlockLedger>)
    ensures Inflow(first + second) == Inflow(first) + Inflow(second)
    ensures Inflow(first) >= 0 && Inflow(second) >= 0
  {
    var a, b := Entering(Deltas(first, Ironwood)), Entering(Deltas(second, Ironwood));
    assert Entering(Deltas(first + second, Ironwood)) == a + b;
    SumToConcat(a, b, |b|);
    FlowBounds(a, |a|);
    FlowBounds(b, |b|);
  }

  lemma BalanceConcat(first: seq<BlockLedger>, second: seq<BlockLedger>, anchor: AnchorBalances, pool: Pool, k: nat)
    requires k <= |first| + |second|
    requires InI64(Balance(first, anchor, Orchard, |first|))
    requires InI64(Balance(first, anchor, Ironwood, |first|))
    requires IsReconstructed(pool)
    ensures Balance(first + second, anchor, pool, k) ==
            if k <= |first| then Balance(first, anchor, pool, k)
            else Balance(second, EndAnchor(first, anchor), pool, k - |first|)
  {
    CumulativeConcat(first, second, pool, k);
  }

  /** Both parts in terms of the whole, over unbounded integers. */
  lemma SplitFigures(first: seq<BlockLedger>, second: seq<BlockLedger>, anchor: AnchorBalances, pool: Pool)
    requires InI64(Balance(first, anchor, Orchard, |first|))
    requires InI64(Balance(first, anchor, Ironwood, |first|))
    requires IsReconstructed(pool)
    ensures forall k | 0 <= k <= |first| ::
              Balance(first + second, anchor, pool, k) == Balance(first, anchor, pool, k)
    ensures forall k | 0 <= k <= |second| ::
              Balance(first + second, anchor, pool, |first| + k) == Balance(second, EndAnchor(first, anchor), pool, k)
    ensures Cumulative(first + second, pool, |first + second|) ==
            Cumulative(first, pool, |first|) + Cumulative(second, pool, |second|)
  {
    forall k | 0 <= k <= |first|
      ensures Balance(first + second, anchor, pool, k) == Balance(first, anchor, pool, k)
    {
      CumulativeConcat(first, second, pool, k);
    }
    forall k | 0 <= k <= |second|
      ensures Balance(first + second, anchor, pool, |first| + k) == Balance(second, EndAnchor(first, anchor), pool, k)
    {
      CumulativeConcat(first, second, pool, |first| + k);
    }
    CumulativeConcat(first, second, pool, |first| + |second|);
  }

  /** When a whole interval reconciles, its first part does exactly when that part's own cumulative
      deltas are money, and likewise the rest from the balances the first part ends on. */
  lemma SplitExact(first: seq<BlockLedger>, second: seq<BlockLedger>, anchor: AnchorBalances)
    requires Reconcilable(first + second, anchor)
    requires InMoneyRange(anchor.orchard) && InMoneyRange(anchor.ironwood)
    ensures InMoneyRange(Balance(first, anchor, Orchard, |first|))
    ensures InMoneyRange(Balance(first, anchor, Ironwood, |first|))
    ensures Reconcilable(first, anchor) <==>
            InMoneyRange(Cumulative(first, Orchard, |first|)) && InMoneyRange(Cumulative(first, Ironwood, |first|))
    ensures Reconcilable(second, EndAnchor(first, anchor)) <==>
            InMoneyRange(Cumulative(second, Orchard, |second|)) && InMoneyRange(Cumulative(second, Ironwood, |second|))
  {
    CumulativeConcat(first, second, Orchard, |first|);
    CumulativeConcat(first, second, Ironwood, |first|);
    assert Balance(first + second, anchor, Orchard, |first|) == Balance(first, anchor, Orchard, |first|);
    assert Balance(first + second, anchor, Ironwood, |first|) == Balance(first, anchor, Ironwood, |first|);
    if first == [] {
      assert Balance(first, anchor, Orchard, 0) == anchor.orchard;
      assert Balance(first, anchor, Ironwood, 0) == anchor.ironwood;
    }
    SplitFigures(first, second, anchor, Orchard);
    SplitFigures(first, second, anchor, Ironwood);
    FlowsConcat(first, second);
    FlowsConcat(second, []);
    assert |first + second| == |first| + |second|;
  }

  /** A healthy interval can be cut anywhere: with a non-negative anchor and non-negative running
      balances both parts reconcile, the height rows concatenate, the ends meet, and cumulative
      deltas and flows add. */
  lemma SplitInterval(
    first: seq<BlockLedger>, second: seq<BlockLedger>, anchor: AnchorBalances, reported: Reports,
    whole: HeightInterval, left: HeightInterval, right: HeightInterval)
    requires Reconcilable(first + second, anchor)
    requires InMoneyRange(anchor.orchard) && InMoneyRange(anchor.ironwood)
    requires forall k | 0 <= k <= |first + second| ::
               Balance(first + second, anchor, Orchard, k) >= 0 && Balance(first + second, anchor, Ironwood, k) >= 0
    ensures Reconcilable(first, anchor)
    ensures InI64(Balance(first, anchor, Orchard, |first|)) && InI64(Balance(first, anchor, Ironwood, |first|))
    ensures Reconcilable(second, EndAnchor(first, anchor))
    ensures Joined(OutcomeOf(first, left, anchor, reported),
                   OutcomeOf(second, right, EndAnchor(first, anchor), reported),
                   OutcomeOf(first + second, whole, anchor, reported))
  {
    SplitExact(first, second, anchor);
    SplitFigures(first, second, anchor, Orchard);
    SplitFigures(first, second, anchor, Ironwood);
    assert Balance(first + second, anchor, Orchard, 0) == anchor.orchard;
    assert Balance(first + second, anchor, Ironwood, 0) == anchor.ironwood;
    assert |first + second| == |first| + |second|;
    assert Balance(first + second, anchor, Orchard, |first|) >= 0;
    assert Balance(first + second, anchor, Ironwood, |first|) >= 0;
    OutcomesJoin(first, second, anchor, reported, whole, left, right);
  }

  ghost predicate Joined(first: IntervalOutcome, second: IntervalOutcome, whole: IntervalOutcome) {
    && whole.heights == first.heights + second.heights
    && whole.anchor == first.anchor
    && second.anchor == AnchorBalances(first.expectedEndOrchard, first.expectedEndIronwood)
    && whole.expectedEndOrchard == second.expectedEndOrchard
    && whole.expectedEndIronwood == second.expectedEndIronwood
    && whole.cumulativeOrchard == first.cumulativeOrchard + second.cumulativeOrchard
    && whole.cumulativeIronwood == first.cumulativeIronwood + second.cumulativeIronwood
    && whole.flows.orchardOutflow == first.flows.orchardOutflow + second.flows.orchardOutflow
    && whole.flows.ironwoodInflow == first.flows.ironwoodInflow + second.flows.ironwoodInflow
  }

  lemma OutcomesJoin(
    first: seq<BlockLedger>, second: seq<BlockLedger>, anchor: AnchorBalances, reported: Reports,
    whole: HeightInterval, left: HeightInterval, right: HeightInterval)
    requires Reconcilable(first, anchor)
    requires Reconcilable(second, EndAnchor(first, anchor))
    requires Reconcilable(first + second, anchor)
    ensures Joined(OutcomeOf(first, left, anchor, reported),
                   OutcomeOf(second, right, EndAnchor(first, anchor), reported),
                   OutcomeOf(first + second, whole, anchor, reported))
  {
    SplitFigures(first, second, anchor, Orchard);
    SplitFigures(first, second, anchor, Ironwood);
    FlowsConcat(first, second);
    assert |first + second| == |first| + |second|;
    RowsConcat(first, second, anchor, reported, whole, left, right);
  }

  lemma OutcomeLength(ledgers: seq<BlockLedger>, interval: HeightInterval, anchor: AnchorBalances, reported: Reports)
    requires Reconcilable(ledgers, anchor)
    ensures |OutcomeOf(ledgers, interval, anchor, reported).heights| == |ledgers|
  {
  }

  lemma RowConcat(
    first: seq<BlockLedger>, second: seq<BlockLedger>, anchor: AnchorBalances, reported: Reports,
    whole: HeightInterval, left: HeightInterval, right: HeightInterval, i: nat)
    requires Reconcilable(first, anchor)
    requires Reconcilable(second, EndAnchor(first, anchor))
    requires Reconcilable(first + second, anchor) && i < |first + second|
    ensures var a := OutcomeOf(first, left, anchor, reported).heights;
            var b := OutcomeOf(second, right, EndAnchor(first, anchor), reported).heights;
            OutcomeOf(first + second, whole, anchor, reported).heights[i] == if i < |a| then a[i] else b[i - |a|]
  {
    BalanceConcat(first, second, anchor, Orchard, i + 1);
    BalanceConcat(first, second, anchor, Ironwood, i + 1);
    assert (first + second)[i] == if i < |first| then first[i] else second[i - |first|];
    hide Balance, EndAnchor;
  }

  lemma RowsConcat(
    first: seq<BlockLedger>, second: seq<BlockLedger>, anchor: AnchorBalances, reported: Reports,
    whole: HeightInterval, left: HeightInterval, right: HeightInterval)
    requires Reconcilable(first, anchor)
    requires Reconcilable(second, EndAnchor(first, anchor))
    requires Reconcilable(first + second, anchor)
    ensures OutcomeOf(first + second, whole, anchor, reported).heights ==
            OutcomeOf(first, left, anchor, reported).heights
            + OutcomeOf(second, right, EndAnchor(first, anchor), reported).heights
  {
    var end := EndAnchor(first, anchor);
    hide OutcomeOf, Reconcilable, EndAnchor;
    var a := OutcomeOf(first, left, anchor, reported).heights;
    var b := OutcomeOf(second, right, end, reported).heights;
    var c := OutcomeOf(first + second, whole, anchor, reported).heights;
    OutcomeLength(first, left, anchor, reported);
    OutcomeLength(second, right, end, reported);
    OutcomeLength(first + second, whole, anchor, reported);
    forall i | 0 <= i < |c|
      ensures c[i] == (a + b)[i]
    {
      RowConcat(first, second, anchor, reported, whole, left, right, i);
    }
  }

  /** Two reconciled neighbours compose exactly unless a combined total leaves the money range. */
  lemma ComposeInterval(first: seq<BlockLedger>, second: seq<BlockLedger>, anchor: AnchorBalances)
    requires Reconcilable(first, anchor)
    requires Reconcilable(second, EndAnchor(first, anchor))
    ensures Reconcilable(first + second, anchor) <==>
            && InMoneyRange(Cumulative(first, Orchard, |first|) + Cumulative(second, Orchard, |second|))
            && InMoneyRange(Cumulative(first, Ironwood, |first|) + Cumulative(second, Ironwood, |second|))
            && InMoneyRange(Outflow(first) + Outflow(second))
            && InMoneyRange(Inflow(first) + Inflow(second))
  {
    SplitFigures(first, second, anchor, Orchard);
    SplitFigures(first, second, anchor, Ironwood);
    FlowsConcat(first, second);
    assert |first + second| == |first| + |second|;
    forall k | 0 < k <= |first + second|
      ensures InMoneyRange(Balance(first + second, anchor, Orchard, k))
      ensures InMoneyRange(Balance(first + second, anchor, Ironwood, k))
    {
      BalanceConcat(first, second, anchor, Orchard, k);
      BalanceConcat(first, second, anchor, Ironwood, k);
    }
    BalanceConcat(first, second, anchor, Orchard, |first + second|);
    BalanceConcat(first, second, anchor, Ironwood, |first + second|);
  }

  // ---- The two comparison axes ----

  ghost predicate TelescopesAt(
    ledgers: seq<BlockLedger>, anchor: AnchorBalances, reported: Reports, pool: Pool, i: nat)
    requires i < |ledgers|
  {
    var balance := ReportedBalance(reported, ledgers[i].height, pool);
    var previous := if i == 0 then Some(anchor.Balance(pool))
                    else ReportedBalance(reported, ledgers[i - 1].height, pool);
    var delta := ReportedDelta(reported, ledgers[i].height, pool);
    && balance.Some? && previous.Some? && delta.Some?
    && delta.value as int == balance.value as int - previous.value as int
  }

  /** The node reports every balance and delta of a pool, each delta being the difference of two
      consecutive balances, and its balance at the anchor is the declared one. */
  ghost predicate Telescopes(
    ledgers: seq<BlockLedger>, anchor: AnchorBalances, reported: Reports, pool: Pool)
  {
    forall i | 0 <= i < |ledgers| :: TelescopesAt(ledgers, anchor, reported, pool, i)
  }

  ghost predicate BalanceMatches(
    ledgers: seq<BlockLedger>, anchor: AnchorBalances, reported: Reports, pool: Pool, i: nat)
    requires i < |ledgers|
  {
    var balance := ReportedBalance(reported, ledgers[i].height, pool);
    balance.Some? && balance.value as int == Balance(ledgers, anchor, pool, i + 1)
  }

  ghost predicate DeltaMatches(ledgers: seq<BlockLedger>, reported: Reports, pool: Pool, i: nat)
    requires i < |ledgers|
  {
    ReportedDelta(reported, ledgers[i].height, pool) == Some(ledgers[i].Delta(pool))
  }

  /** With balances matching just before a block, one axis differs at it exactly when the other does. */
  lemma AxesAgreeAt(ledgers: seq<BlockLedger>, anchor: AnchorBalances, reported: Reports, pool: Pool, i: nat)
    requires i < |ledgers| && Telescopes(ledgers, anchor, reported, pool)
    requires i > 0 ==> BalanceMatches(ledgers, anchor, reported, pool, i - 1)
    ensures DeltaMatches(ledgers, reported, pool, i) <==> BalanceMatches(ledgers, anchor, reported, pool, i)
  {
    assert Deltas(ledgers, pool)[i] == ledgers[i].Delta(pool);
    var before: int := Balance(ledgers, anchor, pool, i);
    assert Balance(ledgers, anchor, pool, i + 1) == before + ledgers[i].Delta(pool);
    if i > 0 {
      assert before == Balance(ledgers, anchor, pool, (i - 1) + 1);
    }
    assert TelescopesAt(ledgers, anchor, reported, pool, i);
  }

  lemma {:induction false} AgreeingDeltasTelescope(
    ledgers: seq<BlockLedger>, anchor: AnchorBalances, reported: Reports, pool: Pool, n: nat)
    requires n <= |ledgers| && Telescopes(ledgers, anchor, reported, pool)
    requires forall i | 0 <= i < n :: DeltaMatches(ledgers, reported, pool, i)
    ensures forall i | 0 <= i < n :: BalanceMatches(ledgers, anchor, reported, pool, i)
  {
    if n > 0 {
      AgreeingDeltasTelescope(ledgers, anchor, reported, pool, n - 1);
      AxesAgreeAt(ledgers, anchor, reported, pool, n - 1);
    }
  }

  function FirstDeltaDivergence(heights: seq<HeightOutcome>, pool: Pool): Option<nat> {
    FindIndex(heights, (row: HeightOutcome) => row.DeltaAgreement(pool).Differs?)
  }

  function FirstBalanceDivergence(heights: seq<HeightOutcome>, pool: Pool): Option<nat> {
    FindIndex(heights, (row: HeightOutcome) => row.BalanceAgreement(pool).Differs?)
  }

  /** The agreement of one row is that of its figures. */
  lemma RowAgreements(
    ledgers: seq<BlockLedger>, interval: HeightInterval, anchor: AnchorBalances, reported: Reports, pool: Pool, i: nat)
    requires Reconcilable(ledgers, anchor) && IsReconstructed(pool) && i < |ledgers|
    requires TelescopesAt(ledgers, anchor, reported, pool, i)
    ensures var row := OutcomeOf(ledgers, interval, anchor, reported).heights[i];
            && (row.DeltaAgreement(pool).Differs? <==> !DeltaMatches(ledgers, reported, pool, i))
            && (row.BalanceAgreement(pool).Differs? <==> !BalanceMatches(ledgers, anchor, reported, pool, i))
  {
    hide Balance;
    assert OutcomeOf(ledgers, interval, anchor, reported).heights[i] == RowOf(ledgers, anchor, reported, i);
    assert pool == Orchard || pool == Ironwood;
  }

  lemma FirstsCoincide(heights: seq<HeightOutcome>, pool: Pool, n: nat)
    requires n <= |heights|
    requires forall i | 0 <= i < n ::
               !heights[i].DeltaAgreement(pool).Differs? && !heights[i].BalanceAgreement(pool).Differs?
    requires n < |heights| ==>
               heights[n].DeltaAgreement(pool).Differs? && heights[n].BalanceAgreement(pool).Differs?
    ensures FirstDeltaDivergence(heights, pool) == FirstBalanceDivergence(heights, pool)
  {
    hide HeightOutcome.DeltaAgreement, HeightOutcome.BalanceAgreement;
  }

  /** A divergence is localised to one block by either axis: the first row whose delta differs is the
      first row whose balance differs, and with no delta divergence the balances cannot fail. */
  lemma DivergenceIsLocalised(
    ledgers: seq<BlockLedger>, interval: HeightInterval, anchor: AnchorBalances, reported: Reports, pool: Pool)
    requires Reconcilable(ledgers, anchor) && IsReconstructed(pool)
    requires Telescopes(ledgers, anchor, reported, pool)
    ensures var heights := OutcomeOf(ledgers, interval, anchor, reported).heights;
            FirstDeltaDivergence(heights, pool) == FirstBalanceDivergence(heights, pool)
  {
    var heights := OutcomeOf(ledgers, interval, anchor, reported).heights;
    assert |heights| == |ledgers|;
    var delta := FirstDeltaDivergence(heights, pool);
    var n := if delta.Some? then delta.value else |ledgers|;
    hide OutcomeOf, Reconcilable, DeltaMatches, BalanceMatches, TelescopesAt, HeightOutcome.DeltaAgreement;
    hide HeightOutcome.BalanceAgreement, FirstBalanceDivergence;
    forall i | 0 <= i < |ledgers|
      ensures heights[i].DeltaAgreement(pool).Differs? <==> !DeltaMatches(ledgers, reported, pool, i)
      ensures heights[i].BalanceAgreement(pool).Differs? <==> !BalanceMatches(ledgers, anchor, reported, pool, i)
    {
      RowAgreements(ledgers, interval, anchor, reported, pool, i);
    }
    AgreeingDeltasTelescope(ledgers, anchor, reported, pool, n);
    if n < |ledgers| {
      AxesAgreeAt(ledgers, anchor, reported, pool, n);
    }
    FirstsCoincide(heights, pool, n);
  }

  /** Every balance of a pool, declared or reported, is raised by the same constant. */
  ghost predicate Shifted(
    anchor: AnchorBalances, reported: Reports, anchor': AnchorBalances, reported': Reports, pool: Pool, shift: int)
  {
    && anchor'.Balance(pool) as int == anchor.Balance(pool) + shift
    && forall height: u32 ::
         && ReportedDelta(reported', height, pool) == ReportedDelta(reported, height, pool)
         && (ReportedBalance(reported', height, pool).Some? <==> ReportedBalance(reported, height, pool).Some?)
         && (ReportedBalance(reported, height, pool).Some? ==>
               ReportedBalance(reported', height, pool).value as int
               == ReportedBalance(reported, height, pool).value + shift)
  }

  /** Only changes are compared: a constant added to the anchor and to every reported balance alters
      no agreement, no flow and no cumulative delta. */
  lemma ShiftChangesNoVerdict(
    ledgers: seq<BlockLedger>, interval: HeightInterval, anchor: AnchorBalances, reported: Reports,
    anchor': AnchorBalances, reported': Reports, byOrchard: int, byIronwood: int)
    requires Reconcilable(ledgers, anchor) && Reconcilable(ledgers, anchor')
    requires Shifted(anchor, reported, anchor', reported', Orchard, byOrchard)
    requires Shifted(anchor, reported, anchor', reported', Ironwood, byIronwood)
    ensures var before, after :=
              OutcomeOf(ledgers, interval, anchor, reported), OutcomeOf(ledgers, interval, anchor', reported');
            && |before.heights| == |after.heights|
            && (forall i, pool | 0 <= i < |before.heights| ::
                  && before.heights[i].BalanceAgreement(pool) == after.heights[i].BalanceAgreement(pool)
                  && before.heights[i].DeltaAgreement(pool) == after.heights[i].DeltaAgreement(pool))
            && before.flows == after.flows
            && before.cumulativeOrchard == after.cumulativeOrchard
            && before.cumulativeIronwood == after.cumulativeIronwood
            && DivergentHeights(before.heights) == DivergentHeights(after.heights)
  {
    var before, after :=
      OutcomeOf(ledgers, interval, anchor, reported), OutcomeOf(ledgers, interval, anchor', reported');
    forall i | 0 <= i < |ledgers|
      ensures forall pool ::
                && before.heights[i].BalanceAgreement(pool) == after.heights[i].BalanceAgreement(pool)
                && before.heights[i].DeltaAgreement(pool) == after.heights[i].DeltaAgreement(pool)
      ensures before.heights[i].height == after.heights[i].height
    {
      assert before.heights[i] == RowOf(ledgers, anchor, reported, i);
      assert after.heights[i] == RowOf(ledgers, anchor', reported', i);
    }
    SameDivergence(before.heights, after.heights);
  }

  lemma {:induction false} SameDivergence(a: seq<HeightOutcome>, b: seq<HeightOutcome>)
    requires |a| == |b|
    requires forall i | 0 <= i < |a| :: a[i].height == b[i].height
    requires forall i, pool | 0 <= i < |a| ::
               && a[i].BalanceAgreement(pool) == b[i].BalanceAgreement(pool)
               && a[i].DeltaAgreement(pool) == b[i].DeltaAgreement(pool)
    ensures DivergentHeights(a) == DivergentHeights(b)
  {
    if a != [] {
      SameDivergence(a[..|a| - 1], b[..|b| - 1]);
    }
  }
}
