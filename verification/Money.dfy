/** Checked zatoshi arithmetic and the sign convention of ZIP 209. */
module Money {
  import opened Wrappers

  type Zatoshi = i64

  const MAX_MONEY: i64 := 21_000_000 * 100_000_000

  predicate InMoneyRange(v: int) {
    -MAX_MONEY <= v <= MAX_MONEY
  }

  predicate InI64(v: int) {
    I64_MIN <= v <= I64_MAX
  }

  lemma InI64Exact(v: int)
    ensures InI64(v) <==> -9_223_372_036_854_775_808 <= v <= 9_223_372_036_854_775_807
  {
  }

  function NewChecked(value: i64): Result<Zatoshi> {
    if !InMoneyRange(value) then Err(ValueOutOfBounds(value)) else Ok(value)
  }

  function CheckedAdd(a: Zatoshi, b: Zatoshi): Result<Zatoshi> {
    if InI64(a + b) then Ok(a + b) else Err(ArithmeticOverflow)
  }

  function CheckedNeg(a: Zatoshi): Result<Zatoshi> {
    if a == I64_MIN then Err(ArithmeticOverflow) else Ok(-a)
  }

  /** Sums with overflow checking at every step. */
  function TrySum(values: seq<Zatoshi>): Result<Zatoshi> {
    TryFold(0, values)
  }

  function TryFold(acc: Zatoshi, values: seq<Zatoshi>): Result<Zatoshi>
    decreases |values|
  {
    if values == [] then Ok(acc)
    else
      var next :- CheckedAdd(acc, values[0]);
      TryFold(next, values[1..])
  }

  /** Converts a bundle's value balance into a pool delta; the only negation in the pipeline. */
  function PoolDelta(valueBalance: i64): Result<Zatoshi> {
    var checked :- NewChecked(valueBalance);
    CheckedNeg(checked)
  }

  // ---- Unbounded integer sums, the reference the checked forms are compared with ----

  /** Sum of the first `k` values. */
  ghost function SumTo(values: seq<int>, k: nat): int
    requires k <= |values|
  {
    if k == 0 then 0 else SumTo(values, k - 1) + values[k - 1]
  }

  ghost function Sum(values: seq<int>): int {
    SumTo(values, |values|)
  }

  lemma {:induction false} SumToPrefix(a: seq<int>, b: seq<int>, k: nat)
    requires k <= |a| && k <= |b| && a[..k] == b[..k]
    ensures SumTo(a, k) == SumTo(b, k)
  {
    if k > 0 {
      assert a[k - 1] == a[..k][k - 1] == b[k - 1];
      assert a[..k - 1] == a[..k][..k - 1] == b[..k - 1];
      SumToPrefix(a, b, k - 1);
    }
  }

  lemma {:induction false} SumToConcat(a: seq<int>, b: seq<int>, k: nat)
    requires k <= |b|
    ensures SumTo(a + b, |a| + k) == Sum(a) + SumTo(b, k)
  {
    if k == 0 {
      SumToPrefix(a + b, a, |a|);
    } else {
      SumToConcat(a, b, k - 1);
    }
  }

  lemma {:induction false} SumToBound(values: seq<int>, k: nat, bound: int)
    requires bound >= 0
    requires k <= |values|
    requires forall i | 0 <= i < k :: -bound <= values[i] <= bound
    ensures -(k * bound) <= SumTo(values, k) <= k * bound
  {
    if k > 0 {
      SumToBound(values, k - 1, bound);
      assert k * bound == (k - 1) * bound + bound;
    }
  }

  ghost function Without(values: seq<int>, i: nat): seq<int>
    requires i < |values|
  {
    values[..i] + values[i + 1..]
  }

  lemma {:induction false} SumWithout(values: seq<int>, i: nat)
    requires i < |values|
    ensures Sum(values) == Sum(Without(values, i)) + values[i]
    ensures multiset(Without(values, i)) == multiset(values) - multiset{values[i]}
  {
    var before, after := values[..i], values[i + 1..];
    assert values == before + [values[i]] + after;
    SumToConcat(before, after, |after|);
    SumToConcat(before + [values[i]], after, |after|);
    SumToConcat(before, [values[i]], 1);
    assert SumTo([values[i]], 1) == SumTo([values[i]], 0) + values[i];
  }

  /** A sum depends only on which values occur and how often, not on their order. */
  lemma {:induction false} SumIsOrderIndependent(a: seq<int>, b: seq<int>)
    requires multiset(a) == multiset(b)
    ensures Sum(a) == Sum(b)
    decreases |a|
  {
    assert |a| == |multiset(a)| == |multiset(b)| == |b|;
    if |a| > 0 {
      assert a[0] in multiset(b);
      var i :| 0 <= i < |b| && b[i] == a[0];
      SumWithout(a, 0);
      SumWithout(b, i);
      SumIsOrderIndependent(Without(a, 0), Without(b, i));
    }
  }

  // ---- Laws ----

  /** The sign convention: in range it is negation, out of range the field itself is reported.
      The bounds check is what makes the negation total. */
  lemma PoolDeltaExact(valueBalance: i64)
    ensures PoolDelta(valueBalance) ==
            if InMoneyRange(valueBalance) then Ok(-valueBalance) else Err(ValueOutOfBounds(valueBalance))
    ensures PoolDelta(valueBalance).Ok? ==> PoolDelta(PoolDelta(valueBalance).value) == Ok(valueBalance)
  {
  }

  ghost predicate PrefixesFit(values: seq<int>) {
    forall k | 0 <= k <= |values| :: InI64(SumTo(values, k))
  }

  lemma {:induction false} TryFoldExact(acc: Zatoshi, done: seq<Zatoshi>, values: seq<Zatoshi>)
    requires acc == Sum(done)
    requires forall k | 0 <= k <= |done| :: InI64(SumTo(done + values, k))
    ensures TryFold(acc, values) ==
            if PrefixesFit(done + values) then Ok(Sum(done + values)) else Err(ArithmeticOverflow)
    decreases |values|
  {
    if values == [] {
      assert done + values == done;
    } else {
      var v := values[0];
      SumToConcat(done, values, 1);
      assert SumTo(values, 1) == SumTo(values, 0) + v;
      assert SumTo(done + values, |done| + 1) == acc + v;
      if InI64(acc + v) {
        assert (done + [v]) + values[1..] == done + values;
        SumToPrefix(done + [v], done + values, |done| + 1);
        TryFoldExact(acc + v, done + [v], values[1..]);
      }
    }
  }

  /** `try_sum` is the integer sum exactly when no running total leaves 64 bits, and an overflow
      error otherwise. */
  lemma TrySumExact(values: seq<Zatoshi>)
    ensures TrySum(values) == if PrefixesFit(values) then Ok(Sum(values)) else Err(ArithmeticOverflow)
  {
    assert [] + values == values;
    TryFoldExact(0, [], values);
  }

  /** Values that `PoolDelta` can produce. */
  ghost predicate AreDeltas(values: seq<Zatoshi>) {
    forall i | 0 <= i < |values| :: exists balance: i64 :: PoolDelta(balance) == Ok(values[i])
  }

  const SAFE_BLOCK_TRANSACTIONS: nat := 4392

  /** A block of at most 4392 transactions sums to its integer total in every order of them. */
  lemma BlockSumIsExact(values: seq<Zatoshi>, reordered: seq<Zatoshi>)
    requires AreDeltas(values) && |values| <= SAFE_BLOCK_TRANSACTIONS
    requires multiset(values) == multiset(reordered)
    ensures TrySum(values) == Ok(Sum(values)) == TrySum(reordered)
  {
    assert |values| == |multiset(values)| == |reordered|;
    forall i | 0 <= i < |reordered|
      ensures InMoneyRange(reordered[i])
    {
      assert reordered[i] in multiset(values);
    }
    PrefixesOfDeltasFit(values);
    PrefixesOfDeltasFit(reordered);
    TrySumExact(values);
    TrySumExact(reordered);
    SumIsOrderIndependent(values, reordered);
  }

  lemma PrefixesOfDeltasFit(values: seq<Zatoshi>)
    requires forall i | 0 <= i < |values| :: InMoneyRange(values[i])
    requires |values| <= SAFE_BLOCK_TRANSACTIONS
    ensures PrefixesFit(values)
  {
    forall k: nat | k <= |values|
      ensures InI64(SumTo(values, k))
    {
      SumToBound(values, k, MAX_MONEY);
      assert k * MAX_MONEY <= SAFE_BLOCK_TRANSACTIONS * MAX_MONEY;
    }
  }

  ghost predicate NeverOverflows(transactions: nat) {
    forall values: seq<Zatoshi> | |values| == transactions && AreDeltas(values) :: TrySum(values).Ok?
  }

  /** 4392 is the largest block for which overflow is impossible: one more transaction and some
      block of in-range value balances is refused. */
  lemma BlockSumBoundIsTight(transactions: nat)
    ensures NeverOverflows(transactions) <==> transactions <= SAFE_BLOCK_TRANSACTIONS
  {
    if transactions <= SAFE_BLOCK_TRANSACTIONS {
      forall values: seq<Zatoshi> | |values| == transactions && AreDeltas(values)
        ensures TrySum(values).Ok?
      {
        BlockSumIsExact(values, values);
      }
    } else {
      var values: seq<Zatoshi> := seq(transactions, i => MAX_MONEY);
      assert AreDeltas(values) by {
        assert PoolDelta(-MAX_MONEY) == Ok(MAX_MONEY);
      }
      ConstantSum(values, SAFE_BLOCK_TRANSACTIONS + 1);
      assert !InI64(SumTo(values, SAFE_BLOCK_TRANSACTIONS + 1));
      TrySumExact(values);
    }
  }

  lemma {:induction false} ConstantSum(values: seq<Zatoshi>, k: nat)
    requires k <= |values|
    requires forall i | 0 <= i < k :: values[i] == MAX_MONEY
    ensures SumTo(values, k) == k * MAX_MONEY
  {
    if k > 0 {
      ConstantSum(values, k - 1);
    }
  }
}
