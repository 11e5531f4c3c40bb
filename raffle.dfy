/** The raffle script: it loads the `holders` table page by page, aggregates each row into a
    total holding, draws weighted winners with replacement and formats amounts for display. */
module Raffle {
  import opened Types
  import opened Decimal

  /** Rows fetched per `SELECT ... LIMIT ? OFFSET ?` query. */
  const PAGE_SIZE: nat := 1000

  /** `BigInt(10 ** 18)`: the base units in one whole token. */
  const WEI_PER_TOKEN: nat := 1_000_000_000_000_000_000

  // ---------------------------------------------------------------------------------------
  // Parsing and aggregation

  /** `convertToBigint`: the empty string is zero; any other string is handed to `BigInt`,
      which yields its value for decimal digits and throws (None here) otherwise. */
  function ConvertToBigint(value: string): (r: Option<nat>)
    ensures value == "" ==> r == Some(0)
    ensures r.Some? <==> IsDigits(value)
    ensures r.Some? && value != "" ==> r.value == DigitsValue(value)
  {
    if value == "" then Some(0)
    else if IsDigits(value) then Some(DigitsValue(value))
    else None
  }

  /** Whatever `toString()` writes for a non-negative amount parses back to that amount. */
  lemma ConvertToBigintRoundTrip(n: nat)
    ensures ConvertToBigint(ToDecimal(n)) == Some(n)
  {
    DigitsValueOfToDecimal(n);
  }

  /** A string parses to `n` exactly when it is '' (for zero) or a decimal spelling of `n`;
      among canonical spellings the one `toString()` writes is the only one. */
  lemma ConvertToBigintCanonical(s: string, n: nat)
    requires IsCanonical(s)
    ensures ConvertToBigint(s) == Some(n) <==> s == ToDecimal(n)
  {
    ToDecimalOfDigitsValue(s);
    DigitsValueOfToDecimal(n);
  }

  /** The aggregation of one table row (the callback of `qsResult.map`); None when one of
      its columns makes `BigInt` throw. */
  function AggregateRow(row: HolderDTO): (r: Option<TotalTokenHolder>)
    ensures r.Some? <==>
      ConvertToBigint(row.ar).Some? && ConvertToBigint(row.aistr).Some? && ConvertToBigint(row.alch).Some?
    ensures r.Some? ==>
      && r.value.address == row.address
      && Some(r.value.ar) == ConvertToBigint(row.ar)
      && Some(r.value.aistr) == ConvertToBigint(row.aistr)
      && Some(r.value.alch) == ConvertToBigint(row.alch)
      && r.value.total == r.value.ar + r.value.aistr + r.value.alch
  {
    match (ConvertToBigint(row.ar), ConvertToBigint(row.aistr), ConvertToBigint(row.alch))
    case (Some(ar), Some(aistr), Some(alch)) =>
      Some(TotalTokenHolder(row.address, ar + aistr + alch, ar, aistr, alch))
    case _ => None
  }

  // ---------------------------------------------------------------------------------------
  // Paging

  /** `SELECT * FROM holders LIMIT limit OFFSET offset` over the table in scan order. */
  function Page(rows: seq<HolderDTO>, limit: nat, offset: nat): (r: seq<HolderDTO>)
    ensures |r| == if offset >= |rows| then 0 else if offset + limit <= |rows| then limit else |rows| - offset
    ensures forall i :: 0 <= i < |r| ==> r[i] == rows[offset + i]
  {
    if offset >= |rows| then []
    else if offset + limit <= |rows| then rows[offset..offset + limit]
    else rows[offset..]
  }

  /** The concatenation of the pages the loop reads from page number `page` on, up to and
      excluding the first empty one: the rows from offset `page * PAGE_SIZE` on, so that from
      page 0 the pages cover the whole table. */
  function PagesFrom(rows: seq<HolderDTO>, page: nat): (r: seq<HolderDTO>)
    ensures page * PAGE_SIZE <= |rows| ==> r == rows[page * PAGE_SIZE..]
    ensures page * PAGE_SIZE >= |rows| ==> r == []
    decreases |rows| - page * PAGE_SIZE
  {
    var offset := page * PAGE_SIZE;
    var p := Page(rows, PAGE_SIZE, offset);
    if p == [] then []
    else
      var rest := PagesFrom(rows, page + 1);
      assert offset + PAGE_SIZE <= |rows| ==>
        rows[offset..] == rows[offset..offset + PAGE_SIZE] + rows[offset + PAGE_SIZE..];
      p + rest
  }

  /** Every row of the table parses. */
  predicate AllRowsParse(rows: seq<HolderDTO>)
  {
    forall i :: 0 <= i < |rows| ==> AggregateRow(rows[i]).Some?
  }

  /** The paging loop of the raffle script: read pages until one is empty and push one
      aggregated holder per row. None models the `SyntaxError` a malformed column raises. */
  method LoadHolders(rows: seq<HolderDTO>) returns (r: Option<seq<TotalTokenHolder>>)
    ensures r.Some? <==> AllRowsParse(rows)
    ensures r.Some? ==> |r.value| == |rows|
    ensures r.Some? ==> forall i :: 0 <= i < |rows| ==> Some(r.value[i]) == AggregateRow(rows[i])
  {
    var page: nat := 0;
    var holders: seq<TotalTokenHolder> := [];
    while true
      invariant page * PAGE_SIZE <= |rows| || (page > 0 && (page - 1) * PAGE_SIZE < |rows|)
      invariant |holders| == if page * PAGE_SIZE <= |rows| then page * PAGE_SIZE else |rows|
      invariant forall i :: 0 <= i < |holders| ==> Some(holders[i]) == AggregateRow(rows[i])
      decreases |rows| + PAGE_SIZE - page * PAGE_SIZE
    {
      var qsResult := Page(rows, PAGE_SIZE, page * PAGE_SIZE);
      if |qsResult| == 0 {
        break;
      }
      ghost var done := |holders|;
      for j := 0 to |qsResult|
        invariant |holders| == done + j
        invariant forall i :: 0 <= i < |holders| ==> Some(holders[i]) == AggregateRow(rows[i])
      {
        assert qsResult[j] == rows[done + j];
        var h := AggregateRow(qsResult[j]);
        if h.None? {
          return None;
        }
        holders := holders + [h.value];
      }
      page := page + 1;
    }
    return Some(holders);
  }

  // ---------------------------------------------------------------------------------------
  // Weighted draw

  /** The sum of `total` over `holders`, folded from the left as `holders.reduce` does. */
  function TotalOf(holders: seq<TotalTokenHolder>): nat
  {
    if holders == [] then 0 else TotalOf(holders[..|holders| - 1]) + holders[|holders| - 1].total
  }

  /** The total weight is zero exactly when every holder's total is zero; then every draw is 0
      and, by WinnersOutOfRange, no holder wins. */
  lemma {:induction false} TotalOfZero(holders: seq<TotalTokenHolder>)
    ensures TotalOf(holders) == 0 <==> forall i :: 0 <= i < |holders| ==> holders[i].total == 0
  {
    if holders != [] {
      var init := holders[..|holders| - 1];
      TotalOfZero(init);
      assert forall i :: 0 <= i < |init| ==> init[i] == holders[i];
    }
  }

  /** The weight of the holders before index `i`: where holder `i`'s interval starts. */
  function Prefix(holders: seq<TotalTokenHolder>, i: nat): nat
    requires i <= |holders|
  {
    TotalOf(holders[..i])
  }

  lemma PrefixStep(holders: seq<TotalTokenHolder>, i: nat)
    requires i < |holders|
    ensures Prefix(holders, i + 1) == Prefix(holders, i) + holders[i].total
  {
    assert holders[..i + 1][..i] == holders[..i];
  }

  lemma {:induction false} PrefixMonotone(holders: seq<TotalTokenHolder>, i: nat, j: nat)
    requires i <= j <= |holders|
    ensures Prefix(holders, i) <= Prefix(holders, j)
    decreases j - i
  {
    if i < j {
      PrefixStep(holders, i);
      PrefixMonotone(holders, i + 1, j);
    }
  }

  /** Draw `r` falls in holder `i`'s cumulative interval [Prefix(i), Prefix(i) + total). */
  predicate InInterval(holders: seq<TotalTokenHolder>, r: nat, i: nat)
  {
    i < |holders| && Prefix(holders, i) <= r < Prefix(holders, i) + holders[i].total
  }

  /** `totalTokens = holders.reduce((sum, holder) => sum + holder.total, 0n)`. */
  method TotalTokens(holders: seq<TotalTokenHolder>) returns (totalTokens: nat)
    ensures totalTokens == TotalOf(holders)
    ensures forall i :: 0 <= i < |holders| ==> holders[i].total <= totalTokens
  {
    totalTokens := 0;
    for k := 0 to |holders|
      invariant totalTokens == Prefix(holders, k)
    {
      PrefixStep(holders, k);
      totalTokens := totalTokens + holders[k].total;
    }
    assert holders[..|holders|] == holders;
    forall i | 0 <= i < |holders|
      ensures holders[i].total <= totalTokens
    {
      PrefixStep(holders, i);
      PrefixMonotone(holders, i + 1, |holders|);
    }
  }

  /** The inner scan from index `k` with `rest` left of the draw: the index of the holder
      it pushes, or None when it runs off the end. */
  function ScanFrom(holders: seq<TotalTokenHolder>, k: nat, rest: nat): (r: Option<nat>)
    requires k <= |holders|
    ensures r.Some? ==> k <= r.value < |holders| && holders[r.value].total > 0
    decreases |holders| - k
  {
    if k == |holders| then None
    else if rest < holders[k].total then Some(k)
    else ScanFrom(holders, k + 1, rest - holders[k].total)
  }

  /** The index of the winner of draw `r`, if any. */
  function Pick(holders: seq<TotalTokenHolder>, r: nat): (i: Option<nat>)
    ensures i.Some? ==> i.value < |holders| && holders[i.value].total > 0
  {
    ScanFrom(holders, 0, r)
  }

  lemma {:induction false} ScanFromSound(holders: seq<TotalTokenHolder>, k: nat, rest: nat, r: nat)
    requires k <= |holders| && r == Prefix(holders, k) + rest
    ensures ScanFrom(holders, k, rest).Some? ==> InInterval(holders, r, ScanFrom(holders, k, rest).value)
    ensures ScanFrom(holders, k, rest).None? ==> r >= Prefix(holders, |holders|)
    decreases |holders| - k
  {
    if k < |holders| && rest >= holders[k].total {
      PrefixStep(holders, k);
      ScanFromSound(holders, k + 1, rest - holders[k].total, r);
    }
  }

  /** The scan picks a holder exactly when the draw is below the total weight, and the holder
      it picks is one whose cumulative interval contains the draw. */
  lemma PickSpec(holders: seq<TotalTokenHolder>, r: nat)
    ensures Pick(holders, r).Some? <==> r < Prefix(holders, |holders|)
    ensures Pick(holders, r).Some? ==> InInterval(holders, r, Pick(holders, r).value)
  {
    ScanFromSound(holders, 0, r, r);
    if Pick(holders, r).Some? {
      var i := Pick(holders, r).value;
      PrefixStep(holders, i);
      PrefixMonotone(holders, i + 1, |holders|);
    }
  }

  /** The cumulative intervals are disjoint, so at most one holder's interval contains a draw. */
  lemma IntervalUnique(holders: seq<TotalTokenHolder>, r: nat, i: nat, j: nat)
    requires InInterval(holders, r, i) && InInterval(holders, r, j)
    ensures i == j
  {
    if i < j {
      PrefixStep(holders, i);
      PrefixMonotone(holders, i + 1, j);
    } else if j < i {
      PrefixStep(holders, j);
      PrefixMonotone(holders, j + 1, i);
    }
  }

  /** The holder the scan picks is the unique one whose interval contains the draw; in
      particular a holder of weight zero (an empty interval) is never picked. */
  lemma PickIsIntervalOwner(holders: seq<TotalTokenHolder>, r: nat, i: nat)
    ensures Pick(holders, r) == Some(i) <==> InInterval(holders, r, i)
  {
    PickSpec(holders, r);
    if InInterval(holders, r, i) {
      PrefixMonotone(holders, i + 1, |holders|);
      PrefixStep(holders, i);
      IntervalUnique(holders, r, i, Pick(holders, r).value);
    }
  }

  /** The winners the selection pushes for the draws `draws`, one draw per iteration. */
  function Winners(holders: seq<TotalTokenHolder>, draws: seq<nat>): (r: seq<TotalTokenHolder>)
    ensures |r| <= |draws|
  {
    if draws == [] then []
    else
      var last := Pick(holders, draws[|draws| - 1]);
      Winners(holders, draws[..|draws| - 1]) + (if last.Some? then [holders[last.value]] else [])
  }

  /** `weightedRandomSelection`, with `draws[i]` the value the source derives from
      `Math.random()` in iteration `i`. Holders are never removed, so a holder can win
      more than once. */
  method WeightedRandomSelection(holders: seq<TotalTokenHolder>, numWinners: nat, draws: seq<nat>)
    returns (winners: seq<TotalTokenHolder>)
    requires |draws| == numWinners
    ensures winners == Winners(holders, draws)
    ensures |winners| <= numWinners
    ensures forall w :: w in winners ==> w in holders && w.total > 0
  {
    winners := [];
    for i := 0 to numWinners
      invariant winners == Winners(holders, draws[..i])
    {
      var randomValue: nat := draws[i];
      var k := 0;
      while k < |holders|
        invariant k <= |holders|
        invariant ScanFrom(holders, k, randomValue) == Pick(holders, draws[i])
      {
        if randomValue < holders[k].total {
          break;
        }
        randomValue := randomValue - holders[k].total;
        k := k + 1;
      }
      assert draws[..i + 1][..i] == draws[..i];
      if k < |holders| {
        winners := winners + [holders[k]];
      }
    }
    assert draws[..numWinners] == draws;
    WinnersCount(holders, draws);
    WinnersAreWeightedHolders(holders, draws);
  }

  /** At most one winner per draw; every draw below the total weight yields one. */
  lemma {:induction false} WinnersCount(holders: seq<TotalTokenHolder>, draws: seq<nat>)
    ensures |Winners(holders, draws)| <= |draws|
    ensures (forall i :: 0 <= i < |draws| ==> draws[i] < TotalOf(holders)) ==>
      |Winners(holders, draws)| == |draws|
  {
    if draws != [] {
      var init := draws[..|draws| - 1];
      WinnersCount(holders, init);
      PickSpec(holders, draws[|draws| - 1]);
      assert holders[..|holders|] == holders;
      ScanFromSound(holders, 0, draws[|draws| - 1], draws[|draws| - 1]);
    }
  }

  /** Draws at or above the total weight add no winner. */
  lemma {:induction false} WinnersOutOfRange(holders: seq<TotalTokenHolder>, draws: seq<nat>)
    requires forall i :: 0 <= i < |draws| ==> draws[i] >= TotalOf(holders)
    ensures Winners(holders, draws) == []
  {
    if draws != [] {
      WinnersOutOfRange(holders, draws[..|draws| - 1]);
      assert holders[..|holders|] == holders;
      PickSpec(holders, draws[|draws| - 1]);
    }
  }

  /** Every winner is one of the holders and has positive weight. */
  lemma {:induction false} WinnersAreWeightedHolders(holders: seq<TotalTokenHolder>, draws: seq<nat>)
    ensures forall w :: w in Winners(holders, draws) ==> w in holders && w.total > 0
  {
    if draws != [] {
      WinnersAreWeightedHolders(holders, draws[..|draws| - 1]);
      PickSpec(holders, draws[|draws| - 1]);
    }
  }

  /** Winner `k` of the list is the holder whose interval contains the draw that produced it:
      the winners are, in draw order, the interval owners of the in-range draws. */
  lemma {:induction false} WinnersAppend(holders: seq<TotalTokenHolder>, draws: seq<nat>, r: nat)
    ensures r < TotalOf(holders) ==>
      exists i: nat :: InInterval(holders, r, i) && Winners(holders, draws + [r]) == Winners(holders, draws) + [holders[i]]
    ensures r >= TotalOf(holders) ==> Winners(holders, draws + [r]) == Winners(holders, draws)
  {
    var ds := draws + [r];
    assert ds[..|ds| - 1] == draws;
    assert holders[..|holders|] == holders;
    PickSpec(holders, r);
  }

  /** Sampling is with replacement: one holder can win every draw. */
  lemma ReplacementAllowed(h: TotalTokenHolder)
    requires h.total > 0
    ensures Winners([h], [0, 0]) == [h, h]
  {
    var ds: seq<nat> := [0, 0];
    assert Pick([h], 0) == Some(0);
    assert ds[..1] == [0] && Winners([h], [0]) == [h];
  }

  // ---------------------------------------------------------------------------------------
  // Display

  /** `formatBigint`: the amount in whole tokens, rounded down, written in decimal. */
  function FormatBigint(value: nat): (s: string)
    ensures IsCanonical(s)
    ensures DigitsValue(s) * WEI_PER_TOKEN <= value < (DigitsValue(s) + 1) * WEI_PER_TOKEN
  {
    DigitsValueOfToDecimal(value / WEI_PER_TOKEN);
    ToDecimal(value / WEI_PER_TOKEN)
  }
}
