/** What the raffle script reads back from the table the ingestion script writes. */
module Pipeline {
  import opened Types
  import opened Decimal
  import Fetch
  import Raffle

  /** `rows` is what `SELECT *` returns over `table`: every row once, in some order. */
  predicate IsScanOf(rows: seq<HolderDTO>, table: map<string, Fetch.Row>)
  {
    && |rows| == |table|
    && (forall i, j :: 0 <= i < j < |rows| ==> rows[i].address != rows[j].address)
    && (forall i :: 0 <= i < |rows| ==>
          rows[i].address in table && table[rows[i].address] == Fetch.Row(rows[i].ar, rows[i].aistr, rows[i].alch))
  }

  /** A table whose every column is '' or a written amount loads without a parse error. */
  lemma WellFormedTableLoads(table: map<string, Fetch.Row>, rows: seq<HolderDTO>)
    requires Fetch.WellFormed(table) && IsScanOf(rows, table)
    ensures Raffle.AllRowsParse(rows)
  {
    forall i | 0 <= i < |rows|
      ensures Raffle.AggregateRow(rows[i]).Some?
    {
      var row := table[rows[i].address];
      assert Fetch.Column(row, Ar) == rows[i].ar;
      assert Fetch.Column(row, Aistr) == rows[i].aistr;
      assert Fetch.Column(row, Alch) == rows[i].alch;
    }
  }

  function AmountOrZero(o: Option<nat>): nat
  {
    if o.Some? then o.value else 0
  }

  /** The table after the three ingestion passes (AR, then AISTR, then ALCH) into an empty table;
      it always loads. */
  function Ingested(ar: seq<Holder>, aistr: seq<Holder>, alch: seq<Holder>): (t: map<string, Fetch.Row>)
    ensures Fetch.WellFormed(t)
  {
    var t0: map<string, Fetch.Row> := map[];
    var t1 := Fetch.UpsertAll(t0, ar, Ar);
    var t2 := Fetch.UpsertAll(t1, aistr, Aistr);
    Fetch.UpsertAllWellFormed(t0, ar, Ar);
    Fetch.UpsertAllWellFormed(t1, aistr, Aistr);
    Fetch.UpsertAllWellFormed(t2, alch, Alch);
    Fetch.UpsertAll(t2, alch, Alch)
  }

  /** The column of `token` in `a`'s row after the three passes holds the last non-zero
      amount the pass of that token wrote for `a`, or '' when it wrote none. */
  lemma {:induction false} IngestedColumn(ar: seq<Holder>, aistr: seq<Holder>, alch: seq<Holder>, a: string)
    requires a in Ingested(ar, aistr, alch)
    ensures Fetch.Column(Ingested(ar, aistr, alch)[a], Ar) ==
      if Fetch.LastAmount(ar, a, Ar).Some? then ToDecimal(Fetch.LastAmount(ar, a, Ar).value) else ""
    ensures Fetch.Column(Ingested(ar, aistr, alch)[a], Aistr) ==
      if Fetch.LastAmount(aistr, a, Aistr).Some? then ToDecimal(Fetch.LastAmount(aistr, a, Aistr).value) else ""
    ensures Fetch.Column(Ingested(ar, aistr, alch)[a], Alch) ==
      if Fetch.LastAmount(alch, a, Alch).Some? then ToDecimal(Fetch.LastAmount(alch, a, Alch).value) else ""
  {
    var t0: map<string, Fetch.Row> := map[];
    var t1 := Fetch.UpsertAll(t0, ar, Ar);
    var t2 := Fetch.UpsertAll(t1, aistr, Aistr);
    var t3 := Fetch.UpsertAll(t2, alch, Alch);
    Fetch.UpsertAllAt(t0, ar, Ar, a);
    Fetch.UpsertAllAt(t1, aistr, Aistr, a);
    Fetch.UpsertAllAt(t2, alch, Alch, a);
  }

  /** End to end: every row the raffle script aggregates from the ingested table carries, for
      each token, the last non-zero amount ingested for its address (0 when none), and their sum. */
  lemma IngestedAggregates(ar: seq<Holder>, aistr: seq<Holder>, alch: seq<Holder>, rows: seq<HolderDTO>, i: nat)
    requires IsScanOf(rows, Ingested(ar, aistr, alch)) && i < |rows|
    ensures Raffle.AggregateRow(rows[i]).Some?
    ensures Raffle.AggregateRow(rows[i]).value.ar == AmountOrZero(Fetch.LastAmount(ar, rows[i].address, Ar))
    ensures Raffle.AggregateRow(rows[i]).value.aistr == AmountOrZero(Fetch.LastAmount(aistr, rows[i].address, Aistr))
    ensures Raffle.AggregateRow(rows[i]).value.alch == AmountOrZero(Fetch.LastAmount(alch, rows[i].address, Alch))
    ensures Raffle.AggregateRow(rows[i]).value.total ==
      AmountOrZero(Fetch.LastAmount(ar, rows[i].address, Ar)) + AmountOrZero(Fetch.LastAmount(aistr, rows[i].address, Aistr))
        + AmountOrZero(Fetch.LastAmount(alch, rows[i].address, Alch))
  {
    var a := rows[i].address;
    IngestedColumn(ar, aistr, alch, a);
    var row := Ingested(ar, aistr, alch)[a];
    assert Fetch.Column(row, Ar) == rows[i].ar;
    assert Fetch.Column(row, Aistr) == rows[i].aistr;
    assert Fetch.Column(row, Alch) == rows[i].alch;
    if Fetch.LastAmount(ar, a, Ar).Some? { Raffle.ConvertToBigintRoundTrip(Fetch.LastAmount(ar, a, Ar).value); }
    if Fetch.LastAmount(aistr, a, Aistr).Some? { Raffle.ConvertToBigintRoundTrip(Fetch.LastAmount(aistr, a, Aistr).value); }
    if Fetch.LastAmount(alch, a, Alch).Some? { Raffle.ConvertToBigintRoundTrip(Fetch.LastAmount(alch, a, Alch).value); }
  }
}
