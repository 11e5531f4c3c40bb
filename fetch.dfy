/** The ingestion script: each page of balances the API returns is filtered, mapped to holder
    records and upserted into the `holders` table, one token column at a time. */
module Fetch {
  import opened Types
  import opened Decimal

  /** The token columns of a `holders` row; the address is the table's key. */
  datatype Row = Row(ar: string, aistr: string, alch: string)

  /** A freshly inserted row: every token column takes its `DEFAULT ''`. */
  const DEFAULT_ROW: Row := Row("", "", "")

  function Column(row: Row, token: Token): string
  {
    match token
    case Ar => row.ar
    case Aistr => row.aistr
    case Alch => row.alch
  }

  /** The row with the `token` column set to `value`. */
  function SetColumn(row: Row, token: Token, value: string): (r: Row)
    ensures Column(r, token) == value
    ensures forall t :: t != token ==> Column(r, t) == Column(row, t)
  {
    match token
    case Ar => row.(ar := value)
    case Aistr => row.(aistr := value)
    case Alch => row.(alch := value)
  }

  /** The amount an upsert writes for `h`: its amount for `token` unless that is missing or
      zero (`!tokenAmount`). */
  function WrittenAmount(h: Holder, token: Token): (r: Option<nat>)
    ensures r.Some? <==> Amount(h, token).Some? && Amount(h, token).value != 0
    ensures r.Some? ==> r.value == Amount(h, token).value
  {
    match Amount(h, token)
    case Some(n) => if n == 0 then None else Some(n)
    case None => None
  }

  /** One iteration of the upsert loop: skip, UPDATE the existing row's column, or INSERT. */
  function UpsertOne(table: map<string, Row>, h: Holder, token: Token): (t: map<string, Row>)
    ensures WrittenAmount(h, token).None? ==> t == table
    ensures WrittenAmount(h, token).Some? ==>
      && t.Keys == table.Keys + {h.address}
      && Column(t[h.address], token) == ToDecimal(WrittenAmount(h, token).value)
      && (forall tk :: tk != token ==>
            Column(t[h.address], tk) == if h.address in table then Column(table[h.address], tk) else "")
      && (forall a :: a in table && a != h.address ==> t[a] == table[a])
  {
    match WrittenAmount(h, token)
    case None => table
    case Some(n) =>
      if h.address in table then table[h.address := SetColumn(table[h.address], token, ToDecimal(n))]
      else table[h.address := SetColumn(DEFAULT_ROW, token, ToDecimal(n))]
  }

  /** The table after upserting `holders` in order. */
  function UpsertAll(table: map<string, Row>, holders: seq<Holder>, token: Token): (t: map<string, Row>)
    ensures table.Keys <= t.Keys
  {
    if holders == [] then table
    else UpsertOne(UpsertAll(table, holders[..|holders| - 1], token), holders[|holders| - 1], token)
  }

  /** The last amount written for address `a`: the amount of the last holder record for `a`
      whose `token` amount is present and non-zero (see `LastAmountIsLast`). */
  function LastAmount(holders: seq<Holder>, a: string, token: Token): (r: Option<nat>)
    ensures r.Some? ==> r.value > 0
  {
    if holders == [] then None
    else
      var h := holders[|holders| - 1];
      if h.address == a && WrittenAmount(h, token).Some? then WrittenAmount(h, token)
      else LastAmount(holders[..|holders| - 1], a, token)
  }

  /** LastAmount is None exactly when no record for `a` writes a non-zero amount; otherwise it
      is the amount of a record for `a` after which no record for `a` writes one. */
  lemma {:induction false} LastAmountIsLast(holders: seq<Holder>, a: string, token: Token)
    ensures LastAmount(holders, a, token).None? <==>
      forall i :: 0 <= i < |holders| && holders[i].address == a ==> WrittenAmount(holders[i], token).None?
    ensures LastAmount(holders, a, token).Some? ==>
      exists i :: 0 <= i < |holders| && holders[i].address == a && WrittenAmount(holders[i], token) == LastAmount(holders, a, token) &&
        forall j :: i < j < |holders| && holders[j].address == a ==> WrittenAmount(holders[j], token).None?
  {
    if holders != [] {
      var init := holders[..|holders| - 1];
      LastAmountIsLast(init, a, token);
      assert forall i :: 0 <= i < |init| ==> init[i] == holders[i];
    }
  }

  /** The upsert loop as a whole, per address: the row exists afterwards exactly when it
      existed before or some holder wrote it; its `token` column holds the last non-zero
      amount written (a later holder overwrites an earlier one), or is untouched when none was;
      its other columns are those it had, or '' for a new row. */
  lemma {:induction false} UpsertAllAt(table: map<string, Row>, holders: seq<Holder>, token: Token, a: string)
    ensures a in UpsertAll(table, holders, token) <==> a in table || LastAmount(holders, a, token).Some?
    ensures LastAmount(holders, a, token).Some? ==>
      Column(UpsertAll(table, holders, token)[a], token) == ToDecimal(LastAmount(holders, a, token).value)
    ensures LastAmount(holders, a, token).None? && a in table ==>
      UpsertAll(table, holders, token)[a] == table[a]
    ensures a in UpsertAll(table, holders, token) ==> forall tk :: tk != token ==>
      Column(UpsertAll(table, holders, token)[a], tk) == if a in table then Column(table[a], tk) else ""
  {
    if holders != [] {
      UpsertAllAt(table, holders[..|holders| - 1], token, a);
    }
  }

  /** Every column holds '' or what `toString()` writes for a non-negative amount. */
  predicate WellFormed(table: map<string, Row>)
  {
    forall a, tk :: a in table ==> Column(table[a], tk) == "" || IsCanonical(Column(table[a], tk))
  }

  /** Upserting keeps every column parseable. */
  lemma {:induction false} UpsertAllWellFormed(table: map<string, Row>, holders: seq<Holder>, token: Token)
    requires WellFormed(table)
    ensures WellFormed(UpsertAll(table, holders, token))
  {
    if holders != [] {
      UpsertAllWellFormed(table, holders[..|holders| - 1], token);
    }
  }

  /** The table's handle to the `holders` table. */
  class HoldersTable {
    /** The rows, keyed by the `address TEXT PRIMARY KEY` column: at most one row per address. */
    var rows: map<string, Row>

    /** `CREATE TABLE IF NOT EXISTS holders`: an existing table keeps its rows, else it is empty. */
    constructor (existing: Option<map<string, Row>>)
      ensures rows == if existing.Some? then existing.value else map[]
    {
      rows := if existing.Some? then existing.value else map[];
    }

    /** `upsertHolders(holders, tokenName)`. */
    method UpsertHolders(holders: seq<Holder>, token: Token)
      modifies this
      ensures rows == UpsertAll(old(rows), holders, token)
    {
      for k := 0 to |holders|
        invariant rows == UpsertAll(old(rows), holders[..k], token)
      {
        assert holders[..k + 1][..k] == holders[..k];
        var holder := holders[k];
        var tokenAmount := Amount(holder, token);
        if tokenAmount.None? || tokenAmount.value == 0 {
          continue;
        }
        if holder.address in rows {
          rows := rows[holder.address := SetColumn(rows[holder.address], token, ToDecimal(tokenAmount.value))];
        } else {
          rows := rows[holder.address := SetColumn(DEFAULT_ROW, token, ToDecimal(tokenAmount.value))];
        }
      }
      assert holders[..|holders|] == holders;
    }

    /** The handling of one page of API results: when the page carries items, the complete
        ones are mapped to holder records and upserted. */
    method IngestPage(items: Option<seq<Item>>, token: Token)
      modifies this
      ensures items.None? ==> rows == old(rows)
      ensures items.Some? ==> rows == UpsertAll(old(rows), ToHolders(items.value, token), token)
    {
      if items.Some? {
        var holders := ToHolders(items.value, token);
        UpsertHolders(holders, token);
      }
    }
  }

  /** An item of the balance API's response; either field may be null. */
  datatype Item = Item(address: Option<string>, balance: Option<nat>)

  predicate IsComplete(item: Item)
  {
    item.address.Some? && item.balance.Some?
  }

  /** `{ address, [tokenName]: balance }`: a holder record carrying only `token`'s amount. */
  function MakeHolder(address: string, token: Token, balance: nat): (h: Holder)
    ensures h.address == address && Amount(h, token) == Some(balance)
    ensures forall tk :: tk != token ==> Amount(h, tk).None?
  {
    match token
    case Ar => Holder(address, Some(balance), None, None)
    case Aistr => Holder(address, None, Some(balance), None)
    case Alch => Holder(address, None, None, Some(balance))
  }

  /** The filter of items with a null address or balance, then the map to holder records. */
  function ToHolders(items: seq<Item>, token: Token): (r: seq<Holder>)
    ensures |r| <= |items|
    ensures forall i :: 0 <= i < |items| && IsComplete(items[i]) ==>
      MakeHolder(items[i].address.value, token, items[i].balance.value) in r
    ensures forall h :: h in r ==>
      exists i :: 0 <= i < |items| && IsComplete(items[i]) && h == MakeHolder(items[i].address.value, token, items[i].balance.value)
  {
    if items == [] then []
    else
      var rest := ToHolders(items[1..], token);
      assert forall i :: 1 <= i < |items| ==> items[i] == items[1..][i - 1];
      if IsComplete(items[0]) then [MakeHolder(items[0].address.value, token, items[0].balance.value)] + rest
      else rest
  }

  /** The filter and map keep the order of the items: mapping a concatenation of pages is
      concatenating the mapped pages. */
  lemma {:induction false} ToHoldersAppend(items1: seq<Item>, items2: seq<Item>, token: Token)
    ensures ToHolders(items1 + items2, token) == ToHolders(items1, token) + ToHolders(items2, token)
  {
    if items1 != [] {
      ToHoldersAppend(items1[1..], items2, token);
      assert (items1 + items2)[1..] == items1[1..] + items2;
    } else {
      assert items1 + items2 == items2;
    }
  }

  /** Upserting a concatenation is upserting its parts one after the other. */
  lemma {:induction false} UpsertAllAppend(table: map<string, Row>, a: seq<Holder>, b: seq<Holder>, token: Token)
    ensures UpsertAll(table, a + b, token) == UpsertAll(UpsertAll(table, a, token), b, token)
  {
    if b == [] {
      assert a + b == a;
    } else {
      UpsertAllAppend(table, a, b[..|b| - 1], token);
      assert (a + b)[..|a + b| - 1] == a + b[..|b| - 1];
    }
  }

  /** Ingesting two pages one after the other is one upsert pass over the mapped items of both
      pages in order. */
  lemma IngestTwoPages(table: map<string, Row>, items1: seq<Item>, items2: seq<Item>, token: Token)
    ensures UpsertAll(UpsertAll(table, ToHolders(items1, token), token), ToHolders(items2, token), token)
      == UpsertAll(table, ToHolders(items1 + items2, token), token)
  {
    ToHoldersAppend(items1, items2, token);
    UpsertAllAppend(table, ToHolders(items1, token), ToHolders(items2, token), token);
  }
}
