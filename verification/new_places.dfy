/** The price-level helpers of the stand-alone Places API (New) script
    (new_google_places.py), read as the lookup tables they are, and their
    agreement with the service's copies. */
module NewPlaces {
  import opened PyValue
  import opened Records
  import Places

  /** The display table, in the script's key order. */
  const DisplayTable: seq<(string, string)> := [
    ("PRICE_LEVEL_FREE", "Free"),
    ("PRICE_LEVEL_INEXPENSIVE", "$"),
    ("PRICE_LEVEL_MODERATE", "$$"),
    ("PRICE_LEVEL_EXPENSIVE", "$$$"),
    ("PRICE_LEVEL_VERY_EXPENSIVE", "$$$$")
  ]

  /** The numeric table, in the script's key order. */
  const TierTable: seq<(string, int)> := [
    ("PRICE_LEVEL_FREE", 0),
    ("PRICE_LEVEL_INEXPENSIVE", 1),
    ("PRICE_LEVEL_MODERATE", 2),
    ("PRICE_LEVEL_EXPENSIVE", 3),
    ("PRICE_LEVEL_VERY_EXPENSIVE", 4)
  ]

  /** The value a table holds for `key`, if any. */
  function TableGet<V>(table: seq<(string, V)>, key: string): (r: Option<V>)
    ensures r.None? <==> forall i :: 0 <= i < |table| ==> table[i].0 != key
    ensures r.Some? ==> exists i :: 0 <= i < |table| && table[i] == (key, r.value)
  {
    if |table| == 0 then None
    else if table[0].0 == key then Some(table[0].1)
    else
      var rest := TableGet(table[1..], key);
      assert forall i :: 1 <= i < |table| ==> table[1..][i - 1] == table[i];
      rest
  }

  /** The value of the key at index `i` of a table with distinct keys. */
  lemma {:induction false} TableGetAt<V>(table: seq<(string, V)>, i: int)
    requires 0 <= i < |table|
    requires forall j :: 0 <= j < i ==> table[j].0 != table[i].0
    ensures TableGet(table, table[i].0) == Some(table[i].1)
  {
    if i > 0 {
      assert forall j :: 0 <= j < i - 1 ==> table[1..][j] == table[j + 1];
      TableGetAt(table[1..], i - 1);
    }
  }

  /** `convert_google_price_level_new`. */
  function ConvertGooglePriceLevelNew(level: Json): (r: PyResult<string>)
    ensures !Truthy(level) ==> r == Ok(NotAvailable)
    ensures r.Raised? <==> Truthy(level) && Places.Unhashable(level)
    ensures r.Ok? && level.JStr? && TableGet(DisplayTable, level.s).Some? ==> r.value == TableGet(DisplayTable, level.s).value
  {
    if !Truthy(level) then Ok(NotAvailable)
    else if Places.Unhashable(level) then Raised(TypeError)
    else if !level.JStr? then Ok(NotAvailable)
    else Ok(TableGet(DisplayTable, level.s).GetOr(NotAvailable))
  }

  /** `map_price_level_new`. */
  function MapPriceLevelNew(level: Json): (r: PyResult<Option<int>>)
    ensures !Truthy(level) ==> r == Ok(None)
    ensures r.Raised? <==> Truthy(level) && Places.Unhashable(level)
    ensures r.Ok? && r.value.Some? ==> level.JStr? && TableGet(TierTable, level.s) == r.value
  {
    if !Truthy(level) then Ok(None)
    else if Places.Unhashable(level) then Raised(TypeError)
    else if !level.JStr? then Ok(None)
    else Ok(TableGet(TierTable, level.s))
  }

  /** Row n of each table holds the n-th price level with tier n and its
      display text. */
  lemma TableRows()
    ensures |DisplayTable| == |TierTable| == |Places.PriceLevels|
    ensures forall n :: 0 <= n < |Places.PriceLevels| ==>
              && DisplayTable[n] == (Places.PriceLevels[n], Places.TierText(n))
              && TierTable[n] == (Places.PriceLevels[n], n)
  {
    Places.TierTextValues();
  }

  /** Looking a string up in the tables finds row n for the n-th level and
      nothing for any other string. */
  lemma TableLookups(s: string)
    ensures forall n :: 0 <= n < |Places.PriceLevels| && s == Places.PriceLevels[n] ==>
              TableGet(DisplayTable, s) == Some(Places.TierText(n)) && TableGet(TierTable, s) == Some(n)
    ensures (forall n :: 0 <= n < |Places.PriceLevels| ==> s != Places.PriceLevels[n]) ==>
              TableGet(DisplayTable, s).None? && TableGet(TierTable, s).None?
  {
    TableRows();
    Places.PriceLevelsDistinct();
    forall n | 0 <= n < |Places.PriceLevels| && s == Places.PriceLevels[n]
      ensures TableGet(DisplayTable, s) == Some(Places.TierText(n)) && TableGet(TierTable, s) == Some(n)
    {
      TableGetAt(DisplayTable, n);
      TableGetAt(TierTable, n);
    }
  }

  /** The script's helpers agree with the service's on every input. */
  lemma NewHelpersAgreeWithService(level: Json)
    ensures ConvertGooglePriceLevelNew(level) == Places.ConvertPriceLevel(level)
    ensures MapPriceLevelNew(level) == Places.MapPriceLevel(level)
  {
    if level.JStr? {
      TableLookups(level.s);
    }
  }

  /** Hence the script's two tables agree with each other as the service's
      do: tier n >= 1 displays as n dollar signs, tier 0 as "Free". */
  lemma NewTablesAgree(level: Json)
    ensures forall n :: 1 <= n < |Places.PriceLevels| && MapPriceLevelNew(level) == Ok(Some(n))
              ==> ConvertGooglePriceLevelNew(level) == Ok(Text.Repeat('$', n))
    ensures MapPriceLevelNew(level) == Ok(Some(0)) ==> ConvertGooglePriceLevelNew(level) == Ok("Free")
    ensures MapPriceLevelNew(level) == Ok(None) <==> ConvertGooglePriceLevelNew(level) == Ok(NotAvailable)
  {
    NewHelpersAgreeWithService(level);
    Places.PriceTablesAgree(level);
  }
}
