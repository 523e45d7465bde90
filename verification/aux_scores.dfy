/** The auxiliary scorers of `GymFinder` (src/gym_finder.py): price tier,
    category and opening-hours agreement between a Yelp and a Google record.
    The matcher of this revision defines them but does not call them. */
module AuxScores {
  import opened Text
  import opened PyValue

  // ---------------------------------------------------------------- price

  /** The Google tier of a Yelp price string: "$" to "$$$$" are tiers 1 to 4. */
  function YelpTier(price: string): (r: Option<int>)
    ensures r.Some? ==> 1 <= r.value <= 4
  {
    if price == "$" then Some(1)
    else if price == "$$" then Some(2)
    else if price == "$$$" then Some(3)
    else if price == "$$$$" then Some(4)
    else None
  }

  /** A Yelp price has tier `n` exactly when it is `n` dollar signs. */
  lemma YelpTierIsDollarCount(price: string, n: int)
    ensures YelpTier(price) == Some(n) <==> 1 <= n <= 4 && price == Repeat('$', n)
  {
    assert Repeat('$', 1) == "$";
    assert Repeat('$', 2) == "$$";
    assert Repeat('$', 3) == "$$$";
    assert Repeat('$', 4) == "$$$$";
  }

  /** `compare_price_ranges`: 1.0 for the same tier, 0.5 for adjacent tiers,
      0 otherwise or when either side is missing. */
  function ComparePriceRanges(yelpPrice: Option<string>, googleLevel: Option<int>): (r: real)
    ensures r == 0.0 || r == 0.5 || r == 1.0
    ensures yelpPrice.None? || yelpPrice == Some("") || googleLevel.None? ==> r == 0.0
    ensures r == 1.0 <==> exists n :: 1 <= n <= 4 && yelpPrice == Some(Repeat('$', n)) && googleLevel == Some(n)
    ensures r == 0.5 <==> exists n :: 1 <= n <= 4 && yelpPrice == Some(Repeat('$', n))
                                        && googleLevel.Some? && (googleLevel.value == n - 1 || googleLevel.value == n + 1)
  {
    if yelpPrice.None? || yelpPrice.value == "" || googleLevel.None? then 0.0
    else
      var tier := YelpTier(yelpPrice.value);
      forall n ensures tier == Some(n) <==> 1 <= n <= 4 && yelpPrice.value == Repeat('$', n) {
        YelpTierIsDollarCount(yelpPrice.value, n);
      }
      assert tier.Some? ==> yelpPrice.value == Repeat('$', tier.value);
      if tier == googleLevel then 1.0
      else if tier.Some? && (tier.value - googleLevel.value == 1 || tier.value - googleLevel.value == -1) then 0.5
      else 0.0
  }

  // ----------------------------------------------------------- categories

  /** The Yelp category words and the Google types each one accepts, in the
      order of the dict in `compare_categories`. */
  const CategoryKeywords: seq<(string, seq<string>)> := [
    ("gym", ["gym", "fitness", "health"]),
    ("fitness", ["gym", "fitness", "health", "wellness"]),
    ("yoga", ["yoga", "health", "wellness"]),
    ("martial_arts", ["gym", "health"]),
    ("pilates", ["health", "wellness"]),
    ("boxing", ["gym", "health"]),
    ("dance", ["health", "wellness"])
  ]

  function LowerAll(items: seq<string>): (r: seq<string>)
    ensures |r| == |items| && forall i :: 0 <= i < |items| ==> r[i] == Lower(items[i])
  {
    if |items| == 0 then [] else [Lower(items[0])] + LowerAll(items[1..])
  }

  /** The first table entry whose category occurs in `yelp` and one of whose
      keywords is a type, searched from the start. */
  predicate AnyCategoryMatches(yelp: string, types: seq<string>, table: seq<(string, seq<string>)>) {
    |table| > 0 &&
    ((Contains(yelp, table[0].0) && exists k :: k in table[0].1 && k in types) ||
     AnyCategoryMatches(yelp, types, table[1..]))
  }

  lemma {:induction false} AnyCategoryMatchesSpec(yelp: string, types: seq<string>, table: seq<(string, seq<string>)>)
    ensures AnyCategoryMatches(yelp, types, table) <==>
      exists i, j :: 0 <= i < |table| && 0 <= j < |table[i].1| && IsSubstring(table[i].0, yelp) && table[i].1[j] in types
  {
    if |table| > 0 {
      AnyCategoryMatchesSpec(yelp, types, table[1..]);
      ContainsIsSubstring(yelp, table[0].0);
      if exists i, j :: 0 <= i < |table| && 0 <= j < |table[i].1| && IsSubstring(table[i].0, yelp) && table[i].1[j] in types {
        var i, j :| 0 <= i < |table| && 0 <= j < |table[i].1| && IsSubstring(table[i].0, yelp) && table[i].1[j] in types;
        if i > 0 {
          assert table[1..][i - 1] == table[i];
        } else {
          assert table[0].1[j] in table[0].1;
        }
      }
      if AnyCategoryMatches(yelp, types, table[1..]) {
        var i, j :| 0 <= i < |table[1..]| && 0 <= j < |table[1..][i].1|
          && IsSubstring(table[1..][i].0, yelp) && table[1..][i].1[j] in types;
        assert table[i + 1] == table[1..][i];
      }
      if Contains(yelp, table[0].0) && exists k :: k in table[0].1 && k in types {
        var k :| k in table[0].1 && k in types;
        var j :| 0 <= j < |table[0].1| && table[0].1[j] == k;
      }
    }
  }

  /** `compare_categories`: 0.8 when some category word occurs in the Yelp
      categories and one of its keywords is, up to case, a Google type. */
  function CompareCategories(yelpCategories: string, googleTypes: seq<string>): (r: real)
    ensures r == 0.0 || r == 0.8
    ensures r == 0.8 <==> (yelpCategories != "" && googleTypes != [] &&
      exists i, j :: 0 <= i < |CategoryKeywords| && 0 <= j < |CategoryKeywords[i].1|
        && IsSubstring(CategoryKeywords[i].0, Lower(yelpCategories))
        && CategoryKeywords[i].1[j] in LowerAll(googleTypes))
  {
    if yelpCategories == "" || googleTypes == [] then 0.0
    else
      AnyCategoryMatchesSpec(Lower(yelpCategories), LowerAll(googleTypes), CategoryKeywords);
      if AnyCategoryMatches(Lower(yelpCategories), LowerAll(googleTypes), CategoryKeywords) then 0.8 else 0.0
  }

  // ---------------------------------------------------------------- hours

  /** The values a `for` loop over `v` visits: list items, the characters of a
      string, the keys of a dict; other values are not iterable. */
  function Iterate(v: Json): (r: PyResult<seq<Json>>)
    ensures r.Raised? ==> r.error == TypeError && (v.JNull? || v.JBool? || v.JInt? || v.JFloat?)
  {
    match v
    case JList(items) => Ok(items)
    case JStr(s) => Ok(seq(|s|, i requires 0 <= i < |s| => JStr([s[i]])))
    case JDict(entries) => Ok(seq(|DictKeys(entries)|, i requires 0 <= i < |DictKeys(entries)| => JStr(DictKeys(entries)[i])))
    case _ => Raised(TypeError)
  }

  /** A weekday description announcing round-the-clock opening. */
  predicate SaysOpenAllDay(desc: string) {
    Contains(Lower(desc), "24 hours") || Contains(Lower(desc), "open 24")
  }

  /** `any('24 hours' in d.lower() or 'open 24' in d.lower() for d in items)`:
      stops at the first hit; a non-string item reached before any hit has
      no `lower` method. */
  function AnyOpenAllDay(items: seq<Json>): (r: PyResult<bool>)
    ensures r == Ok(true) <==> exists i :: 0 <= i < |items| && items[i].JStr? && SaysOpenAllDay(items[i].s)
                                     && forall k :: 0 <= k < i ==> items[k].JStr?
    ensures r.Raised? ==> r.error == AttributeError
    ensures (forall i :: 0 <= i < |items| ==> items[i].JStr?) ==> r.Ok?
  {
    if |items| == 0 then Ok(false)
    else if !items[0].JStr? then Raised(AttributeError)
    else if SaysOpenAllDay(items[0].s) then Ok(true)
    else
      var rest := AnyOpenAllDay(items[1..]);
      assert forall i :: 0 < i < |items| ==> items[i] == items[1..][i - 1];
      rest
  }

  /** `len(v)` for a value that `Iterate` accepts. */
  function Len(v: Json): nat {
    match v
    case JList(items) => |items|
    case JStr(s) => |s|
    case JDict(entries) => |DictKeys(entries)|
    case _ => 0
  }

  /** `compare_business_hours`: 0.15 for structured hours, 0.10 for an
      open-now flag, 0.05 each for a round-the-clock description and for a
      full week of descriptions, capped at 0.3. */
  function CompareBusinessHours(googleHours: Json): (r: PyResult<real>)
    ensures r.Ok? ==> 0.0 <= r.value <= 0.3
    ensures !(googleHours.JDict? && googleHours.entries != []) ==> r == Ok(0.0)
    ensures r.Raised? ==> googleHours.JDict? && Truthy(Get(googleHours.entries, "weekdayDescriptions", JNull))
    ensures r.Ok? && googleHours.JDict? ==>
      (r.value > 0.0 <==>
        (Truthy(Get(googleHours.entries, "periods", JNull))
         || Truthy(Get(googleHours.entries, "weekdayDescriptions", JNull))
         || HasKey(googleHours.entries, "openNow")))
    ensures r.Ok? && googleHours.JDict? && Truthy(Get(googleHours.entries, "periods", JNull)) ==> r.value >= 0.15
    ensures r.Ok? && googleHours.JDict? && HasKey(googleHours.entries, "openNow") ==> r.value >= 0.1
  {
    if !(googleHours.JDict? && googleHours.entries != []) then Ok(0.0)
    else
      var hours := googleHours.entries;
      var hasPeriods := Truthy(Get(hours, "periods", JNull));
      var descriptions := Get(hours, "weekdayDescriptions", JNull);
      var structured := if hasPeriods || Truthy(descriptions) then 0.15 else 0.0;
      var realTime := if HasKey(hours, "openNow") then 0.1 else 0.0;
      if !Truthy(descriptions) then Ok(structured + realTime)
      else
        match Iterate(descriptions)
        case Raised(e) => Raised(e)
        case Ok(items) =>
          match AnyOpenAllDay(items)
          case Raised(e) => Raised(e)
          case Ok(allDay) =>
            var total := structured + realTime
              + (if allDay then 0.05 else 0.0)
              + (if Len(descriptions) >= 7 then 0.05 else 0.0);
            Ok(if total < 0.3 then total else 0.3)
  }

  /** A full week of descriptions, one of them round-the-clock, with periods
      and an open-now flag, reaches the cap exactly. */
  lemma CompareBusinessHoursCapped(week: seq<string>, periods: Json, openNow: Json)
    requires |week| >= 7 && Truthy(periods)
    requires exists i :: 0 <= i < |week| && SaysOpenAllDay(week[i])
    ensures CompareBusinessHours(JDict([("periods", periods), ("openNow", openNow),
              ("weekdayDescriptions", JList(seq(|week|, i requires 0 <= i < |week| => JStr(week[i]))))])) == Ok(0.3)
  {
    var items := seq(|week|, i requires 0 <= i < |week| => JStr(week[i]));
    var hours := [("periods", periods), ("openNow", openNow), ("weekdayDescriptions", JList(items))];
    assert Lookup(hours, "weekdayDescriptions") == Some(JList(items));
    assert hours[..|hours| - 1] == [("periods", periods), ("openNow", openNow)];
    assert [("periods", periods), ("openNow", openNow)][..1] == [("periods", periods)];
    assert Lookup([("periods", periods)], "periods") == Some(periods);
    assert Lookup(hours, "periods") == Some(periods);
    assert Lookup(hours, "openNow").Some?;
    var i :| 0 <= i < |week| && SaysOpenAllDay(week[i]);
    assert items[i].JStr? && forall k :: 0 <= k < i ==> items[k].JStr?;
    assert AnyOpenAllDay(items) == Ok(true);
  }
}
