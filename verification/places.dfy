/** `GooglePlacesService` (google_places_service.py): the two price-level
    tables of the Places API (New) and the sanitizing of one place of the
    `places:searchNearby` response. */
module Places {
  import opened Text
  import opened PyValue
  import opened Records
  import opened Sanitize

  const GoogleSource: string := "Google Places (New)"

  const MapsLinkPrefix: string := "https://maps.google.com/?place_id="

  /** The five `priceLevel` values of the Places API (New), cheapest first:
      the level at index n is the one the numeric table maps to n. */
  const PriceLevels: seq<string> := [
    "PRICE_LEVEL_FREE",
    "PRICE_LEVEL_INEXPENSIVE",
    "PRICE_LEVEL_MODERATE",
    "PRICE_LEVEL_EXPENSIVE",
    "PRICE_LEVEL_VERY_EXPENSIVE"
  ]

  /** The display form of a tier: "Free" for tier 0, else that many '$'. */
  function TierText(n: nat): string {
    if n == 0 then "Free" else Repeat('$', n)
  }

  lemma TierTextValues()
    ensures TierText(0) == "Free" && TierText(1) == "$" && TierText(2) == "$$"
    ensures TierText(3) == "$$$" && TierText(4) == "$$$$"
  {
    assert Repeat('$', 4) == "$" + Repeat('$', 3);
  }

  lemma PriceLevelsDistinct()
    ensures forall j, k :: 0 <= j < k < |PriceLevels| ==> PriceLevels[j] != PriceLevels[k]
  {
    forall j, k | 0 <= j < k < |PriceLevels| ensures PriceLevels[j] != PriceLevels[k] {
      assert |PriceLevels[j]| != |PriceLevels[k]|;
    }
  }

  /** The price table's key lookup raises on a truthy list or dict, the
      two unhashable values a decoded response can hold. */
  predicate Unhashable(v: Json) {
    v.JList? || v.JDict?
  }

  /** `convert_price_level`: the display form of a price level. */
  function ConvertPriceLevel(level: Json): (r: PyResult<string>)
    ensures !Truthy(level) ==> r == Ok(NotAvailable)
    ensures r.Raised? <==> Truthy(level) && Unhashable(level)
    ensures r.Raised? ==> r.error == TypeError
    ensures forall n :: 0 <= n < |PriceLevels| && level == JStr(PriceLevels[n]) ==> r == Ok(TierText(n))
    ensures (forall n :: 0 <= n < |PriceLevels| ==> level != JStr(PriceLevels[n])) && !(Truthy(level) && Unhashable(level))
            ==> r == Ok(NotAvailable)
  {
    TierTextValues();
    PriceLevelsDistinct();
    assert JStr(PriceLevels[0]) == JStr("PRICE_LEVEL_FREE") && JStr(PriceLevels[1]) == JStr("PRICE_LEVEL_INEXPENSIVE");
    assert JStr(PriceLevels[2]) == JStr("PRICE_LEVEL_MODERATE") && JStr(PriceLevels[3]) == JStr("PRICE_LEVEL_EXPENSIVE");
    assert JStr(PriceLevels[4]) == JStr("PRICE_LEVEL_VERY_EXPENSIVE");
    if !Truthy(level) then Ok(NotAvailable)
    else if Unhashable(level) then Raised(TypeError)
    else if level == JStr("PRICE_LEVEL_FREE") then Ok("Free")
    else if level == JStr("PRICE_LEVEL_INEXPENSIVE") then Ok("$")
    else if level == JStr("PRICE_LEVEL_MODERATE") then Ok("$$")
    else if level == JStr("PRICE_LEVEL_EXPENSIVE") then Ok("$$$")
    else if level == JStr("PRICE_LEVEL_VERY_EXPENSIVE") then Ok("$$$$")
    else Ok(NotAvailable)
  }

  /** `map_price_level`: the numeric tier of a price level. */
  function MapPriceLevel(level: Json): (r: PyResult<Option<int>>)
    ensures !Truthy(level) ==> r == Ok(None)
    ensures r.Raised? <==> Truthy(level) && Unhashable(level)
    ensures r.Raised? ==> r.error == TypeError
    ensures forall n :: 0 <= n < |PriceLevels| ==> (r == Ok(Some(n)) <==> level == JStr(PriceLevels[n]))
    ensures r.Ok? && r.value.Some? ==> 0 <= r.value.value < |PriceLevels|
  {
    PriceLevelsDistinct();
    if !Truthy(level) then Ok(None)
    else if Unhashable(level) then Raised(TypeError)
    else if level == JStr("PRICE_LEVEL_FREE") then Ok(Some(0))
    else if level == JStr("PRICE_LEVEL_INEXPENSIVE") then Ok(Some(1))
    else if level == JStr("PRICE_LEVEL_MODERATE") then Ok(Some(2))
    else if level == JStr("PRICE_LEVEL_EXPENSIVE") then Ok(Some(3))
    else if level == JStr("PRICE_LEVEL_VERY_EXPENSIVE") then Ok(Some(4))
    else Ok(None)
  }

  /** The two tables agree: a level with tier n displays as n dollar signs
      ("Free" for tier 0), a level without a tier displays as "N/A", and
      both raise on the same inputs. */
  lemma PriceTablesAgree(level: Json)
    ensures MapPriceLevel(level).Raised? <==> ConvertPriceLevel(level).Raised?
    ensures MapPriceLevel(level) == Ok(None) <==> ConvertPriceLevel(level) == Ok(NotAvailable)
    ensures forall n :: 1 <= n < |PriceLevels| && MapPriceLevel(level) == Ok(Some(n))
              ==> ConvertPriceLevel(level) == Ok(Repeat('$', n))
    ensures MapPriceLevel(level) == Ok(Some(0)) ==> ConvertPriceLevel(level) == Ok("Free")
  {
    if Truthy(level) && !Unhashable(level) && MapPriceLevel(level).value.Some? {
      var n := MapPriceLevel(level).value.value;
      assert level == JStr(PriceLevels[n]);
      assert ConvertPriceLevel(level) == Ok(TierText(n));
      assert TierText(n) != NotAvailable by {
        if n > 0 { assert TierText(n)[0] == '$'; }
      }
    }
  }

  // ------------------------------------------------------------ validation

  /** The maps link built from a place's `id` (the empty string when absent). */
  function MapsLink(place: seq<(string, Json)>): (r: string)
    ensures StartsWith(r, MapsLinkPrefix)
    ensures r[|MapsLinkPrefix|..] == Str(Get(place, "id", JStr("")))
  {
    var link := MapsLinkPrefix + Str(Get(place, "id", JStr("")));
    assert link[..|MapsLinkPrefix|] == MapsLinkPrefix;
    link
  }

  /** The `displayName` check: a dict with a truthy `text`. */
  predicate HasDisplayName(place: seq<(string, Json)>) {
    var displayName := Get(place, "displayName", JDict([]));
    displayName.JDict? && Truthy(Get(displayName.entries, "text", JNull))
  }

  /** The opening hours of a place: `currentOpeningHours` when present,
      else `regularOpeningHours`, as a dict (`{}` for anything else). */
  function OpeningHours(place: seq<(string, Json)>): seq<(string, Json)> {
    DictOrEmpty(Get(place, "currentOpeningHours", Get(place, "regularOpeningHours", JDict([]))))
  }

  /** `place.get("types", [])` when it is a list, else `[]`. */
  function Types(place: seq<(string, Json)>): (r: Json)
    ensures r.JList?
    ensures Get(place, "types", JNull).JList? ==> r == Get(place, "types", JNull)
  {
    var types := Get(place, "types", JNull);
    if types.JList? then types else JList([])
  }

  /** The numeric tier as the record stores it: an int or `None`. */
  function TierJson(tier: Option<int>): Json {
    match tier
    case Some(n) => JInt(n)
    case None => JNull
  }

  /** The provider-specific keys of a validated place, in the order the
      record lists them. */
  function ExtrasRow(placeId: Json, location: Json, types: Json, openNow: Json,
                     hours: Json, website: Json, link: Json, tier: Json): seq<(string, Json)> {
    [
      ("place_id", placeId),
      ("location", location),
      ("types", types),
      ("open_now", openNow),
      ("business_hours", hours),
      ("website", website),
      ("google_url", link),
      ("price_level", tier)
    ]
  }

  /** The extras of a validated place. */
  function PlaceExtras(place: seq<(string, Json)>, tier: Option<int>): seq<(string, Json)> {
    var location := DictOrEmpty(Get(place, "location", JDict([])));
    var hours := OpeningHours(place);
    ExtrasRow(
      JStr(StrStrip(Get(place, "id", JStr("")))),
      JDict([("lat", Get(location, "latitude", JNull)), ("lng", Get(location, "longitude", JNull))]),
      Types(place),
      Get(hours, "openNow", JNull),
      JDict(hours),
      JStr(StrStrip(Get(place, "websiteUri", JStr("")))),
      JStr(MapsLink(place)),
      TierJson(tier))
  }

  /** Each key of the extras finds the value the record computes for it:
      the stripped id, the coordinates of `location` (a dict, else `{}`),
      `types` (always a list), `openNow` of the opening hours, the hours
      themselves, the stripped website, the maps link and the tier. */
  lemma PlaceExtrasLookup(place: seq<(string, Json)>, tier: Option<int>)
    ensures var extras := PlaceExtras(place, tier);
            var location := DictOrEmpty(Get(place, "location", JDict([])));
            && Get(extras, "place_id", JNull) == JStr(StrStrip(Get(place, "id", JStr(""))))
            && Get(extras, "location", JNull)
               == JDict([("lat", Get(location, "latitude", JNull)), ("lng", Get(location, "longitude", JNull))])
            && Get(extras, "types", JNull) == Types(place)
            && Get(extras, "open_now", JNull) == Get(OpeningHours(place), "openNow", JNull)
            && Get(extras, "business_hours", JNull) == JDict(OpeningHours(place))
            && Get(extras, "website", JNull) == JStr(StrStrip(Get(place, "websiteUri", JStr(""))))
            && Get(extras, "google_url", JNull) == JStr(MapsLink(place))
            && Get(extras, "price_level", JNull) == TierJson(tier)
  {
    var location := DictOrEmpty(Get(place, "location", JDict([])));
    var hours := OpeningHours(place);
    ExtrasRowLookup(
      JStr(StrStrip(Get(place, "id", JStr("")))),
      JDict([("lat", Get(location, "latitude", JNull)), ("lng", Get(location, "longitude", JNull))]),
      Types(place),
      Get(hours, "openNow", JNull),
      JDict(hours),
      JStr(StrStrip(Get(place, "websiteUri", JStr("")))),
      JStr(MapsLink(place)),
      TierJson(tier));
  }

  lemma ExtrasRowLookup(placeId: Json, location: Json, types: Json, openNow: Json,
                        hours: Json, website: Json, link: Json, tier: Json)
    ensures var extras := ExtrasRow(placeId, location, types, openNow, hours, website, link, tier);
            && Get(extras, "place_id", JNull) == placeId
            && Get(extras, "location", JNull) == location
            && Get(extras, "types", JNull) == types
            && Get(extras, "open_now", JNull) == openNow
            && Get(extras, "business_hours", JNull) == hours
            && Get(extras, "website", JNull) == website
            && Get(extras, "google_url", JNull) == link
            && Get(extras, "price_level", JNull) == tier
  {
    var extras := ExtrasRow(placeId, location, types, openNow, hours, website, link, tier);
    assert extras[0].0 == "place_id" && extras[1].0 == "location";
    assert extras[2].0 == "types" && extras[3].0 == "open_now";
    assert extras[4].0 == "business_hours" && extras[5].0 == "website";
    assert extras[6].0 == "google_url" && extras[7].0 == "price_level";
    forall i | 0 <= i < 8 ensures Get(extras, extras[i].0, JNull) == extras[i].1 {
      LookupDistinct(extras, i);
    }
  }

  /** The sanitized record of a place that passed the name check, given its
      display price and numeric tier. */
  function PlaceRecord(place: seq<(string, Json)>, price: string, tier: Option<int>): (r: Listing)
    ensures r.source == GoogleSource && r.price == price
    ensures r.reviewCount >= 0
    ensures r.rating.JNull? || IsNumber(r.rating) || r.rating == JStr(NotAvailable)
    ensures Trimmed(r.name) && Trimmed(r.address) && Trimmed(r.phone) && Trimmed(r.url)
    ensures !HasKey(place, "websiteUri") ==> r.url == Strip(MapsLink(place))
  {
    var displayName := DictOrEmpty(Get(place, "displayName", JDict([])));
    Listing(
      name := StrStrip(Get(displayName, "text", JStr("Unknown"))),
      address := StrStrip(Get(place, "formattedAddress", JStr(NotAvailable))),
      phone := StrStrip(Get(place, "nationalPhoneNumber", Get(place, "internationalPhoneNumber", JStr(NotAvailable)))),
      rating := SanitizeRating(Get(place, "rating", JNull)),
      reviewCount := SanitizeCount(Get(place, "userRatingCount", JInt(0))),
      price := price,
      url := StrStrip(Get(place, "websiteUri", JStr(MapsLink(place)))),
      source := GoogleSource,
      extras := PlaceExtras(place, tier))
  }

  /** `_validate_place_data`: `None` for a non-dict or a place without a
      display name; otherwise the record, unless the price level is a
      truthy list or dict, which the price tables raise on. */
  function ValidatePlace(place: Json): (r: PyResult<Option<Listing>>)
    ensures r == Ok(None) <==> !place.JDict? || !HasDisplayName(place.entries)
    ensures r.Raised? <==> place.JDict? && HasDisplayName(place.entries)
                           && Truthy(Get(place.entries, "priceLevel", JNull)) && Unhashable(Get(place.entries, "priceLevel", JNull))
    ensures r.Raised? ==> r.error == TypeError
    ensures r.Ok? && r.value.Some? ==>
      && r.value.value.source == GoogleSource
      && r.value.value.reviewCount >= 0
      && (r.value.value.rating.JNull? || IsNumber(r.value.value.rating) || r.value.value.rating == JStr(NotAvailable))
      && Trimmed(r.value.value.name) && Trimmed(r.value.value.address) && Trimmed(r.value.value.phone)
    ensures r.Ok? && r.value.Some? && !HasKey(place.entries, "websiteUri") ==>
      r.value.value.url == Strip(MapsLink(place.entries))
    ensures r.Ok? && r.value.Some? ==> r.value.value.extras == PlaceExtras(place.entries, MapPriceLevel(Get(place.entries, "priceLevel", JNull)).value)
    ensures r.Ok? && r.value.Some? ==> r.value.value.price == ConvertPriceLevel(Get(place.entries, "priceLevel", JNull)).value
  {
    if !place.JDict? || !HasDisplayName(place.entries) then Ok(None)
    else
      var level := Get(place.entries, "priceLevel", JNull);
      match ConvertPriceLevel(level)
      case Raised(e) => Raised(e)
      case Ok(price) =>
        match MapPriceLevel(level)
        case Raised(e) => Raised(e)
        case Ok(tier) => Ok(Some(PlaceRecord(place.entries, price, tier)))
  }

  /** In a validated record the stored tier and the display price agree:
      tier n >= 1 shows as n dollar signs, and `types` is a list. */
  lemma ValidatedPriceAgrees(place: Json)
    requires ValidatePlace(place).Ok? && ValidatePlace(place).value.Some?
    ensures var gym := ValidatePlace(place).value.value;
            && Get(gym.extras, "types", JNull).JList?
            && (forall n :: 1 <= n < |PriceLevels| && Get(gym.extras, "price_level", JNull) == JInt(n) ==> gym.price == Repeat('$', n))
            && (Get(gym.extras, "price_level", JNull) == JInt(0) ==> gym.price == "Free")
            && (Get(gym.extras, "price_level", JNull) == JNull ==> gym.price == NotAvailable)
  {
    var level := Get(place.entries, "priceLevel", JNull);
    var tier := MapPriceLevel(level).value;
    PlaceExtrasLookup(place.entries, tier);
    PriceTablesAgree(level);
  }
}
