/** `YelpService` (src/yelp_service.py, and its byte-identical copy
    yelp_service.py): sanitizing a business of the Yelp search response,
    and keeping the businesses that pass. */
module Yelp {
  import opened Text
  import opened PyValue
  import opened Records
  import opened Sanitize

  const YelpSource: string := "Yelp"

  /** `_validate_business_data`: `None` for a non-dict or a business without
      a truthy name, else the sanitized record. */
  function ValidateBusiness(business: Json): (r: Option<Listing>)
    ensures r.None? <==> !business.JDict? || !Truthy(Get(business.entries, "name", JNull))
    ensures r.Some? ==>
      && r.value.source == YelpSource
      && r.value.reviewCount >= 0
      && (r.value.rating.JNull? || IsNumber(r.value.rating) || r.value.rating == JStr("N/A"))
      && Trimmed(r.value.name) && Trimmed(r.value.phone) && Trimmed(r.value.price) && Trimmed(r.value.url)
      && r.value.extras == []
    ensures r.Some? ==> r.value.address == Join(", ", StrAll(DisplayAddress(business.entries)))
  {
    if !business.JDict? then None
    else
      var b := business.entries;
      if !Truthy(Get(b, "name", JNull)) then None
      else
        Some(Listing(
          name := StrStrip(Get(b, "name", JStr(""))),
          address := Join(", ", StrAll(DisplayAddress(b))),
          phone := StrStrip(Get(b, "display_phone", JStr(NotAvailable))),
          rating := SanitizeRating(Get(b, "rating", JNull)),
          reviewCount := SanitizeCount(Get(b, "review_count", JInt(0))),
          price := StrStrip(Get(b, "price", JStr(NotAvailable))),
          url := StrStrip(Get(b, "url", JStr(""))),
          source := YelpSource,
          extras := []))
  }

  /** The `display_address` lines of a business: empty unless `location` is
      a dict whose `display_address` is a list. */
  function DisplayAddress(business: seq<(string, Json)>): (r: seq<Json>)
    ensures !Get(business, "location", JNull).JDict? ==> r == []
    ensures Get(business, "location", JNull).JDict?
            && Get(Get(business, "location", JNull).entries, "display_address", JNull).JList?
            ==> r == Get(Get(business, "location", JNull).entries, "display_address", JNull).items
    ensures Get(business, "location", JNull).JDict?
            && !Get(Get(business, "location", JNull).entries, "display_address", JNull).JList?
            ==> r == []
  {
    var location := DictOrEmpty(Get(business, "location", JDict([])));
    var lines := Get(location, "display_address", JList([]));
    if lines.JList? then lines.items else []
  }

  /** A name of whitespace only is truthy, so it is accepted and is
      then stripped to the empty string. */
  lemma BlankNameIsKeptEmpty(blank: string, rest: seq<(string, Json)>)
    requires blank != "" && forall c :: c in blank ==> IsSpace(c)
    requires forall i :: 0 <= i < |rest| ==> rest[i].0 != "name"
    ensures var r := ValidateBusiness(JDict(rest + [("name", JStr(blank))]));
            r.Some? && r.value.name == ""
  {
    var b := rest + [("name", JStr(blank))];
    assert b[|b| - 1] == ("name", JStr(blank));
    StripBlank(blank);
  }

  lemma {:induction false} StripBlank(blank: string)
    requires forall c :: c in blank ==> IsSpace(c)
    ensures Strip(blank) == ""
  {
    DropSpacesBlank(blank);
  }

  lemma {:induction false} DropSpacesBlank(blank: string)
    requires forall c :: c in blank ==> IsSpace(c)
    ensures DropSpaces(blank) == ""
  {
    if |blank| > 0 {
      assert blank[0] in blank;
      assert forall c :: c in blank[1..] ==> c in blank;
      DropSpacesBlank(blank[1..]);
    }
  }

  /** Two address lines are joined with a comma and a space. */
  lemma AddressOfTwoLines(street: string, city: string, name: Json)
    requires Truthy(name)
    ensures var business := JDict([("name", name),
              ("location", JDict([("display_address", JList([JStr(street), JStr(city)]))]))]);
            var r := ValidateBusiness(business);
            r.Some? && r.value.address == street + ", " + city
  {
    var lines := [JStr(street), JStr(city)];
    var location := JDict([("display_address", JList(lines))]);
    var b := [("name", name), ("location", location)];
    assert b[..|b| - 1] == [("name", name)];
    assert Lookup([("name", name)], "name") == Some(name);
    assert Get(b, "name", JNull) == name;
    assert Get(b, "location", JNull) == location;
    assert Get(location.entries, "display_address", JNull) == JList(lines);
    assert DisplayAddress(b) == lines;
    var strs := StrAll(lines);
    assert strs[0] == street && strs[1] == city;
    assert strs == [street, city];
    assert Join(", ", [city]) == city;
    assert Join(", ", strs) == street + ", " + city;
  }

  /** A review count that is not a non-negative integer becomes 0. */
  lemma MalformedCountIsZero(count: Json, name: Json)
    requires Truthy(name)
    requires !IsInt(count) || IntValue(count) < 0
    ensures var r := ValidateBusiness(JDict([("name", name), ("review_count", count)]));
            r.Some? && r.value.reviewCount == 0
  {
    var b := [("name", name), ("review_count", count)];
    assert b[..|b| - 1] == [("name", name)];
    assert Lookup([("name", name)], "name") == Some(name);
    assert Get(b, "name", JNull) == name;
  }

  // ------------------------------------------------------------ search

  /** The values `f` gives for the elements it accepts, in order. */
  function Collect<A, B>(xs: seq<A>, f: A -> Option<B>): (r: seq<B>)
    ensures |r| <= |xs|
  {
    if |xs| == 0 then []
    else
      var rest := Collect(xs[1..], f);
      match f(xs[0])
      case Some(y) => [y] + rest
      case None => rest
  }

  lemma {:induction false} CollectSound<A, B>(xs: seq<A>, f: A -> Option<B>)
    ensures forall y :: y in Collect(xs, f) ==> exists i :: 0 <= i < |xs| && f(xs[i]) == Some(y)
  {
    if |xs| > 0 {
      CollectSound(xs[1..], f);
      forall y | y in Collect(xs, f)
        ensures exists i :: 0 <= i < |xs| && f(xs[i]) == Some(y)
      {
        if f(xs[0]) != Some(y) {
          assert y in Collect(xs[1..], f);
          var i :| 0 <= i < |xs[1..]| && f(xs[1..][i]) == Some(y);
          assert xs[1..][i] == xs[i + 1];
        }
      }
    }
  }

  lemma {:induction false} CollectComplete<A, B>(xs: seq<A>, f: A -> Option<B>)
    ensures forall i :: 0 <= i < |xs| && f(xs[i]).Some? ==> f(xs[i]).value in Collect(xs, f)
  {
    if |xs| > 0 {
      CollectComplete(xs[1..], f);
      forall i | 1 <= i < |xs| && f(xs[i]).Some? ensures f(xs[i]).value in Collect(xs, f) {
        assert xs[1..][i - 1] == xs[i];
      }
    }
  }

  lemma {:induction false} CollectAppend<A, B>(a: seq<A>, b: seq<A>, f: A -> Option<B>)
    ensures Collect(a + b, f) == Collect(a, f) + Collect(b, f)
  {
    if |a| > 0 {
      assert (a + b)[0] == a[0];
      assert (a + b)[1..] == a[1..] + b;
      CollectAppend(a[1..], b, f);
    } else {
      assert a + b == b;
    }
  }

  lemma {:induction false} CollectKeepsAll<A, B>(xs: seq<A>, f: A -> Option<B>)
    requires forall i :: 0 <= i < |xs| ==> f(xs[i]).Some?
    ensures |Collect(xs, f)| == |xs|
    ensures forall i :: 0 <= i < |xs| ==> Collect(xs, f)[i] == f(xs[i]).value
  {
    if |xs| > 0 {
      assert forall i :: 1 <= i < |xs| ==> xs[1..][i - 1] == xs[i];
      CollectKeepsAll(xs[1..], f);
    }
  }

  /** The businesses that validate, in their order. */
  function ValidBusinesses(businesses: seq<Json>): (r: seq<Listing>)
    ensures |r| <= |businesses|
    ensures forall g :: g in r ==> exists i :: 0 <= i < |businesses| && ValidateBusiness(businesses[i]) == Some(g)
    ensures forall i :: 0 <= i < |businesses| && ValidateBusiness(businesses[i]).Some? ==>
              ValidateBusiness(businesses[i]).value in r
  {
    CollectSound(businesses, ValidateBusiness);
    CollectComplete(businesses, ValidateBusiness);
    Collect(businesses, ValidateBusiness)
  }

  /** Filtering a concatenation filters each part. */
  lemma ValidBusinessesAppend(a: seq<Json>, b: seq<Json>)
    ensures ValidBusinesses(a + b) == ValidBusinesses(a) + ValidBusinesses(b)
  {
    CollectAppend(a, b, ValidateBusiness);
  }

  /** Nothing is lost when every business validates. */
  lemma ValidBusinessesKeepsAll(businesses: seq<Json>)
    requires forall i :: 0 <= i < |businesses| ==> ValidateBusiness(businesses[i]).Some?
    ensures |ValidBusinesses(businesses)| == |businesses|
    ensures forall i :: 0 <= i < |businesses| ==> ValidBusinesses(businesses)[i] == ValidateBusiness(businesses[i]).value
  {
    CollectKeepsAll(businesses, ValidateBusiness);
  }

  /** The filter step of `search_gyms` applied to the decoded response body:
      nothing unless it is a dict whose `businesses` entry is a list. */
  function SearchResults(data: Json): (r: seq<Listing>)
    ensures !data.JDict? ==> r == []
    ensures data.JDict? && !Get(data.entries, "businesses", JList([])).JList? ==> r == []
    ensures data.JDict? && Get(data.entries, "businesses", JList([])).JList? ==>
              r == ValidBusinesses(Get(data.entries, "businesses", JList([])).items)
  {
    if !data.JDict? then []
    else
      var businesses := Get(data.entries, "businesses", JList([]));
      if !businesses.JList? then [] else ValidBusinesses(businesses.items)
  }
}
