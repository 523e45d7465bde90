/** The gym records the matcher consumes and produces, and the field
    precedence `_merge_gym_records` (src/gym_finder.py) applies to a
    matched Yelp/Google pair. */
module Records {
  import opened PyValue

  /** A sanitized provider record. The eight keys every record has are
      fields; the provider-specific keys (`place_id`, `location`, `types`,
      `open_now`, `instagram`, ...) are kept as dict entries. */
  datatype Listing = Listing(
    name: string,
    address: string,
    phone: string,
    rating: Json,
    reviewCount: int,
    price: string,
    url: string,
    source: string,
    extras: seq<(string, Json)>)

  /** A record of the matcher's output: the listing, its `match_confidence`
      and its `sources` list. */
  datatype Matched = Matched(gym: Listing, confidence: real, sources: seq<string>)

  /** The sentinel the sanitizers put in a missing text field. */
  const NotAvailable: string := "N/A"

  const MergedSource: string := "Merged (Yelp + Google)"

  const BothSources: seq<string> := ["Yelp", "Google Places"]

  /** An unmatched record, tagged with confidence 0 and its one source. */
  function Unmatched(gym: Listing, source: string): (r: Matched)
    ensures r.gym == gym && r.confidence == 0.0 && r.sources == [source]
  {
    Matched(gym, 0.0, [source])
  }

  /** `_merge_gym_records`: the merged record of a matched pair. */
  function MergeGymRecords(yelp: Listing, google: Listing, confidence: real): (r: Matched)
    ensures r.confidence == confidence && r.sources == BothSources
    ensures r.gym.source == MergedSource
    // identity fields come from Yelp
    ensures r.gym.name == yelp.name && r.gym.url == yelp.url
    // the longer address, Yelp's on a tie
    ensures |r.gym.address| >= |yelp.address| && |r.gym.address| >= |google.address|
    ensures r.gym.address == (if |google.address| > |yelp.address| then google.address else yelp.address)
    // contact and price: Yelp's unless missing there
    ensures r.gym.phone == NotAvailable <==> yelp.phone == NotAvailable && google.phone == NotAvailable
    ensures r.gym.phone == (if yelp.phone != NotAvailable then yelp.phone else google.phone)
    ensures r.gym.price == NotAvailable <==> yelp.price == NotAvailable && google.price == NotAvailable
    ensures r.gym.price == (if yelp.price != NotAvailable then yelp.price else google.price)
    // rating: Google's unless missing there
    ensures r.gym.rating == JStr(NotAvailable) <==> yelp.rating == JStr(NotAvailable) && google.rating == JStr(NotAvailable)
    ensures r.gym.rating == (if google.rating != JStr(NotAvailable) then google.rating else yelp.rating)
    ensures r.gym.reviewCount >= yelp.reviewCount && r.gym.reviewCount >= google.reviewCount
    ensures r.gym.reviewCount == yelp.reviewCount || r.gym.reviewCount == google.reviewCount
    // Google-only data comes from Google, the rest from Yelp, with the code's defaults
    ensures Get(r.gym.extras, "place_id", JNull) == Get(google.extras, "place_id", JNull)
    ensures Get(r.gym.extras, "location", JNull) == Get(google.extras, "location", JDict([]))
    ensures Get(r.gym.extras, "types", JNull) == Get(google.extras, "types", JList([]))
    ensures Get(r.gym.extras, "open_now", JNull) == Get(google.extras, "open_now", JNull)
    ensures Get(r.gym.extras, "instagram", JNull) == Get(yelp.extras, "instagram", JStr(NotAvailable))
    ensures Get(r.gym.extras, "membership_fee", JNull) == Get(yelp.extras, "membership_fee", JStr("TBD"))
  {
    var extras := MergeExtras(yelp.extras, google.extras);
    MergedExtras(extras);
    var gym := Listing(
      name := yelp.name,
      address := if |google.address| > |yelp.address| then google.address else yelp.address,
      phone := if yelp.phone != NotAvailable then yelp.phone else google.phone,
      rating := if google.rating != JStr(NotAvailable) then google.rating else yelp.rating,
      reviewCount := if yelp.reviewCount >= google.reviewCount then yelp.reviewCount else google.reviewCount,
      price := if yelp.price != NotAvailable then yelp.price else google.price,
      url := yelp.url,
      source := MergedSource,
      extras := extras);
    Matched(gym, confidence, BothSources)
  }

  /** The provider-specific entries of a merged record. */
  function MergeExtras(yelp: seq<(string, Json)>, google: seq<(string, Json)>): seq<(string, Json)> {
    [
      ("instagram", Get(yelp, "instagram", JStr(NotAvailable))),
      ("membership_fee", Get(yelp, "membership_fee", JStr("TBD"))),
      ("place_id", Get(google, "place_id", JNull)),
      ("location", Get(google, "location", JDict([]))),
      ("types", Get(google, "types", JList([]))),
      ("open_now", Get(google, "open_now", JNull))
    ]
  }

  lemma MergeExtrasStable(yelp: seq<(string, Json)>, google: seq<(string, Json)>)
    ensures MergeExtras(MergeExtras(yelp, google), google) == MergeExtras(yelp, google)
  {
    var m := MergeExtras(yelp, google);
    LookupDistinct(m, 0);
    LookupDistinct(m, 1);
  }

  /** Looking a key up in the six merged extras finds its own entry. */
  lemma MergedExtras(extras: seq<(string, Json)>)
    requires |extras| == 6
    requires extras[0].0 == "instagram" && extras[1].0 == "membership_fee" && extras[2].0 == "place_id"
    requires extras[3].0 == "location" && extras[4].0 == "types" && extras[5].0 == "open_now"
    ensures forall i :: 0 <= i < 6 ==> Get(extras, extras[i].0, JNull) == extras[i].1
  {
    forall i | 0 <= i < 6 ensures Get(extras, extras[i].0, JNull) == extras[i].1 {
      LookupDistinct(extras, i);
    }
  }

  /** With pairwise distinct keys, a lookup finds the one entry with that key. */
  lemma LookupDistinct(entries: seq<(string, Json)>, i: int)
    requires 0 <= i < |entries|
    requires forall j, k :: 0 <= j < k < |entries| ==> entries[j].0 != entries[k].0
    ensures Lookup(entries, entries[i].0) == Some(entries[i].1)
  {
    LookupAt(entries, i);
  }

  /** A lookup finds entry `i` when no later entry repeats its key. */
  lemma {:induction false} LookupAt(entries: seq<(string, Json)>, i: int)
    requires 0 <= i < |entries|
    requires forall k :: i < k < |entries| ==> entries[k].0 != entries[i].0
    ensures Lookup(entries, entries[i].0) == Some(entries[i].1)
  {
    if i < |entries| - 1 {
      LookupAt(entries[..|entries| - 1], i);
    }
  }

  /** Merging a merged record again with the same Google record changes
      nothing: every precedence rule already points at the value it holds. */
  lemma MergeAgainIsStable(yelp: Listing, google: Listing, c1: real, c2: real)
    ensures MergeGymRecords(MergeGymRecords(yelp, google, c1).gym, google, c2).gym
         == MergeGymRecords(yelp, google, c1).gym
  {
    var m := MergeGymRecords(yelp, google, c1).gym;
    var again := MergeGymRecords(m, google, c2).gym;
    MergeExtrasStable(yelp.extras, google.extras);
    assert again.extras == m.extras;
  }
}
