/** `generate_metro_statistics` (src/run_gym_search.py): the aggregate
    figures of a metro-wide batch of ZIP-code searches. */
module MetroStats {
  import opened Text
  import opened PyValue
  import opened Numbers

  /** The two keys of a result gym the statistics read: `source` ("" when
      absent) and `match_confidence` (0 when absent). */
  datatype GymSummary = GymSummary(source: string, confidence: real)

  /** One ZIP code's entry of the batch results: its gym list when it has
      a "gyms" key, whether it has an "error" key, and
      `search_info.merged_count` (0 when absent). */
  datatype ZipResult = ZipResult(gyms: Option<seq<GymSummary>>, hasError: bool, mergedCount: int)

  /** The fields of a metropolitan area the statistics copy. */
  datatype MetroArea = MetroArea(
    name: string,
    zipCodes: seq<string>,
    marketCharacteristics: seq<string>,
    densityCategory: string)

  datatype SourceCounts = SourceCounts(yelp: nat, google: nat, merged: nat)

  datatype ZipDensity = ZipDensity(average: real, maximum: nat, minimum: nat)

  datatype MetroStatistics =
    | NoSuccessfulSearches
    | Statistics(
        areaName: string,
        zipCodesTotal: nat,
        processed: nat,
        successful: nat,
        failed: nat,
        totalGyms: nat,
        totalMerged: int,
        mergeRate: real,
        averageConfidence: real,
        sources: SourceCounts,
        perZip: ZipDensity,
        marketCharacteristics: seq<string>,
        densityCategory: string)

  // ------------------------------------------------------------ selections

  /** The gym lists of the successful searches, in order. */
  function SuccessfulLists(results: seq<ZipResult>): (r: seq<seq<GymSummary>>)
    ensures |r| <= |results|
    ensures r == [] <==> forall i :: 0 <= i < |results| ==> results[i].gyms.None?
  {
    if |results| == 0 then []
    else
      var rest := SuccessfulLists(results[1..]);
      assert forall i :: 1 <= i < |results| ==> results[1..][i - 1] == results[i];
      match results[0].gyms
      case Some(gyms) => [gyms] + rest
      case None => rest
  }

  /** The number of results with an "error" key. */
  function FailedCount(results: seq<ZipResult>): (r: nat)
    ensures r <= |results|
  {
    if |results| == 0 then 0
    else (if results[0].hasError then 1 else 0) + FailedCount(results[1..])
  }

  /** The summed merge counts of the successful searches. */
  function MergedTotal(results: seq<ZipResult>): int {
    if |results| == 0 then 0
    else (if results[0].gyms.Some? then results[0].mergedCount else 0) + MergedTotal(results[1..])
  }

  function Lengths(lists: seq<seq<GymSummary>>): (r: seq<nat>)
    ensures |r| == |lists|
  {
    if |lists| == 0 then [] else [|lists[0]|] + Lengths(lists[1..])
  }

  /** All gyms of the lists, in order. */
  function Flatten(lists: seq<seq<GymSummary>>): (r: seq<GymSummary>)
    ensures |r| == SumNat(Lengths(lists))
  {
    if |lists| == 0 then [] else lists[0] + Flatten(lists[1..])
  }

  /** The strictly positive confidences, in order. */
  function PositiveConfidences(gyms: seq<GymSummary>): (r: seq<real>)
    ensures |r| <= |gyms|
    ensures forall i :: 0 <= i < |r| ==> r[i] > 0.0
  {
    if |gyms| == 0 then []
    else
      var rest := PositiveConfidences(gyms[1..]);
      if gyms[0].confidence > 0.0 then [gyms[0].confidence] + rest else rest
  }

  /** The source bucket of a gym: "Merged" is looked for first, then "Yelp",
      then "Google"; a source holding none of them counts nowhere. */
  datatype Bucket = MergedBucket | YelpBucket | GoogleBucket | NoBucket

  function BucketOf(source: string): Bucket {
    if Contains(source, "Merged") then MergedBucket
    else if Contains(source, "Yelp") then YelpBucket
    else if Contains(source, "Google") then GoogleBucket
    else NoBucket
  }

  function CountSources(gyms: seq<GymSummary>): SourceCounts {
    if |gyms| == 0 then SourceCounts(0, 0, 0)
    else
      var rest := CountSources(gyms[1..]);
      match BucketOf(gyms[0].source)
      case MergedBucket => rest.(merged := rest.merged + 1)
      case YelpBucket => rest.(yelp := rest.yelp + 1)
      case GoogleBucket => rest.(google := rest.google + 1)
      case NoBucket => rest
  }

  function MaxNat(xs: seq<nat>): nat
    requires |xs| > 0
  {
    if |xs| == 1 then xs[0]
    else var m := MaxNat(xs[1..]); if xs[0] >= m then xs[0] else m
  }

  function MinNat(xs: seq<nat>): nat
    requires |xs| > 0
  {
    if |xs| == 1 then xs[0]
    else var m := MinNat(xs[1..]); if xs[0] <= m then xs[0] else m
  }

  // ------------------------------------------------------------ statistics

  /** `generate_metro_statistics`: an error entry when no search succeeded,
      else the aggregate figures over the successful searches. */
  function MetroStatisticsOf(area: MetroArea, results: seq<ZipResult>): (r: MetroStatistics)
    ensures r.NoSuccessfulSearches? <==> forall i :: 0 <= i < |results| ==> results[i].gyms.None?
    ensures r.Statistics? ==>
      && r.processed == |results|
      && r.successful <= |results| && r.failed <= |results|
      && r.zipCodesTotal == |area.zipCodes|
      && r.areaName == area.name
  {
    var lists := SuccessfulLists(results);
    if |lists| == 0 then NoSuccessfulSearches
    else
      var gyms := Flatten(lists);
      var totalGyms := |gyms|;
      var totalMerged := MergedTotal(results);
      var confidences := PositiveConfidences(gyms);
      var perZip := Lengths(lists);
      Statistics(
        areaName := area.name,
        zipCodesTotal := |area.zipCodes|,
        processed := |results|,
        successful := |lists|,
        failed := FailedCount(results),
        totalGyms := totalGyms,
        totalMerged := totalMerged,
        mergeRate := if totalGyms > 0 then totalMerged as real / totalGyms as real * 100.0 else 0.0,
        averageConfidence := if |confidences| > 0 then SumReal(confidences) / |confidences| as real else 0.0,
        sources := CountSources(gyms),
        perZip := ZipDensity(SumNat(perZip) as real / |perZip| as real, MaxNat(perZip), MinNat(perZip)),
        marketCharacteristics := area.marketCharacteristics,
        densityCategory := area.densityCategory)
  }

  // ------------------------------------------------------------ properties

  /** The three buckets are disjoint, so together they count at most every gym. */
  lemma {:induction false} SourceCountsBounded(gyms: seq<GymSummary>)
    ensures var c := CountSources(gyms); c.yelp + c.google + c.merged <= |gyms|
  {
    if |gyms| > 0 {
      SourceCountsBounded(gyms[1..]);
    }
  }

  /** A merged record is never counted as Yelp, even though its source
      names Yelp too. */
  lemma MergedSourceCountsAsMerged(rest: seq<GymSummary>, confidence: real)
    ensures var with := CountSources([GymSummary("Merged (Yelp + Google)", confidence)] + rest);
            var without := CountSources(rest);
            with == without.(merged := without.merged + 1)
  {
    var s := "Merged (Yelp + Google)";
    assert s[..6] == "Merged";
    assert ([GymSummary(s, confidence)] + rest)[1..] == rest;
  }

  /** A gym whose source names "Merged", "Yelp" or "Google" is counted in
      exactly one bucket, so such gyms are all counted. */
  lemma {:induction false} CountSourcesTotal(gyms: seq<GymSummary>)
    requires forall i :: 0 <= i < |gyms| ==> BucketOf(gyms[i].source) != NoBucket
    ensures var c := CountSources(gyms); c.yelp + c.google + c.merged == |gyms|
  {
    if |gyms| > 0 {
      assert forall i :: 0 <= i < |gyms| - 1 ==> gyms[1..][i] == gyms[i + 1];
      CountSourcesTotal(gyms[1..]);
    }
  }

  /** Counting the gyms of one search after those of another adds the
      counts, as the loop over the successful searches does. */
  lemma {:induction false} CountSourcesAppend(a: seq<GymSummary>, b: seq<GymSummary>)
    ensures var c := CountSources(a + b);
            var ca := CountSources(a);
            var cb := CountSources(b);
            c == SourceCounts(ca.yelp + cb.yelp, ca.google + cb.google, ca.merged + cb.merged)
    decreases |a|
  {
    if |a| > 0 {
      assert (a + b)[0] == a[0];
      assert (a + b)[1..] == a[1..] + b;
      CountSourcesAppend(a[1..], b);
    } else {
      assert a + b == b;
    }
  }

  /** The number of successful and failed searches and the total number of
      gyms found. */
  lemma StatisticsCounts(area: MetroArea, results: seq<ZipResult>)
    requires MetroStatisticsOf(area, results).Statistics?
    ensures var r := MetroStatisticsOf(area, results);
            && r.successful == |SuccessfulLists(results)|
            && r.totalGyms == SumNat(Lengths(SuccessfulLists(results)))
            && r.sources.yelp + r.sources.google + r.sources.merged <= r.totalGyms
  {
    SourceCountsBounded(Flatten(SuccessfulLists(results)));
  }

  /** The merge rate is the merged share of all gyms found, in percent. */
  lemma MergeRateIsShare(area: MetroArea, results: seq<ZipResult>)
    requires MetroStatisticsOf(area, results).Statistics?
    ensures var r := MetroStatisticsOf(area, results);
            && (r.totalGyms == 0 ==> r.mergeRate == 0.0)
            && (r.totalGyms > 0 ==> r.mergeRate * r.totalGyms as real == r.totalMerged as real * 100.0)
  {
    var r := MetroStatisticsOf(area, results);
    if r.totalGyms > 0 {
      var t := r.totalGyms as real;
      var m := r.totalMerged as real;
      assert (m / t) * t == m;
      assert (m / t * 100.0) * t == (m / t) * t * 100.0;
    }
  }

  /** The average confidence is 0 when no gym has a positive confidence,
      and otherwise the mean of the positive ones, so it is itself positive
      and at most the largest confidence. */
  lemma AverageConfidenceBounds(area: MetroArea, results: seq<ZipResult>, top: real)
    requires MetroStatisticsOf(area, results).Statistics?
    requires forall g :: g in Flatten(SuccessfulLists(results)) ==> g.confidence <= top
    ensures var r := MetroStatisticsOf(area, results);
            && (PositiveConfidences(Flatten(SuccessfulLists(results))) == [] ==> r.averageConfidence == 0.0)
            && (PositiveConfidences(Flatten(SuccessfulLists(results))) != [] ==> 0.0 < r.averageConfidence <= top)
  {
    var gyms := Flatten(SuccessfulLists(results));
    var cs := PositiveConfidences(gyms);
    var r := MetroStatisticsOf(area, results);
    assert r.averageConfidence == if |cs| > 0 then SumReal(cs) / |cs| as real else 0.0;
    if cs != [] {
      PositiveConfidencesBelow(gyms, top);
      MeanOfPositives(cs, top);
    }
  }

  /** The mean of positive values at most `top` is positive and at most `top`. */
  lemma MeanOfPositives(cs: seq<real>, top: real)
    requires |cs| > 0
    requires forall i :: 0 <= i < |cs| ==> 0.0 < cs[i] <= top
    ensures 0.0 < SumReal(cs) / |cs| as real <= top
  {
    var n := |cs| as real;
    SumRealBounds(cs, 0.0, top);
    SumPositive(cs);
    PositiveMean(SumReal(cs), n, top);
  }

  lemma {:induction false} PositiveConfidencesBelow(gyms: seq<GymSummary>, top: real)
    requires forall g :: g in gyms ==> g.confidence <= top
    ensures forall i :: 0 <= i < |PositiveConfidences(gyms)| ==> PositiveConfidences(gyms)[i] <= top
  {
    if |gyms| > 0 {
      assert gyms[0] in gyms;
      assert forall g :: g in gyms[1..] ==> g in gyms;
      PositiveConfidencesBelow(gyms[1..], top);
    }
  }

  lemma {:induction false} MinMaxBounds(xs: seq<nat>)
    requires |xs| > 0
    ensures forall i :: 0 <= i < |xs| ==> MinNat(xs) <= xs[i] <= MaxNat(xs)
    ensures MaxNat(xs) in xs && MinNat(xs) in xs
  {
    if |xs| > 1 {
      MinMaxBounds(xs[1..]);
      assert forall i :: 1 <= i < |xs| ==> xs[1..][i - 1] == xs[i];
    }
  }

  /** The mean of non-empty counts lies between their minimum and maximum. */
  lemma MeanOfCounts(counts: seq<nat>)
    requires |counts| > 0
    ensures MinNat(counts) as real <= SumNat(counts) as real / |counts| as real <= MaxNat(counts) as real
  {
    MinMaxBounds(counts);
    SumNatBounds(counts, MinNat(counts), MaxNat(counts));
    NatMeanBetween(SumNat(counts), |counts|, MinNat(counts), MaxNat(counts));
  }

  /** The average number of gyms per successful ZIP code lies between the
      smallest and the largest count, which are counts of some search. */
  lemma PerZipBounds(area: MetroArea, results: seq<ZipResult>)
    requires MetroStatisticsOf(area, results).Statistics?
    ensures var r := MetroStatisticsOf(area, results);
            var counts := Lengths(SuccessfulLists(results));
            && r.perZip.minimum as real <= r.perZip.average <= r.perZip.maximum as real
            && r.perZip.maximum in counts && r.perZip.minimum in counts
  {
    var counts := Lengths(SuccessfulLists(results));
    var r := MetroStatisticsOf(area, results);
    assert |counts| > 0;
    assert r.perZip == ZipDensity(SumNat(counts) as real / |counts| as real, MaxNat(counts), MinNat(counts));
    MinMaxBounds(counts);
    MeanOfCounts(counts);
  }

  /** The batch of the test of `generate_metro_statistics`: two successful ZIP codes with a
      Yelp, a merged and a Google record, and one failed ZIP code, give a
      merge rate of one in three and an average confidence of 0.85. */
  lemma TestBatchStatistics()
    ensures var area := MetroArea("Test Metro", ["10001", "10002"], ["test_market"], "");
            var results := [
              ZipResult(Some([GymSummary("Yelp", 0.8), GymSummary("Merged", 0.9)]), false, 1),
              ZipResult(Some([GymSummary("Google Places", 0.0)]), false, 0),
              ZipResult(None, true, 0)];
            var r := MetroStatisticsOf(area, results);
            && r.Statistics?
            && r.areaName == "Test Metro"
            && r.processed == 3 && r.successful == 2 && r.failed == 1
            && r.totalGyms == 3 && r.totalMerged == 1
            && r.mergeRate == 100.0 / 3.0
            && r.averageConfidence == 0.85
  {
    var z1 := [GymSummary("Yelp", 0.8), GymSummary("Merged", 0.9)];
    var z2 := [GymSummary("Google Places", 0.0)];
    var results := [ZipResult(Some(z1), false, 1), ZipResult(Some(z2), false, 0), ZipResult(None, true, 0)];
    assert results[1..][1..] == [ZipResult(None, true, 0)];
    assert SuccessfulLists(results) == [z1, z2];
    assert Flatten([z1, z2]) == z1 + z2;
    var gyms := z1 + z2;
    assert gyms[1..] == [GymSummary("Merged", 0.9), GymSummary("Google Places", 0.0)];
    assert gyms[1..][1..] == [GymSummary("Google Places", 0.0)];
    assert PositiveConfidences(gyms[1..][1..]) == [];
    assert PositiveConfidences(gyms[1..]) == [0.9];
    assert PositiveConfidences(gyms) == [0.8, 0.9];
    assert SumReal([0.8, 0.9]) == 1.7;
    assert FailedCount(results[1..][1..]) == 1;
    assert FailedCount(results) == 1;
    assert MergedTotal(results[1..][1..]) == 0;
    assert MergedTotal(results) == 1;
  }
}
