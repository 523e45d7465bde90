/** The enrichment scorers of `GooglePlacesService`
    (google_places_service.py): the keyword sentiment of a place's reviews
    and the completeness of its profile. */
module Enrichment {
  import opened Text
  import opened PyValue
  import opened Numbers

  // ------------------------------------------------------------ sentiment

  const PositiveKeywords: seq<string> :=
    ["great", "excellent", "amazing", "love", "recommend", "clean", "friendly", "helpful"]

  const NegativeKeywords: seq<string> :=
    ["bad", "terrible", "dirty", "rude", "expensive", "crowded", "broken"]

  /** Only the first reviews are analyzed. */
  const ReviewsAnalyzed: nat := 5

  /** The number of keywords occurring in `text`. */
  function Hits(keywords: seq<string>, text: string): (r: nat)
    ensures r <= |keywords|
    ensures r == 0 <==> forall k :: 0 <= k < |keywords| ==> !Contains(text, keywords[k])
  {
    if |keywords| == 0 then 0
    else
      assert forall k :: 1 <= k < |keywords| ==> keywords[1..][k - 1] == keywords[k];
      (if Contains(text, keywords[0]) then 1 else 0) + Hits(keywords[1..], text)
  }

  /** `review.get("text", {}).get("text", "").lower()`: a review or its
      `text` entry that is not a dict, or a text that is not a string, has
      no such method and raises. */
  function ReviewText(review: Json): (r: PyResult<string>)
    ensures r.Raised? ==> r.error == AttributeError
    ensures r.Ok? ==> NoUpper(r.value)
    ensures r.Ok? <==> review.JDict? && Get(review.entries, "text", JDict([])).JDict?
                       && Get(Get(review.entries, "text", JDict([])).entries, "text", JStr("")).JStr?
  {
    if !review.JDict? then Raised(AttributeError)
    else
      var inner := Get(review.entries, "text", JDict([]));
      if !inner.JDict? then Raised(AttributeError)
      else
        var text := Get(inner.entries, "text", JStr(""));
        if !text.JStr? then Raised(AttributeError)
        else
          LowerHasNoUpper(text.s);
          Ok(Lower(text.s))
  }

  /** The score of one review text: `None` when it is empty or hits no
      keyword, else (positive - negative) / (positive + negative). */
  function ReviewScore(text: string): (r: Option<real>)
    ensures r.None? <==> text == "" || Hits(PositiveKeywords, text) + Hits(NegativeKeywords, text) == 0
    ensures r.Some? ==> -1.0 <= r.value <= 1.0
    ensures r.Some? ==> (r.value > 0.0 <==> Hits(PositiveKeywords, text) > Hits(NegativeKeywords, text))
    ensures r.Some? ==> (r.value == 1.0 <==> Hits(NegativeKeywords, text) == 0)
    ensures r.Some? ==> (r.value == -1.0 <==> Hits(PositiveKeywords, text) == 0)
  {
    var p, n := Hits(PositiveKeywords, text), Hits(NegativeKeywords, text);
    if text == "" || p + n == 0 then None
    else Some(Ratio(p, n))
  }

  /** (p - n) / (p + n) for hit counts not both zero. */
  function Ratio(p: nat, n: nat): (r: real)
    requires p + n > 0
    ensures -1.0 <= r <= 1.0
    ensures r > 0.0 <==> p > n
    ensures r == 1.0 <==> n == 0
    ensures r == -1.0 <==> p == 0
  {
    var total := (p + n) as real;
    var x := (p - n) as real / total;
    MeanBetween((p - n) as real, total, -1.0, 1.0);
    QuotientSign((p - n) as real, total);
    x
  }

  /** What one review contributes: its score, `None` when it hits no
      keyword, or the error reading its text raises. */
  function ReviewResult(review: Json): (r: PyResult<Option<real>>)
    ensures r.Ok? <==> ReviewText(review).Ok?
    ensures r.Raised? ==> r.error == AttributeError
  {
    match ReviewText(review)
    case Raised(e) => Raised(e)
    case Ok(text) => Ok(ReviewScore(text))
  }

  /** The values `score` gives the elements, in order, skipping `None`; the
      first element whose score raises stops the loop. */
  function Collect(xs: seq<Json>, score: Json -> PyResult<Option<real>>): (r: PyResult<seq<real>>)
    ensures r.Ok? ==> |r.value| <= |xs|
    ensures r.Ok? <==> forall i :: 0 <= i < |xs| ==> score(xs[i]).Ok?
    ensures r.Raised? ==> exists i :: 0 <= i < |xs| && score(xs[i]) == Raised(r.error)
  {
    if |xs| == 0 then Ok([])
    else
      assert forall i :: 1 <= i < |xs| ==> xs[1..][i - 1] == xs[i];
      match score(xs[0])
      case Raised(e) => Raised(e)
      case Ok(first) =>
        match Collect(xs[1..], score)
        case Raised(e) => Raised(e)
        case Ok(rest) =>
          match first
          case Some(v) => Ok([v] + rest)
          case None => Ok(rest)
  }

  /** The scores of the reviews that hit a keyword, in order. */
  function Scores(reviews: seq<Json>): (r: PyResult<seq<real>>)
    ensures r.Raised? ==> r.error == AttributeError
  {
    Collect(reviews, ReviewResult)
  }

  /** Every score lies in [-1, 1]. */
  lemma ScoresInRange(reviews: seq<Json>)
    ensures Scores(reviews).Ok? ==> forall i :: 0 <= i < |Scores(reviews).value| ==> -1.0 <= Scores(reviews).value[i] <= 1.0
  {
    forall i | 0 <= i < |reviews| && ReviewResult(reviews[i]).Ok? && ReviewResult(reviews[i]).value.Some?
      ensures -1.0 <= ReviewResult(reviews[i]).value.value <= 1.0
    {
      var text := ReviewText(reviews[i]).value;
      assert ReviewResult(reviews[i]).value == ReviewScore(text);
    }
    CollectInRange(reviews, ReviewResult);
  }

  lemma {:induction false} CollectInRange(xs: seq<Json>, score: Json -> PyResult<Option<real>>)
    requires forall i :: 0 <= i < |xs| && score(xs[i]).Ok? && score(xs[i]).value.Some? ==> -1.0 <= score(xs[i]).value.value <= 1.0
    ensures Collect(xs, score).Ok? ==> forall i :: 0 <= i < |Collect(xs, score).value| ==> -1.0 <= Collect(xs, score).value[i] <= 1.0
  {
    if |xs| > 0 {
      assert forall i :: 1 <= i < |xs| ==> xs[1..][i - 1] == xs[i];
      CollectInRange(xs[1..], score);
    }
  }

  /** The arithmetic mean, 0 for no values. */
  function Mean(xs: seq<real>): real {
    if |xs| == 0 then 0.0 else SumReal(xs) / |xs| as real
  }

  /** `reviews[:5]`. */
  function Analyzed(items: seq<Json>): (r: seq<Json>)
    ensures |r| <= |items| && |r| <= ReviewsAnalyzed && (|r| == |items| || |r| == ReviewsAnalyzed)
    ensures forall i :: 0 <= i < |r| ==> r[i] == items[i]
  {
    items[..if |items| < ReviewsAnalyzed then |items| else ReviewsAnalyzed]
  }

  /** `analyze_review_sentiment`: the mean score of the first five reviews
      that hit a keyword, 0 when there are none. A falsy argument gives 0;
      a non-empty string is sliced to its characters, which have no `get`;
      any other truthy non-list cannot be sliced. */
  function Sentiment(reviews: Json): (r: PyResult<real>)
    ensures !Truthy(reviews) ==> r == Ok(0.0)
    ensures reviews.JStr? && reviews.s != "" ==> r == Raised(AttributeError)
  {
    SentimentWith(reviews, ReviewResult)
  }

  /** The sentiment computation for any per-review scorer: a falsy argument
      scores 0 and a truthy string or non-list raises before any review is
      scored; a list succeeds with the mean exactly when none of its first
      five reviews raises. */
  function SentimentWith(reviews: Json, score: Json -> PyResult<Option<real>>): (r: PyResult<real>)
    ensures !Truthy(reviews) ==> r == Ok(0.0)
    ensures Truthy(reviews) && reviews.JStr? ==> r == Raised(AttributeError)
    ensures Truthy(reviews) && !reviews.JList? && !reviews.JStr? ==> r == Raised(TypeError)
    ensures reviews.JList? && (forall i :: 0 <= i < |reviews.items| && i < ReviewsAnalyzed ==> score(reviews.items[i]).Ok?) ==> r.Ok?
  {
    if !Truthy(reviews) then Ok(0.0)
    else if reviews.JList? then
      match Collect(Analyzed(reviews.items), score)
      case Raised(e) => Raised(e)
      case Ok(scores) => Ok(Mean(scores))
    else if reviews.JStr? then Raised(AttributeError)
    else Raised(TypeError)
  }

  /** The sentiment raises exactly for a truthy non-list, or for a list one
      of whose first five reviews has no readable text. */
  lemma SentimentRaises(reviews: Json)
    ensures Sentiment(reviews).Raised?
            <==> (Truthy(reviews) && (!reviews.JList? ||
                   exists i :: 0 <= i < |reviews.items| && i < ReviewsAnalyzed && ReviewText(reviews.items[i]).Raised?))
  {
    SentimentWithRaises(reviews, ReviewResult);
  }

  lemma SentimentWithRaises(reviews: Json, score: Json -> PyResult<Option<real>>)
    ensures SentimentWith(reviews, score).Raised?
            <==> (Truthy(reviews) && (!reviews.JList? ||
                   exists i :: 0 <= i < |reviews.items| && i < ReviewsAnalyzed && score(reviews.items[i]).Raised?))
  {
    if Truthy(reviews) && reviews.JList? {
      var analyzed := Analyzed(reviews.items);
      if exists i :: 0 <= i < |reviews.items| && i < ReviewsAnalyzed && score(reviews.items[i]).Raised? {
        var i :| 0 <= i < |reviews.items| && i < ReviewsAnalyzed && score(reviews.items[i]).Raised?;
        assert analyzed[i] == reviews.items[i];
      }
    }
  }

  /** The mean of values in [-1, 1] is in [-1, 1]. */
  lemma MeanInRange(xs: seq<real>)
    requires forall i :: 0 <= i < |xs| ==> -1.0 <= xs[i] <= 1.0
    ensures -1.0 <= Mean(xs) <= 1.0
  {
    if |xs| > 0 {
      SumRealBounds(xs, -1.0, 1.0);
      MeanBetween(SumReal(xs), |xs| as real, -1.0, 1.0);
    }
  }

  /** The sentiment is a value in [-1, 1]. */
  lemma SentimentInRange(reviews: Json)
    ensures Sentiment(reviews).Ok? ==> -1.0 <= Sentiment(reviews).value <= 1.0
  {
    if Truthy(reviews) && reviews.JList? {
      var scores := Scores(Analyzed(reviews.items));
      ScoresInRange(Analyzed(reviews.items));
      if scores.Ok? {
        MeanInRange(scores.value);
      }
    }
  }

  /** Reviews past the fifth change nothing, even ones that would raise. */
  lemma SentimentReadsFirstFive(first: seq<Json>, more: seq<Json>)
    requires |first| == ReviewsAnalyzed
    ensures Sentiment(JList(first + more)) == Sentiment(JList(first))
  {
    assert Analyzed(first + more) == Analyzed(first);
    assert Truthy(JList(first + more)) && Truthy(JList(first));
  }

  /** Reviews that hit no keyword contribute nothing to the scores. */
  lemma {:induction false} NoHitsScoreNothing(reviews: seq<Json>)
    requires forall i :: 0 <= i < |reviews| ==> ReviewText(reviews[i]).Ok?
    requires forall i :: 0 <= i < |reviews| ==> ReviewScore(ReviewText(reviews[i]).value).None?
    ensures Scores(reviews) == Ok([])
  {
    if |reviews| > 0 {
      assert forall i :: 1 <= i < |reviews| ==> reviews[1..][i - 1] == reviews[i];
      NoHitsScoreNothing(reviews[1..]);
    }
  }

  /** A list of reviews none of which hits a keyword has sentiment 0. */
  lemma NoHitsIsNeutral(reviews: seq<Json>)
    requires forall i :: 0 <= i < |reviews| ==> ReviewText(reviews[i]).Ok?
    requires forall i :: 0 <= i < |reviews| ==> ReviewScore(ReviewText(reviews[i]).value).None?
    ensures Sentiment(JList(reviews)) == Ok(0.0)
  {
    if reviews != [] {
      NoHitsScoreNothing(Analyzed(reviews));
    }
  }

  /** One review that only praises gives the maximal sentiment. */
  lemma OnePraiseIsPositive(review: Json)
    requires ReviewText(review).Ok?
    requires ReviewScore(ReviewText(review).value).Some?
    requires Hits(NegativeKeywords, ReviewText(review).value) == 0
    ensures Sentiment(JList([review])) == Ok(1.0)
  {
    assert ReviewResult(review) == Ok(Some(1.0));
    CollectOne(review, ReviewResult);
    assert Analyzed([review]) == [review];
    assert SumReal([1.0]) == 1.0;
  }

  /** A one-review list collects that review's score. */
  lemma CollectOne(review: Json, score: Json -> PyResult<Option<real>>)
    requires score(review).Ok? && score(review).value.Some?
    ensures Collect([review], score) == Ok([score(review).value.value])
  {
    var v := score(review).value.value;
    assert [review][0] == review && [review][1..] == [];
    assert Collect([], score) == Ok([]);
    assert [v] + [] == [v];
  }

  // ------------------------------------------------------------ completeness

  /** The profile fields and what each adds to the completeness score. */
  const CompletenessWeights: seq<(string, real)> := [
    ("displayName", 0.1),
    ("formattedAddress", 0.1),
    ("nationalPhoneNumber", 0.1),
    ("websiteUri", 0.15),
    ("regularOpeningHours", 0.1),
    ("photos", 0.1),
    ("reviews", 0.1),
    ("editorialSummary", 0.05)
  ]

  const CompletenessCap: real := 0.8

  lemma WeightsArePositive()
    ensures PositiveWeights(CompletenessWeights)
  {}

  /** `place_data.get(key)` is truthy. */
  predicate Present(place: seq<(string, Json)>, key: string) {
    Truthy(Get(place, key, JNull))
  }

  /** The summed weights of the present fields. */
  function WeightedSum(place: seq<(string, Json)>, weights: seq<(string, real)>): real {
    if |weights| == 0 then 0.0
    else (if Present(place, weights[0].0) then weights[0].1 else 0.0) + WeightedSum(place, weights[1..])
  }

  function TotalWeight(weights: seq<(string, real)>): real {
    if |weights| == 0 then 0.0 else weights[0].1 + TotalWeight(weights[1..])
  }

  predicate PositiveWeights(weights: seq<(string, real)>) {
    forall i :: 0 <= i < |weights| ==> weights[i].1 > 0.0
  }

  /** `calculate_business_profile_completeness`: the weights of the present
      fields, capped at 0.8; `get` on a non-dict raises. */
  function Completeness(place: Json): (r: PyResult<real>)
    ensures r.Raised? <==> !place.JDict?
    ensures r.Raised? ==> r.error == AttributeError
    ensures r.Ok? ==> 0.0 <= r.value <= CompletenessCap
  {
    if !place.JDict? then Raised(AttributeError)
    else
      WeightsArePositive();
      WeightedSumBounds(place.entries, CompletenessWeights);
      var score := WeightedSum(place.entries, CompletenessWeights);
      Ok(if score < CompletenessCap then score else CompletenessCap)
  }

  /** With positive weights, the sum lies between 0 and the total, and is
      0 exactly when no field is present. */
  lemma {:induction false} WeightedSumBounds(place: seq<(string, Json)>, weights: seq<(string, real)>)
    requires PositiveWeights(weights)
    ensures 0.0 <= WeightedSum(place, weights) <= TotalWeight(weights)
    ensures WeightedSum(place, weights) == 0.0 <==> forall i :: 0 <= i < |weights| ==> !Present(place, weights[i].0)
  {
    if |weights| > 0 {
      assert forall i :: 1 <= i < |weights| ==> weights[1..][i - 1] == weights[i];
      WeightedSumBounds(place, weights[1..]);
    }
  }

  /** A field becoming present never lowers the sum. */
  lemma {:induction false} WeightedSumMonotone(a: seq<(string, Json)>, b: seq<(string, Json)>, weights: seq<(string, real)>)
    requires PositiveWeights(weights)
    requires forall i :: 0 <= i < |weights| && Present(a, weights[i].0) ==> Present(b, weights[i].0)
    ensures WeightedSum(a, weights) <= WeightedSum(b, weights)
  {
    if |weights| > 0 {
      assert forall i :: 1 <= i < |weights| ==> weights[1..][i - 1] == weights[i];
      WeightedSumMonotone(a, b, weights[1..]);
    }
  }

  /** The weights add up to exactly the cap, so the cap never lowers a
      score: the score is the plain sum of the present weights. */
  lemma CapNeverBinds(place: seq<(string, Json)>)
    ensures TotalWeight(CompletenessWeights) == CompletenessCap
    ensures Completeness(JDict(place)) == Ok(WeightedSum(place, CompletenessWeights))
  {
    var w := CompletenessWeights;
    assert TotalWeight(w[7..]) == 0.05;
    assert TotalWeight(w[6..]) == 0.15;
    assert TotalWeight(w[5..]) == 0.25;
    assert TotalWeight(w[4..]) == 0.35;
    assert TotalWeight(w[3..]) == 0.5;
    assert TotalWeight(w[2..]) == 0.6;
    assert TotalWeight(w[1..]) == 0.7;
    WeightedSumBounds(place, w);
  }

  /** Completeness never decreases when another field becomes present. */
  lemma CompletenessMonotone(a: seq<(string, Json)>, b: seq<(string, Json)>)
    requires forall key :: Present(a, key) ==> Present(b, key)
    ensures Completeness(JDict(a)).value <= Completeness(JDict(b)).value
  {
    WeightedSumMonotone(a, b, CompletenessWeights);
  }

  /** A profile scores 0 exactly when none of the eight fields is present. */
  lemma CompletenessZero(place: seq<(string, Json)>)
    ensures Completeness(JDict(place)) == Ok(0.0)
            <==> forall i :: 0 <= i < |CompletenessWeights| ==> !Present(place, CompletenessWeights[i].0)
  {
    WeightsArePositive();
    WeightedSumBounds(place, CompletenessWeights);
  }
}
