/** The field sanitizers the Yelp and Google Places services share: the
    rating and review-count checks and the `str(...).strip()` idiom. */
module Sanitize {
  import opened Text
  import opened PyValue

  /** A rating is kept when it is `None` or a number (a `bool` included,
      being an `int`), and replaced by "N/A" otherwise. */
  function SanitizeRating(rating: Json): (r: Json)
    ensures r.JNull? || IsNumber(r) || r == JStr("N/A")
    ensures rating.JNull? || IsNumber(rating) ==> r == rating
    ensures !(rating.JNull? || IsNumber(rating)) ==> r == JStr("N/A")
  {
    if rating.JNull? || IsNumber(rating) then rating else JStr("N/A")
  }

  /** A review count is kept when it is a non-negative `int` and replaced
      by 0 otherwise. */
  function SanitizeCount(count: Json): (r: nat)
    ensures IsInt(count) && IntValue(count) >= 0 ==> r == IntValue(count)
    ensures !(IsInt(count) && IntValue(count) >= 0) ==> r == 0
  {
    if IsInt(count) && IntValue(count) >= 0 then IntValue(count) else 0
  }

  /** `str(v).strip()`. */
  function StrStrip(v: Json): (r: string)
    ensures Trimmed(r)
    ensures v.JStr? ==> r == Strip(v.s)
  {
    Strip(Str(v))
  }

  /** `[str(x) for x in items]`. */
  function StrAll(items: seq<Json>): (r: seq<string>)
    ensures |r| == |items| && forall i :: 0 <= i < |items| ==> r[i] == Str(items[i])
  {
    if |items| == 0 then [] else [Str(items[0])] + StrAll(items[1..])
  }
}
