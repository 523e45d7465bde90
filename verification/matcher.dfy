/** `GymFinder.fuzzy_match_gyms` (src/gym_finder.py): the per-pair
    confidence score and the greedy one-to-one matcher anchored on the Yelp
    list. difflib's `SequenceMatcher(None, a, b).ratio()` is a parameter
    `ratio`, known only to lie between 0 and 1. */
module Matcher {
  import opened Text
  import opened PyValue
  import opened Normalize
  import opened NameScores
  import opened Records
  import opened Greedy

  /** What the matcher assumes of a string similarity ratio. */
  ghost predicate IsRatio(ratio: (string, string) -> real) {
    forall a, b :: 0.0 <= ratio(a, b) <= 1.0
  }

  /** A ratio that does not depend on the order of its arguments. */
  ghost predicate IsSymmetric(ratio: (string, string) -> real) {
    forall a, b :: ratio(a, b) == ratio(b, a)
  }

  /** The default `confidence_threshold`. */
  const DefaultThreshold: real := 0.35

  // ------------------------------------------------------- name signals

  function Max(a: real, b: real): (r: real)
    ensures r >= a && r >= b && (r == a || r == b)
  {
    if a >= b then a else b
  }

  /** The best of the four name signals: the ratio of the lower-cased names,
      the ratio of the cleaned names, the token similarity of the lower-cased
      names and the semantic similarity of the cleaned names. */
  function NameSimilarity(ratio: (string, string) -> real, yelpName: string, googleName: string): (r: real)
    requires IsRatio(ratio)
    ensures 0.0 <= r <= 1.0
    ensures r >= ratio(Lower(yelpName), Lower(googleName))
    ensures r >= ratio(CleanGymName(Lower(yelpName)), CleanGymName(Lower(googleName)))
    ensures r >= TokenSimilarity(Lower(yelpName), Lower(googleName))
    ensures r >= SemanticSimilarity(CleanGymName(Lower(yelpName)), CleanGymName(Lower(googleName)))
    ensures r == ratio(Lower(yelpName), Lower(googleName))
         || r == ratio(CleanGymName(Lower(yelpName)), CleanGymName(Lower(googleName)))
         || r == TokenSimilarity(Lower(yelpName), Lower(googleName))
         || r == SemanticSimilarity(CleanGymName(Lower(yelpName)), CleanGymName(Lower(googleName)))
  {
    var y := Lower(yelpName);
    var g := Lower(googleName);
    var yc := CleanGymName(y);
    var gc := CleanGymName(g);
    Max(Max(ratio(y, g), ratio(yc, gc)), Max(TokenSimilarity(y, g), SemanticSimilarity(yc, gc)))
  }

  /** The boost for a very similar name: 0.05 above 0.9, 0.03 above 0.8,
      0.02 above 0.7. */
  function NameBoost(similarity: real): (r: real)
    ensures r == 0.0 || r == 0.02 || r == 0.03 || r == 0.05
    ensures r > 0.0 <==> similarity > 0.7
    ensures r == 0.05 <==> similarity > 0.9
  {
    if similarity > 0.9 then 0.05
    else if similarity > 0.8 then 0.03
    else if similarity > 0.7 then 0.02
    else 0.0
  }

  /** A more similar name never earns a smaller boost. */
  lemma NameBoostMonotone(s1: real, s2: real)
    requires s1 <= s2
    ensures NameBoost(s1) <= NameBoost(s2)
  {}

  // ---------------------------------------------------- address signals

  /** The length of the longest prefix of `s` whose characters satisfy `p`. */
  function Run(s: string, p: char -> bool): (n: nat)
    ensures n <= |s|
    ensures forall k :: 0 <= k < n ==> p(s[k])
    ensures n < |s| ==> !p(s[n])
  {
    if |s| == 0 || !p(s[0]) then 0 else 1 + Run(s[1..], p)
  }

  predicate NotComma(c: char) { c != ',' }

  /** `re.search(r'^\d+', s)`: the leading digits, if there are any. */
  function StreetNumber(s: string): (r: Option<string>)
    ensures r.Some? ==> |r.value| > 0 && StartsWith(s, r.value) && forall c :: c in r.value ==> IsDigit(c)
    ensures r.None? <==> |s| == 0 || !IsDigit(s[0])
  {
    var n := Run(s, IsDigit);
    if n == 0 then None else Some(s[..n])
  }

  /** The group `([^,]+)` of `\d+\s+([^,]+)` for a match starting at `i`,
      with the regex engine's backtracking: the digits are taken whole, then
      the whitespace run, which gives back one character when nothing but a
      comma or the end follows it. */
  function StreetAt(s: string, i: nat): (r: Option<string>)
    requires i <= |s|
    ensures r.Some? ==> |r.value| > 0 && forall c :: c in r.value ==> c != ','
  {
    var digits := Run(s[i..], IsDigit);
    if digits == 0 then None
    else
      var d := i + digits;
      var spaces := Run(s[d..], IsSpace);
      var j := d + spaces;
      if spaces == 0 then None
      else if j < |s| && s[j] != ',' then Some(UpToComma(s[j..]))
      else if spaces >= 2 then Some(UpToComma(s[j - 1..]))
      else None
  }

  /** `[^,]+` at the start of `s`: the text before the first comma. */
  function UpToComma(s: string): (t: string)
    ensures |s| > 0 && s[0] != ',' ==> |t| > 0
    ensures forall c :: c in t ==> c != ','
  {
    var t := s[..Run(s, NotComma)];
    assert forall k :: 0 <= k < |t| ==> t[k] == s[k];
    t
  }

  /** `re.search(r'\d+\s+([^,]+)', s).group(1)`: the leftmost match. */
  function StreetName(s: string): (r: Option<string>)
    ensures r.Some? ==> |r.value| > 0 && forall c :: c in r.value ==> c != ','
  {
    StreetFrom(s, 0)
  }

  function StreetFrom(s: string, i: nat): (r: Option<string>)
    requires i <= |s|
    ensures r.Some? ==> |r.value| > 0 && forall c :: c in r.value ==> c != ','
    decreases |s| - i
  {
    if i == |s| then None
    else match StreetAt(s, i)
      case Some(t) => Some(t)
      case None => StreetFrom(s, i + 1)
  }

  /** A normalized address "number street" yields that street. */
  lemma StreetNameOfAddress(number: string, street: string)
    requires |number| > 0 && forall c :: c in number ==> IsDigit(c)
    requires |street| > 0 && !IsSpace(street[0]) && forall c :: c in street ==> c != ','
    ensures StreetNumber(number + " " + street) == Some(number)
    ensures StreetName(number + " " + street) == Some(street)
  {
    var s := number + " " + street;
    RunOfDigits(number, " " + street);
    assert s[0] == number[0];
    assert number[0] in number;
    assert s[..|number|] == number;
    StreetAtNumber(number, street);
    assert s[0..] == s;
  }

  /** The match starting at the number takes the whole street. */
  lemma StreetAtNumber(number: string, street: string)
    requires |number| > 0 && forall c :: c in number ==> IsDigit(c)
    requires |street| > 0 && !IsSpace(street[0]) && forall c :: c in street ==> c != ','
    ensures StreetAt(number + " " + street, 0) == Some(street)
  {
    var s := number + " " + street;
    RunOfDigits(number, " " + street);
    RunOfAll(street);
    assert street[0] in street;
    assert s[|number|..] == " " + street;
    StreetAtShape(s, |number|, street);
  }

  /** The match starting at index 0 of digits, one space and a comma-free
      street is that street. */
  lemma StreetAtShape(s: string, d: nat, street: string)
    requires 0 < d <= |s| && Run(s, IsDigit) == d && s[d..] == " " + street
    requires |street| > 0 && !IsSpace(street[0]) && street[0] != ','
    requires Run(street, NotComma) == |street|
    ensures StreetAt(s, 0) == Some(street)
  {
    assert s[0..] == s;
    assert Run(s[d..], IsSpace) == 1 by {
      assert (" " + street)[1..] == street;
    }
    assert s[d + 1..] == street;
  }

  /** The backtracking of `\d+\s+([^,]+)`: when only a comma or the end
      follows the spaces after the number, `\s+` gives one space back to the
      group if it has two, and the match fails if it has one. */
  lemma StreetAtBacktracks(number: string, tail: string)
    requires |number| > 0 && forall c :: c in number ==> IsDigit(c)
    requires tail == "" || tail[0] == ','
    ensures StreetAt(number + ("  " + tail), 0) == Some(" ")
    ensures StreetAt(number + (" " + tail), 0) == None
  {
    NumberThen(number, "  " + tail);
    StreetAtTwoSpaces(number + ("  " + tail), |number|, tail);
    NumberThen(number, " " + tail);
    StreetAtOneSpace(number + (" " + tail), |number|, tail);
  }

  /** The number is the digit run of the text it starts. */
  lemma NumberThen(number: string, rest: string)
    requires |number| > 0 && forall c :: c in number ==> IsDigit(c)
    requires |rest| > 0 && rest[0] == ' '
    ensures 0 < |number| <= |number + rest| && Run(number + rest, IsDigit) == |number|
    ensures (number + rest)[|number|..] == rest
  {
    RunOfDigits(number, rest);
  }

  lemma StreetAtTwoSpaces(s: string, d: nat, tail: string)
    requires 0 < d <= |s| && Run(s, IsDigit) == d && s[d..] == "  " + tail
    requires tail == "" || tail[0] == ','
    ensures StreetAt(s, 0) == Some(" ")
  {
    assert s[0..] == s;
    SpacesBeforeComma("  ", tail);
    assert s[d + 1..] == " " + tail;
    SpacesBeforeComma(" ", tail);
  }

  lemma StreetAtOneSpace(s: string, d: nat, tail: string)
    requires 0 < d <= |s| && Run(s, IsDigit) == d && s[d..] == " " + tail
    requires tail == "" || tail[0] == ','
    ensures StreetAt(s, 0) == None
  {
    assert s[0..] == s;
    SpacesBeforeComma(" ", tail);
  }

  /** One or two spaces before a comma or the end: a whitespace run of that
      length, and a comma-free run of that length. */
  lemma SpacesBeforeComma(spaces: string, tail: string)
    requires spaces == " " || spaces == "  "
    requires tail == "" || tail[0] == ','
    ensures Run(spaces + tail, IsSpace) == |spaces|
    ensures Run(spaces + tail, NotComma) == |spaces|
    ensures (spaces + tail)[..|spaces|] == spaces
  {
    assert (" " + tail)[1..] == tail;
    if spaces == "  " {
      assert (spaces + tail)[1..] == " " + tail;
    }
  }

  /** The digit run of digits followed by a non-digit is the whole number. */
  lemma {:induction false} RunOfDigits(number: string, rest: string)
    requires forall c :: c in number ==> IsDigit(c)
    requires |rest| > 0 && !IsDigit(rest[0])
    ensures Run(number + rest, IsDigit) == |number|
    decreases |number|
  {
    if |number| > 0 {
      assert number[0] in number;
      assert forall c :: c in number[1..] ==> c in number;
      assert (number + rest)[1..] == number[1..] + rest;
      RunOfDigits(number[1..], rest);
    } else {
      assert number + rest == rest;
    }
  }

  /** Text without commas is one run of non-commas. */
  lemma {:induction false} RunOfAll(s: string)
    requires forall c :: c in s ==> c != ','
    ensures Run(s, NotComma) == |s|
  {
    if |s| > 0 {
      assert s[0] in s;
      assert forall c :: c in s[1..] ==> c in s;
      RunOfAll(s[1..]);
    }
  }

  /** The address bonus: 0.2 times the ratio of the normalized addresses,
      0.05 for the same street number, 0.03 for street names with a ratio
      above 0.8; nothing unless both addresses are non-empty. */
  function AddressBonus(ratio: (string, string) -> real, yelpAddress: string, googleAddress: string): (r: real)
    requires IsRatio(ratio)
    ensures 0.0 <= r <= 0.28
    ensures yelpAddress == "" || googleAddress == "" ==> r == 0.0
    ensures yelpAddress != "" && googleAddress != "" ==> r >= 0.2 * ratio(yelpAddress, googleAddress)
    ensures yelpAddress != "" && googleAddress != "" && StreetNumber(yelpAddress).Some?
            && StreetNumber(yelpAddress) == StreetNumber(googleAddress)
            ==> r >= 0.2 * ratio(yelpAddress, googleAddress) + 0.05
  {
    if yelpAddress == "" || googleAddress == "" then 0.0
    else
      var similarity := ratio(yelpAddress, googleAddress) * 0.2;
      var yn := StreetNumber(yelpAddress);
      var gn := StreetNumber(googleAddress);
      var numberBonus := if yn.Some? && gn.Some? && yn.value == gn.value then 0.05 else 0.0;
      var ys := StreetName(yelpAddress);
      var gs := StreetName(googleAddress);
      var streetBonus := if ys.Some? && gs.Some? && ratio(ys.value, gs.value) > 0.8 then 0.03 else 0.0;
      similarity + numberBonus + streetBonus
  }

  /** The phone bonus: 0.15 for equal normalized numbers of ten digits or more. */
  function PhoneBonus(yelpPhone: string, googlePhone: string): (r: real)
    ensures r == 0.0 || r == 0.15
    ensures r == 0.15 <==> yelpPhone == googlePhone && |yelpPhone| >= 10
  {
    if yelpPhone != "" && googlePhone != "" && |yelpPhone| >= 10 && |googlePhone| >= 10 then
      if yelpPhone == googlePhone then 0.15 else 0.0
    else 0.0
  }

  // ------------------------------------------------------- pair score

  /** The confidence that a Yelp and a Google record describe the same gym. */
  function PairScore(ratio: (string, string) -> real, yelp: Listing, google: Listing): (r: real)
    requires IsRatio(ratio)
    ensures 0.0 <= r <= 0.88
    ensures r >= 0.3 * NameSimilarity(ratio, yelp.name, google.name) + NameBoost(NameSimilarity(ratio, yelp.name, google.name))
  {
    ScoreOf(ratio, yelp.name, google.name,
      NormalizeAddress(Some(yelp.address)), NormalizeAddress(Some(google.address)),
      NormalizePhone(Some(yelp.phone)), NormalizePhone(Some(google.phone)))
  }

  /** The score of two names, normalized addresses and normalized phones. */
  function ScoreOf(ratio: (string, string) -> real, yelpName: string, googleName: string,
                   yelpAddress: string, googleAddress: string, yelpPhone: string, googlePhone: string): (r: real)
    requires IsRatio(ratio)
    ensures 0.0 <= r <= 0.88
    ensures r >= 0.3 * NameSimilarity(ratio, yelpName, googleName) + NameBoost(NameSimilarity(ratio, yelpName, googleName))
  {
    Combine(NameSimilarity(ratio, yelpName, googleName), AddressBonus(ratio, yelpAddress, googleAddress),
            PhoneBonus(yelpPhone, googlePhone), ChainMatch(Lower(yelpName), Lower(googleName)))
  }

  lemma ScoreOfSymmetric(ratio: (string, string) -> real, yn: string, gn: string, ya: string, ga: string, yp: string, gp: string)
    requires IsRatio(ratio) && IsSymmetric(ratio)
    ensures ScoreOf(ratio, yn, gn, ya, ga, yp, gp) == ScoreOf(ratio, gn, yn, ga, ya, gp, yp)
  {
    NameSimilaritySymmetric(ratio, yn, gn);
    AddressBonusSymmetric(ratio, ya, ga);
    ChainMatchSymmetric(Lower(yn), Lower(gn));
  }

  /** The weighted sum of the signals. */
  function Combine(nameSimilarity: real, address: real, phone: real, chain: real): (r: real)
    requires 0.0 <= nameSimilarity <= 1.0 && 0.0 <= address <= 0.28 && 0.0 <= phone <= 0.15 && 0.0 <= chain <= 0.2
    ensures 0.0 <= r <= 0.88
    ensures r >= 0.3 * nameSimilarity + NameBoost(nameSimilarity)
  {
    nameSimilarity * 0.3 + address + phone + NameBoost(nameSimilarity) + chain * 0.5
  }

  /** More of any signal never lowers the combined score. */
  lemma CombineMonotone(n1: real, a1: real, p1: real, c1: real, n2: real, a2: real, p2: real, c2: real)
    requires 0.0 <= n1 <= n2 <= 1.0 && 0.0 <= a1 <= a2 <= 0.28 && 0.0 <= p1 <= p2 <= 0.15 && 0.0 <= c1 <= c2 <= 0.2
    ensures Combine(n1, a1, p1, c1) <= Combine(n2, a2, p2, c2)
  {
    NameBoostMonotone(n1, n2);
  }

  /** A Yelp phone of ten digits or more that the Google side repeats adds
      exactly 0.15 over any other Google phone; a shorter one never counts. */
  lemma ScoreOfPhone(ratio: (string, string) -> real, yn: string, gn: string, ya: string, ga: string, yp: string, gp: string)
    requires IsRatio(ratio)
    ensures |yp| >= 10 && gp != yp
            ==> ScoreOf(ratio, yn, gn, ya, ga, yp, yp) == ScoreOf(ratio, yn, gn, ya, ga, yp, gp) + 0.15
    ensures |yp| < 10 ==> ScoreOf(ratio, yn, gn, ya, ga, yp, gp) == ScoreOf(ratio, yn, gn, ya, ga, yp, "")
  {
    assert PhoneBonus(yp, yp) == if |yp| >= 10 then 0.15 else 0.0;
    assert gp != yp ==> PhoneBonus(yp, gp) == 0.0;
    assert PhoneBonus(yp, "") == 0.0;
  }

  /** Two listings whose phones normalize to the same number of ten digits or
      more score exactly 0.15 more than if the Google listing had no phone. */
  lemma PairScorePhoneMatch(ratio: (string, string) -> real, yelp: Listing, google: Listing)
    requires IsRatio(ratio)
    requires NormalizePhone(Some(yelp.phone)) == NormalizePhone(Some(google.phone))
    requires |NormalizePhone(Some(yelp.phone))| >= 10
    ensures PairScore(ratio, yelp, google) == PairScore(ratio, yelp, google.(phone := "")) + 0.15
  {
    var yp := NormalizePhone(Some(yelp.phone));
    assert NormalizePhone(Some(google.(phone := "").phone)) == "";
    ScoreOfPhone(ratio, yelp.name, google.name, NormalizeAddress(Some(yelp.address)), NormalizeAddress(Some(google.address)), yp, "");
  }

  /** Address evidence never lowers the score: the same pair with the Yelp
      address left empty scores no more. */
  lemma PairScoreAddressNeverHurts(ratio: (string, string) -> real, yelp: Listing, google: Listing)
    requires IsRatio(ratio)
    ensures PairScore(ratio, yelp.(address := ""), google) <= PairScore(ratio, yelp, google)
  {
    var ns := NameSimilarity(ratio, yelp.name, google.name);
    var ga := NormalizeAddress(Some(google.address));
    var ya := NormalizeAddress(Some(yelp.address));
    var phone := PhoneBonus(NormalizePhone(Some(yelp.phone)), NormalizePhone(Some(google.phone)));
    var chain := ChainMatch(Lower(yelp.name), Lower(google.name));
    assert NormalizeAddress(Some(yelp.(address := "").address)) == "";
    CombineMonotone(ns, AddressBonus(ratio, "", ga), phone, chain, ns, AddressBonus(ratio, ya, ga), phone, chain);
  }

  /** With a symmetric ratio, the score does not depend on which side a
      record comes from. */
  lemma PairScoreSymmetric(ratio: (string, string) -> real, a: Listing, b: Listing)
    requires IsRatio(ratio) && IsSymmetric(ratio)
    ensures PairScore(ratio, a, b) == PairScore(ratio, b, a)
  {
    ScoreOfSymmetric(ratio, a.name, b.name, NormalizeAddress(Some(a.address)), NormalizeAddress(Some(b.address)),
      NormalizePhone(Some(a.phone)), NormalizePhone(Some(b.phone)));
  }

  lemma NameSimilaritySymmetric(ratio: (string, string) -> real, n1: string, n2: string)
    requires IsRatio(ratio) && IsSymmetric(ratio)
    ensures NameSimilarity(ratio, n1, n2) == NameSimilarity(ratio, n2, n1)
  {
    TokenSimilaritySymmetric(Lower(n1), Lower(n2));
    SemanticSimilaritySymmetric(CleanGymName(Lower(n1)), CleanGymName(Lower(n2)));
  }

  lemma AddressBonusSymmetric(ratio: (string, string) -> real, a1: string, a2: string)
    requires IsRatio(ratio) && IsSymmetric(ratio)
    ensures AddressBonus(ratio, a1, a2) == AddressBonus(ratio, a2, a1)
  {}

  /** Two records with the same non-empty name reach the default threshold
      on the name alone: full token similarity plus the top name boost. */
  lemma SameNameReachesThreshold(ratio: (string, string) -> real, yelp: Listing, google: Listing)
    requires IsRatio(ratio)
    requires yelp.name == google.name && yelp.name != ""
    ensures PairScore(ratio, yelp, google) >= DefaultThreshold
  {
    var n := Lower(yelp.name);
    assert |n| == |yelp.name|;
    TokenSimilarityReflexive(n);
    var ns := NameSimilarity(ratio, yelp.name, google.name);
    assert ns == 1.0;
  }


  // ------------------------------------------------------ the matcher

  /** `fuzzy_match_gyms`: the greedy matching loop driven by `PairScore`. */
  function FuzzyMatchGyms(ratio: (string, string) -> real, yelp: seq<Listing>, google: seq<Listing>,
                          threshold: real): (r: seq<Matched>)
    requires IsRatio(ratio)
    ensures var picks := Assign((y, g) => PairScore(ratio, y, g), yelp, google, threshold, {});
            && |yelp| <= |r| && |r| == |yelp| + |google| - MatchCount(picks)
            && (forall i :: 0 <= i < |yelp| && picks[i].None? ==> r[i] == Unmatched(yelp[i], "Yelp"))
            && (forall i :: 0 <= i < |yelp| && picks[i].Some? ==>
                  picks[i].value < |google|
                  && r[i] == MergeGymRecords(yelp[i], google[picks[i].value], PairScore(ratio, yelp[i], google[picks[i].value]))
                  && threshold <= r[i].confidence <= 0.88)
            && r[|yelp|..] == GoogleOnly(google, Unclaimed(|google|, Claimed(picks)))
  {
    MatchAndMerge((y, g) => PairScore(ratio, y, g), yelp, google, threshold)
  }
}
