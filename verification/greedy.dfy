/** The matching loop of `fuzzy_match_gyms` (src/gym_finder.py), for any
    pair score: each Yelp record in turn claims the best-scoring Google
    record nobody has claimed yet, if that score reaches the threshold;
    the records are then merged or tagged as single-source. */
module Greedy {
  import opened PyValue
  import opened Records

  // -------------------------------------------------- best candidate

  /** Google record `j` may be claimed: it is unclaimed and its score
      clears both the threshold and the initial best score 0. */
  predicate Candidate(scores: seq<real>, claimed: set<nat>, threshold: real, j: int) {
    0 <= j < |scores| && j !in claimed && scores[j] >= threshold && scores[j] > 0.0
  }

  /** The index the inner loop settles on: a candidate of greatest score,
      the first one among equals, since only a strictly greater score
      replaces the best so far. */
  function BestIndex(scores: seq<real>, claimed: set<nat>, threshold: real): (r: Option<nat>)
    ensures r.None? <==> forall j :: 0 <= j < |scores| ==> !Candidate(scores, claimed, threshold, j)
    ensures r.Some? ==> Candidate(scores, claimed, threshold, r.value)
    ensures r.Some? ==> forall j :: Candidate(scores, claimed, threshold, j) ==>
              scores[j] < scores[r.value] || (scores[j] == scores[r.value] && r.value <= j)
  {
    BestFrom(scores, claimed, threshold, 0, None, 0.0)
  }

  /** The loop from index `i` on, with the best index and score so far. */
  function BestFrom(scores: seq<real>, claimed: set<nat>, threshold: real, i: nat, best: Option<nat>, bestScore: real): (r: Option<nat>)
    requires i <= |scores|
    requires best.None? ==> bestScore == 0.0 && forall j :: 0 <= j < i ==> !Candidate(scores, claimed, threshold, j)
    requires best.Some? ==> best.value < i && Candidate(scores, claimed, threshold, best.value) && bestScore == scores[best.value]
    requires best.Some? ==> forall j :: 0 <= j < i && Candidate(scores, claimed, threshold, j) ==>
               scores[j] < bestScore || (scores[j] == bestScore && best.value <= j)
    ensures r.None? <==> forall j :: 0 <= j < |scores| ==> !Candidate(scores, claimed, threshold, j)
    ensures r.Some? ==> Candidate(scores, claimed, threshold, r.value)
    ensures r.Some? ==> forall j :: Candidate(scores, claimed, threshold, j) ==>
              scores[j] < scores[r.value] || (scores[j] == scores[r.value] && r.value <= j)
    decreases |scores| - i
  {
    if i == |scores| then best
    else if i !in claimed && scores[i] > bestScore && scores[i] >= threshold then
      BestFrom(scores, claimed, threshold, i + 1, Some(i), scores[i])
    else
      BestFrom(scores, claimed, threshold, i + 1, best, bestScore)
  }

  // ------------------------------------------------------ greedy match

  /** The scores of one Yelp record against every Google record. */
  function Scores(score: (Listing, Listing) -> real, yelp: Listing, google: seq<Listing>): (r: seq<real>)
    ensures |r| == |google| && forall j :: 0 <= j < |google| ==> r[j] == score(yelp, google[j])
  {
    seq(|google|, j requires 0 <= j < |google| => score(yelp, google[j]))
  }

  /** The inner loop for one Yelp record: its best candidate among the
      Google records outside `claimed`. */
  function Pick(score: (Listing, Listing) -> real, yelp: Listing, google: seq<Listing>,
                threshold: real, claimed: set<nat>): Option<nat>
  {
    BestIndex(Scores(score, yelp, google), claimed, threshold)
  }

  /** A pick is an unclaimed Google index whose score clears the threshold
      and is positive; no other unclaimed index scores higher, and none
      before it scores as high. */
  lemma PickIsBest(score: (Listing, Listing) -> real, yelp: Listing, google: seq<Listing>,
                   threshold: real, claimed: set<nat>)
    ensures var p := Pick(score, yelp, google, threshold, claimed);
            && (p.Some? ==> p.value < |google| && p.value !in claimed
                            && score(yelp, google[p.value]) >= threshold && score(yelp, google[p.value]) > 0.0)
            && (p.Some? ==> forall j :: 0 <= j < |google| && j !in claimed && score(yelp, google[j]) >= threshold ==>
                              score(yelp, google[j]) < score(yelp, google[p.value])
                              || (score(yelp, google[j]) == score(yelp, google[p.value]) && p.value <= j))
            && (p.None? <==> forall j :: 0 <= j < |google| && j !in claimed ==>
                              score(yelp, google[j]) < threshold || score(yelp, google[j]) <= 0.0)
  {
    var scores := Scores(score, yelp, google);
    var p := Pick(score, yelp, google, threshold, claimed);
    if p.Some? {
      forall j | 0 <= j < |google| && j !in claimed && score(yelp, google[j]) >= threshold
        ensures score(yelp, google[j]) < score(yelp, google[p.value])
             || (score(yelp, google[j]) == score(yelp, google[p.value]) && p.value <= j)
      {
        if scores[j] > 0.0 {
          assert Candidate(scores, claimed, threshold, j);
        }
      }
    } else {
      forall j | 0 <= j < |google| && j !in claimed
        ensures score(yelp, google[j]) < threshold || score(yelp, google[j]) <= 0.0
      {
        assert !Candidate(scores, claimed, threshold, j);
      }
    }
    if forall j :: 0 <= j < |google| && j !in claimed ==> score(yelp, google[j]) < threshold || score(yelp, google[j]) <= 0.0 {
      forall j | 0 <= j < |scores| ensures !Candidate(scores, claimed, threshold, j) {}
    }
  }

  /** The Google indices an assignment has claimed. */
  function Claimed(picks: seq<Option<nat>>): (r: set<nat>)
    ensures forall j :: j in r <==> exists i :: 0 <= i < |picks| && picks[i] == Some(j)
  {
    set i | 0 <= i < |picks| && picks[i].Some? :: picks[i].value
  }

  /** The number of Yelp records that found a partner. */
  function MatchCount(picks: seq<Option<nat>>): (n: nat)
    ensures n <= |picks|
  {
    if |picks| == 0 then 0 else (if picks[0].Some? then 1 else 0) + MatchCount(picks[1..])
  }

  /** The Google index each Yelp record is matched to, in Yelp order, with
      the claimed set carried from one record to the next. */
  function Assign(score: (Listing, Listing) -> real, yelp: seq<Listing>, google: seq<Listing>,
                  threshold: real, claimed: set<nat>): (r: seq<Option<nat>>)
    ensures |r| == |yelp|
    ensures forall i :: 0 <= i < |r| && r[i].Some? ==> r[i].value < |google| && r[i].value !in claimed
  {
    if |yelp| == 0 then []
    else
      var pick := Pick(score, yelp[0], google, threshold, claimed);
      var now := if pick.Some? then claimed + {pick.value} else claimed;
      var rest := Assign(score, yelp[1..], google, threshold, now);
      assert forall i :: 1 <= i < |yelp| ==> ([pick] + rest)[i] == rest[i - 1];
      [pick] + rest
  }

  /** Each Yelp record takes the best candidate among the Google records
      not claimed before it. */
  lemma {:induction false} AssignIsGreedy(score: (Listing, Listing) -> real, yelp: seq<Listing>, google: seq<Listing>,
                                          threshold: real, claimed: set<nat>)
    ensures var r := Assign(score, yelp, google, threshold, claimed);
            forall i :: 0 <= i < |yelp| ==> r[i] == Pick(score, yelp[i], google, threshold, claimed + Claimed(r[..i]))
  {
    if |yelp| > 0 {
      var pick := Pick(score, yelp[0], google, threshold, claimed);
      var now := if pick.Some? then claimed + {pick.value} else claimed;
      AssignIsGreedy(score, yelp[1..], google, threshold, now);
      var rest := Assign(score, yelp[1..], google, threshold, now);
      var r := Assign(score, yelp, google, threshold, claimed);
      assert r == [pick] + rest;
      forall i | 0 < i < |yelp|
        ensures r[i] == Pick(score, yelp[i], google, threshold, claimed + Claimed(r[..i]))
      {
        ClaimedShift(pick, rest, i, claimed);
        assert yelp[1..][i - 1] == yelp[i];
        assert r[i] == rest[i - 1];
      }
      assert r[..0] == [];
      assert claimed + Claimed(r[..0]) == claimed;
      assert r[0] == pick;
    }
  }

  /** The indices claimed before position `i` of `[pick] + rest`. */
  lemma ClaimedShift(pick: Option<nat>, rest: seq<Option<nat>>, i: nat, claimed: set<nat>)
    requires 0 < i <= |rest| + 1
    ensures (if pick.Some? then claimed + {pick.value} else claimed) + Claimed(rest[..i - 1])
         == claimed + Claimed(([pick] + rest)[..i])
  {
    assert ([pick] + rest)[..i] == [pick] + rest[..i - 1];
    ClaimedCons(pick, rest[..i - 1]);
  }

  lemma ClaimedCons(pick: Option<nat>, picks: seq<Option<nat>>)
    ensures Claimed([pick] + picks) == (if pick.Some? then {pick.value} else {}) + Claimed(picks)
  {
    var whole := [pick] + picks;
    forall j | j in Claimed(picks) ensures j in Claimed(whole) {
      var i :| 0 <= i < |picks| && picks[i] == Some(j);
      assert whole[i + 1] == picks[i];
    }
    forall j | j in Claimed(whole) ensures j in (if pick.Some? then {pick.value} else {}) + Claimed(picks) {
      var i :| 0 <= i < |whole| && whole[i] == Some(j);
      if i > 0 {
        assert picks[i - 1] == whole[i];
      }
    }
    if pick.Some? {
      assert whole[0] == pick;
    }
  }

  /** The matcher's guarantees: every claimed index is a Google index not
      claimed beforehand, its pair clears the threshold, and no index is
      claimed twice. */
  lemma AssignClaimsOnce(score: (Listing, Listing) -> real, yelp: seq<Listing>, google: seq<Listing>,
                         threshold: real, claimed: set<nat>)
    ensures var r := Assign(score, yelp, google, threshold, claimed);
            && (forall i :: 0 <= i < |r| && r[i].Some? ==>
                  r[i].value < |google| && r[i].value !in claimed && score(yelp[i], google[r[i].value]) >= threshold)
            && (forall i, k :: 0 <= i < k < |r| && r[i].Some? && r[k].Some? ==> r[i].value != r[k].value)
  {
    var r := Assign(score, yelp, google, threshold, claimed);
    AssignIsGreedy(score, yelp, google, threshold, claimed);
    forall i | 0 <= i < |r| && r[i].Some?
      ensures r[i].value < |google| && r[i].value !in claimed && score(yelp[i], google[r[i].value]) >= threshold
    {
      PickIsBest(score, yelp[i], google, threshold, claimed + Claimed(r[..i]));
    }
    forall i, k | 0 <= i < k < |r| && r[i].Some? && r[k].Some?
      ensures r[i].value != r[k].value
    {
      assert r[..k][i] == r[i];
      assert r[i].value in Claimed(r[..k]);
      PickIsBest(score, yelp[k], google, threshold, claimed + Claimed(r[..k]));
    }
  }

  /** Distinct claims: as many claimed indices as matched Yelp records. */
  lemma {:induction false} ClaimedCount(picks: seq<Option<nat>>)
    requires forall i, k :: 0 <= i < k < |picks| && picks[i].Some? && picks[k].Some? ==> picks[i].value != picks[k].value
    ensures |Claimed(picks)| == MatchCount(picks)
  {
    if |picks| > 0 {
      ClaimedCount(picks[1..]);
      assert picks == [picks[0]] + picks[1..];
      ClaimedCons(picks[0], picks[1..]);
      if picks[0].Some? {
        forall i | 0 <= i < |picks[1..]| ensures picks[1..][i] != picks[0] {
          assert picks[1..][i] == picks[i + 1];
        }
      }
    }
  }

  /** The indices below `n` that are not in `claimed`, in increasing order. */
  function Unclaimed(n: nat, claimed: set<nat>): (r: seq<nat>)
    ensures forall k :: 0 <= k < |r| ==> r[k] < n && r[k] !in claimed
  {
    if n == 0 then []
    else if n - 1 in claimed then Unclaimed(n - 1, claimed)
    else Unclaimed(n - 1, claimed) + [n - 1]
  }

  /** Each index of `s` is smaller than the next. */
  predicate Increasing(s: seq<nat>) {
    forall k, l :: 0 <= k < l < |s| ==> s[k] < s[l]
  }

  /** Every unclaimed index below `n` is listed, and the list increases. */
  lemma {:induction false} UnclaimedSpec(n: nat, claimed: set<nat>)
    ensures forall j :: 0 <= j < n && j !in claimed ==> j in Unclaimed(n, claimed)
    ensures Increasing(Unclaimed(n, claimed))
  {
    if n > 0 {
      UnclaimedSpec(n - 1, claimed);
      var prev := Unclaimed(n - 1, claimed);
      if n - 1 !in claimed {
        var r := prev + [n - 1];
        assert Unclaimed(n, claimed) == r;
        forall j | 0 <= j < n && j !in claimed ensures j in r {
          if j < n - 1 {
            assert j in prev;
          } else {
            assert r[|prev|] == j;
          }
        }
        forall k, l | 0 <= k < l < |r| ensures r[k] < r[l] {
          assert r[k] == prev[k] && prev[k] < n - 1;
          if l < |prev| {
            assert r[l] == prev[l];
          }
        }
      }
    }
  }

  /** The unclaimed indices number `n` less the claimed ones. */
  lemma {:induction false} UnclaimedCount(n: nat, claimed: set<nat>)
    requires forall j :: j in claimed ==> j < n
    ensures |Unclaimed(n, claimed)| == n - |claimed|
  {
    if n > 0 {
      var below := claimed - {n - 1};
      UnclaimedCount(n - 1, below);
      UnclaimedSame(n - 1, claimed, below);
      if n - 1 in claimed {
        assert claimed == below + {n - 1};
        assert |claimed| == |below| + 1;
      } else {
        assert claimed == below;
      }
    }
  }

  /** Indices at or above `n` do not matter to `Unclaimed(n, _)`. */
  lemma {:induction false} UnclaimedSame(n: nat, a: set<nat>, b: set<nat>)
    requires forall j :: 0 <= j < n ==> (j in a <==> j in b)
    ensures Unclaimed(n, a) == Unclaimed(n, b)
  {
    if n > 0 {
      UnclaimedSame(n - 1, a, b);
    }
  }

  /** The output of the matching loop: every Yelp record in input order,
      merged with its partner or tagged Yelp-only, then the unclaimed Google
      records in input order, tagged Google-only. */
  function MatchAndMerge(score: (Listing, Listing) -> real, yelp: seq<Listing>, google: seq<Listing>,
                         threshold: real): (r: seq<Matched>)
    ensures var picks := Assign(score, yelp, google, threshold, {});
            && |yelp| <= |r| && |r| == |yelp| + |google| - MatchCount(picks)
            && (forall i :: 0 <= i < |yelp| && picks[i].None? ==> r[i] == Unmatched(yelp[i], "Yelp"))
            && (forall i :: 0 <= i < |yelp| && picks[i].Some? ==>
                  picks[i].value < |google|
                  && r[i] == MergeGymRecords(yelp[i], google[picks[i].value], score(yelp[i], google[picks[i].value]))
                  && r[i].confidence >= threshold)
            && r[|yelp|..] == GoogleOnly(google, Unclaimed(|google|, Claimed(picks)))
  {
    var picks := Assign(score, yelp, google, threshold, {});
    AssignClaimsOnce(score, yelp, google, threshold, {});
    var head := MergedHead(score, yelp, google, picks);
    var rest := Unclaimed(|google|, Claimed(picks));
    var tail := GoogleOnly(google, rest);
    ClaimedCount(picks);
    UnclaimedCount(|google|, Claimed(picks));
    assert (head + tail)[|yelp|..] == tail;
    assert forall i :: 0 <= i < |yelp| ==> (head + tail)[i] == head[i];
    head + tail
  }

  /** Each Yelp record merged with the Google record it picked, or tagged
      Yelp-only when it picked none. */
  function MergedHead(score: (Listing, Listing) -> real, yelp: seq<Listing>, google: seq<Listing>,
                      picks: seq<Option<nat>>): (r: seq<Matched>)
    requires |picks| == |yelp|
    requires forall i :: 0 <= i < |picks| && picks[i].Some? ==> picks[i].value < |google|
    ensures |r| == |yelp|
    ensures forall i :: 0 <= i < |yelp| && picks[i].None? ==> r[i] == Unmatched(yelp[i], "Yelp")
    ensures forall i :: 0 <= i < |yelp| && picks[i].Some? ==>
              r[i] == MergeGymRecords(yelp[i], google[picks[i].value], score(yelp[i], google[picks[i].value]))
  {
    seq(|yelp|, i requires 0 <= i < |yelp| =>
      if picks[i].Some? then MergeGymRecords(yelp[i], google[picks[i].value], score(yelp[i], google[picks[i].value]))
      else Unmatched(yelp[i], "Yelp"))
  }

  /** The Google records at `indices`, tagged Google-only. */
  function GoogleOnly(google: seq<Listing>, indices: seq<nat>): (r: seq<Matched>)
    requires forall k :: 0 <= k < |indices| ==> indices[k] < |google|
    ensures |r| == |indices|
    ensures forall k :: 0 <= k < |indices| ==> r[k] == Unmatched(google[indices[k]], "Google Places")
  {
    seq(|indices|, k requires 0 <= k < |indices| => Unmatched(google[indices[k]], "Google Places"))
  }
}
