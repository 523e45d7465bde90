/** The name scorers of `GymFinder` (src/gym_finder.py): Jaccard similarity
    of the word sets of two names once generic gym words are dropped, and the
    detectors for a shared fitness discipline and a shared gym chain. */
module NameScores {
  import opened Text

  // ---------------------------------------------------------------- words

  /** The length of the leading run of word characters. */
  function WordRunLength(s: string): (n: nat)
    ensures n <= |s|
    ensures forall k :: 0 <= k < n ==> IsWordChar(s[k])
    ensures n < |s| ==> !IsWordChar(s[n])
  {
    if |s| == 0 || !IsWordChar(s[0]) then 0 else 1 + WordRunLength(s[1..])
  }

  /** `re.findall(r'\b\w+\b', s)`: the maximal runs of word characters, in
      order. */
  function Words(s: string): (r: seq<string>)
    ensures forall i :: 0 <= i < |r| ==> |r[i]| > 0
    decreases |s|
  {
    if |s| == 0 then []
    else if !IsWordChar(s[0]) then Words(s[1..])
    else
      var n := WordRunLength(s);
      [s[..n]] + Words(s[n..])
  }

  /** The word characters of `s`, in order. */
  function WordChars(s: string): string {
    if |s| == 0 then [] else (if IsWordChar(s[0]) then [s[0]] else []) + WordChars(s[1..])
  }

  function Concat(parts: seq<string>): string {
    if |parts| == 0 then [] else parts[0] + Concat(parts[1..])
  }

  /** The words hold every word character of the text and nothing else. */
  lemma {:induction false} WordsKeepWordChars(s: string)
    ensures Concat(Words(s)) == WordChars(s)
    decreases |s|
  {
    if |s| > 0 {
      if !IsWordChar(s[0]) {
        WordsKeepWordChars(s[1..]);
      } else {
        var n := WordRunLength(s);
        WordsKeepWordChars(s[n..]);
        WordCharsOfRun(s, n);
      }
    }
  }

  lemma {:induction false} WordCharsOfRun(s: string, n: nat)
    requires n <= |s| && forall k :: 0 <= k < n ==> IsWordChar(s[k])
    ensures WordChars(s) == s[..n] + WordChars(s[n..])
    decreases n
  {
    if n > 0 {
      WordCharsOfRun(s[1..], n - 1);
      assert s[1..][..n - 1] == s[1..n];
      assert s[1..][n - 1..] == s[n..];
      assert s[..n] == [s[0]] + s[1..n];
    }
  }

  /** Every word consists of word characters only. */
  lemma {:induction false} WordsAreWordChars(s: string)
    ensures forall i, k :: 0 <= i < |Words(s)| && 0 <= k < |Words(s)[i]| ==> IsWordChar(Words(s)[i][k])
    decreases |s|
  {
    if |s| > 0 {
      if !IsWordChar(s[0]) {
        WordsAreWordChars(s[1..]);
      } else {
        var n := WordRunLength(s);
        WordsAreWordChars(s[n..]);
        var r := Words(s);
        assert r == [s[..n]] + Words(s[n..]);
        forall i, k | 0 <= i < |r| && 0 <= k < |r[i]| ensures IsWordChar(r[i][k]) {
          if i > 0 { assert r[i] == Words(s[n..])[i - 1]; }
        }
      }
    }
  }

  // ------------------------------------------------------ token similarity

  /** The generic words `token_based_name_similarity` ignores. */
  const StopWords: set<string> :=
    {"gym", "fitness", "center", "club", "studio", "training", "academy", "health", "wellness"}

  /** The distinctive words of a name: lower-cased, stop words removed. */
  function TokenSet(name: string): (r: set<string>)
    ensures forall w :: w in r ==> w !in StopWords && |w| > 0
  {
    set w | w in Words(Lower(name)) && w !in StopWords
  }

  /** `token_based_name_similarity`: the Jaccard similarity of the two
      token sets; two names without distinctive words count as identical. */
  function TokenSimilarity(name1: string, name2: string): (r: real)
    ensures 0.0 <= r <= 1.0
    ensures name1 == "" || name2 == "" ==> r == 0.0
  {
    if name1 == "" || name2 == "" then 0.0 else Jaccard(TokenSet(name1), TokenSet(name2))
  }

  /** Two non-empty names are fully similar exactly when they have the same
      distinctive words, and similar at all exactly when they share one or
      both have none. */
  lemma TokenSimilaritySpec(name1: string, name2: string)
    ensures name1 != "" && name2 != "" ==>
              (TokenSimilarity(name1, name2) == 1.0 <==> TokenSet(name1) == TokenSet(name2))
    ensures TokenSimilarity(name1, name2) > 0.0 <==>
              (name1 != "" && name2 != "" &&
               (TokenSet(name1) * TokenSet(name2) != {} || TokenSet(name1) == TokenSet(name2)))
  {
  }

  /** |a ∩ b| / |a ∪ b|, with two empty sets counting as identical. */
  function Jaccard<T>(a: set<T>, b: set<T>): (r: real)
    ensures 0.0 <= r <= 1.0
    ensures r == 1.0 <==> a == b
    ensures r > 0.0 <==> (a * b != {} || a == b)
  {
    if a == {} && b == {} then 1.0
    else if a == {} || b == {} then 0.0
    else
      IntersectionWithinUnion(a, b);
      var i := |a * b| as real;
      var u := |a + b| as real;
      assert i / u == 1.0 ==> i == u;
      assert a == b ==> a * b == a;
      i / u
  }

  /** The intersection is no larger than the union, and as large only when
      the two sets are equal. */
  lemma IntersectionWithinUnion<T>(a: set<T>, b: set<T>)
    requires a != {}
    ensures 0 < |a + b|
    ensures |a * b| <= |a + b|
    ensures |a * b| == |a + b| ==> a == b
  {
    var x :| x in a;
    assert x in a + b;
    SubsetCardinality(a * b, a + b);
    if |a * b| == |a + b| {
      assert a * b == a + b;
      assert forall y :: y in a ==> y in a + b;
      assert forall y :: y in b ==> y in a + b;
    }
  }

  /** A subset is no larger, and as large only when it is the whole set. */
  lemma {:induction false} SubsetCardinality<T>(x: set<T>, y: set<T>)
    requires x <= y
    ensures |x| <= |y|
    ensures |x| == |y| ==> x == y
    decreases |y|
  {
    if y != {} {
      var e :| e in y;
      if e in x {
        SubsetCardinality(x - {e}, y - {e});
        assert |x - {e}| == |x| - 1 && |y - {e}| == |y| - 1;
        if |x| == |y| {
          assert x == (x - {e}) + {e};
          assert y == (y - {e}) + {e};
        }
      } else {
        SubsetCardinality(x, y - {e});
        assert |y - {e}| == |y| - 1;
      }
    }
  }

  lemma TokenSimilaritySymmetric(name1: string, name2: string)
    ensures TokenSimilarity(name1, name2) == TokenSimilarity(name2, name1)
  {
    var a := TokenSet(name1);
    var b := TokenSet(name2);
    assert a * b == b * a && a + b == b + a;
  }

  /** A non-empty name is fully similar to itself. */
  lemma TokenSimilarityReflexive(name: string)
    requires name != ""
    ensures TokenSimilarity(name, name) == 1.0
  {
    TokenSimilaritySpec(name, name);
  }

  // ------------------------------------------------- shared term detection

  /** The fitness disciplines of `semantic_name_similarity`, in order. */
  const SemanticGroups: seq<seq<string>> := [
    ["crossfit", "cf", "cross fit"],
    ["yoga", "yogi", "namaste", "zen"],
    ["pilates", "barre", "reformer"],
    ["boxing", "box", "fight", "combat", "mma", "mixed martial arts"],
    ["cycling", "spin", "cycle", "bike", "peloton"],
    ["dance", "ballet", "zumba", "salsa"],
    ["strength", "powerlifting", "weights", "iron", "barbell"],
    ["cardio", "treadmill", "running", "marathon"],
    ["karate", "kung fu", "taekwondo", "judo", "aikido", "bjj", "jiu jitsu"]
  ]

  /** The gym chains of `detect_chain_match` with their spelling variants. */
  const ChainVariants: seq<seq<string>> := [
    ["planet fitness", "planet"],
    ["la fitness", "la fit"],
    ["24 hour fitness", "24hr fitness", "24 fitness"],
    ["anytime fitness", "anytime"],
    ["gold's gym", "golds gym", "gold gym"],
    ["crunch fitness", "crunch"],
    ["equinox", "equinox fitness"],
    ["lifetime fitness", "life time"],
    ["snap fitness", "snap"],
    ["curves", "curves fitness"],
    ["orange theory", "orangetheory"],
    ["f45", "f45 training"],
    ["crossfit", "cf", "cross fit"],
    ["soulcycle", "soul cycle"],
    ["barry's bootcamp", "barrys", "barry"],
    ["pure barre", "purebarre"],
    ["flywheel", "flywheel sports"]
  ]

  /** `any(term in name for term in terms)`. */
  predicate MentionsAny(name: string, terms: seq<string>) {
    |terms| > 0 && (Contains(name, terms[0]) || MentionsAny(name, terms[1..]))
  }

  lemma {:induction false} MentionsAnySpec(name: string, terms: seq<string>)
    ensures MentionsAny(name, terms) <==> exists j :: 0 <= j < |terms| && IsSubstring(terms[j], name)
  {
    if |terms| > 0 {
      MentionsAnySpec(name, terms[1..]);
      ContainsIsSubstring(name, terms[0]);
      if exists j :: 0 <= j < |terms| && IsSubstring(terms[j], name) {
        var j :| 0 <= j < |terms| && IsSubstring(terms[j], name);
        if j > 0 { assert terms[1..][j - 1] == terms[j]; }
      }
      if MentionsAny(name, terms[1..]) {
        var j :| 0 <= j < |terms[1..]| && IsSubstring(terms[1..][j], name);
        assert terms[j + 1] == terms[1..][j];
      }
    }
  }

  /** Some group has a term in `name1` and a (possibly different) term in
      `name2`: the loop of `detect_chain_match`, stopping at the first such group. */
  predicate AnyGroupShared(name1: string, name2: string, groups: seq<seq<string>>) {
    |groups| > 0 &&
    ((MentionsAny(name1, groups[0]) && MentionsAny(name2, groups[0])) ||
     AnyGroupShared(name1, name2, groups[1..]))
  }

  /** The same condition, stated directly with substrings. */
  ghost predicate SharesGroup(name1: string, name2: string, groups: seq<seq<string>>) {
    exists i, j, k :: 0 <= i < |groups| && 0 <= j < |groups[i]| && 0 <= k < |groups[i]|
      && IsSubstring(groups[i][j], name1) && IsSubstring(groups[i][k], name2)
  }

  lemma {:induction false} AnyGroupSharedSpec(name1: string, name2: string, groups: seq<seq<string>>)
    ensures AnyGroupShared(name1, name2, groups) <==> SharesGroup(name1, name2, groups)
  {
    if |groups| > 0 {
      AnyGroupSharedSpec(name1, name2, groups[1..]);
      MentionsAnySpec(name1, groups[0]);
      MentionsAnySpec(name2, groups[0]);
      if SharesGroup(name1, name2, groups) {
        var i, j, k :| 0 <= i < |groups| && 0 <= j < |groups[i]| && 0 <= k < |groups[i]|
          && IsSubstring(groups[i][j], name1) && IsSubstring(groups[i][k], name2);
        if i > 0 {
          assert groups[1..][i - 1] == groups[i];
          assert SharesGroup(name1, name2, groups[1..]);
        }
      }
      if SharesGroup(name1, name2, groups[1..]) {
        var i, j, k :| 0 <= i < |groups[1..]| && 0 <= j < |groups[1..][i]| && 0 <= k < |groups[1..][i]|
          && IsSubstring(groups[1..][i][j], name1) && IsSubstring(groups[1..][i][k], name2);
        assert groups[1..][i] == groups[i + 1];
      }
    }
  }

  lemma SharesGroupSymmetric(name1: string, name2: string, groups: seq<seq<string>>)
    ensures SharesGroup(name1, name2, groups) <==> SharesGroup(name2, name1, groups)
  {
    if SharesGroup(name1, name2, groups) {
      var i, j, k :| 0 <= i < |groups| && 0 <= j < |groups[i]| && 0 <= k < |groups[i]|
        && IsSubstring(groups[i][j], name1) && IsSubstring(groups[i][k], name2);
      assert IsSubstring(groups[i][k], name2) && IsSubstring(groups[i][j], name1);
    }
    if SharesGroup(name2, name1, groups) {
      var i, j, k :| 0 <= i < |groups| && 0 <= j < |groups[i]| && 0 <= k < |groups[i]|
        && IsSubstring(groups[i][j], name2) && IsSubstring(groups[i][k], name1);
      assert IsSubstring(groups[i][k], name1) && IsSubstring(groups[i][j], name2);
    }
  }

  /** `semantic_name_similarity`: 0.8 when both names mention a term of the
      same fitness discipline, else 0. */
  function SemanticSimilarity(name1: string, name2: string): (r: real)
    ensures r == 0.0 || r == 0.8
  {
    if name1 == "" || name2 == "" then 0.0
    else if AnyGroupShared(Lower(name1), Lower(name2), SemanticGroups) then 0.8 else 0.0
  }

  lemma SemanticSimilaritySpec(name1: string, name2: string)
    ensures SemanticSimilarity(name1, name2) == 0.8
            <==> name1 != "" && name2 != "" && SharesGroup(Lower(name1), Lower(name2), SemanticGroups)
  {
    AnyGroupSharedSpec(Lower(name1), Lower(name2), SemanticGroups);
  }

  /** `detect_chain_match`: 0.2 when both names mention a variant of the
      same gym chain, else 0. */
  function ChainMatch(name1: string, name2: string): (r: real)
    ensures r == 0.0 || r == 0.2
  {
    if name1 == "" || name2 == "" then 0.0
    else if AnyGroupShared(Lower(name1), Lower(name2), ChainVariants) then 0.2 else 0.0
  }

  lemma ChainMatchSpec(name1: string, name2: string)
    ensures ChainMatch(name1, name2) == 0.2
            <==> name1 != "" && name2 != "" && SharesGroup(Lower(name1), Lower(name2), ChainVariants)
  {
    AnyGroupSharedSpec(Lower(name1), Lower(name2), ChainVariants);
  }

  lemma SemanticSimilaritySymmetric(name1: string, name2: string)
    ensures SemanticSimilarity(name1, name2) == SemanticSimilarity(name2, name1)
  {
    SemanticSimilaritySpec(name1, name2);
    SemanticSimilaritySpec(name2, name1);
    SharesGroupSymmetric(Lower(name1), Lower(name2), SemanticGroups);
  }

  lemma ChainMatchSymmetric(name1: string, name2: string)
    ensures ChainMatch(name1, name2) == ChainMatch(name2, name1)
  {
    ChainMatchSpec(name1, name2);
    ChainMatchSpec(name2, name1);
    SharesGroupSymmetric(Lower(name1), Lower(name2), ChainVariants);
  }
}
