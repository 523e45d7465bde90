/** `deduplicate_metro_gyms` (src/run_gym_search.py): dropping the records
    of a metro-wide search whose name/address signature resembles that of a
    record already kept. */
module Dedup {
  import opened Text
  import opened PyValue
  import opened Normalize
  import opened Records

  /** The index of the first underscore. */
  function FirstUnderscore(s: string): (r: nat)
    requires '_' in s
    ensures r < |s| && s[r] == '_' && '_' !in s[..r]
  {
    if s[0] == '_' then 0
    else
      assert '_' in s[1..];
      var r := 1 + FirstUnderscore(s[1..]);
      assert s[..r] == [s[0]] + s[1..][..r - 1];
      r
  }

  /** An underscore with none before it is the first one. */
  lemma FirstUnderscoreAt(s: string, i: nat)
    requires i < |s| && s[i] == '_' && '_' !in s[..i]
    ensures FirstUnderscore(s) == i
  {
    var r := FirstUnderscore(s);
    assert forall k :: 0 <= k < i ==> s[..i][k] == s[k] != '_';
    assert forall k :: 0 <= k < r ==> s[..r][k] == s[k] != '_';
  }

  /** `str.split("_")`: the fields between the underscores, empty ones
      included, so there is always at least one. */
  function Split(s: string): (r: seq<string>)
    ensures |r| >= 1
    ensures forall k :: 0 <= k < |r| ==> '_' !in r[k]
    decreases |s|
  {
    if '_' !in s then [s]
    else
      var i := FirstUnderscore(s);
      var rest := Split(s[i + 1..]);
      assert forall k :: 1 <= k < |rest| + 1 ==> ([s[..i]] + rest)[k] == rest[k - 1];
      [s[..i]] + rest
  }

  /** Joining the fields with underscores gives the text back. */
  lemma {:induction false} JoinSplit(s: string)
    ensures Join("_", Split(s)) == s
    decreases |s|
  {
    if '_' in s {
      var i := FirstUnderscore(s);
      var rest := Split(s[i + 1..]);
      JoinSplit(s[i + 1..]);
      assert ([s[..i]] + rest)[1..] == rest;
      assert s == s[..i] + "_" + s[i + 1..];
    }
  }

  /** The fields of `a + "_" + b` are those of `a` followed by those of `b`. */
  lemma {:induction false} SplitJoined(a: string, b: string)
    ensures Split(a + "_" + b) == Split(a) + Split(b)
    decreases |a|
  {
    if '_' !in a {
      SplitJoinedPlain(a, b);
    } else {
      var i := FirstUnderscore(a);
      var front, back := a[..i], a[i + 1..];
      SplitJoinedAt(a, b, i, front, back);
      SplitJoined(back, b);
    }
  }

  /** Without an underscore in `a`, the first field of `a + "_" + b` is `a`. */
  lemma SplitJoinedPlain(a: string, b: string)
    requires '_' !in a
    ensures Split(a + "_" + b) == [a] + Split(b)
  {
    var s := a + "_" + b;
    assert s[..|a|] == a;
    FirstUnderscoreAt(s, |a|);
    assert s[|a| + 1..] == b;
  }

  /** With its first underscore at `i`, `a + "_" + b` splits there, like `a`. */
  lemma SplitJoinedAt(a: string, b: string, i: nat, front: string, back: string)
    requires '_' in a && i == FirstUnderscore(a) && front == a[..i] && back == a[i + 1..]
    ensures |back| < |a|
    ensures Split(back + "_" + b) == Split(back) + Split(b) ==> Split(a + "_" + b) == Split(a) + Split(b)
  {
    SplitJoinedFirst(a, b, i);
    ConsAppend(front, Split(back), Split(b));
  }

  lemma ConsAppend<T>(x: T, a: seq<T>, b: seq<T>)
    ensures [x] + (a + b) == ([x] + a) + b
  {
  }

  lemma SplitJoinedFirst(a: string, b: string, i: nat)
    requires '_' in a && i == FirstUnderscore(a)
    ensures Split(a + "_" + b) == [a[..i]] + Split(a[i + 1..] + "_" + b)
    ensures Split(a) == [a[..i]] + Split(a[i + 1..])
  {
    var s := a + "_" + b;
    assert s[..i] == a[..i];
    FirstUnderscoreAt(s, i);
    assert s[i + 1..] == a[i + 1..] + "_" + b;
  }

  /** The signature of a record: the first 20 characters of its normalized
      name and the first 30 of its normalized address, joined by "_". The
      second `lower()` changes nothing: normalization already lower-cases. */
  function Signature(gym: Listing): (r: string)
    ensures r == Take(NormalizeAddress(Some(gym.name)), 20) + "_" + Take(NormalizeAddress(Some(gym.address)), 30)
    ensures |r| <= 51 && NoUpper(r)
  {
    var name := Take(Lower(NormalizeAddress(Some(gym.name))), 20);
    var address := Take(Lower(NormalizeAddress(Some(gym.address))), 30);
    LowerKeepsLowerCase(NormalizeAddress(Some(gym.name)));
    LowerKeepsLowerCase(NormalizeAddress(Some(gym.address)));
    assert forall c :: c in name ==> c in NormalizeAddress(Some(gym.name));
    assert forall c :: c in address ==> c in NormalizeAddress(Some(gym.address));
    name + "_" + address
  }

  /** The two fields the similarity test reads: the text before the first
      underscore and the text between the first and the second. */
  function Field(signature: string, k: nat): string
    requires k < 2
  {
    var fields := Split(signature);
    if k < |fields| then fields[k] else ""
  }

  /** An underscore in the normalized name shifts the fields: the first field
      ends at the name's first underscore and the second is the next piece
      of the name, not the address. Without one, the fields are the name
      part and the address part up to its own first underscore. */
  lemma SignatureFields(name: string, address: string)
    ensures |Split(name + "_" + address)| >= 2
    ensures Field(name + "_" + address, 0) == Split(name)[0]
    ensures |Split(name)| >= 2 ==> Field(name + "_" + address, 1) == Split(name)[1]
    ensures '_' !in name ==> Field(name + "_" + address, 0) == name
    ensures '_' !in name ==> Field(name + "_" + address, 1) == Split(address)[0]
  {
    SplitJoined(name, address);
    var front, back := Split(name), Split(address);
    assert (front + back)[0] == front[0];
    if |front| >= 2 {
      assert (front + back)[1] == front[1];
    }
    if '_' !in name {
      assert (front + back)[1] == back[0];
    }
  }

  /** The distinct characters of a text (`set(text)`). */
  function Chars(s: string): set<char> {
    set c | c in s
  }

  /** The duplicate test: more than 3 shared characters in the first field
      and more than 5 in the second. */
  predicate Similar(signature: string, existing: string) {
    && |Chars(Field(signature, 0)) * Chars(Field(existing, 0))| > 3
    && |Chars(Field(signature, 1)) * Chars(Field(existing, 1))| > 5
  }

  lemma SimilarSymmetric(a: string, b: string)
    ensures Similar(a, b) <==> Similar(b, a)
  {
    assert Chars(Field(a, 0)) * Chars(Field(b, 0)) == Chars(Field(b, 0)) * Chars(Field(a, 0));
    assert Chars(Field(a, 1)) * Chars(Field(b, 1)) == Chars(Field(b, 1)) * Chars(Field(a, 1));
  }

  /** Two signatures can only resemble each other when each has more than 3
      distinct characters in its first field and more than 5 in its second;
      a signature resembles itself exactly when it has that many. */
  lemma SimilarNeedsDistinctChars(a: string, b: string)
    ensures Similar(a, b) ==> |Chars(Field(a, 0))| > 3 && |Chars(Field(b, 0))| > 3
    ensures Similar(a, b) ==> |Chars(Field(a, 1))| > 5 && |Chars(Field(b, 1))| > 5
    ensures Similar(a, a) <==> |Chars(Field(a, 0))| > 3 && |Chars(Field(a, 1))| > 5
  {
    forall f | 0 <= f < 2
      ensures |Chars(Field(a, f)) * Chars(Field(b, f))| <= |Chars(Field(a, f))|
      ensures |Chars(Field(a, f)) * Chars(Field(b, f))| <= |Chars(Field(b, f))|
    {
      IntersectionSmaller(Chars(Field(a, f)), Chars(Field(b, f)));
    }
    assert Chars(Field(a, 0)) * Chars(Field(a, 0)) == Chars(Field(a, 0));
    assert Chars(Field(a, 1)) * Chars(Field(a, 1)) == Chars(Field(a, 1));
  }

  lemma IntersectionSmaller<T>(x: set<T>, y: set<T>)
    ensures |x * y| <= |x| && |x * y| <= |y|
  {
    assert x * y <= x;
    assert x * y <= y;
    SubsetSmaller(x * y, x);
    SubsetSmaller(x * y, y);
  }

  lemma {:induction false} SubsetSmaller<T>(x: set<T>, y: set<T>)
    requires x <= y
    ensures |x| <= |y|
    decreases |y|
  {
    if x != {} {
      var e :| e in x;
      SubsetSmaller(x - {e}, y - {e});
    }
  }

  /** Some key in `seen` resembles `key`. */
  predicate SeenSimilar(key: string, seen: seq<string>, similar: (string, string) -> bool) {
    exists k :: 0 <= k < |seen| && similar(key, seen[k])
  }

  function Keys<T>(xs: seq<T>, keyOf: T -> string): (r: seq<string>)
    ensures |r| == |xs|
  {
    if |xs| == 0 then [] else [keyOf(xs[0])] + Keys(xs[1..], keyOf)
  }

  lemma {:induction false} KeysAt<T>(xs: seq<T>, keyOf: T -> string)
    ensures forall k :: 0 <= k < |xs| ==> Keys(xs, keyOf)[k] == keyOf(xs[k])
  {
    if |xs| > 0 {
      KeysAt(xs[1..], keyOf);
      assert forall k :: 1 <= k < |xs| ==> xs[1..][k - 1] == xs[k];
    }
  }

  /** The loop of `deduplicate_metro_gyms` for any key and resemblance
      test, given the keys kept so far: a record is kept, and its key
      remembered, unless a remembered key resembles its own. */
  function DedupFrom<T>(xs: seq<T>, seen: seq<string>, keyOf: T -> string, similar: (string, string) -> bool): (r: seq<T>)
    ensures |r| <= |xs|
  {
    if |xs| == 0 then []
    else
      var key := keyOf(xs[0]);
      if SeenSimilar(key, seen, similar) then DedupFrom(xs[1..], seen, keyOf, similar)
      else [xs[0]] + DedupFrom(xs[1..], seen + [key], keyOf, similar)
  }

  /** `deduplicate_metro_gyms`. */
  function DedupMetroGyms(gyms: seq<Listing>): (r: seq<Listing>)
    ensures gyms == [] ==> r == []
    ensures |r| <= |gyms|
    ensures |gyms| > 0 ==> |r| > 0 && r[0] == gyms[0]
  {
    if |gyms| == 0 then [] else DedupFrom(gyms, [], Signature, Similar)
  }

  /** `xs` is `ys` with some elements left out, order kept. */
  predicate IsSubsequence<T(==)>(xs: seq<T>, ys: seq<T>)
    decreases |ys|
  {
    || |xs| == 0
    || (&& |ys| > 0
        && ((xs[0] == ys[0] && IsSubsequence(xs[1..], ys[1..])) || IsSubsequence(xs, ys[1..])))
  }

  lemma {:induction false} DedupFromIsSubsequence<T>(xs: seq<T>, seen: seq<string>, keyOf: T -> string, similar: (string, string) -> bool)
    ensures IsSubsequence(DedupFrom(xs, seen, keyOf, similar), xs)
  {
    if |xs| > 0 {
      var key := keyOf(xs[0]);
      if SeenSimilar(key, seen, similar) {
        DedupFromIsSubsequence(xs[1..], seen, keyOf, similar);
      } else {
        var rest := DedupFrom(xs[1..], seen + [key], keyOf, similar);
        DedupFromIsSubsequence(xs[1..], seen + [key], keyOf, similar);
        assert ([xs[0]] + rest)[1..] == rest;
      }
    }
  }

  /** The output keeps input records in their input order. */
  lemma DedupIsSubsequence(gyms: seq<Listing>)
    ensures IsSubsequence(DedupMetroGyms(gyms), gyms)
  {
    DedupFromIsSubsequence(gyms, [], Signature, Similar);
  }

  /** The loop state: after the records of `xs`, the keys remembered are
      those of `seen` and of the records kept. Appending one more record
      appends it exactly when no remembered key resembles its own. */
  lemma {:induction false} DedupFromSnoc<T>(xs: seq<T>, seen: seq<string>, x: T, keyOf: T -> string, similar: (string, string) -> bool)
    ensures var kept := DedupFrom(xs, seen, keyOf, similar);
            DedupFrom(xs + [x], seen, keyOf, similar)
            == kept + (if SeenSimilar(keyOf(x), seen + Keys(kept, keyOf), similar) then [] else [x])
  {
    if |xs| == 0 {
      assert xs + [x] == [x];
      assert seen + Keys([], keyOf) == seen;
    } else {
      var key := keyOf(xs[0]);
      assert (xs + [x])[0] == xs[0];
      assert (xs + [x])[1..] == xs[1..] + [x];
      if SeenSimilar(key, seen, similar) {
        DedupFromSnoc(xs[1..], seen, x, keyOf, similar);
      } else {
        DedupFromSnoc(xs[1..], seen + [key], x, keyOf, similar);
        var rest := DedupFrom(xs[1..], seen + [key], keyOf, similar);
        assert Keys([xs[0]] + rest, keyOf) == [key] + Keys(rest, keyOf) by {
          assert ([xs[0]] + rest)[1..] == rest;
        }
        assert seen + [key] + Keys(rest, keyOf) == seen + Keys([xs[0]] + rest, keyOf);
      }
    }
  }

  /** A remembered key resembles `key` exactly when the key of some kept
      record does. */
  lemma SeenKeys<T>(key: string, kept: seq<T>, keyOf: T -> string, similar: (string, string) -> bool)
    ensures SeenSimilar(key, Keys(kept, keyOf), similar)
            <==> exists k :: 0 <= k < |kept| && similar(key, keyOf(kept[k]))
  {
    KeysAt(kept, keyOf);
  }

  /** The drop rule for any key and resemblance test, starting from no
      remembered keys. */
  lemma DropRuleFrom<T>(xs: seq<T>, x: T, keyOf: T -> string, similar: (string, string) -> bool)
    ensures var kept := DedupFrom(xs, [], keyOf, similar);
            DedupFrom(xs + [x], [], keyOf, similar)
            == kept + (if exists k :: 0 <= k < |kept| && similar(keyOf(x), keyOf(kept[k])) then [] else [x])
  {
    var kept := DedupFrom(xs, [], keyOf, similar);
    DedupFromSnoc(xs, [], x, keyOf, similar);
    assert [] + Keys(kept, keyOf) == Keys(kept, keyOf);
    SeenKeys(keyOf(x), kept, keyOf, similar);
  }

  /** The drop rule: a record is dropped exactly when the signature of some
      record already kept resembles its own. */
  lemma DropRule(gyms: seq<Listing>, gym: Listing)
    ensures var kept := DedupMetroGyms(gyms);
            DedupMetroGyms(gyms + [gym])
            == kept + (if exists k :: 0 <= k < |kept| && Similar(Signature(gym), Signature(kept[k])) then [] else [gym])
  {
    DropRuleFrom(gyms, gym, Signature, Similar);
    if gyms == [] {
      assert gyms + [gym] == [gym];
    }
  }

  lemma {:induction false} DedupFromIdempotent<T>(xs: seq<T>, seen: seq<string>, keyOf: T -> string, similar: (string, string) -> bool)
    ensures DedupFrom(DedupFrom(xs, seen, keyOf, similar), seen, keyOf, similar) == DedupFrom(xs, seen, keyOf, similar)
  {
    if |xs| > 0 {
      var key := keyOf(xs[0]);
      if SeenSimilar(key, seen, similar) {
        DedupFromIdempotent(xs[1..], seen, keyOf, similar);
      } else {
        var rest := DedupFrom(xs[1..], seen + [key], keyOf, similar);
        DedupFromIdempotent(xs[1..], seen + [key], keyOf, similar);
        assert ([xs[0]] + rest)[0] == xs[0];
        assert ([xs[0]] + rest)[1..] == rest;
      }
    }
  }

  /** Deduplicating twice gives what deduplicating once gives. */
  lemma DedupIdempotent(gyms: seq<Listing>)
    ensures DedupMetroGyms(DedupMetroGyms(gyms)) == DedupMetroGyms(gyms)
  {
    if |gyms| > 0 {
      DedupFromIdempotent(gyms, [], Signature, Similar);
    }
  }
}
