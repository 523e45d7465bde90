/** `detect_instagram_handle` (src/gym_finder.py, and its identical copy in
    gym_finder.py): the guessed Instagram handle of a gym. */
module Instagram {
  import opened Text

  /** The regex class `[a-zA-Z0-9]`. */
  predicate IsAsciiAlnum(c: char) {
    ('a' <= c <= 'z') || IsUpper(c) || IsDigit(c)
  }

  /** `re.sub(r'[^a-zA-Z0-9]', '', gym_name.lower())`. */
  function HandleBase(name: string): string {
    Filter(Lower(name), IsAsciiAlnum)
  }

  /** The four candidates, in the order `detect_instagram_handle` lists them. */
  function CandidateHandles(name: string): (r: seq<string>)
    ensures |r| == 4
  {
    var base := HandleBase(name);
    ["@" + base, "@" + base + "gym", "@" + base + "fitness", "@" + ReplaceAll(Lower(name), " ", "")]
  }

  /** `detect_instagram_handle`: the first candidate; the URL is not read. */
  function DetectInstagramHandle(name: string, url: string): (r: string)
    ensures |r| >= 1 && r[0] == '@'
    ensures r != "N/A"
    ensures forall c :: c in r[1..] ==> IsLowerAlnum(c)
    ensures r[1..] == HandleBase(name)
  {
    var candidates := CandidateHandles(name);
    var r := if |candidates| > 0 then candidates[0] else "N/A";
    HandleCharacters(name);
    assert r[1..] == HandleBase(name);
    r
  }

  /** After lower-casing, `[a-zA-Z0-9]` keeps exactly `[a-z0-9]`. */
  lemma HandleCharacters(name: string)
    ensures forall c :: c in HandleBase(name) ==> IsLowerAlnum(c)
  {
    LowerHasNoUpper(name);
  }

  /** Filtering distributes over concatenation. */
  lemma {:induction false} FilterAppend(s: string, t: string, keep: char -> bool)
    ensures Filter(s + t, keep) == Filter(s, keep) + Filter(t, keep)
  {
    if |s| > 0 {
      assert (s + t)[0] == s[0];
      assert (s + t)[1..] == s[1..] + t;
      FilterAppend(s[1..], t, keep);
    } else {
      assert s + t == t;
    }
  }

  /** The characters after "@" are the name's letters and digits, lower-cased,
      in order: each character of the name contributes its lower-case form
      when that is a letter or digit, and nothing otherwise. */
  lemma {:induction false} HandleOfCons(c: char, rest: string)
    ensures HandleBase([c] + rest)
            == (if IsAsciiAlnum(LowerChar(c)) then [LowerChar(c)] else []) + HandleBase(rest)
  {
    assert Lower([c] + rest) == [LowerChar(c)] + Lower(rest) by {
      LowerAppend([c], rest);
    }
    FilterAppend([LowerChar(c)], Lower(rest), IsAsciiAlnum);
  }

  /** A character that is no letter or digit (a space, a dash, an apostrophe)
      leaves the handle unchanged wherever it stands. */
  lemma PunctuationIsDropped(a: string, c: char, b: string)
    requires !IsAsciiAlnum(c)
    ensures DetectInstagramHandle(a + [c] + b, "") == DetectInstagramHandle(a + b, "")
  {
    BaseDropsPunctuation(a, c, b);
    var h1, h2 := DetectInstagramHandle(a + [c] + b, ""), DetectInstagramHandle(a + b, "");
    assert h1 == [h1[0]] + h1[1..];
    assert h2 == [h2[0]] + h2[1..];
  }

  lemma BaseDropsPunctuation(a: string, c: char, b: string)
    requires !IsAsciiAlnum(c)
    ensures HandleBase(a + [c] + b) == HandleBase(a + b)
  {
    LowerAppend(a + [c], b);
    LowerAppend(a, [c]);
    LowerAppend(a, b);
    assert Lower([c]) == [LowerChar(c)];
    FilterDropsRejected(Lower(a), LowerChar(c), Lower(b), IsAsciiAlnum);
  }

  /** A rejected character leaves the filtered text unchanged. */
  lemma FilterDropsRejected(a: string, c: char, b: string, keep: char -> bool)
    requires !keep(c)
    ensures Filter(a + [c] + b, keep) == Filter(a + b, keep)
  {
    FilterAppend(a + [c], b, keep);
    FilterAppend(a, [c], keep);
    FilterAppend(a, b, keep);
    assert Filter([c], keep) == [];
  }

  /** The URL argument has no effect. */
  lemma UrlIsIgnored(name: string, url1: string, url2: string)
    ensures DetectInstagramHandle(name, url1) == DetectInstagramHandle(name, url2)
  {
  }

  /** A handle names itself: detecting the handle of a handle's text gives
      the same handle back. */
  lemma HandleIsStable(name: string, url: string)
    ensures var h := DetectInstagramHandle(name, url);
            DetectInstagramHandle(h[1..], url) == h
  {
    var base := HandleBase(name);
    HandleCharacters(name);
    LowerKeepsLowerCase(base) by {
      forall c | c in base ensures !IsUpper(c) { }
    }
    FilterKeepsAll(base, IsAsciiAlnum);
  }

  lemma {:induction false} FilterKeepsAll(s: string, keep: char -> bool)
    requires forall c :: c in s ==> keep(c)
    ensures Filter(s, keep) == s
  {
    if |s| > 0 {
      assert s[0] in s;
      assert forall c :: c in s[1..] ==> c in s;
      FilterKeepsAll(s[1..], keep);
    }
  }

  /** Upper- and lower-case spellings of a name give the same handle. */
  lemma HandleIgnoresCase(name: string, url: string)
    ensures DetectInstagramHandle(Lower(name), url) == DetectInstagramHandle(name, url)
  {
    LowerIdempotent(name);
  }
}
