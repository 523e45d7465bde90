/** The normalizers of `GymFinder` (src/gym_finder.py): the canonical forms
    of phone numbers, addresses, website domains and gym names that the
    matcher compares. Each returns the empty string for a missing or
    placeholder value and never fails. */
module Normalize {
  import opened Text
  import opened PyValue

  // ---------------------------------------------------------------- phone

  /** The values `normalize_phone` treats as "no phone": None, "" and "N/A". */
  predicate NoPhone(phone: Option<string>) {
    phone.None? || phone.value == "" || phone.value == "N/A"
  }

  /** `re.sub(r'\D', '', s)`. */
  function Digits(s: string): string {
    if |s| == 0 then [] else (if IsDigit(s[0]) then [s[0]] else []) + Digits(s[1..])
  }

  /** `Digits` keeps exactly the digits of its input, in order. */
  lemma {:induction false} DigitsKeepsDigits(s: string)
    ensures forall c :: c in Digits(s) ==> c in s && IsDigit(c)
    ensures forall c :: c in s && IsDigit(c) ==> c in Digits(s)
  {
    if |s| > 0 {
      DigitsKeepsDigits(s[1..]);
      assert s == [s[0]] + s[1..];
    }
  }

  lemma {:induction false} DigitsConcat(a: string, b: string)
    ensures Digits(a + b) == Digits(a) + Digits(b)
    decreases |a|
  {
    if |a| > 0 {
      assert (a + b)[0] == a[0];
      assert (a + b)[1..] == a[1..] + b;
      DigitsConcat(a[1..], b);
    } else {
      assert a + b == b;
    }
  }

  lemma DigitsOfDigits(s: string)
    requires forall c :: c in s ==> IsDigit(c)
    ensures Digits(s) == s
  {
    if |s| > 0 {
      assert s[0] in s;
      assert forall c :: c in s[1..] ==> c in s;
      DigitsOfDigits(s[1..]);
      assert s == [s[0]] + s[1..];
    }
  }

  /** `normalize_phone`: the digits of the input, less a leading US
      country code "1" when there are exactly eleven of them. */
  function NormalizePhone(phone: Option<string>): (r: string)
    ensures NoPhone(phone) ==> r == ""
    ensures forall c :: c in r ==> IsDigit(c)
    ensures !NoPhone(phone) ==> r == Digits(phone.value) || ("1" + r == Digits(phone.value) && |r| == 10)
    ensures !(|r| == 11 && r[0] == '1')
  {
    if NoPhone(phone) then ""
    else
      var digits := Digits(phone.value);
      DigitsKeepsDigits(phone.value);
      if |digits| == 11 && digits[0] == '1' then
        assert digits == "1" + digits[1..];
        digits[1..]
      else digits
  }

  /** Normalizing a normalized phone number changes nothing. */
  lemma NormalizePhoneIdempotent(phone: Option<string>)
    ensures NormalizePhone(Some(NormalizePhone(phone))) == NormalizePhone(phone)
  {
    var r := NormalizePhone(phone);
    DigitsOfDigits(r);
  }

  // -------------------------------------------------------------- address

  /** Text `str.replace` can search for. */
  type Needle = s: string | |s| > 0 witness "x"

  /** Replacement text: introduces no upper-case letter. */
  type LowerText = s: string | NoUpper(s) witness ""

  /** The abbreviation table of `normalize_address`, in the order its dict
      literal lists the entries; they are applied one after the other with
      `str.replace`. */
  const AddressReplacements: seq<(Needle, LowerText)> :=
    StreetTypes + MoreStreetTypes + BuildingTypes + Ordinals + Directions + CityNames + CommonVariations

  const StreetTypes: seq<(Needle, LowerText)> := [
    (" street", " st"), (" st.", " st"),
    (" avenue", " ave"), (" ave.", " ave"),
    (" boulevard", " blvd"), (" blvd.", " blvd"),
    (" road", " rd"), (" rd.", " rd"),
    (" drive", " dr"), (" dr.", " dr"),
    (" lane", " ln"), (" ln.", " ln")
  ]

  const MoreStreetTypes: seq<(Needle, LowerText)> := [
    (" place", " pl"), (" pl.", " pl"),
    (" court", " ct"), (" ct.", " ct"),
    (" circle", " cir"), (" cir.", " cir"),
    (" way", " way"), (" parkway", " pkwy"),
    (" highway", " hwy"), (" freeway", " fwy")
  ]

  const BuildingTypes: seq<(Needle, LowerText)> := [
    (" suite", " ste"), (" ste.", " ste"),
    (" apartment", " apt"), (" apt.", " apt"),
    (" floor", " fl"), (" fl.", " fl"),
    (" building", " bldg"), (" bldg.", " bldg"),
    (" room", " rm"), (" rm.", " rm"),
    (" unit", " unit"), (" #", " unit ")
  ]

  const Ordinals: seq<(Needle, LowerText)> := FirstOrdinals + LaterOrdinals

  const FirstOrdinals: seq<(Needle, LowerText)> := [
    ("first", "1st"), ("second", "2nd"), ("third", "3rd"),
    ("fourth", "4th"), ("fifth", "5th"), ("sixth", "6th")
  ]

  const LaterOrdinals: seq<(Needle, LowerText)> := [
    ("seventh", "7th"), ("eighth", "8th"), ("ninth", "9th"),
    ("tenth", "10th"), ("eleventh", "11th"), ("twelfth", "12th")
  ]

  const Directions: seq<(Needle, LowerText)> := [
    (" west ", " w "), (" east ", " e "), (" north ", " n "), (" south ", " s "),
    (" northwest ", " nw "), (" northeast ", " ne "),
    (" southwest ", " sw "), (" southeast ", " se ")
  ]

  /** New York City names, all mapped to "ny". */
  const CityNames: seq<(Needle, LowerText)> := [
    ("new york", "ny"), ("manhattan", "ny"),
    ("brooklyn", "ny"), ("queens", "ny"), ("bronx", "ny"),
    ("staten island", "ny")
  ]

  const CommonVariations: seq<(Needle, LowerText)> := [
    ("&", "and"), ("avenue of the americas", "6th ave"),
    ("park avenue", "park ave"), ("madison avenue", "madison ave"),
    ("broadway", "broadway"), ("wall street", "wall st")
  ]

  function ApplyReplacements(s: string, table: seq<(Needle, LowerText)>): (r: string)
    ensures NoUpper(s) ==> NoUpper(r)
    decreases |table|
  {
    if |table| == 0 then s
    else ApplyReplacements(ReplaceAll(s, table[0].0, table[0].1), table[1..])
  }

  lemma {:induction false} ApplyReplacementsAppend(s: string, first: seq<(Needle, LowerText)>, second: seq<(Needle, LowerText)>)
    ensures ApplyReplacements(s, first + second) == ApplyReplacements(ApplyReplacements(s, first), second)
    decreases |first|
  {
    if |first| > 0 {
      assert (first + second)[0] == first[0];
      assert (first + second)[1..] == first[1..] + second;
      ApplyReplacementsAppend(ReplaceAll(s, first[0].0, first[0].1), first[1..], second);
    } else {
      assert first + second == second;
    }
  }

  /** No key of the table occurs in `s`. */
  predicate NoKeyOccurs(s: string, table: seq<(Needle, LowerText)>) {
    forall k :: 0 <= k < |table| ==> !Contains(s, table[k].0)
  }

  /** Text in which no key occurs passes through the table unchanged. */
  lemma {:induction false} ApplyReplacementsKeeps(s: string, table: seq<(Needle, LowerText)>)
    requires NoKeyOccurs(s, table)
    ensures ApplyReplacements(s, table) == s
    decreases |table|
  {
    if |table| > 0 {
      assert forall k :: 0 <= k < |table| - 1 ==> table[1..][k] == table[k + 1];
      ApplyReplacementsKeeps(s, table[1..]);
    }
  }

  /** The table applied around its `k`-th entry. */
  lemma ApplyReplacementsAt(s: string, table: seq<(Needle, LowerText)>, k: nat)
    requires k < |table|
    ensures ApplyReplacements(s, table)
         == ApplyReplacements(ReplaceAll(ApplyReplacements(s, table[..k]), table[k].0, table[k].1), table[k + 1..])
  {
    assert table == table[..k] + ([table[k]] + table[k + 1..]);
    ApplyReplacementsAppend(s, table[..k], [table[k]] + table[k + 1..]);
    assert ([table[k]] + table[k + 1..])[1..] == table[k + 1..];
  }

  /** The address table is applied part by part. */
  lemma ApplyAddressReplacements(s: string)
    ensures ApplyReplacements(s, AddressReplacements)
         == ApplyReplacements(ApplyReplacements(ApplyReplacements(ApplyReplacements(ApplyReplacements(
              ApplyReplacements(ApplyReplacements(ApplyReplacements(s, StreetTypes), MoreStreetTypes), BuildingTypes),
              FirstOrdinals), LaterOrdinals), Directions), CityNames), CommonVariations)
  {
    var a := StreetTypes + MoreStreetTypes;
    var b := a + BuildingTypes;
    var c := b + Ordinals;
    var d := c + Directions;
    var e := d + CityNames;
    ApplyReplacementsAppend(s, e, CommonVariations);
    ApplyReplacementsAppend(s, d, CityNames);
    ApplyReplacementsAppend(s, c, Directions);
    ApplyReplacementsAppend(s, b, Ordinals);
    ApplyReplacementsAppend(ApplyReplacements(s, b), FirstOrdinals, LaterOrdinals);
    ApplyReplacementsAppend(s, a, BuildingTypes);
    ApplyReplacementsAppend(s, StreetTypes, MoreStreetTypes);
  }

  predicate IsPunct(c: char) { c == ',' || c == '.' }

  /** `re.sub(r'[,\.](?!\d)', '', s)`: drops every comma and period that
      is not immediately followed by a digit. */
  function DropPunctuation(s: string): (r: string)
    ensures forall c :: c in r ==> c in s
  {
    if |s| == 0 then []
    else
      var rest := DropPunctuation(s[1..]);
      if IsPunct(s[0]) && !(|s| > 1 && IsDigit(s[1])) then rest else [s[0]] + rest
  }

  /** Every comma or period is immediately followed by a digit. */
  predicate PunctuationBeforeDigits(s: string) {
    forall i :: 0 <= i < |s| ==> DigitFollowsPunct(s, i)
  }

  /** The character at `i` is no comma or period, or a digit follows it. */
  predicate DigitFollowsPunct(s: string, i: int)
    requires 0 <= i < |s|
  {
    IsPunct(s[i]) ==> i + 1 < |s| && IsDigit(s[i + 1])
  }

  /** `s` without its commas and periods. */
  function Unpunctuated(s: string): string {
    if |s| == 0 then [] else (if IsPunct(s[0]) then [] else [s[0]]) + Unpunctuated(s[1..])
  }

  /** Only commas and periods are dropped; everything else stays, in order. */
  lemma {:induction false} DropPunctuationOnlyPunct(s: string)
    ensures Unpunctuated(DropPunctuation(s)) == Unpunctuated(s)
  {
    if |s| > 0 {
      DropPunctuationOnlyPunct(s[1..]);
      var rest := DropPunctuation(s[1..]);
      assert ([s[0]] + rest)[1..] == rest;
    }
  }

  /** Text whose every comma and period is followed by a digit is left as
      it is. */
  lemma {:induction false} DropPunctuationFixes(s: string)
    requires PunctuationBeforeDigits(s)
    ensures DropPunctuation(s) == s
  {
    if |s| > 0 {
      assert DigitFollowsPunct(s, 0);
      forall i | 0 <= i < |s| - 1 ensures DigitFollowsPunct(s[1..], i) {
        assert DigitFollowsPunct(s, i + 1);
      }
      DropPunctuationFixes(s[1..]);
      assert s == [s[0]] + s[1..];
    }
  }

  /** Dropping the punctuation a second time changes nothing. */
  lemma DropPunctuationIdempotent(s: string)
    ensures DropPunctuation(DropPunctuation(s)) == DropPunctuation(s)
  {
    DropPunctuationShape(s);
    DropPunctuationFixes(DropPunctuation(s));
  }

  /** Text without commas and periods loses nothing. */
  lemma {:induction false} DropPunctuationKeeps(s: string)
    requires forall c :: c in s ==> !IsPunct(c)
    ensures DropPunctuation(s) == s
  {
    if |s| > 0 {
      assert s[0] in s;
      assert forall c :: c in s[1..] ==> c in s;
      DropPunctuationKeeps(s[1..]);
      assert s == [s[0]] + s[1..];
    }
  }

  /** Text that does not end in a comma or period is cleaned on its own. */
  lemma {:induction false} DropPunctuationAppend(a: string, b: string)
    requires |a| == 0 || !IsPunct(a[|a| - 1])
    ensures DropPunctuation(a + b) == DropPunctuation(a) + DropPunctuation(b)
    decreases |a|
  {
    if |a| > 0 {
      assert (a + b)[0] == a[0];
      assert (a + b)[1..] == a[1..] + b;
      if |a| > 1 {
        assert (a + b)[1] == a[1];
      }
      DropPunctuationAppend(a[1..], b);
    } else {
      assert a + b == b;
    }
  }

  /** `normalize_address`: the sentinel cases, then lower-case, collapse
      whitespace, apply the abbreviation table, drop stray punctuation,
      collapse whitespace again and strip. */
  function NormalizeAddress(address: Option<string>): (r: string)
    ensures address.None? || address.value == "" || address.value == "N/A" ==> r == ""
    ensures NoUpper(r) && PlainSpaces(r) && NoDoubleSpace(r) && Trimmed(r)
    ensures PunctuationBeforeDigits(r)
  {
    if address.None? || address.value == "" || address.value == "N/A" then ""
    else
      var lowered := Lower(address.value);
      LowerHasNoUpper(address.value);
      StripKeepsShape(lowered);
      var spaced := CollapseSpaces(Strip(lowered));
      var abbreviated := ApplyReplacements(spaced, AddressReplacements);
      var unpunctuated := DropPunctuation(abbreviated);
      DropPunctuationShape(abbreviated);
      var collapsed := CollapseSpaces(unpunctuated);
      CollapseKeepsPunctuation(unpunctuated);
      StripKeepsShape(collapsed);
      StripKeepsPunctuation(collapsed);
      Strip(collapsed)
  }
  /** An address that is already lower-case, single-spaced and trimmed,
      holds no comma or period and contains no key of the table comes back
      unchanged. */
  lemma NormalizeAddressKeeps(address: string)
    requires NoUpper(address) && PlainSpaces(address) && NoDoubleSpace(address) && Trimmed(address)
    requires forall c :: c in address ==> !IsPunct(c)
    requires NoKeyOccurs(address, AddressReplacements)
    ensures NormalizeAddress(Some(address)) == address
  {
    if address != "" {
      assert address != "N/A" by {
        assert "N/A"[0] in "N/A";
      }
      LowerKeepsLowerCase(address);
      ApplyReplacementsKeeps(address, AddressReplacements);
      DropPunctuationKeeps(address);
      NormalizeAddressSteps(address, address, address, address);
    }
  }

  /** The steps of `normalize_address`, for an address whose intermediate
      forms are known. */
  lemma NormalizeAddressSteps(address: string, lowered: string, abbreviated: string, result: string)
    requires address != "" && address != "N/A" && Lower(address) == lowered
    requires PlainSpaces(lowered) && NoDoubleSpace(lowered) && Trimmed(lowered)
    requires ApplyReplacements(lowered, AddressReplacements) == abbreviated
    requires DropPunctuation(abbreviated) == result
    requires PlainSpaces(result) && NoDoubleSpace(result) && Trimmed(result)
    ensures NormalizeAddress(Some(address)) == result
  {
    StripTrimmed(lowered);
    CollapseSpacesKeeps(lowered);
    CollapseSpacesKeeps(result);
    StripTrimmed(result);
  }


  lemma {:induction false} DropPunctuationShape(s: string)
    ensures PunctuationBeforeDigits(DropPunctuation(s))
    ensures |DropPunctuation(s)| > 0 && |s| > 0 ==> (DropPunctuation(s)[0] == s[0] || !(IsDigit(DropPunctuation(s)[0]) && IsDigit(s[0])))
    ensures |DropPunctuation(s)| > 0 && |s| > 0 && IsDigit(s[0]) ==> DropPunctuation(s)[0] == s[0]
  {
    if |s| > 0 {
      DropPunctuationShape(s[1..]);
      var rest := DropPunctuation(s[1..]);
      var r := DropPunctuation(s);
      if IsPunct(s[0]) && !(|s| > 1 && IsDigit(s[1])) {
        assert r == rest;
        if |r| > 0 && IsDigit(s[0]) { assert false; }
      } else {
        assert r == [s[0]] + rest;
        if IsPunct(s[0]) {
          assert |s| > 1 && IsDigit(s[1]);
          assert |rest| > 0 && rest[0] == s[1] by {
            assert s[1..][0] == s[1];
            DropPunctuationFirstDigit(s[1..]);
          }
        }
        forall i | 0 <= i < |r| ensures DigitFollowsPunct(r, i) {
          if i > 0 {
            assert r[i] == rest[i - 1];
            assert DigitFollowsPunct(rest, i - 1);
            if i + 1 < |r| { assert r[i + 1] == rest[i]; }
          } else if IsPunct(s[0]) {
            assert r[1] == rest[0];
          }
        }
      }
    }
  }

  lemma {:induction false} DropPunctuationFirstDigit(s: string)
    requires |s| > 0 && IsDigit(s[0])
    ensures |DropPunctuation(s)| > 0 && DropPunctuation(s)[0] == s[0]
  {
    assert DropPunctuation(s) == [s[0]] + DropPunctuation(s[1..]);
  }

  lemma {:induction false} CollapseKeepsPunctuation(s: string)
    requires PunctuationBeforeDigits(s)
    ensures PunctuationBeforeDigits(CollapseSpaces(s))
    decreases |s|
  {
    if |s| > 0 {
      if IsSpace(s[0]) {
        var t := DropSpaces(s[1..]);
        SuffixKeepsPunctuation(s, |s| - |t|);
        assert t == s[|s| - |t|..];
        CollapseKeepsPunctuation(t);
        assert CollapseSpaces(s) == [' '] + CollapseSpaces(t);
        ConsKeepsPunctuation(' ', CollapseSpaces(t));
      } else {
        SuffixKeepsPunctuation(s, 1);
        CollapseKeepsPunctuation(s[1..]);
        assert CollapseSpaces(s) == [s[0]] + CollapseSpaces(s[1..]);
        if IsPunct(s[0]) {
          assert DigitFollowsPunct(s, 0);
          CollapseFirstChar(s[1..]);
        }
        ConsKeepsPunctuation(s[0], CollapseSpaces(s[1..]));
      }
    }
  }

  /** Putting a character in front keeps every comma or period before a
      digit, when the character itself is one only if a digit follows. */
  lemma ConsKeepsPunctuation(c: char, rest: string)
    requires PunctuationBeforeDigits(rest)
    requires IsPunct(c) ==> |rest| > 0 && IsDigit(rest[0])
    ensures PunctuationBeforeDigits([c] + rest)
  {
    var r := [c] + rest;
    forall i | 0 <= i < |r| ensures DigitFollowsPunct(r, i) {
      if i > 0 {
        assert r[i] == rest[i - 1];
        assert DigitFollowsPunct(rest, i - 1);
        if i + 1 < |r| { assert r[i + 1] == rest[i]; }
      }
    }
  }

  lemma CollapseFirstChar(s: string)
    requires |s| > 0 && !IsSpace(s[0])
    ensures |CollapseSpaces(s)| > 0 && CollapseSpaces(s)[0] == s[0]
  {
    assert CollapseSpaces(s) == [s[0]] + CollapseSpaces(s[1..]);
  }

  lemma SuffixKeepsPunctuation(s: string, k: int)
    requires 0 <= k <= |s| && PunctuationBeforeDigits(s)
    ensures PunctuationBeforeDigits(s[k..])
  {
    forall i | 0 <= i < |s[k..]| ensures DigitFollowsPunct(s[k..], i) {
      assert DigitFollowsPunct(s, k + i);
    }
  }

  /** Cutting off a trailing whitespace run keeps the property: the last
      kept comma or period was followed by a digit, not by whitespace. */
  lemma TrimmedPrefixKeepsPunctuation(t: string, n: int)
    requires 0 <= n <= |t| && PunctuationBeforeDigits(t)
    requires forall k :: n <= k < |t| ==> IsSpace(t[k])
    ensures PunctuationBeforeDigits(t[..n])
  {
    var r := t[..n];
    forall i | 0 <= i < n ensures DigitFollowsPunct(r, i) {
      assert r[i] == t[i];
      if IsPunct(t[i]) {
        assert DigitFollowsPunct(t, i);
        assert !IsSpace(t[i + 1]);
        assert r[i + 1] == t[i + 1];
      }
    }
  }

  lemma StripKeepsPunctuation(s: string)
    requires PunctuationBeforeDigits(s)
    ensures PunctuationBeforeDigits(Strip(s))
  {
    var t := DropSpaces(s);
    SuffixKeepsPunctuation(s, |s| - |t|);
    TrimmedPrefixKeepsPunctuation(t, |Strip(s)|);
  }

  // --------------------------------------------------------------- domain

  /** `urlsplit` first strips leading C0 control characters and spaces. */
  predicate IsControlOrSpace(c: char) { c <= ' ' }

  /** ... and then deletes every tab, carriage return and newline. */
  predicate IsUnsafeUrlChar(c: char) { c == '\t' || c == '\r' || c == '\n' }

  predicate IsSchemeChar(c: char) {
    ('a' <= c <= 'z') || ('A' <= c <= 'Z') || IsDigit(c) || c == '+' || c == '-' || c == '.'
  }

  function DropLeadingControls(s: string): (r: string)
    ensures |r| <= |s|
  {
    if |s| > 0 && IsControlOrSpace(s[0]) then DropLeadingControls(s[1..]) else s
  }

  function DropUnsafe(s: string): string {
    if |s| == 0 then []
    else (if IsUnsafeUrlChar(s[0]) then [] else [s[0]]) + DropUnsafe(s[1..])
  }

  /** The index of the first `c` in `s`, or `|s|` when there is none. */
  function IndexOf(s: string, c: char): (r: nat)
    ensures r <= |s|
    ensures forall k :: 0 <= k < r ==> s[k] != c
    ensures r < |s| ==> s[r] == c
  {
    if |s| == 0 then 0 else if s[0] == c then 0 else 1 + IndexOf(s[1..], c)
  }

  /** `s[..i]` is a scheme and `s[i]` the colon that ends it: `i > 0`,
      `s[0]` is a letter and every character before the colon is a scheme
      character. */
  predicate SchemeEndsAt(s: string, i: int) {
    0 < i < |s| && s[i] == ':' && (('a' <= s[0] <= 'z') || ('A' <= s[0] <= 'Z'))
    && forall k :: 0 <= k < i ==> IsSchemeChar(s[k])
  }

  /** The text after the scheme. `urlsplit` looks only at the first colon;
      since a colon is no scheme character, at most one colon ends a
      scheme, and that is the first. */
  function AfterScheme(s: string): (r: string)
    ensures forall i :: SchemeEndsAt(s, i) ==> r == s[i + 1..]
    ensures (forall i :: !SchemeEndsAt(s, i)) ==> r == s
  {
    var i := IndexOf(s, ':');
    assert forall j :: SchemeEndsAt(s, j) ==> j == i by {
      forall j | SchemeEndsAt(s, j) ensures j == i {
        assert !IsSchemeChar(':');
      }
    }
    if 0 < i < |s| && (('a' <= s[0] <= 'z') || ('A' <= s[0] <= 'Z'))
       && forall k :: 0 <= k < i ==> IsSchemeChar(s[k])
    then
      assert SchemeEndsAt(s, i);
      s[i + 1..]
    else s
  }

  /** `n` is the network location `urlsplit` reads from `t`, the text after
      "//": the prefix of `t` up to the first '/', '?' or '#'. */
  predicate NetlocOf(t: string, n: string) {
    |n| <= |t| && n == t[..|n|] && '/' !in n && '?' !in n && '#' !in n
    && (|n| == |t| || t[|n|] in "/?#")
  }

  /** An opening IPv6 bracket exactly when a closing one. */
  predicate BalancedBrackets(n: string) { ('[' in n) == (']' in n) }

  /** A text has one network location. */
  lemma NetlocOfUnique(t: string, a: string, b: string)
    requires NetlocOf(t, a) && NetlocOf(t, b)
    ensures a == b
  {
  }

  /** The network location of what follows the scheme: the text after "//"
      up to the first '/', '?' or '#'; None where `urlsplit` raises
      ValueError for an unbalanced IPv6 bracket. */
  function Authority(rest: string): (r: Option<string>)
    ensures r.Some? ==> '/' !in r.value && '?' !in r.value && '#' !in r.value
    ensures !StartsWith(rest, "//") ==> r == Some("")
    ensures StartsWith(rest, "//") && r.Some? ==> NetlocOf(rest[2..], r.value) && BalancedBrackets(r.value)
    ensures StartsWith(rest, "//") && r.None? ==> forall n :: NetlocOf(rest[2..], n) ==> !BalancedBrackets(n)
  {
    if StartsWith(rest, "//") then
      var tail := rest[2..];
      var netloc := tail[..Min3(IndexOf(tail, '/'), IndexOf(tail, '?'), IndexOf(tail, '#'))];
      assert forall k :: 0 <= k < |netloc| ==> netloc[k] == tail[k];
      assert NetlocOf(tail, netloc);
      if ('[' in netloc) != (']' in netloc) then
        assert forall n :: NetlocOf(tail, n) ==> !BalancedBrackets(n) by {
          forall n | NetlocOf(tail, n) ensures !BalancedBrackets(n) {
            NetlocOfUnique(tail, n, netloc);
          }
        }
        None
      else Some(netloc)
    else Some("")
  }

  /** `urlparse(url).netloc`, or None where `urlparse` raises. */
  function Netloc(url: string): (r: Option<string>)
    ensures r.Some? ==> '/' !in r.value && '?' !in r.value && '#' !in r.value
  {
    Authority(AfterScheme(DropUnsafe(DropLeadingControls(url))))
  }

  function Min3(a: nat, b: nat, c: nat): (r: nat)
    ensures r <= a && r <= b && r <= c && (r == a || r == b || r == c)
  {
    if a <= b && a <= c then a else if b <= c then b else c
  }

  /** `extract_domain`: the lower-cased host of the URL without a leading
      "www.", with "http://" supplied when the text does not start with
      "http"; the empty string for a missing URL or a parse failure. */
  function ExtractDomain(url: Option<string>): (r: string)
    ensures url.None? || url.value == "" || url.value == "N/A" ==> r == ""
    ensures NoUpper(r)
    ensures '/' !in r && '?' !in r && '#' !in r
  {
    if url.None? || url.value == "" || url.value == "N/A" then ""
    else
      var full := if StartsWith(url.value, "http") then url.value else "http://" + url.value;
      match Netloc(full)
      case None => ""
      case Some(netloc) =>
        var host := Lower(netloc);
        LowerHasNoUpper(netloc);
        LowerKeepsNonLetters(netloc);
        if StartsWith(host, "www.") then
          assert forall c :: c in host[4..] ==> c in host;
          host[4..]
        else host
  }

  /** Lower-casing never produces a character that is not a lower-case letter
      unless that character was already there. */
  lemma LowerKeepsNonLetters(s: string)
    ensures forall c :: c in Lower(s) && !('a' <= c <= 'z') ==> c in s
  {
    LowerChars(s);
    forall c | c in Lower(s) && !('a' <= c <= 'z') ensures c in s {
      var i :| 0 <= i < |s| && Lower(s)[i] == c;
    }
  }

  /** A plain host name: lower-case letters, digits, dots and hyphens. */
  predicate IsHostName(h: string) {
    forall c :: c in h ==> ('a' <= c <= 'z') || IsDigit(c) || c == '.' || c == '-'
  }

  /** The domain of a website link is its host, with or without a "www."
      prefix, whatever path follows. */
  lemma {:induction false} ExtractDomainOfLink(h: string, path: string)
    requires IsHostName(h) && !StartsWith(h, "www.")
    ensures ExtractDomain(Some("https://www." + h + "/" + path)) == h
    ensures ExtractDomain(Some("https://" + h + "/" + path)) == h
  {
    var tail := "/" + path;
    var wh := "www." + h;
    assert IsHostName(wh) by {
      forall c | c in wh ensures ('a' <= c <= 'z') || IsDigit(c) || c == '.' || c == '-' {
        var k :| 0 <= k < |wh| && wh[k] == c;
        if k >= 4 { assert wh[k] == h[k - 4]; assert h[k - 4] in h; }
      }
    }
    assert "https://www." + h + "/" + path == "https://" + wh + tail;
    assert "https://" + h + "/" + path == "https://" + h + tail;
    ExtractDomainOfHostLink(wh, tail);
    ExtractDomainOfHostLink(h, tail);
    assert wh[..4] == "www.";
    assert wh[4..] == h;
  }

  lemma {:induction false} ExtractDomainOfHostLink(h: string, tail: string)
    requires IsHostName(h)
    requires |tail| > 0 && tail[0] == '/'
    ensures ExtractDomain(Some("https://" + h + tail)) == if StartsWith(h, "www.") then h[4..] else h
  {
    var url := "https://" + h + tail;
    assert url[..4] == "http";
    NetlocOfLink(h, tail);
    LowerOfHost(h);
  }

  lemma LowerOfHost(h: string)
    requires IsHostName(h)
    ensures Lower(h) == h
  {
    LowerKeepsLowerCase(h);
  }

  /** The host of an "https://" link is everything up to the path. */
  lemma {:induction false} NetlocOfLink(h: string, tail: string)
    requires IsHostName(h)
    requires |tail| > 0 && tail[0] == '/'
    ensures Netloc("https://" + h + tail) == Some(h)
  {
    var url := "https://" + h + tail;
    assert DropLeadingControls(url) == url;
    var clean := DropUnsafe(tail);
    DropUnsafeOfHostLink(h, tail);
    assert AfterScheme("https:" + ("//" + h + clean)) == "//" + h + clean by {
      AfterHttpsScheme("//" + h + clean);
    }
    assert "https:" + ("//" + h + clean) == "https://" + h + clean;
    AuthorityOfHost(h, clean);
  }

  lemma {:induction false} DropUnsafeOfHostLink(h: string, tail: string)
    requires IsHostName(h)
    requires |tail| > 0 && tail[0] == '/'
    ensures DropUnsafe("https://" + h + tail) == "https://" + h + DropUnsafe(tail)
    ensures |DropUnsafe(tail)| > 0 && DropUnsafe(tail)[0] == '/'
  {
    var head := "https://" + h;
    DropUnsafeConcat(head, tail);
    assert forall c :: c in head ==> !IsUnsafeUrlChar(c) by {
      forall c | c in head ensures !IsUnsafeUrlChar(c) {
        var k :| 0 <= k < |head| && head[k] == c;
        if k >= 8 { assert head[k] == h[k - 8]; assert h[k - 8] in h; }
      }
    }
    DropUnsafeIdentity(head);
    assert "https://" + h + tail == head + tail;
    assert DropUnsafe(tail) == [tail[0]] + DropUnsafe(tail[1..]);
  }

  lemma {:induction false} AfterHttpsScheme(rest: string)
    ensures AfterScheme("https:" + rest) == rest
  {
    var s := "https:" + rest;
    assert s[0] == 'h' && s[1] == 't' && s[2] == 't' && s[3] == 'p' && s[4] == 's' && s[5] == ':';
    assert IndexOf(s, ':') == 5 by {
      assert s[1..][1..][1..][1..][1..][0] == ':';
    }
    assert s[6..] == rest;
  }

  lemma {:induction false} AuthorityOfHost(h: string, clean: string)
    requires IsHostName(h)
    requires |clean| > 0 && clean[0] == '/'
    ensures Authority("//" + h + clean) == Some(h)
  {
    var rest := "//" + h + clean;
    assert StartsWith(rest, "//");
    var tail := rest[2..];
    assert tail == h + clean;
    IndexOfPastHost(h, clean, '/');
    IndexOfPastHost(h, clean, '?');
    IndexOfPastHost(h, clean, '#');
    assert tail[..|h|] == h;
    assert '[' !in h && ']' !in h by {
      if '[' in h { assert false; }
      if ']' in h { assert false; }
    }
  }

  lemma {:induction false} IndexOfPastHost(h: string, tail: string, c: char)
    requires IsHostName(h) && (c == '/' || c == '?' || c == '#')
    requires c == '/' ==> |tail| > 0 && tail[0] == '/'
    ensures c == '/' ==> IndexOf(h + tail, c) == |h|
    ensures IndexOf(h + tail, c) >= |h|
    decreases |h|
  {
    if |h| > 0 {
      assert (h + tail)[1..] == h[1..] + tail;
      assert h[0] in h;
      assert forall x :: x in h[1..] ==> x in h;
      IndexOfPastHost(h[1..], tail, c);
    } else {
      assert h + tail == tail;
    }
  }

  lemma {:induction false} DropUnsafeConcat(a: string, b: string)
    ensures DropUnsafe(a + b) == DropUnsafe(a) + DropUnsafe(b)
    decreases |a|
  {
    if |a| > 0 {
      assert (a + b)[0] == a[0];
      assert (a + b)[1..] == a[1..] + b;
      DropUnsafeConcat(a[1..], b);
    } else {
      assert a + b == b;
    }
  }

  lemma {:induction false} DropUnsafeIdentity(s: string)
    requires forall c :: c in s ==> !IsUnsafeUrlChar(c)
    ensures DropUnsafe(s) == s
    decreases |s|
  {
    if |s| > 0 {
      assert s[0] in s;
      assert forall c :: c in s[1..] ==> c in s;
      DropUnsafeIdentity(s[1..]);
      assert s == [s[0]] + s[1..];
    }
  }

  // ------------------------------------------------------------ gym names

  /** One element of the small regular expressions `clean_gym_name`
      removes: `\s+`, `\w+`, or literal text. */
  datatype Piece = Spaces | Word | Lit(text: string)

  /** `\s+llc$`, `\s+inc$`, ... : the business-entity suffixes, in order. */
  const EntitySuffixes: seq<seq<Piece>> := [
    [Spaces, Lit("llc")], [Spaces, Lit("inc")], [Spaces, Lit("corp")], [Spaces, Lit("ltd")],
    [Spaces, Lit("co")], [Spaces, Lit("company")], [Spaces, Lit("enterprises")], [Spaces, Lit("group")]
  ]

  /** The location suffixes, in order. */
  const LocationSuffixes: seq<seq<Piece>> := [
    [Spaces, Word, Spaces, Lit("location")], [Spaces, Word, Spaces, Lit("branch")],
    [Spaces, Lit("downtown")], [Spaces, Lit("uptown")], [Spaces, Lit("midtown")],
    [Spaces, Lit("east"), Spaces, Lit("side")], [Spaces, Lit("west"), Spaces, Lit("side")]
  ]

  /** Both suffix lists, in the order `clean_gym_name` applies them. */
  const NameSuffixes: seq<seq<Piece>> := EntitySuffixes + LocationSuffixes

  /** `t` matches the whole of `pattern`. */
  predicate FullMatch(t: string, pattern: seq<Piece>)
    decreases |t|, |pattern|, 1
  {
    if |pattern| == 0 then |t| == 0
    else match pattern[0]
      case Lit(w) => StartsWith(t, w) && FullMatch(t[|w|..], pattern[1..])
      case Spaces => RunMatch(t, true, pattern[1..])
      case Word => RunMatch(t, false, pattern[1..])
  }

  /** A non-empty run of whitespace (`spaces`) or word characters, then `rest`. */
  predicate RunMatch(t: string, spaces: bool, rest: seq<Piece>)
    decreases |t|, |rest|, 0
  {
    && |t| > 0
    && (if spaces then IsSpace(t[0]) else IsWordChar(t[0]))
    && (FullMatch(t[1..], rest) || RunMatch(t[1..], spaces, rest))
  }

  /** The leftmost start `k >= from` of a match of `pattern` on `s[k..end]`. */
  function LeftmostMatch(s: string, end: nat, pattern: seq<Piece>, from: nat): (r: Option<nat>)
    requires from <= end <= |s|
    ensures r.Some? ==> from <= r.value <= end && FullMatch(s[r.value..end], pattern)
    ensures r.Some? ==> forall k :: from <= k < r.value ==> !FullMatch(s[k..end], pattern)
    ensures r.None? ==> forall k :: from <= k <= end ==> !FullMatch(s[k..end], pattern)
    decreases end - from
  {
    if FullMatch(s[from..end], pattern) then Some(from)
    else if from == end then None
    else LeftmostMatch(s, end, pattern, from + 1)
  }

  /** `re.sub(pattern + '$', '', s)`: `$` matches at the end and before a
      final newline; the leftmost match is removed. */
  function RemoveAtEnd(s: string, pattern: seq<Piece>): (r: string)
    ensures |r| <= |s|
    ensures forall c :: c in r ==> c in s
  {
    match LeftmostMatch(s, |s|, pattern, 0)
    case Some(k) =>
      assert forall c :: c in s[..k] ==> c in s;
      s[..k]
    case None =>
      if |s| > 0 && s[|s| - 1] == '\n' then
        match LeftmostMatch(s, |s| - 1, pattern, 0)
        case Some(k) =>
          assert forall c :: c in s[..k] ==> c in s;
          s[..k] + "\n"
        case None => s
      else s
  }

  function RemoveAllAtEnd(s: string, patterns: seq<seq<Piece>>): (r: string)
    ensures |r| <= |s|
    ensures forall c :: c in r ==> c in s
    decreases |patterns|
  {
    if |patterns| == 0 then s else RemoveAllAtEnd(RemoveAtEnd(s, patterns[0]), patterns[1..])
  }

  /** `clean_gym_name`: lower-case, drop business-entity and location
      suffixes, strip. */
  function CleanGymName(name: string): (r: string)
    ensures |r| <= |name|
    ensures NoUpper(r) && Trimmed(r)
  {
    if name == "" then ""
    else
      var lowered := Lower(name);
      LowerHasNoUpper(name);
      var cleaned := RemoveAllAtEnd(lowered, NameSuffixes);
      StripKeepsShape(cleaned);
      Strip(cleaned)
  }

  /** Every suffix pattern begins with `\s+`, so it cannot match text
      without whitespace. */
  lemma {:induction false} NoSpaceNoMatch(t: string, pattern: seq<Piece>)
    requires |pattern| > 0 && pattern[0] == Spaces
    requires forall c :: c in t ==> !IsSpace(c)
    ensures !FullMatch(t, pattern)
  {
    if |t| > 0 { assert t[0] in t; }
  }

  lemma {:induction false} RemoveAtEndNoSpace(s: string, pattern: seq<Piece>)
    requires |pattern| > 0 && pattern[0] == Spaces
    requires forall c :: c in s ==> !IsSpace(c)
    ensures RemoveAtEnd(s, pattern) == s
  {
    forall k, e | 0 <= k <= e <= |s| ensures !FullMatch(s[k..e], pattern) {
      SliceKeepsChars(s, k, e);
      NoSpaceNoMatch(s[k..e], pattern);
    }
  }

  lemma {:induction false} RemoveAllAtEndNoSpace(s: string, patterns: seq<seq<Piece>>)
    requires StartsWithSpaces(patterns)
    requires forall c :: c in s ==> !IsSpace(c)
    ensures RemoveAllAtEnd(s, patterns) == s
    decreases |patterns|
  {
    if |patterns| > 0 {
      RemoveAtEndNoSpace(s, patterns[0]);
      RemoveAllAtEndNoSpace(s, patterns[1..]);
    }
  }

  /** Every suffix pattern `clean_gym_name` removes begins with `\s+`. */
  predicate StartsWithSpaces(patterns: seq<seq<Piece>>) {
    forall i :: 0 <= i < |patterns| ==> |patterns[i]| > 0 && patterns[i][0] == Spaces
  }

  lemma StartsWithSpacesAfter(patterns: seq<seq<Piece>>, from: nat)
    requires StartsWithSpaces(patterns) && from <= |patterns|
    ensures StartsWithSpaces(patterns[from..])
  {
    forall i | 0 <= i < |patterns| - from ensures |patterns[from..][i]| > 0 && patterns[from..][i][0] == Spaces {
      assert patterns[from..][i] == patterns[from + i];
    }
  }

  lemma SuffixesStartWithSpaces()
    ensures StartsWithSpaces(EntitySuffixes) && StartsWithSpaces(LocationSuffixes)
    ensures StartsWithSpaces(NameSuffixes)
  {}

  /** A one-word name is only lower-cased: every suffix needs whitespace. */
  lemma CleanGymNameOneWord(name: string)
    requires forall c :: c in name ==> !IsSpace(c)
    ensures CleanGymName(name) == Lower(name)
  {
    if name != "" {
      var lowered := Lower(name);
      LowerKeepsNoSpace(name);
      SuffixesStartWithSpaces();
      RemoveAllAtEndNoSpace(lowered, NameSuffixes);
      assert lowered[0] in lowered && lowered[|lowered| - 1] in lowered;
      assert DropSpaces(lowered) == lowered;
      assert DropTrailingSpaces(lowered) == lowered;
    }
  }

  /** The entity suffix " llc" after a one-word name is removed. */
  lemma CleanGymNameDropsEntitySuffix(w: string)
    requires forall c :: c in w ==> !IsSpace(c)
    ensures CleanGymName(w + " llc") == Lower(w)
  {
    var lw := Lower(w);
    LowerAppend(w, " llc");
    LowerLlc();
    LowerKeepsNoSpace(w);
    NameSuffixesStartWithLlc();
    DropLlcFirst(lw, NameSuffixes);
    NoSpaceIsStripped(lw);
  }

  lemma NameSuffixesStartWithLlc()
    ensures |NameSuffixes| > 0 && NameSuffixes[0] == [Spaces, Lit("llc")]
    ensures StartsWithSpaces(NameSuffixes[1..])
  {
    SuffixesStartWithSpaces();
    assert forall i :: 0 <= i < |NameSuffixes| - 1 ==> NameSuffixes[1..][i] == NameSuffixes[i + 1];
  }

  /** A list whose first pattern is `\s+llc` removes " llc" after a word. */
  lemma LowerLlc()
    ensures Lower(" llc") == " llc"
  {
    LowerKeepsLowerCase(" llc");
  }

  lemma DropLlcFirst(lw: string, patterns: seq<seq<Piece>>)
    requires forall c :: c in lw ==> !IsSpace(c)
    requires |patterns| > 0 && patterns[0] == [Spaces, Lit("llc")]
    requires StartsWithSpaces(patterns[1..])
    ensures RemoveAllAtEnd(lw + " llc", patterns) == lw
  {
    RemoveLlc(lw);
    RemoveAllAtEndNoSpace(lw, patterns[1..]);
  }

  lemma NoSpaceIsStripped(s: string)
    requires forall c :: c in s ==> !IsSpace(c)
    ensures Strip(s) == s
  {
    if |s| > 0 {
      assert s[0] in s && s[|s| - 1] in s;
    }
  }

  /** The leftmost match is the first start where the pattern matches. */
  lemma LeftmostMatchIs(s: string, end: nat, pattern: seq<Piece>, k: nat)
    requires k <= end <= |s| && FullMatch(s[k..end], pattern)
    requires forall j :: 0 <= j < k ==> !FullMatch(s[j..end], pattern)
    ensures LeftmostMatch(s, end, pattern, 0) == Some(k)
  {}

  /** `re.sub(pattern + '$', '', s)` finds something to remove: a match
      that ends at the end of `s`, or just before a final newline. */
  ghost predicate MatchesAtEnd(s: string, pattern: seq<Piece>) {
    EndsWithMatch(s, pattern) || (|s| > 0 && s[|s| - 1] == '\n' && EndsWithMatch(s[..|s| - 1], pattern))
  }

  /** Some suffix of `s` matches the whole of `pattern`. */
  ghost predicate EndsWithMatch(s: string, pattern: seq<Piece>) {
    exists k :: 0 <= k <= |s| && FullMatch(s[k..], pattern)
  }

  /** Without a match at the end, `re.sub` leaves the text alone. */
  lemma RemoveAtEndNoMatch(s: string, pattern: seq<Piece>)
    requires !MatchesAtEnd(s, pattern)
    ensures RemoveAtEnd(s, pattern) == s
  {
    forall k | 0 <= k <= |s| ensures !FullMatch(s[k..|s|], pattern) {
      assert s[k..|s|] == s[k..];
    }
    if |s| > 0 && s[|s| - 1] == '\n' {
      var t := s[..|s| - 1];
      forall k | 0 <= k <= |t| ensures !FullMatch(s[k..|t|], pattern) {
        assert s[k..|t|] == t[k..];
      }
    }
  }

  /** With a match at the very end, `re.sub` cuts the text at the leftmost
      start `k` from which the pattern matches the rest. */
  lemma RemoveAtEndLeftmost(s: string, pattern: seq<Piece>) returns (k: nat)
    requires EndsWithMatch(s, pattern)
    ensures k <= |s| && FullMatch(s[k..], pattern)
    ensures forall j :: 0 <= j < k ==> !FullMatch(s[j..], pattern)
    ensures RemoveAtEnd(s, pattern) == s[..k]
  {
    assert s[..|s|] == s;
    var m := LeftmostMatch(s, |s|, pattern, 0);
    forall j | 0 <= j <= |s| ensures s[j..|s|] == s[j..] {}
    k := m.value;
  }

  /** With no match at the very end but one before a final newline, the
      match before the newline is cut and the newline is kept. */
  lemma RemoveAtEndBeforeNewline(t: string, pattern: seq<Piece>) returns (k: nat)
    requires !EndsWithMatch(t + "\n", pattern) && EndsWithMatch(t, pattern)
    ensures k <= |t| && FullMatch(t[k..], pattern)
    ensures forall j :: 0 <= j < k ==> !FullMatch(t[j..], pattern)
    ensures RemoveAtEnd(t + "\n", pattern) == t[..k] + "\n"
  {
    var s := t + "\n";
    forall j | 0 <= j <= |s| ensures s[j..|s|] == s[j..] {}
    assert s[..|s| - 1] == t;
    forall j | 0 <= j <= |t| ensures s[j..|t|] == t[j..] {}
    var m := LeftmostMatch(s, |t|, pattern, 0);
    k := m.value;
    assert s[..k] == t[..k];
  }

  /** No pattern of the list matches at the end of `s`. */
  ghost predicate NoneMatchesAtEnd(s: string, patterns: seq<seq<Piece>>) {
    forall i :: 0 <= i < |patterns| ==> !MatchesAtEnd(s, patterns[i])
  }

  lemma {:induction false} RemoveAllAtEndNoMatch(s: string, patterns: seq<seq<Piece>>)
    requires NoneMatchesAtEnd(s, patterns)
    ensures RemoveAllAtEnd(s, patterns) == s
    decreases |patterns|
  {
    if |patterns| > 0 {
      RemoveAtEndNoMatch(s, patterns[0]);
      assert forall i :: 0 <= i < |patterns| - 1 ==> patterns[1..][i] == patterns[i + 1];
      RemoveAllAtEndNoMatch(s, patterns[1..]);
    }
  }

  lemma {:induction false} RemoveAllAtEndAppend(s: string, first: seq<seq<Piece>>, second: seq<seq<Piece>>)
    ensures RemoveAllAtEnd(s, first + second) == RemoveAllAtEnd(RemoveAllAtEnd(s, first), second)
    decreases |first|
  {
    if |first| > 0 {
      assert (first + second)[0] == first[0];
      assert (first + second)[1..] == first[1..] + second;
      RemoveAllAtEndAppend(RemoveAtEnd(s, first[0]), first[1..], second);
    } else {
      assert first + second == second;
    }
  }

  /** The substitutions before pattern `i`, then pattern `i`, then the
      ones after it. */
  lemma RemoveAllAtEndAt(s: string, patterns: seq<seq<Piece>>, i: nat)
    requires i < |patterns|
    ensures RemoveAllAtEnd(s, patterns)
         == RemoveAllAtEnd(RemoveAtEnd(RemoveAllAtEnd(s, patterns[..i]), patterns[i]), patterns[i + 1..])
  {
    assert patterns == patterns[..i] + ([patterns[i]] + patterns[i + 1..]);
    RemoveAllAtEndAppend(s, patterns[..i], [patterns[i]] + patterns[i + 1..]);
    assert ([patterns[i]] + patterns[i + 1..])[1..] == patterns[i + 1..];
  }

  /** The empty name needs no case of its own: the steps give "" too. */
  lemma CleanGymNameSteps(name: string)
    ensures CleanGymName(name) == Strip(RemoveAllAtEnd(Lower(name), NameSuffixes))
  {
    if name == "" {
      assert Lower(name) == "";
      assert |RemoveAllAtEnd("", NameSuffixes)| == 0;
    }
  }

  /** A name none of whose suffix patterns matches at the end of its
      lower-cased form is only lower-cased and stripped. */
  lemma CleanGymNameNoSuffix(name: string)
    requires NoneMatchesAtEnd(Lower(name), NameSuffixes)
    ensures CleanGymName(name) == Strip(Lower(name))
  {
    if name != "" {
      var lowered := Lower(name);
      RemoveAllAtEndNoMatch(lowered, NameSuffixes);
      assert CleanGymName(name) == Strip(RemoveAllAtEnd(lowered, NameSuffixes));
    }
  }

  /** A pattern that begins with `\s+` matches no text that begins with
      something else. */
  lemma NoMatchWithoutLeadingSpace(t: string, pattern: seq<Piece>)
    requires |pattern| > 0 && pattern[0] == Spaces
    requires |t| == 0 || !IsSpace(t[0])
    ensures !FullMatch(t, pattern)
  {}

  /** A word followed by a match of one of the suffix patterns is cut back
      to the lower-cased word, provided no pattern tried before it already
      matches at the end: the patterns after it find no whitespace left. */
  lemma CleanGymNameCutsSuffix(word: string, suffix: string, i: nat)
    requires forall c :: c in word ==> !IsSpace(c)
    requires i < |NameSuffixes| && FullMatch(Lower(suffix), NameSuffixes[i])
    requires NoneMatchesAtEnd(Lower(word + suffix), NameSuffixes[..i])
    ensures CleanGymName(word + suffix) == Lower(word)
  {
    var lw := Lower(word);
    LowerAppend(word, suffix);
    LowerKeepsNoSpace(word);
    SuffixesStartWithSpaces();
    RemoveAllCutsSuffix(lw, Lower(suffix), NameSuffixes, i);
    NoSpaceIsStripped(lw);
    CleanGymNameSteps(word + suffix);
  }

  /** The list form of `CleanGymNameCutsSuffix`, for any list of patterns
      that all begin with `\s+`. */
  lemma RemoveAllCutsSuffix(lw: string, ls: string, patterns: seq<seq<Piece>>, i: nat)
    requires forall c :: c in lw ==> !IsSpace(c)
    requires StartsWithSpaces(patterns) && i < |patterns| && FullMatch(ls, patterns[i])
    requires NoneMatchesAtEnd(lw + ls, patterns[..i])
    ensures RemoveAllAtEnd(lw + ls, patterns) == lw
  {
    var s := lw + ls;
    RemoveAllAtEndAt(s, patterns, i);
    RemoveAllAtEndNoMatch(s, patterns[..i]);
    RemoveSuffixMatch(lw, ls, patterns[i]);
    StartsWithSpacesAfter(patterns, i + 1);
    RemoveAllAtEndNoSpace(lw, patterns[i + 1..]);
  }

  /** A pattern beginning with `\s+` that matches the text after a word
      removes exactly that text. */
  lemma RemoveSuffixMatch(lw: string, ls: string, pattern: seq<Piece>)
    requires forall c :: c in lw ==> !IsSpace(c)
    requires |pattern| > 0 && pattern[0] == Spaces && FullMatch(ls, pattern)
    ensures RemoveAtEnd(lw + ls, pattern) == lw
  {
    var s := lw + ls;
    assert s[|lw|..|s|] == ls;
    forall j | 0 <= j < |lw| ensures !FullMatch(s[j..|s|], pattern) {
      assert s[j..|s|][0] == lw[j];
      assert lw[j] in lw;
      NoMatchWithoutLeadingSpace(s[j..|s|], pattern);
    }
    LeftmostMatchIs(s, |s|, pattern, |lw|);
    assert s[..|lw|] == lw;
  }

  lemma RemoveLlc(lw: string)
    requires forall c :: c in lw ==> !IsSpace(c)
    ensures RemoveAtEnd(lw + " llc", [Spaces, Lit("llc")]) == lw
  {
    var s := lw + " llc";
    var p := [Spaces, Lit("llc")];
    assert p[1..] == [Lit("llc")];
    assert s[|lw|..|s|] == " llc";
    assert FullMatch(" llc", p) by {
      assert FullMatch("llc", [Lit("llc")]);
      assert " llc"[1..] == "llc";
    }
    forall j | 0 <= j < |lw| ensures !FullMatch(s[j..], p) {
      assert s[j..][0] == lw[j];
      assert lw[j] in lw;
    }
    LeftmostMatchIs(s, |s|, p, |lw|);
    assert s[..|lw|] == lw;
  }

  // ------------------------------------------------- suffix after words

  /** `\s+` and a token without whitespace, once or more: `\s+llc`,
      `\s+\w+\s+location`, `\s+east\s+side`. */
  predicate Alternating(pattern: seq<Piece>)
    decreases |pattern|
  {
    && |pattern| >= 2 && pattern[0] == Spaces
    && (pattern[1].Word? || (pattern[1].Lit? && LowerWord(pattern[1].text)))
    && (|pattern| == 2 || Alternating(pattern[2..]))
  }

  predicate LowerWord(w: string) {
    |w| > 0 && forall i :: 0 <= i < |w| ==> 'a' <= w[i] <= 'z'
  }

  lemma EntitySuffixesAlternate()
    ensures forall i :: 0 <= i < |EntitySuffixes| ==> Alternating(EntitySuffixes[i])
  {
    assert LowerWord("llc") && LowerWord("inc") && LowerWord("corp") && LowerWord("ltd");
    assert LowerWord("co") && LowerWord("company") && LowerWord("enterprises") && LowerWord("group");
  }

  lemma LocationSuffixesAlternate()
    ensures forall i :: 0 <= i < |LocationSuffixes| ==> Alternating(LocationSuffixes[i])
  {
    assert LowerWord("location") && LowerWord("branch");
    assert LowerWord("downtown") && LowerWord("uptown") && LowerWord("midtown");
    assert LowerWord("east") && LowerWord("west") && LowerWord("side");
    assert [Spaces, Word, Spaces, Lit("location")][2..] == [Spaces, Lit("location")];
    assert [Spaces, Word, Spaces, Lit("branch")][2..] == [Spaces, Lit("branch")];
    assert [Spaces, Lit("east"), Spaces, Lit("side")][2..] == [Spaces, Lit("side")];
    assert [Spaces, Lit("west"), Spaces, Lit("side")][2..] == [Spaces, Lit("side")];
  }

  lemma SuffixesAlternate()
    ensures forall i :: 0 <= i < |NameSuffixes| ==> Alternating(NameSuffixes[i])
  {
    EntitySuffixesAlternate();
    LocationSuffixesAlternate();
    assert forall i :: 0 <= i < |NameSuffixes| ==>
      NameSuffixes[i] == if i < |EntitySuffixes| then EntitySuffixes[i] else LocationSuffixes[i - |EntitySuffixes|];
  }

  /** The number of maximal whitespace runs in `t`; `afterSpace` says
      whether the text in front of `t` ends in whitespace. */
  function SpaceRuns(t: string, afterSpace: bool): nat
    decreases |t|
  {
    if |t| == 0 then 0
    else (if IsSpace(t[0]) && !afterSpace then 1 else 0) + SpaceRuns(t[1..], IsSpace(t[0]))
  }

  lemma {:induction false} SpaceRunsAppend(a: string, b: string, afterSpace: bool)
    ensures SpaceRuns(a + b, afterSpace)
         == SpaceRuns(a, afterSpace) + SpaceRuns(b, if |a| == 0 then afterSpace else IsSpace(a[|a| - 1]))
    decreases |a|
  {
    if |a| > 0 {
      assert (a + b)[0] == a[0];
      assert (a + b)[1..] == a[1..] + b;
      SpaceRunsAppend(a[1..], b, IsSpace(a[0]));
      if |a| > 1 {
        assert a[1..][|a[1..]| - 1] == a[|a| - 1];
      }
    } else {
      assert a + b == b;
    }
  }

  lemma {:induction false} SpaceRunsOfSpaces(x: string, afterSpace: bool)
    requires |x| > 0 && forall i :: 0 <= i < |x| ==> IsSpace(x[i])
    ensures SpaceRuns(x, afterSpace) == if afterSpace then 0 else 1
    decreases |x|
  {
    if |x| > 1 {
      SpaceRunsOfSpaces(x[1..], true);
    }
  }

  lemma {:induction false} SpaceRunsOfToken(x: string, afterSpace: bool)
    requires forall i :: 0 <= i < |x| ==> !IsSpace(x[i])
    ensures SpaceRuns(x, afterSpace) == 0
    decreases |x|
  {
    if |x| > 0 {
      SpaceRunsOfToken(x[1..], false);
    }
  }

  /** A text that begins with whitespace has at least one run of it. */
  lemma SpaceRunsOfLeadingSpace(x: string)
    requires |x| > 0 && IsSpace(x[0])
    ensures SpaceRuns(x, false) >= 1
  {}

  /** The run of whitespace or word characters that `RunMatch` consumes,
      and the text it leaves for the rest of the pattern. */
  lemma {:induction false} RunMatchSplit(t: string, spaces: bool, rest: seq<Piece>) returns (m: nat)
    requires RunMatch(t, spaces, rest)
    ensures 1 <= m <= |t|
    ensures forall i :: 0 <= i < m ==> if spaces then IsSpace(t[i]) else IsWordChar(t[i])
    ensures FullMatch(t[m..], rest)
    decreases |t|
  {
    if FullMatch(t[1..], rest) {
      m := 1;
    } else {
      var k := RunMatchSplit(t[1..], spaces, rest);
      m := k + 1;
      assert t[1..][k..] == t[m..];
      forall i | 1 <= i < m ensures if spaces then IsSpace(t[i]) else IsWordChar(t[i]) {
        assert t[i] == t[1..][i - 1];
      }
    }
  }

  /** The token after a run of whitespace: a run of word characters or a
      literal word. */
  lemma TokenSplit(u: string, pattern: seq<Piece>) returns (n: nat)
    requires Alternating(pattern) && FullMatch(u, pattern[1..])
    ensures 1 <= n <= |u|
    ensures forall i :: 0 <= i < n ==> !IsSpace(u[i])
    ensures FullMatch(u[n..], pattern[2..])
  {
    assert pattern[1..][0] == pattern[1];
    assert pattern[1..][1..] == pattern[2..];
    match pattern[1]
    case Word =>
      n := RunMatchSplit(u, false, pattern[2..]);
    case Lit(w) =>
      n := |w|;
      forall i | 0 <= i < n ensures !IsSpace(u[i]) {
        assert u[i] == w[i];
      }
  }

  /** A match of an alternating pattern begins with whitespace, ends with
      something else, and holds one whitespace run per `\s+`. */
  lemma {:induction false} AlternatingMatchRuns(t: string, pattern: seq<Piece>)
    requires Alternating(pattern)
    ensures FullMatch(t, pattern) ==>
              && |t| > 0 && IsSpace(t[0]) && !IsSpace(t[|t| - 1])
              && SpaceRuns(t, false) == |pattern| / 2
    decreases |pattern|
  {
    if FullMatch(t, pattern) {
      var m := RunMatchSplit(t, true, pattern[1..]);
      var u := t[m..];
      var n := TokenSplit(u, pattern);
      var v := u[n..];
      assert t == t[..m] + (u[..n] + v);
      SpaceRunsOfSpaces(t[..m], false);
      SpaceRunsOfToken(u[..n], true);
      SpaceRunsAppend(t[..m], u[..n] + v, false);
      SpaceRunsAppend(u[..n], v, true);
      if |pattern| == 2 {
        assert |v| == 0;
        assert t[|t| - 1] == u[n - 1];
      } else {
        AlternatingMatchRuns(v, pattern[2..]);
        assert t[|t| - 1] == v[|v| - 1];
      }
    }
  }

  /** No match of an alternating pattern starts inside a text that ends in
      something other than whitespace and is followed by a match. */
  lemma NoMatchAcross(lw: string, ls: string, pattern: seq<Piece>, j: nat)
    requires Alternating(pattern) && FullMatch(ls, pattern)
    requires j < |lw| && !IsSpace(lw[|lw| - 1])
    ensures !FullMatch((lw + ls)[j..], pattern)
  {
    var s := lw + ls;
    assert s[j..] == lw[j..] + ls;
    assert s[j..][0] == lw[j];
    if IsSpace(lw[j]) {
      AlternatingMatchRuns(ls, pattern);
      AlternatingMatchRuns(s[j..], pattern);
      SpaceRunsAppend(lw[j..], ls, false);
      SpaceRunsOfLeadingSpace(lw[j..]);
    } else {
      NoMatchWithoutLeadingSpace(s[j..], pattern);
    }
  }

  /** An alternating pattern that matches the text after some words
      removes exactly that text. */
  lemma RemoveSuffixAfterWords(lw: string, ls: string, pattern: seq<Piece>)
    requires |lw| == 0 || !IsSpace(lw[|lw| - 1])
    requires Alternating(pattern) && FullMatch(ls, pattern)
    ensures RemoveAtEnd(lw + ls, pattern) == lw
  {
    var s := lw + ls;
    assert s[|lw|..|s|] == ls;
    forall j | 0 <= j < |lw| ensures !FullMatch(s[j..|s|], pattern) {
      assert s[j..|s|] == s[j..];
      NoMatchAcross(lw, ls, pattern, j);
    }
    LeftmostMatchIs(s, |s|, pattern, |lw|);
    assert s[..|lw|] == lw;
  }

  /** The list form of `CleanGymNameCutsSuffixAfterWords`. */
  lemma RemoveAllCutsSuffixAfterWords(lw: string, ls: string, patterns: seq<seq<Piece>>, i: nat)
    requires |lw| == 0 || !IsSpace(lw[|lw| - 1])
    requires i < |patterns| && Alternating(patterns[i]) && FullMatch(ls, patterns[i])
    requires NoneMatchesAtEnd(lw + ls, patterns[..i])
    requires NoneMatchesAtEnd(lw, patterns[i + 1..])
    ensures RemoveAllAtEnd(lw + ls, patterns) == lw
  {
    var s := lw + ls;
    RemoveAllAtEndAt(s, patterns, i);
    RemoveAllAtEndNoMatch(s, patterns[..i]);
    RemoveSuffixAfterWords(lw, ls, patterns[i]);
    RemoveAllAtEndNoMatch(lw, patterns[i + 1..]);
  }

  /** Words followed by a match of one of the suffix patterns are cut back
      to the lower-cased, stripped words, provided no pattern tried before
      it matches at the end of the whole name and no pattern tried after it
      matches at the end of the words. */
  lemma CleanGymNameCutsSuffixAfterWords(words: string, suffix: string, i: nat)
    requires |words| == 0 || !IsSpace(words[|words| - 1])
    requires i < |NameSuffixes| && FullMatch(Lower(suffix), NameSuffixes[i])
    requires NoneMatchesAtEnd(Lower(words + suffix), NameSuffixes[..i])
    requires NoneMatchesAtEnd(Lower(words), NameSuffixes[i + 1..])
    ensures CleanGymName(words + suffix) == Strip(Lower(words))
  {
    var lw := Lower(words);
    LowerAppend(words, suffix);
    if |words| > 0 {
      LowerChars(words);
    }
    SuffixesAlternate();
    RemoveAllCutsSuffixAfterWords(lw, Lower(suffix), NameSuffixes, i);
    CleanGymNameSteps(words + suffix);
  }
}
