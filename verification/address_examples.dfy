/** The addresses of the test suite of `normalize_address`, worked through
    the pipeline step by step: lower-casing, the abbreviation table part by
    part, and the punctuation rule. */
module AddressExamples {
  import opened Text
  import opened PyValue
  import opened Normalize

  /** Why a key of the table does not occur in a text: a character of the
      key the text lacks, or two adjacent characters of the key, from index
      `j` on, that are never adjacent in the text. */
  datatype Absence = Char(c: char) | Pair(j: nat)

  predicate Shows(s: string, key: string, why: Absence) {
    match why
    case Char(c) => c in key && c !in s
    case Pair(j) => j + 1 < |key| && NoPair(s, key[j], key[j + 1])
  }

  lemma ShowsAbsent(s: string, key: string, why: Absence)
    requires Shows(s, key, why)
    ensures !Contains(s, key)
  {
    match why
    case Char(c) => AbsentCharNotContained(s, key, c);
    case Pair(j) => AbsentPairNotContained(s, key, j);
  }

  /** The keys of `table` from index `from` on, one per reason in `whys`,
      are shown absent from `s`. */
  predicate Unshown(s: string, table: seq<(Needle, LowerText)>, from: nat, whys: seq<Absence>) {
    from + |whys| <= |table| && forall j :: 0 <= j < |whys| ==> Shows(s, table[from + j].0, whys[j])
  }

  lemma UnshownWithin(s: string, table: seq<(Needle, LowerText)>, from: nat, whys: seq<Absence>, lo: nat, hi: nat)
    requires Unshown(s, table, from, whys)
    requires lo <= from && from + |whys| <= hi <= |table|
    ensures Unshown(s, table[lo..hi], from - lo, whys)
  {
    forall j | 0 <= j < |whys|
      ensures Shows(s, table[lo..hi][from - lo + j].0, whys[j])
    {
      assert table[lo..hi][from - lo + j] == table[from + j];
    }
  }

  lemma UnshownJoin(s: string, table: seq<(Needle, LowerText)>, from: nat, first: seq<Absence>, second: seq<Absence>)
    requires Unshown(s, table, from, first) && Unshown(s, table, from + |first|, second)
    ensures Unshown(s, table, from, first + second)
  {
    forall j | 0 <= j < |first + second|
      ensures Shows(s, table[from + j].0, (first + second)[j])
    {
      if j >= |first| {
        assert Shows(s, table[from + |first| + (j - |first|)].0, second[j - |first|]);
      }
    }
  }

  /** A table none of whose keys occurs leaves the text alone. */
  lemma NoKeyShown(s: string, table: seq<(Needle, LowerText)>, whys: seq<Absence>)
    requires |whys| == |table| && Unshown(s, table, 0, whys)
    ensures ApplyReplacements(s, table) == s
  {
    forall k | 0 <= k < |table| ensures !Contains(s, table[k].0) {
      ShowsAbsent(s, table[k].0, whys[k]);
    }
    ApplyReplacementsKeeps(s, table);
  }

  /** A pattern that occurs once, after text where no occurrence can start,
      is replaced once. */
  lemma ReplaceOnce(before: string, pattern: string, after: string, replacement: string, why: Absence)
    requires |pattern| >= 2
    requires NoPairBefore(before + pattern + after, pattern[0], pattern[1], |before|)
    requires Shows(after, pattern, why)
    ensures ReplaceAll(before + pattern + after, pattern, replacement) == before + replacement + after
  {
    var s := before + pattern + after;
    ReplaceAllSkips(s, |before|, pattern, replacement);
    assert s[..|before|] == before;
    assert s[|before|..] == pattern + after;
    ReplaceAllAtFront(pattern, after, replacement);
    ShowsAbsent(after, pattern, why);
    AppendAssoc(before, replacement, after);
  }

  /** A pattern that occurs once in a text, where it is the `k`-th key of a
      table that is otherwise absent, is replaced once by the table. */
  lemma ReplaceInTable(s: string, table: seq<(Needle, LowerText)>, k: nat, before: string, after: string, r: string,
                       earlier: seq<Absence>, later: seq<Absence>)
    requires k < |table| && Occurrence(s, before, table[k].0, after, r, table[k].1)
    requires |earlier| == k && Unshown(s, table, 0, earlier)
    requires |later| == |table| - k - 1 && Unshown(r, table, k + 1, later)
    ensures ApplyReplacements(s, table) == r
  {
    ApplyReplacementsAt(s, table, k);
    UnshownWithin(s, table, 0, earlier, 0, k);
    assert table[0..k] == table[..k];
    NoKeyShown(s, table[..k], earlier);
    var why :| Shows(after, table[k].0, why);
    ReplaceOnce(before, table[k].0, after, table[k].1, why);
    UnshownWithin(r, table, k + 1, later, k + 1, |table|);
    assert table[k + 1..|table|] == table[k + 1..];
    NoKeyShown(r, table[k + 1..], later);
  }

  /** `s` is `before + pattern + after`, where no occurrence of `pattern`
      can start in `before` and none occurs in `after`; `r` has
      `replacement` in its place. */
  ghost predicate Occurrence(s: string, before: string, pattern: string, after: string, r: string, replacement: string) {
    && |pattern| >= 2
    && s == before + pattern + after
    && r == before + replacement + after
    && NoPairBefore(s, pattern[0], pattern[1], |before|)
    && exists why :: Shows(after, pattern, why)
  }

  lemma ShowOccurrence(s: string, before: string, pattern: string, after: string, r: string, replacement: string, why: Absence)
    requires |pattern| >= 2 && s == before + pattern + after && r == before + replacement + after
    requires NoPairBefore(s, pattern[0], pattern[1], |before|)
    requires Shows(after, pattern, why)
    ensures Occurrence(s, before, pattern, after, r, replacement)
  {
  }

  /** Lower-casing, checked character by character. */
  lemma LowerBy(s: string, r: string)
    requires |s| == |r| && forall i :: 0 <= i < |s| ==> LowerChar(s[i]) == r[i]
    ensures Lower(s) == r
  {
    LowerChars(s);
  }

  /** A comma between two texts without punctuation, not followed by a
      digit, is dropped. */
  lemma DropCommaBetween(a: string, b: string, s: string, r: string)
    requires s == a + [','] + b && r == a + b
    requires forall c :: c in a ==> !IsPunct(c)
    requires forall c :: c in b ==> !IsPunct(c)
    requires |b| == 0 || !IsDigit(b[0])
    ensures DropPunctuation(s) == r
  {
    if |a| > 0 {
      assert a[|a| - 1] in a;
    }
    assert s == a + ([','] + b);
    DropPunctuationAppend(a, [','] + b);
    DropPunctuationKeeps(a);
    assert ([','] + b)[1..] == b;
    DropPunctuationKeeps(b);
  }

  const MainStreetStage0: string := "123 main street"
  const MainStreetStage1: string := "123 main st"

  /** "123 Main Street" becomes "123 main st". */
  lemma NormalizeAddressMainStreet()
    ensures NormalizeAddress(Some("123 Main Street")) == "123 main st"
  {
    MainStreetLower();
    MainStreetAbbreviated();
    MainStreetPunctuation();
    MainStreetLoweredShape();
    MainStreetResultShape();
    NormalizeAddressSteps("123 Main Street", MainStreetStage0, MainStreetStage1, "123 main st");
  }

  lemma MainStreetLower()
    ensures Lower("123 Main Street") == MainStreetStage0
  {
    LowerBy("123 Main Street", MainStreetStage0);
  }

  lemma MainStreetAbbreviated()
    ensures ApplyReplacements(MainStreetStage0, AddressReplacements) == MainStreetStage1
  {
    ApplyAddressReplacements(MainStreetStage0);
    MainStreetStreetTypes();
    MainStreetMoreStreetTypes();
    MainStreetBuildingTypes();
    MainStreetFirstOrdinals();
    MainStreetLaterOrdinals();
    MainStreetDirections();
    MainStreetCityNames();
    MainStreetCommonVariations();
  }

  lemma MainStreetStreetTypes()
    ensures ApplyReplacements(MainStreetStage0, StreetTypes) == MainStreetStage1
  {
    MainStreetStreetTypesLaterHead();
    MainStreetStreetTypesLaterTail();
    UnshownJoin(MainStreetStage1, StreetTypes, 1, [Char('.'), Char('v'), Char('v'), Char('b'), Char('b'), Char('r')], [Char('r'), Char('d'), Char('d'), Char('l'), Char('l')]);
    MainStreetStreetTypesOnce();
    ReplaceInTable(MainStreetStage0, StreetTypes, 0, "123 main", "", MainStreetStage1,
      [],
      [Char('.'), Char('v'), Char('v'), Char('b'), Char('b'), Char('r')] + [Char('r'), Char('d'), Char('d'), Char('l'), Char('l')]);
  }

  lemma MainStreetMoreStreetTypes()
    ensures ApplyReplacements(MainStreetStage1, MoreStreetTypes) == MainStreetStage1
  {
    MainStreetMoreStreetTypesKeptHead();
    MainStreetMoreStreetTypesKeptTail();
    UnshownJoin(MainStreetStage1, MoreStreetTypes, 0, [Char('p'), Char('p'), Char('c'), Char('c'), Char('c')], [Char('c'), Char('w'), Char('p'), Char('h'), Char('f')]);
    NoKeyShown(MainStreetStage1, MoreStreetTypes, [Char('p'), Char('p'), Char('c'), Char('c'), Char('c')] + [Char('c'), Char('w'), Char('p'), Char('h'), Char('f')]);
  }

  lemma MainStreetBuildingTypes()
    ensures ApplyReplacements(MainStreetStage1, BuildingTypes) == MainStreetStage1
  {
    MainStreetBuildingTypesKeptHead();
    MainStreetBuildingTypesKeptTail();
    UnshownJoin(MainStreetStage1, BuildingTypes, 0, [Char('u'), Char('e'), Char('p'), Char('p'), Char('f'), Char('f')], [Char('b'), Char('b'), Char('r'), Char('r'), Char('u'), Char('#')]);
    NoKeyShown(MainStreetStage1, BuildingTypes, [Char('u'), Char('e'), Char('p'), Char('p'), Char('f'), Char('f')] + [Char('b'), Char('b'), Char('r'), Char('r'), Char('u'), Char('#')]);
  }

  lemma MainStreetFirstOrdinals()
    ensures ApplyReplacements(MainStreetStage1, FirstOrdinals) == MainStreetStage1
  {
    MainStreetFirstOrdinalsKept();
    NoKeyShown(MainStreetStage1, FirstOrdinals, [Char('f'), Char('e'), Char('h'), Char('f'), Char('f'), Char('x')]);
  }

  lemma MainStreetLaterOrdinals()
    ensures ApplyReplacements(MainStreetStage1, LaterOrdinals) == MainStreetStage1
  {
    MainStreetLaterOrdinalsKept();
    NoKeyShown(MainStreetStage1, LaterOrdinals, [Char('e'), Char('e'), Char('h'), Char('e'), Char('e'), Char('w')]);
  }

  lemma MainStreetDirections()
    ensures ApplyReplacements(MainStreetStage1, Directions) == MainStreetStage1
  {
    MainStreetDirectionsKeptHead();
    MainStreetDirectionsKeptTail();
    UnshownJoin(MainStreetStage1, Directions, 0, [Char('w'), Char('e'), Char('o'), Char('o')], [Char('o'), Char('o'), Char('o'), Char('o')]);
    NoKeyShown(MainStreetStage1, Directions, [Char('w'), Char('e'), Char('o'), Char('o')] + [Char('o'), Char('o'), Char('o'), Char('o')]);
  }

  lemma MainStreetCityNames()
    ensures ApplyReplacements(MainStreetStage1, CityNames) == MainStreetStage1
  {
    MainStreetCityNamesKept();
    NoKeyShown(MainStreetStage1, CityNames, [Char('e'), Char('h'), Char('b'), Char('q'), Char('b'), Char('e')]);
  }

  lemma MainStreetCommonVariations()
    ensures ApplyReplacements(MainStreetStage1, CommonVariations) == MainStreetStage1
  {
    MainStreetCommonVariationsKept();
    NoKeyShown(MainStreetStage1, CommonVariations, [Char('&'), Char('v'), Char('p'), Char('d'), Char('b'), Char('w')]);
  }

  lemma MainStreetLoweredShape()
    ensures PlainSpaces(MainStreetStage0) && NoDoubleSpace(MainStreetStage0) && Trimmed(MainStreetStage0)
  {
    MainStreetStage0Letters();
  }

  lemma MainStreetResultShape()
    ensures PlainSpaces("123 main st") && NoDoubleSpace("123 main st") && Trimmed("123 main st")
  {
    assert forall c :: c in "123 main st" ==> c in {' ', '1', '2', '3', 'a', 'i', 'm', 'n', 's', 't'};
  }

  lemma MainStreetStreetTypesOnce()
    ensures Occurrence(MainStreetStage0, "123 main", StreetTypes[0].0, "", MainStreetStage1, StreetTypes[0].1)
  {
    assert StreetTypes[0] == (" street", " st");
    assert "123 main" + " street" + "" == MainStreetStage0;
    assert "123 main" + " st" + "" == MainStreetStage1;
    ShowOccurrence(MainStreetStage0, "123 main", " street", "", MainStreetStage1, " st", Char(' '));
  }

  lemma MainStreetStreetTypesLaterHead()
    ensures Unshown(MainStreetStage1, StreetTypes, 1, [Char('.'), Char('v'), Char('v'), Char('b'), Char('b'), Char('r')])
  {
    MainStreetStage1Letters();
  }

  lemma MainStreetStreetTypesLaterTail()
    ensures Unshown(MainStreetStage1, StreetTypes, 7, [Char('r'), Char('d'), Char('d'), Char('l'), Char('l')])
  {
    MainStreetStage1Letters();
  }

  lemma MainStreetMoreStreetTypesKeptHead()
    ensures Unshown(MainStreetStage1, MoreStreetTypes, 0, [Char('p'), Char('p'), Char('c'), Char('c'), Char('c')])
  {
    MainStreetStage1Letters();
  }

  lemma MainStreetMoreStreetTypesKeptTail()
    ensures Unshown(MainStreetStage1, MoreStreetTypes, 5, [Char('c'), Char('w'), Char('p'), Char('h'), Char('f')])
  {
    MainStreetStage1Letters();
  }

  lemma MainStreetBuildingTypesKeptHead()
    ensures Unshown(MainStreetStage1, BuildingTypes, 0, [Char('u'), Char('e'), Char('p'), Char('p'), Char('f'), Char('f')])
  {
    MainStreetStage1Letters();
  }

  lemma MainStreetBuildingTypesKeptTail()
    ensures Unshown(MainStreetStage1, BuildingTypes, 6, [Char('b'), Char('b'), Char('r'), Char('r'), Char('u'), Char('#')])
  {
    MainStreetStage1Letters();
  }

  lemma MainStreetFirstOrdinalsKept()
    ensures Unshown(MainStreetStage1, FirstOrdinals, 0, [Char('f'), Char('e'), Char('h'), Char('f'), Char('f'), Char('x')])
  {
    MainStreetStage1Letters();
  }

  lemma MainStreetLaterOrdinalsKept()
    ensures Unshown(MainStreetStage1, LaterOrdinals, 0, [Char('e'), Char('e'), Char('h'), Char('e'), Char('e'), Char('w')])
  {
    MainStreetStage1Letters();
  }

  lemma MainStreetDirectionsKeptHead()
    ensures Unshown(MainStreetStage1, Directions, 0, [Char('w'), Char('e'), Char('o'), Char('o')])
  {
    MainStreetStage1Letters();
  }

  lemma MainStreetDirectionsKeptTail()
    ensures Unshown(MainStreetStage1, Directions, 4, [Char('o'), Char('o'), Char('o'), Char('o')])
  {
    MainStreetStage1Letters();
  }

  lemma MainStreetCityNamesKept()
    ensures Unshown(MainStreetStage1, CityNames, 0, [Char('e'), Char('h'), Char('b'), Char('q'), Char('b'), Char('e')])
  {
    MainStreetStage1Letters();
  }

  lemma MainStreetCommonVariationsKept()
    ensures Unshown(MainStreetStage1, CommonVariations, 0, [Char('&'), Char('v'), Char('p'), Char('d'), Char('b'), Char('w')])
  {
    MainStreetStage1Letters();
  }

  lemma MainStreetStage0Letters()
    ensures forall c :: c in MainStreetStage0 ==> c in {' ', '1', '2', '3', 'a', 'e', 'i', 'm', 'n', 'r', 's', 't'}
  {
  }

  lemma MainStreetStage1Letters()
    ensures forall c :: c in MainStreetStage1 ==> c in {' ', '1', '2', '3', 'a', 'i', 'm', 'n', 's', 't'}
  {
  }

  lemma MainStreetPunctuation()
    ensures DropPunctuation(MainStreetStage1) == "123 main st"
  {
    DropPunctuationKeeps(MainStreetStage1);
  }

  const FirstAvenueStage0: string := "456 first avenue, suite 5"
  const FirstAvenueStage1: string := "456 first ave, suite 5"
  const FirstAvenueStage2: string := "456 first ave, ste 5"
  const FirstAvenueStage3: string := "456 1st ave, ste 5"

  /** "456 First Avenue, Suite 5" becomes "456 1st ave ste 5": three entries apply, and the comma before a space goes. */
  lemma NormalizeAddressFirstAvenue()
    ensures NormalizeAddress(Some("456 First Avenue, Suite 5")) == "456 1st ave ste 5"
  {
    FirstAvenueLower();
    FirstAvenueAbbreviated();
    FirstAvenuePunctuation();
    FirstAvenueLoweredShape();
    FirstAvenueResultShape();
    NormalizeAddressSteps("456 First Avenue, Suite 5", FirstAvenueStage0, FirstAvenueStage3, "456 1st ave ste 5");
  }

  lemma FirstAvenueLower()
    ensures Lower("456 First Avenue, Suite 5") == FirstAvenueStage0
  {
    LowerBy("456 First Avenue, Suite 5", FirstAvenueStage0);
  }

  lemma FirstAvenueAbbreviated()
    ensures ApplyReplacements(FirstAvenueStage0, AddressReplacements) == FirstAvenueStage3
  {
    ApplyAddressReplacements(FirstAvenueStage0);
    FirstAvenueStreetTypes();
    FirstAvenueMoreStreetTypes();
    FirstAvenueBuildingTypes();
    FirstAvenueFirstOrdinals();
    FirstAvenueLaterOrdinals();
    FirstAvenueDirections();
    FirstAvenueCityNames();
    FirstAvenueCommonVariations();
  }

  lemma FirstAvenueStreetTypes()
    ensures ApplyReplacements(FirstAvenueStage0, StreetTypes) == FirstAvenueStage1
  {
    FirstAvenueStreetTypesEarlier();
    FirstAvenueStreetTypesLaterHead();
    FirstAvenueStreetTypesLaterTail();
    UnshownJoin(FirstAvenueStage1, StreetTypes, 3, [Char('.'), Char('b'), Char('b'), Char('o'), Char('d')], [Char('d'), Char('d'), Char('l'), Char('l')]);
    FirstAvenueStreetTypesOnce();
    ReplaceInTable(FirstAvenueStage0, StreetTypes, 2, "456 first", ", suite 5", FirstAvenueStage1,
      [Pair(2), Char('.')],
      [Char('.'), Char('b'), Char('b'), Char('o'), Char('d')] + [Char('d'), Char('d'), Char('l'), Char('l')]);
  }

  lemma FirstAvenueMoreStreetTypes()
    ensures ApplyReplacements(FirstAvenueStage1, MoreStreetTypes) == FirstAvenueStage1
  {
    FirstAvenueMoreStreetTypesKeptHead();
    FirstAvenueMoreStreetTypesKeptTail();
    UnshownJoin(FirstAvenueStage1, MoreStreetTypes, 0, [Char('p'), Char('p'), Char('c'), Char('c'), Char('c')], [Char('c'), Char('w'), Char('p'), Char('h'), Char('w')]);
    NoKeyShown(FirstAvenueStage1, MoreStreetTypes, [Char('p'), Char('p'), Char('c'), Char('c'), Char('c')] + [Char('c'), Char('w'), Char('p'), Char('h'), Char('w')]);
  }

  lemma FirstAvenueBuildingTypes()
    ensures ApplyReplacements(FirstAvenueStage1, BuildingTypes) == FirstAvenueStage2
  {
    FirstAvenueBuildingTypesLaterHead();
    FirstAvenueBuildingTypesLaterTail();
    UnshownJoin(FirstAvenueStage2, BuildingTypes, 1, [Char('.'), Char('p'), Char('p'), Char('l'), Char('l'), Char('b')], [Char('b'), Char('o'), Char('m'), Char('u'), Char('#')]);
    FirstAvenueBuildingTypesOnce();
    ReplaceInTable(FirstAvenueStage1, BuildingTypes, 0, "456 first ave,", " 5", FirstAvenueStage2,
      [],
      [Char('.'), Char('p'), Char('p'), Char('l'), Char('l'), Char('b')] + [Char('b'), Char('o'), Char('m'), Char('u'), Char('#')]);
  }

  lemma FirstAvenueFirstOrdinals()
    ensures ApplyReplacements(FirstAvenueStage2, FirstOrdinals) == FirstAvenueStage3
  {
    FirstAvenueFirstOrdinalsLater();
    FirstAvenueFirstOrdinalsOnce();
    ReplaceInTable(FirstAvenueStage2, FirstOrdinals, 0, "456 ", " ave, ste 5", FirstAvenueStage3,
      [],
      [Char('c'), Char('h'), Char('f'), Char('f'), Char('i')]);
  }

  lemma FirstAvenueLaterOrdinals()
    ensures ApplyReplacements(FirstAvenueStage3, LaterOrdinals) == FirstAvenueStage3
  {
    FirstAvenueLaterOrdinalsKept();
    NoKeyShown(FirstAvenueStage3, LaterOrdinals, [Char('n'), Char('i'), Char('n'), Char('n'), Char('l'), Char('w')]);
  }

  lemma FirstAvenueDirections()
    ensures ApplyReplacements(FirstAvenueStage3, Directions) == FirstAvenueStage3
  {
    FirstAvenueDirectionsKeptHead();
    FirstAvenueDirectionsKeptTail();
    UnshownJoin(FirstAvenueStage3, Directions, 0, [Char('w'), Pair(0), Char('n'), Char('o')], [Char('n'), Char('n'), Char('o'), Char('o')]);
    NoKeyShown(FirstAvenueStage3, Directions, [Char('w'), Pair(0), Char('n'), Char('o')] + [Char('n'), Char('n'), Char('o'), Char('o')]);
  }

  lemma FirstAvenueCityNames()
    ensures ApplyReplacements(FirstAvenueStage3, CityNames) == FirstAvenueStage3
  {
    FirstAvenueCityNamesKept();
    NoKeyShown(FirstAvenueStage3, CityNames, [Char('n'), Char('m'), Char('b'), Char('q'), Char('b'), Char('n')]);
  }

  lemma FirstAvenueCommonVariations()
    ensures ApplyReplacements(FirstAvenueStage3, CommonVariations) == FirstAvenueStage3
  {
    FirstAvenueCommonVariationsKept();
    NoKeyShown(FirstAvenueStage3, CommonVariations, [Char('&'), Char('n'), Char('p'), Char('m'), Char('b'), Char('w')]);
  }

  lemma FirstAvenueLoweredShape()
    ensures PlainSpaces(FirstAvenueStage0) && NoDoubleSpace(FirstAvenueStage0) && Trimmed(FirstAvenueStage0)
  {
    FirstAvenueStage0Letters();
  }

  lemma FirstAvenueResultShape()
    ensures PlainSpaces("456 1st ave ste 5") && NoDoubleSpace("456 1st ave ste 5") && Trimmed("456 1st ave ste 5")
  {
    assert forall c :: c in "456 1st ave ste 5" ==> c in {' ', '1', '4', '5', '6', 'a', 'e', 's', 't', 'v'};
  }

  lemma FirstAvenueStreetTypesOnce()
    ensures Occurrence(FirstAvenueStage0, "456 first", StreetTypes[2].0, ", suite 5", FirstAvenueStage1, StreetTypes[2].1)
  {
    assert StreetTypes[2] == (" avenue", " ave");
    assert "456 first" + " avenue" + ", suite 5" == FirstAvenueStage0;
    assert "456 first" + " ave" + ", suite 5" == FirstAvenueStage1;
    ShowOccurrence(FirstAvenueStage0, "456 first", " avenue", ", suite 5", FirstAvenueStage1, " ave", Char('a'));
  }

  lemma FirstAvenueBuildingTypesOnce()
    ensures Occurrence(FirstAvenueStage1, "456 first ave,", BuildingTypes[0].0, " 5", FirstAvenueStage2, BuildingTypes[0].1)
  {
    assert BuildingTypes[0] == (" suite", " ste");
    assert "456 first ave," + " suite" + " 5" == FirstAvenueStage1;
    assert "456 first ave," + " ste" + " 5" == FirstAvenueStage2;
    ShowOccurrence(FirstAvenueStage1, "456 first ave,", " suite", " 5", FirstAvenueStage2, " ste", Char('s'));
  }

  lemma FirstAvenueFirstOrdinalsOnce()
    ensures Occurrence(FirstAvenueStage2, "456 ", FirstOrdinals[0].0, " ave, ste 5", FirstAvenueStage3, FirstOrdinals[0].1)
  {
    assert FirstOrdinals[0] == ("first", "1st");
    assert "456 " + "first" + " ave, ste 5" == FirstAvenueStage2;
    assert "456 " + "1st" + " ave, ste 5" == FirstAvenueStage3;
    ShowOccurrence(FirstAvenueStage2, "456 ", "first", " ave, ste 5", FirstAvenueStage3, "1st", Char('f'));
  }

  lemma FirstAvenueStreetTypesEarlier()
    ensures Unshown(FirstAvenueStage0, StreetTypes, 0, [Pair(2), Char('.')])
  {
    FirstAvenueStage0Letters();
    FirstAvenueStage0Pairs();
  }

  lemma FirstAvenueStreetTypesLaterHead()
    ensures Unshown(FirstAvenueStage1, StreetTypes, 3, [Char('.'), Char('b'), Char('b'), Char('o'), Char('d')])
  {
    FirstAvenueStage1Letters();
  }

  lemma FirstAvenueStreetTypesLaterTail()
    ensures Unshown(FirstAvenueStage1, StreetTypes, 8, [Char('d'), Char('d'), Char('l'), Char('l')])
  {
    FirstAvenueStage1Letters();
  }

  lemma FirstAvenueMoreStreetTypesKeptHead()
    ensures Unshown(FirstAvenueStage1, MoreStreetTypes, 0, [Char('p'), Char('p'), Char('c'), Char('c'), Char('c')])
  {
    FirstAvenueStage1Letters();
  }

  lemma FirstAvenueMoreStreetTypesKeptTail()
    ensures Unshown(FirstAvenueStage1, MoreStreetTypes, 5, [Char('c'), Char('w'), Char('p'), Char('h'), Char('w')])
  {
    FirstAvenueStage1Letters();
  }

  lemma FirstAvenueBuildingTypesLaterHead()
    ensures Unshown(FirstAvenueStage2, BuildingTypes, 1, [Char('.'), Char('p'), Char('p'), Char('l'), Char('l'), Char('b')])
  {
    FirstAvenueStage2Letters();
  }

  lemma FirstAvenueBuildingTypesLaterTail()
    ensures Unshown(FirstAvenueStage2, BuildingTypes, 7, [Char('b'), Char('o'), Char('m'), Char('u'), Char('#')])
  {
    FirstAvenueStage2Letters();
  }

  lemma FirstAvenueFirstOrdinalsLater()
    ensures Unshown(FirstAvenueStage3, FirstOrdinals, 1, [Char('c'), Char('h'), Char('f'), Char('f'), Char('i')])
  {
    FirstAvenueStage3Letters();
  }

  lemma FirstAvenueLaterOrdinalsKept()
    ensures Unshown(FirstAvenueStage3, LaterOrdinals, 0, [Char('n'), Char('i'), Char('n'), Char('n'), Char('l'), Char('w')])
  {
    FirstAvenueStage3Letters();
  }

  lemma FirstAvenueDirectionsKeptHead()
    ensures Unshown(FirstAvenueStage3, Directions, 0, [Char('w'), Pair(0), Char('n'), Char('o')])
  {
    FirstAvenueStage3Letters();
    FirstAvenueStage3Pairs();
  }

  lemma FirstAvenueDirectionsKeptTail()
    ensures Unshown(FirstAvenueStage3, Directions, 4, [Char('n'), Char('n'), Char('o'), Char('o')])
  {
    FirstAvenueStage3Letters();
  }

  lemma FirstAvenueCityNamesKept()
    ensures Unshown(FirstAvenueStage3, CityNames, 0, [Char('n'), Char('m'), Char('b'), Char('q'), Char('b'), Char('n')])
  {
    FirstAvenueStage3Letters();
  }

  lemma FirstAvenueCommonVariationsKept()
    ensures Unshown(FirstAvenueStage3, CommonVariations, 0, [Char('&'), Char('n'), Char('p'), Char('m'), Char('b'), Char('w')])
  {
    FirstAvenueStage3Letters();
  }

  lemma FirstAvenueStage0Letters()
    ensures forall c :: c in FirstAvenueStage0 ==> c in {' ', ',', '4', '5', '6', 'a', 'e', 'f', 'i', 'n', 'r', 's', 't', 'u', 'v'}
  {
  }

  lemma FirstAvenueStage0Pairs()
    ensures forall i :: 0 <= i < |FirstAvenueStage0| - 1 ==>
      (FirstAvenueStage0[i], FirstAvenueStage0[i + 1]) in {(' ', '5'), (' ', 'a'), (' ', 'f'), (' ', 's'), (',', ' '), ('4', '5'), ('5', '6'), ('6', ' '), ('a', 'v'), ('e', ' '), ('e', ','), ('e', 'n'), ('f', 'i'), ('i', 'r'), ('i', 't'), ('n', 'u'), ('r', 's'), ('s', 't'), ('s', 'u'), ('t', ' '), ('t', 'e'), ('u', 'e'), ('u', 'i'), ('v', 'e')}
  {
  }

  lemma FirstAvenueStage1Letters()
    ensures forall c :: c in FirstAvenueStage1 ==> c in {' ', ',', '4', '5', '6', 'a', 'e', 'f', 'i', 'r', 's', 't', 'u', 'v'}
  {
  }

  lemma FirstAvenueStage2Letters()
    ensures forall c :: c in FirstAvenueStage2 ==> c in {' ', ',', '4', '5', '6', 'a', 'e', 'f', 'i', 'r', 's', 't', 'v'}
  {
  }

  lemma FirstAvenueStage3Letters()
    ensures forall c :: c in FirstAvenueStage3 ==> c in {' ', ',', '1', '4', '5', '6', 'a', 'e', 's', 't', 'v'}
  {
  }

  lemma FirstAvenueStage3Pairs()
    ensures forall i :: 0 <= i < |FirstAvenueStage3| - 1 ==>
      (FirstAvenueStage3[i], FirstAvenueStage3[i + 1]) in {(' ', '1'), (' ', '5'), (' ', 'a'), (' ', 's'), (',', ' '), ('1', 's'), ('4', '5'), ('5', '6'), ('6', ' '), ('a', 'v'), ('e', ' '), ('e', ','), ('s', 't'), ('t', ' '), ('t', 'e'), ('v', 'e')}
  {
  }

  lemma FirstAvenuePunctuation()
    ensures DropPunctuation(FirstAvenueStage3) == "456 1st ave ste 5"
  {
    DropCommaBetween("456 1st ave", " ste 5", FirstAvenueStage3, "456 1st ave ste 5");
  }

  const WestSideStage0: string := "789 west 42nd st., new york"
  const WestSideStage1: string := "789 west 42nd st, new york"
  const WestSideStage2: string := "789 w 42nd st, new york"
  const WestSideStage3: string := "789 w 42nd st, ny"

  /** "789 West 42nd St., New York" becomes "789 w 42nd st ny": " st." loses its period to the table, the comma goes afterwards. */
  lemma NormalizeAddressWestSide()
    ensures NormalizeAddress(Some("789 West 42nd St., New York")) == "789 w 42nd st ny"
  {
    WestSideLower();
    WestSideAbbreviated();
    WestSidePunctuation();
    WestSideLoweredShape();
    WestSideResultShape();
    NormalizeAddressSteps("789 West 42nd St., New York", WestSideStage0, WestSideStage3, "789 w 42nd st ny");
  }

  lemma WestSideLower()
    ensures Lower("789 West 42nd St., New York") == WestSideStage0
  {
    LowerBy("789 West 42nd St., New York", WestSideStage0);
  }

  lemma WestSideAbbreviated()
    ensures ApplyReplacements(WestSideStage0, AddressReplacements) == WestSideStage3
  {
    ApplyAddressReplacements(WestSideStage0);
    WestSideStreetTypes();
    WestSideMoreStreetTypes();
    WestSideBuildingTypes();
    WestSideFirstOrdinals();
    WestSideLaterOrdinals();
    WestSideDirections();
    WestSideCityNames();
    WestSideCommonVariations();
  }

  lemma WestSideStreetTypes()
    ensures ApplyReplacements(WestSideStage0, StreetTypes) == WestSideStage1
  {
    WestSideStreetTypesEarlier();
    WestSideStreetTypesLaterHead();
    WestSideStreetTypesLaterTail();
    UnshownJoin(WestSideStage1, StreetTypes, 2, [Char('a'), Char('a'), Char('b'), Char('b'), Char('a')], [Char('.'), Char('i'), Char('.'), Char('l'), Char('l')]);
    WestSideStreetTypesOnce();
    ReplaceInTable(WestSideStage0, StreetTypes, 1, "789 west 42nd", ", new york", WestSideStage1,
      [Pair(2)],
      [Char('a'), Char('a'), Char('b'), Char('b'), Char('a')] + [Char('.'), Char('i'), Char('.'), Char('l'), Char('l')]);
  }

  lemma WestSideMoreStreetTypes()
    ensures ApplyReplacements(WestSideStage1, MoreStreetTypes) == WestSideStage1
  {
    WestSideMoreStreetTypesKeptHead();
    WestSideMoreStreetTypesKeptTail();
    UnshownJoin(WestSideStage1, MoreStreetTypes, 0, [Char('p'), Char('p'), Char('c'), Char('c'), Char('c')], [Char('c'), Char('a'), Char('p'), Char('h'), Char('f')]);
    NoKeyShown(WestSideStage1, MoreStreetTypes, [Char('p'), Char('p'), Char('c'), Char('c'), Char('c')] + [Char('c'), Char('a'), Char('p'), Char('h'), Char('f')]);
  }

  lemma WestSideBuildingTypes()
    ensures ApplyReplacements(WestSideStage1, BuildingTypes) == WestSideStage1
  {
    WestSideBuildingTypesKeptHead();
    WestSideBuildingTypesKeptTail();
    UnshownJoin(WestSideStage1, BuildingTypes, 0, [Char('u'), Char('.'), Char('a'), Char('a'), Char('f'), Char('f')], [Char('b'), Char('b'), Char('m'), Char('m'), Char('u'), Char('#')]);
    NoKeyShown(WestSideStage1, BuildingTypes, [Char('u'), Char('.'), Char('a'), Char('a'), Char('f'), Char('f')] + [Char('b'), Char('b'), Char('m'), Char('m'), Char('u'), Char('#')]);
  }

  lemma WestSideFirstOrdinals()
    ensures ApplyReplacements(WestSideStage1, FirstOrdinals) == WestSideStage1
  {
    WestSideFirstOrdinalsKept();
    NoKeyShown(WestSideStage1, FirstOrdinals, [Char('f'), Char('c'), Char('h'), Char('f'), Char('f'), Char('i')]);
  }

  lemma WestSideLaterOrdinals()
    ensures ApplyReplacements(WestSideStage1, LaterOrdinals) == WestSideStage1
  {
    WestSideLaterOrdinalsKept();
    NoKeyShown(WestSideStage1, LaterOrdinals, [Char('v'), Char('i'), Char('i'), Char('h'), Char('l'), Char('l')]);
  }

  lemma WestSideDirections()
    ensures ApplyReplacements(WestSideStage1, Directions) == WestSideStage2
  {
    WestSideDirectionsLaterHead();
    WestSideDirectionsLaterTail();
    UnshownJoin(WestSideStage2, Directions, 1, [Char('a'), Char('h'), Char('u'), Char('h')], [Char('h'), Char('u'), Char('u')]);
    WestSideDirectionsOnce();
    ReplaceInTable(WestSideStage1, Directions, 0, "789", "42nd st, new york", WestSideStage2,
      [],
      [Char('a'), Char('h'), Char('u'), Char('h')] + [Char('h'), Char('u'), Char('u')]);
  }

  lemma WestSideCityNames()
    ensures ApplyReplacements(WestSideStage2, CityNames) == WestSideStage3
  {
    WestSideCityNamesLater();
    WestSideCityNamesOnce();
    ReplaceInTable(WestSideStage2, CityNames, 0, "789 w 42nd st, ", "", WestSideStage3,
      [],
      [Char('m'), Char('b'), Char('q'), Char('b'), Char('a')]);
  }

  lemma WestSideCommonVariations()
    ensures ApplyReplacements(WestSideStage3, CommonVariations) == WestSideStage3
  {
    WestSideCommonVariationsKept();
    NoKeyShown(WestSideStage3, CommonVariations, [Char('&'), Char('a'), Char('p'), Char('m'), Char('b'), Char('a')]);
  }

  lemma WestSideLoweredShape()
    ensures PlainSpaces(WestSideStage0) && NoDoubleSpace(WestSideStage0) && Trimmed(WestSideStage0)
  {
    WestSideStage0Letters();
  }

  lemma WestSideResultShape()
    ensures PlainSpaces("789 w 42nd st ny") && NoDoubleSpace("789 w 42nd st ny") && Trimmed("789 w 42nd st ny")
  {
    assert forall c :: c in "789 w 42nd st ny" ==> c in {' ', '2', '4', '7', '8', '9', 'd', 'n', 's', 't', 'w', 'y'};
  }

  lemma WestSideStreetTypesOnce()
    ensures Occurrence(WestSideStage0, "789 west 42nd", StreetTypes[1].0, ", new york", WestSideStage1, StreetTypes[1].1)
  {
    assert StreetTypes[1] == (" st.", " st");
    assert "789 west 42nd" + " st." + ", new york" == WestSideStage0;
    assert "789 west 42nd" + " st" + ", new york" == WestSideStage1;
    ShowOccurrence(WestSideStage0, "789 west 42nd", " st.", ", new york", WestSideStage1, " st", Char('s'));
  }

  lemma WestSideDirectionsOnce()
    ensures Occurrence(WestSideStage1, "789", Directions[0].0, "42nd st, new york", WestSideStage2, Directions[0].1)
  {
    WestSideDirectionsParts();
    WestSideDirectionsFront();
    WestSideDirectionsShown();
    ShowOccurrence(WestSideStage1, "789", " west ", "42nd st, new york", WestSideStage2, " w ", Pair(0));
  }

  lemma WestSideDirectionsParts()
    ensures Directions[0] == (" west ", " w ")
    ensures "789" + " west " + "42nd st, new york" == WestSideStage1
    ensures "789" + " w " + "42nd st, new york" == WestSideStage2
  {
    WestSideDirectionsKey();
    WestSideStage1Parts();
    WestSideStage2Parts();
  }

  lemma WestSideDirectionsKey()
    ensures Directions[0] == (" west ", " w ")
  {}

  lemma WestSideStage1Parts()
    ensures "789" + " west " + "42nd st, new york" == WestSideStage1
  {}

  lemma WestSideStage2Parts()
    ensures "789" + " w " + "42nd st, new york" == WestSideStage2
  {}

  lemma WestSideDirectionsFront()
    ensures NoPairBefore(WestSideStage1, ' ', 'w', 3)
  {}

  lemma WestSideDirectionsShown()
    ensures Shows("42nd st, new york", " west ", Pair(0))
  {
    assert NoPair("42nd st, new york", ' ', 'w');
  }

  lemma WestSideCityNamesOnce()
    ensures Occurrence(WestSideStage2, "789 w 42nd st, ", CityNames[0].0, "", WestSideStage3, CityNames[0].1)
  {
    assert CityNames[0] == ("new york", "ny");
    assert "789 w 42nd st, " + "new york" + "" == WestSideStage2;
    assert "789 w 42nd st, " + "ny" + "" == WestSideStage3;
    ShowOccurrence(WestSideStage2, "789 w 42nd st, ", "new york", "", WestSideStage3, "ny", Char('n'));
  }

  lemma WestSideStreetTypesEarlier()
    ensures Unshown(WestSideStage0, StreetTypes, 0, [Pair(2)])
  {
    WestSideStage0Letters();
    WestSideStage0Pairs();
  }

  lemma WestSideStreetTypesLaterHead()
    ensures Unshown(WestSideStage1, StreetTypes, 2, [Char('a'), Char('a'), Char('b'), Char('b'), Char('a')])
  {
    WestSideStage1Letters();
  }

  lemma WestSideStreetTypesLaterTail()
    ensures Unshown(WestSideStage1, StreetTypes, 7, [Char('.'), Char('i'), Char('.'), Char('l'), Char('l')])
  {
    WestSideStage1Letters();
  }

  lemma WestSideMoreStreetTypesKeptHead()
    ensures Unshown(WestSideStage1, MoreStreetTypes, 0, [Char('p'), Char('p'), Char('c'), Char('c'), Char('c')])
  {
    WestSideStage1Letters();
  }

  lemma WestSideMoreStreetTypesKeptTail()
    ensures Unshown(WestSideStage1, MoreStreetTypes, 5, [Char('c'), Char('a'), Char('p'), Char('h'), Char('f')])
  {
    WestSideStage1Letters();
  }

  lemma WestSideBuildingTypesKeptHead()
    ensures Unshown(WestSideStage1, BuildingTypes, 0, [Char('u'), Char('.'), Char('a'), Char('a'), Char('f'), Char('f')])
  {
    WestSideStage1Letters();
  }

  lemma WestSideBuildingTypesKeptTail()
    ensures Unshown(WestSideStage1, BuildingTypes, 6, [Char('b'), Char('b'), Char('m'), Char('m'), Char('u'), Char('#')])
  {
    WestSideStage1Letters();
  }

  lemma WestSideFirstOrdinalsKept()
    ensures Unshown(WestSideStage1, FirstOrdinals, 0, [Char('f'), Char('c'), Char('h'), Char('f'), Char('f'), Char('i')])
  {
    WestSideStage1Letters();
  }

  lemma WestSideLaterOrdinalsKept()
    ensures Unshown(WestSideStage1, LaterOrdinals, 0, [Char('v'), Char('i'), Char('i'), Char('h'), Char('l'), Char('l')])
  {
    WestSideStage1Letters();
  }

  lemma WestSideDirectionsLaterHead()
    ensures Unshown(WestSideStage2, Directions, 1, [Char('a'), Char('h'), Char('u'), Char('h')])
  {
    WestSideStage2Letters();
  }

  lemma WestSideDirectionsLaterTail()
    ensures Unshown(WestSideStage2, Directions, 5, [Char('h'), Char('u'), Char('u')])
  {
    WestSideStage2Letters();
  }

  lemma WestSideCityNamesLater()
    ensures Unshown(WestSideStage3, CityNames, 1, [Char('m'), Char('b'), Char('q'), Char('b'), Char('a')])
  {
    WestSideStage3Letters();
  }

  lemma WestSideCommonVariationsKept()
    ensures Unshown(WestSideStage3, CommonVariations, 0, [Char('&'), Char('a'), Char('p'), Char('m'), Char('b'), Char('a')])
  {
    WestSideStage3Letters();
  }

  lemma WestSideStage0Letters()
    ensures forall c :: c in WestSideStage0 ==> c in {' ', ',', '.', '2', '4', '7', '8', '9', 'd', 'e', 'k', 'n', 'o', 'r', 's', 't', 'w', 'y'}
  {
  }

  lemma WestSideStage0Pairs()
    ensures forall i :: 0 <= i < |WestSideStage0| - 1 ==>
      (WestSideStage0[i], WestSideStage0[i + 1]) in {(' ', '4'), (' ', 'n'), (' ', 's'), (' ', 'w'), (' ', 'y'), (',', ' '), ('.', ','), ('2', 'n'), ('4', '2'), ('7', '8'), ('8', '9'), ('9', ' '), ('d', ' '), ('e', 's'), ('e', 'w'), ('n', 'd'), ('n', 'e'), ('o', 'r'), ('r', 'k'), ('s', 't'), ('t', ' '), ('t', '.'), ('w', ' '), ('w', 'e'), ('y', 'o')}
  {
  }

  lemma WestSideStage1Letters()
    ensures forall c :: c in WestSideStage1 ==> c in {' ', ',', '2', '4', '7', '8', '9', 'd', 'e', 'k', 'n', 'o', 'r', 's', 't', 'w', 'y'}
  {
  }

  lemma WestSideStage2Letters()
    ensures forall c :: c in WestSideStage2 ==> c in {' ', ',', '2', '4', '7', '8', '9', 'd', 'e', 'k', 'n', 'o', 'r', 's', 't', 'w', 'y'}
  {
  }

  lemma WestSideStage3Letters()
    ensures forall c :: c in WestSideStage3 ==> c in {' ', ',', '2', '4', '7', '8', '9', 'd', 'n', 's', 't', 'w', 'y'}
  {
  }

  lemma WestSidePunctuation()
    ensures DropPunctuation(WestSideStage3) == "789 w 42nd st ny"
  {
    DropCommaBetween("789 w 42nd st", " ny", WestSideStage3, "789 w 42nd st ny");
  }

}
