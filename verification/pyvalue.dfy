/** The Python values the provider sanitizers inspect: what `json` decoding
    of an API response produces, with Python's truthiness, `dict.get`,
    `isinstance` and `str()` on them, and the exceptions some operations raise. */
module PyValue {
  import opened Text

  /** A decoded JSON value. A dict keeps its entries in insertion order; a
      float is carried by its `repr` text, since no code here does
      arithmetic on the floats it receives. */
  datatype Json =
    | JNull
    | JBool(b: bool)
    | JInt(i: int)
    | JFloat(repr: string)
    | JStr(s: string)
    | JList(items: seq<Json>)
    | JDict(entries: seq<(string, Json)>)

  /** An exception a modelled operation can raise. */
  datatype PyError = TypeError | AttributeError

  /** A computation that returns a value or raises. */
  datatype PyResult<+T> = Ok(value: T) | Raised(error: PyError)

  /** The values Python counts as false: None, False, a zero, and an empty
      string, list or dict. */
  const FalsyValues: set<Json> :=
    {JNull, JBool(false), JInt(0), JFloat("0.0"), JFloat("-0.0"), JStr(""), JList([]), JDict([])}

  /** Python truthiness (`bool(v)`). */
  function Truthy(v: Json): (r: bool)
    ensures r <==> v !in FalsyValues
  {
    match v
    case JNull => false
    case JBool(b) => b
    case JInt(i) => i != 0
    case JFloat(r) => r != "0.0" && r != "-0.0"
    case JStr(s) => s != ""
    case JList(items) => items != []
    case JDict(entries) => entries != []
  }

  /** `isinstance(v, int)`; `bool` is a subclass of `int` in Python. */
  predicate IsInt(v: Json) { v.JInt? || v.JBool? }

  /** `isinstance(v, (int, float))`. */
  predicate IsNumber(v: Json) { IsInt(v) || v.JFloat? }

  /** The integer an `int` value stands for (`True` is 1, `False` is 0). */
  function IntValue(v: Json): int
    requires IsInt(v)
  {
    match v
    case JInt(i) => i
    case JBool(b) => if b then 1 else 0
  }

  /** Looks `key` up among dict entries; a repeated key keeps its last
      value, as `json.loads` does. */
  function Lookup(entries: seq<(string, Json)>, key: string): (r: Option<Json>)
    ensures r.Some? <==> exists i :: 0 <= i < |entries| && entries[i].0 == key
  {
    if |entries| == 0 then None
    else if entries[|entries| - 1].0 == key then Some(entries[|entries| - 1].1)
    else Lookup(entries[..|entries| - 1], key)
  }

  /** Entry `i` is the last one with key `key`. */
  predicate LastEntryFor(entries: seq<(string, Json)>, key: string, i: int) {
    0 <= i < |entries| && entries[i].0 == key
    && forall j :: i < j < |entries| ==> entries[j].0 != key
  }

  /** A key that is present finds the value of its last entry. */
  lemma {:induction false} LookupLastWins(entries: seq<(string, Json)>, key: string) returns (i: int)
    requires Lookup(entries, key).Some?
    ensures LastEntryFor(entries, key, i) && entries[i].1 == Lookup(entries, key).value
  {
    var n := |entries|;
    if entries[n - 1].0 == key {
      i := n - 1;
    } else {
      i := LookupLastWins(entries[..n - 1], key);
      assert entries[i] == entries[..n - 1][i];
    }
  }

  /** What `Lookup` finds is an entry of the dict. */
  lemma {:induction false} LookupFound(entries: seq<(string, Json)>, key: string)
    ensures Lookup(entries, key).Some? ==> (key, Lookup(entries, key).value) in entries
  {
    var n := |entries|;
    if n > 0 && entries[n - 1].0 != key {
      LookupFound(entries[..n - 1], key);
    }
  }

  datatype Option<+T> = None | Some(value: T) {
    function GetOr(default: T): T {
      match this
      case Some(v) => v
      case None => default
    }
  }

  /** The keys of a dict in iteration order: each key once, where it was
      first inserted (a repeated key updates the value in place). */
  function DictKeys(entries: seq<(string, Json)>): (r: seq<string>)
    ensures forall i, j :: 0 <= i < j < |r| ==> r[i] != r[j]
    ensures forall k :: k in r <==> exists i :: 0 <= i < |entries| && entries[i].0 == k
  {
    if |entries| == 0 then []
    else
      var prev := DictKeys(entries[..|entries| - 1]);
      var k := entries[|entries| - 1].0;
      if k in prev then prev else prev + [k]
  }

  /** The position of the first entry with key `k`, or `|entries|` when
      there is none. */
  function FirstIndex(entries: seq<(string, Json)>, k: string): (r: nat)
    ensures r <= |entries|
    ensures r < |entries| ==> entries[r].0 == k
    ensures forall j :: 0 <= j < r ==> entries[j].0 != k
  {
    if |entries| == 0 then 0
    else if entries[0].0 == k then 0
    else
      var r := 1 + FirstIndex(entries[1..], k);
      assert forall j :: 1 <= j < |entries| ==> entries[j] == entries[1..][j - 1];
      r
  }

  /** Dict iteration order is first-insertion order: a key that was set
      again later keeps its original place. */
  lemma {:induction false} DictKeysInOrder(entries: seq<(string, Json)>)
    ensures forall i, j :: 0 <= i < j < |DictKeys(entries)| ==>
      FirstIndex(entries, DictKeys(entries)[i]) < FirstIndex(entries, DictKeys(entries)[j]) < |entries|
  {
    var n := |entries|;
    if n > 0 {
      var prefix := entries[..n - 1];
      var prev := DictKeys(prefix);
      DictKeysInOrder(prefix);
      var r := DictKeys(entries);
      forall x | x in prev ensures FirstIndex(entries, x) == FirstIndex(prefix, x) < n - 1 {
        FirstIndexOfPrefix(entries, x);
      }
      if entries[n - 1].0 !in prev {
        FirstIndexOfLast(entries);
        assert r == prev + [entries[n - 1].0];
        forall i, j | 0 <= i < j < |r|
          ensures FirstIndex(entries, r[i]) < FirstIndex(entries, r[j]) < |entries|
        {
          assert r[i] in prev;
          if j < |prev| { assert r[j] in prev; }
        }
      } else {
        forall i, j | 0 <= i < j < |r|
          ensures FirstIndex(entries, r[i]) < FirstIndex(entries, r[j]) < |entries|
        {
          assert r[i] in prev && r[j] in prev;
        }
      }
    }
  }

  /** A key that occurs before the last entry is first found there. */
  lemma FirstIndexOfPrefix(entries: seq<(string, Json)>, x: string)
    requires |entries| > 0 && x in DictKeys(entries[..|entries| - 1])
    ensures FirstIndex(entries, x) == FirstIndex(entries[..|entries| - 1], x) < |entries| - 1
  {
    var prefix := entries[..|entries| - 1];
    var a := FirstIndex(prefix, x);
    var b := FirstIndex(entries, x);
    var i :| 0 <= i < |prefix| && prefix[i].0 == x;
    assert a <= i;
    assert forall j :: 0 <= j < |prefix| ==> prefix[j] == entries[j];
  }

  /** A key first seen in the last entry is first found there. */
  lemma FirstIndexOfLast(entries: seq<(string, Json)>)
    requires |entries| > 0 && entries[|entries| - 1].0 !in DictKeys(entries[..|entries| - 1])
    ensures FirstIndex(entries, entries[|entries| - 1].0) == |entries| - 1
  {
    var prefix := entries[..|entries| - 1];
    var k := entries[|entries| - 1].0;
    assert forall j :: 0 <= j < |prefix| ==> prefix[j] == entries[j];
  }

  /** `key in d` for a dict `d`. */
  predicate HasKey(entries: seq<(string, Json)>, key: string) {
    Lookup(entries, key).Some?
  }

  /** `d.get(key, default)` for a dict `d`. */
  function Get(entries: seq<(string, Json)>, key: string, default: Json): Json {
    Lookup(entries, key).GetOr(default)
  }

  /** `d.get(key, default)` is the default when no entry has the key, and
      otherwise the value of the key's last entry. */
  lemma GetSpec(entries: seq<(string, Json)>, key: string, default: Json)
    ensures (forall i :: 0 <= i < |entries| ==> entries[i].0 != key) ==> Get(entries, key, default) == default
    ensures forall i :: LastEntryFor(entries, key, i) ==> Get(entries, key, default) == entries[i].1
  {
    if Lookup(entries, key).Some? {
      var last := LookupLastWins(entries, key);
      forall i | LastEntryFor(entries, key, i) ensures i == last {
        assert !(i < last) && !(last < i);
      }
    }
  }

  /** The entries of `v` when it is a dict, else those of `{}`: the
      `x = d.get(k, {}); if not isinstance(x, dict): x = {}` idiom. */
  function DictOrEmpty(v: Json): seq<(string, Json)> {
    if v.JDict? then v.entries else []
  }

  /** `str(v)`: a string is itself, anything else is its `repr`. */
  function Str(v: Json): (r: string)
    ensures v.JStr? ==> r == v.s
    ensures v.JList? ==> |r| >= 2 && r[0] == '[' && r[|r| - 1] == ']'
    ensures v.JDict? ==> |r| >= 2 && r[0] == '{' && r[|r| - 1] == '}'
  {
    match v
    case JStr(s) => s
    case _ => Repr(v)
  }

  /** `repr(v)`. A string is quoted the way Python chooses its quotes; a
      dict shows each key once, in insertion order, with the value it ended
      up holding. */
  function Repr(v: Json): (r: string)
    ensures v.JStr? ==> |r| >= 2 && r[0] == r[|r| - 1] && (r[0] == '\'' || r[0] == '"')
                        && forall c :: c in r ==> Printable(c)
    ensures v.JList? ==> |r| >= 2 && r[0] == '[' && r[|r| - 1] == ']'
    ensures v.JDict? ==> |r| >= 2 && r[0] == '{' && r[|r| - 1] == '}'
    decreases v, 1
  {
    match v
    case JNull => "None"
    case JBool(b) => if b then "True" else "False"
    case JInt(i) => IntText(i)
    case JFloat(r) => r
    case JStr(s) => QuoteString(s)
    case JList(items) => "[" + ReprItems(v, items) + "]"
    case JDict(entries) => "{" + ReprEntries(v, entries, DictKeys(entries)) + "}"
  }

  function ReprItems(ghost parent: Json, items: seq<Json>): string
    requires forall x :: x in items ==> x < parent
    decreases parent, 0, |items|
  {
    if |items| == 0 then ""
    else
      assert items[0] in items;
      if |items| == 1 then Repr(items[0])
      else
        assert forall x :: x in items[1..] ==> x in items;
        Repr(items[0]) + ", " + ReprItems(parent, items[1..])
  }

  /** The `key: value` pairs of a dict for the keys `keys`, each with the
      value `dict.get` gives for it. */
  function ReprEntries(ghost parent: Json, entries: seq<(string, Json)>, keys: seq<string>): string
    requires forall e :: e in entries ==> e.1 < parent
    requires forall k :: k in keys ==> HasKey(entries, k)
    decreases parent, 0, |keys|
  {
    if |keys| == 0 then ""
    else
      assert keys[0] in keys && HasKey(entries, keys[0]);
      var value := Lookup(entries, keys[0]).value;
      LookupFound(entries, keys[0]);
      assert (keys[0], value) in entries;
      var first := QuoteString(keys[0]) + ": " + Repr(value);
      if |keys| == 1 then first
      else
        assert forall k :: k in keys[1..] ==> k in keys;
        first + ", " + ReprEntries(parent, entries, keys[1..])
  }

  /** A dict's `repr` depends only on its keys in iteration order and the
      value each ended up holding: a repeated key shows once, with its
      last value. */
  lemma ReprDictByLookup(a: seq<(string, Json)>, b: seq<(string, Json)>)
    requires DictKeys(a) == DictKeys(b)
    requires forall k :: k in DictKeys(a) ==> Lookup(a, k) == Lookup(b, k)
    ensures Repr(JDict(a)) == Repr(JDict(b))
  {
    ReprEntriesByLookup(JDict(a), JDict(b), a, b, DictKeys(a));
  }

  lemma {:induction false} ReprEntriesByLookup(pa: Json, pb: Json, a: seq<(string, Json)>, b: seq<(string, Json)>, keys: seq<string>)
    requires forall e :: e in a ==> e.1 < pa
    requires forall e :: e in b ==> e.1 < pb
    requires forall k :: k in keys ==> HasKey(a, k) && Lookup(a, k) == Lookup(b, k)
    ensures ReprEntries(pa, a, keys) == ReprEntries(pb, b, keys)
    decreases |keys|
  {
    if |keys| > 1 {
      assert keys[0] in keys;
      assert forall k :: k in keys[1..] ==> k in keys;
      ReprEntriesByLookup(pa, pb, a, b, keys[1..]);
    } else if |keys| == 1 {
      assert keys[0] in keys;
    }
  }

  /** A dict written with a key twice prints as the dict holding the second
      value only. */
  lemma ReprRepeatedKey(k: string, first: Json, second: Json)
    ensures Repr(JDict([(k, first), (k, second)])) == Repr(JDict([(k, second)]))
  {
    var a := [(k, first), (k, second)];
    var b := [(k, second)];
    assert a[..1] == [(k, first)];
    assert DictKeys([(k, first)]) == [k];
    assert DictKeys(a) == [k];
    assert DictKeys(b) == [k];
    assert Lookup(a, k) == Some(second);
    ReprDictByLookup(a, b);
  }

  /** `str({"a": 1, "a": 2})` after decoding is "{'a': 2}". */
  lemma ReprRepeatedKeyExample()
    ensures Str(JDict([("a", JInt(1)), ("a", JInt(2))])) == "{'a': 2}"
  {
    ReprRepeatedKey("a", JInt(1), JInt(2));
    ReprOneEntry("a", JInt(2));
    QuoteA();
    ReprTwo();
  }

  lemma ReprTwo()
    ensures Repr(JInt(2)) == "2"
  {}

  lemma QuoteA()
    ensures QuoteString("a") == "'a'"
  {
    assert EscapeChars("a", '\'') == "a";
  }

  /** A dict with one entry prints as `{key: value}`. */
  lemma ReprOneEntry(k: string, v: Json)
    ensures Repr(JDict([(k, v)])) == "{" + QuoteString(k) + ": " + Repr(v) + "}"
  {
    assert DictKeys([(k, v)]) == [k];
  }

  // ------------------------------------------------------------ escapes

  /** The characters `str.isprintable` accepts. Above ASCII the model counts
      as not printable: the Latin-1 controls, the no-break space and the
      soft hyphen; the space, line and paragraph separators; the common
      format characters; the private-use planes; and the noncharacters. */
  predicate Printable(c: char) {
    if c < '\U{80}' then ' ' <= c < '\U{7F}' else !WideNonPrintable(c)
  }

  predicate WideNonPrintable(c: char) {
    || c <= '\U{A0}' || c == '\U{AD}'
    || c == '\U{1680}' || ('\U{2000}' <= c <= '\U{200F}')
    || ('\U{2028}' <= c <= '\U{202F}') || ('\U{205F}' <= c <= '\U{206F}')
    || c == '\U{3000}'
    || ('\U{600}' <= c <= '\U{605}') || c == '\U{61C}' || c == '\U{6DD}' || c == '\U{70F}'
    || c == '\U{180E}' || c == '\U{FEFF}' || ('\U{FFF9}' <= c <= '\U{FFFB}')
    || ('\U{E000}' <= c <= '\U{F8FF}') || ('\U{FDD0}' <= c <= '\U{FDEF}')
    || (c as int) % 0x10000 >= 0xFFFE
    || c == '\U{E0001}' || ('\U{E0020}' <= c <= '\U{E007F}')
    || c >= '\U{F0000}'
  }

  /** The quoted form of a string: single quotes unless the text holds a
      single quote and no double quote. */
  function QuoteString(s: string): (r: string)
    ensures |r| >= 2 && r[0] == r[|r| - 1] && (r[0] == '\'' || r[0] == '"')
    ensures forall c :: c in r ==> Printable(c)
  {
    var q := if '\'' in s && '"' !in s then '"' else '\'';
    [q] + EscapeChars(s, q) + [q]
  }

  /** How `repr` writes one character inside quotes `q`. */
  function EscapeChar(c: char, q: char): (r: string)
    requires q == '\'' || q == '"'
    ensures |r| > 0 && forall d :: d in r ==> Printable(d)
    ensures r == [c] <==> c != '\\' && c != q && Printable(c)
  {
    if c == '\\' then "\\\\"
    else if c == q then ['\\', q]
    else if c == '\n' then "\\n"
    else if c == '\r' then "\\r"
    else if c == '\t' then "\\t"
    else if Printable(c) then [c]
    else if c <= '\U{FF}' then "\\x" + HexDigits(c as int, 2)
    else if c <= '\U{FFFF}' then "\\u" + HexDigits(c as int, 4)
    else "\\U" + HexDigits(c as int, 8)
  }

  function EscapeChars(s: string, q: char): (r: string)
    requires q == '\'' || q == '"'
    ensures forall c :: c in r ==> Printable(c)
  {
    if |s| == 0 then ""
    else EscapeChar(s[0], q) + EscapeChars(s[1..], q)
  }

  function Pow16(w: nat): nat {
    if w == 0 then 1 else 16 * Pow16(w - 1)
  }

  /** The last `w` hexadecimal digits of `n`, lower-case. */
  function HexDigits(n: nat, w: nat): (r: string)
    ensures |r| == w && forall c :: c in r ==> IsHexDigit(c)
  {
    if w == 0 then "" else HexDigits(n / 16, w - 1) + [HexDigit(n % 16)]
  }

  function HexDigit(d: int): (r: char)
    requires 0 <= d < 16
    ensures IsHexDigit(r) && HexValue(r) == d
  {
    if d < 10 then ('0' as int + d) as char else ('a' as int + d - 10) as char
  }

  predicate IsHexDigit(c: char) { IsDigit(c) || ('a' <= c <= 'f') }

  function HexValue(c: char): (r: nat)
    requires IsHexDigit(c)
    ensures r < 16
  {
    if IsDigit(c) then c as int - '0' as int else c as int - 'a' as int + 10
  }

  /** The number a run of lower-case hexadecimal digits stands for. */
  function HexNumber(h: string): nat
    requires forall c :: c in h ==> IsHexDigit(c)
  {
    if |h| == 0 then 0
    else
      assert forall c :: c in h[..|h| - 1] ==> c in h;
      assert h[|h| - 1] in h;
      HexNumber(h[..|h| - 1]) * 16 + HexValue(h[|h| - 1])
  }

  /** Reading back the digits gives the number, when it fits. */
  lemma {:induction false} HexRoundTrip(n: nat, w: nat)
    requires n < Pow16(w)
    ensures HexNumber(HexDigits(n, w)) == n
  {
    if w > 0 {
      var h := HexDigits(n, w);
      assert n / 16 < Pow16(w - 1);
      HexRoundTrip(n / 16, w - 1);
      assert h[..|h| - 1] == HexDigits(n / 16, w - 1);
      assert h[|h| - 1] == HexDigit(n % 16);
    }
  }

  /** Reads the inside of a quoted `repr` back: the inverse of
      `EscapeChars`. `None` for text `repr` never writes. */
  function Unescape(t: string, q: char): (r: Option<string>)
    decreases |t|
  {
    if |t| == 0 then Some("")
    else if t[0] != '\\' then
      if t[0] == q then None else Prepend(t[0], Unescape(t[1..], q))
    else if |t| < 2 then None
    else
      var k := t[1];
      if k == '\\' || k == q then Prepend(k, Unescape(t[2..], q))
      else if k == 'n' then Prepend('\n', Unescape(t[2..], q))
      else if k == 'r' then Prepend('\r', Unescape(t[2..], q))
      else if k == 't' then Prepend('\t', Unescape(t[2..], q))
      else
        var w := if k == 'x' then 2 else if k == 'u' then 4 else if k == 'U' then 8 else 0;
        if w == 0 || |t| < 2 + w || exists c :: c in t[2..2 + w] && !IsHexDigit(c) then None
        else
          var n := HexNumber(t[2..2 + w]);
          if n < 0xD800 || 0xDFFF < n < 0x11_0000 then Prepend(n as char, Unescape(t[2 + w..], q))
          else None
  }

  function Prepend(c: char, rest: Option<string>): Option<string> {
    match rest
    case Some(s) => Some([c] + s)
    case None => None
  }

  /** Reading back one escaped character. */
  lemma UnescapeChar(c: char, q: char, rest: string)
    requires q == '\'' || q == '"'
    ensures Unescape(EscapeChar(c, q) + rest, q) == Prepend(c, Unescape(rest, q))
  {
    if c == '\\' || c == q || c == '\n' || c == '\r' || c == '\t' {
      UnescapeShort(c, q, rest);
    } else if Printable(c) {
      UnescapePlain(c, q, rest);
    } else if c <= '\U{FF}' {
      UnescapeHex(c, q, 'x', 2, rest);
    } else if c <= '\U{FFFF}' {
      UnescapeHex(c, q, 'u', 4, rest);
    } else {
      UnescapeHex(c, q, 'U', 8, rest);
    }
  }

  lemma UnescapeShort(c: char, q: char, rest: string)
    requires q == '\'' || q == '"'
    requires c == '\\' || c == q || c == '\n' || c == '\r' || c == '\t'
    ensures Unescape(EscapeChar(c, q) + rest, q) == Prepend(c, Unescape(rest, q))
  {
    var t := EscapeChar(c, q) + rest;
    assert |EscapeChar(c, q)| == 2;
    assert t[2..] == rest;
  }

  lemma UnescapePlain(c: char, q: char, rest: string)
    requires q == '\'' || q == '"'
    requires c != '\\' && c != q && Printable(c)
    ensures Unescape(EscapeChar(c, q) + rest, q) == Prepend(c, Unescape(rest, q))
  {
    var t := [c] + rest;
    assert t[1..] == rest;
  }

  lemma UnescapeHex(c: char, q: char, k: char, w: nat, rest: string)
    requires q == '\'' || q == '"'
    requires c != '\\' && c != q && c != '\n' && c != '\r' && c != '\t' && !Printable(c)
    requires (k, w) == (if c <= '\U{FF}' then ('x', 2) else if c <= '\U{FFFF}' then ('u', 4) else ('U', 8))
    ensures Unescape(EscapeChar(c, q) + rest, q) == Prepend(c, Unescape(rest, q))
  {
    var h := HexDigits(c as int, w);
    assert EscapeChar(c, q) == ['\\', k] + h;
    Pow16Values();
    HexRoundTrip(c as int, w);
    UnescapeHexStep(['\\', k] + h + rest, q, k, w, h, rest);
  }

  lemma Pow16Values()
    ensures Pow16(2) == 0x100 && Pow16(4) == 0x1_0000 && Pow16(8) == 0x1_0000_0000
  {}

  /** A `\x`, `\u` or `\U` escape reads back as the character its digits
      name. */
  lemma UnescapeHexStep(t: string, q: char, k: char, w: nat, h: string, rest: string)
    requires q == '\'' || q == '"'
    requires (k, w) in {('x', 2), ('u', 4), ('U', 8)}
    requires t == ['\\', k] + h + rest && |h| == w && forall c :: c in h ==> IsHexDigit(c)
    requires HexNumber(h) < 0xD800 || 0xDFFF < HexNumber(h) < 0x11_0000
    ensures Unescape(t, q) == Prepend(HexNumber(h) as char, Unescape(rest, q))
  {
    assert t[0] == '\\' && t[1] == k;
    assert t[2..2 + w] == h;
    assert t[2 + w..] == rest;
  }

  /** `repr`'s escaping loses nothing: the quoted text reads back as the
      string. */
  lemma {:induction false} UnescapeEscape(s: string, q: char)
    requires q == '\'' || q == '"'
    ensures Unescape(EscapeChars(s, q), q) == Some(s)
    decreases |s|
  {
    if |s| > 0 {
      var rest := EscapeChars(s[1..], q);
      assert EscapeChars(s, q) == EscapeChar(s[0], q) + rest;
      UnescapeChar(s[0], q, rest);
      UnescapeEscape(s[1..], q);
      assert Prepend(s[0], Some(s[1..])) == Some(s) by {
        assert [s[0]] + s[1..] == s;
      }
    }
  }

  /** The `repr` of a string is printable, quoted, and reads back as the
      string. */
  lemma ReprStringRoundTrip(s: string)
    ensures var r := Repr(JStr(s));
            && |r| >= 2 && (forall c :: c in r ==> Printable(c))
            && Unescape(r[1..|r| - 1], r[0]) == Some(s)
  {
    var q := if '\'' in s && '"' !in s then '"' else '\'';
    var r := Repr(JStr(s));
    assert r[1..|r| - 1] == EscapeChars(s, q);
    UnescapeEscape(s, q);
  }

  /** A no-break space inside a list is written as `\xa0`. */
  lemma ReprNoBreakSpace()
    ensures Str(JList([JStr("\U{A0}")])) == "['\\xa0']"
  {
    var v := JList([JStr("\U{A0}")]);
    QuoteNoBreakSpace();
    assert ReprItems(v, [JStr("\U{A0}")]) == Repr(JStr("\U{A0}")) == "'\\xa0'";
    assert Str(v) == "[" + "'\\xa0'" + "]";
  }

  lemma QuoteNoBreakSpace()
    ensures QuoteString("\U{A0}") == "'\\xa0'"
  {
    assert EscapeChar('\U{A0}', '\'') == "\\x" + HexDigits(0xA0, 2);
    assert HexDigits(0xA0, 2) == "a0";
    assert EscapeChars("\U{A0}", '\'') == "\\xa0";
  }
}
