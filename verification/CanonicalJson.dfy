// The canonical JSON writer behind the cache key (src/bin/precompute_jev.rs).
module CanonicalJson {
  import opened Domain

  /** A JSON tree. A number is its RFC 8259 section 6 token; an object keeps its
      entries in insertion order. Text is modelled as Unicode characters. */
  datatype Json =
    | Null
    | Bool(b: bool)
    | Num(token: string)
    | Str(text: string)
    | Arr(items: seq<Json>)
    | Obj(entries: seq<Entry>)

  datatype Entry = Entry(key: string, value: Json)

  // ----- Scalars -----

  predicate NumChar(c: char) {
    '0' <= c <= '9' || c == '-' || c == '+' || c == '.' || c == 'e' || c == 'E'
  }

  predicate NumStart(c: char) {
    '0' <= c <= '9' || c == '-'
  }

  predicate NumToken(s: string) {
    s != [] && NumStart(s[0]) && forall i :: 0 <= i < |s| ==> NumChar(s[i])
  }

  function HexDigit(d: nat): char
    requires d < 16
  {
    if d < 10 then '0' + d as char else 'a' + (d - 10) as char
  }

  function HexValue(c: char): Option<nat> {
    if '0' <= c <= '9' then Some((c - '0') as nat)
    else if 'a' <= c <= 'f' then Some((c - 'a') as nat + 10)
    else None
  }

  /** One character of a string, escaped as section 7 of RFC 8259 requires. */
  function Escape(c: char): string {
    var n := c as nat;
    if c == '"' then "\\\""
    else if c == '\\' then "\\\\"
    else if n == 8 then "\\b"
    else if n == 9 then "\\t"
    else if n == 10 then "\\n"
    else if n == 12 then "\\f"
    else if n == 13 then "\\r"
    else if n < 32 then "\\u00" + [HexDigit(n / 16), HexDigit(n % 16)]
    else [c]
  }

  function EscapeAll(s: string): string {
    if s == [] then [] else Escape(s[0]) + EscapeAll(s[1..])
  }

  function Quote(s: string): string {
    ['"'] + EscapeAll(s) + ['"']
  }

  /** The characters with an escape of their own, and the letter that follows the
      backslash. */
  const SHORT_ESCAPES: map<nat, char> :=
    map[34 := '"', 92 := '\\', 8 := 'b', 9 := 't', 10 := 'n', 12 := 'f', 13 := 'r']

  /** Every character is written as itself, but for those with an escape of their
      own and for other control characters, which are written in hexadecimal. */
  lemma EscapeForm(c: char)
    ensures var e, n := Escape(c), c as nat;
            && (n in SHORT_ESCAPES ==> e == ['\\', SHORT_ESCAPES[n]])
            && (n !in SHORT_ESCAPES && n >= 32 ==> e == [c])
            && (n !in SHORT_ESCAPES && n < 32 ==>
                  && |e| == 6 && e[..4] == ['\\', 'u', '0', '0']
                  && HexValue(e[4]) == Some(n / 16) && HexValue(e[5]) == Some(n % 16))
  {}

  predicate Printable(s: string) {
    forall i :: 0 <= i < |s| ==> s[i] as nat >= 32
  }

  lemma EscapePrintable(c: char)
    ensures Printable(Escape(c))
  {}

  lemma PrintableJoin(a: string, b: string)
    requires Printable(a) && Printable(b)
    ensures Printable(a + b)
  {}

  lemma {:induction false} EscapedPrintable(s: string)
    ensures Printable(EscapeAll(s))
  {
    if s != [] {
      EscapePrintable(s[0]);
      EscapedPrintable(s[1..]);
      PrintableJoin(Escape(s[0]), EscapeAll(s[1..]));
    }
  }

  /** A quoted text holds no control character, so it stays on one line. */
  lemma QuotedPrintable(s: string)
    ensures Printable(Quote(s))
  {
    EscapedPrintable(s);
    PrintableJoin(['"'], EscapeAll(s));
    PrintableJoin(['"'] + EscapeAll(s), ['"']);
  }

  // ----- Printing in entry order -----

  function Print(j: Json): string
    decreases j, 1
  {
    match j
    case Null => "null"
    case Bool(b) => if b then "true" else "false"
    case Num(token) => token
    case Str(text) => Quote(text)
    case Arr(items) => ['['] + PrintItems(items, true) + [']']
    case Obj(entries) => ['{'] + PrintEntries(entries, true) + ['}']
  }

  /** The items, each after the first preceded by a comma. */
  function PrintItems(items: seq<Json>, first: bool): string
    decreases items, 0
  {
    if items == [] then []
    else (if first then [] else [',']) + (Print(items[0]) + PrintItems(items[1..], false))
  }

  function PrintEntries(entries: seq<Entry>, first: bool): string
    decreases entries, 0
  {
    if entries == [] then []
    else (if first then [] else [',']) + (PrintEntry(entries[0]) + PrintEntries(entries[1..], false))
  }

  function PrintEntry(e: Entry): string
    decreases e, 2
  {
    Quote(e.key) + ([':'] + Print(e.value))
  }

  // ----- Canonical order -----

  /** The order of `String`: lexicographic by code point. */
  predicate Less(a: string, b: string) {
    b != [] && (a == [] || a[0] < b[0] || (a[0] == b[0] && Less(a[1..], b[1..])))
  }

  function InsertEntry(e: Entry, sorted: seq<Entry>): seq<Entry> {
    if sorted == [] then [e]
    else if Less(e.key, sorted[0].key) then [e] + sorted
    else [sorted[0]] + InsertEntry(e, sorted[1..])
  }

  function SortEntries(entries: seq<Entry>): seq<Entry> {
    if entries == [] then [] else InsertEntry(entries[0], SortEntries(entries[1..]))
  }

  /** Every object of the tree with its entries sorted by key. */
  function Canon(j: Json): Json
    decreases j, 1
  {
    match j
    case Arr(items) => Arr(CanonItems(items))
    case Obj(entries) => Obj(SortEntries(CanonEntries(entries)))
    case _ => j
  }

  function CanonItems(items: seq<Json>): (out: seq<Json>)
    ensures |out| == |items| && forall i :: 0 <= i < |items| ==> out[i] == Canon(items[i])
    decreases items, 0
  {
    if items == [] then [] else [Canon(items[0])] + CanonItems(items[1..])
  }

  function CanonEntries(entries: seq<Entry>): (out: seq<Entry>)
    ensures |out| == |entries|
    ensures forall i :: 0 <= i < |entries| ==> out[i] == Entry(entries[i].key, Canon(entries[i].value))
    decreases entries, 0
  {
    if entries == [] then []
    else [Entry(entries[0].key, Canon(entries[0].value))] + CanonEntries(entries[1..])
  }

  /** `canonical_bytes`. */
  function Write(j: Json): string {
    Print(Canon(j))
  }

  // ----- Well-formed trees -----

  predicate DistinctKeys(entries: seq<Entry>) {
    forall i, k :: 0 <= i < k < |entries| ==> entries[i].key != entries[k].key
  }

  predicate WellFormed(j: Json) {
    match j
    case Num(token) => NumToken(token)
    case Arr(items) => forall i :: 0 <= i < |items| ==> WellFormed(items[i])
    case Obj(entries) => DistinctKeys(entries) && forall i :: 0 <= i < |entries| ==> WellFormed(entries[i].value)
    case _ => true
  }

  // ----- Sorting -----

  lemma {:induction false} LessTrichotomy(a: string, b: string)
    ensures Less(a, b) || Less(b, a) || a == b
    ensures !(Less(a, b) && Less(b, a)) && !Less(a, a)
  {
    if a != [] && b != [] && a[0] == b[0] {
      LessTrichotomy(a[1..], b[1..]);
      assert a[1..] == b[1..] ==> a == [a[0]] + a[1..] == b;
    }
    if a != [] {
      LessTrichotomy(a[1..], a[1..]);
    }
  }

  lemma {:induction false} LessTransitive(a: string, b: string, c: string)
    requires Less(a, b) && Less(b, c)
    ensures Less(a, c)
  {
    if a != [] && a[0] == b[0] == c[0] {
      LessTransitive(a[1..], b[1..], c[1..]);
    }
  }

  /** Dictionary order: `a` is a proper beginning of `b`, or at the first place where
      they differ it has the smaller character. */
  ghost predicate DictionaryBefore(a: string, b: string) {
    exists p: nat :: FirstDifference(a, b, p)
  }

  ghost predicate FirstDifference(a: string, b: string, p: nat) {
    && p <= |a| && p < |b| && a[..p] == b[..p]
    && (p == |a| || a[p] < b[p])
  }

  lemma SamePrefix(a: string, b: string, p: nat)
    requires FirstDifference(a, b, p)
    ensures forall i :: 0 <= i < p ==> a[i] == b[i]
  {
    assert forall i :: 0 <= i < p ==> a[i] == a[..p][i] && b[i] == b[..p][i];
  }

  lemma {:induction false} LessIff(a: string, b: string)
    ensures Less(a, b) <==> DictionaryBefore(a, b)
  {
    if a == [] || b == [] || a[0] != b[0] {
      if Less(a, b) {
        assert FirstDifference(a, b, 0);
      }
      if p: nat :| FirstDifference(a, b, p) {
        SamePrefix(a, b, p);
      }
    } else {
      LessIff(a[1..], b[1..]);
      if Less(a, b) {
        var p: nat :| FirstDifference(a[1..], b[1..], p);
        assert a[..p + 1] == [a[0]] + a[1..][..p] && b[..p + 1] == [b[0]] + b[1..][..p];
        assert FirstDifference(a, b, p + 1);
      }
      if p: nat :| FirstDifference(a, b, p) {
        assert p > 0;
        assert a[1..][..p - 1] == a[..p][1..] && b[1..][..p - 1] == b[..p][1..];
        assert FirstDifference(a[1..], b[1..], p - 1);
      }
    }
  }

  ghost predicate SortedKeys(entries: seq<Entry>) {
    forall i, k :: 0 <= i < k < |entries| ==> Less(entries[i].key, entries[k].key)
  }

  lemma {:induction false} InsertMembers(e: Entry, sorted: seq<Entry>)
    ensures |InsertEntry(e, sorted)| == |sorted| + 1
    ensures forall x :: x in InsertEntry(e, sorted) <==> x == e || x in sorted
  {
    if sorted != [] {
      InsertMembers(e, sorted[1..]);
      assert sorted == [sorted[0]] + sorted[1..];
    }
  }

  lemma {:induction false} SortMembers(entries: seq<Entry>)
    ensures |SortEntries(entries)| == |entries|
    ensures forall x :: x in SortEntries(entries) <==> x in entries
  {
    if entries != [] {
      SortMembers(entries[1..]);
      InsertMembers(entries[0], SortEntries(entries[1..]));
      assert entries == [entries[0]] + entries[1..];
    }
  }

  lemma {:induction false} InsertSorted(e: Entry, sorted: seq<Entry>)
    requires SortedKeys(sorted) && forall x :: x in sorted ==> x.key != e.key
    ensures SortedKeys(InsertEntry(e, sorted))
  {
    if sorted != [] {
      LessTrichotomy(e.key, sorted[0].key);
      if Less(e.key, sorted[0].key) {
        forall k | 0 < k < |sorted| ensures Less(e.key, sorted[k].key) {
          LessTransitive(e.key, sorted[0].key, sorted[k].key);
        }
      } else {
        var rest := InsertEntry(e, sorted[1..]);
        InsertSorted(e, sorted[1..]);
        InsertMembers(e, sorted[1..]);
        forall k | 0 <= k < |rest| ensures Less(sorted[0].key, rest[k].key) {
          assert rest[k] in rest;
          if rest[k] != e {
            var i :| 0 <= i < |sorted[1..]| && sorted[1..][i] == rest[k];
            assert sorted[i + 1] == rest[k];
          }
        }
      }
    }
  }

  lemma {:induction false} SortSorted(entries: seq<Entry>)
    requires DistinctKeys(entries)
    ensures SortedKeys(SortEntries(entries))
  {
    if entries != [] {
      SortSorted(entries[1..]);
      SortMembers(entries[1..]);
      InsertSorted(entries[0], SortEntries(entries[1..]));
    }
  }

  /** A strictly sorted list is determined by its members. */
  lemma {:induction false} SortedUnique(a: seq<Entry>, b: seq<Entry>)
    requires SortedKeys(a) && SortedKeys(b) && forall x :: x in a <==> x in b
    ensures a == b
  {
    SortedEmpty(a, b);
    if a != [] {
      assert a[0] in b && b[0] in a;
      var i :| 0 <= i < |b| && b[i] == a[0];
      var k :| 0 <= k < |a| && a[k] == b[0];
      LessTrichotomy(a[0].key, b[0].key);
      assert a[0] == b[0];
      TailMembers(a);
      TailMembers(b);
      SortedUnique(a[1..], b[1..]);
      assert a == [a[0]] + a[1..] && b == [b[0]] + b[1..];
    }
  }

  lemma SortedEmpty(a: seq<Entry>, b: seq<Entry>)
    requires forall x :: x in a <==> x in b
    ensures a == [] <==> b == []
  {
    if a != [] {
      assert a[0] in b;
    }
    if b != [] {
      assert b[0] in a;
    }
  }

  lemma TailMembers(a: seq<Entry>)
    requires SortedKeys(a) && a != []
    ensures SortedKeys(a[1..]) && forall x :: x in a[1..] <==> x in a && x != a[0]
  {
    forall x ensures x in a[1..] <==> x in a && x != a[0] {
      if x in a[1..] {
        var i :| 0 <= i < |a[1..]| && a[1..][i] == x;
        LessTrichotomy(a[0].key, a[i + 1].key);
        assert Less(a[0].key, a[i + 1].key);
      }
    }
  }

  // ----- The writer -----

  /** The growing byte buffer. */
  class Buffer {
    var bytes: string

    constructor ()
      ensures bytes == []
    {
      bytes := [];
    }

    method Push(s: string)
      modifies this
      ensures bytes == old(bytes) + s
    {
      bytes := bytes + s;
    }
  }

  function Lookup(entries: seq<Entry>, key: string): (v: Json)
    requires exists i :: 0 <= i < |entries| && entries[i].key == key
    ensures exists i :: 0 <= i < |entries| && entries[i].key == key && entries[i].value == v
  {
    if entries[0].key == key then entries[0].value else Lookup(entries[1..], key)
  }

  function Keys(entries: seq<Entry>): (keys: seq<string>)
    ensures |keys| == |entries| && forall i :: 0 <= i < |entries| ==> keys[i] == entries[i].key
  {
    seq(|entries|, i requires 0 <= i < |entries| => entries[i].key)
  }

  function InsertKey(key: string, sorted: seq<string>): seq<string> {
    if sorted == [] then [key]
    else if Less(key, sorted[0]) then [key] + sorted
    else [sorted[0]] + InsertKey(key, sorted[1..])
  }

  /** The library sort of the key list. */
  function SortKeys(keys: seq<string>): seq<string> {
    if keys == [] then [] else InsertKey(keys[0], SortKeys(keys[1..]))
  }

  lemma {:induction false} InsertKeyIsInsertEntry(e: Entry, sorted: seq<Entry>)
    ensures InsertKey(e.key, Keys(sorted)) == Keys(InsertEntry(e, sorted))
  {
    if sorted == [] {
    } else if Less(e.key, sorted[0].key) {
      assert [e.key] + Keys(sorted) == Keys([e] + sorted);
    } else {
      InsertKeyIsInsertEntry(e, sorted[1..]);
      assert Keys(sorted)[1..] == Keys(sorted[1..]);
      assert Keys([sorted[0]] + InsertEntry(e, sorted[1..])) == [sorted[0].key] + Keys(InsertEntry(e, sorted[1..]));
    }
  }

  /** Sorting the keys gives the keys of the sorted entries. */
  lemma {:induction false} SortKeysIsSortEntries(entries: seq<Entry>)
    ensures SortKeys(Keys(entries)) == Keys(SortEntries(entries))
  {
    if entries != [] {
      assert Keys(entries)[1..] == Keys(entries[1..]);
      SortKeysIsSortEntries(entries[1..]);
      InsertKeyIsInsertEntry(entries[0], SortEntries(entries[1..]));
    }
  }

  /** Walking the sorted keys and looking each one up visits the canonical entries. */
  lemma SortedLookup(entries: seq<Entry>, k: nat)
    requires DistinctKeys(entries) && k < |entries|
    ensures var sorted := SortEntries(CanonEntries(entries));
            var keys := SortKeys(Keys(entries));
            && |sorted| == |keys| == |entries|
            && (exists i :: 0 <= i < |entries| && entries[i].key == keys[k])
            && sorted[k] == Entry(keys[k], Canon(Lookup(entries, keys[k])))
  {
    var canon := CanonEntries(entries);
    var sorted := SortEntries(canon);
    assert Keys(canon) == Keys(entries);
    SortKeysIsSortEntries(canon);
    SortMembers(canon);
    assert sorted[k] in sorted && sorted[k] in canon;
    var i :| 0 <= i < |canon| && canon[i] == sorted[k];
    assert entries[i].key == sorted[k].key == SortKeys(Keys(entries))[k];
  }

  function Separator(k: nat): string {
    if k == 0 then [] else [',']
  }

  lemma Append3(a: string, b: string, c: string, d: string)
    ensures a + (b + (c + d)) == ((a + b) + c) + d
  {}

  lemma Enclosed(start: string, open: string, body: string, close: string)
    ensures ((start + open) + body) + close == start + (open + body + close)
  {}

  /** `write_canonical`: appends the canonical bytes of a tree to the buffer. */
  method WriteCanonical(value: Json, out: Buffer)
    requires WellFormed(value)
    modifies out
    ensures out.bytes == old(out.bytes) + Write(value)
    decreases value
  {
    match value {
      case Obj(entries) => WriteObject(value, entries, out);
      case Arr(items) => WriteArray(value, items, out);
      case _ => out.Push(Print(value));
    }
  }

  method WriteArray(value: Json, items: seq<Json>, out: Buffer)
    requires value == Arr(items) && WellFormed(value)
    modifies out
    ensures out.bytes == old(out.bytes) + Write(value)
    decreases value, 0
  {
    out.Push(['[']);
    ghost var canon := CanonItems(items);
    ghost var total := out.bytes + PrintItems(canon, true);
    var k := 0;
    assert canon[0..] == canon;
    while k < |items|
      invariant 0 <= k <= |items|
      invariant out.bytes + PrintItems(canon[k..], k == 0) == total
    {
      assert canon[k..][1..] == canon[k + 1..];
      Append3(out.bytes, Separator(k), Write(items[k]), PrintItems(canon[k + 1..], false));
      out.Push(Separator(k));
      WriteCanonical(items[k], out);
      k := k + 1;
    }
    assert out.bytes == total;
    Enclosed(old(out.bytes), ['['], PrintItems(canon, true), [']']);
    out.Push([']']);
  }

  method WriteObject(value: Json, entries: seq<Entry>, out: Buffer)
    requires value == Obj(entries) && WellFormed(value)
    modifies out
    ensures out.bytes == old(out.bytes) + Write(value)
    decreases value, 0
  {
    out.Push(['{']);
    var keys := SortKeys(Keys(entries));
    ghost var sorted := SortEntries(CanonEntries(entries));
    ghost var total := out.bytes + PrintEntries(sorted, true);
    SortedCounts(entries);
    var k := 0;
    assert sorted[0..] == sorted;
    while k < |keys|
      invariant 0 <= k <= |keys| == |sorted| == |entries|
      invariant out.bytes + PrintEntries(sorted[k..], k == 0) == total
    {
      SortedLookup(entries, k);
      assert sorted[k..][1..] == sorted[k + 1..];
      Append3(out.bytes, Separator(k), PrintEntry(sorted[k]), PrintEntries(sorted[k + 1..], false));
      out.Push(Separator(k));
      WriteEntry(value, entries, keys[k], out);
      k := k + 1;
    }
    assert out.bytes == total;
    Enclosed(old(out.bytes), ['{'], PrintEntries(sorted, true), ['}']);
    out.Push(['}']);
  }

  lemma SortedCounts(entries: seq<Entry>)
    ensures |SortKeys(Keys(entries))| == |SortEntries(CanonEntries(entries))| == |entries|
  {
    SortMembers(CanonEntries(entries));
    SortKeysIsSortEntries(CanonEntries(entries));
    assert Keys(CanonEntries(entries)) == Keys(entries);
  }

  method WriteEntry(value: Json, entries: seq<Entry>, key: string, out: Buffer)
    requires value == Obj(entries) && WellFormed(value)
    requires exists i :: 0 <= i < |entries| && entries[i].key == key
    modifies out
    ensures out.bytes == old(out.bytes) + PrintEntry(Entry(key, Canon(Lookup(entries, key))))
    decreases value, 0, 0
  {
    var item := Lookup(entries, key);
    ghost var i :| 0 <= i < |entries| && entries[i].key == key && entries[i].value == item;
    Append3(out.bytes, Quote(key), [':'], Write(item));
    out.Push(Quote(key));
    out.Push([':']);
    WriteCanonical(item, out);
  }

  // ----- The decoder -----

  function Unescape(s: string): Option<(char, string)> {
    if s == [] then None
    else if s[0] != '\\' then Some((s[0], s[1..]))
    else if |s| < 2 then None
    else if s[1] == '"' then Some(('"', s[2..]))
    else if s[1] == '\\' then Some(('\\', s[2..]))
    else if s[1] == 'b' then Some((8 as char, s[2..]))
    else if s[1] == 't' then Some((9 as char, s[2..]))
    else if s[1] == 'n' then Some((10 as char, s[2..]))
    else if s[1] == 'f' then Some((12 as char, s[2..]))
    else if s[1] == 'r' then Some((13 as char, s[2..]))
    else if s[1] == 'u' && |s| >= 6 && s[2] == '0' && s[3] == '0' then
      match (HexValue(s[4]), HexValue(s[5]))
      case (Some(h), Some(l)) => Some(((16 * h + l) as char, s[6..]))
      case _ => None
    else None
  }

  /** The rest of a string after its opening quote. */
  function ParseString(s: string): (r: Option<(string, string)>)
    ensures r.Some? ==> |r.value.1| < |s|
    decreases |s|
  {
    if s == [] then None
    else if s[0] == '"' then Some(([], s[1..]))
    else
      match Unescape(s)
      case None => None
      case Some((c, rest)) =>
        match ParseString(rest)
        case None => None
        case Some((text, rest')) => Some(([c] + text, rest'))
  }

  /** The longest prefix of number characters. */
  function NumPrefix(s: string): (n: nat)
    ensures n <= |s|
  {
    if s == [] || !NumChar(s[0]) then 0 else 1 + NumPrefix(s[1..])
  }

  function ParseValue(s: string): (r: Option<(Json, string)>)
    ensures r.Some? ==> |r.value.1| < |s|
    decreases |s|, 1
  {
    if "null" <= s then Some((Null, s[4..]))
    else if "true" <= s then Some((Bool(true), s[4..]))
    else if "false" <= s then Some((Bool(false), s[5..]))
    else if s == [] then None
    else if s[0] == '"' then
      match ParseString(s[1..]) case None => None case Some((text, rest)) => Some((Str(text), rest))
    else if NumStart(s[0]) then Some((Num(s[..NumPrefix(s)]), s[NumPrefix(s)..]))
    else if s[0] == '[' then
      if |s| > 1 && s[1] == ']' then Some((Arr([]), s[2..]))
      else match ParseItems(s[1..]) case None => None case Some((items, rest)) => Some((Arr(items), rest))
    else if s[0] == '{' then
      if |s| > 1 && s[1] == '}' then Some((Obj([]), s[2..]))
      else match ParseEntries(s[1..]) case None => None case Some((entries, rest)) => Some((Obj(entries), rest))
    else None
  }

  /** One or more items, up to and including the closing bracket. */
  function ParseItems(s: string): (r: Option<(seq<Json>, string)>)
    ensures r.Some? ==> |r.value.1| < |s|
    decreases |s|, 2
  {
    match ParseValue(s)
    case None => None
    case Some((item, rest)) =>
      if rest == [] then None
      else if rest[0] == ']' then Some(([item], rest[1..]))
      else if rest[0] == ',' then
        match ParseItems(rest[1..]) case None => None case Some((items, rest')) => Some(([item] + items, rest'))
      else None
  }

  function ParseEntry(s: string): (r: Option<(Entry, string)>)
    ensures r.Some? ==> |r.value.1| < |s|
    decreases |s|, 0
  {
    if s == [] || s[0] != '"' then None
    else
      match ParseString(s[1..])
      case None => None
      case Some((key, rest)) =>
        if rest == [] || rest[0] != ':' then None
        else match ParseValue(rest[1..]) case None => None case Some((v, rest')) => Some((Entry(key, v), rest'))
  }

  /** One or more entries, up to and including the closing brace. */
  function ParseEntries(s: string): (r: Option<(seq<Entry>, string)>)
    ensures r.Some? ==> |r.value.1| < |s|
    decreases |s|, 2
  {
    match ParseEntry(s)
    case None => None
    case Some((e, rest)) =>
      if rest == [] then None
      else if rest[0] == '}' then Some(([e], rest[1..]))
      else if rest[0] == ',' then
        match ParseEntries(rest[1..]) case None => None case Some((es, rest')) => Some(([e] + es, rest'))
      else None
  }
}
