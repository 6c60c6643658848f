// Unique decodability of the cache-key encoding: two trees have the same
// canonical bytes exactly when they are the same tree up to key order.
module CacheKey {
  import opened Domain
  import opened CanonicalJson

  // ----- Strings -----

  lemma UnescapeOne(c: char, rest: string)
    ensures Unescape(Escape(c) + rest) == Some((c, rest))
    ensures Escape(c) != [] && Escape(c)[0] != '"'
  {
    var e, n := Escape(c), c as nat;
    if n < 32 {
      HexPair(n);
    }
    assert (e + rest)[|e|..] == rest;
  }

  lemma HexPair(n: nat)
    requires n < 32
    ensures HexValue(HexDigit(n / 16)) == Some(n / 16) && HexValue(HexDigit(n % 16)) == Some(n % 16)
    ensures 16 * (n / 16) + n % 16 == n
  {}

  lemma {:induction false} StringRoundTrip(text: string, rest: string)
    ensures ParseString(EscapeAll(text) + (['"'] + rest)) == Some((text, rest))
  {
    if text == [] {
      assert EscapeAll(text) + (['"'] + rest) == ['"'] + rest;
    } else {
      var tail := EscapeAll(text[1..]) + (['"'] + rest);
      assert EscapeAll(text) + (['"'] + rest) == Escape(text[0]) + tail;
      UnescapeOne(text[0], tail);
      StringRoundTrip(text[1..], rest);
      assert [text[0]] + text[1..] == text;
    }
  }

  lemma QuoteRoundTrip(text: string, rest: string)
    ensures Quote(text) + rest != [] && (Quote(text) + rest)[0] == '"'
    ensures ParseString((Quote(text) + rest)[1..]) == Some((text, rest))
  {
    StringRoundTrip(text, rest);
    assert (Quote(text) + rest)[1..] == EscapeAll(text) + (['"'] + rest);
  }

  // ----- Numbers -----

  /** What may follow a value: nothing that could extend a number. */
  predicate Ends(rest: string) {
    rest == [] || !NumChar(rest[0])
  }

  lemma {:induction false} NumPrefixOf(token: string, rest: string)
    requires (forall i :: 0 <= i < |token| ==> NumChar(token[i])) && Ends(rest)
    ensures NumPrefix(token + rest) == |token|
  {
    if token == [] {
      assert token + rest == rest;
    } else {
      assert (token + rest)[1..] == token[1..] + rest;
      NumPrefixOf(token[1..], rest);
    }
  }

  // ----- Trees -----

  /** The first character of a printed value decides how it is read. */
  lemma FirstChar(j: Json)
    requires WellFormed(j)
    ensures Print(j) != []
    ensures var c := Print(j)[0];
            match j
            case Null => c == 'n'
            case Bool(b) => c == (if b then 't' else 'f')
            case Num(_) => NumStart(c)
            case Str(_) => c == '"'
            case Arr(_) => c == '['
            case Obj(_) => c == '{'
  {}

  lemma NumRoundTrip(token: string, rest: string)
    requires NumToken(token) && Ends(rest)
    ensures ParseValue(token + rest) == Some((Num(token), rest))
  {
    NumPrefixOf(token, rest);
    var s := token + rest;
    assert s[0] == token[0] && NumStart(s[0]);
    assert s[..|token|] == token && s[|token|..] == rest;
  }

  lemma StrRoundTrip(text: string, rest: string)
    ensures ParseValue(Quote(text) + rest) == Some((Str(text), rest))
  {
    QuoteRoundTrip(text, rest);
  }

  /** The decoder inverts printing: every tree is read back, and nothing after it
      is touched. */
  lemma {:induction false} RoundTrip(j: Json, rest: string)
    requires WellFormed(j) && Ends(rest)
    ensures ParseValue(Print(j) + rest) == Some((j, rest))
    decreases j, 1
  {
    match j
    case Null => assert ("null" + rest)[4..] == rest;
    case Bool(b) => LiteralRoundTrip(b, rest);
    case Num(token) => NumRoundTrip(token, rest);
    case Str(text) => StrRoundTrip(text, rest);
    case Arr(items) => ArrRoundTrip(j, items, rest);
    case Obj(entries) => ObjRoundTrip(j, entries, rest);
  }

  lemma LiteralRoundTrip(b: bool, rest: string)
    ensures ParseValue(Print(Bool(b)) + rest) == Some((Bool(b), rest))
  {
    if b {
      assert ("true" + rest)[4..] == rest;
      assert ("true" + rest)[0] == 't';
    } else {
      assert ("false" + rest)[5..] == rest;
      assert ("false" + rest)[0] == 'f';
    }
  }

  lemma {:induction false} ArrRoundTrip(j: Json, items: seq<Json>, rest: string)
    requires j == Arr(items) && WellFormed(j) && Ends(rest)
    ensures ParseValue(Print(j) + rest) == Some((j, rest))
    decreases j, 0
  {
    if items == [] {
      EmptyArray(rest);
    } else {
      var body := PrintItems(items, true) + ([']'] + rest);
      ItemsStart(items);
      ItemsRoundTrip(items, rest);
      Bracketed(['['], PrintItems(items, true), [']'], rest);
      ArrayParses(items, body, rest);
    }
  }

  lemma Bracketed(open: string, body: string, close: string, rest: string)
    ensures (open + body + close) + rest == open + (body + (close + rest))
  {}

  lemma EmptyArray(rest: string)
    ensures ParseValue(Print(Arr([])) + rest) == Some((Arr([]), rest))
  {
    var s := Print(Arr([])) + rest;
    assert s == ['[', ']'] + rest && s[0] == '[' && s[1] == ']' && s[2..] == rest;
  }

  lemma ItemsStart(items: seq<Json>)
    requires items != [] && WellFormed(items[0])
    ensures PrintItems(items, true) != [] && PrintItems(items, true)[0] != ']'
  {
    FirstChar(items[0]);
    assert PrintItems(items, true) == Print(items[0]) + PrintItems(items[1..], false);
  }

  lemma ArrayParses(items: seq<Json>, body: string, rest: string)
    requires body != [] && body[0] != ']' && ParseItems(body) == Some((items, rest))
    ensures ParseValue(['['] + body) == Some((Arr(items), rest))
  {
    var s := ['['] + body;
    assert s[0] == '[' && s[1] == body[0] && s[1..] == body;
  }

  lemma {:induction false} ItemsRoundTrip(items: seq<Json>, rest: string)
    requires items != [] && forall i :: 0 <= i < |items| ==> WellFormed(items[i])
    ensures ParseItems(PrintItems(items, true) + ([']'] + rest)) == Some((items, rest))
    decreases items, 0
  {
    if |items| == 1 {
      RoundTrip(items[0], [']'] + rest);
      LastItem(items[0], Print(items[0]), rest);
      OneItem(items);
    } else {
      var tail := PrintItems(items[1..], true) + ([']'] + rest);
      RoundTrip(items[0], [','] + tail);
      ItemsRoundTrip(items[1..], rest);
      NextItem(items[0], items[1..], Print(items[0]), tail, rest);
      ClosedItems(items, rest);
    }
  }

  lemma LastItem(item: Json, text: string, rest: string)
    requires ParseValue(text + ([']'] + rest)) == Some((item, [']'] + rest))
    ensures ParseItems(text + ([']'] + rest)) == Some(([item], rest))
  {
    assert ([']'] + rest)[1..] == rest;
  }

  lemma NextItem(item: Json, items: seq<Json>, text: string, tail: string, rest: string)
    requires ParseValue(text + ([','] + tail)) == Some((item, [','] + tail))
    requires ParseItems(tail) == Some((items, rest))
    ensures ParseItems(text + ([','] + tail)) == Some(([item] + items, rest))
  {
    assert ([','] + tail)[1..] == tail;
  }

  lemma Regroup(a: string, b: string, c: string, d: string)
    ensures (a + (b + c)) + d == a + (b + (c + d))
  {}

  lemma OneItem(items: seq<Json>)
    requires |items| == 1
    ensures PrintItems(items, true) == Print(items[0]) && items == [items[0]]
  {}

  lemma ClosedItems(items: seq<Json>, rest: string)
    requires |items| > 1
    ensures items == [items[0]] + items[1..]
    ensures PrintItems(items, true) + ([']'] + rest)
            == Print(items[0]) + ([','] + (PrintItems(items[1..], true) + ([']'] + rest)))
  {
    Regroup(Print(items[0]), [','], PrintItems(items[1..], true), [']'] + rest);
    MoreItems(items);
    assert items == [items[0]] + items[1..];
  }

  lemma MoreItems(items: seq<Json>)
    requires |items| > 1
    ensures PrintItems(items, true) == Print(items[0]) + ([','] + PrintItems(items[1..], true))
  {}

  lemma EntriesStart(entries: seq<Entry>)
    requires entries != []
    ensures PrintEntries(entries, true) != [] && PrintEntries(entries, true)[0] == '"'
  {
    assert PrintEntries(entries, true) == PrintEntry(entries[0]) + PrintEntries(entries[1..], false);
    assert PrintEntry(entries[0])[0] == Quote(entries[0].key)[0] == '"';
  }

  lemma {:induction false} ObjRoundTrip(j: Json, entries: seq<Entry>, rest: string)
    requires j == Obj(entries) && WellFormed(j) && Ends(rest)
    ensures ParseValue(Print(j) + rest) == Some((j, rest))
    decreases j, 0
  {
    if entries == [] {
      EmptyObject(rest);
    } else {
      var body := PrintEntries(entries, true) + (['}'] + rest);
      EntriesStart(entries);
      EntriesRoundTrip(entries, rest);
      Bracketed(['{'], PrintEntries(entries, true), ['}'], rest);
      ObjectParses(entries, body, rest);
    }
  }

  lemma EmptyObject(rest: string)
    ensures ParseValue(Print(Obj([])) + rest) == Some((Obj([]), rest))
  {
    var s := Print(Obj([])) + rest;
    assert s == ['{', '}'] + rest && s[0] == '{' && s[1] == '}' && s[2..] == rest;
  }

  lemma ObjectParses(entries: seq<Entry>, body: string, rest: string)
    requires body != [] && body[0] == '"' && ParseEntries(body) == Some((entries, rest))
    ensures ParseValue(['{'] + body) == Some((Obj(entries), rest))
  {
    var s := ['{'] + body;
    assert s[0] == '{' && s[1] == '"' && s[1..] == body;
  }

  lemma {:induction false} EntryRoundTrip(e: Entry, rest: string)
    requires WellFormed(e.value) && Ends(rest)
    ensures ParseEntry(PrintEntry(e) + rest) == Some((e, rest))
    decreases e, 2
  {
    RoundTrip(e.value, rest);
    EntryParses(e.key, e.value, Print(e.value), rest);
  }

  lemma EntryParses(key: string, value: Json, text: string, rest: string)
    requires ParseValue(text + rest) == Some((value, rest))
    ensures ParseEntry(Quote(key) + ([':'] + text) + rest) == Some((Entry(key, value), rest))
  {
    var afterKey := [':'] + (text + rest);
    KeyFirst(Quote(key), text, rest);
    QuoteRoundTrip(key, afterKey);
    assert afterKey[1..] == text + rest;
  }

  lemma KeyFirst(key: string, text: string, rest: string)
    ensures key + ([':'] + text) + rest == key + ([':'] + (text + rest))
  {}

  lemma {:induction false} EntriesRoundTrip(entries: seq<Entry>, rest: string)
    requires entries != [] && forall i :: 0 <= i < |entries| ==> WellFormed(entries[i].value)
    ensures ParseEntries(PrintEntries(entries, true) + (['}'] + rest)) == Some((entries, rest))
    decreases entries, 0
  {
    if |entries| == 1 {
      EntryRoundTrip(entries[0], ['}'] + rest);
      LastEntry(entries[0], PrintEntry(entries[0]), rest);
      OneEntry(entries);
    } else {
      var tail := PrintEntries(entries[1..], true) + (['}'] + rest);
      EntryRoundTrip(entries[0], [','] + tail);
      EntriesRoundTrip(entries[1..], rest);
      NextEntry(entries[0], entries[1..], PrintEntry(entries[0]), tail, rest);
      ClosedEntries(entries, rest);
    }
  }

  lemma LastEntry(e: Entry, text: string, rest: string)
    requires ParseEntry(text + (['}'] + rest)) == Some((e, ['}'] + rest))
    ensures ParseEntries(text + (['}'] + rest)) == Some(([e], rest))
  {
    assert (['}'] + rest)[1..] == rest;
  }

  lemma NextEntry(e: Entry, entries: seq<Entry>, text: string, tail: string, rest: string)
    requires ParseEntry(text + ([','] + tail)) == Some((e, [','] + tail))
    requires ParseEntries(tail) == Some((entries, rest))
    ensures ParseEntries(text + ([','] + tail)) == Some(([e] + entries, rest))
  {
    assert ([','] + tail)[1..] == tail;
  }

  lemma OneEntry(entries: seq<Entry>)
    requires |entries| == 1
    ensures PrintEntries(entries, true) == PrintEntry(entries[0]) && entries == [entries[0]]
  {}

  lemma ClosedEntries(entries: seq<Entry>, rest: string)
    requires |entries| > 1
    ensures entries == [entries[0]] + entries[1..]
    ensures PrintEntries(entries, true) + (['}'] + rest)
            == PrintEntry(entries[0]) + ([','] + (PrintEntries(entries[1..], true) + (['}'] + rest)))
  {
    Regroup(PrintEntry(entries[0]), [','], PrintEntries(entries[1..], true), ['}'] + rest);
    MoreEntries(entries);
    assert entries == [entries[0]] + entries[1..];
  }

  lemma MoreEntries(entries: seq<Entry>)
    requires |entries| > 1
    ensures PrintEntries(entries, true) == PrintEntry(entries[0]) + ([','] + PrintEntries(entries[1..], true))
  {}

  // ----- Same tree up to key order -----

  /** Equal up to the order of object entries, at every depth. */
  ghost predicate Equivalent(a: Json, b: Json)
    decreases a, 0
  {
    match a
    case Arr(items) =>
      && b.Arr? && |b.items| == |items|
      && forall i :: 0 <= i < |items| ==> Equivalent(items[i], b.items[i])
    case Obj(entries) =>
      && b.Obj?
      && (forall i :: 0 <= i < |entries| ==> HasPartner(entries[i], b.entries))
      && forall k :: 0 <= k < |b.entries| ==> IsPartner(entries, b.entries[k])
    case _ => a == b
  }

  ghost predicate HasPartner(e: Entry, fs: seq<Entry>)
    decreases e, 1
  {
    exists k :: 0 <= k < |fs| && fs[k].key == e.key && Equivalent(e.value, fs[k].value)
  }

  ghost predicate IsPartner(es: seq<Entry>, f: Entry)
    decreases es, 1
  {
    exists i :: 0 <= i < |es| && es[i].key == f.key && Equivalent(es[i].value, f.value)
  }

  lemma CanonWellFormed(j: Json)
    requires WellFormed(j)
    ensures WellFormed(Canon(j))
    decreases j
  {
    match j
    case Arr(items) =>
      forall i | 0 <= i < |items| ensures WellFormed(Canon(items[i])) {
        CanonWellFormed(items[i]);
      }
    case Obj(entries) =>
      var canon := CanonEntries(entries);
      SortMembers(canon);
      SortSorted(canon);
      var sorted := SortEntries(canon);
      forall k | 0 <= k < |sorted| ensures WellFormed(sorted[k].value) {
        assert sorted[k] in sorted && sorted[k] in canon;
        var i :| 0 <= i < |canon| && canon[i] == sorted[k];
        CanonWellFormed(entries[i].value);
      }
      SortedDistinct(sorted);
    case _ =>
  }

  /** The keys of a canonical object come in dictionary order of their characters. */
  lemma KeysAscend(j: Json, i: nat, k: nat)
    requires WellFormed(j) && j.Obj? && i < k < |Canon(j).entries|
    ensures DictionaryBefore(Canon(j).entries[i].key, Canon(j).entries[k].key)
  {
    SortSorted(CanonEntries(j.entries));
    LessIff(Canon(j).entries[i].key, Canon(j).entries[k].key);
  }

  lemma SortedDistinct(sorted: seq<Entry>)
    requires SortedKeys(sorted)
    ensures DistinctKeys(sorted)
  {
    forall i, k | 0 <= i < k < |sorted| ensures sorted[i].key != sorted[k].key {
      LessTrichotomy(sorted[i].key, sorted[k].key);
    }
  }

  /** Every entry of `es` occurs in `fs` with an equal canonical value. */
  ghost predicate OccursIn(es: seq<Entry>, fs: seq<Entry>) {
    forall i :: 0 <= i < |es| ==> OccursOnce(es[i], fs)
  }

  ghost predicate OccursOnce(e: Entry, fs: seq<Entry>) {
    exists k :: 0 <= k < |fs| && fs[k].key == e.key && Canon(e.value) == Canon(fs[k].value)
  }

  lemma OccursToSubset(es: seq<Entry>, fs: seq<Entry>, x: Entry)
    requires OccursIn(es, fs) && x in CanonEntries(es)
    ensures x in CanonEntries(fs)
  {
    var i :| 0 <= i < |es| && CanonEntries(es)[i] == x;
    assert OccursOnce(es[i], fs);
    var k :| 0 <= k < |fs| && fs[k].key == es[i].key && Canon(es[i].value) == Canon(fs[k].value);
    assert CanonEntries(fs)[k] == x;
  }

  lemma SubsetToOccurs(es: seq<Entry>, fs: seq<Entry>, i: nat)
    requires i < |es| && CanonEntries(es)[i] in CanonEntries(fs)
    ensures OccursOnce(es[i], fs)
  {
    var k :| 0 <= k < |fs| && CanonEntries(fs)[k] == CanonEntries(es)[i];
    assert fs[k].key == es[i].key && Canon(es[i].value) == Canon(fs[k].value);
  }

  /** Sorted canonical entries agree exactly when each side's entries occur on the
      other. */
  lemma SameMembers(es: seq<Entry>, fs: seq<Entry>)
    requires DistinctKeys(es) && DistinctKeys(fs)
    ensures SortEntries(CanonEntries(es)) == SortEntries(CanonEntries(fs)) <==> OccursIn(es, fs) && OccursIn(fs, es)
  {
    var a, b := CanonEntries(es), CanonEntries(fs);
    SortMembers(a);
    SortMembers(b);
    SortSorted(a);
    SortSorted(b);
    if OccursIn(es, fs) && OccursIn(fs, es) {
      forall x ensures x in SortEntries(a) <==> x in SortEntries(b) {
        if x in a { OccursToSubset(es, fs, x); }
        if x in b { OccursToSubset(fs, es, x); }
      }
      SortedUnique(SortEntries(a), SortEntries(b));
    }
    if SortEntries(a) == SortEntries(b) {
      SortedSameOccurs(es, fs);
      SortedSameOccurs(fs, es);
    }
  }

  lemma SortedSameOccurs(es: seq<Entry>, fs: seq<Entry>)
    requires SortEntries(CanonEntries(es)) == SortEntries(CanonEntries(fs))
    ensures OccursIn(es, fs)
  {
    SortMembers(CanonEntries(es));
    SortMembers(CanonEntries(fs));
    forall i | 0 <= i < |es| ensures OccursOnce(es[i], fs) {
      var x := CanonEntries(es)[i];
      assert x in CanonEntries(es) && x in SortEntries(CanonEntries(es)) && x in CanonEntries(fs);
      SubsetToOccurs(es, fs, i);
    }
  }

  /** Canonical forms are equal exactly for equivalent trees. */
  lemma {:induction false} CanonIffEquivalent(a: Json, b: Json)
    requires WellFormed(a) && WellFormed(b)
    ensures Canon(a) == Canon(b) <==> Equivalent(a, b)
    decreases a
  {
    match a
    case Arr(items) =>
      if b.Arr? && |b.items| == |items| {
        forall i | 0 <= i < |items| ensures Canon(items[i]) == Canon(b.items[i]) <==> Equivalent(items[i], b.items[i]) {
          CanonIffEquivalent(items[i], b.items[i]);
        }
        SameItems(items, b.items);
      }
    case Obj(entries) =>
      if b.Obj? {
        forall i, k | 0 <= i < |entries| && 0 <= k < |b.entries|
          ensures Canon(entries[i].value) == Canon(b.entries[k].value)
                  <==> Equivalent(entries[i].value, b.entries[k].value)
        {
          CanonIffEquivalent(entries[i].value, b.entries[k].value);
        }
        SameMembers(entries, b.entries);
        EquivalentIsOccurs(entries, b.entries);
      }
    case _ =>
  }

  lemma SameItems(a: seq<Json>, b: seq<Json>)
    requires |a| == |b|
    ensures CanonItems(a) == CanonItems(b) <==> forall i :: 0 <= i < |a| ==> Canon(a[i]) == Canon(b[i])
  {
    if CanonItems(a) == CanonItems(b) {
      forall i | 0 <= i < |a| ensures Canon(a[i]) == Canon(b[i]) {
        assert CanonItems(a)[i] == CanonItems(b)[i];
      }
    }
  }

  lemma EquivalentIsOccurs(es: seq<Entry>, fs: seq<Entry>)
    requires forall i, k :: 0 <= i < |es| && 0 <= k < |fs| ==>
               (Canon(es[i].value) == Canon(fs[k].value) <==> Equivalent(es[i].value, fs[k].value))
    ensures Equivalent(Obj(es), Obj(fs)) <==> OccursIn(es, fs) && OccursIn(fs, es)
  {
    forall i | 0 <= i < |es| ensures OccursOnce(es[i], fs) <==> HasPartner(es[i], fs) {}
    forall k | 0 <= k < |fs| ensures OccursOnce(fs[k], es) <==> IsPartner(es, fs[k]) {}
  }

  /** The cache key identifies a tree: canonical bytes are equal if and only if the
      trees are equal up to the order of object keys. */
  lemma SameBytesIffEquivalent(a: Json, b: Json)
    requires WellFormed(a) && WellFormed(b)
    ensures Write(a) == Write(b) <==> Equivalent(a, b)
  {
    CanonIffEquivalent(a, b);
    if Write(a) == Write(b) {
      CanonWellFormed(a);
      CanonWellFormed(b);
      RoundTrip(Canon(a), []);
      RoundTrip(Canon(b), []);
    }
  }

  /** The bytes alone give the canonical tree back. */
  lemma DecodeWrite(j: Json)
    requires WellFormed(j)
    ensures ParseValue(Write(j)) == Some((Canon(j), ""))
  {
    CanonWellFormed(j);
    RoundTrip(Canon(j), []);
    assert Write(j) + [] == Write(j);
  }
}
