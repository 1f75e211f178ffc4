/**
 * Shape detection and normalisation (index.js:17-73): the `headers`
 * argument becomes an ordered list of lower-case header names, or the
 * error "Input protocol is unknown".
 *
 * Four shapes are tried in a fixed order: a non-array object (the
 * `node:http` `req.headers` mapping), an array of names (unless the raw
 * flag is set), an array of `[name, value]` entries, and, when the raw
 * flag is set, a flat `[name, value, name, value, …]` array such as
 * `req.rawHeaders`.
 */
module HeaderInput {
  import opened Wrappers
  import opened Ascii
  import opened KeyOrder

  /** A JavaScript value, as far as shape detection inspects it. */
  datatype JsVal = Str(s: string) | Arr(elems: seq<JsVal>) | Other

  /**
   * The `headers` argument: a plain object, given as its fields in
   * insertion order, or an array.
   */
  datatype Headers = Object(fields: seq<(string, JsVal)>) | Array(elems: seq<JsVal>)

  /** What index.js:167-169 throws. */
  datatype Error = UnknownInputProtocol

  function Message(e: Error): string {
    match e
    case UnknownInputProtocol => "Input protocol is unknown"
  }

  /** `entry.length === 2 && entry.every((value) => typeof value === "string")` */
  predicate IsEntry(v: JsVal) {
    v.Arr? && |v.elems| == 2 && v.elems[0].Str? && v.elems[1].Str?
  }

  predicate AllStrings(vs: seq<JsVal>) {
    forall i :: 0 <= i < |vs| ==> vs[i].Str?
  }

  predicate AllEntries(vs: seq<JsVal>) {
    forall i :: 0 <= i < |vs| ==> IsEntry(vs[i])
  }

  /**
   * `typeof headers === "object" && !Array.isArray(headers)`.  The value
   * check on the following line of the source is a discarded expression,
   * so field values are never inspected.
   */
  predicate IsNodeHttpLibrary(h: Headers) {
    h.Object?
  }

  predicate IsArrayOfHeaderKeys(h: Headers) {
    h.Array? && AllStrings(h.elems)
  }

  predicate IsInputOfEntries(h: Headers) {
    h.Array? && AllEntries(h.elems)
  }

  function FieldNames(fields: seq<(string, JsVal)>): (names: seq<string>)
    ensures |names| == |fields|
    ensures forall i :: 0 <= i < |fields| ==> names[i] == fields[i].0
  {
    seq(|fields|, i requires 0 <= i < |fields| => fields[i].0)
  }

  /** `Object.keys(headers)`: a key assigned twice keeps its first slot. */
  function ObjectKeys(fields: seq<(string, JsVal)>): seq<string> {
    KeepFirst(FieldNames(fields))
  }

  function StringsOf(vs: seq<JsVal>): (names: seq<string>)
    requires AllStrings(vs)
    ensures |names| == |vs|
    ensures forall i :: 0 <= i < |vs| ==> vs[i] == Str(names[i])
  {
    seq(|vs|, i requires 0 <= i < |vs| => vs[i].s)
  }

  /** The names of an entry list, in order, duplicates included. */
  function EntryNames(vs: seq<JsVal>): (names: seq<string>)
    requires AllEntries(vs)
    ensures |names| == |vs|
    ensures forall i :: 0 <= i < |vs| ==> vs[i].elems[0] == Str(names[i])
  {
    seq(|vs|, i requires 0 <= i < |vs| => vs[i].elems[0].s)
  }

  /** `raw.filter((_, index) => !(index % 2))`: the names of a flat name/value list. */
  function EvenIndexed(raw: seq<string>): (names: seq<string>)
    ensures |names| == (|raw| + 1) / 2
    ensures forall i :: 0 <= i < |names| ==> names[i] == raw[2 * i]
  {
    seq((|raw| + 1) / 2, i requires 0 <= i < (|raw| + 1) / 2 => raw[2 * i])
  }

  /** Reference definition: the first element of every pair, walking the list two at a time. */
  function PairNames(raw: seq<string>): seq<string>
    decreases |raw|
  {
    if raw == [] then []
    else if |raw| == 1 then [raw[0]]
    else [raw[0]] + PairNames(raw[2..])
  }

  /** Filtering by index parity picks the first element of every pair. */
  lemma {:induction false} EvenIndexedIsPairNames(raw: seq<string>)
    ensures EvenIndexed(raw) == PairNames(raw)
    decreases |raw|
  {
    if |raw| >= 2 {
      EvenIndexedIsPairNames(raw[2..]);
      var e, t := EvenIndexed(raw), EvenIndexed(raw[2..]);
      assert |e| == 1 + |t|;
      forall i | 0 <= i < |e| ensures e[i] == ([raw[0]] + t)[i] {
        if i > 0 {
          assert raw[2..][2 * (i - 1)] == raw[2 * i];
        }
      }
    }
  }

  /** The even-indexed elements of two joined lists, the first of even length. */
  lemma EvenIndexedAppend(a: seq<string>, b: seq<string>)
    requires |a| % 2 == 0
    ensures EvenIndexed(a + b) == EvenIndexed(a) + EvenIndexed(b)
  {
    var n1, n2, n := EvenIndexed(a), EvenIndexed(b), EvenIndexed(a + b);
    assert |n| == |n1| + |n2|;
    forall i | 0 <= i < |n| ensures n[i] == (n1 + n2)[i] {
      if i < |n1| {
        assert (a + b)[2 * i] == a[2 * i];
      } else {
        assert (a + b)[2 * i] == b[2 * (i - |n1|)];
      }
    }
  }

  /** The lower-case names of a flat name/value list (index.js:61-63). */
  function RawNames(vs: seq<JsVal>): seq<string>
    requires AllStrings(vs)
  {
    LowerAll(EvenIndexed(StringsOf(vs)))
  }

  /**
   * index.js:17-73 as a value: the lower-case key list the classifier
   * reads, or the error.
   */
  function Normalize(h: Headers, areRawHeaders: bool): (r: Result<seq<string>, Error>)
    ensures r.Success? ==> AllLower(r.value)
  {
    if IsNodeHttpLibrary(h) then
      Success(LowerAll(ObjectKeys(h.fields)))
    else if IsArrayOfHeaderKeys(h) && !areRawHeaders then
      Success(LowerAll(StringsOf(h.elems)))
    else if IsInputOfEntries(h) then
      Success(LowerAll(KeepFirst(EntryNames(h.elems))))
    else if areRawHeaders then
      if !AllStrings(h.elems) then Failure(UnknownInputProtocol)
      else if |h.elems| % 2 != 0 then Failure(UnknownInputProtocol)
      else Success(LowerAll(KeepLast(RawNames(h.elems))))
    else
      Failure(UnknownInputProtocol)
  }

  /**
   * The `headerSet` loop of index.js:59-66: for every name, in order,
   * `delete headerSet[key]; headerSet[key] = ""`.  The keys of `headerSet`
   * are kept as the ordered list `Object.keys` would return.  Every name
   * survives exactly once, at its last occurrence.
   */
  method BuildHeaderSet(names: seq<string>) returns (headerSet: seq<string>)
    ensures headerSet == KeepLast(names)
    ensures headerSet == LastOccurrences(names)
  {
    headerSet := [];
    for i := 0 to |names|
      invariant headerSet == KeepLast(names[..i])
    {
      var key := names[i];
      assert names[..i + 1] == names[..i] + [key];
      headerSet := Remove(headerSet, key);
      headerSet := headerSet + [key];
    }
    assert names[..|names|] == names;
    KeepLastIsLastOccurrences(names);
  }

  /**
   * Exactly these inputs throw: an array that is not an entry list and
   * either holds a non-string, or, with the raw flag, has an odd length.
   * An object never throws.
   */
  lemma NormalizeFailsExactly(h: Headers, areRawHeaders: bool)
    ensures Normalize(h, areRawHeaders).Failure? <==>
      && h.Array?
      && !AllEntries(h.elems)
      && (!AllStrings(h.elems) || (areRawHeaders && |h.elems| % 2 == 1))
  {
  }

  /** Field values and the raw flag play no part for an object: only the field names do. */
  lemma ObjectValuesIgnored(f1: seq<(string, JsVal)>, f2: seq<(string, JsVal)>, raw1: bool, raw2: bool)
    requires FieldNames(f1) == FieldNames(f2)
    ensures Normalize(Object(f1), raw1) == Normalize(Object(f2), raw2)
    ensures Normalize(Object(f1), raw1).Success?
  {
  }

  /** An array of `[string, string]` entries is read as entries even when the raw flag is set. */
  lemma EntriesWinOverRawFlag(vs: seq<JsVal>)
    requires AllEntries(vs)
    ensures Normalize(Array(vs), true) == Normalize(Array(vs), false)
    ensures Normalize(Array(vs), true) == Success(LowerAll(KeepFirst(EntryNames(vs))))
  {
    if vs != [] {
      assert !vs[0].Str?;
    }
  }

  lemma KeepLastOfLower(names: seq<string>)
    requires AllLower(names)
    ensures AllLower(KeepLast(names))
  {
    var kept := KeepLast(names);
    forall i | 0 <= i < |kept| ensures IsLower(kept[i]) {
      assert kept[i] in names;
    }
  }

  /**
   * A flat name/value list in raw mode becomes its lower-case names with
   * every repeated name kept once, at its last occurrence.
   */
  lemma RawKeysAreLastOccurrences(vs: seq<JsVal>)
    requires AllStrings(vs) && |vs| % 2 == 0
    ensures Normalize(Array(vs), true) == Success(LastOccurrences(RawNames(vs)))
    ensures NoDup(Normalize(Array(vs), true).value)
  {
    var names := RawNames(vs);
    KeepLastIsLastOccurrences(names);
    if vs == [] {
      assert Normalize(Array(vs), true) == Success([]);
    } else {
      assert !IsEntry(vs[0]);
      LowerAllIdempotent(EvenIndexed(StringsOf(vs)));
      KeepLastOfLower(names);
      LowerAllOfLower(KeepLast(names));
    }
  }

  /** Two JavaScript values that differ at most in the letter case of their strings. */
  predicate SameUpToCase(v: JsVal, w: JsVal) {
    match v
    case Str(a) => w.Str? && ToLower(a) == ToLower(w.s)
    case Arr(xs) =>
      w.Arr? && |xs| == |w.elems| &&
      forall i :: 0 <= i < |xs| ==> SameUpToCase(xs[i], w.elems[i])
    case Other => w.Other?
  }

  /** Two `headers` arguments of the same shape whose names (and strings) differ only in letter case. */
  predicate SameHeadersUpToCase(h1: Headers, h2: Headers) {
    match h1
    case Object(f1) =>
      h2.Object? && |f1| == |h2.fields| &&
      forall i :: 0 <= i < |f1| ==> ToLower(f1[i].0) == ToLower(h2.fields[i].0)
    case Array(e1) => h2.Array? && SameUpToCase(Arr(e1), Arr(h2.elems))
  }

  lemma LowerAllSnoc(names: seq<string>, x: string)
    ensures LowerAll(names + [x]) == LowerAll(names) + [ToLower(x)]
  {
  }

  /** Lowercasing sends lists with the same names to lists with the same names. */
  lemma LowerAllSameMembers(s: seq<string>, t: seq<string>, y: string)
    requires forall x :: x in s <==> x in t
    ensures y in LowerAll(s) <==> y in LowerAll(t)
  {
    if y in LowerAll(s) {
      var i :| 0 <= i < |s| && LowerAll(s)[i] == y;
      assert s[i] in t;
      var j :| 0 <= j < |t| && t[j] == s[i];
      assert LowerAll(t)[j] == y;
    }
    if y in LowerAll(t) {
      var j :| 0 <= j < |t| && LowerAll(t)[j] == y;
      assert t[j] in s;
      var i :| 0 <= i < |s| && s[i] == t[j];
      assert LowerAll(s)[i] == y;
    }
  }

  lemma LowerAllMember(s: seq<string>, x: string)
    requires x in s
    ensures ToLower(x) in LowerAll(s)
  {
    var i :| 0 <= i < |s| && s[i] == x;
    assert LowerAll(s)[i] == ToLower(x);
  }

  /**
   * Dropping exact repeats before lowercasing, as `Object.fromEntries`
   * does, leaves the first occurrences of the lower-case names where they
   * would have been anyway.
   */
  lemma {:induction false} KeepFirstOfLowerAll(names: seq<string>)
    ensures KeepFirst(LowerAll(KeepFirst(names))) == KeepFirst(LowerAll(names))
  {
    if names != [] {
      var init, x := names[..|names| - 1], names[|names| - 1];
      assert names == init + [x];
      KeepFirstOfLowerAll(init);
      LowerAllSnoc(init, x);
      var kept, lx := KeepFirst(init), ToLower(x);
      KeepFirstSnoc(init, x);
      KeepFirstSnoc(LowerAll(init), lx);
      LowerAllSameMembers(kept, init, lx);
      if x in init {
        LowerAllMember(init, x);
      } else {
        LowerAllSnoc(kept, x);
        KeepFirstSnoc(LowerAll(kept), lx);
      }
    }
  }

  lemma SameUpToCaseKeepsShape(e1: seq<JsVal>, e2: seq<JsVal>)
    requires SameUpToCase(Arr(e1), Arr(e2))
    ensures |e1| == |e2|
    ensures AllStrings(e1) <==> AllStrings(e2)
    ensures AllEntries(e1) <==> AllEntries(e2)
    ensures AllStrings(e1) ==> LowerAll(StringsOf(e1)) == LowerAll(StringsOf(e2))
    ensures AllEntries(e1) ==> LowerAll(EntryNames(e1)) == LowerAll(EntryNames(e2))
  {
    assert forall i :: 0 <= i < |e1| ==> SameUpToCase(e1[i], e2[i]);
    if AllEntries(e1) || AllEntries(e2) {
      forall i | 0 <= i < |e1| ensures IsEntry(e1[i]) <==> IsEntry(e2[i]) {
        assert SameUpToCase(e1[i], e2[i]);
        if e1[i].Arr? && |e1[i].elems| == 2 {
          assert SameUpToCase(e1[i].elems[0], e2[i].elems[0]);
          assert SameUpToCase(e1[i].elems[1], e2[i].elems[1]);
        }
      }
    }
    if AllEntries(e1) {
      forall i | 0 <= i < |e1| ensures LowerAll(EntryNames(e1))[i] == LowerAll(EntryNames(e2))[i] {
        assert SameUpToCase(e1[i].elems[0], e2[i].elems[0]);
      }
    }
  }

  /**
   * Letter case in header names never changes what the classifier sees:
   * the same inputs fail, and the first occurrences of the lower-case
   * names come in the same order.
   */
  lemma NormalizeIgnoresCase(h1: Headers, h2: Headers, areRawHeaders: bool)
    requires SameHeadersUpToCase(h1, h2)
    ensures Normalize(h1, areRawHeaders).Failure? == Normalize(h2, areRawHeaders).Failure?
    ensures Normalize(h1, areRawHeaders).Success? ==>
      KeepFirst(Normalize(h1, areRawHeaders).value) == KeepFirst(Normalize(h2, areRawHeaders).value)
  {
    match h1
    case Object(f1) =>
      var n1, n2 := FieldNames(f1), FieldNames(h2.fields);
      assert LowerAll(n1) == LowerAll(n2);
      KeepFirstOfLowerAll(n1);
      KeepFirstOfLowerAll(n2);
    case Array(e1) =>
      var e2 := h2.elems;
      SameUpToCaseKeepsShape(e1, e2);
      if AllStrings(e1) && !areRawHeaders {
      } else if AllEntries(e1) {
        KeepFirstOfLowerAll(EntryNames(e1));
        KeepFirstOfLowerAll(EntryNames(e2));
      } else if areRawHeaders && AllStrings(e1) && |e1| % 2 == 0 {
        var s1, s2 := StringsOf(e1), StringsOf(e2);
        assert LowerAll(EvenIndexed(s1)) == LowerAll(EvenIndexed(s2)) by {
          forall i | 0 <= i < |EvenIndexed(s1)|
            ensures LowerAll(EvenIndexed(s1))[i] == LowerAll(EvenIndexed(s2))[i]
          {
            assert ToLower(s1[2 * i]) == LowerAll(s1)[2 * i];
          }
        }
      }
  }

  /** The names of two flat name/value lists joined, the first of even length. */
  lemma RawNamesAppend(a: seq<JsVal>, b: seq<JsVal>)
    requires AllStrings(a) && AllStrings(b) && |a| % 2 == 0
    ensures AllStrings(a + b)
    ensures RawNames(a + b) == RawNames(a) + RawNames(b)
  {
    var s1, s2 := StringsOf(a), StringsOf(b);
    assert StringsOf(a + b) == s1 + s2 by {
      assert forall i :: 0 <= i < |a + b| ==> (a + b)[i] == Str((s1 + s2)[i]);
    }
    EvenIndexedAppend(s1, s2);
    var e1, e2 := EvenIndexed(s1), EvenIndexed(s2);
    assert LowerAll(e1 + e2) == LowerAll(e1) + LowerAll(e2);
  }

  /** The names of a flat list with one pair spliced in. */
  lemma RawNamesSplice(before: seq<JsVal>, name: string, value: string, after: seq<JsVal>)
    requires AllStrings(before) && |before| % 2 == 0 && AllStrings(after)
    ensures AllStrings(before + [Str(name), Str(value)] + after) && AllStrings(before + after)
    ensures RawNames(before + [Str(name), Str(value)] + after)
         == RawNames(before) + [ToLower(name)] + RawNames(after)
    ensures RawNames(before + after) == RawNames(before) + RawNames(after)
  {
    var pair := [Str(name), Str(value)];
    assert RawNames(pair) == [ToLower(name)] by {
      assert EvenIndexed(StringsOf(pair)) == [name];
    }
    RawNamesAppend(before, pair);
    RawNamesAppend(before + pair, after);
    RawNamesAppend(before, after);
  }

  /** Two well-formed raw lists with the same last occurrences normalise alike. */
  lemma RawSameLastOccurrences(vs1: seq<JsVal>, vs2: seq<JsVal>)
    requires AllStrings(vs1) && |vs1| % 2 == 0 && AllStrings(vs2) && |vs2| % 2 == 0
    requires LastOccurrences(RawNames(vs1)) == LastOccurrences(RawNames(vs2))
    ensures Normalize(Array(vs1), true) == Normalize(Array(vs2), true)
  {
    RawKeysAreLastOccurrences(vs1);
    RawKeysAreLastOccurrences(vs2);
  }

  /** The names of a raw list with a shadowed pair, with and without that pair. */
  lemma RawShadowedNames(before: seq<JsVal>, name: string, value: string, after: seq<JsVal>)
    requires AllStrings(before) && |before| % 2 == 0 && AllStrings(after)
    requires ToLower(name) in RawNames(after)
    ensures AllStrings(before + [Str(name), Str(value)] + after) && AllStrings(before + after)
    ensures LastOccurrences(RawNames(before + [Str(name), Str(value)] + after))
         == LastOccurrences(RawNames(before + after))
  {
    RawNamesSplice(before, name, value, after);
    LastOccurrencesDropsShadowed(RawNames(before), ToLower(name), RawNames(after));
  }

  /** Raw mode drops a pair whose name is repeated later in the list. */
  lemma RawShadowedPairDropped(before: seq<JsVal>, name: string, value: string, after: seq<JsVal>)
    requires AllStrings(before) && |before| % 2 == 0
    requires AllStrings(after) && |after| % 2 == 0
    requires ToLower(name) in RawNames(after)
    ensures Normalize(Array(before + [Str(name), Str(value)] + after), true)
         == Normalize(Array(before + after), true)
  {
    RawShadowedNames(before, name, value, after);
    assert |before + [Str(name), Str(value)] + after| == |before| + 2 + |after|;
    RawSameLastOccurrences(before + [Str(name), Str(value)] + after, before + after);
  }

  /** The names of an entry list with one entry spliced in. */
  lemma EntryNamesSplice(before: seq<JsVal>, e: JsVal, after: seq<JsVal>)
    requires AllEntries(before) && IsEntry(e) && AllEntries(after)
    ensures AllEntries(before + [e] + after) && AllEntries(before + after)
    ensures EntryNames(before + [e] + after) == EntryNames(before) + [e.elems[0].s] + EntryNames(after)
    ensures EntryNames(before + after) == EntryNames(before) + EntryNames(after)
  {
    var full, short := before + [e] + after, before + after;
    assert forall i :: 0 <= i < |full| ==> full[i] == if i < |before| then before[i]
      else if i == |before| then e else after[i - |before| - 1];
    assert forall i :: 0 <= i < |short| ==> short[i] == if i < |before| then before[i] else after[i - |before|];
  }

  /**
   * In entry form a name repeated with exactly the same letters keeps the
   * slot of its first entry: `Object.fromEntries` overwrites the value
   * before any lower-casing.
   */
  lemma EntryRepeatDropped(before: seq<JsVal>, name: string, value: string, after: seq<JsVal>, areRawHeaders: bool)
    requires AllEntries(before) && AllEntries(after) && name in EntryNames(before)
    ensures Normalize(Array(before + [Arr([Str(name), Str(value)])] + after), areRawHeaders)
         == Normalize(Array(before + after), areRawHeaders)
  {
    var e := Arr([Str(name), Str(value)]);
    EntryNamesSplice(before, e, after);
    KeepFirstDropsRepeat(EntryNames(before), name, EntryNames(after));
    assert !(before + [e] + after)[0].Str? && !(before + after)[0].Str?;
  }
}
