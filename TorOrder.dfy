/**
 * The exported function of index.js: normalise the headers, look up the
 * tracked names, and report whether their order is one Tor Browser sends.
 */
module TorOrder {
  import opened Wrappers
  import opened Ascii
  import opened KeyOrder
  import opened HeaderInput
  import opened Classifier

  /** What `isTorOrder(headers, { areRawHeaders })` returns, or the error it throws. */
  function TorOrderResult(headers: Headers, areRawHeaders: bool): Result<bool, Error> {
    match Normalize(headers, areRawHeaders)
    case Failure(e) => Failure(e)
    case Success(keys) => Success(IsTor(keys))
  }

  /**
   * index.js:1-165 step by step: the `isUnknownInputProtocol` flag, the
   * branch that assigns `keys`, the `headerSet` loop for raw headers, the
   * `indexOf…` lookups and the two signature groups.
   */
  method IsTorOrder(headers: Headers, areRawHeaders: bool) returns (r: Result<bool, Error>)
    ensures r == TorOrderResult(headers, areRawHeaders)
  {
    var keys: seq<string> := [];
    var isUnknownInputProtocol := true;

    if IsNodeHttpLibrary(headers) {
      isUnknownInputProtocol := false;
      keys := LowerAll(ObjectKeys(headers.fields));
    } else if IsArrayOfHeaderKeys(headers) && !areRawHeaders {
      isUnknownInputProtocol := false;
      keys := LowerAll(StringsOf(headers.elems));
    } else if IsInputOfEntries(headers) {
      isUnknownInputProtocol := false;
      keys := LowerAll(KeepFirst(EntryNames(headers.elems)));
    } else if areRawHeaders {
      if exists i :: 0 <= i < |headers.elems| && !headers.elems[i].Str? {
        return Failure(UnknownInputProtocol);
      }
      if |headers.elems| % 2 != 0 {
        return Failure(UnknownInputProtocol);
      }
      isUnknownInputProtocol := false;
      var headerSet := BuildHeaderSet(LowerAll(EvenIndexed(StringsOf(headers.elems))));
      keys := LowerAll(headerSet);
    }

    if isUnknownInputProtocol {
      return Failure(UnknownInputProtocol);
    }

    var positions := LookupPositions(keys);
    var isLinuxTor := IsLinuxTor(positions);
    var isSafariTor := IsSafariTor(positions);
    r := Success(isLinuxTor || isSafariTor);
  }

  /**
   * An input throws exactly when it is an array that is not an entry list
   * and either holds a non-string or, in raw mode, has an odd length; it
   * then never yields a boolean.
   */
  lemma TorOrderFailsExactly(headers: Headers, areRawHeaders: bool)
    ensures TorOrderResult(headers, areRawHeaders).Failure? <==>
      && headers.Array?
      && !AllEntries(headers.elems)
      && (!AllStrings(headers.elems) || (areRawHeaders && |headers.elems| % 2 == 1))
    ensures TorOrderResult(headers, areRawHeaders).Failure? ==>
      Message(TorOrderResult(headers, areRawHeaders).error) == "Input protocol is unknown"
  {
    NormalizeFailsExactly(headers, areRawHeaders);
  }

  /** Letter case in header names never changes the verdict or whether the call throws. */
  lemma TorOrderIgnoresCase(h1: Headers, h2: Headers, areRawHeaders: bool)
    requires SameHeadersUpToCase(h1, h2)
    ensures TorOrderResult(h1, areRawHeaders) == TorOrderResult(h2, areRawHeaders)
  {
    NormalizeIgnoresCase(h1, h2, areRawHeaders);
    if Normalize(h1, areRawHeaders).Success? {
      IsTorOfKeepFirst(Normalize(h1, areRawHeaders).value);
      IsTorOfKeepFirst(Normalize(h2, areRawHeaders).value);
    }
  }

  /**
   * A mapping, a name list and an entry list that carry the same names in
   * the same order give the same verdict, repeated names included.
   */
  lemma ShapesAgree(fields: seq<(string, JsVal)>, names: seq<JsVal>, entries: seq<JsVal>, areRawHeaders: bool)
    requires AllStrings(names) && StringsOf(names) == FieldNames(fields)
    requires AllEntries(entries) && EntryNames(entries) == FieldNames(fields)
    ensures TorOrderResult(Object(fields), areRawHeaders) == TorOrderResult(Array(names), false)
    ensures TorOrderResult(Array(entries), areRawHeaders) == TorOrderResult(Array(names), false)
    ensures TorOrderResult(Array(names), false).Success?
  {
    var ns := FieldNames(fields);
    KeepFirstOfLowerAll(ns);
    IsTorOfKeepFirst(LowerAll(KeepFirst(ns)));
    IsTorOfKeepFirst(LowerAll(ns));
    if entries != [] {
      assert !entries[0].Str?;
    } else {
      assert names == [];
    }
  }

  /**
   * In raw mode a name/value pair whose name comes again later (in any
   * letter case) is dropped: the later occurrence decides the slot.
   */
  lemma RawShadowedPairIgnored(before: seq<JsVal>, name: string, value: string, after: seq<JsVal>)
    requires AllStrings(before) && |before| % 2 == 0
    requires AllStrings(after) && |after| % 2 == 0
    requires ToLower(name) in RawNames(after)
    ensures TorOrderResult(Array(before + [Str(name), Str(value)] + after), true)
         == TorOrderResult(Array(before + after), true)
  {
    RawShadowedPairDropped(before, name, value, after);
  }

  /**
   * In entry form a later entry repeating a name in exactly the same
   * letters is dropped, whatever the raw flag: the first entry decides the
   * slot.
   */
  lemma EntryRepeatIgnored(before: seq<JsVal>, name: string, value: string, after: seq<JsVal>, areRawHeaders: bool)
    requires AllEntries(before) && AllEntries(after) && name in EntryNames(before)
    ensures TorOrderResult(Array(before + [Arr([Str(name), Str(value)])] + after), areRawHeaders)
         == TorOrderResult(Array(before + after), false)
  {
    EntryRepeatDropped(before, name, value, after, areRawHeaders);
    EntryRepeatDropped(before, name, value, after, false);
    EntryNamesSplice(before, Arr([Str(name), Str(value)]), after);
    EntriesWinOverRawFlag(before + after);
  }
}
