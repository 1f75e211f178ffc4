/**
 * The concrete cases of test/index.js, stated about the model.
 */
module Scenarios {
  import opened Wrappers
  import opened Ascii
  import opened KeyOrder
  import opened HeaderInput
  import opened Classifier
  import opened TorOrder

  /** The order of test/index.js:8-20 and 65-77. */
  const LinuxOrder: seq<string> := [
    Host, UserAgent, Accept, AcceptLanguage, AcceptEncoding, Referer,
    ContentType, ContentLength, Origin, Connection, UpgradeInsecureRequests
  ]

  /** The order of test/index.js:50-56. */
  const NonTorOrder: seq<string> := [AcceptLanguage, UserAgent, AcceptEncoding, Host, Accept]

  lemma LinuxOrderNoDup()
    ensures NoDup(LinuxOrder)
  {
  }

  lemma LinuxOrderFacts()
    ensures NoDup(LinuxOrder) && TrackedOnly(LinuxOrder) && Dnt !in LinuxOrder
    ensures LinuxOrder[0..|LinuxOrder|] == LinuxOrder && LinuxContentLengthFirst.chain == LinuxOrder
  {
    LinuxOrderNoDup();
  }

  lemma LinuxOrderIsTor()
    ensures IsTor(LinuxOrder)
  {
    LinuxOrderFacts();
    PositionsOfDistinctRun(LinuxOrder, 0, LinuxOrder);
    ConsecutivePositionsHold(PositionsOf(LinuxOrder), 0, LinuxOrder);
  }

  /** With referer, connection and DNT all absent no signature can hold. */
  lemma NotTorWithout(p: Positions)
    requires Referer !in p && Connection !in p && Dnt !in p
    ensures !Classify(p)
  {
    AbsentHeaderFalsifies(p, LinuxOriginFirst.chain, 5);
    AbsentHeaderFalsifies(p, LinuxContentLengthFirst.chain, 5);
    AbsentHeaderFalsifies(p, SafariConnectionSecond.chain, 1);
    AbsentHeaderFalsifies(p, SafariConnectionLast.chain, 5);
    AbsentHeaderFalsifies(p, SafariWithDnt.chain, 1);
  }

  lemma NonTorOrderIsNotTor()
    ensures !IsTor(NonTorOrder)
  {
    assert Referer !in NonTorOrder && Connection !in NonTorOrder && Dnt !in NonTorOrder;
    NotTorWithout(PositionsOf(NonTorOrder));
  }

  /** A mapping with these names, in order, and empty values (the tests' `{ host: "", … }`). */
  function FieldsOf(names: seq<string>): (fields: seq<(string, JsVal)>)
    ensures FieldNames(fields) == names
  {
    seq(|names|, i requires 0 <= i < |names| => (names[i], Str("")))
  }

  /** An array of these names. */
  function NameArray(names: seq<string>): (vs: seq<JsVal>)
    ensures AllStrings(vs) && StringsOf(vs) == names
  {
    seq(|names|, i requires 0 <= i < |names| => Str(names[i]))
  }

  /** An array of `[name, ""]` entries. */
  function EntriesOf(names: seq<string>): (vs: seq<JsVal>)
    ensures AllEntries(vs) && EntryNames(vs) == names
  {
    seq(|names|, i requires 0 <= i < |names| => Arr([Str(names[i]), Str("")]))
  }

  /** A mapping whose names are distinct and lower case normalises to exactly those names. */
  lemma ObjectOfDistinctLower(names: seq<string>, areRawHeaders: bool)
    requires NoDup(names) && AllLower(names)
    ensures Normalize(Object(FieldsOf(names)), areRawHeaders) == Success(names)
  {
    KeepFirstOfNoDup(names);
    LowerAllOfLower(names);
  }

  lemma ShortNamesAreLower()
    ensures ToLower(Host) == Host && ToLower(UserAgent) == UserAgent && ToLower(Accept) == Accept
    ensures ToLower(Referer) == Referer && ToLower(Origin) == Origin && ToLower(Connection) == Connection
  {
    LowerOfLower(Host);
    LowerOfLower(UserAgent);
    LowerOfLower(Accept);
    LowerOfLower(Referer);
    LowerOfLower(Origin);
    LowerOfLower(Connection);
  }

  lemma LongNamesAreLower()
    ensures ToLower(AcceptLanguage) == AcceptLanguage && ToLower(AcceptEncoding) == AcceptEncoding
    ensures ToLower(ContentType) == ContentType && ToLower(ContentLength) == ContentLength
    ensures ToLower(UpgradeInsecureRequests) == UpgradeInsecureRequests
  {
    LowerOfLower(AcceptLanguage);
    LowerOfLower(AcceptEncoding);
    LowerOfLower(ContentType);
    LowerOfLower(ContentLength);
    LowerOfLower(UpgradeInsecureRequests);
  }

  lemma LinuxOrderIsLower()
    ensures AllLower(LinuxOrder)
  {
    ShortNamesAreLower();
    LongNamesAreLower();
    assert forall i :: 0 <= i < |LinuxOrder| ==> LinuxOrder[i] == ToLower(LinuxOrder[i]);
  }

  /** test/index.js:6-25: the `node:http` mapping in the Linux order gives `true`. */
  lemma NodeHttpHeadersAreTor()
    ensures TorOrderResult(Object(FieldsOf(LinuxOrder)), false) == Success(true)
  {
    LinuxOrderFacts();
    LinuxOrderIsLower();
    ObjectOfDistinctLower(LinuxOrder, false);
    LinuxOrderIsTor();
  }

  /** test/index.js:63-103: the same order as a name array and as entries gives `true`. */
  lemma ArraysAndEntriesAreTor()
    ensures TorOrderResult(Array(NameArray(LinuxOrder)), false) == Success(true)
    ensures TorOrderResult(Array(EntriesOf(LinuxOrder)), false) == Success(true)
  {
    NodeHttpHeadersAreTor();
    ShapesAgree(FieldsOf(LinuxOrder), NameArray(LinuxOrder), EntriesOf(LinuxOrder), false);
  }

  /** The names of test/index.js:29-41. */
  const CasedOrder: seq<string> := [
    "HOST", "User-Agent", "aCcEpT", AcceptLanguage, AcceptEncoding, Referer,
    ContentType, ContentLength, Origin, Connection, UpgradeInsecureRequests
  ]

  lemma CasedOrderFacts()
    ensures |CasedOrder| == |LinuxOrder|
    ensures forall i :: 0 <= i < |CasedOrder| ==> ToLower(CasedOrder[i]) == ToLower(LinuxOrder[i])
  {
    assert ToLower("HOST") == ToLower(Host);
    assert ToLower("User-Agent") == ToLower(UserAgent);
    assert ToLower("aCcEpT") == ToLower(Accept);
    assert forall i :: 3 <= i < |CasedOrder| ==> CasedOrder[i] == LinuxOrder[i];
  }

  /** test/index.js:27-46: casing of the names does not matter. */
  lemma CasingIgnored()
    ensures TorOrderResult(Object(FieldsOf(CasedOrder)), false) == Success(true)
  {
    CasedOrderFacts();
    assert SameHeadersUpToCase(Object(FieldsOf(CasedOrder)), Object(FieldsOf(LinuxOrder)));
    TorOrderIgnoresCase(Object(FieldsOf(CasedOrder)), Object(FieldsOf(LinuxOrder)), false);
    NodeHttpHeadersAreTor();
  }

  lemma NonTorOrderFacts()
    ensures NoDup(NonTorOrder) && AllLower(NonTorOrder)
  {
  }

  /** test/index.js:48-61: a non-Tor order gives `false`. */
  lemma NonTorOrderGivesFalse()
    ensures TorOrderResult(Object(FieldsOf(NonTorOrder)), false) == Success(false)
  {
    NonTorOrderFacts();
    ObjectOfDistinctLower(NonTorOrder, false);
    NonTorOrderIsNotTor();
  }

  /** test/index.js:105-120: an entry whose value is not a string throws. */
  lemma UnknownEntriesThrow()
    ensures TorOrderResult(Array([
      Arr([Str(Host), Str("")]), Arr([Str(Accept), Str("")]), Arr([Str(AcceptLanguage), Other]),
      Arr([Str(UserAgent), Str("")]), Arr([Str(AcceptEncoding), Str("")])]), false)
      == Failure(UnknownInputProtocol)
  {
    var h := Array([
      Arr([Str(Host), Str("")]), Arr([Str(Accept), Str("")]), Arr([Str(AcceptLanguage), Other]),
      Arr([Str(UserAgent), Str("")]), Arr([Str(AcceptEncoding), Str("")])]);
    assert !IsEntry(h.elems[2]) && !h.elems[0].Str?;
    TorOrderFailsExactly(h, false);
  }

  /** test/index.js:122-137: a non-string in a name array throws. */
  lemma UnknownProtocolThrows()
    ensures TorOrderResult(Array([Str(Host), Str(AcceptLanguage), Other, Str(Accept), Str(AcceptEncoding)]), false)
      == Failure(UnknownInputProtocol)
  {
    var h := Array([Str(Host), Str(AcceptLanguage), Other, Str(Accept), Str(AcceptEncoding)]);
    assert !IsEntry(h.elems[0]) && !h.elems[2].Str?;
    TorOrderFailsExactly(h, false);
  }

  /** test/index.js:175-197: in raw mode a non-string element throws. */
  lemma RawNonStringThrows()
    ensures TorOrderResult(Array([
      Str(UserAgent), Str("this is invalid because there can be only one"),
      Str("Host"), Str("127.0.0.1:8000"), Str(AcceptLanguage), Str(""),
      Other, Str("curl/7.22.0"), Str("ACCEPT"), Str("*"), Str("ACCEPT-encoding"), Str("gzip")]), true)
      == Failure(UnknownInputProtocol)
  {
    var h := Array([
      Str(UserAgent), Str("this is invalid because there can be only one"),
      Str("Host"), Str("127.0.0.1:8000"), Str(AcceptLanguage), Str(""),
      Other, Str("curl/7.22.0"), Str("ACCEPT"), Str("*"), Str("ACCEPT-encoding"), Str("gzip")]);
    assert !IsEntry(h.elems[0]) && !h.elems[6].Str?;
    TorOrderFailsExactly(h, true);
  }

  /** test/index.js:199-220: in raw mode an odd element count throws. */
  lemma RawOddLengthThrows()
    ensures TorOrderResult(Array([
      Str(UserAgent), Str("this is invalid because there can be only one"),
      Str("Host"), Str("127.0.0.1:8000"), Str(AcceptLanguage), Str(""),
      Str("ACCEPT"), Str("*"), Str("ACCEPT-encoding"), Str("gzip"), Str("node")]), true)
      == Failure(UnknownInputProtocol)
  {
    var h := Array([
      Str(UserAgent), Str("this is invalid because there can be only one"),
      Str("Host"), Str("127.0.0.1:8000"), Str(AcceptLanguage), Str(""),
      Str("ACCEPT"), Str("*"), Str("ACCEPT-encoding"), Str("gzip"), Str("node")]);
    assert !IsEntry(h.elems[0]) && |h.elems| == 11;
    TorOrderFailsExactly(h, true);
  }

  /** test/index.js:141-168, the raw list: a stray leading `user-agent` and a repeated `accept-language`. */
  const RawHeaders: seq<JsVal> := [
    Str("user-agent"), Str("this is invalid because there can be only one"),
    Str("Host"), Str("127.0.0.1:8000"),
    Str("User-Agent"), Str("curl/7.22.0"),
    Str("ACCEPT"), Str("*"),
    Str("accept-language"), Str(""),
    Str("ACCEPT-lAnGuAgE"), Str("en"),
    Str("ACCEPT-encoding"), Str("gzip"),
    Str("referer"), Str(""),
    Str("content-type"), Str(""),
    Str("content-length"), Str(""),
    Str("origin"), Str(""),
    Str("connection"), Str(""),
    Str("upgrade-insecure-requests"), Str("")
  ]

  /** The names of RawHeaders as sent, and lower-cased. */
  const RawSent: seq<string> := [
    "user-agent", "Host", "User-Agent", "ACCEPT", "accept-language", "ACCEPT-lAnGuAgE",
    "ACCEPT-encoding", "referer", "content-type", "content-length", "origin", "connection",
    "upgrade-insecure-requests"
  ]
  const RawLower: seq<string> := [
    UserAgent, Host, UserAgent, Accept, AcceptLanguage, AcceptLanguage, AcceptEncoding,
    Referer, ContentType, ContentLength, Origin, Connection, UpgradeInsecureRequests
  ]

  lemma RawHeadersShape()
    ensures AllStrings(RawHeaders) && |RawHeaders| == 26
    ensures EvenIndexed(StringsOf(RawHeaders)) == RawSent
  {
    var names := EvenIndexed(StringsOf(RawHeaders));
    forall i | 0 <= i < 13 ensures names[i] == RawSent[i] {
      assert RawHeaders[2 * i] == Str(RawSent[i]);
    }
  }

  lemma RawSentCapitals()
    ensures ToLower("Host") == Host && ToLower("User-Agent") == UserAgent && ToLower("ACCEPT") == Accept
    ensures ToLower("ACCEPT-lAnGuAgE") == AcceptLanguage && ToLower("ACCEPT-encoding") == AcceptEncoding
  {
  }

  lemma RawSentLowered()
    ensures LowerAll(RawSent) == RawLower
  {
    RawSentCapitals();
    ShortNamesAreLower();
    LongNamesAreLower();
  }

  lemma RawLowerSplit()
    ensures RawLower == [] + [UserAgent] + ([Host, UserAgent, Accept] + [AcceptLanguage] + LinuxOrder[3..])
    ensures LinuxOrder == [] + ([Host, UserAgent, Accept] + LinuxOrder[3..])
    ensures UserAgent in [Host, UserAgent, Accept] + [AcceptLanguage] + LinuxOrder[3..]
    ensures AcceptLanguage in LinuxOrder[3..]
  {
  }

  /** Dropping the two shadowed names leaves the first Linux order. */
  lemma RawLowerLastOccurrences()
    ensures LastOccurrences(RawLower) == LinuxOrder
  {
    RawLowerSplit();
    var before, rest := [Host, UserAgent, Accept], LinuxOrder[3..];
    LastOccurrencesDropsShadowed([], UserAgent, before + [AcceptLanguage] + rest);
    LastOccurrencesDropsShadowed(before, AcceptLanguage, rest);
    LinuxOrderFacts();
    LastOccurrencesOfNoDup(LinuxOrder);
  }

  /** test/index.js:139-173: raw headers with duplicates give `true`. */
  lemma RawHeadersAreTor()
    ensures TorOrderResult(Array(RawHeaders), true) == Success(true)
  {
    RawHeadersShape();
    RawSentLowered();
    RawKeysAreLastOccurrences(RawHeaders);
    RawLowerLastOccurrences();
    LinuxOrderIsTor();
  }

  /** The first Linux signature, with DNT sent first. */
  const DntFirst: seq<string> := [Dnt] + LinuxOriginFirst.chain

  lemma DntFirstFacts()
    ensures NoDup(DntFirst) && TrackedOnly(LinuxOriginFirst.chain)
    ensures DntFirst[1..1 + |LinuxOriginFirst.chain|] == LinuxOriginFirst.chain
  {
  }

  /**
   * `!indexOfDnt` also passes when DNT is at index 0, so a request that
   * sends DNT first still matches a Linux signature (index.js:133).
   */
  lemma LeadingDntPassesGuard()
    ensures IsTor(DntFirst)
  {
    DntFirstFacts();
    PositionsOfDistinctRun(DntFirst, 1, LinuxOriginFirst.chain);
    ConsecutivePositionsHold(PositionsOf(DntFirst), 1, LinuxOriginFirst.chain);
    DntGuardOnKeys(DntFirst);
  }

  /** The same request with one untracked header sent before DNT. */
  const ProxiedDntFirst: seq<string> := ["x-forwarded-for"] + DntFirst

  lemma ProxiedDntFirstNoDup()
    ensures NoDup(ProxiedDntFirst)
  {
    DntFirstFacts();
    assert "x-forwarded-for" !in DntFirst;
    NoDupCons("x-forwarded-for", DntFirst);
  }

  lemma DntFirstTracked()
    ensures TrackedOnly(DntFirst)
  {
  }

  lemma ProxiedDntFirstFacts()
    ensures NoDup(ProxiedDntFirst) && TrackedOnly(DntFirst)
    ensures ProxiedDntFirst[1..1 + |DntFirst|] == DntFirst
    ensures DntFirst[0] == Dnt && DntFirst[1] == Host && DntFirst[2] == UserAgent
    ensures DntFirst[3] == Accept && DntFirst[10] == Connection
  {
    ProxiedDntFirstNoDup();
    DntFirstTracked();
  }

  lemma ProxiedDntFirstPositions()
    ensures var p := PositionsOf(ProxiedDntFirst);
      && Dnt in p && p[Dnt] == 1 && Host in p && p[Host] == 2 && UserAgent in p && p[UserAgent] == 3
      && Accept in p && p[Accept] == 4 && Connection in p && p[Connection] == 11
  {
    ProxiedDntFirstFacts();
    PositionsOfDistinctRun(ProxiedDntFirst, 1, DntFirst);
  }

  /** DNT second, connection after accept and user-agent before accept: no signature holds. */
  lemma NotTorWithLateDnt(p: Positions)
    requires Dnt in p && p[Dnt] == 1 && Host in p && p[Host] == 2 && UserAgent in p && p[UserAgent] == 3
    requires Accept in p && p[Accept] == 4 && Connection in p && p[Connection] == 11
    ensures !Classify(p)
  {
    OutOfOrderFalsifies(p, SafariConnectionSecond.chain, 1, 2);
    OutOfOrderFalsifies(p, SafariConnectionLast.chain, 1, 2);
    OutOfOrderFalsifies(p, SafariWithDnt.chain, 0, 1);
  }

  /**
   * The guard looks at the absolute index of DNT: one untracked header in
   * front of it turns the verdict to `false` (index.js:133, 144).
   */
  lemma LeadingUntrackedFailsDntGuard()
    ensures !IsTor(ProxiedDntFirst)
  {
    ProxiedDntFirstPositions();
    NotTorWithLateDnt(PositionsOf(ProxiedDntFirst));
  }

  /**
   * The DNT guard reads an absolute index, not a relative order: the two key
   * lists above order every pair of tracked names alike, yet only the first
   * is classified as Tor.
   */
  lemma GuardReadsAbsoluteIndex()
    ensures forall a, b :: a in Tracked && b in Tracked ==>
      (Before(PositionsOf(DntFirst), a, b) <==> Before(PositionsOf(ProxiedDntFirst), a, b))
    ensures IsTor(DntFirst) && !IsTor(ProxiedDntFirst)
  {
    var u := "x-forwarded-for";
    assert u !in Tracked;
    assert ProxiedDntFirst == DntFirst[..0] + [u] + DntFirst[0..];
    forall a, b | a in Tracked && b in Tracked
      ensures Before(PositionsOf(DntFirst), a, b) <==> Before(PositionsOf(ProxiedDntFirst), a, b)
    {
      FirstIndexInsert(DntFirst, 0, u, a);
      FirstIndexInsert(DntFirst, 0, u, b);
    }
    LeadingDntPassesGuard();
    LeadingUntrackedFailsDntGuard();
  }

  lemma NameArrayKeepsCaseVariants()
    ensures Normalize(Array([Str("host"), Str("Host")]), false) == Success([Host, Host])
  {
    RawSentCapitals();
    ShortNamesAreLower();
    var vs := [Str("host"), Str("Host")];
    assert AllStrings(vs) && StringsOf(vs) == [Host, "Host"];
    assert LowerAll([Host, "Host"]) == [Host, Host];
  }

  lemma EntriesKeepCaseVariants()
    ensures Normalize(Array([Arr([Str("Host"), Str("")]), Arr([Str("host"), Str("")])]), false)
         == Success([Host, Host])
  {
    RawSentCapitals();
    ShortNamesAreLower();
    var entries := [Arr([Str("Host"), Str("")]), Arr([Str("host"), Str("")])];
    assert !entries[0].Str? && AllEntries(entries);
    assert EntryNames(entries) == ["Host", Host];
    assert NoDup(["Host", Host]);
    KeepFirstOfNoDup(["Host", Host]);
    assert LowerAll(["Host", Host]) == [Host, Host];
  }

  lemma RepeatedHostVerdict()
    ensures IsTor([Host, Host]) == IsTor([Host])
  {
    assert [Host, Host][..1] == [Host] && [Host][..0] == [];
    assert KeepFirst([Host]) == [Host];
    assert KeepFirst([Host, Host]) == [Host];
    IsTorOfKeepFirst([Host, Host]);
  }

  /**
   * Outside raw mode, names differing only in letter case both stay in the
   * keys after lower-casing; `indexOf` reads the first, so the verdict is
   * that of the list without the repeat.
   */
  lemma CaseVariantsStayRepeated()
    ensures Normalize(Array([Str("host"), Str("Host")]), false) == Success([Host, Host])
    ensures Normalize(Array([Arr([Str("Host"), Str("")]), Arr([Str("host"), Str("")])]), false)
         == Success([Host, Host])
    ensures IsTor([Host, Host]) == IsTor([Host])
  {
    NameArrayKeepsCaseVariants();
    EntriesKeepCaseVariants();
    RepeatedHostVerdict();
  }
}
