# is-tor-order, modelled in Dafny

`is-tor-order` takes the header names of an HTTP request and decides whether
their order matches one of the orders Tor Browser sends. The exported function
in `index.js` works in two phases:

1. **Shape detection and normalisation** (index.js:17-73). The headers come in
   one of four shapes, tried in this order:
   - a `node:http` mapping (any non-array object);
   - an array of names, when the raw flag is off;
   - an array of `[name, value]` entries;
   - a flat raw `name, value, name, value, …` list, when `areRawHeaders` is set.

   Each shape becomes a list of lower-cased names. Anything else throws
   `Error("Input protocol is unknown")` (index.js:167-169).
2. **Order classification** (index.js:75-164). The function takes the first
   index of twelve tracked header names and tests five fixed chains of
   strict `<` comparisons: two Linux chains with a DNT guard and three
   Safari chains. The verdict is their disjunction.

Modules:

| file | module | models |
|---|---|---|
| Wrappers.dfy | Wrappers | `Option` and `Result` |
| Ascii.dfy | Ascii | `toLowerCase` on ASCII names |
| KeyOrder.dfy | KeyOrder | `indexOf`, and the key order of a JavaScript object built by assignment (`KeepFirst`) or by delete-then-reinsert (`KeepLast`) |
| HeaderInput.dfy | HeaderInput | the input shapes, `Normalize` (index.js:17-73), the imperative `headerSet` loop (index.js:59-66), and `Message`, the text of the error raised by `throwUnknownInputProtocolError` (index.js:167-169) |
| Classifier.dfy | Classifier | the `indexOf…` look-ups as a loop over the tracked names; the five chains as the `Signature` constants `LinuxOriginFirst`, `LinuxContentLengthFirst` (index.js:123-144), `SafariConnectionSecond`, `SafariConnectionLast` and `SafariWithDnt` (index.js:146-162), checked by one matcher; `IsLinuxTor`, `IsSafariTor` and `Classify` for `isLinuxTor`, `isSafariTor` and the returned disjunction (index.js:123-164) |
| TorOrder.dfy | TorOrder | the whole function (index.js:1-165): `TorOrderResult` as a specification and `IsTorOrder` as the step-by-step method proved equal to it |
| Scenarios.dfy | Scenarios | the cases of test/index.js, and the DNT-guard behaviour |

Details of the model:
- An absent header has no entry in the `Positions` map. Every comparison with it is false, as `undefined < n` is false in JavaScript.
- `!indexOfDnt` is modelled as written. It passes when DNT is absent and also when DNT is at index 0.
- A thrown error is `Failure(UnknownInputProtocol)`. `Message` gives its text.
- A JavaScript value is `Str`, `Arr` or `Other` (anything that is neither a string nor an array).

## Model

| member | source | states |
|---|---|---|
| TorOrder.IsTorOrder | index.js:1-165 | The step-by-step function (protocol flag, shape branches, raw checks, `headerSet` loop, twelve look-ups, signature test) returns exactly `TorOrderResult`: an error or the verdict on the normalised names |
| TorOrder.TorOrderFailsExactly | index.js:17-73 | The call throws iff the input is an array that is not an entry list and holds a non-string, or is odd-length in raw mode; the error text is "Input protocol is unknown" |
| TorOrder.TorOrderIgnoresCase | index.js:34-69 | Two inputs that differ only in the letter case of header names give the same verdict, or both throw |
| TorOrder.ShapesAgree | index.js:34-47 | A mapping, a name array and an entry list carrying the same names in the same order give the same verdict, whatever the raw flag for mapping and entries |
| TorOrder.RawShadowedPairIgnored | index.js:59-68 | In raw mode a pair whose name comes again later, in any case, does not affect the verdict |
| TorOrder.EntryRepeatIgnored | index.js:42-47 | In entry form an entry repeating an earlier name in the same letters does not affect the verdict, and the raw flag is irrelevant |
| HeaderInput.Normalize | index.js:17-73 | Every name produced by a successful normalisation is lower case |
| HeaderInput.NormalizeFailsExactly | index.js:17-73 | Normalisation fails iff the input is a non-entry array holding a non-string, or an odd-length list in raw mode; an object never fails |
| HeaderInput.ObjectValuesIgnored | index.js:19-21 | For a mapping only the field names matter: values and the raw flag never change the result, and it never fails |
| HeaderInput.EntriesWinOverRawFlag | index.js:42-47 | An array of `[string, string]` pairs is read as entries even with the raw flag set: the first-kept, lower-cased entry names |
| HeaderInput.BuildHeaderSet | index.js:59-66 | The delete-then-reinsert loop leaves each name once, at its last occurrence (`KeepLast`, equal to the reference `LastOccurrences`) |
| HeaderInput.RawKeysAreLastOccurrences | index.js:48-68 | A well-formed raw list normalises to the last occurrences of its lower-cased names, with no duplicates |
| HeaderInput.RawShadowedPairDropped | index.js:59-68 | In raw mode a pair repeated later is dropped from the keys |
| HeaderInput.EntryRepeatDropped | index.js:45-47 | In entry form an exact repeat of an earlier name is dropped from the keys (`Object.fromEntries` keeps the first slot) |
| HeaderInput.NormalizeIgnoresCase | index.js:34-69 | Inputs equal up to name case both fail or both give keys that agree once repeats are dropped |
| HeaderInput.KeepFirstOfLowerAll | index.js:45-47 | Dropping exact repeats before lower-casing gives the same first occurrences as lower-casing alone |
| HeaderInput.EvenIndexedAppend | index.js:61-62 | Taking the even-indexed elements of two joined lists, the first of even length, gives the even-indexed elements of each list, joined in order |
| HeaderInput.EvenIndexedIsPairNames | index.js:61-62 | `filter((_, index) => !(index % 2))` equals walking the list two at a time and keeping the first element of every pair (a trailing lone name included) |
| Scenarios.CaseVariantsStayRepeated | index.js:34-47 | Outside raw mode `host` and `Host` both stay in the keys, as a name array and as entries, yet the verdict is that of `host` alone |
| Ascii.ToLower | index.js:37 | Lower-casing keeps the length, maps each ASCII capital to its small letter, leaves other characters alone, and yields a name with no capitals |
| Ascii.LowerAllIdempotent | index.js:68 | Lower-casing the raw keys a second time changes nothing |
| KeyOrder.FirstIndex | index.js:75-76 | `indexOf`: none iff the name is absent; otherwise an index holding the name, with no earlier occurrence |
| KeyOrder.KeepFirst | index.js:45 | Object construction by assignment yields each name once and no other name |
| KeyOrder.KeepFirstPreservesFirstOrder | index.js:45 | Dropping repeats keeps the order of first occurrences |
| KeyOrder.KeepFirstDropsRepeat | index.js:45 | A name assigned again later keeps its first slot |
| KeyOrder.Remove | index.js:64 | `delete`: the name is gone and every other name stays |
| KeyOrder.KeepLast | index.js:61-66 | Delete-then-reinsert yields each name once and no other name |
| KeyOrder.KeepLastIsLastOccurrences | index.js:61-66 | Delete-then-reinsert equals keeping only the last occurrence of each name |
| KeyOrder.LastOccurrencesDropsShadowed | index.js:61-66 | An occurrence followed later by the same name contributes nothing |
| KeyOrder.LastOccurrencesOfNoDup | index.js:61-66 | A list without repeats comes out of the loop unchanged |
| Classifier.PositionsOf | index.js:75-121 | A tracked name has a position iff it occurs in the keys |
| Classifier.LookupPositions | index.js:75-121 | The twelve look-ups yield, for each tracked name present, the index of its first occurrence, and nothing for absent names |
| Classifier.ChainHoldsIffIncreasing | index.js:123-162 | A chain of `<` comparisons holds iff every header of it is present and every earlier header comes strictly before every later one |
| Classifier.AbsentHeaderFalsifies | index.js:123-162 | One absent header falsifies any signature chain containing it |
| Classifier.OutOfOrderFalsifies | index.js:123-162 | Any two chain headers out of order falsify the chain |
| Classifier.ChainHoldsSameOrder | index.js:123-162 | A chain's truth depends only on the relative order of its headers |
| Classifier.ClassifyDependsOnlyOnOrder | index.js:123-164 | The verdict depends only on the relative order of the tracked headers and on whether the DNT guard passes (DNT absent or first). The guard reads an absolute index, so the tracked order alone does not decide the verdict (`Scenarios.GuardReadsAbsoluteIndex`) |
| Classifier.DntGuardOnKeys | index.js:133 | `!indexOfDnt` holds iff DNT is absent or is the very first key |
| Classifier.IsTorOfKeepFirst | index.js:75-121 | Later repeats of a key never change the verdict, since `indexOf` sees only the first |
| Classifier.InsertUntrackedKeepsVerdict | index.js:75-164 | Inserting an untracked name anywhere keeps the verdict, except in front of a leading DNT |
| Classifier.PositionsOfDistinctRun | index.js:75-121 | In a repeat-free key list, a run of tracked names sits at consecutive positions |
| Classifier.ConsecutivePositionsHold | index.js:123-162 | Headers at consecutive positions satisfy their chain |
| Scenarios.NodeHttpHeadersAreTor | test/index.js:6-25 | The `node:http` mapping in the Linux order gives `true` |
| Scenarios.CasingIgnored | test/index.js:27-46 | The same mapping with mixed-case names gives `true` |
| Scenarios.NonTorOrderGivesFalse | test/index.js:48-61 | `accept-language, user-agent, accept-encoding, host, accept` gives `false` |
| Scenarios.NonTorOrderIsNotTor | index.js:123-162 | That order satisfies none of the five signatures |
| Scenarios.LinuxOrderIsTor | index.js:134-144 | The eleven-header Linux order satisfies a Linux signature |
| Scenarios.ArraysAndEntriesAreTor | test/index.js:63-103 | The Linux order as a name array and as entries gives `true` |
| Scenarios.UnknownEntriesThrow | test/index.js:105-120 | An entry whose value is not a string throws |
| Scenarios.UnknownProtocolThrows | test/index.js:122-137 | A non-string in a name array throws |
| Scenarios.RawHeadersAreTor | test/index.js:139-173 | The raw list with a stray leading `user-agent` and a repeated `accept-language` gives `true` |
| Scenarios.RawNonStringThrows | test/index.js:175-197 | A raw list holding a non-string throws |
| Scenarios.RawOddLengthThrows | test/index.js:199-220 | A raw list of odd length throws |
| Scenarios.LeadingDntPassesGuard | index.js:133 | DNT sent first, followed by the first Linux order, is classified as Tor |
| Scenarios.LeadingUntrackedFailsDntGuard | index.js:133 | The same request with one untracked header before DNT is not Tor |
| Scenarios.GuardReadsAbsoluteIndex | index.js:133-144 | DNT first, with and without one untracked header in front, orders every pair of tracked names alike, yet only the list without it is Tor |

## Left out

- Top-level inputs that are neither an object nor an array (numbers, strings, `undefined`) are not representable. A top-level `null` is not representable either: `typeof null` is "object", so it takes the mapping test, and `Object.values` throws on it at index.js:21.
- The TypeError that `entry.length` / `entry.every` raise at index.js:31 is not modelled. An element is an entry exactly when it is an array of two strings. In the code, the entry test runs on every array input and stops at the first element that fails it. When that element is a two-character string, `"te".every` is not a function and the call throws. So a name array or raw list whose first name has two characters (the real `TE` header, say) throws in the code, while the model returns a verdict: `TorOrderResult(Array([Str("te"), Str("host")]), false)` is a `Success`. The same test throws a TypeError when the first element that fails it is `null` or `undefined` (at `entry.length`), or a function or object whose `length` is 2, such as `Object.apply` (at `entry.every`). The model has these as `Other`, so a name array such as `[Object.apply, "host"]` gives `Failure(UnknownInputProtocol)`, whose `Message` is "Input protocol is unknown", while the code throws "entry.every is not a function". For such inputs the message clause of `TorOrder.TorOrderFailsExactly` does not describe the code.
- Lower-casing is ASCII-only. Unicode `toLowerCase` is not modelled.
- `Object.keys` moves integer-like keys to the front. This is not modelled; header names are taken as non-numeric.
- Header values are kept only as far as the shape and raw-mode checks need them. They never reach classification.
- The twelve `if (keys.indexOf(…) !== -1)` blocks (index.js:75-121) are one loop over the tracked-name list (`Classifier.LookupPositions`). The result is the same map of first indices.
- The `userAgentString` option declared in types.d.ts:5 is never read by index.js, so there is nothing to model for it.
- Raw duplicates: index.js:64-65 deletes and re-inserts each key, so a repeated raw name ends up at its last occurrence (`KeyOrder.KeepLast`). test/index.js:139-173 relies on this.
- Repeated keys in the other branches: only the raw branch removes repeats after lower-casing. The mapping, name-array and entry branches keep a name twice when it comes in two letter cases, e.g. `host` and `Host`; `Scenarios.CaseVariantsStayRepeated` gives such an input. These repeats never change the verdict: `indexOf` reads only the first occurrence (`Classifier.IsTorOfKeepFirst`).
- HeaderInput.Normalize: its contract states only that the names are lower case. What each branch yields is stated by ShapesAgree, EntriesWinOverRawFlag, RawKeysAreLastOccurrences, ObjectValuesIgnored and NormalizeFailsExactly.
