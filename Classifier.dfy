/**
 * Order classification (index.js:75-164): the first index of twelve tracked
 * header names in the normalised key list, and five fixed orderings of them
 * that Tor Browser is known to send.
 *
 * The source compares the indices with JavaScript's `<`, in which an
 * absent index (`undefined`) makes every comparison false.  Here an index
 * is present exactly when the name is a key of a `Positions` map, and
 * `Before` asks for both names to be present.
 */
module Classifier {
  import opened Wrappers
  import opened KeyOrder

  const Accept := "accept"
  const Host := "host"
  const UserAgent := "user-agent"
  const AcceptLanguage := "accept-language"
  const AcceptEncoding := "accept-encoding"
  const Connection := "connection"
  const Dnt := "dnt"
  const ContentLength := "content-length"
  const ContentType := "content-type"
  const Origin := "origin"
  const Referer := "referer"
  const UpgradeInsecureRequests := "upgrade-insecure-requests"

  /** The twelve names whose index the classifier looks up, in the order index.js:75-121 does. */
  const Tracked: seq<string> := [
    Accept, Host, UserAgent, AcceptLanguage, AcceptEncoding, Connection,
    Dnt, ContentLength, ContentType, Origin, Referer, UpgradeInsecureRequests
  ]

  /** The `indexOf…` variables: a tracked name maps to its first index; an absent one is not a key. */
  type Positions = map<string, nat>

  /** The value the twelve `indexOf…` variables hold once index.js:75-121 has run. */
  function PositionsOf(keys: seq<string>): (p: Positions)
    ensures forall n :: n in p <==> n in Tracked && n in keys
  {
    map n | n in Tracked && n in keys :: FirstIndex(keys, n).value
  }

  /**
   * `LookupPositions` computes `PositionsOf`: for every tracked name present
   * in `keys`, `keys.indexOf(name)`; nothing for an absent one.
   */
  method LookupPositions(keys: seq<string>) returns (p: Positions)
    ensures p == PositionsOf(keys)
    ensures forall n :: n in p ==> p[n] < |keys| && keys[p[n]] == n && n !in keys[..p[n]]
  {
    p := map[];
    var i := 0;
    while i < |Tracked|
      invariant 0 <= i <= |Tracked|
      invariant forall n :: n in p <==> n in Tracked[..i] && n in keys
      invariant forall n :: n in p ==> FirstIndex(keys, n) == Some(p[n])
    {
      var name := Tracked[i];
      var index := FirstIndex(keys, name);
      if index.Some? {
        p := p[name := index.value];
      }
      assert Tracked[..i + 1] == Tracked[..i] + [name];
      i := i + 1;
    }
    assert Tracked[..i] == Tracked;
    assert p.Keys == PositionsOf(keys).Keys;
  }

  /** `indexOfA < indexOfB` under JavaScript's rules: false as soon as either is `undefined`. */
  predicate Before(p: Positions, a: string, b: string) {
    a in p && b in p && p[a] < p[b]
  }

  /** `!indexOfDnt`: true when DNT is absent, and also when DNT is the very first header. */
  predicate DntGuard(p: Positions) {
    Dnt !in p || p[Dnt] == 0
  }

  /** `chain[0] < chain[1] && chain[1] < chain[2] && …` on the positions. */
  predicate ChainHolds(p: Positions, chain: seq<string>) {
    |chain| < 2 || (Before(p, chain[0], chain[1]) && ChainHolds(p, chain[1..]))
  }

  /** One known ordering: a chain of names that must come in this order, optionally guarded by `!indexOfDnt`. */
  datatype Signature = Signature(chain: seq<string>, dntGuard: bool)

  predicate Matches(p: Positions, s: Signature) {
    ChainHolds(p, s.chain) && (s.dntGuard ==> DntGuard(p))
  }

  /** index.js:124-133 */
  const LinuxOriginFirst := Signature(
    [Host, UserAgent, Accept, AcceptLanguage, AcceptEncoding, Referer, ContentType,
     Origin, ContentLength, Connection], true)

  /** index.js:134-144 */
  const LinuxContentLengthFirst := Signature(
    [Host, UserAgent, Accept, AcceptLanguage, AcceptEncoding, Referer, ContentType,
     ContentLength, Origin, Connection, UpgradeInsecureRequests], true)

  /** index.js:147-151 */
  const SafariConnectionSecond := Signature(
    [Host, Connection, Accept, UserAgent, AcceptEncoding, AcceptLanguage], false)

  /** index.js:152-156 */
  const SafariConnectionLast := Signature(
    [Host, Accept, UserAgent, AcceptLanguage, AcceptEncoding, Connection], false)

  /** index.js:157-162 */
  const SafariWithDnt := Signature(
    [Host, Dnt, Accept, UserAgent, AcceptLanguage, AcceptEncoding, Connection], false)

  const Signatures: seq<Signature> := [
    LinuxOriginFirst, LinuxContentLengthFirst,
    SafariConnectionSecond, SafariConnectionLast, SafariWithDnt
  ]

  /** `isLinuxTor` */
  predicate IsLinuxTor(p: Positions) {
    Matches(p, LinuxOriginFirst) || Matches(p, LinuxContentLengthFirst)
  }

  /** `isSafariTor` */
  predicate IsSafariTor(p: Positions) {
    Matches(p, SafariConnectionSecond) || Matches(p, SafariConnectionLast) || Matches(p, SafariWithDnt)
  }

  /** `!!(isLinuxTor || isSafariTor)` */
  predicate Classify(p: Positions) {
    IsLinuxTor(p) || IsSafariTor(p)
  }

  /** The verdict on a normalised key list. */
  predicate IsTor(keys: seq<string>) {
    Classify(PositionsOf(keys))
  }

  /**
   * A chain holds exactly when every pair of its names, taken in chain
   * order, is present at strictly increasing positions.
   */
  lemma {:induction false} ChainHoldsIffIncreasing(p: Positions, chain: seq<string>)
    ensures ChainHolds(p, chain) <==>
      forall i, j :: 0 <= i < j < |chain| ==> Before(p, chain[i], chain[j])
  {
    if |chain| >= 2 {
      var rest := chain[1..];
      ChainHoldsIffIncreasing(p, rest);
      if ChainHolds(p, chain) {
        forall i, j | 0 <= i < j < |chain| ensures Before(p, chain[i], chain[j]) {
          if i > 0 {
            assert Before(p, rest[i - 1], rest[j - 1]);
          } else if j > 1 {
            assert Before(p, rest[0], rest[j - 1]);
          }
        }
      }
      if forall i, j :: 0 <= i < j < |chain| ==> Before(p, chain[i], chain[j]) {
        forall i, j | 0 <= i < j < |rest| ensures Before(p, rest[i], rest[j]) {
          assert Before(p, chain[i + 1], chain[j + 1]);
        }
        assert Before(p, chain[0], chain[1]);
      }
    }
  }

  /** Two names of a chain out of order (or either absent) falsify the whole chain. */
  lemma OutOfOrderFalsifies(p: Positions, chain: seq<string>, i: nat, j: nat)
    requires i < j < |chain| && !Before(p, chain[i], chain[j])
    ensures !ChainHolds(p, chain)
  {
    ChainHoldsIffIncreasing(p, chain);
  }

  /** One absent header falsifies every chain of two or more names that mentions it. */
  lemma AbsentHeaderFalsifies(p: Positions, chain: seq<string>, k: nat)
    requires |chain| >= 2 && k < |chain| && chain[k] !in p
    ensures !ChainHolds(p, chain)
  {
    ChainHoldsIffIncreasing(p, chain);
    if k == 0 {
      assert !Before(p, chain[0], chain[1]);
    } else {
      assert !Before(p, chain[0], chain[k]);
    }
  }

  /** Every name the signatures mention is tracked. */
  predicate TrackedOnly(chain: seq<string>) {
    forall i :: 0 <= i < |chain| ==> chain[i] in Tracked
  }

  /** Two position maps that order every pair of tracked names alike and agree on the DNT guard. */
  predicate SameTrackedOrder(p1: Positions, p2: Positions) {
    && (forall a, b :: a in Tracked && b in Tracked ==> (Before(p1, a, b) <==> Before(p2, a, b)))
    && (DntGuard(p1) <==> DntGuard(p2))
  }

  lemma {:induction false} ChainHoldsSameOrder(p1: Positions, p2: Positions, chain: seq<string>)
    requires SameTrackedOrder(p1, p2) && TrackedOnly(chain)
    ensures ChainHolds(p1, chain) <==> ChainHolds(p2, chain)
  {
    if |chain| >= 2 {
      assert chain[0] in Tracked && chain[1] in Tracked;
      ChainHoldsSameOrder(p1, p2, chain[1..]);
    }
  }

  /**
   * The verdict depends only on the relative order of the tracked names and
   * on the DNT guard, never on absolute positions.
   */
  lemma ClassifyDependsOnlyOnOrder(p1: Positions, p2: Positions)
    requires SameTrackedOrder(p1, p2)
    ensures Classify(p1) == Classify(p2)
  {
    forall s | s in Signatures ensures Matches(p1, s) == Matches(p2, s) {
      ChainHoldsSameOrder(p1, p2, s.chain);
    }
  }

  /** The DNT guard, read on the key list: DNT absent, or DNT the very first key. */
  lemma DntGuardOnKeys(keys: seq<string>)
    ensures DntGuard(PositionsOf(keys)) <==> Dnt !in keys || keys[0] == Dnt
  {
    if Dnt in keys {
      FirstIndexZero(keys, Dnt);
    }
  }

  /**
   * Later repeats of a key do not change the verdict: only the first
   * occurrence of a name gives its position.
   */
  lemma IsTorOfKeepFirst(keys: seq<string>)
    ensures IsTor(KeepFirst(keys)) == IsTor(keys)
  {
    var p1, p2 := PositionsOf(keys), PositionsOf(KeepFirst(keys));
    forall a, b | a in Tracked && b in Tracked
      ensures Before(p1, a, b) <==> Before(p2, a, b)
    {
      if a in keys && b in keys {
        KeepFirstPreservesFirstOrder(keys, a, b);
      }
    }
    DntGuardOnKeys(keys);
    DntGuardOnKeys(KeepFirst(keys));
    if keys != [] {
      KeepFirstHead(keys);
    }
    ClassifyDependsOnlyOnOrder(p1, p2);
  }

  /**
   * Inserting an untracked name anywhere leaves the verdict alone, unless it
   * is inserted in front of a leading DNT (which would then fail the guard).
   */
  lemma InsertUntrackedKeepsVerdict(keys: seq<string>, k: nat, u: string)
    requires k <= |keys| && u !in Tracked
    requires k == 0 && keys != [] ==> keys[0] != Dnt
    ensures IsTor(keys[..k] + [u] + keys[k..]) == IsTor(keys)
  {
    var t := keys[..k] + [u] + keys[k..];
    var p1, p2 := PositionsOf(keys), PositionsOf(t);
    forall a, b | a in Tracked && b in Tracked
      ensures Before(p1, a, b) <==> Before(p2, a, b)
    {
      FirstIndexInsert(keys, k, u, a);
      FirstIndexInsert(keys, k, u, b);
    }
    FirstIndexInsert(keys, k, u, Dnt);
    if Dnt in keys {
      FirstIndexZero(keys, Dnt);
    }
    ClassifyDependsOnlyOnOrder(p1, p2);
  }

  /** In a list without repeats, each tracked name of the run `keys[k..]` sits at its own slot. */
  lemma PositionsOfDistinctRun(keys: seq<string>, k: nat, chain: seq<string>)
    requires NoDup(keys) && TrackedOnly(chain)
    requires k + |chain| <= |keys| && keys[k..k + |chain|] == chain
    ensures forall i :: 0 <= i < |chain| ==> chain[i] in PositionsOf(keys) && PositionsOf(keys)[chain[i]] == k + i
  {
    var p := PositionsOf(keys);
    forall i | 0 <= i < |chain| ensures chain[i] in p && p[chain[i]] == k + i {
      assert chain[i] == keys[k + i] && chain[i] in Tracked;
      FirstIndexOfNoDup(keys, k + i);
    }
  }

  /** Names at consecutive positions satisfy their chain. */
  lemma ConsecutivePositionsHold(p: Positions, k: nat, chain: seq<string>)
    requires forall i :: 0 <= i < |chain| ==> chain[i] in p && p[chain[i]] == k + i
    ensures ChainHolds(p, chain)
  {
    ChainHoldsIffIncreasing(p, chain);
  }
}
