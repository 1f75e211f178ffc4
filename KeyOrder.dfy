/**
 * The order of the own string keys of a JavaScript object, and
 * `Array.prototype.indexOf`.
 *
 * Assigning to a key that an object already has keeps the key where it is
 * (`KeepFirst`: `Object.fromEntries`, an object literal); deleting a key
 * and assigning it again moves it to the end (`KeepLast`: the raw-header
 * loop of index.js:59-66).  Integer-like keys, which JavaScript hoists to
 * the front, are not modelled.
 */
module KeyOrder {
  import opened Wrappers

  predicate NoDup(s: seq<string>) {
    forall i, j :: 0 <= i < j < |s| ==> s[i] != s[j]
  }

  lemma NoDupSnoc(s: seq<string>, x: string)
    requires NoDup(s) && x !in s
    ensures NoDup(s + [x])
  {
  }

  lemma NoDupCons(x: string, s: seq<string>)
    requires NoDup(s) && x !in s
    ensures NoDup([x] + s)
  {
    forall i, j | 0 <= i < j < |[x] + s|
      ensures ([x] + s)[i] != ([x] + s)[j]
    {
      if i > 0 {
        assert ([x] + s)[i] == s[i - 1] && ([x] + s)[j] == s[j - 1];
      } else {
        assert ([x] + s)[j] == s[j - 1];
      }
    }
  }

  /** `keys.indexOf(x)`, with "not found" (-1) as `None`. */
  function FirstIndex(s: seq<string>, x: string): (r: Option<nat>)
    ensures r.None? <==> x !in s
    ensures r.Some? ==> r.value < |s| && s[r.value] == x && x !in s[..r.value]
  {
    if s == [] then None
    else if s[0] == x then Some(0)
    else match FirstIndex(s[1..], x)
      case None => None
      case Some(i) =>
        assert s[..i + 1] == [s[0]] + s[1..][..i];
        Some(i + 1)
  }

  /** An index holding `x` with no `x` before it is the one `indexOf` finds. */
  lemma FirstIndexAt(s: seq<string>, k: nat, x: string)
    requires k < |s| && s[k] == x && x !in s[..k]
    ensures FirstIndex(s, x) == Some(k)
  {
  }

  /** In a list without repeats, `indexOf` of the name at slot `i` is `i`. */
  lemma FirstIndexOfNoDup(s: seq<string>, i: nat)
    requires NoDup(s) && i < |s|
    ensures FirstIndex(s, s[i]) == Some(i)
  {
    FirstIndexAt(s, i, s[i]);
  }

  /** `indexOf` answers 0 exactly for the first name. */
  lemma FirstIndexZero(s: seq<string>, x: string)
    requires x in s
    ensures FirstIndex(s, x).value == 0 <==> s[0] == x
  {
    if s[0] == x {
      FirstIndexAt(s, 0, x);
    }
  }

  /** Appending to a list does not move the first occurrence of a name already in it. */
  lemma FirstIndexSnoc(s: seq<string>, y: string, x: string)
    requires x in s
    ensures FirstIndex(s + [y], x) == FirstIndex(s, x)
  {
    var k := FirstIndex(s, x).value;
    assert (s + [y])[..k] == s[..k];
    FirstIndexAt(s + [y], k, x);
  }

  /** The new index of an old slot `j` once one element is inserted at slot `k`. */
  function Shifted(j: nat, k: nat): nat {
    if j < k then j else j + 1
  }

  /** Inserting a name `u` at slot `k` shifts by one every first occurrence at or after `k`. */
  lemma FirstIndexInsert(s: seq<string>, k: nat, u: string, x: string)
    requires k <= |s| && x != u
    ensures var t := s[..k] + [u] + s[k..];
      (x in t <==> x in s) &&
      (x in s ==>
        FirstIndex(t, x).value == Shifted(FirstIndex(s, x).value, k))
  {
    var t := s[..k] + [u] + s[k..];
    assert s == s[..k] + s[k..];
    if x in s {
      var j := FirstIndex(s, x).value;
      if j < k {
        FirstIndexInsertBefore(s, k, u, x, j);
      } else {
        FirstIndexInsertAfter(s, k, u, x, j);
      }
    }
  }

  lemma FirstIndexInsertBefore(s: seq<string>, k: nat, u: string, x: string, j: nat)
    requires j < k <= |s| && s[j] == x && x !in s[..j]
    ensures FirstIndex(s[..k] + [u] + s[k..], x) == Some(j)
  {
    var t := s[..k] + [u] + s[k..];
    assert t[..j] == s[..j];
    FirstIndexAt(t, j, x);
  }

  lemma FirstIndexInsertAfter(s: seq<string>, k: nat, u: string, x: string, j: nat)
    requires k <= j < |s| && s[j] == x && x !in s[..j] && x != u
    ensures FirstIndex(s[..k] + [u] + s[k..], x) == Some(j + 1)
  {
    var t := s[..k] + [u] + s[k..];
    assert t[j + 1] == s[j];
    assert t[..j + 1] == s[..k] + [u] + s[k..j];
    assert s[..j] == s[..k] + s[k..j];
    FirstIndexAt(t, j + 1, x);
  }

  /**
   * The keys of an object built by assigning the names of `s` in order:
   * a name already present keeps its slot (the first occurrence wins).
   */
  function KeepFirst(s: seq<string>): (r: seq<string>)
    ensures NoDup(r)
    ensures forall x :: x in r <==> x in s
  {
    if s == [] then []
    else
      var done := KeepFirst(s[..|s| - 1]);
      var x := s[|s| - 1];
      assert s == s[..|s| - 1] + [x];
      if x in done then done else NoDupSnoc(done, x); done + [x]
  }

  /** Assigning one more name: a new name goes last, a known one changes nothing. */
  lemma KeepFirstSnoc(s: seq<string>, y: string)
    ensures KeepFirst(s + [y]) == if y in s then KeepFirst(s) else KeepFirst(s) + [y]
  {
    assert (s + [y])[..|s + [y]| - 1] == s;
  }

  lemma KeepFirstOfNoDup(s: seq<string>)
    requires NoDup(s)
    ensures KeepFirst(s) == s
  {
    if s != [] {
      var init := s[..|s| - 1];
      assert s == init + [s[|s| - 1]];
      KeepFirstOfNoDup(init);
    }
  }

  /** Object construction never moves the first key. */
  lemma {:induction false} KeepFirstHead(s: seq<string>)
    requires s != []
    ensures KeepFirst(s) != [] && KeepFirst(s)[0] == s[0]
  {
    var init := s[..|s| - 1];
    if init != [] {
      KeepFirstHead(init);
    }
  }

  /**
   * Dropping repeated names does not change the order of first occurrences.
   * `a` and `b` are any two names of `s`.
   */
  lemma {:induction false} KeepFirstPreservesFirstOrder(s: seq<string>, a: string, b: string)
    requires a in s && b in s
    ensures FirstIndex(s, a).value < FirstIndex(s, b).value
        <==> FirstIndex(KeepFirst(s), a).value < FirstIndex(KeepFirst(s), b).value
  {
    var init, x := s[..|s| - 1], s[|s| - 1];
    assert s == init + [x];
    var kept := KeepFirst(init);
    if x in init {
      assert a in init && b in init;
      KeepFirstPreservesFirstOrder(init, a, b);
      FirstIndexSnoc(init, x, a);
      FirstIndexSnoc(init, x, b);
    } else {
      assert KeepFirst(s) == kept + [x];
      KeepFirstAppendNew(init, x, a);
      KeepFirstAppendNew(init, x, b);
      if a in init && b in init {
        KeepFirstPreservesFirstOrder(init, a, b);
      }
    }
  }

  /** Where the names of `init` and a new last name `x` land, before and after dropping repeats. */
  lemma KeepFirstAppendNew(init: seq<string>, x: string, c: string)
    requires x !in init && (c in init || c == x)
    ensures c in init ==>
      FirstIndex(init + [x], c) == FirstIndex(init, c) &&
      FirstIndex(KeepFirst(init) + [x], c) == FirstIndex(KeepFirst(init), c)
    ensures c == x ==>
      FirstIndex(init + [x], c) == Some(|init|) &&
      FirstIndex(KeepFirst(init) + [x], c) == Some(|KeepFirst(init)|)
  {
    var kept := KeepFirst(init);
    if c in init {
      FirstIndexSnoc(init, x, c);
      FirstIndexSnoc(kept, x, c);
    } else {
      assert (init + [x])[..|init|] == init;
      assert (kept + [x])[..|kept|] == kept;
      FirstIndexAt(init + [x], |init|, x);
      FirstIndexAt(kept + [x], |kept|, x);
    }
  }

  /**
   * A name assigned again after its first assignment changes nothing:
   * the object keeps the slot of the first occurrence.
   */
  lemma {:induction false} KeepFirstDropsRepeat(s: seq<string>, x: string, t: seq<string>)
    requires x in s
    ensures KeepFirst(s + [x] + t) == KeepFirst(s + t)
  {
    if t == [] {
      assert s + [x] + t == s + [x];
      assert (s + [x])[..|s|] == s;
      assert s + t == s;
    } else {
      var init, y := t[..|t| - 1], t[|t| - 1];
      KeepFirstDropsRepeat(s, x, init);
      assert (s + [x] + t)[..|s + [x] + t| - 1] == s + [x] + init;
      assert (s + t)[..|s + t| - 1] == s + init;
      assert (s + [x] + t)[|s + [x] + t| - 1] == y == (s + t)[|s + t| - 1];
    }
  }

  /** `delete headerSet[x]`: the list without `x`, everything else in order. */
  function Remove(s: seq<string>, x: string): (r: seq<string>)
    ensures forall y :: y in r <==> y in s && y != x
  {
    if s == [] then []
    else if s[0] == x then Remove(s[1..], x)
    else [s[0]] + Remove(s[1..], x)
  }

  lemma {:induction false} RemoveKeepsNoDup(s: seq<string>, x: string)
    requires NoDup(s)
    ensures NoDup(Remove(s, x))
  {
    if s != [] {
      assert NoDup(s[1..]) && s[0] !in s[1..] by {
        forall i | 0 <= i < |s[1..]| ensures s[1..][i] != s[0] { assert s[1..][i] == s[i + 1]; }
      }
      RemoveKeepsNoDup(s[1..], x);
      if s[0] != x {
        NoDupCons(s[0], Remove(s[1..], x));
      }
    }
  }

  lemma {:induction false} RemoveAppend(s: seq<string>, t: seq<string>, x: string)
    ensures Remove(s + t, x) == Remove(s, x) + Remove(t, x)
  {
    if s == [] {
      assert s + t == t;
    } else {
      assert (s + t)[0] == s[0] && (s + t)[1..] == s[1..] + t;
      RemoveAppend(s[1..], t, x);
      if s[0] != x {
        assert [s[0]] + (Remove(s[1..], x) + Remove(t, x)) == [s[0]] + Remove(s[1..], x) + Remove(t, x);
      }
    }
  }

  /**
   * The keys of an object built by, for each name of `s` in order, deleting
   * it and assigning it again: a repeated name ends in the slot of its LAST
   * occurrence.
   */
  function KeepLast(s: seq<string>): (r: seq<string>)
    ensures NoDup(r)
    ensures forall x :: x in r <==> x in s
  {
    if s == [] then []
    else
      var x := s[|s| - 1];
      var moved := Remove(KeepLast(s[..|s| - 1]), x);
      assert s == s[..|s| - 1] + [x];
      RemoveKeepsNoDup(KeepLast(s[..|s| - 1]), x);
      NoDupSnoc(moved, x);
      moved + [x]
  }

  /**
   * Reference definition: the occurrences of `s` that no later element
   * repeats, in their original order.
   */
  function LastOccurrences(s: seq<string>): seq<string> {
    if s == [] then []
    else (if s[0] in s[1..] then [] else [s[0]]) + LastOccurrences(s[1..])
  }

  lemma {:induction false} LastOccurrencesSnoc(s: seq<string>, x: string)
    ensures LastOccurrences(s + [x]) == Remove(LastOccurrences(s), x) + [x]
  {
    if s == [] {
      assert LastOccurrences([x]) == [x] + LastOccurrences([]);
    } else {
      var a, t := s[0], s[1..];
      assert (s + [x])[0] == a && (s + [x])[1..] == t + [x];
      LastOccurrencesSnoc(t, x);
      var head := if a in t then [] else [a];
      var headX := if a in t + [x] then [] else [a];
      var rest := Remove(LastOccurrences(t), x);
      assert LastOccurrences(s + [x]) == headX + (rest + [x]);
      assert LastOccurrences(s) == head + LastOccurrences(t);
      RemoveAppend(head, LastOccurrences(t), x);
      RemoveHead(a, t, x);
      assert headX + (rest + [x]) == (headX + rest) + [x];
    }
  }

  /** The head step of `LastOccurrences` with and without a trailing `x`. */
  lemma RemoveHead(a: string, t: seq<string>, x: string)
    ensures Remove(if a in t then [] else [a], x) == if a in t + [x] then [] else [a]
  {
    assert a in t + [x] <==> a in t || a == x;
    if a !in t {
      assert [a][1..] == [];
    }
  }

  /** The delete-and-reassign loop keeps exactly the last occurrence of every name. */
  lemma {:induction false} KeepLastIsLastOccurrences(s: seq<string>)
    ensures KeepLast(s) == LastOccurrences(s)
  {
    if s != [] {
      var init, x := s[..|s| - 1], s[|s| - 1];
      assert s == init + [x];
      KeepLastIsLastOccurrences(init);
      LastOccurrencesSnoc(init, x);
    }
  }

  /** A name that occurs again later leaves no trace where it first appeared. */
  lemma {:induction false} LastOccurrencesDropsShadowed(s: seq<string>, x: string, t: seq<string>)
    requires x in t
    ensures LastOccurrences(s + [x] + t) == LastOccurrences(s + t)
  {
    if s == [] {
      assert s + [x] + t == [x] + t && s + t == t;
      assert ([x] + t)[1..] == t;
    } else {
      var a, rest := s[0], s[1..];
      assert (s + [x] + t)[0] == a && (s + [x] + t)[1..] == rest + [x] + t;
      assert (s + t)[0] == a && (s + t)[1..] == rest + t;
      assert (a in rest + [x] + t) == (a in rest + t);
      LastOccurrencesDropsShadowed(rest, x, t);
    }
  }

  lemma {:induction false} LastOccurrencesOfNoDup(s: seq<string>)
    requires NoDup(s)
    ensures LastOccurrences(s) == s
  {
    if s != [] {
      assert s[0] !in s[1..] by {
        forall i | 0 <= i < |s[1..]| ensures s[1..][i] != s[0] { assert s[1..][i] == s[i + 1]; }
      }
      assert NoDup(s[1..]) by {
        forall i, j | 0 <= i < j < |s[1..]| ensures s[1..][i] != s[1..][j] {
          assert s[1..][i] == s[i + 1] && s[1..][j] == s[j + 1];
        }
      }
      LastOccurrencesOfNoDup(s[1..]);
    }
  }
}
