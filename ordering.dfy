/** `sorted(a_set)` and `list(dict.fromkeys(a_list))`, the two ordering
    builtins the loader applies to file names: the first lists a set of
    strings in ascending order, the second drops repeated elements and keeps
    each at its first occurrence. */
module Ordering {
  import opened Strings

  function Elems<T>(s: seq<T>): set<T> {
    set x | x in s
  }

  lemma ElemsEmpty<T>(s: seq<T>)
    ensures Elems(s) == {} <==> |s| == 0
  {
    if |s| > 0 {
      assert s[0] in Elems(s);
    }
  }

  lemma ElemsConcat<T>(a: seq<T>, b: seq<T>)
    ensures Elems(a + b) == Elems(a) + Elems(b)
  {
  }

  predicate StrictlySorted(s: seq<string>) {
    forall i, j :: 0 <= i < j < |s| ==> Less(s[i], s[j])
  }

  predicate NoDup<T(==)>(s: seq<T>) {
    forall i, j :: 0 <= i < j < |s| ==> s[i] != s[j]
  }

  lemma SortedHasNoDup(s: seq<string>)
    requires StrictlySorted(s)
    ensures NoDup(s)
  {
    forall i, j | 0 <= i < j < |s|
      ensures s[i] != s[j]
    {
      if s[i] == s[j] {
        LessIrreflexive(s[i]);
      }
    }
  }

  /** Prepending an element below every element keeps a sequence sorted. */
  lemma ConsSorted(x: string, s: seq<string>)
    requires StrictlySorted(s)
    requires forall e :: e in s ==> Less(x, e)
    ensures StrictlySorted([x] + s)
  {
    var r := [x] + s;
    forall i, j | 0 <= i < j < |r|
      ensures Less(r[i], r[j])
    {
      if i == 0 {
        assert r[j] == s[j - 1] && r[j] in s;
      } else {
        assert r[i] == s[i - 1] && r[j] == s[j - 1];
      }
    }
  }

  /** In a sorted sequence every other element lies above the head. */
  lemma HeadIsLeast(s: seq<string>, e: string)
    requires StrictlySorted(s) && |s| > 0 && e in s
    ensures e == s[0] || Less(s[0], e)
  {
  }

  /** One step of `set.add` on the sorted listing of a set. */
  function Insert(s: seq<string>, x: string): (r: seq<string>)
    requires StrictlySorted(s)
    ensures StrictlySorted(r)
    ensures Elems(r) == Elems(s) + {x}
    decreases |s|
  {
    if |s| == 0 then [x]
    else if x == s[0] then s
    else if Less(x, s[0]) then
      InsertBelowHead(s, x);
      [x] + s
    else
      var tail := Insert(s[1..], x);
      InsertAboveHead(s, x, tail);
      assert s == [s[0]] + s[1..];
      ElemsConcat([s[0]], s[1..]);
      ElemsConcat([s[0]], tail);
      [s[0]] + tail
  }

  lemma InsertBelowHead(s: seq<string>, x: string)
    requires StrictlySorted(s) && |s| > 0 && Less(x, s[0])
    ensures StrictlySorted([x] + s)
  {
    forall e | e in s
      ensures Less(x, e)
    {
      HeadIsLeast(s, e);
      if e != s[0] {
        LessTransitive(x, s[0], e);
      }
    }
    ConsSorted(x, s);
  }

  lemma InsertAboveHead(s: seq<string>, x: string, tail: seq<string>)
    requires StrictlySorted(s) && |s| > 0 && x != s[0] && !Less(x, s[0])
    requires StrictlySorted(tail) && Elems(tail) == Elems(s[1..]) + {x}
    ensures StrictlySorted([s[0]] + tail)
  {
    LessTotal(x, s[0]);
    forall e | e in tail
      ensures Less(s[0], e)
    {
      assert e in Elems(tail);
      if e != x {
        assert e in Elems(s[1..]);
        var k :| 0 <= k < |s[1..]| && s[1..][k] == e;
        assert s[k + 1] == e;
      }
    }
    ConsSorted(s[0], tail);
  }

  /** The list `sorted(s)` produces: ascending, holding exactly the elements of `s`. */
  ghost function SortedSeq(s: set<string>): (r: seq<string>)
    ensures StrictlySorted(r)
    ensures Elems(r) == s
    decreases s
  {
    if s == {} then [] else
      var x :| x in s;
      Insert(SortedSeq(s - {x}), x)
  }

  /** A set has only one ascending listing. */
  lemma {:induction false} SortedUnique(a: seq<string>, b: seq<string>)
    requires StrictlySorted(a) && StrictlySorted(b)
    requires Elems(a) == Elems(b)
    ensures a == b
    decreases |a|
  {
    ElemsEmpty(a);
    ElemsEmpty(b);
    if |a| > 0 && |b| > 0 {
      assert a[0] in Elems(b) && b[0] in Elems(a);
      HeadIsLeast(b, a[0]);
      HeadIsLeast(a, b[0]);
      if Less(b[0], a[0]) {
        LessAsymmetric(b[0], a[0]);
      }
      assert a[0] == b[0];
      SortedHasNoDup(a);
      SortedHasNoDup(b);
      TailElems(a);
      TailElems(b);
      SortedUnique(a[1..], b[1..]);
      assert a == [a[0]] + a[1..] && b == [b[0]] + b[1..];
    }
  }

  lemma TailElems<T>(s: seq<T>)
    requires NoDup(s) && |s| > 0
    ensures Elems(s[1..]) == Elems(s) - {s[0]}
  {
    forall e | e in Elems(s)
      ensures e in Elems(s[1..]) <==> e != s[0]
    {
      var k :| 0 <= k < |s| && s[k] == e;
      if e != s[0] {
        assert s[1..][k - 1] == e;
      }
    }
  }

  /** `sorted(s)` for a set of strings. */
  method SortedFromSet(s: set<string>) returns (r: seq<string>)
    ensures r == SortedSeq(s)
  {
    r := [];
    var rest := s;
    while rest != {}
      invariant StrictlySorted(r)
      invariant Elems(r) + rest == s
      decreases rest
    {
      var x :| x in rest;
      r := Insert(r, x);
      rest := rest - {x};
    }
    SortedUnique(r, SortedSeq(s));
  }

  /** The position of the first occurrence of `x` in `s`. */
  function FirstIndex<T(==)>(s: seq<T>, x: T): (k: nat)
    requires x in s
    ensures k < |s| && s[k] == x
    ensures forall j :: 0 <= j < k ==> s[j] != x
  {
    if s[0] == x then 0 else 1 + FirstIndex(s[1..], x)
  }

  /** `list(dict.fromkeys(s))`: elements in order, each one only where it
      first occurs. */
  function FromKeys<T(==)>(s: seq<T>): (r: seq<T>)
    ensures NoDup(r)
    ensures Elems(r) == Elems(s)
    decreases |s|
  {
    if |s| == 0 then [] else
      var init := FromKeys(s[..|s| - 1]);
      var last := s[|s| - 1];
      assert Elems(s) == Elems(s[..|s| - 1]) + {last} by {
        assert s == s[..|s| - 1] + [last];
      }
      if last in init then init else init + [last]
  }

  lemma {:induction false} FirstIndexInPrefix<T>(s: seq<T>, n: nat, x: T)
    requires n <= |s| && x in s[..n]
    ensures FirstIndex(s, x) == FirstIndex(s[..n], x) < n
    decreases n
  {
    if s[0] != x {
      assert s[1..][..n - 1] == s[..n][1..];
      FirstIndexInPrefix(s[1..], n - 1, x);
    }
  }

  /** Whatever `FromKeys` keeps, it keeps in the order of first occurrence. */
  lemma {:induction false} FromKeysFirstOccurrenceOrder<T>(s: seq<T>, i: nat, j: nat)
    requires i < j < |FromKeys(s)|
    ensures FromKeys(s)[i] in s && FromKeys(s)[j] in s
    ensures FirstIndex(s, FromKeys(s)[i]) < FirstIndex(s, FromKeys(s)[j])
    decreases |s|
  {
    var r := FromKeys(s);
    var n := |s| - 1;
    var init := FromKeys(s[..n]);
    assert r[i] in Elems(r) && r[j] in Elems(r);
    assert r[i] in Elems(init) by {
      if s[n] !in init && i == |init| {
      }
    }
    FirstIndexInPrefix(s, n, r[i]);
    if j < |init| {
      assert r[j] == init[j] && r[i] == init[i];
      assert init[j] in Elems(init);
      FromKeysFirstOccurrenceOrder(s[..n], i, j);
      FirstIndexInPrefix(s, n, r[j]);
    } else {
      assert r[j] == s[n] && s[n] !in Elems(init);
      assert s[n] !in s[..n];
      assert FirstIndex(s, s[n]) == n;
    }
  }

  /** A sequence without repetitions is its own `FromKeys`, so `FromKeys` is idempotent. */
  lemma {:induction false} FromKeysOfNoDup<T>(s: seq<T>)
    requires NoDup(s)
    ensures FromKeys(s) == s
    decreases |s|
  {
    if |s| > 0 {
      var n := |s| - 1;
      FromKeysOfNoDup(s[..n]);
      assert s[n] !in s[..n];
      assert s == s[..n] + [s[n]];
    }
  }
}
