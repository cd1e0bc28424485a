/** Sorting as the store uses it: rows by product id, SKUs by bytes. */
module Ordering {
  ghost predicate StrictOrder<T(!new)>(lt: (T, T) -> bool) {
    && (forall a, b :: lt(a, b) ==> !lt(b, a))
    && (forall a, b, c :: lt(a, b) && lt(b, c) ==> lt(a, c))
    && (forall a, b :: a == b || lt(a, b) || lt(b, a))
  }

  ghost predicate Ascending<T>(lt: (T, T) -> bool, s: seq<T>) {
    forall i, j :: 0 <= i < j < |s| ==> lt(s[i], s[j])
  }

  predicate LessInt(a: int, b: int) {
    a < b
  }

  /** Byte order of two strings. */
  predicate LessString(a: string, b: string) {
    if b == "" then false
    else if a == "" then true
    else a[0] < b[0] || (a[0] == b[0] && LessString(a[1..], b[1..]))
  }

  /** The first place where the strings differ decides, and a proper prefix comes first. */
  lemma {:induction false} LessStringDecides(a: string, b: string) returns (k: nat)
    ensures k <= |a| && k <= |b| && a[..k] == b[..k] && (k < |a| && k < |b| ==> a[k] != b[k])
    ensures LessString(a, b) <==> k < |b| && (k == |a| || a[k] < b[k])
  {
    k := 0;
    if a != "" && b != "" && a[0] == b[0] {
      var rest := LessStringDecides(a[1..], b[1..]);
      k := rest + 1;
      assert a[..k] == [a[0]] + a[1..][..rest] && b[..k] == [b[0]] + b[1..][..rest];
    }
  }

  lemma {:induction false} LessStringAsym(a: string, b: string)
    requires LessString(a, b)
    ensures !LessString(b, a)
  {
    if a != "" && a[0] == b[0] {
      LessStringAsym(a[1..], b[1..]);
    }
  }

  lemma {:induction false} LessStringTrans(a: string, b: string, c: string)
    requires LessString(a, b) && LessString(b, c)
    ensures LessString(a, c)
  {
    if a != "" && a[0] == b[0] == c[0] {
      LessStringTrans(a[1..], b[1..], c[1..]);
    }
  }

  lemma {:induction false} LessStringTotal(a: string, b: string)
    ensures a == b || LessString(a, b) || LessString(b, a)
  {
    if a != "" && b != "" && a[0] == b[0] {
      LessStringTotal(a[1..], b[1..]);
      assert a == [a[0]] + a[1..] && b == [b[0]] + b[1..];
    }
  }

  lemma OrdersAreStrict()
    ensures StrictOrder(LessInt) && StrictOrder(LessString)
  {
    forall a, b | LessString(a, b) ensures !LessString(b, a) {
      LessStringAsym(a, b);
    }
    forall a, b, c | LessString(a, b) && LessString(b, c) ensures LessString(a, c) {
      LessStringTrans(a, b, c);
    }
    forall a, b ensures a == b || LessString(a, b) || LessString(b, a) {
      LessStringTotal(a, b);
    }
  }

  /** Strictly ascending by key. */
  ghost predicate Sorted<T, K>(lt: (K, K) -> bool, key: T -> K, s: seq<T>) {
    forall i, j :: 0 <= i < j < |s| ==> lt(key(s[i]), key(s[j]))
  }

  ghost predicate DistinctKeys<T, K>(key: T -> K, s: seq<T>) {
    forall i, j :: 0 <= i < j < |s| ==> key(s[i]) != key(s[j])
  }

  /** Position at which x belongs in a sorted sequence that has no element of its key. */
  function Place<T, K(!new)>(lt: (K, K) -> bool, key: T -> K, x: T, s: seq<T>): (p: nat)
    requires StrictOrder(lt) && Sorted(lt, key, s) && forall i :: 0 <= i < |s| ==> key(s[i]) != key(x)
    ensures p <= |s|
    ensures forall i :: 0 <= i < p ==> lt(key(s[i]), key(x))
    ensures forall i :: p <= i < |s| ==> lt(key(x), key(s[i]))
  {
    if s == [] || lt(key(s[|s| - 1]), key(x)) then |s| else Place(lt, key, x, s[..|s| - 1])
  }

  function Insert<T, K(!new)>(lt: (K, K) -> bool, key: T -> K, x: T, s: seq<T>): (r: seq<T>)
    requires StrictOrder(lt) && Sorted(lt, key, s) && forall i :: 0 <= i < |s| ==> key(s[i]) != key(x)
    ensures Sorted(lt, key, r) && multiset(r) == multiset(s) + multiset{x} && |r| == |s| + 1
  {
    var p := Place(lt, key, x, s);
    InsertSorted(lt, key, x, s, p);
    InsertMultiset(x, s, p);
    s[..p] + [x] + s[p..]
  }

  lemma InsertMultiset<T>(x: T, s: seq<T>, p: nat)
    requires p <= |s|
    ensures multiset(s[..p] + [x] + s[p..]) == multiset(s) + multiset{x}
  {
    assert s == s[..p] + s[p..];
  }

  lemma InsertSorted<T, K(!new)>(lt: (K, K) -> bool, key: T -> K, x: T, s: seq<T>, p: nat)
    requires StrictOrder(lt) && Sorted(lt, key, s) && p <= |s|
    requires forall i :: 0 <= i < p ==> lt(key(s[i]), key(x))
    requires forall i :: p <= i < |s| ==> lt(key(x), key(s[i]))
    ensures Sorted(lt, key, s[..p] + [x] + s[p..])
  {
    var r := s[..p] + [x] + s[p..];
    forall i, j | 0 <= i < j < |r|
      ensures lt(key(r[i]), key(r[j]))
    {
      assert r[i] == if i < p then s[i] else if i == p then x else s[i - 1];
      assert r[j] == if j < p then s[j] else if j == p then x else s[j - 1];
    }
  }

  /** Sorting elements with distinct keys: strictly ascending, and exactly the same elements. */
  function Sort<T, K(!new)>(lt: (K, K) -> bool, key: T -> K, s: seq<T>): (r: seq<T>)
    requires StrictOrder(lt) && DistinctKeys(key, s)
    ensures Sorted(lt, key, r) && multiset(r) == multiset(s) && |r| == |s|
  {
    if s == [] then []
    else
      var n := |s| - 1;
      var rest := Sort(lt, key, s[..n]);
      assert s == s[..n] + [s[n]];
      assert forall i :: 0 <= i < |rest| ==> rest[i] in multiset(s[..n]);
      Insert(lt, key, s[n], rest)
  }
}
