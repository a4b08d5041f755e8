/** Python's ordering of sort keys (tuples of numbers and strings compared
    lexicographically) and the stable sort that `list.sort` and pandas'
    `sort_values(kind="mergesort")` perform. */
module Ordering {

  /** One component of a sort-key tuple. */
  datatype KeyPart = Num(x: real) | Str(s: string)

  type Key = seq<KeyPart>

  /** Python's `<` on `str`: code point by code point, a proper prefix first. */
  predicate StrLess(a: string, b: string)
  {
    if a == [] then b != []
    else if b == [] then false
    else if a[0] != b[0] then a[0] < b[0]
    else StrLess(a[1..], b[1..])
  }

  /** Key components compare as numbers or as strings; the pipeline never
      compares a number with a string, so that case is fixed arbitrarily. */
  predicate PartLess(a: KeyPart, b: KeyPart)
  {
    match (a, b)
    case (Num(x), Num(y)) => x < y
    case (Str(s), Str(t)) => StrLess(s, t)
    case (Num(_), Str(_)) => true
    case (Str(_), Num(_)) => false
  }

  /** Python's `<` on tuples. */
  predicate KeyLess(a: Key, b: Key)
  {
    if a == [] then b != []
    else if b == [] then false
    else if a[0] != b[0] then PartLess(a[0], b[0])
    else KeyLess(a[1..], b[1..])
  }

  predicate KeyLeq(a: Key, b: Key)
  {
    a == b || KeyLess(a, b)
  }

  lemma {:induction false} StrLessIrreflexive(a: string)
    ensures !StrLess(a, a)
  {
    if a != [] { StrLessIrreflexive(a[1..]); }
  }

  lemma {:induction false} StrLessTransitive(a: string, b: string, c: string)
    requires StrLess(a, b) && StrLess(b, c)
    ensures StrLess(a, c)
  {
    if a != [] && b != [] && c != [] && a[0] == b[0] && b[0] == c[0] {
      StrLessTransitive(a[1..], b[1..], c[1..]);
    }
  }

  lemma {:induction false} StrLessTotal(a: string, b: string)
    requires a != b
    ensures StrLess(a, b) || StrLess(b, a)
  {
    if a != [] && b != [] && a[0] == b[0] {
      assert a == [a[0]] + a[1..] && b == [b[0]] + b[1..];
      StrLessTotal(a[1..], b[1..]);
    }
  }

  lemma {:induction false} PartLessIrreflexive(a: KeyPart)
    ensures !PartLess(a, a)
  {
    if a.Str? { StrLessIrreflexive(a.s); }
  }

  lemma {:induction false} PartLessTransitive(a: KeyPart, b: KeyPart, c: KeyPart)
    requires PartLess(a, b) && PartLess(b, c)
    ensures PartLess(a, c)
  {
    if a.Str? && b.Str? && c.Str? { StrLessTransitive(a.s, b.s, c.s); }
  }

  lemma {:induction false} PartLessTotal(a: KeyPart, b: KeyPart)
    requires a != b
    ensures PartLess(a, b) || PartLess(b, a)
  {
    if a.Str? && b.Str? { StrLessTotal(a.s, b.s); }
  }

  /** Tuple order is a strict total order: irreflexive ... */
  lemma {:induction false} KeyLessIrreflexive(a: Key)
    ensures !KeyLess(a, a)
  {
    if a != [] { KeyLessIrreflexive(a[1..]); }
  }

  /** ... transitive ... */
  lemma {:induction false} KeyLessTransitive(a: Key, b: Key, c: Key)
    requires KeyLess(a, b) && KeyLess(b, c)
    ensures KeyLess(a, c)
  {
    if a != [] && b != [] && c != [] {
      if a[0] == b[0] && b[0] == c[0] {
        KeyLessTransitive(a[1..], b[1..], c[1..]);
      } else if a[0] != b[0] && b[0] != c[0] {
        PartLessTransitive(a[0], b[0], c[0]);
        if a[0] == c[0] { PartLessIrreflexive(a[0]); }
      }
    }
  }

  /** ... and total. */
  lemma {:induction false} KeyLessTotal(a: Key, b: Key)
    requires a != b
    ensures KeyLess(a, b) || KeyLess(b, a)
  {
    if a != [] && b != [] {
      if a[0] == b[0] {
        assert a == [a[0]] + a[1..] && b == [b[0]] + b[1..];
        KeyLessTotal(a[1..], b[1..]);
      } else {
        PartLessTotal(a[0], b[0]);
      }
    }
  }

  lemma {:induction false} KeyLeqTransitive(a: Key, b: Key, c: Key)
    requires KeyLeq(a, b) && KeyLeq(b, c)
    ensures KeyLeq(a, c)
  {
    if a != b && b != c { KeyLessTransitive(a, b, c); }
  }

  lemma {:induction false} KeyLeqAntisymmetric(a: Key, b: Key)
    requires KeyLeq(a, b) && KeyLeq(b, a)
    ensures a == b
  {
    if a != b {
      KeyLessTransitive(a, b, a);
      KeyLessIrreflexive(a);
    }
  }

  lemma {:induction false} KeyLeqTotal(a: Key, b: Key)
    ensures KeyLeq(a, b) || KeyLeq(b, a)
  {
    if a != b { KeyLessTotal(a, b); }
  }

  /** Comparing keys whose first components are numbers. */
  lemma {:induction false} KeyLeqHead(x: real, a: Key, y: real, b: Key)
    requires KeyLeq([Num(x)] + a, [Num(y)] + b)
    ensures x <= y
    ensures x == y ==> KeyLeq(a, b)
  {
    var ka, kb := [Num(x)] + a, [Num(y)] + b;
    assert ka[1..] == a && kb[1..] == b;
  }

  /** `s` is in ascending key order. */
  ghost predicate SortedBy<T>(s: seq<T>, key: T -> Key)
  {
    forall i, j :: 0 <= i < j < |s| ==> KeyLeq(key(s[i]), key(s[j]))
  }

  /** In a sorted sequence an element with a strictly smaller key comes first. */
  lemma {:induction false} SortedStrictlyBefore<T>(s: seq<T>, key: T -> Key, l: int, k: int)
    requires SortedBy(s, key)
    requires 0 <= l < |s| && 0 <= k < |s|
    requires KeyLess(key(s[l]), key(s[k]))
    ensures l < k
  {
    if l == k {
      KeyLessIrreflexive(key(s[k]));
    } else if k < l {
      KeyLeqAntisymmetric(key(s[k]), key(s[l]));
      KeyLessIrreflexive(key(s[k]));
    }
  }

  /** Every element of `r` is bounded by `b` when every element of `s` and `x` is. */
  lemma {:induction false} UpperBoundOfInsert<T>(r: seq<T>, s: seq<T>, x: T, key: T -> Key, b: Key)
    requires multiset(r) == multiset(s) + multiset{x}
    requires forall i :: 0 <= i < |s| ==> KeyLeq(key(s[i]), b)
    requires KeyLeq(key(x), b)
    ensures forall i :: 0 <= i < |r| ==> KeyLeq(key(r[i]), b)
  {
    forall i | 0 <= i < |r|
      ensures KeyLeq(key(r[i]), b)
    {
      assert r[i] in multiset(r);
      if r[i] != x {
        assert r[i] in multiset(s);
        var k :| 0 <= k < |s| && s[k] == r[i];
      }
    }
  }

  /** Inserts `x` into sorted `s` after every element whose key is at most
      `key(x)`: the step of a stable insertion sort. */
  function InsertStable<T>(s: seq<T>, x: T, key: T -> Key): (r: seq<T>)
    requires SortedBy(s, key)
    ensures |r| == |s| + 1
    ensures multiset(r) == multiset(s) + multiset{x}
    ensures SortedBy(r, key)
  {
    if s == [] then [x]
    else
      var last := s[|s| - 1];
      if KeyLeq(key(last), key(x)) then
        assert forall i :: 0 <= i < |s| ==> KeyLeq(key(s[i]), key(x)) by {
          forall i | 0 <= i < |s| ensures KeyLeq(key(s[i]), key(x)) {
            if i < |s| - 1 { KeyLeqTransitive(key(s[i]), key(last), key(x)); }
          }
        }
        s + [x]
      else
        var s' := s[..|s| - 1];
        assert s == s' + [last];
        var r' := InsertStable(s', x, key);
        KeyLeqTotal(key(last), key(x));
        UpperBoundOfInsert(r', s', x, key, key(last));
        r' + [last]
  }

  /** Stable sort by key (insertion sort). */
  function SortByKey<T>(s: seq<T>, key: T -> Key): (r: seq<T>)
    ensures |r| == |s|
    ensures multiset(r) == multiset(s)
    ensures SortedBy(r, key)
  {
    if s == [] then []
    else
      var s' := s[..|s| - 1];
      assert s == s' + [s[|s| - 1]];
      InsertStable(SortByKey(s', key), s[|s| - 1], key)
  }

  /** Dropping the last element of a sorted sequence keeps it sorted. */
  lemma {:induction false} SortedInit<T>(s: seq<T>, key: T -> Key)
    requires SortedBy(s, key) && s != []
    ensures SortedBy(s[..|s| - 1], key)
  {
  }

  /** The two cases of stable insertion into a non-empty sorted sequence. */
  lemma {:induction false} InsertStableCases<T>(s: seq<T>, x: T, key: T -> Key)
    requires SortedBy(s, key) && s != []
    ensures SortedBy(s[..|s| - 1], key)
    ensures KeyLeq(key(s[|s| - 1]), key(x)) ==> InsertStable(s, x, key) == s + [x]
    ensures !KeyLeq(key(s[|s| - 1]), key(x)) ==>
      && key(s[|s| - 1]) != key(x)
      && InsertStable(s, x, key) == InsertStable(s[..|s| - 1], x, key) + [s[|s| - 1]]
  {
    SortedInit(s, key);
  }

  /** Where stable insertion puts `x`: after every element whose key is not
      above its own and before every element with a larger key. */
  lemma {:induction false} InsertStablePosition<T>(s: seq<T>, x: T, key: T -> Key) returns (i: nat)
    requires SortedBy(s, key)
    ensures i <= |s| && InsertStable(s, x, key) == s[..i] + [x] + s[i..]
    ensures forall j :: 0 <= j < i ==> KeyLeq(key(s[j]), key(x))
    ensures forall j :: i <= j < |s| ==> KeyLess(key(x), key(s[j]))
  {
    if s == [] {
      i := 0;
    } else {
      var last := s[|s| - 1];
      InsertStableCases(s, x, key);
      if KeyLeq(key(last), key(x)) {
        i := |s|;
        forall j | 0 <= j < |s| ensures KeyLeq(key(s[j]), key(x)) {
          if j < |s| - 1 { KeyLeqTransitive(key(s[j]), key(last), key(x)); }
        }
        assert s[..i] == s && s[i..] == [];
      } else {
        var s' := s[..|s| - 1];
        assert s == s' + [last];
        i := InsertStablePosition(s', x, key);
        KeyLeqTotal(key(last), key(x));
        assert s[..i] == s'[..i] && s[i..] == s'[i..] + [last];
        assert forall j :: 0 <= j < |s'| ==> s'[j] == s[j];
      }
    }
  }

  /** The elements of `s` whose key is `k`, in their order in `s`. */
  function WithKey<T>(s: seq<T>, key: T -> Key, k: Key): seq<T>
  {
    if s == [] then []
    else WithKey(s[..|s| - 1], key, k) + (if key(s[|s| - 1]) == k then [s[|s| - 1]] else [])
  }

  lemma {:induction false} WithKeySnoc<T>(s: seq<T>, y: T, key: T -> Key, k: Key)
    ensures WithKey(s + [y], key, k) == WithKey(s, key, k) + (if key(y) == k then [y] else [])
  {
    assert (s + [y])[..|s|] == s;
  }

  /** Appending two pieces one of which is empty, in either order. */
  lemma {:induction false} AppendEitherOrder<T>(a: seq<T>, b: seq<T>, c: seq<T>)
    requires b == [] || c == []
    ensures a + b + c == a + c + b
  {
    if b == [] { assert a + b == a && a + c + b == a + c; } else { assert a + b + c == a + b && a + c == a; }
  }

  /** Stable insertion appends `x` behind the elements with the same key. */
  lemma {:induction false} InsertStableWithKey<T>(s: seq<T>, x: T, key: T -> Key, k: Key)
    requires SortedBy(s, key)
    ensures WithKey(InsertStable(s, x, key), key, k)
         == WithKey(s, key, k) + (if key(x) == k then [x] else [])
  {
    var tx: seq<T> := if key(x) == k then [x] else [];
    if s == [] {
      assert InsertStable(s, x, key) == [x];
      WithKeySnoc([], x, key, k);
      assert [] + [x] == [x];
    } else {
      var last := s[|s| - 1];
      var s' := s[..|s| - 1];
      assert s == s' + [last];
      InsertStableCases(s, x, key);
      if KeyLeq(key(last), key(x)) {
        WithKeySnoc(s, x, key, k);
      } else {
        var tl: seq<T> := if key(last) == k then [last] else [];
        var r' := InsertStable(s', x, key);
        InsertStableWithKey(s', x, key, k);
        WithKeySnoc(r', last, key, k);
        WithKeySnoc(s', last, key, k);
        AppendEitherOrder(WithKey(s', key, k), tx, tl);
      }
    }
  }

  /** The sort is stable: elements with equal keys keep their input order. */
  lemma {:induction false} SortByKeyStable<T>(s: seq<T>, key: T -> Key, k: Key)
    ensures WithKey(SortByKey(s, key), key, k) == WithKey(s, key, k)
  {
    if s != [] {
      var s' := s[..|s| - 1];
      SortByKeyStable(s', key, k);
      InsertStableWithKey(SortByKey(s', key), s[|s| - 1], key, k);
    }
  }

  lemma {:induction false} SortedTail<T>(s: seq<T>, key: T -> Key)
    requires SortedBy(s, key) && |s| > 0
    ensures SortedBy(s[1..], key)
  {
    forall i, j | 0 <= i < j < |s| - 1
      ensures KeyLeq(key(s[1..][i]), key(s[1..][j]))
    {
      assert s[1..][i] == s[i + 1] && s[1..][j] == s[j + 1];
    }
  }

  /** The first elements of two sorted permutations have equal keys. */
  lemma {:induction false} SortedHeadKeys<T>(r1: seq<T>, r2: seq<T>, key: T -> Key)
    requires SortedBy(r1, key) && SortedBy(r2, key)
    requires multiset(r1) == multiset(r2) && |r1| > 0
    ensures |r2| > 0 && key(r1[0]) == key(r2[0]) && r2[0] in r1
  {
    assert r1[0] in multiset(r2);
    var j :| 0 <= j < |r2| && r2[j] == r1[0];
    assert r2[0] in multiset(r1);
    var i :| 0 <= i < |r1| && r1[i] == r2[0];
    assert KeyLeq(key(r2[0]), key(r1[0])) by {
      if j > 0 { assert KeyLeq(key(r2[0]), key(r2[j])); }
    }
    assert KeyLeq(key(r1[0]), key(r2[0])) by {
      if i > 0 { assert KeyLeq(key(r1[0]), key(r1[i])); }
    }
    KeyLeqAntisymmetric(key(r1[0]), key(r2[0]));
  }

  /** Sorting by a key that tells the elements apart leaves no freedom: two
      sorted permutations of the same elements are equal, so the order of the
      output is fixed by the key alone. */
  lemma {:induction false} SortedPermutationUnique<T>(r1: seq<T>, r2: seq<T>, key: T -> Key)
    requires SortedBy(r1, key) && SortedBy(r2, key)
    requires multiset(r1) == multiset(r2)
    requires forall x, y :: x in r1 && y in r1 && key(x) == key(y) ==> x == y
    ensures r1 == r2
  {
    if |r1| > 0 {
      SortedHeadKeys(r1, r2, key);
      assert r1[0] == r2[0];
      TailMultiset(r1);
      TailMultiset(r2);
      SortedTail(r1, key);
      SortedTail(r2, key);
      SortedPermutationUnique(r1[1..], r2[1..], key);
    } else {
      assert |multiset(r2)| == 0;
    }
  }

  /** Dropping the head removes one occurrence of it. */
  lemma {:induction false} TailMultiset<T>(r: seq<T>)
    requires |r| > 0
    ensures multiset(r[1..]) == multiset(r) - multiset{r[0]}
    ensures forall x :: x in r[1..] ==> x in r
    ensures r == [r[0]] + r[1..]
  {
    assert r == [r[0]] + r[1..];
  }

  /** The first element of `s` whose key is smallest: what a stable sort
      puts in front. */
  function FirstMin<T>(s: seq<T>, key: T -> Key): (m: T)
    requires s != []
    ensures m in s
  {
    if |s| == 1 then s[0]
    else
      var m := FirstMin(s[..|s| - 1], key);
      if KeyLess(key(s[|s| - 1]), key(m)) then s[|s| - 1] else m
  }

  /** No element has a smaller key than the first minimum. */
  lemma {:induction false} FirstMinIsLeast<T>(s: seq<T>, key: T -> Key)
    requires s != []
    ensures forall x :: x in s ==> KeyLeq(key(FirstMin(s, key)), key(x))
  {
    if |s| > 1 {
      var s' := s[..|s| - 1];
      var last := s[|s| - 1];
      var m := FirstMin(s', key);
      FirstMinIsLeast(s', key);
      InitMembers(s);
      if KeyLess(key(last), key(m)) {
        forall x | x in s' ensures KeyLeq(key(last), key(x)) {
          KeyLeqTransitive(key(last), key(m), key(x));
        }
      } else {
        KeyLeqTotal(key(last), key(m));
      }
    }
  }

  /** Every element before the first minimum has a strictly larger key. */
  lemma {:induction false} FirstMinIsFirst<T>(s: seq<T>, key: T -> Key)
    requires s != []
    ensures exists i ::
      (0 <= i < |s| && s[i] == FirstMin(s, key) &&
       forall j :: 0 <= j < i ==> KeyLess(key(FirstMin(s, key)), key(s[j])))
  {
    if |s| == 1 {
      assert s[0] == FirstMin(s, key);
    } else {
      var s' := s[..|s| - 1];
      var last := s[|s| - 1];
      var m := FirstMin(s', key);
      FirstMinIsFirst(s', key);
      var i :| 0 <= i < |s'| && s'[i] == m &&
        (forall j :: 0 <= j < i ==> KeyLess(key(m), key(s'[j])));
      if KeyLess(key(last), key(m)) {
        FirstMinIsLeast(s', key);
        forall j | 0 <= j < |s| - 1 ensures KeyLess(key(last), key(s[j])) {
          assert s[j] == s'[j];
          if key(m) != key(s[j]) {
            KeyLessTransitive(key(last), key(m), key(s[j]));
          }
        }
      } else {
        assert s[i] == m;
        assert forall j :: 0 <= j < i ==> s[j] == s'[j];
      }
    }
  }

  /** Membership in a non-empty sequence splits at its last element. */
  lemma {:induction false} InitMembers<T>(s: seq<T>)
    requires s != []
    ensures forall x :: x in s <==> x in s[..|s| - 1] || x == s[|s| - 1]
  {
    assert s == s[..|s| - 1] + [s[|s| - 1]];
  }

  /** Stable insertion puts `x` in front exactly when its key is smaller
      than the current head's. */
  lemma {:induction false} InsertStableHead<T>(s: seq<T>, x: T, key: T -> Key)
    requires SortedBy(s, key)
    ensures InsertStable(s, x, key)[0] ==
      if s == [] || KeyLess(key(x), key(s[0])) then x else s[0]
  {
    if s != [] {
      var last := s[|s| - 1];
      if KeyLeq(key(last), key(x)) {
        if KeyLess(key(x), key(s[0])) {
          if |s| > 1 {
            assert KeyLeq(key(s[0]), key(last));
            KeyLeqTransitive(key(s[0]), key(last), key(x));
          }
          KeyLeqAntisymmetric(key(s[0]), key(x));
          KeyLessIrreflexive(key(x));
        }
      } else {
        var s' := s[..|s| - 1];
        KeyLeqTotal(key(last), key(x));
        if s' != [] {
          InsertStableHead(s', x, key);
        }
      }
    }
  }

  /** The head of the stable sort is the first element with the smallest key. */
  lemma {:induction false} SortHeadIsFirstMin<T>(s: seq<T>, key: T -> Key)
    requires s != []
    ensures SortByKey(s, key)[0] == FirstMin(s, key)
  {
    if |s| > 1 {
      var s' := s[..|s| - 1];
      SortHeadIsFirstMin(s', key);
      InsertStableHead(SortByKey(s', key), s[|s| - 1], key);
    }
  }
}
