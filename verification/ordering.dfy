/** Sort keys and the stable sort that LINQ's OrderBy / OrderByDescending
    perform. A key is a nullable text (names), or a number (amounts, dates,
    category codes, nullable timestamps). */
module Ordering {

  /** Absent (null) sorts before every present key, as the default comparer does. */
  datatype Key = Absent | Text(s: string) | Num(n: int)

  /** Ordinal, lexicographic order on strings. */
  predicate TextLt(a: string, b: string)
  {
    if |a| == 0 then |b| > 0
    else if |b| == 0 then false
    else a[0] < b[0] || (a[0] == b[0] && TextLt(a[1..], b[1..]))
  }

  predicate KeyLt(a: Key, b: Key)
  {
    match (a, b)
    case (Absent, Absent) => false
    case (Absent, _) => true
    case (Text(x), Text(y)) => TextLt(x, y)
    case (Text(_), Num(_)) => true
    case (Num(x), Num(y)) => x < y
    case (_, _) => false
  }

  lemma {:induction false} TextLtIrreflexive(a: string)
    ensures !TextLt(a, a)
  {
    if |a| > 0 {
      TextLtIrreflexive(a[1..]);
    }
  }

  lemma {:induction false} TextLtTransitive(a: string, b: string, c: string)
    requires TextLt(a, b) && TextLt(b, c)
    ensures TextLt(a, c)
  {
    if |a| > 0 && |b| > 0 && |c| > 0 && a[0] == b[0] == c[0] {
      TextLtTransitive(a[1..], b[1..], c[1..]);
    }
  }

  lemma {:induction false} TextLtTotal(a: string, b: string)
    ensures a == b || TextLt(a, b) || TextLt(b, a)
  {
    if |a| > 0 && |b| > 0 && a[0] == b[0] {
      TextLtTotal(a[1..], b[1..]);
      if a[1..] == b[1..] {
        assert a == [a[0]] + a[1..] && b == [b[0]] + b[1..];
      }
    }
  }

  /** KeyLt is a strict total order. */
  lemma KeyLtStrictTotal(a: Key, b: Key, c: Key)
    ensures !KeyLt(a, a)
    ensures KeyLt(a, b) && KeyLt(b, c) ==> KeyLt(a, c)
    ensures a == b || KeyLt(a, b) || KeyLt(b, a)
  {
    if a.Text? {
      TextLtIrreflexive(a.s);
    }
    if a.Text? && b.Text? && c.Text? && KeyLt(a, b) && KeyLt(b, c) {
      TextLtTransitive(a.s, b.s, c.s);
    }
    if a.Text? && b.Text? {
      TextLtTotal(a.s, b.s);
    }
  }

  /** Key a comes strictly before key b in the chosen direction. */
  predicate Precedes(a: Key, b: Key, descending: bool)
  {
    if descending then KeyLt(b, a) else KeyLt(a, b)
  }

  lemma PrecedesOrder(a: Key, b: Key, c: Key, descending: bool)
    ensures !Precedes(a, a, descending)
    ensures Precedes(a, b, descending) && Precedes(b, c, descending) ==> Precedes(a, c, descending)
    ensures a == b || Precedes(a, b, descending) || Precedes(b, a, descending)
    ensures Precedes(a, b, descending) ==> !Precedes(b, a, descending)
  {
    KeyLtStrictTotal(a, b, c);
    KeyLtStrictTotal(c, b, a);
    KeyLtStrictTotal(a, b, a);
    KeyLtStrictTotal(b, a, b);
  }

  /** No element is followed by one whose key precedes its own. */
  predicate SortedBy<T>(s: seq<T>, key: T -> Key, descending: bool)
  {
    forall i, j :: 0 <= i < j < |s| ==> !Precedes(key(s[j]), key(s[i]), descending)
  }

  /** The elements whose key is k, in their order. Two sequences that agree on
      every WithKey keep equal-keyed elements in the same relative order. */
  function WithKey<T>(s: seq<T>, key: T -> Key, k: Key): seq<T>
  {
    if |s| == 0 then [] else (if key(s[0]) == k then [s[0]] else []) + WithKey(s[1..], key, k)
  }

  lemma {:induction false} WithKeyAppend<T>(a: seq<T>, b: seq<T>, key: T -> Key, k: Key)
    ensures WithKey(a + b, key, k) == WithKey(a, key, k) + WithKey(b, key, k)
  {
    if |a| > 0 {
      WithKeyAppend(a[1..], b, key, k);
      assert (a + b)[1..] == a[1..] + b;
    } else {
      assert a + b == b;
    }
  }

  lemma {:induction false} WithKeyNone<T>(s: seq<T>, key: T -> Key, k: Key)
    requires forall i :: 0 <= i < |s| ==> key(s[i]) != k
    ensures WithKey(s, key, k) == []
  {
    if |s| > 0 {
      WithKeyNone(s[1..], key, k);
    }
  }

  /** Places x after every element whose key does not come after its own. */
  function Insert<T>(x: T, s: seq<T>, key: T -> Key, descending: bool): (r: seq<T>)
    ensures |r| == |s| + 1
    ensures multiset(r) == multiset(s) + multiset{x}
  {
    if |s| == 0 then [x]
    else if Precedes(key(x), key(s[0]), descending) then [x] + s
    else
      assert s == [s[0]] + s[1..];
      [s[0]] + Insert(x, s[1..], key, descending)
  }

  /** Stable insertion sort: each element is inserted behind its equals. */
  function StableSort<T>(s: seq<T>, key: T -> Key, descending: bool): seq<T>
  {
    if |s| == 0 then [] else Insert(s[|s| - 1], StableSort(s[..|s| - 1], key, descending), key, descending)
  }

  lemma {:induction false} InsertSorted<T>(x: T, s: seq<T>, key: T -> Key, descending: bool)
    requires SortedBy(s, key, descending)
    ensures SortedBy(Insert(x, s, key, descending), key, descending)
  {
    if |s| == 0 {
    } else if Precedes(key(x), key(s[0]), descending) {
      PrependSorted(x, s, key, descending);
    } else {
      var t := Insert(x, s[1..], key, descending);
      SortedTail(s, key, descending);
      InsertSorted(x, s[1..], key, descending);
      InsertKeepsHead(x, s, key, descending);
      PrependAtMost(s[0], t, key, descending);
    }
  }

  lemma SortedTail<T>(s: seq<T>, key: T -> Key, descending: bool)
    requires SortedBy(s, key, descending) && |s| > 0
    ensures SortedBy(s[1..], key, descending)
  {
    forall i, j | 0 <= i < j < |s[1..]| ensures !Precedes(key(s[1..][j]), key(s[1..][i]), descending) {
      assert s[1..][j] == s[j + 1] && s[1..][i] == s[i + 1];
    }
  }

  /** Putting x in front of a sorted sequence whose head x precedes keeps it sorted. */
  lemma PrependSorted<T>(x: T, s: seq<T>, key: T -> Key, descending: bool)
    requires SortedBy(s, key, descending) && |s| > 0
    requires Precedes(key(x), key(s[0]), descending)
    ensures SortedBy([x] + s, key, descending)
  {
    var r := [x] + s;
    forall i, j | 0 <= i < j < |r| ensures !Precedes(key(r[j]), key(r[i]), descending) {
      if i == 0 {
        assert r[j] == s[j - 1];
        PrecedesOrder(key(x), key(s[0]), key(s[j - 1]), descending);
        if j - 1 > 0 {
          PrecedesOrder(key(s[0]), key(s[j - 1]), key(x), descending);
        }
      } else {
        assert r[i] == s[i - 1] && r[j] == s[j - 1];
      }
    }
  }

  /** When x does not precede the head, nothing in the insertion into the
      tail precedes the head. */
  lemma InsertKeepsHead<T>(x: T, s: seq<T>, key: T -> Key, descending: bool)
    requires SortedBy(s, key, descending) && |s| > 0
    requires !Precedes(key(x), key(s[0]), descending)
    ensures forall y :: y in Insert(x, s[1..], key, descending) ==> !Precedes(key(y), key(s[0]), descending)
  {
    var t := Insert(x, s[1..], key, descending);
    forall y | y in t ensures !Precedes(key(y), key(s[0]), descending) {
      assert y in multiset(t);
      if y != x {
        assert y in s[1..];
        var m :| 0 <= m < |s[1..]| && s[1..][m] == y;
        assert s[m + 1] == y;
      }
    }
  }

  /** A head that nothing in a sorted sequence precedes keeps it sorted. */
  lemma PrependAtMost<T>(h: T, t: seq<T>, key: T -> Key, descending: bool)
    requires SortedBy(t, key, descending)
    requires forall y :: y in t ==> !Precedes(key(y), key(h), descending)
    ensures SortedBy([h] + t, key, descending)
  {
    var r := [h] + t;
    forall i, j | 0 <= i < j < |r| ensures !Precedes(key(r[j]), key(r[i]), descending) {
      assert r[j] == t[j - 1];
      if i == 0 {
        assert r[j] in t;
      } else {
        assert r[i] == t[i - 1];
      }
    }
  }

  /** A key that precedes the first key of a sorted sequence occurs nowhere in it. */
  lemma KeyBeforeSorted<T>(x: T, s: seq<T>, key: T -> Key, descending: bool)
    requires SortedBy(s, key, descending) && |s| > 0
    requires Precedes(key(x), key(s[0]), descending)
    ensures WithKey(s, key, key(x)) == []
  {
    forall i | 0 <= i < |s| ensures key(s[i]) != key(x) {
      PrecedesOrder(key(x), key(s[0]), key(s[i]), descending);
      if i > 0 {
        PrecedesOrder(key(s[i]), key(s[0]), key(x), descending);
      }
    }
    WithKeyNone(s, key, key(x));
  }

  /** Inserting x into a sorted sequence adds x behind every element with its key. */
  lemma {:induction false} InsertWithKey<T>(x: T, s: seq<T>, key: T -> Key, descending: bool, k: Key)
    requires SortedBy(s, key, descending)
    ensures WithKey(Insert(x, s, key, descending), key, k)
         == WithKey(s, key, k) + (if key(x) == k then [x] else [])
  {
    var tail := if key(x) == k then [x] else [];
    if |s| == 0 {
      WithKeyCons(x, [], key, k);
      assert [x] + [] == [x];
    } else if Precedes(key(x), key(s[0]), descending) {
      InsertInFront(x, s, key, descending, k);
    } else {
      SortedTail(s, key, descending);
      InsertWithKey(x, s[1..], key, descending, k);
      InsertBehindHead(x, s, key, descending, k);
    }
  }

  lemma InsertBehindHead<T>(x: T, s: seq<T>, key: T -> Key, descending: bool, k: Key)
    requires |s| > 0 && !Precedes(key(x), key(s[0]), descending)
    requires WithKey(Insert(x, s[1..], key, descending), key, k)
          == WithKey(s[1..], key, k) + (if key(x) == k then [x] else [])
    ensures WithKey(Insert(x, s, key, descending), key, k)
         == WithKey(s, key, k) + (if key(x) == k then [x] else [])
  {
    var tail := if key(x) == k then [x] else [];
    var t := Insert(x, s[1..], key, descending);
    var head := if key(s[0]) == k then [s[0]] else [];
    var rest := WithKey(s[1..], key, k);
    assert Insert(x, s, key, descending) == [s[0]] + t;
    WithKeyCons(s[0], t, key, k);
    WithKeyCons(s[0], s[1..], key, k);
    assert s == [s[0]] + s[1..];
    ConcatAssoc(head, rest, tail);
  }

  lemma ConcatAssoc<T>(a: seq<T>, b: seq<T>, c: seq<T>)
    ensures a + (b + c) == (a + b) + c
  {
  }

  lemma InsertInFront<T>(x: T, s: seq<T>, key: T -> Key, descending: bool, k: Key)
    requires SortedBy(s, key, descending) && |s| > 0
    requires Precedes(key(x), key(s[0]), descending)
    ensures WithKey(Insert(x, s, key, descending), key, k)
         == WithKey(s, key, k) + (if key(x) == k then [x] else [])
  {
    assert Insert(x, s, key, descending) == [x] + s;
    WithKeyCons(x, s, key, k);
    if key(x) == k {
      KeyBeforeSorted(x, s, key, descending);
      assert [x] + [] == [] + [x];
    } else {
      assert [] + WithKey(s, key, k) == WithKey(s, key, k) + [];
    }
  }

  lemma WithKeyCons<T>(h: T, t: seq<T>, key: T -> Key, k: Key)
    ensures WithKey([h] + t, key, k) == (if key(h) == k then [h] else []) + WithKey(t, key, k)
  {
    assert ([h] + t)[1..] == t;
  }

  /** StableSort orders by the key in the chosen direction, is a permutation
      of its input, and keeps the input order among elements with equal keys. */
  lemma StableSortCorrect<T>(s: seq<T>, key: T -> Key, descending: bool)
    ensures SortedBy(StableSort(s, key, descending), key, descending)
    ensures multiset(StableSort(s, key, descending)) == multiset(s)
    ensures forall k :: WithKey(StableSort(s, key, descending), key, k) == WithKey(s, key, k)
  {
    StableSortSorted(s, key, descending);
    StableSortPermutes(s, key, descending);
    forall k ensures WithKey(StableSort(s, key, descending), key, k) == WithKey(s, key, k) {
      StableSortKeepsTies(s, key, descending, k);
    }
  }

  lemma {:induction false} StableSortSorted<T>(s: seq<T>, key: T -> Key, descending: bool)
    ensures SortedBy(StableSort(s, key, descending), key, descending)
  {
    if |s| > 0 {
      StableSortSorted(s[..|s| - 1], key, descending);
      InsertSorted(s[|s| - 1], StableSort(s[..|s| - 1], key, descending), key, descending);
    }
  }

  lemma {:induction false} StableSortPermutes<T>(s: seq<T>, key: T -> Key, descending: bool)
    ensures multiset(StableSort(s, key, descending)) == multiset(s)
  {
    if |s| > 0 {
      var init, last := s[..|s| - 1], s[|s| - 1];
      StableSortPermutes(init, key, descending);
      MultisetSnoc(s);
    }
  }

  lemma {:induction false} StableSortKeepsTies<T>(s: seq<T>, key: T -> Key, descending: bool, k: Key)
    ensures WithKey(StableSort(s, key, descending), key, k) == WithKey(s, key, k)
  {
    if |s| > 0 {
      var init, last := s[..|s| - 1], s[|s| - 1];
      StableSortKeepsTies(init, key, descending, k);
      StableSortSorted(init, key, descending);
      InsertWithKey(last, StableSort(init, key, descending), key, descending, k);
      WithKeySnoc(s, key, k);
    }
  }

  lemma WithKeySnoc<T>(s: seq<T>, key: T -> Key, k: Key)
    requires |s| > 0
    ensures WithKey(s, key, k) == WithKey(s[..|s| - 1], key, k) + (if key(s[|s| - 1]) == k then [s[|s| - 1]] else [])
  {
    var last := s[|s| - 1];
    WithKeyAppend(s[..|s| - 1], [last], key, k);
    assert WithKey([last], key, k) == (if key(last) == k then [last] else []) + WithKey([last][1..], key, k);
    assert s == s[..|s| - 1] + [last];
  }

  lemma MultisetSnoc<T>(s: seq<T>)
    requires |s| > 0
    ensures multiset(s) == multiset(s[..|s| - 1]) + multiset{s[|s| - 1]}
  {
    assert s == s[..|s| - 1] + [s[|s| - 1]];
  }
}
