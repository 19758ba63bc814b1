/**
 * Kotlin's `sortedWith(compareBy(first, second))` on a list: a STABLE sort
 * by a two-part key compared lexicographically. The sort is written as an
 * insertion sort; an element is inserted in front of every element it ties
 * with that came later in the input, so equal keys keep input order.
 *
 * The key is a parameter, so nothing here depends on how it is computed.
 */
module StableSort {

  /** The values of the two selectors given to `compareBy`. */
  datatype Key = Key(first: real, second: int)

  /** `compareBy(first, second)` says `a` does not come after `b`. */
  predicate KeyLe(a: Key, b: Key) {
    a.first < b.first || (a.first == b.first && a.second <= b.second)
  }

  /** `compareBy(first, second)` says `a` comes strictly before `b`. */
  predicate KeyLt(a: Key, b: Key) {
    a.first < b.first || (a.first == b.first && a.second < b.second)
  }

  lemma KeyLeTransitive(a: Key, b: Key, c: Key)
    requires KeyLe(a, b) && KeyLe(b, c)
    ensures KeyLe(a, c)
  {
  }

  /** The key can be computed for every element of `s`. */
  ghost predicate Keyed<T>(s: seq<T>, key: T --> Key) {
    forall i :: 0 <= i < |s| ==> key.requires(s[i])
  }

  /** Inserts `x` in front of the first element it does not compare after. */
  function Insert<T>(x: T, sorted: seq<T>, key: T --> Key): (r: seq<T>)
    requires key.requires(x) && Keyed(sorted, key)
    ensures Keyed(r, key) && |r| == |sorted| + 1
    ensures multiset(r) == multiset(sorted) + multiset{x}
  {
    if sorted == [] || KeyLe(key(x), key(sorted[0])) then [x] + sorted
    else
      assert sorted == [sorted[0]] + sorted[1..];
      [sorted[0]] + Insert(x, sorted[1..], key)
  }

  /** `s.sortedWith(compareBy(...))`. */
  function SortedWith<T>(s: seq<T>, key: T --> Key): (r: seq<T>)
    requires Keyed(s, key)
    ensures Keyed(r, key) && |r| == |s|
    ensures multiset(r) == multiset(s)
  {
    if s == [] then []
    else
      assert s == [s[0]] + s[1..];
      Insert(s[0], SortedWith(s[1..], key), key)
  }

  ghost predicate Ordered<T>(s: seq<T>, key: T --> Key)
    requires Keyed(s, key)
  {
    forall i, j :: 0 <= i < j < |s| ==> KeyLe(key(s[i]), key(s[j]))
  }

  lemma {:induction false} InsertOrdered<T>(x: T, sorted: seq<T>, key: T --> Key)
    requires key.requires(x) && Keyed(sorted, key) && Ordered(sorted, key)
    ensures Ordered(Insert(x, sorted, key), key)
  {
    if sorted == [] || KeyLe(key(x), key(sorted[0])) {
      var r := [x] + sorted;
      forall i, j | 0 <= i < j < |r| ensures KeyLe(key(r[i]), key(r[j])) {
        if i == 0 && j > 1 {
          KeyLeTransitive(key(x), key(sorted[0]), key(sorted[j - 1]));
        }
      }
    } else {
      InsertOrdered(x, sorted[1..], key);
      var rest := Insert(x, sorted[1..], key);
      var r := [sorted[0]] + rest;
      forall j | 0 <= j < |rest| ensures KeyLe(key(sorted[0]), key(rest[j])) {
        assert rest[j] in multiset(rest);
        if rest[j] == x {
        } else {
          assert rest[j] in multiset(sorted[1..]);
          var k :| 0 <= k < |sorted[1..]| && sorted[1..][k] == rest[j];
          assert sorted[k + 1] == rest[j];
        }
      }
      forall i, j | 0 <= i < j < |r| ensures KeyLe(key(r[i]), key(r[j])) {
        if i == 0 {
          assert r[j] == rest[j - 1];
        } else {
          assert r[i] == rest[i - 1] && r[j] == rest[j - 1];
        }
      }
    }
  }

  lemma InsertHead<T>(x: T, sorted: seq<T>, key: T --> Key)
    requires key.requires(x) && Keyed(sorted, key) && sorted != []
    ensures Insert(x, sorted, key)[0] == if KeyLe(key(x), key(sorted[0])) then x else sorted[0]
  {
  }

  /** The result of the sort is ordered by the key. */
  lemma {:induction false} SortedWithIsOrdered<T>(s: seq<T>, key: T --> Key)
    requires Keyed(s, key)
    ensures Ordered(SortedWith(s, key), key)
  {
    if s != [] {
      SortedWithIsOrdered(s[1..], key);
      InsertOrdered(s[0], SortedWith(s[1..], key), key);
    }
  }

  /**
   * One step of the head argument, on the input alone: if `s[k + 1]` is the
   * earliest least element of `s[1..]`, then the earliest least element of
   * `s` is `s[0]` when it does not compare after `s[k + 1]`, and `s[k + 1]`
   * otherwise.
   */
  lemma EarliestLeastStep<T>(s: seq<T>, key: T --> Key, k: nat) returns (i: nat)
    requires Keyed(s, key) && k + 1 < |s|
    requires forall j :: 1 <= j < k + 1 ==> KeyLt(key(s[k + 1]), key(s[j]))
    requires forall j :: k + 1 <= j < |s| ==> KeyLe(key(s[k + 1]), key(s[j]))
    ensures i == if KeyLe(key(s[0]), key(s[k + 1])) then 0 else k + 1
    ensures forall j :: 0 <= j < i ==> KeyLt(key(s[i]), key(s[j]))
    ensures forall j :: i <= j < |s| ==> KeyLe(key(s[i]), key(s[j]))
  {
    if KeyLe(key(s[0]), key(s[k + 1])) {
      i := 0;
      forall j | 0 <= j < |s| ensures KeyLe(key(s[0]), key(s[j])) {
        if j > k + 1 {
          KeyLeTransitive(key(s[0]), key(s[k + 1]), key(s[j]));
        } else if 0 < j <= k {
          assert KeyLt(key(s[k + 1]), key(s[j]));
        }
      }
    } else {
      i := k + 1;
    }
  }

  /**
   * Stability, as it shows at the head: the first element of the sorted
   * list is the EARLIEST input element with the smallest key. Every element
   * before it compares strictly after it; no element from it on compares
   * before it.
   */
  lemma {:induction false} SortedWithHeadIsEarliestLeast<T>(s: seq<T>, key: T --> Key) returns (i: nat)
    requires Keyed(s, key) && s != []
    ensures i < |s| && SortedWith(s, key)[0] == s[i]
    ensures forall j :: 0 <= j < i ==> KeyLt(key(s[i]), key(s[j]))
    ensures forall j :: i <= j < |s| ==> KeyLe(key(s[i]), key(s[j]))
  {
    if |s| == 1 {
      i := 0;
    } else {
      var rest := s[1..];
      var k := SortedWithHeadIsEarliestLeast(rest, key);
      var restSorted := SortedWith(rest, key);
      assert SortedWith(s, key) == Insert(s[0], restSorted, key);
      InsertHead(s[0], restSorted, key);
      assert forall j :: 1 <= j < |s| ==> s[j] == rest[j - 1];
      i := EarliestLeastStep(s, key, k);
    }
  }
}
