/**
 * Byte-wise ordering of entry names and the stable sort that `Vec::sort_by`
 * performs on `DirUnit.infos` (src/dirfs.rs:223-228).  Rust compares two
 * `String`s by their UTF-8 bytes, which orders them exactly as comparing
 * their code points one by one; that is what `NameLe` does on `seq<char>`.
 */
module NameSort {

  /** `a <= b` in lexicographic code-point order (a prefix sorts first). */
  predicate NameLe(a: string, b: string)
    decreases |a|
  {
    if a == [] then true
    else if b == [] then false
    else if a[0] != b[0] then a[0] < b[0]
    else NameLe(a[1..], b[1..])
  }

  lemma {:induction false} NameLeTotal(a: string, b: string)
    ensures NameLe(a, b) || NameLe(b, a)
    decreases |a|
  {
    if a != [] && b != [] && a[0] == b[0] {
      NameLeTotal(a[1..], b[1..]);
    }
  }

  lemma {:induction false} NameLeTransitive(a: string, b: string, c: string)
    requires NameLe(a, b) && NameLe(b, c)
    ensures NameLe(a, c)
    decreases |a|
  {
    if a != [] && b != [] && c != [] && a[0] == b[0] && b[0] == c[0] {
      NameLeTransitive(a[1..], b[1..], c[1..]);
    }
  }

  /** Items are sorted by the key `key`, in non-decreasing order. */
  ghost predicate SortedBy<T>(s: seq<T>, key: T -> string)
  {
    forall i, j :: 0 <= i < j < |s| ==> NameLe(key(s[i]), key(s[j]))
  }

  /**
   * Insert `x` into the sorted `t` in front of the first element whose key
   * is strictly greater, so that `x` lands after every equal key (stability).
   */
  function Insert<T>(x: T, t: seq<T>, key: T -> string): (r: seq<T>)
    ensures |r| == |t| + 1
    ensures multiset(r) == multiset(t) + multiset{x}
  {
    if t == [] then [x]
    else if !NameLe(key(t[0]), key(x)) then [x] + t
    else
      assert t == [t[0]] + t[1..];
      [t[0]] + Insert(x, t[1..], key)
  }

  /** Position at which `Insert` places `x`. */
  function InsertPos<T>(x: T, t: seq<T>, key: T -> string): (k: nat)
    ensures k <= |t|
  {
    if t == [] || !NameLe(key(t[0]), key(x)) then 0
    else 1 + InsertPos(x, t[1..], key)
  }

  /**
   * Insertion never reorders the elements already present: the result is
   * `t` with `x` spliced in at one position.
   */
  lemma {:induction false} InsertSplices<T>(x: T, t: seq<T>, key: T -> string)
    ensures Insert(x, t, key) == t[..InsertPos(x, t, key)] + [x] + t[InsertPos(x, t, key)..]
  {
    if t != [] && NameLe(key(t[0]), key(x)) {
      InsertSplices(x, t[1..], key);
      assert t == [t[0]] + t[1..];
    }
  }

  lemma {:induction false} InsertSorted<T>(x: T, t: seq<T>, key: T -> string)
    requires SortedBy(t, key)
    ensures SortedBy(Insert(x, t, key), key)
  {
    if t == [] {
    } else if !NameLe(key(t[0]), key(x)) {
      NameLeTotal(key(t[0]), key(x));
      var r := [x] + t;
      forall i, j | 0 <= i < j < |r| ensures NameLe(key(r[i]), key(r[j])) {
        if i == 0 && j > 1 {
          NameLeTransitive(key(x), key(t[0]), key(t[j - 1]));
        }
      }
    } else {
      var rest := Insert(x, t[1..], key);
      InsertSorted(x, t[1..], key);
      var r := [t[0]] + rest;
      forall i, j | 0 <= i < j < |r| ensures NameLe(key(r[i]), key(r[j])) {
        if i == 0 {
          var y := rest[j - 1];
          assert y in multiset(rest);
          assert y == x || y in multiset(t[1..]);
          if y != x {
            var m :| 0 <= m < |t[1..]| && t[1..][m] == y;
            assert t[m + 1] == y;
          }
        }
      }
    }
  }

  /** `Insert` appends when `x` sorts at or after every element of `t`. */
  lemma {:induction false} InsertAtEnd<T>(x: T, t: seq<T>, key: T -> string)
    requires forall i :: 0 <= i < |t| ==> NameLe(key(t[i]), key(x))
    ensures Insert(x, t, key) == t + [x]
  {
    if t != [] {
      InsertAtEnd(x, t[1..], key);
      assert t == [t[0]] + t[1..];
    }
  }

  /** Stable sort by key: insertion of each element, left to right. */
  function SortBy<T>(s: seq<T>, key: T -> string): (r: seq<T>)
    ensures |r| == |s|
    ensures multiset(r) == multiset(s)
  {
    if s == [] then []
    else
      assert s == s[..|s| - 1] + [s[|s| - 1]];
      Insert(s[|s| - 1], SortBy(s[..|s| - 1], key), key)
  }

  lemma {:induction false} SortBySorted<T>(s: seq<T>, key: T -> string)
    ensures SortedBy(SortBy(s, key), key)
  {
    if s != [] {
      SortBySorted(s[..|s| - 1], key);
      InsertSorted(s[|s| - 1], SortBy(s[..|s| - 1], key), key);
    }
  }

  /** Sorting a sequence that is already sorted changes nothing. */
  lemma {:induction false} SortByOfSorted<T>(s: seq<T>, key: T -> string)
    requires SortedBy(s, key)
    ensures SortBy(s, key) == s
  {
    if s != [] {
      var init := s[..|s| - 1];
      assert SortedBy(init, key);
      SortByOfSorted(init, key);
      InsertAtEnd(s[|s| - 1], init, key);
      assert init + [s[|s| - 1]] == s;
    }
  }

  /**
   * Appending one element to a sorted sequence and re-sorting is the
   * merge-insert of that element: earlier elements keep their relative order.
   */
  lemma SortAfterAppend<T>(t: seq<T>, x: T, key: T -> string)
    requires SortedBy(t, key)
    ensures SortBy(t + [x], key) == Insert(x, t, key)
    ensures SortBy(t + [x], key) == t[..InsertPos(x, t, key)] + [x] + t[InsertPos(x, t, key)..]
  {
    assert (t + [x])[..|t|] == t;
    SortByOfSorted(t, key);
    InsertSplices(x, t, key);
  }
}
