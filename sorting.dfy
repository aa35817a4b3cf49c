/**
 * Python's `sorted(xs, key=k)` / `xs.sort(key=k)` for string keys: a stable
 * sort, written as insertion sort. An element is inserted after every element
 * whose key is not greater, so equal keys keep their input order.
 */
module Sorting {
  import opened Text

  predicate SortedBy<T>(s: seq<T>, key: T -> string)
  {
    forall i, j :: 0 <= i < j < |s| ==> LexLe(key(s[i]), key(s[j]))
  }

  /**
   * Four strings are sorted when each one agrees with the next up to some
   * position and has the smaller character there.
   */
  lemma SortedFour(t: seq<string>, k1: nat, k2: nat, k3: nat)
    requires |t| == 4
    requires k1 < |t[0]| && k1 < |t[1]| && t[0][k1] < t[1][k1] && forall i :: 0 <= i < k1 ==> t[0][i] == t[1][i]
    requires k2 < |t[1]| && k2 < |t[2]| && t[1][k2] < t[2][k2] && forall i :: 0 <= i < k2 ==> t[1][i] == t[2][i]
    requires k3 < |t[2]| && k3 < |t[3]| && t[2][k3] < t[3][k3] && forall i :: 0 <= i < k3 ==> t[2][i] == t[3][i]
    ensures SortedBy(t, Itself)
  {
    LexLtAt(t[0], t[1], k1);
    LexLtAt(t[1], t[2], k2);
    LexLtAt(t[2], t[3], k3);
    LexLeTrans(t[0], t[1], t[2]);
    LexLeTrans(t[0], t[2], t[3]);
    LexLeTrans(t[1], t[2], t[3]);
  }

  /** Inserts `x` before the first element whose key is strictly greater. */
  function InsertBy<T>(x: T, s: seq<T>, key: T -> string): (r: seq<T>)
    ensures multiset(r) == multiset(s) + multiset{x}
    ensures |r| == |s| + 1
  {
    if s == [] then [x]
    else if LexLt(key(x), key(s[0])) then [x] + s
    else
      assert s == [s[0]] + s[1..];
      [s[0]] + InsertBy(x, s[1..], key)
  }

  /** No element of `s` has a key below `lo`. */
  predicate KeysFrom<T>(s: seq<T>, key: T -> string, lo: string)
  {
    forall j :: 0 <= j < |s| ==> LexLe(lo, key(s[j]))
  }

  /** A sorted sequence stays sorted behind an element whose key bounds all of its keys. */
  lemma SortedCons<T>(x: T, s: seq<T>, key: T -> string)
    requires SortedBy(s, key) && KeysFrom(s, key, key(x))
    ensures SortedBy([x] + s, key)
  {
    var r := [x] + s;
    forall i, j | 0 <= i < j < |r| ensures LexLe(key(r[i]), key(r[j])) {
      assert r[j] == s[j - 1];
      if i > 0 {
        assert r[i] == s[i - 1];
      }
    }
  }

  lemma KeysFromCons<T>(x: T, s: seq<T>, key: T -> string, lo: string)
    requires LexLe(lo, key(x)) && KeysFrom(s, key, lo)
    ensures KeysFrom([x] + s, key, lo)
  {
    forall j | 0 < j < |s| + 1 ensures LexLe(lo, key(([x] + s)[j])) {
      assert ([x] + s)[j] == s[j - 1];
    }
  }

  lemma KeysFromTail<T>(s: seq<T>, key: T -> string, lo: string)
    requires s != [] && KeysFrom(s, key, lo)
    ensures LexLe(lo, key(s[0])) && KeysFrom(s[1..], key, lo)
  {
    forall j | 0 <= j < |s| - 1 ensures LexLe(lo, key(s[1..][j])) {
      assert s[1..][j] == s[j + 1];
    }
  }

  /** Inserting keeps a lower bound that `x` and all of `s` respect. */
  lemma {:induction false} InsertByKeysFrom<T>(x: T, s: seq<T>, key: T -> string, lo: string)
    requires LexLe(lo, key(x)) && KeysFrom(s, key, lo)
    ensures KeysFrom(InsertBy(x, s, key), key, lo)
  {
    if s == [] || LexLt(key(x), key(s[0])) {
      KeysFromCons(x, s, key, lo);
    } else {
      KeysFromTail(s, key, lo);
      InsertByKeysFrom(x, s[1..], key, lo);
      KeysFromCons(s[0], InsertBy(x, s[1..], key), key, lo);
    }
  }

  lemma {:induction false} InsertBySorted<T>(x: T, s: seq<T>, key: T -> string)
    requires SortedBy(s, key)
    ensures SortedBy(InsertBy(x, s, key), key)
  {
    if s != [] {
      if LexLt(key(x), key(s[0])) {
        forall j | 0 <= j < |s| ensures LexLe(key(x), key(s[j])) {
          if j > 0 {
            LexLeTrans(key(x), key(s[0]), key(s[j]));
          }
        }
        SortedCons(x, s, key);
      } else {
        LexLeTotal(key(x), key(s[0]));
        var tail := s[1..];
        assert SortedBy(tail, key);
        InsertBySorted(x, tail, key);
        assert KeysFrom(tail, key, key(s[0])) by {
          forall j | 0 <= j < |tail| ensures LexLe(key(s[0]), key(tail[j])) {
            assert tail[j] == s[j + 1];
          }
        }
        InsertByKeysFrom(x, tail, key, key(s[0]));
        SortedCons(s[0], InsertBy(x, tail, key), key);
      }
    }
  }

  /** Stable sort of `s` by `key`, inserting the elements front to back. */
  function SortBy<T>(s: seq<T>, key: T -> string): (r: seq<T>)
    ensures multiset(r) == multiset(s)
    ensures |r| == |s|
  {
    if s == [] then []
    else
      assert s == s[..|s| - 1] + [s[|s| - 1]];
      InsertBy(s[|s| - 1], SortBy(s[..|s| - 1], key), key)
  }

  lemma {:induction false} SortBySorted<T>(s: seq<T>, key: T -> string)
    ensures SortedBy(SortBy(s, key), key)
  {
    if s != [] {
      SortBySorted(s[..|s| - 1], key);
      InsertBySorted(s[|s| - 1], SortBy(s[..|s| - 1], key), key);
    }
  }

  /** Identity key, for sorting strings themselves. */
  function Itself(s: string): string
  {
    s
  }

  /** The elements of `s` whose key is `k`, in their order in `s`. */
  function KeyRun<T>(s: seq<T>, key: T -> string, k: string): seq<T>
  {
    if s == [] then []
    else (if key(s[0]) == k then [s[0]] else []) + KeyRun(s[1..], key, k)
  }

  lemma {:induction false} KeyRunMembers<T>(s: seq<T>, key: T -> string, k: string)
    ensures forall i :: 0 <= i < |KeyRun(s, key, k)| ==> KeyRun(s, key, k)[i] in s && key(KeyRun(s, key, k)[i]) == k
    ensures forall i :: 0 <= i < |s| && key(s[i]) == k ==> s[i] in KeyRun(s, key, k)
  {
    if s != [] {
      KeyRunMembers(s[1..], key, k);
      forall i | 0 <= i < |s| && key(s[i]) == k ensures s[i] in KeyRun(s, key, k) {
        if i > 0 {
          assert s[i] == s[1..][i - 1];
        }
      }
    }
  }

  lemma {:induction false} KeyRunAppend<T>(s: seq<T>, t: seq<T>, key: T -> string, k: string)
    ensures KeyRun(s + t, key, k) == KeyRun(s, key, k) + KeyRun(t, key, k)
  {
    if s == [] {
      assert s + t == t;
    } else {
      var head := if key(s[0]) == k then [s[0]] else [];
      assert (s + t)[0] == s[0];
      assert (s + t)[1..] == s[1..] + t;
      assert KeyRun(s + t, key, k) == head + KeyRun(s[1..] + t, key, k);
      KeyRunAppend(s[1..], t, key, k);
      assert KeyRun(s, key, k) == head + KeyRun(s[1..], key, k);
    }
  }

  lemma KeyRunSingle<T>(x: T, key: T -> string, k: string)
    ensures KeyRun([x], key, k) == if key(x) == k then [x] else []
  {
    assert [x][1..] == [];
  }

  /** In a sorted sequence no element has a key smaller than the first one. */
  lemma {:induction false} KeyRunBelowFirst<T>(s: seq<T>, key: T -> string, k: string)
    requires SortedBy(s, key) && s != [] && LexLt(k, key(s[0]))
    ensures KeyRun(s, key, k) == []
  {
    if key(s[0]) == k {
      assert false;
    }
    if |s| > 1 {
      assert SortedBy(s[1..], key);
      LexLeTrans(k, key(s[0]), key(s[1]));
      if key(s[1]) == k {
        LexLeAntisym(k, key(s[0]));
      }
      KeyRunBelowFirst(s[1..], key, k);
    }
  }

  /** Inserting into a sorted sequence puts `x` after every element with the same key. */
  lemma {:induction false} InsertByKeyRun<T>(x: T, s: seq<T>, key: T -> string, k: string)
    requires SortedBy(s, key)
    ensures KeyRun(InsertBy(x, s, key), key, k) == KeyRun(s, key, k) + (if key(x) == k then [x] else [])
  {
    KeyRunSingle(x, key, k);
    if s == [] {
    } else if LexLt(key(x), key(s[0])) {
      InsertBeforeKeyRun(x, s, key, k);
    } else {
      assert SortedBy(s[1..], key);
      InsertByKeyRun(x, s[1..], key, k);
      InsertAfterKeyRun(x, s, key, k);
    }
  }

  /** `x` goes behind the first element, so that element's run entry stays in front. */
  lemma InsertAfterKeyRun<T>(x: T, s: seq<T>, key: T -> string, k: string)
    requires s != [] && !LexLt(key(x), key(s[0]))
    requires KeyRun(InsertBy(x, s[1..], key), key, k) == KeyRun(s[1..], key, k) + (if key(x) == k then [x] else [])
    ensures KeyRun(InsertBy(x, s, key), key, k) == KeyRun(s, key, k) + (if key(x) == k then [x] else [])
  {
    var single := if key(x) == k then [x] else [];
    var head := if key(s[0]) == k then [s[0]] else [];
    var ins := InsertBy(x, s[1..], key);
    calc {
      KeyRun(InsertBy(x, s, key), key, k);
      KeyRun([s[0]] + ins, key, k);
      { KeyRunAppend([s[0]], ins, key, k); KeyRunSingle(s[0], key, k); }
      head + KeyRun(ins, key, k);
      head + (KeyRun(s[1..], key, k) + single);
      { AppendAssoc(head, KeyRun(s[1..], key, k), single); }
      (head + KeyRun(s[1..], key, k)) + single;
      { assert KeyRun(s, key, k) == head + KeyRun(s[1..], key, k); }
      KeyRun(s, key, k) + single;
    }
  }

  /** `x` goes in front of a sorted sequence whose first key is greater. */
  lemma InsertBeforeKeyRun<T>(x: T, s: seq<T>, key: T -> string, k: string)
    requires SortedBy(s, key) && s != [] && LexLt(key(x), key(s[0]))
    ensures KeyRun([x] + s, key, k) == KeyRun(s, key, k) + (if key(x) == k then [x] else [])
  {
    KeyRunAppend([x], s, key, k);
    KeyRunSingle(x, key, k);
    if key(x) == k {
      KeyRunBelowFirst(s, key, k);
    }
  }

  lemma AppendAssoc<T>(a: seq<T>, b: seq<T>, c: seq<T>)
    ensures a + (b + c) == (a + b) + c
  {
  }

  lemma KeyRunSnoc<T>(s: seq<T>, x: T, key: T -> string, k: string)
    ensures KeyRun(s + [x], key, k) == KeyRun(s, key, k) + (if key(x) == k then [x] else [])
  {
    KeyRunAppend(s, [x], key, k);
    KeyRunSingle(x, key, k);
  }

  /** Stability: sorting keeps the relative order of the elements of every key. */
  lemma {:induction false} SortByStable<T>(s: seq<T>, key: T -> string, k: string)
    ensures KeyRun(SortBy(s, key), key, k) == KeyRun(s, key, k)
  {
    if s != [] {
      var init := s[..|s| - 1];
      var last := s[|s| - 1];
      var sorted := SortBy(init, key);
      SortBySorted(init, key);
      calc {
        KeyRun(SortBy(s, key), key, k);
        KeyRun(InsertBy(last, sorted, key), key, k);
        { InsertByKeyRun(last, sorted, key, k); }
        KeyRun(sorted, key, k) + (if key(last) == k then [last] else []);
        { SortByStable(init, key, k); }
        KeyRun(init, key, k) + (if key(last) == k then [last] else []);
        { KeyRunSnoc(init, last, key, k); }
        KeyRun(init + [last], key, k);
        { assert init + [last] == s; }
        KeyRun(s, key, k);
      }
    }
  }
}
