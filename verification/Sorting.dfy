/** Sorting by a numeric key, as the library sort the analysis relies on: stable insertion. */
module Sorting {
  ghost predicate SortedBy<T>(key: T -> int, s: seq<T>) {
    forall i, j | 0 <= i < j < |s| :: key(s[i]) <= key(s[j])
  }

  ghost predicate StrictlySortedBy<T>(key: T -> int, s: seq<T>) {
    forall i, j | 0 <= i < j < |s| :: key(s[i]) < key(s[j])
  }

  ghost predicate Distinct<T>(key: T -> int, s: seq<T>) {
    forall i, j | 0 <= i < j < |s| :: key(s[i]) != key(s[j])
  }

  lemma DistinctAppend<T>(key: T -> int, s: seq<T>, x: T)
    requires Distinct(key, s) && forall y | y in s :: key(y) != key(x)
    ensures Distinct(key, s + [x])
  {
    forall i, j | 0 <= i < j < |s + [x]| ensures key((s + [x])[i]) != key((s + [x])[j]) {
      assert (s + [x])[i] == s[i] && s[i] in s;
    }
  }

  function InsertBy<T>(key: T -> int, x: T, s: seq<T>): seq<T> {
    if s == [] || key(x) <= key(s[0]) then [x] + s else [s[0]] + InsertBy(key, x, s[1..])
  }

  function SortBy<T>(key: T -> int, s: seq<T>): seq<T> {
    if s == [] then [] else InsertBy(key, s[0], SortBy(key, s[1..]))
  }

  lemma {:induction false} InsertByElements<T>(key: T -> int, x: T, s: seq<T>)
    ensures multiset(InsertBy(key, x, s)) == multiset(s) + multiset{x}
  {
    if s != [] && key(s[0]) < key(x) {
      InsertByElements(key, x, s[1..]);
      assert s == [s[0]] + s[1..];
    }
  }

  lemma {:induction false} InsertByCorrect<T>(key: T -> int, x: T, s: seq<T>)
    requires SortedBy(key, s)
    ensures SortedBy(key, InsertBy(key, x, s))
  {
    if s != [] && key(s[0]) < key(x) {
      InsertByCorrect(key, x, s[1..]);
      InsertByElements(key, x, s[1..]);
      var r := InsertBy(key, x, s[1..]);
      forall j | 0 <= j < |r| ensures key(s[0]) <= key(r[j]) {
        assert r[j] in multiset(r);
        assert r[j] == x || r[j] in s[1..];
      }
    }
  }

  lemma {:induction false} SortByCorrect<T>(key: T -> int, s: seq<T>)
    ensures SortedBy(key, SortBy(key, s))
    ensures multiset(SortBy(key, s)) == multiset(s)
  {
    if s != [] {
      SortByCorrect(key, s[1..]);
      InsertByCorrect(key, s[0], SortBy(key, s[1..]));
      InsertByElements(key, s[0], SortBy(key, s[1..]));
      assert s == [s[0]] + s[1..];
    }
  }

  /** Sorting keeps the elements; distinct keys come out strictly increasing. */
  lemma SortByElements<T>(key: T -> int, s: seq<T>)
    ensures |SortBy(key, s)| == |s| && SortedBy(key, SortBy(key, s))
    ensures forall x :: x in SortBy(key, s) <==> x in s
    ensures Distinct(key, s) ==> StrictlySortedBy(key, SortBy(key, s))
  {
    var t := SortBy(key, s);
    SortByCorrect(key, s);
    assert |multiset(t)| == |t| && |multiset(s)| == |s|;
    forall x ensures x in t <==> x in s {
      assert x in t <==> x in multiset(t);
      assert x in s <==> x in multiset(s);
    }
    if Distinct(key, s) {
      forall i, j | 0 <= i < j < |t| ensures key(t[i]) < key(t[j]) {
        if key(t[i]) == key(t[j]) {
          TwiceInSorted(key, s, i, j);
        }
      }
    }
  }

  /** Two positions of the sorted sequence with one key come from two positions of the input with one key. */
  lemma TwiceInSorted<T>(key: T -> int, s: seq<T>, i: nat, j: nat)
    requires i < j < |SortBy(key, s)| && key(SortBy(key, s)[i]) == key(SortBy(key, s)[j])
    ensures !Distinct(key, s)
  {
    var t := SortBy(key, s);
    SortByCorrect(key, s);
    hide SortBy, SortedBy;
    var x, y := t[i], t[j];
    assert x in multiset(t) && y in multiset(t);
    assert x in s && y in s;
    if x != y {
      var p :| 0 <= p < |s| && s[p] == x;
      var q :| 0 <= q < |s| && s[q] == y;
      assert p != q;
    } else {
      CountsTwo(t, i, j);
      OccursTwice(s, x);
    }
  }

  lemma CountsTwo<T>(t: seq<T>, i: nat, j: nat)
    requires i < j < |t| && t[i] == t[j]
    ensures multiset(t)[t[i]] >= 2
  {
    var low, high := t[..j], t[j..];
    assert t == low + high;
    assert low[i] in multiset(low) && high[0] in multiset(high);
    assert multiset(t) == multiset(low) + multiset(high);
  }

  lemma OccursTwice<T>(s: seq<T>, x: T)
    requires multiset(s)[x] >= 2
    ensures exists p, q | 0 <= p < q < |s| :: s[p] == x && s[q] == x
  {
    assert x in multiset(s);
    var p :| 0 <= p < |s| && s[p] == x;
    assert s == s[..p] + [x] + s[p+1..];
    var rest := s[..p] + s[p+1..];
    assert multiset(s) == multiset(rest) + multiset{x};
    assert x in multiset(rest);
    var q :| 0 <= q < |rest| && rest[q] == x;
    var q' := if q < p then q else q + 1;
    assert s[q'] == x && q' != p;
    if q' < p { assert s[q'] == x && s[p] == x; }
  }

  ghost predicate Ascends(s: seq<nat>) { forall i, j | 0 <= i < j < |s| :: s[i] < s[j] }

  /** A set has one ascending enumeration. */
  lemma {:induction false} OnlyOrder(a: seq<nat>, b: seq<nat>)
    requires Ascends(a) && Ascends(b) && (forall x :: x in a <==> x in b)
    ensures a == b
  {
    assert a != [] ==> a[0] in a;
    assert b != [] ==> b[0] in b;
    if a != [] && b != [] {
      var n, k := |a| - 1, |b| - 1;
      assert a[n] in b && b[k] in a;
      assert a[n] == b[k];
      forall x ensures x in a[..n] <==> x in b[..k] {
        assert x in a <==> x in a[..n] || x == a[n];
        assert x in b <==> x in b[..k] || x == b[k];
      }
      OnlyOrder(a[..n], b[..k]);
    }
  }
}
