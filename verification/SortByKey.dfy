/**
  Sorting by a key made of strings, as `sort.Slice` does with a comparison of fields: the result is ordered, and nothing
  else is promised about entries of equal key.
 */
module SortByKey {

  /** Lexicographic order on strings, character by character. */
  predicate StrLess(a: string, b: string) {
    b != "" && (a == "" || a[0] < b[0] || (a[0] == b[0] && StrLess(a[1..], b[1..])))
  }

  /** Lexicographic order on lists of strings: the first field that differs decides. */
  predicate KeyLess(a: seq<string>, b: seq<string>) {
    b != [] && (a == [] || StrLess(a[0], b[0]) || (a[0] == b[0] && KeyLess(a[1..], b[1..])))
  }

  lemma {:induction false} StrTotal(a: string, b: string)
    ensures StrLess(a, b) || a == b || StrLess(b, a)
    ensures !(StrLess(a, b) && StrLess(b, a)) && !StrLess(a, a)
  {
    if a != "" && b != "" {
      StrTotal(a[1..], b[1..]);
      StrTotal(a[1..], a[1..]);
      assert a == [a[0]] + a[1..] && b == [b[0]] + b[1..];
    } else if a != "" {
      StrTotal(a[1..], a[1..]);
    }
  }

  lemma {:induction false} StrTransitive(a: string, b: string, c: string)
    requires StrLess(a, b) && StrLess(b, c)
    ensures StrLess(a, c)
  {
    if a != "" && a[0] == b[0] && b[0] == c[0] {
      StrTransitive(a[1..], b[1..], c[1..]);
    }
  }

  lemma {:induction false} KeyTotal(a: seq<string>, b: seq<string>)
    ensures KeyLess(a, b) || a == b || KeyLess(b, a)
    ensures !(KeyLess(a, b) && KeyLess(b, a)) && !KeyLess(a, a)
  {
    hide StrLess;
    if a != [] {
      StrTotal(a[0], a[0]);
      KeyTotal(a[1..], a[1..]);
      if b != [] {
        StrTotal(a[0], b[0]);
        KeyTotal(a[1..], b[1..]);
        assert a == [a[0]] + a[1..] && b == [b[0]] + b[1..];
      }
    }
  }

  lemma {:induction false} KeyTransitive(a: seq<string>, b: seq<string>, c: seq<string>)
    requires KeyLess(a, b) && KeyLess(b, c)
    ensures KeyLess(a, c)
  {
    hide StrLess;
    if a != [] {
      if StrLess(a[0], b[0]) && StrLess(b[0], c[0]) {
        StrTransitive(a[0], b[0], c[0]);
      } else if a[0] == b[0] && b[0] == c[0] {
        KeyTransitive(a[1..], b[1..], c[1..]);
      }
    }
  }

  // ----- sorted lists

  ghost predicate Sorted<T>(s: seq<T>, key: T -> seq<string>) {
    forall i, j :: 0 <= i < j < |s| ==> !KeyLess(key(s[j]), key(s[i]))
  }

  /** `out` is a sorted copy of `s`: what `sort.Slice` guarantees. */
  ghost predicate SortedCopy<T>(out: seq<T>, s: seq<T>, key: T -> seq<string>) {
    Sorted(out, key) && multiset(out) == multiset(s)
  }

  function Insert<T>(s: seq<T>, x: T, key: T -> seq<string>): seq<T> {
    if s == [] then [x]
    else if !KeyLess(key(x), key(s[|s| - 1])) then s + [x]
    else Insert(s[..|s| - 1], x, key) + [s[|s| - 1]]
  }

  /** One sorted copy. */
  function Sort<T>(s: seq<T>, key: T -> seq<string>): seq<T> {
    if s == [] then [] else Insert(Sort(s[..|s| - 1], key), s[|s| - 1], key)
  }

  ghost predicate NotAbove<T>(s: seq<T>, k: seq<string>, key: T -> seq<string>) {
    forall i :: 0 <= i < |s| ==> !KeyLess(k, key(s[i]))
  }

  lemma {:induction false} InsertNotAbove<T>(s: seq<T>, x: T, k: seq<string>, key: T -> seq<string>)
    requires NotAbove(s, k, key) && !KeyLess(k, key(x))
    ensures NotAbove(Insert(s, x, key), k, key)
  {
    hide KeyLess;
    if s != [] && KeyLess(key(x), key(s[|s| - 1])) {
      InsertNotAbove(s[..|s| - 1], x, k, key);
    }
  }

  lemma SortedSnoc<T>(s: seq<T>, x: T, key: T -> seq<string>)
    requires Sorted(s, key) && NotAbove(s, key(x), key)
    ensures Sorted(s + [x], key)
  {
    hide KeyLess;
  }

  lemma {:induction false} InsertSorted<T>(s: seq<T>, x: T, key: T -> seq<string>)
    requires Sorted(s, key)
    ensures Sorted(Insert(s, x, key), key)
    ensures multiset(Insert(s, x, key)) == multiset(s) + multiset{x}
  {
    hide KeyLess;
    if s != [] {
      var k := |s| - 1;
      var last := s[k];
      assert s == s[..k] + [last];
      if KeyLess(key(x), key(last)) {
        InsertSorted(s[..k], x, key);
        KeyTotal(key(x), key(last));
        InsertNotAbove(s[..k], x, key(last), key);
        SortedSnoc(Insert(s[..k], x, key), last, key);
      } else {
        forall i | 0 <= i < |s| ensures !KeyLess(key(x), key(s[i])) {
          if i < k && KeyLess(key(x), key(s[i])) {
            BelowLast(key(x), key(s[i]), key(last));
          }
        }
        SortedSnoc(s, x, key);
      }
    }
  }

  lemma BelowLast(x: seq<string>, a: seq<string>, last: seq<string>)
    requires KeyLess(x, a) && !KeyLess(last, a)
    ensures KeyLess(x, last)
  {
    KeyTotal(a, last);
    if KeyLess(a, last) {
      KeyTransitive(x, a, last);
    }
  }

  lemma {:induction false} SortIsSortedCopy<T>(s: seq<T>, key: T -> seq<string>)
    ensures SortedCopy(Sort(s, key), s, key)
  {
    hide Insert;
    if s != [] {
      var k := |s| - 1;
      SortIsSortedCopy(s[..k], key);
      InsertSorted(Sort(s[..k], key), s[k], key);
      assert s == s[..k] + [s[k]];
    }
  }

  // ----- when the sorted copy is determined

  /** Entries of equal key are equal. */
  ghost predicate KeysDetermine<T>(s: seq<T>, key: T -> seq<string>) {
    forall x, y :: x in s && y in s && key(x) == key(y) ==> x == y
  }

  lemma {:induction false} SortedCopyUnique<T>(x: seq<T>, y: seq<T>, key: T -> seq<string>)
    requires Sorted(x, key) && Sorted(y, key) && multiset(x) == multiset(y) && KeysDetermine(x, key)
    ensures x == y
    decreases |x|
  {
    hide KeyLess, Sorted, KeysDetermine;
    SameLength(x, y);
    if x != [] {
      var k := |x| - 1;
      LastsEqual(x, y, key);
      DropLast(x, key);
      DropLast(y, key);
      SortedCopyUnique(x[..k], y[..k], key);
      assert x == x[..k] + [x[k]] && y == y[..k] + [y[k]];
    }
  }

  lemma SameLength<T>(x: seq<T>, y: seq<T>)
    requires multiset(x) == multiset(y)
    ensures |x| == |y|
  {
    assert |multiset(x)| == |x| && |multiset(y)| == |y|;
  }

  lemma DropLast<T>(x: seq<T>, key: T -> seq<string>)
    requires x != []
    ensures multiset(x[..|x| - 1]) == multiset(x) - multiset{x[|x| - 1]}
    ensures Sorted(x, key) ==> Sorted(x[..|x| - 1], key)
    ensures KeysDetermine(x, key) ==> KeysDetermine(x[..|x| - 1], key)
  {
    hide KeyLess;
    var k := |x| - 1;
    assert x == x[..k] + [x[k]];
    assert forall e :: e in x[..k] ==> e in x;
  }

  lemma LastsEqual<T>(x: seq<T>, y: seq<T>, key: T -> seq<string>)
    requires x != [] && y != [] && Sorted(x, key) && Sorted(y, key) && multiset(x) == multiset(y) && KeysDetermine(x, key)
    ensures x[|x| - 1] == y[|y| - 1]
  {
    hide KeyLess;
    var a, b := x[|x| - 1], y[|y| - 1];
    assert a in multiset(y) && b in multiset(x);
    LastIsGreatest(y, a, key);
    LastIsGreatest(x, b, key);
    KeyTotal(key(a), key(b));
  }

  lemma LastIsGreatest<T>(s: seq<T>, e: T, key: T -> seq<string>)
    requires Sorted(s, key) && e in s
    ensures !KeyLess(key(s[|s| - 1]), key(e))
  {
    hide KeyLess;
    var i :| 0 <= i < |s| && s[i] == e;
    KeyTotal(key(e), key(e));
  }

  /** The sorted copy of a list is unique if and only if its entries of equal key are equal. */
  lemma SortedCopyUniqueIff<T(!new)>(s: seq<T>, key: T -> seq<string>)
    ensures (forall a, b :: SortedCopy(a, s, key) && SortedCopy(b, s, key) ==> a == b) <==> KeysDetermine(s, key)
  {
    hide KeyLess, Sort;
    if KeysDetermine(s, key) {
      forall a, b | SortedCopy(a, s, key) && SortedCopy(b, s, key) ensures a == b {
        DetermineCopy(s, a, key);
        SortedCopyUnique(a, b, key);
      }
    } else {
      var x, y :| x in s && y in s && key(x) == key(y) && x != y;
      TwoCopies(s, x, y, key);
    }
  }

  lemma DetermineCopy<T>(s: seq<T>, a: seq<T>, key: T -> seq<string>)
    requires KeysDetermine(s, key) && multiset(a) == multiset(s)
    ensures KeysDetermine(a, key)
  {
    forall x | x in a ensures x in s {
      assert x in multiset(a);
    }
  }

  lemma TwoCopies<T(!new)>(s: seq<T>, x: T, y: T, key: T -> seq<string>)
    requires x in s && y in s && key(x) == key(y) && x != y
    ensures exists a, b :: SortedCopy(a, s, key) && SortedCopy(b, s, key) && a != b
  {
    hide KeyLess, Sort;
    var a := Sort(s, key);
    SortIsSortedCopy(s, key);
    assert x in multiset(a) && y in multiset(a);
    var i :| 0 <= i < |a| && a[i] == x;
    var j :| 0 <= j < |a| && a[j] == y;
    var b := a[i := y][j := x];
    SwapMultiset(a, i, j);
    assert forall k :: 0 <= k < |a| ==> key(b[k]) == key(a[k]);
    assert SortedCopy(b, s, key) && b[i] != a[i];
  }

  lemma SwapMultiset<T>(a: seq<T>, i: nat, j: nat)
    requires i < |a| && j < |a| && i != j
    ensures multiset(a[i := a[j]][j := a[i]]) == multiset(a)
  {
  }

  /** Two lists with the same entries, in any order, sort to the same list when keys determine entries. */
  lemma SortOrderIndependent<T>(s: seq<T>, t: seq<T>, key: T -> seq<string>)
    requires multiset(s) == multiset(t) && KeysDetermine(s, key)
    ensures Sort(s, key) == Sort(t, key)
  {
    hide KeyLess, Sort;
    SortIsSortedCopy(s, key);
    SortIsSortedCopy(t, key);
    DetermineCopy(s, Sort(s, key), key);
    SortedCopyUnique(Sort(s, key), Sort(t, key), key);
  }
}
