/**
 * `result.sort(key=lambda x: x.get(sort_by, ""), reverse=reverse)`
 * (main.py:231 and main.py:352): Python's list sort is stable, also with
 * `reverse=True`, which keeps records with equal keys in their original
 * order rather than reversing them.
 */
module Sorting {
  import opened Text
  import opened Values
  import opened Stages

  /** The sort key `x.get(field, "")`, compared as text. */
  function SortKey(r: Record, field: string): string
  {
    Str(GetOr(r, field, VStr("")))
  }

  /** The key function handed to `sort`, as a value. */
  function KeyOf(field: string): Record -> string
  {
    r => SortKey(r, field)
  }

  /** `a` belongs strictly before `b`: a smaller key ascending, a larger key descending. */
  predicate Precedes<T>(a: T, b: T, key: T -> string, desc: bool)
  {
    if desc then Less(key(b), key(a)) else Less(key(a), key(b))
  }

  lemma PrecedesAsymmetric<T>(a: T, b: T, key: T -> string, desc: bool)
    requires Precedes(a, b, key, desc)
    ensures !Precedes(b, a, key, desc)
    ensures key(a) != key(b)
  {
    if desc {
      LessAsymmetric(key(b), key(a));
      LessIrreflexive(key(a));
    } else {
      LessAsymmetric(key(a), key(b));
      LessIrreflexive(key(a));
    }
  }

  lemma NotPrecedesTransitive<T>(a: T, b: T, c: T, key: T -> string, desc: bool)
    requires !Precedes(a, b, key, desc) && !Precedes(b, c, key, desc)
    ensures !Precedes(a, c, key, desc)
  {
    var ka, kb, kc := key(a), key(b), key(c);
    if desc {
      NotLessTransitive(ka, kb, kc);
    } else {
      NotLessTransitive(kc, kb, ka);
    }
  }

  /** No record is followed by one that belongs strictly before it. */
  ghost predicate Sorted<T>(s: seq<T>, key: T -> string, desc: bool)
  {
    forall i, j :: 0 <= i < j < |s| ==> !Precedes(s[j], s[i], key, desc)
  }

  /**
   * Insert `x` after the last record it does not belong before: scanning
   * from the right, step over the records `x` strictly precedes.
   */
  function Insert<T>(s: seq<T>, x: T, key: T -> string, desc: bool): (r: seq<T>)
    ensures |r| == |s| + 1
    decreases |s|
  {
    if s == [] || !Precedes(x, s[|s| - 1], key, desc) then s + [x]
    else Insert(s[..|s| - 1], x, key, desc) + [s[|s| - 1]]
  }

  /** The stable sort, as insertion of each record in turn into the sorted prefix. */
  function SortSeq<T>(s: seq<T>, key: T -> string, desc: bool): (r: seq<T>)
    ensures |r| == |s|
    decreases |s|
  {
    if s == [] then []
    else Insert(SortSeq(s[..|s| - 1], key, desc), s[|s| - 1], key, desc)
  }

  lemma {:induction false} InsertPermutes<T>(s: seq<T>, x: T, key: T -> string, desc: bool)
    ensures multiset(Insert(s, x, key, desc)) == multiset(s) + multiset{x}
    decreases |s|
  {
    if s != [] && Precedes(x, s[|s| - 1], key, desc) {
      InsertPermutes(s[..|s| - 1], x, key, desc);
      assert s == s[..|s| - 1] + [s[|s| - 1]];
    }
  }

  /** The sort only reorders: the result is a permutation of its input. */
  lemma {:induction false} SortSeqPermutes<T>(s: seq<T>, key: T -> string, desc: bool)
    ensures multiset(SortSeq(s, key, desc)) == multiset(s)
    decreases |s|
  {
    if s != [] {
      SortSeqPermutes(s[..|s| - 1], key, desc);
      InsertPermutes(SortSeq(s[..|s| - 1], key, desc), s[|s| - 1], key, desc);
      assert s == s[..|s| - 1] + [s[|s| - 1]];
    }
  }

  /**
   * Where `Insert` puts `x`: after the first `j` records, when `x` strictly
   * precedes every later record but not the one just before.
   */
  lemma {:induction false} InsertAtPosition<T>(s: seq<T>, x: T, key: T -> string, desc: bool, j: nat)
    requires j <= |s|
    requires forall k :: j <= k < |s| ==> Precedes(x, s[k], key, desc)
    requires j == 0 || !Precedes(x, s[j - 1], key, desc)
    ensures Insert(s, x, key, desc) == s[..j] + [x] + s[j..]
    decreases |s|
  {
    if j < |s| {
      var init := s[..|s| - 1];
      assert init[..j] == s[..j];
      assert forall k :: j <= k < |init| ==> init[k] == s[k];
      assert j == 0 || init[j - 1] == s[j - 1];
      InsertAtPosition(init, x, key, desc, j);
      assert s[j..] == init[j..] + [s[|s| - 1]];
    } else {
      assert s[..j] == s;
    }
  }

  lemma {:induction false} InsertSorted<T>(s: seq<T>, x: T, key: T -> string, desc: bool)
    requires Sorted(s, key, desc)
    ensures Sorted(Insert(s, x, key, desc), key, desc)
    decreases |s|
  {
    var r := Insert(s, x, key, desc);
    if s == [] || !Precedes(x, s[|s| - 1], key, desc) {
      forall i, j | 0 <= i < j < |r|
        ensures !Precedes(r[j], r[i], key, desc)
      {
        if j == |s| && i < |s| - 1 {
          NotPrecedesTransitive(x, s[|s| - 1], s[i], key, desc);
        }
      }
    } else {
      var init, last := s[..|s| - 1], s[|s| - 1];
      InsertSorted(init, x, key, desc);
      var front := Insert(init, x, key, desc);
      PrecedesAsymmetric(x, last, key, desc);
      InsertPermutes(init, x, key, desc);
      forall i, j | 0 <= i < j < |r|
        ensures !Precedes(r[j], r[i], key, desc)
      {
        if j == |front| {
          assert r[i] in multiset(front);
          assert r[i] in init || r[i] == x;
        }
      }
    }
  }

  /** The result is ordered by the key, in the requested direction. */
  lemma {:induction false} SortSeqSorted<T>(s: seq<T>, key: T -> string, desc: bool)
    ensures Sorted(SortSeq(s, key, desc), key, desc)
    decreases |s|
  {
    if s != [] {
      SortSeqSorted(s[..|s| - 1], key, desc);
      InsertSorted(SortSeq(s[..|s| - 1], key, desc), s[|s| - 1], key, desc);
    }
  }

  /** The records whose key is `k`. */
  function KeyIs<T>(key: T -> string, k: string): T -> bool
  {
    r => key(r) == k
  }

  lemma {:induction false} InsertStable<T>(s: seq<T>, x: T, key: T -> string, desc: bool, k: string)
    ensures Where(Insert(s, x, key, desc), KeyIs(key, k)) == Where(s, KeyIs(key, k)) + Where([x], KeyIs(key, k))
    decreases |s|
  {
    var p := KeyIs(key, k);
    if s == [] || !Precedes(x, s[|s| - 1], key, desc) {
      WhereAppend(s, [x], p);
    } else {
      var init, last := s[..|s| - 1], s[|s| - 1];
      InsertStable(init, x, key, desc, k);
      PrecedesAsymmetric(x, last, key, desc);
      WhereAppend(Insert(init, x, key, desc), [last], p);
      WhereSnoc(s, p);
      assert !(p(x) && p(last));
      WhereSwap(x, last, p);
      var wi, wx, wl := Where(init, p), Where([x], p), Where([last], p);
      assert Where(Insert(s, x, key, desc), p) == (wi + wx) + wl;
      ConcatAssoc(wi, wx, wl);
      ConcatAssoc(wi, wl, wx);
    }
  }

  lemma ConcatAssoc<T>(a: seq<T>, b: seq<T>, c: seq<T>)
    ensures (a + b) + c == a + (b + c)
  {
  }

  /** Two records not both kept can be filtered in either order. */
  lemma WhereSwap<T>(x: T, y: T, p: T -> bool)
    requires !(p(x) && p(y))
    ensures Where([x], p) + Where([y], p) == Where([y], p) + Where([x], p)
  {
    assert [x][1..] == [] && [y][1..] == [];
  }

  /** Stability: the records sharing any one key keep their original relative order. */
  lemma {:induction false} SortSeqStable<T>(s: seq<T>, key: T -> string, desc: bool, k: string)
    ensures Where(SortSeq(s, key, desc), KeyIs(key, k)) == Where(s, KeyIs(key, k))
    decreases |s|
  {
    if s != [] {
      var init, last := s[..|s| - 1], s[|s| - 1];
      SortSeqStable(init, key, desc, k);
      InsertStable(SortSeq(init, key, desc), last, key, desc, k);
      WhereSnoc(s, KeyIs(key, k));
    }
  }

  /** The in-place insertion sort: after it the array holds `SortSeq` of its old contents. */
  method SortInPlace<T>(a: array<T>, key: T -> string, desc: bool)
    modifies a
    ensures a[..] == SortSeq(old(a[..]), key, desc)
  {
    ghost var input := a[..];
    var i := 0;
    while i < a.Length
      invariant 0 <= i <= a.Length
      invariant a[..i] == SortSeq(input[..i], key, desc)
      invariant a[i..] == input[i..]
    {
      ghost var prefix := input[..i + 1];
      assert prefix[..|prefix| - 1] == input[..i] && prefix[|prefix| - 1] == input[i];
      assert SortSeq(prefix, key, desc) == Insert(SortSeq(input[..i], key, desc), input[i], key, desc);
      assert a[i] == input[i];
      InsertAt(a, i, key, desc);
      assert a[..i + 1] == SortSeq(prefix, key, desc);
      assert a[i + 1..] == input[i + 1..];
      i := i + 1;
    }
    assert input[..a.Length] == input;
  }

  /** One step of the sort: move `a[i]` into place within the sorted prefix `a[..i]`. */
  method InsertAt<T>(a: array<T>, i: nat, key: T -> string, desc: bool)
    requires i < a.Length
    modifies a
    ensures a[..i + 1] == Insert(old(a[..i]), old(a[i]), key, desc)
    ensures a[i + 1..] == old(a[i + 1..])
  {
    var x := a[i];
    ghost var sorted := a[..i];
    var j := i;
    while j > 0 && Precedes(x, a[j - 1], key, desc)
      invariant 0 <= j <= i
      invariant forall k :: 0 <= k < j ==> a[k] == sorted[k]
      invariant forall k :: j < k <= i ==> a[k] == sorted[k - 1]
      invariant forall k :: i < k < a.Length ==> a[k] == old(a[k])
      invariant forall k :: j <= k < i ==> Precedes(x, sorted[k], key, desc)
    {
      a[j] := a[j - 1];
      j := j - 1;
    }
    a[j] := x;
    assert a[..i + 1] == sorted[..j] + [x] + sorted[j..i];
    InsertAtPosition(sorted, x, key, desc, j);
  }
}
