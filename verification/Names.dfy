/** Branch names: the order `slices.Sort` puts them in, and the sorted list of a set of names. */
module Names {

  // ---------- The byte-wise order on names ----------

  predicate Less(a: string, b: string) {
    if |b| == 0 then false
    else if |a| == 0 then true
    else if a[0] != b[0] then a[0] < b[0]
    else Less(a[1..], b[1..])
  }

  lemma {:induction false} LessTotal(a: string, b: string)
    ensures Less(a, b) || Less(b, a) || a == b
  {
    if |a| > 0 && |b| > 0 && a[0] == b[0] {
      LessTotal(a[1..], b[1..]);
      assert a == [a[0]] + a[1..] && b == [b[0]] + b[1..];
    }
  }

  lemma {:induction false} LessAsymmetric(a: string, b: string)
    requires Less(a, b)
    ensures !Less(b, a) && a != b
  {
    if |a| > 0 && a[0] == b[0] {
      LessAsymmetric(a[1..], b[1..]);
    }
  }

  lemma {:induction false} LessTransitive(a: string, b: string, c: string)
    requires Less(a, b) && Less(b, c)
    ensures Less(a, c)
  {
    if |a| > 0 && a[0] == b[0] && b[0] == c[0] {
      LessTransitive(a[1..], b[1..], c[1..]);
    }
  }

  /** The order is decided by the first character in which two names differ, and a name comes before what extends it. */
  lemma {:induction false} LessAt(a: string, b: string, k: nat)
    requires k <= |a| && k <= |b| && a[..k] == b[..k]
    ensures k == |b| ==> !Less(a, b)
    ensures k == |a| < |b| ==> Less(a, b)
    ensures k < |a| && k < |b| && a[k] < b[k] ==> Less(a, b)
    ensures k < |a| && k < |b| && a[k] > b[k] ==> !Less(a, b)
  {
    if k > 0 {
      assert a[0] == a[..k][0] == b[..k][0] == b[0];
      assert a[1..][..k - 1] == a[..k][1..] == b[..k][1..] == b[1..][..k - 1];
      LessAt(a[1..], b[1..], k - 1);
    }
  }

  // ---------- Sorted lists ----------

  /** Strictly increasing: sorted, and so free of duplicates. */
  ghost predicate Sorted(q: seq<string>) {
    forall i, j :: 0 <= i < j < |q| ==> Less(q[i], q[j])
  }

  /** The set of names in a list. */
  function Elems(q: seq<string>): (r: set<string>)
    ensures forall x :: x in r <==> x in q
  {
    set x | x in q
  }

  /** q lists exactly the names of s, in order. */
  ghost predicate ListsSorted(q: seq<string>, s: set<string>) {
    Sorted(q) && Elems(q) == s
  }

  function Insert(x: string, q: seq<string>): (r: seq<string>)
  {
    if q == [] then [x]
    else if x == q[0] then q
    else if Less(x, q[0]) then [x] + q
    else [q[0]] + Insert(x, q[1..])
  }

  lemma {:induction false} InsertSorted(x: string, q: seq<string>)
    requires Sorted(q)
    ensures ListsSorted(Insert(x, q), Elems(q) + {x})
  {
    if q == [] {
    } else if x == q[0] {
    } else if Less(x, q[0]) {
      forall j | 0 < j < |q| ensures Less(x, q[j]) {
        LessTransitive(x, q[0], q[j]);
      }
    } else {
      LessTotal(x, q[0]);
      InsertSorted(x, q[1..]);
      var t := Insert(x, q[1..]);
      forall k | 0 <= k < |t| ensures Less(q[0], t[k]) {
        assert t[k] in Elems(t);
        if t[k] != x {
          assert t[k] in q[1..];
        }
      }
      assert Elems([q[0]] + t) == Elems(q) + {x} by {
        assert q == [q[0]] + q[1..];
      }
    }
  }

  /** The sorted, duplicate-free list of the names in q. */
  function Sort(q: seq<string>): seq<string> {
    if q == [] then [] else Insert(q[0], Sort(q[1..]))
  }

  lemma {:induction false} SortSorts(q: seq<string>)
    ensures ListsSorted(Sort(q), Elems(q))
  {
    if q != [] {
      SortSorts(q[1..]);
      InsertSorted(q[0], Sort(q[1..]));
      assert q == [q[0]] + q[1..];
    }
  }

  lemma FirstElem(q: seq<string>)
    ensures q == [] <==> Elems(q) == {}
    ensures q != [] ==> q[0] in Elems(q)
  {
    assert q != [] ==> q[0] in Elems(q);
  }

  lemma FirstIsLeast(q: seq<string>, x: string)
    requires Sorted(q) && x in q
    ensures x == q[0] || Less(q[0], x)
  {
    var i :| 0 <= i < |q| && q[i] == x;
    assert i == 0 || Less(q[0], q[i]);
  }

  /** A set of names has one sorted list, so equal sets give equal lists. */
  lemma {:induction false} SortedListUnique(p: seq<string>, q: seq<string>)
    requires Sorted(p) && Sorted(q) && Elems(p) == Elems(q)
    ensures p == q
  {
    FirstElem(p);
    FirstElem(q);
    if p != [] {
      FirstIsLeast(q, p[0]);
      FirstIsLeast(p, q[0]);
      if Less(p[0], q[0]) { LessAsymmetric(p[0], q[0]); }
      TailElems(p);
      TailElems(q);
      SortedListUnique(p[1..], q[1..]);
      assert p == [p[0]] + p[1..] && q == [q[0]] + q[1..];
    }
  }

  lemma TailElems(q: seq<string>)
    requires Sorted(q) && q != []
    ensures Sorted(q[1..]) && Elems(q[1..]) == Elems(q) - {q[0]}
  {
    SortedDistinct(q);
    DistinctTail(q);
  }

  ghost predicate Distinct(q: seq<string>) {
    forall i, j :: 0 <= i < j < |q| ==> q[i] != q[j]
  }

  lemma DistinctTail(q: seq<string>)
    requires Distinct(q) && q != []
    ensures Elems(q[1..]) == Elems(q) - {q[0]}
  {
    assert q == [q[0]] + q[1..];
  }

  lemma SortedDistinct(q: seq<string>)
    requires Sorted(q)
    ensures Distinct(q)
  {
    forall i, j | 0 <= i < j < |q| ensures q[i] != q[j] { LessAsymmetric(q[i], q[j]); }
  }

  lemma DistinctAppend(p: seq<string>, q: seq<string>)
    requires Distinct(p) && Distinct(q) && forall x :: x in q ==> x !in p
    ensures Distinct(p + q) && Elems(p + q) == Elems(p) + Elems(q)
  {
    forall i, j | 0 <= i < j < |p + q| ensures (p + q)[i] != (p + q)[j] {
      if i < |p| && |p| <= j { assert p[i] in p && q[j - |p|] in q; }
    }
  }

  // ---------- Collecting map keys ----------

  /** Lists a set in an arbitrary order, as ranging over a map does. */
  method ListAny(s: set<string>) returns (q: seq<string>)
    ensures Elems(q) == s && |q| == |s|
  {
    q := [];
    var rest := s;
    while rest != {}
      invariant rest <= s && Elems(q) == s - rest && |q| == |s| - |rest|
      decreases rest
    {
      var x :| x in rest;
      q := q + [x];
      rest := rest - {x};
    }
  }
}
