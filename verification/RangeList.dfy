/** Canonical lists of byte ranges: sorted, with at least one byte missing between
    neighbours.  A set of bytes has only one such list, so a coalescing list is
    determined by the bytes it holds and not by the order of insertion. */
module RangeList {

  datatype Range = Range(left: int, right: int)

  predicate In(x: int, r: Range) { r.left <= x <= r.right }

  function Span(r: Range): set<int> { set x | r.left <= x <= r.right && In(x, r) }

  function Bytes(rs: seq<Range>): set<int> {
    if rs == [] then {} else Span(rs[0]) + Bytes(rs[1..])
  }

  predicate Canonical(rs: seq<Range>) {
    && (forall i :: 0 <= i < |rs| ==> rs[i].left <= rs[i].right)
    && (forall i :: 0 <= i < |rs| - 1 ==> rs[i].right + 1 < rs[i + 1].left)
  }

  lemma {:induction false} BytesAt(rs: seq<Range>, x: int)
    ensures x in Bytes(rs) <==> exists k :: 0 <= k < |rs| && x in Span(rs[k])
    decreases |rs|
  {
    if rs != [] {
      BytesAt(rs[1..], x);
      if x in Bytes(rs[1..]) {
        var k :| 0 <= k < |rs[1..]| && x in Span(rs[1..][k]);
        assert x in Span(rs[k + 1]);
      }
      if k :| 0 <= k < |rs| && x in Span(rs[k]) {
        if k > 0 {
          assert x in Span(rs[1..][k - 1]);
        }
      }
    }
  }

  // In a canonical list the first range is the least byte and its run.
  lemma {:induction false} FirstRange(rs: seq<Range>)
    requires Canonical(rs) && rs != []
    ensures Canonical(rs[1..])
    ensures forall x :: x in Bytes(rs[1..]) ==> rs[0].right + 1 < x
    ensures rs[0].left in Bytes(rs) && rs[0].right in Bytes(rs) && rs[0].right + 1 !in Bytes(rs)
    ensures forall x :: x in Bytes(rs) ==> rs[0].left <= x
    decreases |rs|
  {
    if |rs| > 1 {
      assert Canonical(rs[1..]);
      FirstRange(rs[1..]);
    }
  }

  // Main result: equal bytes, equal lists.
  lemma {:induction false} CanonicalIsUnique(a: seq<Range>, b: seq<Range>)
    requires Canonical(a) && Canonical(b) && Bytes(a) == Bytes(b)
    ensures a == b
    decreases |a|
  {
    if a == [] {
      if b != [] {
        FirstRange(b);
      }
    } else {
      FirstRange(a);
      assert b != [];
      FirstRange(b);
      assert a[0].left == b[0].left;
      SameEnd(a, b);
      assert Bytes(a[1..]) == Bytes(a) - Span(a[0]);
      assert Bytes(b[1..]) == Bytes(b) - Span(b[0]);
      CanonicalIsUnique(a[1..], b[1..]);
    }
  }

  // The first range is the whole run of bytes that starts at its left end.
  lemma FirstRun(rs: seq<Range>, y: int)
    requires Canonical(rs) && rs != [] && rs[0].left <= y
    ensures (forall z :: rs[0].left <= z <= y ==> z in Bytes(rs)) <==> y <= rs[0].right
  {
    FirstRange(rs);
    if y > rs[0].right {
      assert rs[0].left <= rs[0].right + 1 <= y && rs[0].right + 1 !in Bytes(rs);
    } else {
      assert forall z :: rs[0].left <= z <= y ==> z in Span(rs[0]);
    }
  }

  lemma SameEnd(a: seq<Range>, b: seq<Range>)
    requires Canonical(a) && Canonical(b) && Bytes(a) == Bytes(b) && a != [] && b != []
    requires a[0].left == b[0].left
    ensures a[0].right == b[0].right
  {
    FirstRun(a, a[0].right);
    FirstRun(a, b[0].right);
    FirstRun(b, a[0].right);
    FirstRun(b, b[0].right);
  }

  // ---------- Families of disjoint ranges ----------

  predicate Disjoint(r: Range, q: Range) { Span(r) !! Span(q) }

  predicate PairwiseDisjoint(rs: seq<Range>) {
    && (forall i :: 0 <= i < |rs| ==> rs[i].left <= rs[i].right)
    && (forall i, j :: 0 <= i < j < |rs| ==> Disjoint(rs[i], rs[j]))
  }

  lemma {:induction false} PermutationSameBytes(a: seq<Range>, b: seq<Range>)
    requires multiset(a) == multiset(b)
    ensures Bytes(a) == Bytes(b)
  {
    forall x
      ensures x in Bytes(a) <==> x in Bytes(b)
    {
      BytesAt(a, x);
      BytesAt(b, x);
      if k :| 0 <= k < |a| && x in Span(a[k]) {
        assert a[k] in multiset(a) && a[k] in multiset(b) && a[k] in b;
      }
      if k :| 0 <= k < |b| && x in Span(b[k]) {
        assert b[k] in multiset(b) && b[k] in multiset(a) && b[k] in a;
      }
    }
  }

  lemma {:induction false} BytesConcat(a: seq<Range>, b: seq<Range>)
    ensures Bytes(a + b) == Bytes(a) + Bytes(b)
    decreases |a|
  {
    if a == [] {
      assert a + b == b;
    } else {
      assert (a + b)[1..] == a[1..] + b;
      BytesConcat(a[1..], b);
    }
  }

  lemma BytesSnoc(rs: seq<Range>, i: nat)
    requires i < |rs|
    ensures Bytes(rs[..i + 1]) == Bytes(rs[..i]) + Span(rs[i])
  {
    assert rs[..i + 1] == rs[..i] + [rs[i]];
    BytesConcat(rs[..i], [rs[i]]);
    assert [rs[i]][1..] == [];
    assert Bytes([rs[i]]) == Span(rs[i]) + Bytes([]);
  }

  // Canonical lists of the same ranges, in whatever order they came.
  lemma OrderDoesNotMatter(a: seq<Range>, b: seq<Range>, ca: seq<Range>, cb: seq<Range>)
    requires multiset(a) == multiset(b)
    requires Canonical(ca) && Bytes(ca) == Bytes(a) && Canonical(cb) && Bytes(cb) == Bytes(b)
    ensures ca == cb
  {
    PermutationSameBytes(a, b);
    CanonicalIsUnique(ca, cb);
  }

  // A list that holds exactly [0, n) is one range.
  lemma WholeIsOneRange(c: seq<Range>, n: nat)
    requires Canonical(c) && n > 0 && Bytes(c) == Span(Range(0, n - 1))
    ensures c == [Range(0, n - 1)]
  {
    assert [Range(0, n - 1)][1..] == [];
    assert Bytes([Range(0, n - 1)]) == Span(Range(0, n - 1));
    CanonicalIsUnique(c, [Range(0, n - 1)]);
  }
}
