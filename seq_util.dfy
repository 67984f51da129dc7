/** Facts about sequences used by the gene-hit model: duplicate freedom,
    first occurrences, order-preserving deduplication and subsequences. */
module SeqUtil {

  /** No element occurs twice. */
  ghost predicate NoDup<T>(s: seq<T>)
  {
    forall i, j :: 0 <= i < j < |s| ==> s[i] != s[j]
  }

  /** `a` can be obtained from `b` by deleting elements, keeping the order of the rest. */
  ghost predicate Subseq<T>(a: seq<T>, b: seq<T>)
    decreases |b|
  {
    a == [] || (b != [] && ((a[0] == b[0] && Subseq(a[1..], b[1..])) || Subseq(a, b[1..])))
  }

  /** Position of the first occurrence of `x` in `s`. */
  function FirstIndex<T(==)>(s: seq<T>, x: T): (r: nat)
    requires x in s
    ensures r < |s| && s[r] == x && x !in s[..r]
  {
    if s[0] == x then 0
    else
      var r' := FirstIndex(s[1..], x);
      assert s[..r' + 1] == [s[0]] + s[1..][..r'];
      r' + 1
  }

  /** The distinct elements of `s`, each kept at its first occurrence: the keys an
      insertion-ordered dictionary holds after the elements are inserted one by one. */
  function Dedup<T(==)>(s: seq<T>): (d: seq<T>)
    ensures NoDup(d)
    ensures forall i :: 0 <= i < |d| ==> d[i] in s
    ensures forall i :: 0 <= i < |s| ==> s[i] in d
    ensures |d| <= |s|
  {
    if s == [] then []
    else
      var d' := Dedup(s[..|s| - 1]);
      var last := s[|s| - 1];
      assert s == s[..|s| - 1] + [last];
      if last in d' then d' else d' + [last]
  }

  lemma Subseq2Cons<T>(x: T, a: seq<T>, b: seq<T>)
    requires Subseq(a, b)
    ensures Subseq([x] + a, [x] + b)
  {
    assert ([x] + a)[1..] == a;
    assert ([x] + b)[1..] == b;
  }

  lemma SubseqCons<T>(x: T, a: seq<T>, b: seq<T>)
    requires Subseq(a, b)
    ensures Subseq(a, [x] + b)
  {
    assert ([x] + b)[1..] == b;
  }

  /** A first occurrence inside a prefix is the first occurrence in the whole sequence. */
  lemma {:induction false} FirstIndexPrefix<T>(s: seq<T>, p: nat, x: T)
    requires p <= |s| && x in s[..p]
    ensures FirstIndex(s, x) == FirstIndex(s[..p], x)
  {
    if s[0] != x {
      assert s[..p][1..] == s[1..][..p - 1];
      FirstIndexPrefix(s[1..], p - 1, x);
    }
  }

  /** The keys of Dedup appear in the order of their first occurrence in the input. */
  lemma {:induction false} DedupFirstOccurrenceOrder<T>(s: seq<T>)
    ensures forall a, b :: 0 <= a < b < |Dedup(s)| ==>
      FirstIndex(s, Dedup(s)[a]) < FirstIndex(s, Dedup(s)[b])
  {
    if s != [] {
      var n := |s| - 1;
      var init := s[..n];
      var d' := Dedup(init);
      DedupFirstOccurrenceOrder(init);
      assert s[..n] == init;
      forall y | y in init
        ensures FirstIndex(s, y) == FirstIndex(init, y) < n
      {
        FirstIndexPrefix(s, n, y);
      }
      if s[n] !in d' {
        var d := Dedup(s);
        assert d == d' + [s[n]];
        assert FirstIndex(s, s[n]) == n;
        forall a, b | 0 <= a < b < |d|
          ensures FirstIndex(s, d[a]) < FirstIndex(s, d[b])
        {
          assert d[a] == d'[a] && d[a] in init;
          if b < |d'| {
            assert d[b] == d'[b] && d[b] in init;
          }
        }
      }
    }
  }

  /** Deduplicating a sequence without repeats changes nothing. */
  lemma {:induction false} DedupOfNoDup<T>(s: seq<T>)
    requires NoDup(s)
    ensures Dedup(s) == s
  {
    if s != [] {
      var n := |s| - 1;
      assert NoDup(s[..n]);
      DedupOfNoDup(s[..n]);
      assert s[n] !in s[..n];
      assert s == s[..n] + [s[n]];
    }
  }
}
