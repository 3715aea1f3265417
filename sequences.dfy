/** Sequence facts the transaction graph relies on: distinct elements, and the order in which
    elements first appear. */
module Sequences {

  /** No element occurs twice in `s`. */
  predicate Distinct<T(==)>(s: seq<T>) {
    forall i, j :: 0 <= i < j < |s| ==> s[i] != s[j]
  }

  /** In a sequence without repetitions no element occurs before its own position. */
  lemma DistinctPrefix<T>(s: seq<T>, i: nat)
    requires Distinct(s) && i < |s|
    ensures s[i] !in s[..i]
  {
    forall m | 0 <= m < i
      ensures s[..i][m] != s[i]
    {
      assert s[..i][m] == s[m];
    }
  }

  /** The position of the first occurrence of `x` in `s`. */
  function FirstIndex<T(==)>(s: seq<T>, x: T): (i: nat)
    requires x in s
    ensures i < |s| && s[i] == x && x !in s[..i]
  {
    if s[0] == x then 0
    else
      var i := 1 + FirstIndex(s[1..], x);
      assert s[..i] == [s[0]] + s[1..][..i - 1];
      i
  }

  /** The elements of `s`, each kept at its first occurrence and dropped at every later one. */
  function Dedup<T(==)>(s: seq<T>): (r: seq<T>)
    ensures Distinct(r)
    decreases |s|
  {
    if |s| == 0 then []
    else
      var d := Dedup(s[..|s| - 1]);
      var x := s[|s| - 1];
      if x in d then d else d + [x]
  }

  /** `Dedup` keeps the element `x` exactly when `s` has it. */
  lemma {:induction false} DedupElement<T>(s: seq<T>, x: T)
    ensures x in Dedup(s) <==> x in s
    decreases |s|
  {
    if |s| > 0 {
      var prefix := s[..|s| - 1];
      DedupElement(prefix, x);
      assert s == prefix + [s[|s| - 1]];
    }
  }

  /** Extending a sequence does not move the first occurrence of an element already present. */
  lemma FirstIndexOfPrefix<T>(s: seq<T>, t: seq<T>, x: T)
    requires x in s
    ensures x in s + t && FirstIndex(s + t, x) == FirstIndex(s, x)
  {
    var i := FirstIndex(s, x);
    var j := FirstIndex(s + t, x);
    assert (s + t)[..i] == s[..i];
    assert (s + t)[i] == x;
  }

  /** `Dedup(s)` lists the distinct elements of `s` in the order of their first appearance. */
  lemma {:induction false} DedupFirstAppearance<T>(s: seq<T>)
    ensures forall p, q :: 0 <= p < q < |Dedup(s)| ==>
              Dedup(s)[p] in s && Dedup(s)[q] in s && FirstIndex(s, Dedup(s)[p]) < FirstIndex(s, Dedup(s)[q])
    decreases |s|
  {
    if |s| > 0 {
      var prefix, x := s[..|s| - 1], s[|s| - 1];
      assert s == prefix + [x];
      var d := Dedup(prefix);
      DedupFirstAppearance(prefix);
      forall y | y in d
        ensures y in prefix && y in s && FirstIndex(s, y) == FirstIndex(prefix, y)
      {
        DedupElement(prefix, y);
        FirstIndexOfPrefix(prefix, [x], y);
      }
      var r := Dedup(s);
      if x in d {
        assert r == d;
        forall p, q | 0 <= p < q < |r|
          ensures r[p] in s && r[q] in s && FirstIndex(s, r[p]) < FirstIndex(s, r[q])
        {
          assert r[p] == d[p] && r[p] in d;
          assert r[q] == d[q] && r[q] in d;
        }
      } else {
        DedupElement(prefix, x);
        assert FirstIndex(s, x) == |prefix| by {
          assert s[..|prefix|] == prefix;
        }
        assert r == d + [x];
        forall p, q | 0 <= p < q < |r|
          ensures r[p] in s && r[q] in s && FirstIndex(s, r[p]) < FirstIndex(s, r[q])
        {
          assert r[p] == d[p] && r[p] in d;
          if q < |d| {
            assert r[q] == d[q] && r[q] in d;
          } else {
            assert r[q] == x;
          }
        }
      }
    } else {
      assert Dedup(s) == [];
    }
  }

  /** A sequence has at least as many positions as it has distinct elements. */
  lemma {:induction false} SetOfSeqSize<T>(s: seq<T>)
    ensures |set x | x in s| <= |s|
    decreases |s|
  {
    if |s| > 0 {
      var prefix := s[..|s| - 1];
      SetOfSeqSize(prefix);
      assert (set x | x in s) == (set x | x in prefix) + {s[|s| - 1]};
    }
  }

  /** A sequence longer than the set its elements come from repeats an element. */
  lemma {:induction false} Pigeonhole<T>(p: seq<T>, s: set<T>) returns (i: nat, j: nat)
    requires forall k :: 0 <= k < |p| ==> p[k] in s
    requires |p| > |s|
    ensures i < j < |p| && p[i] == p[j]
    decreases |p|
  {
    if p[0] in p[1..] {
      var m :| 0 <= m < |p[1..]| && p[1..][m] == p[0];
      i, j := 0, m + 1;
    } else {
      var rest := s - {p[0]};
      assert |rest| == |s| - 1;
      var i', j' := Pigeonhole(p[1..], rest);
      i, j := i' + 1, j' + 1;
    }
  }
}
