/**
 * The de-duplication pass that Prefetch runs over its key list before it
 * touches the table: every key is kept at its first occurrence, later copies
 * are dropped, and the survivors stay in input order.
 */
module KeyDedup {

  /** A byte string: a cache key as the caller passed it, or a stored value. */
  type Bytes = seq<bv8>

  /** No element occurs twice in `s`. */
  predicate NoDuplicates(s: seq<Bytes>) {
    forall i, j :: 0 <= i < j < |s| ==> s[i] != s[j]
  }

  /** The position of the first occurrence of `x` in `s`. */
  function FirstIndex(s: seq<Bytes>, x: Bytes): (i: nat)
    requires x in s
    ensures i < |s| && s[i] == x && x !in s[..i]
  {
    if s[0] == x then 0
    else
      var i := 1 + FirstIndex(s[1..], x);
      assert s[..i] == [s[0]] + s[1..][..i - 1];
      i
  }

  /** A position holding `x` with no earlier `x` is the first index of `x`. */
  lemma FirstIndexUnique(s: seq<Bytes>, x: Bytes, i: nat)
    requires i < |s| && s[i] == x && x !in s[..i]
    ensures FirstIndex(s, x) == i
  {
    var f := FirstIndex(s, x);
    forall k | 0 <= k < i ensures s[k] != x {
      assert s[..i][k] == s[k];
    }
    forall k | 0 <= k < f ensures s[k] != x {
      assert s[..f][k] == s[k];
    }
  }

  /**
   * The keys of `s` in first-occurrence order, each once. Defined from the
   * left, one input key at a time, as the source's loop consumes them.
   */
  function Dedup(s: seq<Bytes>): (r: seq<Bytes>)
    ensures |r| <= |s|
    ensures forall x :: x in r <==> x in s
  {
    if s == [] then []
    else
      var p := s[..|s| - 1];
      var x := s[|s| - 1];
      assert s == p + [x];
      var d := Dedup(p);
      if x in d then d else d + [x]
  }

  lemma {:induction false} DedupHasNoDuplicates(s: seq<Bytes>)
    ensures NoDuplicates(Dedup(s))
  {
    if s != [] {
      DedupHasNoDuplicates(s[..|s| - 1]);
    }
  }

  /** Dedup keeps the order in which keys first occur in its input. */
  lemma {:induction false} DedupKeepsFirstOccurrenceOrder(s: seq<Bytes>)
    ensures forall i, j :: 0 <= i < j < |Dedup(s)| ==>
      FirstIndex(s, Dedup(s)[i]) < FirstIndex(s, Dedup(s)[j])
  {
    if s != [] {
      var p, x := s[..|s| - 1], s[|s| - 1];
      var d := Dedup(p);
      DedupKeepsFirstOccurrenceOrder(p);
      forall y | y in p
        ensures FirstIndex(s, y) == FirstIndex(p, y)
      {
        var j := FirstIndex(p, y);
        assert s[..j] == p[..j];
        FirstIndexUnique(s, y, j);
      }
      if x !in d {
        assert s[..|p|] == p;
        FirstIndexUnique(s, x, |p|);
        forall i, j | 0 <= i < j < |Dedup(s)|
          ensures FirstIndex(s, Dedup(s)[i]) < FirstIndex(s, Dedup(s)[j])
        {
          assert Dedup(s) == d + [x];
          if j < |d| {
            assert Dedup(s)[i] == d[i] && Dedup(s)[j] == d[j];
          } else {
            assert Dedup(s)[i] == d[i] && d[i] in p;
          }
        }
      }
    }
  }

  /** A list without duplicates has as many elements as its set of elements. */
  lemma {:induction false} DistinctCardinality(s: seq<Bytes>)
    requires NoDuplicates(s)
    ensures |set x | x in s| == |s|
  {
    if s != [] {
      var t := s[1..];
      assert NoDuplicates(t) by {
        forall i, j | 0 <= i < j < |t| ensures t[i] != t[j] {
          assert t[i] == s[i + 1] && t[j] == s[j + 1];
        }
      }
      DistinctCardinality(t);
      assert s[0] !in t by {
        forall j | 0 <= j < |t| ensures t[j] != s[0] {
          assert t[j] == s[j + 1];
        }
      }
      assert (set x | x in s) == {s[0]} + (set x | x in t) by {
        forall y ensures y in s <==> y == s[0] || y in t {
          assert s == [s[0]] + t;
        }
      }
    }
  }

  /** Dedup returns exactly one copy of each distinct key of its input. */
  lemma DedupLength(s: seq<Bytes>)
    ensures |Dedup(s)| == |set x | x in s|
  {
    DedupHasNoDuplicates(s);
    DistinctCardinality(Dedup(s));
    assert (set x | x in Dedup(s)) == (set x | x in s);
  }

  /**
   * The first loop of Prefetch: walk the keys, remember the ones already
   * seen, and append each key the first time it shows up.
   */
  method DedupKeys(keys: seq<Bytes>) returns (distinct: seq<Bytes>)
    ensures distinct == Dedup(keys)
    ensures NoDuplicates(distinct)
  {
    var seen: set<Bytes> := {};
    distinct := [];
    for i := 0 to |keys|
      invariant distinct == Dedup(keys[..i])
      invariant forall x :: x in seen <==> x in distinct
    {
      assert keys[..i + 1][..i] == keys[..i];
      var k := keys[i];
      if k !in seen {
        seen := seen + {k};
        distinct := distinct + [k];
      }
    }
    assert keys[..|keys|] == keys;
    DedupHasNoDuplicates(keys);
  }
}
