/** The entries of a map as a slice of pairs sorted by value (sortmap.go). */
module SortMap {
  import opened Seqs
  import opened Sorting

  datatype Pair = Pair(Key: string, Value: int)

  /** Pairs.Less (sortmap.go:14) as an order: by value, ascending. */
  predicate ValueLe(a: Pair, b: Pair) { a.Value <= b.Value }

  /** sort.Reverse(Pairs): by value, descending. */
  predicate ValueGe(a: Pair, b: Pair) { a.Value >= b.Value }

  lemma ValueOrdersTotal()
    ensures TotalPreorder(ValueLe) && TotalPreorder(ValueGe)
  {
  }

  /** `p` holds each entry of `m` exactly once and nothing else. */
  predicate EntriesOf(p: seq<Pair>, m: map<string, int>) {
    && |p| == |m|
    && (forall i :: 0 <= i < |p| ==> p[i].Key in m && m[p[i].Key] == p[i].Value)
    && (forall i, j :: 0 <= i < j < |p| ==> p[i].Key != p[j].Key)
  }

  /** A permutation of the entries of `m` is again the entries of `m`. */
  lemma EntriesOfPermutation(p: seq<Pair>, q: seq<Pair>, m: map<string, int>)
    requires EntriesOf(p, m) && multiset(p) == multiset(q)
    ensures EntriesOf(q, m)
  {
    assert |q| == |multiset(q)| == |multiset(p)| == |p|;
    forall i | 0 <= i < |q| ensures q[i] in p {
      assert q[i] in multiset(q);
    }
    ValuesOnce(p);
    forall i, j | 0 <= i < j < |q| ensures q[i].Key != q[j].Key {
      if q[i].Key == q[j].Key {
        assert q[i] in p && q[j] in p;
        CountTwo(q, i, j);
      }
    }
  }

  /** With distinct keys, no pair occurs twice. */
  lemma {:induction false} ValuesOnce(p: seq<Pair>)
    requires forall i, j :: 0 <= i < j < |p| ==> p[i].Key != p[j].Key
    ensures forall x :: multiset(p)[x] <= 1
  {
    if p != [] {
      var init := p[..|p| - 1];
      ValuesOnce(init);
      assert p == init + [p[|p| - 1]];
      assert p[|p| - 1] !in init;
    }
  }

  lemma CountTwo(q: seq<Pair>, i: nat, j: nat)
    requires i < j < |q| && q[i] == q[j]
    ensures multiset(q)[q[i]] >= 2
  {
    assert q == q[..i] + [q[i]] + q[i + 1..j] + [q[j]] + q[j + 1..];
  }

  /** Every key of `m` is the key of some pair of `p`. */
  lemma EntriesOfComplete(p: seq<Pair>, m: map<string, int>)
    requires EntriesOf(p, m)
    ensures forall k :: k in m ==> Pair(k, m[k]) in p
  {
    var keys := set i | 0 <= i < |p| :: p[i].Key;
    assert keys <= m.Keys;
    assert |keys| == |p| by {
      KeysOfDistinct(p);
    }
    EqualSubset(keys, m.Keys);
    forall k | k in m ensures Pair(k, m[k]) in p {
      assert k in keys;
    }
  }

  lemma {:induction false} KeysOfDistinct(p: seq<Pair>)
    requires forall i, j :: 0 <= i < j < |p| ==> p[i].Key != p[j].Key
    ensures |set i | 0 <= i < |p| :: p[i].Key| == |p|
  {
    if p != [] {
      var init := p[..|p| - 1];
      KeysOfDistinct(init);
      var s := set i | 0 <= i < |init| :: init[i].Key;
      assert (set i | 0 <= i < |p| :: p[i].Key) == s + {p[|p| - 1].Key};
      assert p[|p| - 1].Key !in s;
    }
  }

  lemma EqualSubset(a: set<string>, b: set<string>)
    requires a <= b && |a| == |b|
    ensures a == b
  {
    assert b == a + (b - a);
    assert a * (b - a) == {};
    assert |b - a| == 0;
  }

  /** The first loop of SortMapByValue (sortmap.go:18-23): every entry of
      `m`, in map iteration order, into a slice of len(m). */
  method Entries(m: map<string, int>) returns (p: array<Pair>)
    ensures fresh(p) && EntriesOf(p[..], m)
  {
    p := new Pair[|m|];
    var i := 0;
    var rest := m.Keys;
    while rest != {}
      invariant rest <= m.Keys && i + |rest| == |m| == p.Length
      invariant forall k :: 0 <= k < i ==> p[k].Key in m.Keys - rest && m[p[k].Key] == p[k].Value
      invariant forall k, l :: 0 <= k < l < i ==> p[k].Key != p[l].Key
      decreases |rest|
    {
      var key :| key in rest;
      p[i] := Pair(key, m[key]);
      i := i + 1;
      rest := rest - {key};
    }
  }

  /** SortMapByValue (sortmap.go:16-29): the entries of `m`, then sorted by
      value; ties come out in any order. */
  method SortMapByValue(m: map<string, int>, descending: bool) returns (r: seq<Pair>)
    ensures EntriesOf(r, m)
    ensures forall k :: k in m ==> Pair(k, m[k]) in r
    ensures descending ==> SortedBy(r, ValueGe)
    ensures !descending ==> SortedBy(r, ValueLe)
  {
    var p := Entries(m);
    ValueOrdersTotal();
    if descending {
      r := SortBy(p[..], ValueGe);
    } else {
      r := SortBy(p[..], ValueLe);
    }
    EntriesOfPermutation(p[..], r, m);
    EntriesOfComplete(r, m);
  }
}
