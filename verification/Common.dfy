/** Small datatypes and sums used by every component. */
module Wrappers {
  datatype Option<+T> = None | Some(value: T)

  /** An address or hash as a field holds it; Absent stands for every falsy JavaScript value. */
  datatype Id = Absent | Id(text: string)

  /** The states of a validator. */
  datatype Status = Active | Inactive | Jailed | Tombstoned

  type Byte = x: nat | x < 0x100

  type Bytes = seq<Byte>

  function Max(x: real, y: real): real { if x < y then y else x }

  function Min(x: real, y: real): real { if x < y then x else y }
}

/** Facts about finite sets and products that several components need. */
module Facts {
  function Pow2(n: nat): (p: nat)
    ensures p >= 1
  {
    if n == 0 then 1 else 2 * Pow2(n - 1)
  }

  lemma SubsetCount<T>(a: set<T>, b: set<T>)
    requires a <= b
    ensures |a| <= |b|
  {
    assert b == a + (b - a);
  }

  lemma SubsetOfSameSize<T>(a: set<T>, b: set<T>)
    requires a <= b && |a| == |b|
    ensures a == b
  {
    assert b == a + (b - a);
  }

  lemma ProductPositive(x: real, y: real)
    requires x > 0.0 && y > 0.0
    ensures x * y > 0.0
  {}
}

/** Finite sums of reals over maps and sequences, with the update and permutation laws the components need. */
module Sums {
  function Get<K(==)>(m: map<K, real>, k: K): real {
    if k in m then m[k] else 0.0
  }

  ghost function OverMap<K>(m: map<K, real>): real {
    if m == map[] then 0.0
    else
      var k :| k in m;
      m[k] + OverMap(m - {k})
  }

  /** The choice of key inside OverMap does not matter. */
  lemma {:induction false} Pick<K>(m: map<K, real>, k: K)
    requires k in m
    ensures OverMap(m) == m[k] + OverMap(m - {k})
  {
    var j :| j in m && OverMap(m) == m[j] + OverMap(m - {j});
    if j != k {
      Pick(m - {j}, k);
      Pick(m - {k}, j);
      assert m - {j} - {k} == m - {k} - {j};
    }
  }

  /** Setting one entry changes the sum by the difference; a missing entry counts as zero. */
  lemma Update<K>(m: map<K, real>, k: K, v: real)
    ensures OverMap(m[k := v]) == OverMap(m) - Get(m, k) + v
  {
    Pick(m[k := v], k);
    assert m[k := v] - {k} == m - {k};
    if k in m {
      Pick(m, k);
    } else {
      assert m - {k} == m;
    }
  }

  /** The sum of a function over the elements of a sequence. */
  ghost function Of<T>(f: T -> real, xs: seq<T>): real {
    if xs == [] then 0.0 else f(xs[0]) + Of(f, xs[1..])
  }

  lemma {:induction false} OfRemove<T>(f: T -> real, xs: seq<T>, k: nat)
    requires k < |xs|
    ensures Of(f, xs) == f(xs[k]) + Of(f, xs[..k] + xs[k + 1..])
  {
    var rest := xs[..k] + xs[k + 1..];
    if k == 0 {
      assert rest == xs[1..];
    } else {
      OfRemove(f, xs[1..], k - 1);
      assert rest[1..] == xs[1..][..k - 1] + xs[1..][k..];
    }
  }

  lemma {:induction false} OfConcat<T>(f: T -> real, xs: seq<T>, ys: seq<T>)
    ensures Of(f, xs + ys) == Of(f, xs) + Of(f, ys)
  {
    if xs == [] {
      assert xs + ys == ys;
    } else {
      assert (xs + ys)[1..] == xs[1..] + ys;
      OfConcat(f, xs[1..], ys);
    }
  }

  lemma RemoveOne<T>(xs: seq<T>, k: nat)
    requires k < |xs|
    ensures multiset(xs[..k] + xs[k + 1..]) == multiset(xs) - multiset{xs[k]}
  {
    assert xs == xs[..k] + [xs[k]] + xs[k + 1..];
  }

  /** A sum does not depend on the order of its terms. */
  lemma {:induction false} OfPermutes<T>(f: T -> real, xs: seq<T>, ys: seq<T>)
    requires multiset(xs) == multiset(ys)
    ensures Of(f, xs) == Of(f, ys)
  {
    if xs == [] {
      assert |multiset(ys)| == 0;
    } else {
      assert xs[0] in multiset(ys);
      var k :| 0 <= k < |ys| && ys[k] == xs[0];
      RemoveOne(ys, k);
      assert multiset(xs[1..]) == multiset(xs) - multiset{xs[0]} by {
        assert xs == [xs[0]] + xs[1..];
      }
      OfRemove(f, ys, k);
      OfPermutes(f, xs[1..], ys[..k] + ys[k + 1..]);
    }
  }

  lemma SameElements<T>(xs: seq<T>, ys: seq<T>)
    requires multiset(xs) == multiset(ys)
    ensures forall x :: x in xs <==> x in ys
  {
    assert forall x :: x in xs <==> x in multiset(xs);
    assert forall x :: x in ys <==> x in multiset(ys);
  }
}
