/** `itertools.product(xs, repeat=k)`: all length-k lists over `xs`, with the last position running
    fastest. */
module Products {
  import opened Orders

  function Pow(b: nat, e: nat): nat
  {
    if e == 0 then 1 else b * Pow(b, e - 1)
  }

  function ConsEach<T>(x: T, tails: seq<seq<T>>): (r: seq<seq<T>>)
    ensures |r| == |tails|
  {
    seq(|tails|, i requires 0 <= i < |tails| => [x] + tails[i])
  }

  function ConsAll<T>(xs: seq<T>, tails: seq<seq<T>>): (r: seq<seq<T>>)
    ensures |r| == |xs| * |tails|
  {
    if xs == [] then []
    else
      assert |xs| * |tails| == |tails| + |xs[1..]| * |tails|;
      ConsEach(xs[0], tails) + ConsAll(xs[1..], tails)
  }

  function Product<T>(xs: seq<T>, k: nat): (r: seq<seq<T>>)
    ensures |r| == Pow(|xs|, k)
  {
    if k == 0 then [[]] else ConsAll(xs, Product(xs, k - 1))
  }

  lemma {:induction false} ConsAllAt<T>(xs: seq<T>, tails: seq<seq<T>>, i: nat, k: nat)
    requires i < |xs| && k < |tails|
    ensures i * |tails| + k < |xs| * |tails| && ConsAll(xs, tails)[i * |tails| + k] == [xs[i]] + tails[k]
  {
    assert |xs| * |tails| == |tails| + |xs[1..]| * |tails|;
    if i == 0 {
    } else {
      ConsAllAt(xs[1..], tails, i - 1, k);
      assert i * |tails| + k == |tails| + ((i - 1) * |tails| + k);
    }
  }

  /** The first position runs slowest: the vectors that start with element `i` stand together, and
      go on as in the shorter product. */
  lemma ProductOrder<T>(xs: seq<T>, n: nat, i: nat, k: nat)
    requires i < |xs| && k < Pow(|xs|, n)
    ensures var at := i * Pow(|xs|, n) + k;
            at < |Product(xs, n + 1)| && Product(xs, n + 1)[at] == [xs[i]] + Product(xs, n)[k]
  {
    ConsAllAt(xs, Product(xs, n), i, k);
  }

  lemma {:induction false} ConsAllMembers<T>(xs: seq<T>, tails: seq<seq<T>>, v: seq<T>)
    ensures v in ConsAll(xs, tails) <==> v != [] && v[0] in xs && v[1..] in tails
  {
    if xs == [] {
    } else {
      ConsAllMembers(xs[1..], tails, v);
      var head := ConsEach(xs[0], tails);
      assert xs == [xs[0]] + xs[1..];
      if v != [] && v[0] == xs[0] && v[1..] in tails {
        var i :| 0 <= i < |tails| && tails[i] == v[1..];
        assert head[i] == v;
      }
      if v in head {
        var i :| 0 <= i < |head| && head[i] == v;
        assert v == [xs[0]] + tails[i] && v[1..] == tails[i];
      }
    }
  }

  /** The product lists exactly the vectors of length `k` with entries in `xs`. */
  lemma {:induction false} ProductMembers<T>(xs: seq<T>, k: nat, v: seq<T>)
    ensures v in Product(xs, k) <==> |v| == k && forall i :: 0 <= i < k ==> v[i] in xs
  {
    if k == 0 {
    } else {
      ConsAllMembers(xs, Product(xs, k - 1), v);
      if v != [] {
        ProductMembers(xs, k - 1, v[1..]);
        assert forall i :: 0 <= i < |v[1..]| ==> v[1..][i] == v[i + 1];
        if |v| == k && forall i :: 0 <= i < k ==> v[i] in xs {
          assert forall i :: 0 <= i < k - 1 ==> v[1..][i] in xs;
        }
        if v[0] in xs && |v| == k && forall i :: 0 <= i < k - 1 ==> v[1..][i] in xs {
          forall i | 0 <= i < k ensures v[i] in xs {
            if i > 0 { assert v[1..][i - 1] in xs; }
          }
        }
      }
    }
  }

  /** The first vector repeats the first element. */
  lemma {:induction false} ProductFirst<T>(xs: seq<T>, k: nat)
    requires xs != []
    ensures Product(xs, k) != []
    ensures Product(xs, k)[0] == seq(k, _ => xs[0])
  {
    if k == 0 {
    } else {
      ProductFirst(xs, k - 1);
      var tails := Product(xs, k - 1);
      assert ConsAll(xs, tails)[0] == ConsEach(xs[0], tails)[0];
    }
  }

  function Range(n: nat): (r: seq<int>)
    ensures |r| == n && forall i :: 0 <= i < n ==> r[i] == i
    ensures forall x :: x in r <==> 0 <= x < n
  {
    if n == 0 then [] else Range(n - 1) + [n - 1]
  }

  /** The elements 0..n. */
  function Carrier(n: nat): set<int>
  {
    set x | x in Range(n)
  }

  lemma {:induction false} CarrierSize(n: nat)
    ensures |Carrier(n)| == n
  {
    if n <= 0 {
    } else {
      CarrierSize(n - 1);
      assert Carrier(n) == Carrier(n - 1) + {n - 1};
    }
  }

  /** A list of different numbers below `n` is no longer than `n`; if as long, it lists them all. */
  lemma DistinctBelow(s: seq<int>, n: nat)
    requires NoDuplicates(s) && forall i :: 0 <= i < |s| ==> 0 <= s[i] < n
    ensures |s| <= n
    ensures |s| == n ==> forall x :: 0 <= x < n ==> x in s
  {
    CarrierSize(n);
    DistinctInSet(s, Carrier(n));
  }

  /** `dict(zip(vs, vals))`. */
  function Zip<V>(vs: seq<string>, vals: seq<V>): (env: map<string, V>)
    requires |vs| == |vals|
    ensures forall v :: v in env <==> v in vs
  {
    if vs == [] then map[]
    else
      assert vs == vs[..|vs| - 1] + [vs[|vs| - 1]];
      Zip(vs[..|vs| - 1], vals[..|vs| - 1])[vs[|vs| - 1] := vals[|vs| - 1]]
  }

  lemma {:induction false} ZipAt<V>(vs: seq<string>, vals: seq<V>, i: nat)
    requires |vs| == |vals| && i < |vs|
    requires NoDuplicates(vs)
    ensures vs[i] in Zip(vs, vals) && Zip(vs, vals)[vs[i]] == vals[i]
  {
    var m := |vs| - 1;
    if i == m {
    } else {
      assert vs[i] != vs[m];
      ZipAt(vs[..m], vals[..m], i);
    }
  }

  function EnvVector<V>(vs: seq<string>, env: map<string, V>): (w: seq<V>)
    requires forall v :: v in vs ==> v in env
    ensures |w| == |vs| && forall i :: 0 <= i < |vs| ==> w[i] == env[vs[i]]
  {
    seq(|vs|, i requires 0 <= i < |vs| => env[vs[i]])
  }

  lemma ZipOfVector<V>(vs: seq<string>, env: map<string, V>)
    requires NoDuplicates(vs)
    requires forall v :: v in vs <==> v in env
    ensures Zip(vs, EnvVector(vs, env)) == env
  {
    var w := EnvVector(vs, env);
    forall v | v in env ensures Zip(vs, w)[v] == env[v] {
      var i :| 0 <= i < |vs| && vs[i] == v;
      ZipAt(vs, w, i);
    }
  }

  /** Every assignment of the variables is the zip of one vector of the product. */
  lemma EnvIsZip<V(!new)>(vs: seq<string>, xs: seq<V>, env: map<string, V>) returns (k: nat)
    requires NoDuplicates(vs)
    requires forall v :: v in vs <==> v in env
    requires forall v :: v in env ==> env[v] in xs
    ensures k < |Product(xs, |vs|)|
    ensures |Product(xs, |vs|)[k]| == |vs| && Zip(vs, Product(xs, |vs|)[k]) == env
  {
    var w := EnvVector(vs, env);
    ProductMembers(xs, |vs|, w);
    k :| 0 <= k < |Product(xs, |vs|)| && Product(xs, |vs|)[k] == w;
    ZipOfVector(vs, env);
  }
}
