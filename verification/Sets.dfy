/** Facts about finite sets, maps and sequences shared by the other modules. */
module Sets {

  ghost predicate NoRepeats(l: seq<nat>) {
    forall i, j :: 0 <= i < j < |l| ==> l[i] != l[j]
  }

  ghost function Elements(l: seq<nat>): (r: set<nat>)
    ensures forall x: nat :: x in r <==> x in l
  {
    set x | x in l
  }

  lemma {:induction false} ElementsSize(l: seq<nat>)
    requires NoRepeats(l)
    ensures |Elements(l)| == |l|
  {
    if l == [] {
      assert Elements(l) == {};
    } else {
      var last, rest := l[|l| - 1], l[..|l| - 1];
      ElementsSize(rest);
      assert Elements(l) == Elements(rest) + {last};
    }
  }

  lemma Pick<T>(s: set<T>) returns (a: T)
    requires s != {}
    ensures a in s
  {
    a :| a in s;
  }

  lemma SubsetSize<T>(a: set<T>, b: set<T>)
    requires a <= b
    ensures |a| <= |b|
    ensures |a| == |b| ==> a == b
  {
    assert b == a + (b - a);
  }

  ghost function Range(n: nat): (r: set<int>)
    ensures forall k :: k in r <==> 0 <= k < n
    ensures |r| == n
  {
    if n == 0 then {} else Range(n - 1) + {n - 1}
  }

  /** The numbers below `n`, split into three. */
  lemma ThreeParts(a: set<nat>, b: set<nat>, m: nat, n: nat)
    requires m <= n && a !! b
    requires forall x: nat :: x in a || x in b <==> m <= x < n
    ensures |a| + |b| == n - m
  {
    var c, low, all: set<int> := a + b, Range(m), Range(n);
    assert c + low == all && c !! low;
    assert |c + low| == |c| + |low|;
  }

  /** Sum of a map's values. */
  ghost function MapSum<K>(m: map<K, nat>): nat
    decreases |m|
  {
    if m.Keys == {} then 0
    else
      var k :| k in m.Keys;
      m[k] + MapSum(m - {k})
  }

  lemma {:induction false} MapSumRemove<K>(m: map<K, nat>, k: K)
    requires k in m
    ensures MapSum(m) == m[k] + MapSum(m - {k})
    decreases |m|
  {
    var a :| a in m.Keys && MapSum(m) == m[a] + MapSum(m - {a});
    if a != k {
      MapSumRemove(m - {a}, k);
      MapSumRemove(m - {k}, a);
      assert m - {a} - {k} == m - {k} - {a};
    }
  }

  lemma MapSumInsert<K>(m: map<K, nat>, k: K, v: nat)
    requires k !in m
    ensures MapSum(m[k := v]) == MapSum(m) + v
  {
    MapSumRemove(m[k := v], k);
    assert m[k := v] - {k} == m;
  }

  lemma MapSumUpdate<K>(m: map<K, nat>, k: K, v: nat)
    requires k in m
    ensures MapSum(m[k := v]) == MapSum(m) - m[k] + v
  {
    MapSumRemove(m, k);
    MapSumRemove(m[k := v], k);
    assert m[k := v] - {k} == m - {k};
  }
}
