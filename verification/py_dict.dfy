/** `dict(zip(keys, values))`: the pairs of the two lists up to the shorter
    one, a later value replacing an earlier one under the same key, and the
    keys iterated in order of first insertion. */
module PyDict {

  function MinLen<V>(ks: seq<string>, vs: seq<V>): nat {
    if |ks| <= |vs| then |ks| else |vs|
  }

  /** The mapping of `dict(zip(ks, vs))`. */
  function ZipMap<V>(ks: seq<string>, vs: seq<V>): (m: map<string, V>)
    ensures forall k :: k in m <==> k in ks[..MinLen(ks, vs)]
    decreases |ks|
  {
    var n := MinLen(ks, vs);
    if n == 0 then map[]
    else
      var m := ZipMap(ks[..n - 1], vs[..n - 1]);
      assert ks[..n - 1][..MinLen(ks[..n - 1], vs[..n - 1])] == ks[..n - 1];
      assert ks[..n] == ks[..n - 1] + [ks[n - 1]];
      m[ks[n - 1] := vs[n - 1]]
  }

  /** Under every key is the value paired with its last occurrence. */
  lemma {:induction false} ZipMapLast<V>(ks: seq<string>, vs: seq<V>, i: nat)
    requires i < MinLen(ks, vs)
    requires forall j :: i < j < MinLen(ks, vs) ==> ks[j] != ks[i]
    ensures ks[i] in ZipMap(ks, vs) && ZipMap(ks, vs)[ks[i]] == vs[i]
    decreases |ks|
  {
    var n := MinLen(ks, vs);
    if i < n - 1 {
      assert MinLen(ks[..n - 1], vs[..n - 1]) == n - 1;
      ZipMapLast(ks[..n - 1], vs[..n - 1], i);
    }
  }

  /** The keys without repetition, in order of first occurrence. */
  function Dedup(xs: seq<string>): (r: seq<string>)
    ensures forall x :: x in r <==> x in xs
    ensures forall a, b :: 0 <= a < b < |r| ==> r[a] != r[b]
    decreases |xs|
  {
    if xs == [] then []
    else
      var init := Dedup(xs[..|xs| - 1]);
      var last := xs[|xs| - 1];
      assert xs == xs[..|xs| - 1] + [last];
      if last in xs[..|xs| - 1] then init else init + [last]
  }

  /** A key comes before another in the iteration order exactly when its
      first occurrence does. */
  lemma {:induction false} DedupFirstOccurrence(xs: seq<string>, a: nat, b: nat)
    requires a < b < |Dedup(xs)|
    ensures exists i, j :: 0 <= i < j < |xs| && xs[i] == Dedup(xs)[a] && xs[j] == Dedup(xs)[b]
                           && Dedup(xs)[b] !in xs[..j]
    decreases |xs|
  {
    var init := xs[..|xs| - 1];
    var last := xs[|xs| - 1];
    var r := Dedup(xs);
    assert xs == init + [last];
    if last in init || b < |Dedup(init)| {
      assert r[..|Dedup(init)|] == Dedup(init);
      DedupFirstOccurrence(init, a, b);
      var i, j :| 0 <= i < j < |init| && init[i] == Dedup(init)[a] && init[j] == Dedup(init)[b]
                  && Dedup(init)[b] !in init[..j];
      assert xs[i] == init[i] && xs[j] == init[j] && xs[..j] == init[..j];
    } else {
      assert r == Dedup(init) + [last] && b == |Dedup(init)|;
      assert r[a] in init;
      var i :| 0 <= i < |init| && init[i] == r[a];
      assert xs[i] == r[a] && xs[|xs| - 1] == r[b] && xs[..|xs| - 1] == init;
    }
  }
}
