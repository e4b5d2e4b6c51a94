/** The index from states to their outgoing transitions, built by counting and bucketing, and the scan
    that finds the triggered transitions through it. */
module TransitionIndex {
  import opened Containment
  import opened Kernel

  /** Positions of s in froms, ascending. */
  function IndicesOf(froms: seq<nat>, s: nat): (r: seq<int>) {
    if froms == [] then []
    else
      var r := IndicesOf(froms[..|froms| - 1], s);
      if froms[|froms| - 1] == s then r + [|froms| - 1] else r
  }

  lemma {:induction false} IndicesOfAre(froms: seq<nat>, s: nat)
    ensures forall k ::
      0 <= k < |IndicesOf(froms, s)| ==> 0 <= IndicesOf(froms, s)[k] < |froms| && froms[IndicesOf(froms, s)[k]] == s
    ensures forall k, l :: 0 <= k < l < |IndicesOf(froms, s)| ==> IndicesOf(froms, s)[k] < IndicesOf(froms, s)[l]
    ensures forall j :: 0 <= j < |froms| && froms[j] == s ==> j in IndicesOf(froms, s)
    decreases |froms|
  {
    if froms != [] {
      var n := |froms| - 1;
      IndicesOfAre(froms[..n], s);
      assert forall j :: 0 <= j < n ==> froms[..n][j] == froms[j];
    }
  }

  lemma {:induction false} IndicesGrow(froms: seq<nat>, j: nat, s: nat)
    requires j <= |froms|
    ensures |IndicesOf(froms[..j], s)| <= |IndicesOf(froms, s)|
    decreases |froms|
  {
    if j < |froms| {
      var n := |froms| - 1;
      assert froms[..n][..j] == froms[..j];
      IndicesGrow(froms[..n], j, s);
    } else {
      assert froms[..j] == froms;
    }
  }

  /** The transitions of one source state; state 0 is no source. */
  function Outgoing(froms: seq<nat>, s: nat): (r: seq<int>) {
    if s == 0 then [] else IndicesOf(froms, s)
  }

  /** The lists of the states below k, each ended by -1. */
  function SlotsBelow(froms: seq<nat>, k: nat): (r: seq<int>) {
    if k == 0 then [] else SlotsBelow(froms, k - 1) + Outgoing(froms, k - 1) + [-1]
  }

  /** The index is right: where each state's list starts, and what the lists hold. */
  ghost predicate IndexOk(n: nat, froms: seq<nat>, starts: seq<nat>, slots: seq<int>) {
    && |starts| == n + 1
    && slots == SlotsBelow(froms, n + 1)
    && forall s {:trigger starts[s]} :: 0 <= s <= n ==> starts[s] == |SlotsBelow(froms, s)|
  }

  /** Reading the index: the list of s stands at its start, followed by -1. */
  lemma {:induction false} SlotsAt(froms: seq<nat>, n: nat, s: nat) returns (rest: seq<int>)
    requires s <= n
    ensures SlotsBelow(froms, n + 1) == SlotsBelow(froms, s) + Outgoing(froms, s) + [-1] + rest
    decreases n
  {
    if s == n {
      rest := [];
    } else {
      rest := SlotsAt(froms, n - 1, s);
      rest := rest + Outgoing(froms, n) + [-1];
    }
  }

  // ---------------------------------------------------------------------- building the index

  /** Where the bucket of state s starts, with room for m transitions and their number in each bucket. */
  function Base(s: nat, m: nat): (b: nat)
    requires 1 <= s
  {
    if s == 1 then 0 else Base(s - 1, m) + (m + 1)
  }

  lemma {:induction false} BaseProduct(s: nat, m: nat)
    requires 1 <= s
    ensures Base(s, m) == (s - 1) * (m + 1)
  {
    if s > 1 {
      BaseProduct(s - 1, m);
    }
  }

  /** Buckets do not overlap. */
  lemma {:induction false} BasesApart(s: nat, s': nat, m: nat)
    requires 1 <= s < s'
    ensures Base(s, m) + (m + 1) <= Base(s', m)
    decreases s'
  {
    if s < s' - 1 {
      BasesApart(s, s' - 1, m);
    }
  }

  lemma BaseInRange(s: nat, m: nat, n: nat)
    requires 1 <= s <= n
    ensures Base(s, m) + (m + 1) <= (m + 1) * n
  {
    BasesApart(s, n + 1, m);
    BaseProduct(n + 1, m);
  }

  /** The bucket of s holds the transitions of s among the first j. */
  ghost predicate Bucket(vv: seq<int>, froms: seq<nat>, j: nat, m: nat, s: nat)
    requires 1 <= s && j <= |froms|
  {
    var r := IndicesOf(froms[..j], s);
    && |r| <= m && Base(s, m) + (m + 1) <= |vv|
    && vv[Base(s, m)] == |r|
    && vv[Base(s, m) + 1..Base(s, m) + 1 + |r|] == r
  }

  ghost predicate Buckets(vv: seq<int>, froms: seq<nat>, j: nat, m: nat, n: nat)
    requires j <= |froms|
  {
    forall s {:trigger Bucket(vv, froms, j, m, s)} :: 1 <= s <= n ==> Bucket(vv, froms, j, m, s)
  }

  /** Number of transitions per source state. */
  method CountTransitions(n: nat, froms: seq<nat>) returns (v: array<nat>)
    requires forall j :: 0 <= j < |froms| ==> froms[j] <= n
    ensures v.Length == n + 1
    ensures forall s :: 0 <= s <= n ==> v[s] == |Outgoing(froms, s)|
  {
    v := new nat[n + 1](_ => 0);
    var j := 0;
    while j != |froms|
      invariant j <= |froms|
      invariant forall s :: 0 <= s <= n ==> v[s] == |Outgoing(froms[..j], s)|
    {
      assert froms[..j + 1][..j] == froms[..j];
      if froms[j] != 0 {
        v[froms[j]] := v[froms[j]] + 1;
      }
      j := j + 1;
    }
    assert froms[..j] == froms;
  }

  method Maximum(v: array<nat>) returns (m: nat)
    ensures forall s :: 0 <= s < v.Length ==> v[s] <= m
  {
    m := 0;
    var i := 0;
    while i != v.Length
      invariant i <= v.Length
      invariant forall s :: 0 <= s < i ==> v[s] <= m
    {
      if v[i] > m {
        m := v[i];
      }
      i := i + 1;
    }
  }

  lemma BucketStep(vv: seq<int>, froms: seq<nat>, j: nat, m: nat, n: nat, s: nat, vv': seq<int>)
    requires j < |froms| && 1 <= froms[j] <= n && 1 <= s <= n
    requires Bucket(vv, froms, j, m, froms[j]) && Bucket(vv, froms, j, m, s)
    requires var r := IndicesOf(froms[..j], froms[j]);
      |r| + 1 <= m && vv' == vv[Base(froms[j], m) := |r| + 1][Base(froms[j], m) + |r| + 1 := j]
    ensures Bucket(vv', froms, j + 1, m, s)
  {
    var f := froms[j];
    assert froms[..j + 1][..j] == froms[..j];
    var r := IndicesOf(froms[..j], s);
    var b := Base(s, m);
    if s != f {
      if s < f {
        BasesApart(s, f, m);
      } else {
        BasesApart(f, s, m);
      }
      assert vv'[b + 1..b + 1 + |r|] == vv[b + 1..b + 1 + |r|];
    } else {
      assert vv'[b + 1..b + 1 + |r| + 1] == vv[b + 1..b + 1 + |r|] + [j];
    }
  }

  lemma BucketsEmpty(vv: seq<int>, froms: seq<nat>, m: nat, n: nat)
    requires |vv| == (m + 1) * n && forall i :: 0 <= i < |vv| ==> vv[i] == 0
    ensures Buckets(vv, froms, 0, m, n)
  {
    forall s | 1 <= s <= n
      ensures Bucket(vv, froms, 0, m, s)
    {
      BaseInRange(s, m, n);
    }
  }

  /** Distributes the transitions over the buckets of their source states. */
  method FillBuckets(n: nat, froms: seq<nat>, m: nat) returns (vv: array<int>)
    requires forall j :: 0 <= j < |froms| ==> froms[j] <= n
    requires forall s: nat {:trigger IndicesOf(froms, s)} :: 1 <= s <= n ==> |IndicesOf(froms, s)| <= m
    ensures Buckets(vv[..], froms, |froms|, m, n)
  {
    vv := new int[(m + 1) * n](_ => 0);
    var j := 0;
    BucketsEmpty(vv[..], froms, m, n);
    while j != |froms|
      invariant j <= |froms|
      invariant Buckets(vv[..], froms, j, m, n)
    {
      if froms[j] != 0 {
        PlaceTransition(vv, froms, j, m, n);
      } else {
        BucketsSkip(vv[..], froms, j, m, n);
      }
      j := j + 1;
    }
  }

  /** The body of the loop in FillBuckets. */
  method PlaceTransition(vv: array<int>, froms: seq<nat>, j: nat, m: nat, n: nat)
    requires j < |froms| && 1 <= froms[j] <= n && Buckets(vv[..], froms, j, m, n)
    requires |IndicesOf(froms, froms[j])| <= m
    modifies vv
    ensures Buckets(vv[..], froms, j + 1, m, n)
  {
    ghost var before := vv[..];
    var s := froms[j];
    var s_i := (s - 1) * (m + 1);
    BaseProduct(s, m);
    assert Bucket(before, froms, j, m, s);
    assert froms[..j + 1][..j] == froms[..j];
    IndicesGrow(froms, j + 1, s);
    vv[s_i] := vv[s_i] + 1;
    vv[s_i + vv[s_i]] := j;
    BucketsStep(before, froms, j, m, n, vv[..]);
  }

  lemma BucketsSkip(vv: seq<int>, froms: seq<nat>, j: nat, m: nat, n: nat)
    requires j < |froms| && froms[j] == 0 && Buckets(vv, froms, j, m, n)
    ensures Buckets(vv, froms, j + 1, m, n)
  {
    assert froms[..j + 1][..j] == froms[..j];
    var next := j + 1;
    forall s | 1 <= s <= n
      ensures Bucket(vv, froms, next, m, s)
    {
      assert Bucket(vv, froms, j, m, s);
    }
  }

  lemma BucketsStep(vv: seq<int>, froms: seq<nat>, j: nat, m: nat, n: nat, vv': seq<int>)
    requires j < |froms| && 1 <= froms[j] <= n && Buckets(vv, froms, j, m, n)
    requires Bucket(vv, froms, j, m, froms[j])
    requires var r := IndicesOf(froms[..j], froms[j]);
      |r| + 1 <= m && vv' == vv[Base(froms[j], m) := |r| + 1][Base(froms[j], m) + |r| + 1 := j]
    ensures Buckets(vv', froms, j + 1, m, n)
  {
    var next := j + 1;
    forall s | 1 <= s <= n
      ensures Bucket(vv', froms, next, m, s)
    {
      assert Bucket(vv, froms, j, m, s);
      BucketStep(vv, froms, j, m, n, s, vv');
    }
  }

  /** Counts, buckets and concatenates. */
  method BuildIndexByBuckets(n: nat, froms: seq<nat>) returns (starts: seq<nat>, slots: seq<int>)
    requires forall j :: 0 <= j < |froms| ==> froms[j] <= n
    ensures IndexOk(n, froms, starts, slots)
  {
    var v := CountTransitions(n, froms);
    var m := Maximum(v);
    forall s: nat | 1 <= s <= n
      ensures |IndicesOf(froms, s)| <= m
    {
      assert v[s] == |Outgoing(froms, s)|;
    }
    var vv := FillBuckets(n, froms, m);
    ghost var filled := vv[..];
    assert froms[..|froms|] == froms;
    starts, slots := [0], [-1];
    var s := 1;
    while s <= n
      invariant 1 <= s <= n + 1
      invariant vv[..] == filled
      invariant |starts| == s && slots == SlotsBelow(froms, s)
      invariant forall k {:trigger starts[k]} :: 0 <= k < s ==> starts[k] == |SlotsBelow(froms, k)|
    {
      starts := starts + [|slots|];
      ghost var list := IndicesOf(froms, s);
      assert Bucket(filled, froms, |froms|, m, s);
      BaseProduct(s, m);
      var at := (s - 1) * (m + 1);
      var bucket := AppendBucket(vv, at, list);
      slots := slots + bucket;
      slots := slots + [-1];
      s := s + 1;
    }
  }

  /** The transitions of one bucket. */
  method AppendBucket(vv: array<int>, at: nat, ghost list: seq<int>) returns (bucket: seq<int>)
    requires at + 1 + |list| <= vv.Length && vv[at] == |list| && vv[at + 1..at + 1 + |list|] == list
    ensures bucket == list
  {
    bucket := [];
    var ts := vv[at];
    if ts > 0 {
      var i := 0;
      while i < ts
        invariant 0 <= i <= ts == |list|
        invariant bucket == list[..i]
      {
        assert vv[at + 1..at + 1 + |list|][i] == list[i];
        bucket := bucket + [vv[at + i + 1]];
        i := i + 1;
      }
    }
  }

  /** The nested scan over states and transitions. */
  method BuildIndexByScan(n: nat, froms: seq<nat>) returns (starts: seq<nat>, slots: seq<int>)
    ensures IndexOk(n, froms, starts, slots)
  {
    starts, slots := [], [];
    var i := 0;
    while i < n + 1
      invariant i <= n + 1
      invariant |starts| == i && slots == SlotsBelow(froms, i)
      invariant forall k {:trigger starts[k]} :: 0 <= k < i ==> starts[k] == |SlotsBelow(froms, k)|
    {
      starts := starts + [|slots|];
      var list := ScanOutgoing(froms, i);
      slots := slots + list;
      slots := slots + [-1];
      i := i + 1;
    }
  }

  /** The inner loop of the nested scan. */
  method ScanOutgoing(froms: seq<nat>, i: nat) returns (list: seq<int>)
    ensures list == Outgoing(froms, i)
  {
    list := [];
    var j := 0;
    while j != |froms|
      invariant j <= |froms|
      invariant list == Outgoing(froms[..j], i)
    {
      assert froms[..j + 1][..j] == froms[..j];
      if froms[j] != 0 && froms[j] == i {
        list := list + [j];
      }
      j := j + 1;
    }
    assert froms[..j] == froms;
  }

  /** Both constructions give the same index: it is determined by n and the sources. */
  lemma IndexUnique(n: nat, froms: seq<nat>, starts: seq<nat>, slots: seq<int>, starts': seq<nat>, slots': seq<int>)
    requires IndexOk(n, froms, starts, slots) && IndexOk(n, froms, starts', slots')
    ensures starts == starts' && slots == slots'
  {
    assert forall s :: 0 <= s <= n ==> starts[s] == starts'[s];
  }
}
