/** The transition kernel: the triggered transitions and the joins applied to a configuration. */
module Kernel {
  import opened Containment
  import opened Closure

  datatype Transition = Transition(smp: nat, from: nat, to: nat, ev: int, isAbstract: bool, guarded: bool)

  ghost predicate EndpointsOk(t: Tables, tr: Transition) {
    Node(t, tr.from) && Node(t, tr.to)
  }

  ghost predicate AllEndpointsOk(t: Tables, ts: seq<Transition>) {
    forall i :: 0 <= i < |ts| ==> EndpointsOk(t, ts[i])
  }

  /** The transition enters or leaves a machine, or connects states of different machines. */
  predicate Crosses(t: Tables, tr: Transition)
    requires EndpointsOk(t, tr)
  {
    t.parent[tr.from] != t.parent[tr.to] || t.sm[tr.from] || t.sm[tr.to]
  }

  function Move(v: Config, tr: Transition): (w: Config)
    requires tr.from < |v| && tr.to < |v|
  {
    v[tr.from := false][tr.to := true]
  }

  /** The transitions applied in order. */
  ghost function Moves(t: Tables, v: Config, ts: seq<Transition>): (w: Config)
    requires Cfg(t, v) && AllEndpointsOk(t, ts)
    ensures Cfg(t, w)
  {
    if ts == [] then v
    else
      assert EndpointsOk(t, ts[|ts| - 1]);
      Move(Moves(t, v, ts[..|ts| - 1]), ts[|ts| - 1])
  }

  /** The last transition that mentions a state decides about it; entering wins over leaving. */
  lemma {:induction false} LastMoveDecides(t: Tables, v: Config, ts: seq<Transition>, k: nat, x: nat)
    requires Cfg(t, v) && AllEndpointsOk(t, ts) && x <= t.n && k <= |ts|
    requires forall i :: k <= i < |ts| ==> ts[i].from != x && ts[i].to != x
    requires k > 0 ==> ts[k - 1].from == x || ts[k - 1].to == x
    ensures Moves(t, v, ts)[x] == if k == 0 then v[x] else ts[k - 1].to == x
    decreases |ts|
  {
    if k < |ts| {
      LastMoveDecides(t, v, ts[..|ts| - 1], k, x);
    }
  }

  // ---------------------------------------------------------------------- joins

  /** The region whose join may be due after entering x (0 = none). */
  function DueRegion(t: Tables, x: nat): (r: nat)
    requires Node(t, x)
    ensures r <= t.n
  {
    if t.inThread[x] && t.final[x] && t.parent[x] != 0 then
      assert Node(t, t.parent[x]);
      t.parent[t.parent[x]]
    else 0
  }

  predicate Due(t: Tables, x: nat)
    requires Node(t, x)
  {
    t.inThread[x] && t.final[x]
  }

  /** The regions whose join is checked, in the order in which their Final states are first entered. */
  ghost function Regions(t: Tables, ts: seq<Transition>): (rs: seq<nat>)
    requires AllEndpointsOk(t, ts)
    ensures forall i :: 0 <= i < |rs| ==> rs[i] <= t.n
    ensures forall i, j :: 0 <= i < j < |rs| ==> rs[i] != rs[j]
  {
    if ts == [] then []
    else
      var rs := Regions(t, ts[..|ts| - 1]);
      var to := ts[|ts| - 1].to;
      assert EndpointsOk(t, ts[|ts| - 1]);
      if Due(t, to) && DueRegion(t, to) !in rs then rs + [DueRegion(t, to)] else rs
  }

  /** Transition i enters the Final state of a thread of r. */
  ghost predicate DueAt(t: Tables, ts: seq<Transition>, i: int, r: nat)
    requires AllEndpointsOk(t, ts) && 0 <= i < |ts|
  {
    EndpointsOk(t, ts[i]) && Due(t, ts[i].to) && DueRegion(t, ts[i].to) == r
  }

  /** A region is checked exactly if some transition enters the Final state of one of its threads. */
  lemma {:induction false} RegionsChecked(t: Tables, ts: seq<Transition>, r: nat)
    requires AllEndpointsOk(t, ts)
    ensures r in Regions(t, ts) <==> exists i :: 0 <= i < |ts| && DueAt(t, ts, i, r)
    decreases |ts|
  {
    if ts != [] {
      var n := |ts| - 1;
      RegionsChecked(t, ts[..n], r);
      assert EndpointsOk(t, ts[n]);
      assert DueAt(t, ts, n, r) <==> Due(t, ts[n].to) && DueRegion(t, ts[n].to) == r;
      if i :| 0 <= i < n && DueAt(t, ts[..n], i, r) {
        assert DueAt(t, ts, i, r);
      }
      if i :| 0 <= i < n && DueAt(t, ts, i, r) {
        assert DueAt(t, ts[..n], i, r);
      }
    }
  }

  ghost predicate CanJoin(t: Tables, r: nat) {
    Node(t, r) && t.join[r] && t.joinState[r] != 0
  }

  /** Every thread of r has reached its Final state. */
  ghost predicate AllFinal(t: Tables, r: nat, v: Config)
    requires Cfg(t, v)
  {
    forall k {:trigger IsThread(t, k, r)} :: IsThread(t, k, r) ==> t.finalState[k] != 0 && v[t.finalState[k]]
  }

  ghost predicate Fires(t: Tables, r: nat, v: Config)
    requires Cfg(t, v)
  {
    CanJoin(t, r) && AllFinal(t, r, v)
  }

  /** w is v with the threads of r left and its join state entered. */
  ghost predicate Joined(t: Tables, r: nat, v: Config, w: Config)
    requires CanJoin(t, r) && Cfg(t, v) && Cfg(t, w)
  {
    forall x {:trigger w[x]} :: Node(t, x) ==> w[x] == (x == t.joinState[r] || (v[x] && !IsThread(t, x, r)))
  }

  /** One region: w is v joined if the join fires, v otherwise. */
  ghost predicate JoinStep(t: Tables, r: nat, v: Config, w: Config) {
    && Cfg(t, v) && Cfg(t, w)
    && if Fires(t, r, v) then Joined(t, r, v, w) else w == v
  }

  /** vs runs from the configuration before the joins to the one after them. */
  ghost predicate JoinRun(t: Tables, regions: seq<nat>, vs: seq<Config>) {
    |vs| == |regions| + 1 && (forall i :: 0 <= i < |vs| ==> Cfg(t, vs[i]))
      && forall i :: 0 <= i < |regions| ==> JoinStep(t, regions[i], vs[i], vs[i + 1])
  }

  lemma JoinRunExtend(t: Tables, regions: seq<nat>, vs: seq<Config>, vs': seq<Config>, i: nat)
    requires i < |regions| && JoinRun(t, regions[..i], vs) && |vs'| == i + 2 && vs'[..i + 1] == vs
    requires JoinStep(t, regions[i], vs'[i], vs'[i + 1])
    ensures JoinRun(t, regions[..i + 1], vs')
    ensures forall k :: 0 <= k <= i ==> vs'[k] == vs[k]
  {
    forall k | 0 <= k <= i
      ensures JoinStep(t, regions[..i + 1][k], vs'[k], vs'[k + 1])
    {
      if k < i {
        assert JoinStep(t, regions[..i][k], vs[k], vs[k + 1]);
      }
    }
  }

  /** No join fires: the joins change nothing. */
  lemma {:induction false} NoJoin(t: Tables, regions: seq<nat>, vs: seq<Config>)
    requires JoinRun(t, regions, vs)
    requires forall i :: 0 <= i < |regions| ==> !Fires(t, regions[i], vs[i])
    ensures vs[|regions|] == vs[0]
    decreases |regions|
  {
    if regions != [] {
      assert JoinStep(t, regions[0], vs[0], vs[1]);
      NoJoin(t, regions[1..], vs[1..]);
    }
  }

  /** The joins are determined by the configuration they start from. */
  lemma {:induction false} JoinRunUnique(t: Tables, regions: seq<nat>, vs: seq<Config>, us: seq<Config>, k: nat)
    requires JoinRun(t, regions, vs) && JoinRun(t, regions, us) && vs[0] == us[0] && k <= |regions|
    ensures vs[k] == us[k]
    decreases k
  {
    if k > 0 {
      JoinRunUnique(t, regions, vs, us, k - 1);
      assert JoinStep(t, regions[k - 1], vs[k - 1], vs[k]) && JoinStep(t, regions[k - 1], us[k - 1], us[k]);
      assert forall x :: 0 <= x <= t.n ==> Node(t, x) || x == 0;
    }
  }

  /** A join changes only threads of a firing region and its join state. */
  lemma {:induction false} JoinsTouch(t: Tables, regions: seq<nat>, vs: seq<Config>, x: nat)
    requires JoinRun(t, regions, vs) && Node(t, x)
    requires vs[|regions|][x] != vs[0][x]
    ensures exists i ::
      0 <= i < |regions| && Fires(t, regions[i], vs[i]) && (x == t.joinState[regions[i]] || IsThread(t, x, regions[i]))
    decreases |regions|
  {
    var n := |regions| - 1;
    assert JoinStep(t, regions[n], vs[n], vs[n + 1]);
    if vs[n][x] != vs[n + 1][x] {
      assert Fires(t, regions[n], vs[n]);
    } else {
      JoinsTouch(t, regions[..n], vs[..n + 1], x);
      var i :| 0 <= i < n && Fires(t, regions[..n][i], vs[..n + 1][i])
        && (x == t.joinState[regions[..n][i]] || IsThread(t, x, regions[..n][i]));
      assert Fires(t, regions[i], vs[i]);
    }
  }

  // ---------------------------------------------------------------------- the fast branch

  /** Every source is active. */
  ghost predicate Sourced(t: Tables, c: Config, ts: seq<Transition>)
    requires Cfg(t, c)
  {
    AllEndpointsOk(t, ts) && forall i :: 0 <= i < |ts| ==> c[ts[i].from]
  }

  ghost predicate AllLocal(t: Tables, ts: seq<Transition>)
    requires AllEndpointsOk(t, ts)
  {
    forall i :: 0 <= i < |ts| ==> EndpointsOk(t, ts[i]) && !Crosses(t, ts[i])
  }

  /** Transitions within machines alone keep a configuration legal, without the two passes. */
  lemma {:induction false} LocalMovesLegal(t: Tables, c: Config, ts: seq<Transition>)
    requires Legal(t, c) && Sourced(t, c, ts) && AllLocal(t, ts)
    ensures Legal(t, Moves(t, c, ts))
    ensures forall m :: Node(t, m) && t.sm[m] ==> Moves(t, c, ts)[m] == c[m]
    decreases |ts|
  {
    if ts != [] {
      var n := |ts| - 1;
      var v := Moves(t, c, ts[..n]);
      LocalMovesLegal(t, c, ts[..n]);
      assert EndpointsOk(t, ts[n]) && !Crosses(t, ts[n]);
      LocalMove(t, c, v, ts[n]);
    }
  }

  lemma LocalMove(t: Tables, c: Config, v: Config, tr: Transition)
    requires Legal(t, c) && Legal(t, v) && EndpointsOk(t, tr) && !Crosses(t, tr) && c[tr.from]
    requires forall m :: Node(t, m) && t.sm[m] ==> v[m] == c[m]
    ensures Legal(t, Move(v, tr))
    ensures forall m :: Node(t, m) && t.sm[m] ==> Move(v, tr)[m] == c[m]
  {
    var w := Move(v, tr);
    forall m | Node(t, m) && t.sm[m] && w[m]
      ensures !EmptyIn(t, w, m)
    {
      var k :| IsChild(t, k, m) && v[k];
      if m == t.parent[tr.to] {
        assert IsChild(t, tr.to, m) && w[tr.to];
      } else {
        assert w[k];
      }
    }
  }

  /** Unrolling the folds over the transitions by one. */
  lemma OneMore(t: Tables, v: Config, ts: seq<Transition>, p: nat)
    requires Cfg(t, v) && AllEndpointsOk(t, ts) && p < |ts|
    ensures EndpointsOk(t, ts[p]) && AllEndpointsOk(t, ts[..p]) && AllEndpointsOk(t, ts[..p + 1])
    ensures Moves(t, v, ts[..p + 1]) == Move(Moves(t, v, ts[..p]), ts[p])
    ensures AllLocal(t, ts[..p + 1]) <==> AllLocal(t, ts[..p]) && !Crosses(t, ts[p])
    ensures Regions(t, ts[..p + 1]) == var rs := Regions(t, ts[..p]);
      if Due(t, ts[p].to) && DueRegion(t, ts[p].to) !in rs then rs + [DueRegion(t, ts[p].to)] else rs
  {
    assert EndpointsOk(t, ts[p]);
    assert ts[..p + 1][..p] == ts[..p];
    var longer := ts[..p + 1];
    if AllLocal(t, ts[..p]) && !Crosses(t, ts[p]) {
      forall i | 0 <= i < |longer|
        ensures EndpointsOk(t, longer[i]) && !Crosses(t, longer[i])
      {
        assert i < p ==> longer[i] == ts[..p][i];
      }
    }
    if AllLocal(t, ts[..p + 1]) {
      assert ts[..p + 1][p] == ts[p];
      forall i | 0 <= i < |ts[..p]|
        ensures EndpointsOk(t, ts[..p][i]) && !Crosses(t, ts[..p][i])
      {
        assert ts[..p + 1][i] == ts[..p][i];
      }
    }
  }
}
