/** Joins of regions, said over the tables: which regions join after the transitions of a step, and what that
    makes of the configuration. The order in which the regions are checked does not matter. */
module Joins {
  import opened Containment
  import opened Closure
  import opened Kernel
  import opened Steps

  /** Final states are plain states, and no join states. */
  ghost predicate FinalsPlain(t: Tables) {
    forall k {:trigger t.finalState[k]} ::
      Node(t, k) && t.finalState[k] != 0 ==> var f := t.finalState[k];
        Node(t, f) && !t.sm[f] && t.joinState[t.parent[f]] != f
  }

  /** f is the Final state of a thread, and r the region around this thread. */
  ghost predicate FinalBelow(t: Tables, f: nat, r: nat) {
    && Node(t, f) && t.final[f] && t.inThread[f]
    && t.parent[f] != 0 && t.parent[t.parent[f]] == r
  }

  /** Region r has a join with a join state, some transition enters the Final state of a thread of r, and after
      the transitions the Final states of all threads of r are active. */
  ghost predicate Finishes(t: Tables, c: Config, ts: seq<Transition>, r: nat)
    requires Cfg(t, c) && AllEndpointsOk(t, ts)
  {
    && Node(t, r) && t.join[r] && t.joinState[r] != 0
    && (exists i :: 0 <= i < |ts| && FinalBelow(t, ts[i].to, r))
    && (forall k {:trigger t.finalState[k]} ::
          Node(t, k) && t.parent[k] == r && t.sm[k] && t.thread[k] ==>
            t.finalState[k] != 0 && Moves(t, c, ts)[t.finalState[k]])
  }

  /** The joins leave Final states alone. */
  lemma FinalStays(t: Tables, regions: seq<nat>, vs: seq<Config>, i: nat, k: nat)
    requires JoinRun(t, regions, vs) && FinalsPlain(t) && i <= |regions| && Node(t, k) && t.finalState[k] != 0
    ensures vs[i][t.finalState[k]] == vs[0][t.finalState[k]]
  {
    if vs[i][t.finalState[k]] != vs[0][t.finalState[k]] {
      JoinRunPrefix(t, regions, vs, i);
      JoinsTouch(t, regions[..i], vs[..i + 1], t.finalState[k]);
    }
  }

  lemma JoinRunPrefix(t: Tables, regions: seq<nat>, vs: seq<Config>, i: nat)
    requires JoinRun(t, regions, vs) && i <= |regions|
    ensures JoinRun(t, regions[..i], vs[..i + 1])
  {
    forall j | 0 <= j < i
      ensures JoinStep(t, regions[..i][j], vs[..i + 1][j], vs[..i + 1][j + 1])
    {
      assert JoinStep(t, regions[j], vs[j], vs[j + 1]);
    }
  }

  /** A region that is checked fires exactly if it finishes. */
  lemma FiresIffFinishes(t: Tables, c: Config, ts: seq<Transition>, vs: seq<Config>, i: nat)
    requires Cfg(t, c) && AllEndpointsOk(t, ts) && KernelRun(t, c, ts, vs) && FinalsPlain(t)
    requires i < |Regions(t, ts)|
    ensures Fires(t, Regions(t, ts)[i], vs[i]) <==> Finishes(t, c, ts, Regions(t, ts)[i])
  {
    var r := Regions(t, ts)[i];
    CheckedIff(t, ts, r);
    forall k | Node(t, k) && t.finalState[k] != 0
      ensures vs[i][t.finalState[k]] == Moves(t, c, ts)[t.finalState[k]]
    {
      FinalStays(t, Regions(t, ts), vs, i, k);
    }
    forall k
      ensures IsThread(t, k, r) <==> Node(t, k) && t.parent[k] == r && t.sm[k] && t.thread[k]
    {
    }
    if Finishes(t, c, ts, r) {
      forall k | IsThread(t, k, r)
        ensures t.finalState[k] != 0 && vs[i][t.finalState[k]]
      {
      }
    }
  }

  /** A region is checked exactly if the Final state of one of its threads is entered. */
  lemma CheckedIff(t: Tables, ts: seq<Transition>, r: nat)
    requires AllEndpointsOk(t, ts)
    ensures r != 0 ==> (r in Regions(t, ts) <==> exists i :: 0 <= i < |ts| && FinalBelow(t, ts[i].to, r))
  {
    RegionsChecked(t, ts, r);
    forall i | 0 <= i < |ts|
      ensures r != 0 ==> (DueAt(t, ts, i, r) <==> FinalBelow(t, ts[i].to, r))
    {
      assert EndpointsOk(t, ts[i]);
    }
  }

  lemma FinishedIsChecked(t: Tables, c: Config, ts: seq<Transition>, vs: seq<Config>, r: nat) returns (i: nat)
    requires Cfg(t, c) && AllEndpointsOk(t, ts) && KernelRun(t, c, ts, vs) && FinalsPlain(t)
    requires Finishes(t, c, ts, r)
    ensures i < |Regions(t, ts)| && Regions(t, ts)[i] == r && Fires(t, r, vs[i])
  {
    CheckedIff(t, ts, r);
    i :| 0 <= i < |Regions(t, ts)| && Regions(t, ts)[i] == r;
    FiresIffFinishes(t, c, ts, vs, i);
  }

  /** The join of a region that finishes is taken. */
  lemma FinishedIsJoined(t: Tables, c: Config, ts: seq<Transition>, vs: seq<Config>, r: nat)
    requires Cfg(t, c) && AllEndpointsOk(t, ts) && KernelRun(t, c, ts, vs) && FinalsPlain(t)
    requires Finishes(t, c, ts, r)
    ensures vs[|vs| - 1][t.joinState[r]] && forall k :: IsThread(t, k, r) ==> !vs[|vs| - 1][k]
  {
    var i := FinishedIsChecked(t, c, ts, vs, r);
    JoinLasts(t, Regions(t, ts), vs, i, |vs| - 1);
  }

  /** What the joins change belongs to a region that finishes. */
  lemma ChangedByJoin(t: Tables, c: Config, ts: seq<Transition>, vs: seq<Config>, x: nat) returns (r: nat)
    requires Cfg(t, c) && AllEndpointsOk(t, ts) && KernelRun(t, c, ts, vs) && FinalsPlain(t) && Node(t, x)
    requires vs[|vs| - 1][x] != vs[0][x]
    ensures Finishes(t, c, ts, r) && (x == t.joinState[r] || IsThread(t, x, r))
  {
    JoinsTouch(t, Regions(t, ts), vs, x);
    var i :| 0 <= i < |Regions(t, ts)| && Fires(t, Regions(t, ts)[i], vs[i])
      && (x == t.joinState[Regions(t, ts)[i]] || IsThread(t, x, Regions(t, ts)[i]));
    FiresIffFinishes(t, c, ts, vs, i);
    r := Regions(t, ts)[i];
  }

  /** After the joins a state is active exactly if it is the join state of a region that finishes, or was active
      after the transitions and is no thread of such a region. */
  lemma JoinsDecide(t: Tables, c: Config, ts: seq<Transition>, vs: seq<Config>, x: nat)
    requires Cfg(t, c) && AllEndpointsOk(t, ts) && KernelRun(t, c, ts, vs) && FinalsPlain(t) && Node(t, x)
    ensures vs[|vs| - 1][x] <==>
      || (exists r: nat :: Finishes(t, c, ts, r) && t.joinState[r] == x)
      || (Moves(t, c, ts)[x] && !(t.sm[x] && t.thread[x] && Finishes(t, c, ts, t.parent[x])))
  {
    if r: nat :| Finishes(t, c, ts, r) && t.joinState[r] == x {
      FinishedIsJoined(t, c, ts, vs, r);
    } else if t.sm[x] && t.thread[x] && Finishes(t, c, ts, t.parent[x]) {
      FinishedIsJoined(t, c, ts, vs, t.parent[x]);
      assert IsThread(t, x, t.parent[x]);
    } else if vs[|vs| - 1][x] != vs[0][x] {
      var r := ChangedByJoin(t, c, ts, vs, x);
    }
  }

  /** The passes are made exactly if some transition enters or leaves a machine, or connects states of different
      machines, or some region finishes. */
  lemma PassesIff(t: Tables, c: Config, ts: seq<Transition>, vs: seq<Config>)
    requires Cfg(t, c) && AllEndpointsOk(t, ts) && KernelRun(t, c, ts, vs) && FinalsPlain(t)
    ensures !(AllLocal(t, ts) && !JoinFires(t, Regions(t, ts), vs)) <==>
      || (exists i :: 0 <= i < |ts| && EndpointsOk(t, ts[i])
            && (t.parent[ts[i].from] != t.parent[ts[i].to] || t.sm[ts[i].from] || t.sm[ts[i].to]))
      || exists r: nat :: Finishes(t, c, ts, r)
  {
    forall i | 0 <= i < |ts|
      ensures EndpointsOk(t, ts[i])
      ensures Crosses(t, ts[i]) <==> t.parent[ts[i].from] != t.parent[ts[i].to] || t.sm[ts[i].from] || t.sm[ts[i].to]
    {
      assert EndpointsOk(t, ts[i]);
    }
    if r: nat :| Finishes(t, c, ts, r) {
      var i := FinishedIsChecked(t, c, ts, vs, r);
    }
    if JoinFires(t, Regions(t, ts), vs) {
      var i :| 0 <= i < |Regions(t, ts)| && Fires(t, Regions(t, ts)[i], vs[i]);
      FiresIffFinishes(t, c, ts, vs, i);
    }
  }

  /** A region that finishes goes through the passes. */
  lemma FinishingStep(t: Tables, c: Config, ts: seq<Transition>, c': Config, r: nat)
    returns (vs: seq<Config>, started: set<nat>, x: Config)
    requires Step(t, c, ts, c') && FinalsPlain(t) && Finishes(t, c, ts, r)
    ensures KernelRun(t, c, ts, vs) && EnterExit(t, c, vs[|vs| - 1], started, x, c')
  {
    vs, started, x :| StepWith(t, c, ts, vs, started, x, c');
    var i := FinishedIsChecked(t, c, ts, vs, r);
    assert JoinFires(t, Regions(t, ts), vs);
  }

  /** When transition i enters the Final state of thread k of a region r with a join, and after the transitions all
      threads of r are in their Final states: everything inside the threads that were active is left, and r is
      left or stays with its join state. It stays if it and everything around it is still active after the
      transitions and no such join takes it away. */
  lemma FinishedRegionJoins(t: Tables, c: Config, ts: seq<Transition>, c': Config, i: nat, k: nat, r: nat)
    requires Step(t, c, ts, c') && FinalsPlain(t)
    requires Node(t, k) && t.parent[k] == r && t.sm[k] && t.thread[k] && Node(t, r)
    requires i < |ts| && ts[i].to == t.finalState[k] && t.parent[ts[i].to] == k
    requires t.final[ts[i].to] && t.inThread[ts[i].to] && t.join[r] && t.joinState[r] != 0
    requires forall q {:trigger t.finalState[q]} :: Node(t, q) && t.parent[q] == r && t.sm[q] && t.thread[q] ==>
      t.finalState[q] != 0 && Moves(t, c, ts)[t.finalState[q]]
    ensures c'[t.joinState[r]] == c'[r]
    ensures forall q, s {:trigger Inside(t, s, q)} ::
      Node(t, q) && t.parent[q] == r && t.sm[q] && t.thread[q] && c[q] && Node(t, s) && Inside(t, s, q) ==> !c'[s]
    ensures (forall a {:trigger c[a]} :: Node(t, a) && Inside(t, r, a) ==>
              Moves(t, c, ts)[a] && !(t.thread[a] && Finishes(t, c, ts, t.parent[a]))) ==> c'[r]
  {
    assert EndpointsOk(t, ts[i]) && FinalBelow(t, ts[i].to, r);
    assert Finishes(t, c, ts, r);
    var vs, started, x := FinishingStep(t, c, ts, c', r);
    var base := vs[|vs| - 1];
    JoinsDecide(t, c, ts, vs, t.joinState[r]);
    JoinStateStays(t, c, base, started, x, c', r);
    forall q, s | Node(t, q) && t.parent[q] == r && t.sm[q] && t.thread[q] && c[q] && Node(t, s) && Inside(t, s, q)
      ensures !c'[s]
    {
      JoinsDecide(t, c, ts, vs, q);
      assert t.joinState[r] != q;
      LeftForGood(t, c, base, started, x, c', q, s);
    }
    if forall a {:trigger c[a]} :: Node(t, a) && Inside(t, r, a) ==>
         Moves(t, c, ts)[a] && !(t.thread[a] && Finishes(t, c, ts, t.parent[a])) {
      forall a | Node(t, a) && Inside(t, r, a)
        ensures base[a]
      {
        assert c[a] == c[a];
        JoinsDecide(t, c, ts, vs, a);
      }
      KeepsSpine(t, c, base, started, x, c', r, t.joinState[r]);
    }
  }

  /** Where r stays, so does its join state. */
  lemma JoinStateStays(t: Tables, c: Config, base: Config, started: set<nat>, x: Config, c': Config, r: nat)
    requires EnterExit(t, c, base, started, x, c') && Node(t, r) && t.joinState[r] != 0 && base[t.joinState[r]]
    ensures c'[t.joinState[r]] == c'[r]
  {
    var j := t.joinState[r];
    assert IsChild(t, j, r) && !t.sm[j] && Node(t, j);
    if c'[r] {
      var spine := Spine(t, j);
      SpineLegal(t, j);
      forall a | Node(t, a) && spine[a]
        ensures x[a]
      {
        if a != j {
          assert Inside(t, r, a);
          UpwardInside(t, c', r, a);
        }
      }
      assert Leq(spine, x);
      assert Leq(spine, c');
      assert spine[j];
    }
  }
}
