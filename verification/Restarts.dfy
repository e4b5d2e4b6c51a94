/** What a restart of one machine does to it and to the machine around it. */
module Restarts {
  import opened Containment
  import opened Closure
  import opened EnteredStates
  import opened Steps
  import opened Samples

  /** A plain state that the closure starts from without is added only as the Initial state of a new machine. */
  lemma PlainNotAdded(t: Tables, c: Config, base: Config, started: set<nat>, x: Config, k: nat)
    requires EnterClosure(t, c, base, started, x) && Node(t, k) && !t.sm[k] && !base[k]
    ensures x[k] ==> t.initial[t.parent[k]] == k && x[t.parent[k]] && !c[t.parent[k]]
  {
    if !(t.initial[t.parent[k]] == k && x[t.parent[k]] && !c[t.parent[k]]) {
      var y := x[k := false];
      forall s | Node(t, s) && y[s] && !c[s]
        ensures ClosedAt(t, c, y, s)
      {
        assert ClosedAt(t, c, x, s);
        assert t.sm[s] && t.initial[s] != 0 ==> IsChild(t, t.initial[s], s);
      }
      assert Closed(t, c, y, started);
      assert Leq(base, y);
      assert Leq(x, y);
    }
  }

  lemma StartedIsNew(t: Tables, c: Config, base: Config, started: set<nat>, r: nat)
    requires Cfg(t, c) && Cfg(t, base) && StartedExactly(t, c, base, started) && r in started
    ensures Node(t, r) && base[r] && !c[r]
  {
    assert Candidate(t, c, base, r);
  }

  /** With nothing to enter the closure adds nothing. */
  lemma NothingAdded(t: Tables, c: Config, base: Config, started: set<nat>, x: Config, c': Config)
    requires EnterExit(t, c, base, started, x, c') && Leq(base, c)
    ensures x == base
  {
    if r: nat :| r in started {
      StartedIsNew(t, c, base, started, r);
      assert false;
    }
    assert Closed(t, c, base, started);
    assert Leq(base, base);
    assert Leq(x, base);
  }

  /** c without machine m and everything inside of it. */
  ghost predicate Without(t: Tables, c: Config, m: nat, l: Config) {
    Cfg(t, c) && Cfg(t, l) && forall s {:trigger l[s]} :: Node(t, s) ==> l[s] == (c[s] && !Inside(t, s, m))
  }

  /** m is the only active child of its machine. */
  ghost predicate OnlyChild(t: Tables, c: Config, m: nat)
    requires Cfg(t, c) && Node(t, m)
  {
    forall k {:trigger c[k]} :: Node(t, k) && t.parent[k] == t.parent[m] && c[k] ==> k == m
  }

  lemma ChildOutside(t: Tables, k: nat, a: nat, m: nat)
    requires Node(t, a) && IsChild(t, k, a) && !Inside(t, a, m) && k != m
    ensures !Inside(t, k, m)
  {
  }

  lemma WithoutLegal(t: Tables, c: Config, m: nat, l: Config)
    requires Legal(t, c) && Node(t, m) && Without(t, c, m, l) && !(t.parent[m] != 0 && OnlyChild(t, c, m))
    ensures Legal(t, l)
  {
    forall a | Node(t, a) && t.sm[a] && l[a]
      ensures !EmptyIn(t, l, a)
    {
      var k :| IsChild(t, k, a) && c[k];
      if k == m {
        k :| Node(t, k) && t.parent[k] == t.parent[m] && c[k] && k != m;
      }
      ChildOutside(t, k, a, m);
      assert l[k];
    }
  }

  lemma NoChildLeft(t: Tables, c: Config, m: nat, mid: Config)
    requires Legal(t, mid) && Cfg(t, c) && Leq(mid, c) && Node(t, m) && t.parent[m] != 0
    requires OnlyChild(t, c, m) && !mid[m]
    ensures !mid[t.parent[m]]
  {
    var p := t.parent[m];
    assert Node(t, p) && t.sm[p];
    assert forall k :: IsChild(t, k, p) && c[k] ==> k == m;
    assert forall k: nat {:trigger mid[k]} :: k < |mid| && mid[k] ==> c[k];
    assert EmptyIn(t, mid, p);
  }

  /** The first pass switches m off, with everything inside. */
  lemma SwitchedOff(t: Tables, c: Config, m: nat, mid: Config)
    requires Legal(t, c) && Node(t, m) && c[m] && PassedWith(t, c, [m], false, mid)
    ensures Legal(t, mid) && Leq(mid, c)
    ensures forall s {:trigger mid[s]} :: Node(t, s) && Inside(t, s, m) ==> !mid[s]
    ensures if t.parent[m] != 0 && OnlyChild(t, c, m) then !mid[t.parent[m]] else Without(t, c, m, mid)
  {
    var base, started, x :| Switched(t, c, [m], false, base) && EnterExit(t, c, base, started, x, mid);
    assert forall s :: Node(t, s) ==> base[s] == (c[s] && s != m);
    assert Leq(base, c);
    NothingAdded(t, c, base, started, x, mid);
    forall s | Node(t, s) && Inside(t, s, m)
      ensures !mid[s]
    {
      LeftForGood(t, c, base, started, x, mid, m, s);
    }
    if t.parent[m] != 0 && OnlyChild(t, c, m) {
      NoChildLeft(t, c, m, mid);
    } else {
      RestKept(t, c, m, base, mid);
    }
  }

  /** What lies outside of m stays. */
  lemma RestKept(t: Tables, c: Config, m: nat, x: Config, mid: Config)
    requires Legal(t, c) && Node(t, m) && !(t.parent[m] != 0 && OnlyChild(t, c, m)) && GreatestLegal(t, x, mid)
    requires forall s {:trigger x[s]} :: Node(t, s) ==> x[s] == (c[s] && s != m)
    requires forall s {:trigger mid[s]} :: Node(t, s) && Inside(t, s, m) ==> !mid[s]
    ensures Without(t, c, m, mid)
  {
    var l := seq(t.n + 1, s requires 0 <= s < t.n + 1 => s != 0 && c[s] && !Inside(t, s, m));
    WithoutLegal(t, c, m, l);
    assert Inside(t, m, m);
    assert Leq(l, x);
    assert Leq(l, mid);
  }

  /** The second pass switches it on again. */
  lemma SwitchedOn(t: Tables, mid: Config, m: nat, c': Config)
    requires Legal(t, mid) && HasInitials(t) && Node(t, m) && t.sm[m] && PassedWith(t, mid, [m], true, c')
    requires forall s {:trigger mid[s]} :: Node(t, s) && Inside(t, s, m) ==> !mid[s]
    ensures c'[m] && c'[t.initial[m]]
    ensures forall k {:trigger c'[k]} :: Node(t, k) && t.parent[k] == m && !t.sm[k] ==> (c'[k] <==> k == t.initial[m])
    ensures t.parent[m] != 0 ==>
      var i := t.initial[t.parent[m]]; c'[i] <==> mid[i] || !mid[t.parent[m]]
  {
    var base, started, x :| Switched(t, mid, [m], true, base) && EnterExit(t, mid, base, started, x, c');
    assert forall s :: Node(t, s) ==> base[s] == (mid[s] || s == m);
    assert Inside(t, m, m);
    EnteredIsActive(t, mid, base, started, x, c', m);
    assert !mid[m];
    forall k | Node(t, k) && t.parent[k] == m && !t.sm[k]
      ensures c'[k] <==> k == t.initial[m]
    {
      assert Inside(t, k, m);
      if c'[k] {
        PlainNotAdded(t, mid, base, started, x, k);
      }
    }
    if t.parent[m] != 0 {
      ParentsInitial(t, mid, base, started, x, c', m);
    }
  }

  lemma ParentsInitial(t: Tables, mid: Config, base: Config, started: set<nat>, x: Config, c': Config, m: nat)
    requires Legal(t, mid) && HasInitials(t) && Node(t, m) && t.sm[m] && t.parent[m] != 0 && !mid[m]
    requires EnterExit(t, mid, base, started, x, c')
    requires forall s {:trigger base[s]} :: Node(t, s) ==> base[s] == (mid[s] || s == m)
    ensures Node(t, t.initial[t.parent[m]])
    ensures c'[t.initial[t.parent[m]]] <==> mid[t.initial[t.parent[m]]] || !mid[t.parent[m]]
  {
    var p, i := t.parent[m], t.initial[t.parent[m]];
    InitialOf(t, p);
    if !mid[p] {
      ParentAdded(t, mid, base, started, x, c', m, p);
    } else if mid[i] {
      KeptAround(t, mid, base, started, x, c', i);
    } else if c'[i] {
      PlainNotAdded(t, mid, base, started, x, i);
    }
  }

  lemma InitialOf(t: Tables, p: nat)
    requires HasInitials(t) && Node(t, p) && t.sm[p]
    ensures Node(t, t.initial[p]) && t.parent[t.initial[p]] == p && !t.sm[t.initial[p]]
  {
    assert IsChild(t, t.initial[p], p);
  }

  lemma ParentAdded(t: Tables, mid: Config, base: Config, started: set<nat>, x: Config, c': Config, m: nat, p: nat)
    requires Legal(t, mid) && HasInitials(t) && Node(t, m) && Node(t, p) && p == t.parent[m] && t.sm[p] && !mid[p]
    requires EnterExit(t, mid, base, started, x, c') && base[m]
    requires forall s {:trigger base[s]} :: Node(t, s) ==> base[s] == (mid[s] || s == m)
    ensures c'[t.initial[p]]
  {
    assert Inside(t, m, m) && Inside(t, p, p) && Inside(t, m, p);
    AroundAdded(t, mid, base, started, x, m, p);
    AddedStays(t, mid, base, started, x, c', p);
  }

  /** What was active and is not switched off stays. */
  lemma KeptAround(t: Tables, mid: Config, base: Config, started: set<nat>, x: Config, c': Config, s: nat)
    requires Legal(t, mid) && EnterExit(t, mid, base, started, x, c') && Leq(mid, base) && Node(t, s) && mid[s]
    ensures c'[s]
  {
    assert Leq(mid, x);
    assert Leq(mid, c');
  }

  /** A restart resets an active machine to its Initial state, which is then its only active plain state. If it was
      the only active child of the machine around it, that one is left and entered again, and so its Initial state
      becomes active as well; otherwise this state stays what it was. */
  lemma RestartResets(t: Tables, c: Config, m: nat, c': Config)
    requires Legal(t, c) && HasInitials(t) && Node(t, m) && t.sm[m] && c[m] && Restarted(t, c, [m], c')
    ensures c'[m] && c'[t.initial[m]]
    ensures forall k {:trigger c'[k]} :: Node(t, k) && t.parent[k] == m && !t.sm[k] ==> (c'[k] <==> k == t.initial[m])
    ensures t.parent[m] != 0 ==> var p := t.parent[m];
      c'[t.initial[p]] <==>
        c[t.initial[p]] || forall k {:trigger c[k]} :: Node(t, k) && t.parent[k] == p && c[k] ==> k == m
  {
    var mid :| RestartedBy(t, c, [m], mid, c');
    SwitchedOff(t, c, m, mid);
    SwitchedOn(t, mid, m, c');
    if t.parent[m] != 0 {
      ParentsInitialAfter(t, c, m, mid);
    }
  }

  lemma BothAfter(t: Tables, c: Config, m: nat)
    requires Legal(t, c) && HasInitials(t) && Node(t, m) && t.sm[m] && c[m] && t.parent[m] != 0 && OnlyChild(t, c, m)
    ensures Node(t, t.initial[t.parent[m]])
    ensures forall c' :: Restarted(t, c, [m], c') ==> c'[m] && c'[t.initial[t.parent[m]]]
  {
    InitialOf(t, t.parent[m]);
    forall c' | Restarted(t, c, [m], c')
      ensures c'[m] && c'[t.initial[t.parent[m]]]
    {
      RestartResets(t, c, m, c');
    }
  }

  lemma NestedActive(c: Config)
    requires c == [false, true, false, true, true] && Shaped(NESTED) && Wf(NESTED)
    ensures Legal(NESTED, c) && OnlyChild(NESTED, c, 3)
  {
    assert IsChild(NESTED, 3, 1) && IsChild(NESTED, 4, 3);
  }

  /** Machine 3 inside machine 1, each in its only active child: after a restart of machine 3 both it and the Initial
      state of machine 1 are active. */
  lemma BothActive(c: Config)
    requires c == [false, true, false, true, true]
    ensures Wf(NESTED) && Legal(NESTED, c)
    ensures forall c' :: Restarted(NESTED, c, [3], c') ==> c'[2] && c'[3]
  {
    NestedWf();
    NestedActive(c);
    BothAfter(NESTED, c, 3);
  }

  lemma ParentsInitialAfter(t: Tables, c: Config, m: nat, mid: Config)
    requires Legal(t, c) && HasInitials(t) && Node(t, m) && t.sm[m] && c[m] && t.parent[m] != 0 && Cfg(t, mid)
    requires if OnlyChild(t, c, m) then !mid[t.parent[m]] else Without(t, c, m, mid)
    ensures Node(t, t.initial[t.parent[m]])
    ensures mid[t.initial[t.parent[m]]] || !mid[t.parent[m]] <==> c[t.initial[t.parent[m]]] || OnlyChild(t, c, m)
  {
    var p, i := t.parent[m], t.initial[t.parent[m]];
    InitialOf(t, p);
    ClimbToParent(t, i, m, p);
    ParentOutside(t, m, p);
    assert c[p];
  }

  /** A plain sibling is not inside m. */
  lemma ClimbToParent(t: Tables, i: nat, m: nat, p: nat)
    requires Node(t, i) && Node(t, m) && i != m && t.parent[i] == p == t.parent[m] != 0
    ensures !Inside(t, i, m)
  {
    if Inside(t, i, m) {
      ParentOutside(t, m, p);
    }
  }

  /** Nor is the machine around m. */
  lemma ParentOutside(t: Tables, m: nat, p: nat)
    requires Node(t, m) && p == t.parent[m] != 0
    ensures Node(t, p) && !Inside(t, p, m)
  {
    assert Node(t, p);
    if Inside(t, p, m) {
      InsideNode(t, p, m);
    }
  }
}
