/** What the two passes of an enter/exit step compute, said without the passes: the entered states are a
    least closed superset, the states that survive the exit pass are the greatest legal subset. */
module Closure {
  import opened Containment

  /** The newly active state s has its machine and, if it is a machine, its Initial state. */
  ghost predicate ClosedAt(t: Tables, c: Config, x: Config, s: int)
    requires Cfg(t, c) && Cfg(t, x) && Node(t, s)
  {
    && (t.parent[s] == 0 || x[t.parent[s]] || c[t.parent[s]])
    && (t.sm[s] && t.initial[s] != 0 ==> x[t.initial[s]])
  }

  ghost predicate IsThread(t: Tables, k: int, r: int)
  {
    IsChild(t, k, r) && t.sm[k] && t.thread[k]
  }

  /** Closed under containing machine and Initial for states outside c, and under threads for the
      regions in `started`. */
  ghost predicate Closed(t: Tables, c: Config, x: Config, started: set<nat>)
    requires Cfg(t, c) && Cfg(t, x)
  {
    && (forall s {:trigger ClosedAt(t, c, x, s)} {:trigger Node(t, s), x[s]} ::
         Node(t, s) && x[s] && !c[s] ==> ClosedAt(t, c, x, s))
    && (forall k, r :: r in started && IsThread(t, k, r) ==> x[k])
  }

  /** x lies below every closed superset of base. */
  ghost predicate Least(t: Tables, c: Config, base: Config, started: set<nat>, x: Config)
    requires Cfg(t, c) && Cfg(t, base) && Cfg(t, x)
  {
    && Leq(base, x)
    && forall y {:trigger Closed(t, c, y, started)} ::
       Cfg(t, y) && Leq(base, y) && Closed(t, c, y, started) ==> Leq(x, y)
  }

  /** x is the least closed superset of base. */
  ghost predicate EnterClosure(t: Tables, c: Config, base: Config, started: set<nat>, x: Config) {
    && Cfg(t, c) && Cfg(t, base) && Cfg(t, x)
    && Least(t, c, base, started, x)
    && Closed(t, c, x, started)
  }

  /** Closures are unique: base and started determine the result. */
  lemma EnterClosureUnique(t: Tables, c: Config, base: Config, started: set<nat>, x: Config, y: Config)
    requires EnterClosure(t, c, base, started, x) && EnterClosure(t, c, base, started, y)
    ensures x == y
  {
    assert Leq(x, y) && Leq(y, x);
  }

  lemma ForceParent(t: Tables, c: Config, base: Config, started: set<nat>, x: Config, s: nat)
    requires Cfg(t, c) && Cfg(t, base) && Cfg(t, x) && Least(t, c, base, started, x)
    requires Node(t, s) && x[s] && !c[s] && t.parent[s] != 0 && !c[t.parent[s]]
    ensures Cfg(t, x[t.parent[s] := true]) && Least(t, c, base, started, x[t.parent[s] := true])
  {
    var x' := x[t.parent[s] := true];
    forall y | Cfg(t, y) && Leq(base, y) && Closed(t, c, y, started)
      ensures Leq(x', y)
    {
      assert ClosedAt(t, c, y, s);
    }
  }

  lemma ForceInitial(t: Tables, c: Config, base: Config, started: set<nat>, x: Config, s: nat)
    requires Cfg(t, c) && Cfg(t, base) && Cfg(t, x) && Least(t, c, base, started, x)
    requires Node(t, s) && x[s] && !c[s] && t.sm[s] && t.initial[s] != 0
    ensures Cfg(t, x[t.initial[s] := true]) && Least(t, c, base, started, x[t.initial[s] := true])
  {
    assert IsChild(t, t.initial[s], s);
    var x' := x[t.initial[s] := true];
    forall y | Cfg(t, y) && Leq(base, y) && Closed(t, c, y, started)
      ensures Leq(x', y)
    {
      assert ClosedAt(t, c, y, s);
    }
  }

  lemma ForceThread(t: Tables, c: Config, base: Config, started: set<nat>, x: Config, k: nat, r: nat)
    requires Cfg(t, c) && Cfg(t, base) && Cfg(t, x) && Least(t, c, base, started, x)
    requires r in started && IsThread(t, k, r)
    ensures Cfg(t, x[k := true]) && Least(t, c, base, started, x[k := true])
  {
    var x' := x[k := true];
    forall y | Cfg(t, y) && Leq(base, y) && Closed(t, c, y, started)
      ensures Leq(x', y)
    {
    }
  }

  lemma StartRegion(t: Tables, c: Config, base: Config, started: set<nat>, x: Config, r: nat)
    requires Cfg(t, c) && Cfg(t, base) && Cfg(t, x) && Least(t, c, base, started, x)
    ensures Least(t, c, base, started + {r}, x)
  {
    forall y | Cfg(t, y) && Leq(base, y) && Closed(t, c, y, started + {r})
      ensures Leq(x, y)
    {
      assert Closed(t, c, y, started);
    }
  }

  /** Only states outside the old configuration are added, so what a step switched off stays off. */
  lemma ClosureAddsOnlyNewStates(t: Tables, c: Config, base: Config, started: set<nat>, x: Config)
    requires EnterClosure(t, c, base, started, x) && Legal(t, c)
    requires forall r :: r in started ==> Node(t, r) && base[r] && !c[r]
    ensures forall s :: Node(t, s) && x[s] && c[s] ==> base[s]
  {
    var y := seq(t.n + 1, s requires 0 <= s < t.n + 1 => x[s] && (base[s] || !c[s]));
    forall s | Node(t, s) && y[s] && !c[s]
      ensures ClosedAt(t, c, y, s)
    {
      assert ClosedAt(t, c, x, s);
      if t.sm[s] && t.initial[s] != 0 {
        assert IsChild(t, t.initial[s], s);
      }
    }
    forall k, r | r in started && IsThread(t, k, r)
      ensures y[k]
    {
      assert x[k];
    }
    assert Closed(t, c, y, started);
    assert Leq(x, y);
  }

  // ---------------------------------------------------------------------- the exit pass

  /** v is legal and contains every legal configuration that w contains. */
  ghost predicate GreatestLegal(t: Tables, w: Config, v: Config) {
    && Cfg(t, w) && Cfg(t, v)
    && Legal(t, v) && Leq(v, w)
    && forall l {:trigger Leq(l, v)} :: Legal(t, l) && Leq(l, w) ==> Leq(l, v)
  }

  lemma GreatestLegalUnique(t: Tables, w: Config, v: Config, u: Config)
    requires GreatestLegal(t, w, v) && GreatestLegal(t, w, u)
    ensures v == u
  {
    assert Leq(v, u) && Leq(u, v);
  }

  /** No legal configuration within w reaches outside v. */
  ghost predicate KeepsLegal(t: Tables, w: Config, v: Config)
    requires Cfg(t, w) && Cfg(t, v)
  {
    forall l :: Legal(t, l) && Leq(l, w) ==> Leq(l, v)
  }

  /** An empty machine belongs to no legal configuration. */
  lemma DropEmpty(t: Tables, w: Config, v: Config, s: nat)
    requires Cfg(t, w) && Cfg(t, v) && KeepsLegal(t, w, v)
    requires Node(t, s) && t.sm[s] && EmptyIn(t, v, s)
    ensures Cfg(t, v[s := false]) && KeepsLegal(t, w, v[s := false])
  {
    forall l | Legal(t, l) && Leq(l, w)
      ensures Leq(l, v[s := false])
    {
    }
  }

  lemma NothingInside(t: Tables, l: Config, s: nat, x: nat)
    requires Legal(t, l) && Node(t, s) && Node(t, x) && !l[s] && l[x]
    ensures !Inside(t, x, s)
  {
    if Inside(t, x, s) {
      UpwardInside(t, l, x, s);
    }
  }

  /** v' is v without everything strictly inside s. */
  ghost predicate CutInside(t: Tables, v: Config, s: nat, v': Config)
    requires |v| == |v'| == t.n + 1
  {
    && v'[0] == v[0]
    && forall x {:trigger v'[x]} :: Node(t, x) ==> v'[x] == (v[x] && !(x != s && Inside(t, x, s)))
  }

  /** Nothing inside an inactive machine belongs to a legal configuration. */
  lemma DropInside(t: Tables, w: Config, v: Config, s: nat, v': Config)
    requires Cfg(t, w) && Cfg(t, v) && Cfg(t, v') && KeepsLegal(t, w, v)
    requires Node(t, s) && !v[s] && CutInside(t, v, s, v')
    ensures KeepsLegal(t, w, v')
  {
    forall l | Legal(t, l) && Leq(l, w)
      ensures Leq(l, v')
    {
      forall x | Node(t, x) && l[x]
        ensures v'[x]
      {
        NothingInside(t, l, s, x);
      }
    }
  }
}
