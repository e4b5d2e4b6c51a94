/** The invariant of the pass that prunes `temp` and collects the exiting machines. */
module ExitStates {
  import opened Containment
  import opened Closure

  /** m is or lies inside a listed machine, or the machine a that is about to be listed (0 = none). */
  ghost predicate UnderExit(t: Tables, list: seq<nat>, a: nat, m: nat)
    requires Node(t, m)
  {
    (exists i :: 0 <= i < |list| && Inside(t, m, list[i])) || (a != 0 && Inside(t, m, a))
  }

  /** Active states lie in a machine that is active now or was before. */
  ghost predicate Rooted(t: Tables, c: Config, v: Config)
    requires Cfg(t, c) && Cfg(t, v)
  {
    forall s {:trigger v[s]} :: Node(t, s) && v[s] ==> t.parent[s] == 0 || v[t.parent[s]] || c[t.parent[s]]
  }

  /** Newly active machines still have their Initial state. */
  ghost predicate Seeded(t: Tables, c: Config, v: Config)
    requires Cfg(t, c) && Cfg(t, v)
  {
    forall s {:trigger t.initial[s]} :: Node(t, s) && t.sm[s] && v[s] && !c[s] ==> t.initial[s] != 0 && v[t.initial[s]]
  }

  /** The pass has dealt with s, or has dropped it. */
  ghost predicate Settled(t: Tables, w: Config, marks: seq<bool>, upto: nat, s: nat)
    requires Cfg(t, w) && |marks| == t.n + 1 && Node(t, s)
  {
    s < upto || marks[s] || w[s]
  }

  /** Inactive machines the pass has dealt with are empty. */
  ghost predicate Hollow(t: Tables, w: Config, marks: seq<bool>, v: Config, upto: nat)
    requires Cfg(t, w) && Cfg(t, v) && |marks| == t.n + 1
  {
    forall s {:trigger Settled(t, w, marks, upto, s)} {:trigger EmptyIn(t, v, s)} ::
      Node(t, s) && t.sm[s] && !v[s] && Settled(t, w, marks, upto, s) ==> EmptyIn(t, v, s)
  }

  /** Active machines the pass has dealt with are not empty, e excepted. */
  ghost predicate Full(t: Tables, marks: seq<bool>, v: Config, upto: nat, e: nat)
    requires Cfg(t, v) && |marks| == t.n + 1
  {
    forall s {:trigger EmptyIn(t, v, s)} ::
      Node(t, s) && t.sm[s] && v[s] && (s < upto || marks[s]) && s != e ==> !EmptyIn(t, v, s)
  }

  /** Machines of the old configuration that are gone lie under a listed machine or under a. */
  ghost predicate Accounted(t: Tables, c: Config, w: Config, marks: seq<bool>, v: Config, upto: nat, list: seq<nat>,
                            a: nat)
    requires Cfg(t, c) && Cfg(t, w) && Cfg(t, v) && |marks| == t.n + 1
  {
    && (forall i :: 0 <= i < |list| ==> Node(t, list[i]) && t.sm[list[i]] && c[list[i]] && !v[list[i]])
    && (forall m {:trigger UnderExit(t, list, a, m)} ::
          Node(t, m) && t.sm[m] && c[m] && !v[m] && Settled(t, w, marks, upto, m) ==> UnderExit(t, list, a, m))
  }

  /** State of the scan at `upto`: w is temp as the pass found it, v is temp now. Machine e may have become
      empty, machine a is about to be listed (0 = none). */
  ghost predicate Prune(t: Tables, c: Config, w: Config, marks: seq<bool>, v: Config, upto: nat, list: seq<nat>, e: nat,
                        a: nat) {
    && Legal(t, c) && Cfg(t, w) && Cfg(t, v) && |marks| == t.n + 1
    && Leq(v, w) && KeepsLegal(t, w, v)
    && Rooted(t, c, v) && Seeded(t, c, v)
    && Hollow(t, w, marks, v, upto) && Full(t, marks, v, upto, e)
    && Accounted(t, c, w, marks, v, upto, list, a)
  }

  lemma DropShape(t: Tables, c: Config, v: Config, s: nat)
    requires Node(t, s) && t.sm[s] && Cfg(t, c) && Cfg(t, v) && Rooted(t, c, v) && Seeded(t, c, v)
    requires c[s] && EmptyIn(t, v, s)
    ensures Rooted(t, c, v[s := false]) && Seeded(t, c, v[s := false])
  {
    var v' := v[s := false];
    forall x | Node(t, x) && v'[x]
      ensures t.parent[x] == 0 || v'[t.parent[x]] || c[t.parent[x]]
    {
      assert v[x];
    }
  }

  lemma DropEmptiness(t: Tables, v: Config, s: nat, x: nat)
    requires Node(t, s) && Node(t, x) && Cfg(t, v)
    ensures EmptyIn(t, v, x) ==> EmptyIn(t, v[s := false], x)
    ensures x != t.parent[s] ==> (EmptyIn(t, v[s := false], x) <==> EmptyIn(t, v, x))
  {
    forall k | IsChild(t, k, x) && x != t.parent[s]
      ensures v[k] == v[s := false][k]
    {
    }
  }

  /** A machine that no longer has an active child is dropped; e was its exempt child's machine. */
  lemma DropMachine(t: Tables, c: Config, w: Config, marks: seq<bool>, v: Config, upto: nat, list: seq<nat>, e: nat,
                    a: nat, s: nat)
    requires Node(t, s) && t.sm[s] && Prune(t, c, w, marks, v, upto, list, e, a)
    requires c[s] && EmptyIn(t, v, s) && (e == 0 || e == s) && (a == 0 || (Node(t, a) && t.parent[a] == s))
    ensures Prune(t, c, w, marks, v[s := false], upto, list, t.parent[s], s)
    ensures Prune(t, c, w, marks[s := true], v[s := false], upto, list, t.parent[s], s)
  {
    var v' := v[s := false];
    DropEmpty(t, w, v, s);
    DropShape(t, c, v, s);
    forall x | Node(t, x) && t.sm[x]
      ensures EmptyIn(t, v, x) ==> EmptyIn(t, v', x)
      ensures x != t.parent[s] && EmptyIn(t, v', x) ==> EmptyIn(t, v, x)
    {
      DropEmptiness(t, v, s, x);
    }
    DropAccounted(t, c, w, marks, v, upto, list, a, s);
    forall marks' | marks' == marks || marks' == marks[s := true]
      ensures Hollow(t, w, marks', v', upto) && Full(t, marks', v', upto, t.parent[s])
    {
      forall x | Node(t, x) && t.sm[x] && !v'[x] && Settled(t, w, marks', upto, x)
        ensures EmptyIn(t, v', x)
      {
        assert x != s ==> Settled(t, w, marks, upto, x);
      }
    }
  }

  lemma DropAccounted(t: Tables, c: Config, w: Config, marks: seq<bool>, v: Config, upto: nat, list: seq<nat>, a: nat,
                      s: nat)
    requires Cfg(t, c) && Cfg(t, w) && Cfg(t, v) && |marks| == t.n + 1
    requires Node(t, s) && t.sm[s] && Accounted(t, c, w, marks, v, upto, list, a)
    requires a == 0 || (Node(t, a) && t.parent[a] == s)
    ensures Accounted(t, c, w, marks, v[s := false], upto, list, s)
    ensures Accounted(t, c, w, marks[s := true], v[s := false], upto, list, s)
  {
    forall m | Node(t, m) && (m == s || UnderExit(t, list, a, m))
      ensures UnderExit(t, list, s, m)
    {
      if a != 0 && Inside(t, m, a) {
        assert Inside(t, a, s);
        InsideTransitive(t, m, a, s);
      }
    }
  }

  lemma CutShape(t: Tables, c: Config, v: Config, s: nat, v': Config)
    requires Cfg(t, c) && Cfg(t, v) && Rooted(t, c, v) && Seeded(t, c, v)
    requires Node(t, s) && t.sm[s] && !v[s] && Cfg(t, v') && CutInside(t, v, s, v')
    ensures Rooted(t, c, v') && Seeded(t, c, v')
  {
    forall x | Node(t, x) && v'[x]
      ensures t.parent[x] == 0 || v'[t.parent[x]] || c[t.parent[x]]
    {
      assert v[x];
      CutParent(t, x, s);
    }
    forall x | Node(t, x) && t.sm[x] && v'[x] && !c[x]
      ensures t.initial[x] != 0 && v'[t.initial[x]]
    {
      assert v[x];
      assert IsChild(t, t.initial[x], x);
      CutParent(t, t.initial[x], s);
    }
  }

  lemma CutEmptiness(t: Tables, w: Config, marks: seq<bool>, v: Config, upto: nat, s: nat, v': Config,
                     marks': seq<bool>, e: nat)
    requires Cfg(t, w) && Cfg(t, v) && |marks| == t.n + 1
    requires Hollow(t, w, marks, v, upto) && Full(t, marks, v, upto, e)
    requires Node(t, s) && t.sm[s] && !v[s] && Cfg(t, v') && CutInside(t, v, s, v') && |marks'| == t.n + 1
    requires forall x {:trigger marks'[x]} :: Node(t, x) ==> marks'[x] == (marks[x] || Inside(t, x, s))
    ensures Hollow(t, w, marks', v', upto) && Full(t, marks', v', upto, e)
  {
    forall x | Node(t, x) && t.sm[x]
      ensures !v'[x] && Settled(t, w, marks', upto, x) ==> EmptyIn(t, v', x)
      ensures v'[x] && (x < upto || marks'[x]) && x != e ==> !EmptyIn(t, v', x)
    {
      CutKids(t, v, s, v', x);
      if !Inside(t, x, s) {
        assert v'[x] == v[x] && marks'[x] == marks[x];
        assert Settled(t, w, marks, upto, x) == Settled(t, w, marks', upto, x);
      } else {
        assert !v'[x];
      }
    }
  }

  /** Removing everything inside an inactive machine of the old configuration. */
  lemma CutMachine(t: Tables, c: Config, w: Config, marks: seq<bool>, v: Config, upto: nat, list: seq<nat>, s: nat,
                   v': Config, marks': seq<bool>)
    requires Node(t, s) && t.sm[s] && Prune(t, c, w, marks, v, upto, list, 0, 0)
    requires c[s] && !v[s] && Cfg(t, v') && CutInside(t, v, s, v') && |marks'| == t.n + 1
    requires forall x {:trigger marks'[x]} :: Node(t, x) ==> marks'[x] == (marks[x] || Inside(t, x, s))
    ensures Prune(t, c, w, marks', v', upto, list, t.parent[s], s)
  {
    DropInside(t, w, v, s, v');
    CutShape(t, c, v, s, v');
    CutEmptiness(t, w, marks, v, upto, s, v', marks', 0);
    CutAccounted(t, c, w, marks, v, upto, list, s, v', marks');
  }

  lemma CutAccounted(t: Tables, c: Config, w: Config, marks: seq<bool>, v: Config, upto: nat, list: seq<nat>, s: nat,
                     v': Config, marks': seq<bool>)
    requires Cfg(t, c) && Cfg(t, w) && Cfg(t, v) && |marks| == t.n + 1
    requires Accounted(t, c, w, marks, v, upto, list, 0)
    requires Node(t, s) && t.sm[s] && !v[s] && Cfg(t, v') && CutInside(t, v, s, v') && |marks'| == t.n + 1
    requires forall x {:trigger marks'[x]} :: Node(t, x) ==> marks'[x] == (marks[x] || Inside(t, x, s))
    ensures Accounted(t, c, w, marks', v', upto, list, s)
  {
    forall m | Node(t, m) && t.sm[m] && c[m] && !v'[m] && Settled(t, w, marks', upto, m)
      ensures UnderExit(t, list, s, m)
    {
      if !Inside(t, m, s) {
        assert v'[m] == v[m] && marks'[m] == marks[m];
        assert Settled(t, w, marks, upto, m);
        assert UnderExit(t, list, 0, m);
      }
    }
  }

  lemma CutParent(t: Tables, x: nat, s: nat)
    requires Node(t, x) && Node(t, s)
    ensures t.parent[x] != 0 ==> (x != s && Inside(t, x, s) <==> Node(t, t.parent[x]) && Inside(t, t.parent[x], s))
  {
    if t.parent[x] != 0 && x == s && Inside(t, t.parent[x], s) {
      InsideNode(t, t.parent[x], s);
    }
  }

  /** Children go exactly with machines that are s or are cut themselves. */
  lemma CutKids(t: Tables, v: Config, s: nat, v': Config, x: nat)
    requires Cfg(t, v) && Cfg(t, v') && Node(t, s) && Node(t, x) && t.sm[x] && CutInside(t, v, s, v')
    ensures Inside(t, x, s) ==> EmptyIn(t, v', x)
    ensures !Inside(t, x, s) ==> (EmptyIn(t, v, x) <==> EmptyIn(t, v', x))
  {
    forall k | IsChild(t, k, x)
      ensures Inside(t, x, s) ==> !v'[k]
      ensures !Inside(t, x, s) ==> v'[k] == v[k]
    {
      CutParent(t, k, s);
    }
  }

  /** A machine left alone, or one that was never active. */
  lemma MarkOnly(t: Tables, c: Config, w: Config, marks: seq<bool>, v: Config, upto: nat, list: seq<nat>, s: nat)
    requires Node(t, s) && t.sm[s] && Prune(t, c, w, marks, v, upto, list, 0, 0)
    requires v[s] ==> !EmptyIn(t, v, s)
    requires !v[s] ==> !c[s]
    ensures Prune(t, c, w, marks[s := true], v, upto, list, 0, 0)
  {
    if !v[s] {
      forall k | IsChild(t, k, s)
        ensures !v[k]
      {
        assert t.parent[k] == s;
      }
    }
  }

  /** The climb stopped at a: it is listed. */
  lemma ListExit(t: Tables, c: Config, w: Config, marks: seq<bool>, v: Config, upto: nat, list: seq<nat>, a: nat)
    requires Node(t, a) && t.sm[a] && Prune(t, c, w, marks, v, upto, list, t.parent[a], a)
    requires c[a] && !v[a]
    requires t.parent[a] == 0 || !EmptyIn(t, v, t.parent[a])
    ensures Prune(t, c, w, marks, v, upto, list + [a], 0, 0)
  {
    forall m | Node(t, m) && UnderExit(t, list, a, m)
      ensures UnderExit(t, list + [a], 0, m)
    {
      if exists i :: 0 <= i < |list| && Inside(t, m, list[i]) {
        var i :| 0 <= i < |list| && Inside(t, m, list[i]);
        assert (list + [a])[i] == list[i];
      } else {
        assert (list + [a])[|list|] == a;
      }
    }
  }

  lemma NextState(t: Tables, c: Config, w: Config, marks: seq<bool>, v: Config, upto: nat, list: seq<nat>)
    requires Prune(t, c, w, marks, v, upto, list, 0, 0)
    requires upto <= t.n && (t.sm[upto] ==> marks[upto])
    ensures Prune(t, c, w, marks, v, upto + 1, list, 0, 0)
  {
  }

  /** list holds machines of c that are left, one around every machine of c that is left. */
  ghost predicate ExitingList(t: Tables, c: Config, c': Config, list: seq<nat>)
    requires Cfg(t, c) && Cfg(t, c')
  {
    && (forall i :: 0 <= i < |list| ==> Node(t, list[i]) && t.sm[list[i]] && c[list[i]] && !c'[list[i]])
    && forall m {:trigger UnderExit(t, list, 0, m)} ::
       Node(t, m) && t.sm[m] && c[m] && !c'[m] ==> UnderExit(t, list, 0, m)
  }

  /** At the end of the scan temp is the greatest legal subset. */
  lemma PruneDone(t: Tables, c: Config, w: Config, marks: seq<bool>, v: Config, list: seq<nat>)
    requires Prune(t, c, w, marks, v, t.n + 1, list, 0, 0)
    ensures GreatestLegal(t, w, v)
    ensures ExitingList(t, c, v, list)
  {
    forall s | Node(t, s) && v[s] && t.parent[s] != 0
      ensures v[t.parent[s]]
    {
      var p := t.parent[s];
      if !v[p] {
        assert EmptyIn(t, v, p);
        assert IsChild(t, s, p);
      }
    }
    forall s | Node(t, s) && t.sm[s] && v[s]
      ensures !EmptyIn(t, v, s)
    {
    }
  }

  /** The pass starts from a closed set of entered states. */
  lemma PruneStart(t: Tables, c: Config, w: Config, marks: seq<bool>)
    requires Legal(t, c) && HasInitials(t) && |marks| == t.n + 1 && forall s :: 0 <= s < |marks| ==> !marks[s]
    requires exists base, started :: EnterClosure(t, c, base, started, w)
    ensures Prune(t, c, w, marks, w, 0, [], 0, 0)
  {
    var base, started :| EnterClosure(t, c, base, started, w);
    forall s | Node(t, s) && w[s]
      ensures t.parent[s] == 0 || w[t.parent[s]] || c[t.parent[s]]
      ensures t.sm[s] && !c[s] ==> t.initial[s] != 0 && w[t.initial[s]]
    {
      if !c[s] {
        assert ClosedAt(t, c, w, s);
      }
    }
  }

  /** A machine that is empty now was active before: a new one still has its Initial state. */
  lemma EmptyWasActive(t: Tables, c: Config, v: Config, s: nat)
    requires Cfg(t, c) && Cfg(t, v) && Seeded(t, c, v)
    requires Node(t, s) && t.sm[s] && v[s] && EmptyIn(t, v, s)
    ensures c[s]
  {
    assert t.initial[s] != 0 ==> IsChild(t, t.initial[s], s);
  }
}
