/** Which machines a recursive descent through open machines reaches, and in which order it leaves them. */
module Nesting {
  import opened Containment

  /** m and everything between m and r, r included, is open. */
  ghost predicate Chain(t: Tables, g: Config, r: nat, m: nat)
    requires Cfg(t, g) && Node(t, m)
    decreases t.rank[m]
  {
    g[m] && (m == r || (t.parent[m] != 0 && Chain(t, g, r, t.parent[m])))
  }

  lemma {:induction false} ChainInside(t: Tables, g: Config, r: nat, m: nat)
    requires Cfg(t, g) && Node(t, m) && Chain(t, g, r, m)
    ensures Inside(t, m, r) && Node(t, r) && g[r] && g[m]
    decreases t.rank[m]
  {
    if m != r {
      ChainInside(t, g, r, t.parent[m]);
    }
  }

  /** A chain from r to something below r passes through an open child machine of r. */
  lemma {:induction false} ChainChild(t: Tables, g: Config, r: nat, m: nat) returns (k: nat)
    requires Cfg(t, g) && Node(t, m) && Node(t, r) && Chain(t, g, r, m) && m != r && t.sm[m]
    ensures IsChild(t, k, r) && t.sm[k] && Chain(t, g, k, m)
    decreases t.rank[m]
  {
    if t.parent[m] == r {
      k := m;
    } else {
      k := ChainChild(t, g, r, t.parent[m]);
    }
  }

  /** With nothing closed above an open state, being inside and being on a chain agree. */
  lemma {:induction false} UpwardChain(t: Tables, g: Config, r: nat, m: nat)
    requires Cfg(t, g) && Upward(t, g) && Node(t, m) && g[m] && Inside(t, m, r)
    ensures Chain(t, g, r, m)
    decreases t.rank[m]
  {
    if m != r {
      UpwardChain(t, g, r, t.parent[m]);
    }
  }

  /** No machine is left twice, and none before a machine inside it. */
  ghost predicate InnermostFirst(t: Tables, q: seq<nat>)
  {
    && (forall i :: 0 <= i < |q| ==> Node(t, q[i]))
    && forall i, j :: 0 <= i < j < |q| ==> !Inside(t, q[j], q[i])
  }

  /** The machines q processed so far: open, marked, innermost first, with everything open below them. */
  ghost predicate Progress(t: Tables, g: Config, marked: seq<bool>, q: seq<nat>)
    requires Cfg(t, g) && |marked| == t.n + 1
  {
    && InnermostFirst(t, q)
    && (forall i :: 0 <= i < |q| ==> t.sm[q[i]] && g[q[i]] && marked[q[i]])
    && (forall i, x {:trigger q[i], g[x]} ::
         0 <= i < |q| && Node(t, x) && t.sm[x] && g[x] && Chain(t, g, q[i], x) ==> x in q)
  }

  /** Below s, exactly the marked open machines have been processed. */
  ghost predicate InStep(t: Tables, g: Config, marked: seq<bool>, q: seq<nat>, s: nat)
    requires Cfg(t, g) && |marked| == t.n + 1
  {
    forall x {:trigger marked[x]} :: Node(t, x) && t.sm[x] && g[x] && marked[x] && Inside(t, x, s) ==> x in q
  }

  /** If s lies inside a processed machine then s itself has been processed. */
  ghost predicate Fresh(t: Tables, g: Config, q: seq<nat>, s: nat)
    requires Cfg(t, g) && Node(t, s)
  {
    g[s] ==> forall i :: 0 <= i < |q| && Inside(t, s, q[i]) ==> s in q
  }

  /** Everything on a chain from s has been processed. */
  ghost predicate Covers(t: Tables, g: Config, q: seq<nat>, s: nat)
    requires Cfg(t, g)
  {
    forall x {:trigger g[x]} :: Node(t, x) && t.sm[x] && g[x] && Chain(t, g, s, x) ==> x in q
  }

  /** The machines of `part` are new and lie on chains from s. */
  ghost predicate FromRoot(t: Tables, g: Config, part: seq<nat>, s: nat)
    requires Cfg(t, g)
  {
    forall i :: 0 <= i < |part| ==> Node(t, part[i]) && t.sm[part[i]] && g[part[i]] && Chain(t, g, s, part[i])
  }

  /** Completing s after everything below it. */
  lemma Complete(t: Tables, g: Config, marked: seq<bool>, q: seq<nat>, s: nat)
    requires Cfg(t, g) && |marked| == t.n + 1
    requires Node(t, s) && t.sm[s] && g[s] && marked[s]
    requires Progress(t, g, marked, q)
    requires forall i :: 0 <= i < |q| ==> !Inside(t, s, q[i])
    requires forall k :: IsChild(t, k, s) && t.sm[k] ==> Covers(t, g, q, k)
    ensures Progress(t, g, marked, q + [s])
    ensures Covers(t, g, q + [s], s)
  {
    forall x | Node(t, x) && t.sm[x] && g[x] && Chain(t, g, s, x)
      ensures x in q + [s]
    {
      if x != s {
        var k := ChainChild(t, g, s, x);
        assert Covers(t, g, q, k);
      }
    }
  }

  /** A machine inside a processed one, in an upward closed set, has been processed. */
  lemma UpwardFresh(t: Tables, g: Config, marked: seq<bool>, q: seq<nat>, s: nat)
    requires Cfg(t, g) && Upward(t, g) && |marked| == t.n + 1
    requires Node(t, s) && t.sm[s] && Progress(t, g, marked, q)
    ensures Fresh(t, g, q, s)
  {
    if g[s] {
      forall i | 0 <= i < |q| && Inside(t, s, q[i])
        ensures s in q
      {
        UpwardChain(t, g, q[i], s);
      }
    }
  }

  // ---------------------------------------------------------------------- one descent

  /** Every machine of g inside s that is not marked is open for the descent. */
  ghost predicate GateOk(t: Tables, g: Config, v: Config, marked: seq<bool>, s: nat)
    requires Cfg(t, g) && Cfg(t, v) && |marked| == t.n + 1
  {
    forall x {:trigger g[x]} :: Node(t, x) && Inside(t, x, s) ==> (g[x] ==> v[x]) && (v[x] && !marked[x] ==> g[x])
  }

  /** Marks are only added inside s. */
  ghost predicate MarksWithin(t: Tables, marked: seq<bool>, marked': seq<bool>, s: nat)
    requires |marked| == |marked'| == t.n + 1
  {
    forall x {:trigger marked'[x]} :: Node(t, x) && marked[x] != marked'[x] ==> Inside(t, x, s) && marked'[x]
  }

  lemma GateNarrows(t: Tables, g: Config, v: Config, marked: seq<bool>, marked': seq<bool>, s: nat, k: nat)
    requires Cfg(t, g) && Cfg(t, v) && |marked| == |marked'| == t.n + 1 && Node(t, s) && Node(t, k)
    requires GateOk(t, g, v, marked, s) && Inside(t, k, s)
    requires forall x {:trigger marked'[x]} :: Node(t, x) && marked[x] ==> marked'[x]
    ensures GateOk(t, g, v, marked', k)
  {
    forall x | Node(t, x) && Inside(t, x, k)
      ensures (g[x] ==> v[x]) && (v[x] && !marked'[x] ==> g[x])
    {
      InsideTransitive(t, x, k, s);
    }
  }

  /** A marked machine that is open has been processed with everything below it. */
  lemma MarkedCovers(t: Tables, g: Config, marked: seq<bool>, q: seq<nat>, s: nat)
    requires Cfg(t, g) && |marked| == t.n + 1 && Node(t, s) && t.sm[s] && marked[s]
    requires Progress(t, g, marked, q) && InStep(t, g, marked, q, s)
    ensures Covers(t, g, q + [], s) && q + [] == q
  {
    assert q + [] == q;
    if g[s] {
      assert Inside(t, s, s);
      var i :| 0 <= i < |q| && q[i] == s;
    } else {
      ClosedCovers(t, g, q, s);
    }
  }

  lemma ClosedCovers(t: Tables, g: Config, q: seq<nat>, s: nat)
    requires Cfg(t, g) && Node(t, s) && !g[s]
    ensures Covers(t, g, q + [], s) && q + [] == q
  {
    assert q + [] == q;
    forall x | Node(t, x)
      ensures !Chain(t, g, s, x)
    {
      if Chain(t, g, s, x) {
        ChainInside(t, g, s, x);
      }
    }
  }

  /** State of the descent below s: s itself is marked but not processed. */
  ghost predicate Below(t: Tables, g: Config, marked0: seq<bool>, marked: seq<bool>, q: seq<nat>, part: seq<nat>,
                        s: nat)
    requires Cfg(t, g) && |marked0| == t.n + 1 && Node(t, s) && t.sm[s]
  {
    && |marked| == t.n + 1 && !marked0[s] && marked[s] && g[s]
    && Progress(t, g, marked, q + part) && FromRoot(t, g, part, s)
    && (forall i :: 0 <= i < |q + part| ==> !Inside(t, s, (q + part)[i]))
    && (forall x {:trigger marked[x]} ::
         Node(t, x) && t.sm[x] && g[x] && marked[x] && x != s && Inside(t, x, s) ==> x in q + part)
    && (forall x {:trigger marked[x]} :: Node(t, x) && marked0[x] != marked[x] ==> Inside(t, x, s) && marked[x])
  }

  lemma NewRoot(t: Tables, g: Config, marked: seq<bool>, q: seq<nat>, s: nat)
    requires Cfg(t, g) && |marked| == t.n + 1 && Node(t, s) && t.sm[s] && !marked[s] && g[s]
    requires Progress(t, g, marked, q) && InStep(t, g, marked, q, s) && Fresh(t, g, q, s)
    ensures Below(t, g, marked, marked[s := true], q, [], s)
  {
    assert q + [] == q;
    assert Inside(t, s, s);
    forall i | 0 <= i < |q|
      ensures !Inside(t, s, q[i])
    {
      assert s !in q;
    }
  }

  /** A child machine of s may be entered next. */
  lemma ReadyForChild(t: Tables, g: Config, marked0: seq<bool>, marked: seq<bool>, q: seq<nat>, part: seq<nat>, s: nat,
                      k: nat)
    requires Cfg(t, g) && |marked0| == t.n + 1 && Node(t, s) && t.sm[s]
    requires Below(t, g, marked0, marked, q, part, s) && IsChild(t, k, s) && t.sm[k]
    ensures InStep(t, g, marked, q + part, k) && Fresh(t, g, q + part, k)
  {
    ChildInside(t, k, s);
    forall x | Node(t, x) && t.sm[x] && g[x] && marked[x] && Inside(t, x, k)
      ensures x in q + part
    {
      InsideTransitive(t, x, k, s);
      InsideNode(t, x, k);
    }
  }

  /** The machines processed below a child belong to the descent below s. */
  lemma ChildDone(t: Tables, g: Config, marked0: seq<bool>, marked: seq<bool>, marked': seq<bool>, q: seq<nat>,
                  part: seq<nat>, more: seq<nat>, s: nat, k: nat)
    requires Cfg(t, g) && |marked0| == |marked'| == t.n + 1 && Node(t, s) && t.sm[s]
    requires Below(t, g, marked0, marked, q, part, s) && IsChild(t, k, s) && t.sm[k]
    requires Progress(t, g, marked', q + part + more) && FromRoot(t, g, more, k)
    requires InStep(t, g, marked', q + part + more, k)
    requires forall x {:trigger marked'[x]} :: Node(t, x) && marked[x] != marked'[x] ==> Inside(t, x, k) && marked'[x]
    ensures q + part + more == q + (part + more)
    ensures Below(t, g, marked0, marked', q, part + more, s)
  {
    assert q + part + more == q + (part + more);
    var all := q + (part + more);
    ChildInside(t, k, s);
    forall i | 0 <= i < |more|
      ensures Chain(t, g, s, more[i]) && Inside(t, more[i], s) && !Inside(t, s, more[i])
    {
      ChainInside(t, g, k, more[i]);
      ChainUp(t, g, more[i], k, s);
      InsideTransitive(t, more[i], k, s);
      NotBelowChild(t, s, k, more[i]);
    }
    forall i | 0 <= i < |all|
      ensures !Inside(t, s, all[i])
    {
      if i < |q + part| {
        assert all[i] == (q + part)[i];
      } else {
        assert all[i] == more[i - |q + part|];
      }
    }
    forall x | Node(t, x) && t.sm[x] && g[x] && marked'[x] && x != s && Inside(t, x, s)
      ensures x in all
    {
      if !Inside(t, x, k) {
        assert marked[x] == marked'[x];
        assert x in q + part;
      }
    }
    forall x | Node(t, x) && marked0[x] != marked'[x]
      ensures Inside(t, x, s) && marked'[x]
    {
      if marked[x] != marked'[x] {
        InsideTransitive(t, x, k, s);
      }
    }
  }

  lemma NotBelowChild(t: Tables, s: nat, k: nat, m: nat)
    requires Node(t, s) && IsChild(t, k, s) && Node(t, m) && Inside(t, m, k)
    ensures !Inside(t, s, m)
  {
    ChildInside(t, k, s);
    InsideNode(t, m, k);
    if Inside(t, s, m) {
      InsideNode(t, s, m);
    }
  }

  lemma {:induction false} ChainUp(t: Tables, g: Config, m: nat, k: nat, s: nat)
    requires Cfg(t, g) && Node(t, m) && Node(t, s) && g[s] && Chain(t, g, k, m) && IsChild(t, k, s)
    ensures Chain(t, g, s, m)
    decreases t.rank[m]
  {
    if m == k {
      assert Chain(t, g, s, s);
    } else {
      ChainUp(t, g, t.parent[m], k, s);
    }
  }

  /** After its children, s itself. */
  lemma Finish(t: Tables, g: Config, marked0: seq<bool>, marked: seq<bool>, q: seq<nat>, part: seq<nat>, s: nat)
    requires Cfg(t, g) && |marked0| == t.n + 1 && Node(t, s) && t.sm[s]
    requires Below(t, g, marked0, marked, q, part, s)
    requires forall k :: IsChild(t, k, s) && t.sm[k] ==> Covers(t, g, q + part, k)
    ensures q + part + [s] == q + (part + [s])
    ensures Progress(t, g, marked, q + (part + [s])) && FromRoot(t, g, part + [s], s)
    ensures InStep(t, g, marked, q + (part + [s]), s) && Covers(t, g, q + (part + [s]), s)
  {
    assert q + part + [s] == q + (part + [s]);
    Complete(t, g, marked, q + part, s);
    assert Chain(t, g, s, s);
  }

  // ---------------------------------------------------------------------- the marks of a descent

  ghost predicate MoreMarks(t: Tables, marks: seq<bool>, marked: seq<bool>)
    requires |marks| == |marked| == t.n + 1
  {
    forall s {:trigger marked[s]} :: Node(t, s) && marks[s] ==> marked[s]
  }

  /** A descent from s that processes `part` marks s and the child machines of what it processes. */
  ghost predicate Visits(t: Tables, marked: seq<bool>, marked': seq<bool>, part: seq<nat>, s: nat)
    requires |marked| == |marked'| == t.n + 1 && Node(t, s)
  {
    && marked'[s] && MoreMarks(t, marked, marked')
    && (forall x {:trigger marked'[x]} :: Node(t, x) && marked'[x] && !marked[x] ==> x == s || t.parent[x] in part)
    && (forall x {:trigger marked'[x]} :: Node(t, x) && t.sm[x] && t.parent[x] in part ==> marked'[x])
  }

  /** The descents below s so far mark children of s and child machines of what they process. */
  ghost predicate VisitsBelow(t: Tables, marked: seq<bool>, marked': seq<bool>, part: seq<nat>, s: nat)
    requires |marked| == |marked'| == t.n + 1
  {
    && MoreMarks(t, marked, marked')
    && (forall x {:trigger marked'[x]} ::
         Node(t, x) && marked'[x] && !marked[x] ==> t.parent[x] == s || t.parent[x] in part)
    && (forall x {:trigger marked'[x]} :: Node(t, x) && t.sm[x] && t.parent[x] in part ==> marked'[x])
  }

  lemma VisitsChild(t: Tables, marked: seq<bool>, marked1: seq<bool>, marked2: seq<bool>, part: seq<nat>,
                    more: seq<nat>, s: nat, k: nat)
    requires |marked| == |marked1| == |marked2| == t.n + 1 && IsChild(t, k, s)
    requires VisitsBelow(t, marked, marked1, part, s) && Visits(t, marked1, marked2, more, k)
    ensures VisitsBelow(t, marked, marked2, part + more, s) && marked2[k]
  {
    forall x | Node(t, x) && marked2[x] && !marked[x]
      ensures t.parent[x] == s || t.parent[x] in part + more
    {
      if !marked1[x] {
        assert x == k || t.parent[x] in more;
      }
    }
  }

  lemma VisitsDone(t: Tables, marked: seq<bool>, marked': seq<bool>, part: seq<nat>, s: nat)
    requires |marked| == |marked'| == t.n + 1 && Node(t, s)
    requires VisitsBelow(t, marked[s := true], marked', part, s)
    requires forall k :: IsChild(t, k, s) && t.sm[k] ==> marked'[k]
    ensures Visits(t, marked, marked', part + [s], s)
  {
    assert marked[s := true][s];
    forall x | Node(t, x) && marked'[x] && !marked[x]
      ensures x == s || t.parent[x] in part + [s]
    {
      assert x != s ==> !marked[s := true][x];
    }
    forall x | Node(t, x) && t.sm[x] && t.parent[x] in part + [s]
      ensures marked'[x]
    {
      assert t.parent[x] == s ==> IsChild(t, x, s);
    }
  }

  // ---------------------------------------------------------------------- a list of descents

  /** m is open and lies inside one of the first n roots. */
  ghost predicate InsideRoot(t: Tables, g: Config, roots: seq<nat>, n: nat, m: nat)
    requires Cfg(t, g) && n <= |roots| && Node(t, m)
  {
    g[m] && t.sm[m] && exists j :: 0 <= j < n && Inside(t, m, roots[j])
  }

  /** State between two descents: everything marked and open is processed, and only what lies inside a root. */
  ghost predicate Between(t: Tables, g: Config, marked: seq<bool>, q: seq<nat>, roots: seq<nat>, n: nat)
    requires Cfg(t, g) && n <= |roots|
  {
    && |marked| == t.n + 1 && Progress(t, g, marked, q)
    && (forall x {:trigger marked[x]} :: Node(t, x) && t.sm[x] && g[x] && marked[x] ==> x in q)
    && (forall i :: 0 <= i < |q| ==> InsideRoot(t, g, roots, n, q[i]))
    && (forall j :: 0 <= j < n ==> Covers(t, g, q, roots[j]))
  }

  /** After n roots the marked machines are these roots and the child machines of what was processed. */
  ghost predicate RootMarks(t: Tables, marked: seq<bool>, q: seq<nat>, roots: seq<nat>, n: nat)
    requires |marked| == t.n + 1 && n <= |roots|
  {
    forall m {:trigger marked[m]} :: Node(t, m) && t.sm[m] ==> (marked[m] <==> m in roots[..n] || t.parent[m] in q)
  }

  lemma RootMarksNext(t: Tables, marked: seq<bool>, marked': seq<bool>, q: seq<nat>, part: seq<nat>, roots: seq<nat>,
                      n: nat)
    requires |marked| == |marked'| == t.n + 1 && n < |roots| && Node(t, roots[n])
    requires RootMarks(t, marked, q, roots, n) && Visits(t, marked, marked', part, roots[n])
    ensures RootMarks(t, marked', q + part, roots, n + 1)
  {
    assert roots[..n + 1] == roots[..n] + [roots[n]];
    forall m | Node(t, m) && t.sm[m]
      ensures marked'[m] <==> m in roots[..n + 1] || t.parent[m] in q + part
    {
      assert marked[m] <==> m in roots[..n] || t.parent[m] in q;
    }
  }

  lemma FirstRoot(t: Tables, g: Config, marked: seq<bool>, roots: seq<nat>)
    requires Cfg(t, g) && |marked| == t.n + 1 && forall x :: 0 <= x < |marked| ==> !marked[x]
    ensures Between(t, g, marked, [], roots, 0) && RootMarks(t, marked, [], roots, 0)
  {
  }

  lemma RootReady(t: Tables, g: Config, marked: seq<bool>, q: seq<nat>, roots: seq<nat>, n: nat)
    requires Cfg(t, g) && Upward(t, g) && n < |roots| && Between(t, g, marked, q, roots, n)
    requires Node(t, roots[n]) && t.sm[roots[n]]
    ensures Progress(t, g, marked, q) && InStep(t, g, marked, q, roots[n]) && Fresh(t, g, q, roots[n])
    ensures GateOk(t, g, g, marked, roots[n])
  {
    UpwardFresh(t, g, marked, q, roots[n]);
  }

  lemma NextRoot(t: Tables, g: Config, marked: seq<bool>, marked': seq<bool>, q: seq<nat>, part: seq<nat>,
                 roots: seq<nat>, n: nat)
    requires Cfg(t, g) && n < |roots| && Node(t, roots[n]) && Between(t, g, marked, q, roots, n) && |marked'| == t.n + 1
    requires Progress(t, g, marked', q + part) && FromRoot(t, g, part, roots[n])
    requires InStep(t, g, marked', q + part, roots[n]) && Covers(t, g, q + part, roots[n])
    requires MarksWithin(t, marked, marked', roots[n])
    ensures Between(t, g, marked', q + part, roots, n + 1)
  {
    forall x | Node(t, x) && t.sm[x] && g[x] && marked'[x]
      ensures x in q + part
    {
      if marked[x] {
        assert x in q;
      }
    }
    forall i | 0 <= i < |q + part|
      ensures InsideRoot(t, g, roots, n + 1, (q + part)[i])
    {
      if i < |q| {
        assert InsideRoot(t, g, roots, n, q[i]);
      } else {
        ChainInside(t, g, roots[n], part[i - |q|]);
      }
    }
  }

  /** With an upward closed gate, a list of descents processes exactly what is open inside its roots. */
  lemma RootsDone(t: Tables, g: Config, marked: seq<bool>, q: seq<nat>, roots: seq<nat>)
    requires Cfg(t, g) && Upward(t, g) && Between(t, g, marked, q, roots, |roots|)
    ensures InnermostFirst(t, q)
    ensures forall m {:trigger m in q} :: m in q <==> Node(t, m) && InsideRoot(t, g, roots, |roots|, m)
  {
    forall m | Node(t, m) && InsideRoot(t, g, roots, |roots|, m)
      ensures m in q
    {
      var j :| 0 <= j < |roots| && Inside(t, m, roots[j]);
      UpwardChain(t, g, roots[j], m);
      assert Covers(t, g, q, roots[j]);
    }
  }

  // ---------------------------------------------------------------------- descents from the top level

  /** m and everything around it is open. */
  ghost predicate OpenUp(t: Tables, g: Config, m: nat)
    requires Cfg(t, g) && Node(t, m)
    decreases t.rank[m]
  {
    g[m] && (t.parent[m] == 0 || OpenUp(t, g, t.parent[m]))
  }

  lemma {:induction false} ChainFromTop(t: Tables, g: Config, r: nat, m: nat)
    requires Cfg(t, g) && Node(t, m) && Node(t, r) && t.parent[r] == 0
    ensures Chain(t, g, r, m) <==> OpenUp(t, g, m) && Inside(t, m, r)
    decreases t.rank[m]
  {
    if m != r && t.parent[m] != 0 {
      ChainFromTop(t, g, r, t.parent[m]);
    }
  }

  /** Every state lies inside a top-level state. */
  lemma {:induction false} TopLevel(t: Tables, m: nat) returns (r: nat)
    requires Node(t, m)
    ensures Node(t, r) && t.parent[r] == 0 && Inside(t, m, r) && (t.sm[m] ==> t.sm[r])
    decreases t.rank[m]
  {
    if t.parent[m] == 0 {
      r := m;
    } else {
      r := TopLevel(t, t.parent[m]);
    }
  }

  /** What is active and not marked. */
  ghost function Unmarked(t: Tables, c: Config, marks: seq<bool>): (g: Config)
    requires Cfg(t, c) && |marks| == t.n + 1
    ensures Cfg(t, g) && forall s {:trigger g[s]} :: 0 <= s <= t.n ==> g[s] == (c[s] && !marks[s])
  {
    seq(t.n + 1, s requires 0 <= s <= t.n => c[s] && !marks[s])
  }

  /** Between two top-level descents: the top-level machines below n are done. */
  ghost predicate TopDone(t: Tables, g: Config, marked: seq<bool>, q: seq<nat>, n: nat)
    requires Cfg(t, g)
  {
    && |marked| == t.n + 1 && Progress(t, g, marked, q)
    && (forall x {:trigger marked[x]} :: Node(t, x) && t.sm[x] && g[x] && marked[x] ==> x in q)
    && (forall i :: 0 <= i < |q| ==> OpenUp(t, g, q[i]))
    && (forall r :: Node(t, r) && r < n && t.parent[r] == 0 && t.sm[r] ==> Covers(t, g, q, r))
  }

  lemma TopReady(t: Tables, g: Config, c: Config, marks: seq<bool>, marked: seq<bool>, q: seq<nat>, r: nat)
    requires Cfg(t, c) && |marks| == t.n + 1 && g == Unmarked(t, c, marks) && TopDone(t, g, marked, q, r)
    requires Node(t, r) && t.parent[r] == 0 && t.sm[r] && MoreMarks(t, marks, marked)
    ensures InStep(t, g, marked, q, r) && Fresh(t, g, q, r) && GateOk(t, g, c, marked, r)
  {
  }

  lemma TopStep(t: Tables, g: Config, marked: seq<bool>, marked': seq<bool>, q: seq<nat>, part: seq<nat>, r: nat)
    requires Cfg(t, g) && TopDone(t, g, marked, q, r) && |marked'| == t.n + 1
    requires Node(t, r) && t.parent[r] == 0 && t.sm[r]
    requires Progress(t, g, marked', q + part) && FromRoot(t, g, part, r)
    requires InStep(t, g, marked', q + part, r) && Covers(t, g, q + part, r)
    requires MarksWithin(t, marked, marked', r)
    ensures TopDone(t, g, marked', q + part, r + 1)
  {
    forall x | Node(t, x) && t.sm[x] && g[x] && marked'[x]
      ensures x in q + part
    {
      if marked[x] {
        assert x in q;
      }
    }
    forall i | 0 <= i < |part|
      ensures OpenUp(t, g, part[i])
    {
      ChainFromTop(t, g, r, part[i]);
    }
  }

  /** A top-level state without anything to leave. */
  lemma TopSkip(t: Tables, g: Config, marked: seq<bool>, q: seq<nat>, r: nat)
    requires Cfg(t, g) && TopDone(t, g, marked, q, r) && r <= t.n
    requires Node(t, r) && t.parent[r] == 0 && t.sm[r] ==> !g[r]
    ensures TopDone(t, g, marked, q, r + 1)
  {
    if Node(t, r) && t.parent[r] == 0 && t.sm[r] {
      ClosedCovers(t, g, q, r);
      assert q + [] == q;
    }
  }

  lemma TopFinished(t: Tables, g: Config, marked: seq<bool>, q: seq<nat>)
    requires Cfg(t, g) && TopDone(t, g, marked, q, t.n + 1)
    ensures forall m: nat {:trigger m in q} :: m in q <==> Node(t, m) && t.sm[m] && OpenUp(t, g, m)
  {
    forall m: nat {:trigger m in q} | Node(t, m) && t.sm[m] && OpenUp(t, g, m)
      ensures m in q
    {
      var r := TopLevel(t, m);
      ChainFromTop(t, g, r, m);
      assert Covers(t, g, q, r);
    }
  }

  /** Descending from the top leaves all active machines exactly if no active machine was marked. */
  lemma LeavesAllIffUnmarked(t: Tables, c: Config, marks: seq<bool>)
    requires Legal(t, c) && |marks| == t.n + 1
    ensures (forall m {:trigger c[m]} :: Node(t, m) && t.sm[m] && c[m] ==> OpenUp(t, Unmarked(t, c, marks), m))
       <==> (forall m {:trigger marks[m]} :: Node(t, m) && t.sm[m] && c[m] ==> !marks[m])
  {
    var g := Unmarked(t, c, marks);
    if forall m {:trigger marks[m]} :: Node(t, m) && t.sm[m] && c[m] ==> !marks[m] {
      forall m | Node(t, m) && t.sm[m] && c[m]
        ensures OpenUp(t, g, m)
      {
        UnmarkedOpen(t, c, marks, m);
      }
    }
    if forall m {:trigger c[m]} :: Node(t, m) && t.sm[m] && c[m] ==> OpenUp(t, g, m) {
      forall m | Node(t, m) && t.sm[m] && c[m]
        ensures !marks[m]
      {
        assert g[m];
      }
    }
  }

  lemma {:induction false} UnmarkedOpen(t: Tables, c: Config, marks: seq<bool>, m: nat)
    requires Legal(t, c) && |marks| == t.n + 1 && Node(t, m) && t.sm[m] && c[m]
    requires forall a {:trigger marks[a]} :: Node(t, a) && t.sm[a] && c[a] ==> !marks[a]
    ensures OpenUp(t, Unmarked(t, c, marks), m)
    decreases t.rank[m]
  {
    if t.parent[m] != 0 {
      UnmarkedOpen(t, c, marks, t.parent[m]);
    }
  }
}
