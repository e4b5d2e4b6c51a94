/** The invariant of the pass that computes the entered states. */
module EnteredStates {
  import opened Containment
  import opened Closure

  /** A state inside r that the moved configuration adds and that comes before r: on the way up from it, the pass
      marks r. */
  ghost predicate NewBelow(t: Tables, c: Config, base: Config, r: nat)
    requires Cfg(t, c) && Cfg(t, base) && Node(t, r)
  {
    exists s {:trigger base[s]} :: Node(t, s) && s < r && base[s] && !c[s] && Inside(t, s, r)
  }

  ghost predicate StartedAround(t: Tables, started: set<nat>, r: nat)
    requires Node(t, r)
  {
    t.thread[r] && t.parent[r] in started
  }

  /** Region r started its threads, or the pass had marked it before it came to r: on the way up from a
      smaller state inside r, or as a thread of a started region. */
  ghost predicate Seen(t: Tables, c: Config, base: Config, started: set<nat>, r: nat)
    requires Cfg(t, c) && Cfg(t, base) && Node(t, r)
  {
    r in started || NewBelow(t, c, base, r) || StartedAround(t, started, r)
  }

  /** The regions that start their threads are the added ones that the pass comes to unmarked. */
  ghost predicate StartedExactly(t: Tables, c: Config, base: Config, started: set<nat>)
    requires Cfg(t, c) && Cfg(t, base)
  {
    forall r: nat {:trigger r in started} ::
      r in started <==> Candidate(t, c, base, r) && !NewBelow(t, c, base, r) && !StartedAround(t, started, r)
  }

  /** The moved configuration determines which regions start their threads. */
  lemma {:induction false} StartedUnique(t: Tables, c: Config, base: Config, a: set<nat>, b: set<nat>, r: nat)
    requires Cfg(t, c) && Cfg(t, base) && StartedExactly(t, c, base, a) && StartedExactly(t, c, base, b) && Node(t, r)
    ensures r in a <==> r in b
    decreases t.rank[r]
  {
    if t.parent[r] != 0 {
      StartedUnique(t, c, base, a, b, t.parent[r]);
    } else {
      assert 0 !in a && 0 !in b;
    }
  }

  ghost predicate Candidate(t: Tables, c: Config, base: Config, r: int)
    requires Cfg(t, c) && Cfg(t, base)
  {
    Node(t, r) && t.sm[r] && t.region[r] && base[r] && !c[r]
  }

  /** The entered machines below which the entering list must reach. */
  ghost predicate TopListed(t: Tables, c: Config, list: seq<nat>, top: nat, m: nat)
    requires Cfg(t, c) && Node(t, m)
  {
    Top(t, c, m) in list || Top(t, c, m) == top
  }

  /** New states the scan has passed or marked are closed, except for those in ex. */
  ghost predicate ClosedSoFar(t: Tables, c: Config, marks: seq<bool>, x: Config, upto: nat, ex: set<nat>)
    requires Cfg(t, c) && Cfg(t, x) && |marks| == t.n + 1
  {
    forall s {:trigger ClosedAt(t, c, x, s)} {:trigger marks[s]} ::
      Node(t, s) && x[s] && !c[s] && (s < upto || marks[s]) && s !in ex ==> ClosedAt(t, c, x, s)
  }

  /** Active states without a mark were in base. */
  ghost predicate MarkedOrBase(t: Tables, base: Config, marks: seq<bool>, x: Config)
    requires Cfg(t, base) && Cfg(t, x) && |marks| == t.n + 1
  {
    forall s {:trigger marks[s]} :: Node(t, s) && x[s] && !marks[s] ==> base[s]
  }

  /** New machines the scan has passed or marked lie below a listed one or below top. */
  ghost predicate ListedSoFar(t: Tables, c: Config, marks: seq<bool>, x: Config, upto: nat, list: seq<nat>, top: nat)
    requires Cfg(t, c) && Cfg(t, x) && |marks| == t.n + 1
  {
    && (forall m {:trigger TopListed(t, c, list, top, m)} {:trigger marks[m]} ::
          Node(t, m) && t.sm[m] && x[m] && !c[m] && (m < upto || marks[m]) ==> TopListed(t, c, list, top, m))
    && (forall i ::
         0 <= i < |list| ==> Node(t, list[i]) && t.sm[list[i]] && !c[list[i]] && x[list[i]] && Outermost(t, c, list[i]))
  }

  /** Around m there is nothing, or what was active. */
  ghost predicate Outermost(t: Tables, c: Config, m: nat)
    requires Cfg(t, c) && Node(t, m)
  {
    t.parent[m] == 0 || c[t.parent[m]]
  }

  /** Regions the scan has passed or marked have been seen to. */
  ghost predicate RegionsSoFar(t: Tables, c: Config, base: Config, started: set<nat>, marks: seq<bool>, upto: nat)
    requires Cfg(t, c) && Cfg(t, base) && |marks| == t.n + 1
  {
    && (forall r ::
         r in started ==>
           Candidate(t, c, base, r) && r <= upto && !NewBelow(t, c, base, r) && !StartedAround(t, started, r))
    && (forall r {:trigger Candidate(t, c, base, r)} ::
          Candidate(t, c, base, r) && (r < upto || marks[r]) ==> Seen(t, c, base, started, r))
  }

  /** Added states that the scan has passed are marked, and so is everything new around a marked state. */
  ghost predicate MarksSoFar(t: Tables, c: Config, base: Config, marks: seq<bool>, upto: nat, ex: set<nat>)
    requires Cfg(t, c) && Cfg(t, base) && |marks| == t.n + 1
  {
    && (forall s {:trigger base[s]} :: Node(t, s) && base[s] && !c[s] && s < upto ==> marks[s])
    && (forall s {:trigger marks[s]} :: Node(t, s) && marks[s] && !c[s] && s !in ex ==> MarkedAround(t, c, marks, s))
  }

  ghost predicate MarkedAround(t: Tables, c: Config, marks: seq<bool>, s: nat)
    requires Cfg(t, c) && |marks| == t.n + 1 && Node(t, s)
  {
    t.parent[s] == 0 || c[t.parent[s]] || marks[t.parent[s]]
  }

  lemma {:induction false} MarkedUp(t: Tables, c: Config, base: Config, marks: seq<bool>, upto: nat, s: nat, r: nat)
    requires Cfg(t, c) && Upward(t, c) && Cfg(t, base) && |marks| == t.n + 1 && MarksSoFar(t, c, base, marks, upto, {})
    requires Node(t, s) && Node(t, r) && marks[s] && !c[s] && Inside(t, s, r) && !c[r]
    ensures marks[r]
    decreases t.rank[s]
  {
    if s != r {
      assert MarkedAround(t, c, marks, s);
      if c[t.parent[s]] {
        UpwardInside(t, c, t.parent[s], r);
      }
      MarkedUp(t, c, base, marks, upto, t.parent[s], r);
    }
  }

  /** A machine that the scan reaches unmarked has no smaller added state inside. */
  lemma UnmarkedFirst(t: Tables, c: Config, base: Config, marks: seq<bool>, s: nat)
    requires Cfg(t, c) && Upward(t, c) && Cfg(t, base) && |marks| == t.n + 1 && MarksSoFar(t, c, base, marks, s, {})
    requires Node(t, s) && !c[s] && !marks[s]
    ensures !NewBelow(t, c, base, s)
  {
    if NewBelow(t, c, base, s) {
      var k :| Node(t, k) && k < s && base[k] && !c[k] && Inside(t, k, s);
      MarkedUp(t, c, base, marks, s, k, s);
    }
  }

  /** State of the scan at `upto`: x and marks are temp and VISITED; ex are states still being worked on
      and top is the outermost machine to be listed for them (0 = none). */
  ghost predicate Scan(t: Tables, c: Config, base: Config, started: set<nat>, marks: seq<bool>, x: Config, upto: nat,
                       list: seq<nat>, top: nat, ex: set<nat>)
  {
    && Cfg(t, c) && Cfg(t, base) && Cfg(t, x) && |marks| == t.n + 1
    && Least(t, c, base, started, x)
    && ClosedSoFar(t, c, marks, x, upto, ex)
    && MarkedOrBase(t, base, marks, x)
    && ListedSoFar(t, c, marks, x, upto, list, top)
    && RegionsSoFar(t, c, base, started, marks, upto)
    && MarksSoFar(t, c, base, marks, upto, ex)
  }

  /** Activating and marking one more state. */
  lemma AddMark(t: Tables, c: Config, base: Config, started: set<nat>, marks: seq<bool>, x: Config, upto: nat,
                list: seq<nat>, top: nat, ex: set<nat>, a: nat)
    requires Scan(t, c, base, started, marks, x, upto, list, top, ex)
    requires Node(t, a) && !c[a] && Least(t, c, base, started, x[a := true])
    requires a in ex || (ClosedAt(t, c, x[a := true], a) && MarkedAround(t, c, marks, a))
    requires t.sm[a] ==> Top(t, c, a) == top
    requires Candidate(t, c, base, a) ==> a < upto || Seen(t, c, base, started, a)
    ensures Scan(t, c, base, started, marks[a := true], x[a := true], upto, list, top, ex)
  {
    var x', marks' := x[a := true], marks[a := true];
    forall s | Node(t, s) && x'[s] && !c[s] && (s < upto || marks'[s]) && s !in ex
      ensures ClosedAt(t, c, x', s)
    {
      if s != a {
        assert marks[s] == marks'[s];
        assert ClosedAt(t, c, x, s);
      }
    }
    forall m | Node(t, m) && t.sm[m] && x'[m] && !c[m] && (m < upto || marks'[m])
      ensures TopListed(t, c, list, top, m)
    {
      if m != a {
        assert marks[m] == marks'[m];
      }
    }
    forall r | Candidate(t, c, base, r) && (r < upto || marks'[r])
      ensures Seen(t, c, base, started, r)
    {
    }
  }

  /** Giving an entered machine its Initial state. */
  lemma AddInitial(t: Tables, c: Config, base: Config, started: set<nat>, marks: seq<bool>, x: Config, upto: nat,
                   list: seq<nat>, top: nat, ex: set<nat>, s: nat)
    requires Scan(t, c, base, started, marks, x, upto, list, top, ex) && Upward(t, c)
    requires Node(t, s) && t.sm[s] && x[s] && !c[s] && t.initial[s] != 0 && marks[s]
    ensures Scan(t, c, base, started, marks[t.initial[s] := true], x[t.initial[s] := true], upto, list, top, ex)
  {
    var a := t.initial[s];
    assert IsChild(t, a, s);
    ForceInitial(t, c, base, started, x, s);
    assert ClosedAt(t, c, x[a := true], a);
    AddMark(t, c, base, started, marks, x, upto, list, top, ex, a);
  }

  /** Starting to work on s. */
  lemma Begin(t: Tables, c: Config, base: Config, started: set<nat>, marks: seq<bool>, x: Config, upto: nat,
              list: seq<nat>, s: nat)
    requires Scan(t, c, base, started, marks, x, upto, list, 0, {})
    requires Node(t, s)
    ensures Scan(t, c, base, started, marks, x, upto, list, Top(t, c, s), {s, t.parent[s]})
  {
    forall m | Node(t, m) && t.sm[m] && x[m] && !c[m] && (m < upto || marks[m])
      ensures TopListed(t, c, list, Top(t, c, s), m)
    {
      assert TopListed(t, c, list, 0, m);
    }
  }

  /** s starts its threads: the scan has come to it unmarked. */
  lemma BeginRegion(t: Tables, c: Config, base: Config, started: set<nat>, marks: seq<bool>, x: Config, upto: nat,
                    list: seq<nat>, top: nat, ex: set<nat>, s: nat)
    requires Scan(t, c, base, started, marks, x, upto, list, top, ex) && Candidate(t, c, base, s)
    requires upto == s && !NewBelow(t, c, base, s) && !StartedAround(t, started, s)
    ensures Scan(t, c, base, started + {s}, marks, x, upto, list, top, ex)
  {
    StartRegion(t, c, base, started, x, s);
    forall r | r in started + {s}
      ensures !StartedAround(t, started + {s}, r)
    {
      assert Candidate(t, c, base, r);
      if t.parent[r] == s {
        ChildInside(t, r, s);
      }
    }
    forall r | Candidate(t, c, base, r) && (r < upto || marks[r])
      ensures Seen(t, c, base, started + {s}, r)
    {
      assert Seen(t, c, base, started, r);
    }
  }

  /** The scan has come to machine s unmarked: s is marked, and starts its threads if it is a region. */
  lemma BeginMachine(t: Tables, c: Config, base: Config, started: set<nat>, marks: seq<bool>, x: Config, list: seq<nat>,
                     s: nat)
    requires Scan(t, c, base, started, marks, x, s, list, 0, {}) && Upward(t, c) && ThreadsIn(t, marks, started)
    requires Node(t, s) && t.sm[s] && !marks[s] && x[s] && !c[s]
    ensures Scan(t, c, base, if t.region[s] then started + {s} else started, marks[s := true], x, s, list, Top(t, c, s),
        {s, t.parent[s]})
  {
    var top, ex := Top(t, c, s), {s, t.parent[s]};
    UnmarkedFirst(t, c, base, marks, s);
    assert !StartedAround(t, started, s) by {
      assert StartedAround(t, started, s) ==> IsThread(t, s, t.parent[s]);
    }
    Begin(t, c, base, started, marks, x, s, list, s);
    if t.region[s] {
      BeginRegion(t, c, base, started, marks, x, s, list, top, ex, s);
    }
    assert x[s := true] == x;
    AddMark(t, c, base, if t.region[s] then started + {s} else started, marks, x, s, list, top, ex, s);
  }

  /** The work on s is done; work on other states may begin. */
  lemma Close(t: Tables, c: Config, base: Config, started: set<nat>, marks: seq<bool>, x: Config, upto: nat,
              list: seq<nat>, top: nat, ex: set<nat>, s: nat, ex': set<nat>)
    requires Scan(t, c, base, started, marks, x, upto, list, top, ex)
    requires Node(t, s) && (c[s] || (ClosedAt(t, c, x, s) && MarkedAround(t, c, marks, s)))
    requires ex <= ex' + {s, 0}
    ensures Scan(t, c, base, started, marks, x, upto, list, top, ex')
  {
  }

  /** v with machine a and its Initial state, if it has one. */
  function WithInitial(t: Tables, v: seq<bool>, a: nat): (w: seq<bool>)
    requires Node(t, a) && |v| == t.n + 1
    ensures |w| == |v| && w[a] && Leq(v, w)
    ensures t.initial[a] != 0 ==> w[t.initial[a]]
  {
    if t.initial[a] != 0 then v[a := true][t.initial[a] := true] else v[a := true]
  }

  /** A new thread with its Initial state. */
  lemma AddThread(t: Tables, c: Config, base: Config, started: set<nat>, marks: seq<bool>, x: Config, upto: nat,
                  list: seq<nat>, top: nat, ex: set<nat>, k: nat, r: nat)
    requires Scan(t, c, base, started, marks, x, upto, list, top, ex) && Upward(t, c)
    requires r in started && IsThread(t, k, r) && !c[r] && x[r] && marks[r] && Top(t, c, r) == top
    ensures Scan(t, c, base, started, WithInitial(t, marks, k), WithInitial(t, x, k), upto, list, top, ex)
  {
    assert Candidate(t, c, base, r);
    ForceThread(t, c, base, started, x, k, r);
    AddMark(t, c, base, started, marks, x, upto, list, top, ex + {k}, k);
    if t.initial[k] != 0 {
      AddInitial(t, c, base, started, marks[k := true], x[k := true], upto, list, top, ex + {k}, k);
    }
    Close(t, c, base, started, WithInitial(t, marks, k), WithInitial(t, x, k), upto, list, top, ex + {k}, k, ex);
  }

  lemma ClimbEncloses(t: Tables, s: nat, p: nat)
    requires Node(t, s) && Node(t, p) && Inside(t, s, p) && t.parent[p] != 0
    ensures Node(t, t.parent[p]) && Inside(t, s, t.parent[p]) && s != t.parent[p]
  {
    assert Inside(t, p, t.parent[p]);
    InsideTransitive(t, s, p, t.parent[p]);
    InsideNode(t, s, p);
  }

  /** One step up: the machine around q becomes active with its Initial state. */
  lemma AddEncloser(t: Tables, c: Config, base: Config, started: set<nat>, marks: seq<bool>, x: Config, upto: nat,
                    list: seq<nat>, top: nat, q: nat)
    requires Node(t, q) && Scan(t, c, base, started, marks, x, upto, list, top, {q, t.parent[q]}) && Upward(t, c)
    requires Node(t, upto) && base[upto] && !c[upto] && Inside(t, upto, q)
    requires x[q] && !c[q] && Top(t, c, q) == top
    requires t.sm[q] && t.initial[q] != 0 ==> x[t.initial[q]]
    requires t.parent[q] != 0 && !c[t.parent[q]]
    ensures Node(t, t.parent[q]) && Inside(t, upto, t.parent[q])
    ensures Scan(t, c, base, started, WithInitial(t, marks, t.parent[q]), WithInitial(t, x, t.parent[q]), upto, list,
        top,
                 {t.parent[q], t.parent[t.parent[q]]})
  {
    var p := t.parent[q];
    ClimbEncloses(t, upto, q);
    ForceParent(t, c, base, started, x, q);
    AddMark(t, c, base, started, marks, x, upto, list, top, {q, p}, p);
    if t.initial[p] != 0 {
      AddInitial(t, c, base, started, marks[p := true], x[p := true], upto, list, top, {q, p}, p);
    }
    Close(t, c, base, started, WithInitial(t, marks, p), WithInitial(t, x, p), upto, list, top, {q, p}, q,
        {p, t.parent[p]});
  }

  /** The way up ends below an active machine or at the top level. */
  lemma EndClimb(t: Tables, c: Config, base: Config, started: set<nat>, marks: seq<bool>, x: Config, upto: nat,
                 list: seq<nat>, top: nat, p: nat)
    requires Node(t, p) && Scan(t, c, base, started, marks, x, upto, list, top, {p, t.parent[p]})
    requires x[p] && !c[p] && (t.sm[p] && t.initial[p] != 0 ==> x[t.initial[p]])
    requires t.parent[p] == 0 || c[t.parent[p]]
    ensures Scan(t, c, base, started, marks, x, upto, list, top, {})
  {
    if t.parent[p] != 0 {
      Close(t, c, base, started, marks, x, upto, list, top, {p, t.parent[p]}, t.parent[p], {p});
    }
    Close(t, c, base, started, marks, x, upto, list, top, {p, 0}, p, {});
  }

  lemma ListTop(t: Tables, c: Config, marks: seq<bool>, x: Config, upto: nat, list: seq<nat>, top: nat)
    requires Cfg(t, c) && Cfg(t, x) && |marks| == t.n + 1 && ListedSoFar(t, c, marks, x, upto, list, top)
    requires Node(t, top) && t.sm[top] && !c[top] && x[top] && Outermost(t, c, top)
    requires Node(t, upto) && marks[upto]
    ensures ListedSoFar(t, c, marks, x, upto + 1, list + [top], 0)
  {
    forall m | Node(t, m) && t.sm[m] && x[m] && !c[m] && (m < upto + 1 || marks[m])
      ensures TopListed(t, c, list + [top], 0, m)
    {
      assert m < upto || marks[m];
      assert TopListed(t, c, list, top, m);
    }
  }

  /** The outermost machine is listed and the scan moves on. */
  lemma Advance(t: Tables, c: Config, base: Config, started: set<nat>, marks: seq<bool>, x: Config, upto: nat,
                list: seq<nat>, top: nat)
    requires Scan(t, c, base, started, marks, x, upto, list, top, {})
    requires Node(t, top) && t.sm[top] && !c[top] && x[top] && Outermost(t, c, top)
    requires Node(t, upto) && marks[upto]
    ensures Scan(t, c, base, started, marks, x, upto + 1, list + [top], 0, {})
  {
    ListTop(t, c, marks, x, upto, list, top);
  }

  /** A plain state entered in an active machine changes nothing. */
  lemma AdvancePlain(t: Tables, c: Config, base: Config, started: set<nat>, marks: seq<bool>, x: Config, upto: nat,
                     list: seq<nat>)
    requires Scan(t, c, base, started, marks, x, upto, list, 0, {})
    requires Node(t, upto) && !t.sm[upto] && x[upto] && !c[upto] && c[t.parent[upto]]
    ensures Scan(t, c, base, started, marks[upto := true], x, upto + 1, list, 0, {})
  {
    assert ClosedAt(t, c, x, upto);
    assert x[upto := true] == x;
    AddMark(t, c, base, started, marks, x, upto, list, 0, {}, upto);
  }

  /** States that need no work. */
  lemma Skip(t: Tables, c: Config, base: Config, started: set<nat>, marks: seq<bool>, x: Config, upto: nat,
             list: seq<nat>)
    requires Scan(t, c, base, started, marks, x, upto, list, 0, {})
    requires upto <= t.n && (marks[upto] || !x[upto] || c[upto])
    ensures Scan(t, c, base, started, marks, x, upto + 1, list, 0, {})
  {
  }

  /** The threads of every started region are active. */
  ghost predicate ThreadsIn(t: Tables, x: Config, started: set<nat>)
    requires |x| == t.n + 1
  {
    forall k, r :: r in started && IsThread(t, k, r) ==> x[k]
  }

  /** list holds outermost entered machines, one around every entered machine of x. */
  ghost predicate EnteringList(t: Tables, c: Config, x: Config, list: seq<nat>)
    requires Cfg(t, c) && Cfg(t, x)
  {
    && (forall i ::
         0 <= i < |list| ==> Node(t, list[i]) && t.sm[list[i]] && x[list[i]] && !c[list[i]] && Outermost(t, c, list[i]))
    && forall m {:trigger x[m]} {:trigger Top(t, c, m)} ::
       Node(t, m) && t.sm[m] && x[m] && !c[m] ==> Top(t, c, m) in list
  }

  /** At the end of the scan temp is closed and every entered machine lies below a listed one. */
  lemma ScanDone(t: Tables, c: Config, base: Config, started: set<nat>, marks: seq<bool>, x: Config, list: seq<nat>)
    requires Scan(t, c, base, started, marks, x, t.n + 1, list, 0, {}) && ThreadsIn(t, x, started)
    ensures EnterClosure(t, c, base, started, x)
    ensures StartedExactly(t, c, base, started)
    ensures EnteringList(t, c, x, list)
  {
    forall r: nat {:trigger r in started} | true
      ensures r in started <==> Candidate(t, c, base, r) && !NewBelow(t, c, base, r) && !StartedAround(t, started, r)
    {
      assert Candidate(t, c, base, r) ==> Seen(t, c, base, started, r);
    }
    forall m | Node(t, m) && t.sm[m] && x[m] && !c[m]
      ensures Top(t, c, m) in list
    {
      assert TopListed(t, c, list, 0, m);
    }
  }

  /** A region that is entered only on the way up from a state inside it starts none of its threads: a thread in
      which the step adds nothing stays off, with everything inside. */
  lemma SiblingThreadsStayOff(t: Tables, c: Config, base: Config, started: set<nat>, x: Config, r: nat, k: nat)
    requires Legal(t, c) && EnterClosure(t, c, base, started, x) && StartedExactly(t, c, base, started)
    requires Node(t, r) && IsThread(t, k, r) && (!base[r] || NewBelow(t, c, base, r))
    requires forall s {:trigger base[s]} :: Node(t, s) && Inside(t, s, k) ==> !base[s] && !c[s]
    ensures forall s :: Node(t, s) && Inside(t, s, k) ==> !x[s]
  {
    var y := Without(t, x, k);
    assert r !in started;
    forall s | Node(t, s) && y[s] && !c[s]
      ensures ClosedAt(t, c, y, s)
    {
      assert ClosedAt(t, c, x, s);
      if t.parent[s] != 0 {
        assert !Inside(t, t.parent[s], k);
      }
      if t.sm[s] && t.initial[s] != 0 {
        assert IsChild(t, t.initial[s], s) && !t.sm[t.initial[s]];
      }
    }
    forall th, q | q in started && IsThread(t, th, q)
      ensures y[th]
    {
      assert Candidate(t, c, base, q);
      assert !Inside(t, q, k) && th != k;
    }
    assert Closed(t, c, y, started);
  }

  /** x without k and everything inside it. */
  ghost function Without(t: Tables, x: Config, k: nat): (y: Config)
    requires Cfg(t, x)
    ensures Cfg(t, y) && forall s {:trigger y[s]} :: Node(t, s) ==> y[s] == (x[s] && !Inside(t, s, k))
  {
    seq(t.n + 1, s requires 0 <= s < t.n + 1 => s != 0 && x[s] && !Inside(t, s, k))
  }
}
