/** The VISITED marks that a step leaves behind, and which machines the end of a simulation therefore exits. */
module Shutdown {
  import opened Containment
  import opened Closure
  import opened Nesting
  import opened EnteredStates
  import opened ExitStates
  import opened Kernel
  import opened Steps

  ghost predicate SameMachines(t: Tables, v: Config, w: Config)
    requires Cfg(t, v) && Cfg(t, w)
  {
    forall m {:trigger v[m]} {:trigger w[m]} :: Node(t, m) && t.sm[m] ==> v[m] == w[m]
  }

  /** m is active in w and was not in v. */
  ghost predicate New(t: Tables, v: Config, w: Config, m: nat)
    requires Cfg(t, v) && Cfg(t, w)
  {
    Node(t, m) && w[m] && !v[m]
  }

  ghost predicate EntersSome(t: Tables, c: Config, x: Config)
    requires Cfg(t, c) && Cfg(t, x)
  {
    exists m: nat {:trigger x[m]} :: Node(t, m) && t.sm[m] && x[m] && !c[m]
  }

  /** What the passes of a step from c by way of x to c' leave marked. If machines were entered: the outermost of
      them, even if the pruning has dropped them since, and the child machines of the entered ones. If machines were
      only left: these and their child machines. Otherwise all machines, by the pass that looked for empty ones. */
  ghost predicate MarkedBy(t: Tables, c: Config, x: Config, c': Config, m: nat)
    requires Cfg(t, c) && Cfg(t, x) && Cfg(t, c') && Node(t, m)
  {
    if SameMachines(t, c, c') then true
    else if EntersSome(t, c, x) then (New(t, c, x, m) && Outermost(t, c, m)) || New(t, c, c', t.parent[m])
    else New(t, c', c, m) || New(t, c', c, t.parent[m])
  }

  ghost predicate MarksAfter(t: Tables, c: Config, x: Config, c': Config, marks: seq<bool>) {
    && Cfg(t, c) && Cfg(t, x) && Cfg(t, c') && |marks| == t.n + 1
    && forall m {:trigger marks[m]} :: Node(t, m) && t.sm[m] ==> (marks[m] <==> MarkedBy(t, c, x, c', m))
  }

  /** An entered machine survives the exit pass if the machine around it does. */
  lemma EnteredStays(t: Tables, c: Config, base: Config, started: set<nat>, x: Config, c': Config, m: nat)
    requires HasInitials(t) && EnterExit(t, c, base, started, x, c')
    requires Node(t, m) && t.sm[m] && x[m] && !c[m] && (t.parent[m] == 0 || c'[t.parent[m]])
    ensures c'[m]
  {
    var i := t.initial[m];
    assert ClosedAt(t, c, x, m);
    assert IsChild(t, i, m) && !t.sm[i];
    SpineLegal(t, i);
    var spine := Spine(t, i);
    forall a | Node(t, a) && spine[a]
      ensures x[a]
    {
      if a != i && a != m {
        assert Inside(t, m, a) && Node(t, t.parent[m]);
        UpwardInside(t, c', t.parent[m], a);
      }
    }
    assert Leq(spine, x);
    assert Inside(t, m, m) && Inside(t, i, m);
    assert spine[m] && Leq(spine, c');
  }

  lemma EnteredOrLeft(t: Tables, c: Config, base: Config, started: set<nat>, x: Config, c': Config, m: nat)
    requires HasInitials(t) && Legal(t, c) && EnterExit(t, c, base, started, x, c')
    requires Node(t, m) && t.sm[m] && x[m] && !c[m]
    ensures !SameMachines(t, c, c')
  {
    var top := OutermostEntered(t, c, base, started, x, m);
    if t.parent[top] == 0 || c'[t.parent[top]] {
      EnteredStays(t, c, base, started, x, c', top);
    }
    var changed := if t.parent[top] == 0 || c'[t.parent[top]] then top else t.parent[top];
    assert Node(t, changed) && t.sm[changed] && c[changed] != c'[changed];
  }

  /** Around an entered machine there is an entered one in no machine or in one that was active. */
  lemma {:induction false} OutermostEntered(t: Tables, c: Config, base: Config, started: set<nat>, x: Config, m: nat)
    returns (top: nat)
    requires Legal(t, c) && EnterClosure(t, c, base, started, x)
    requires Node(t, m) && t.sm[m] && x[m] && !c[m]
    ensures Node(t, top) && t.sm[top] && x[top] && !c[top] && (t.parent[top] == 0 || c[t.parent[top]])
    decreases t.rank[m]
  {
    if t.parent[m] == 0 || c[t.parent[m]] {
      top := m;
    } else {
      assert ClosedAt(t, c, x, m);
      top := OutermostEntered(t, c, base, started, x, t.parent[m]);
    }
  }

  /** Both lists are empty exactly if the step enters and leaves no machine. */
  lemma ListsTell(t: Tables, c: Config, base: Config, started: set<nat>, x: Config, c': Config, entering: seq<nat>,
                  exiting: seq<nat>)
    requires HasInitials(t) && Legal(t, c) && EnterExit(t, c, base, started, x, c')
    requires EnteringList(t, c, x, entering) && ExitingList(t, c, c', exiting)
    ensures entering == [] && exiting == [] <==> SameMachines(t, c, c')
  {
    if entering != [] {
      EnteredOrLeft(t, c, base, started, x, c', entering[0]);
    } else if exiting != [] {
      assert c[exiting[0]] != c'[exiting[0]];
    } else {
      forall m | Node(t, m) && t.sm[m]
        ensures c[m] == c'[m]
      {
        assert !UnderExit(t, exiting, 0, m);
      }
    }
  }

  /** What the calls leave marked: on_enter was the last to clear the marks, or on_exit, or neither. */
  ghost predicate MarksOfCalls(t: Tables, c: Config, c': Config, entering: seq<nat>, exiting: seq<nat>,
                               marks: seq<bool>)
    requires Cfg(t, c) && Cfg(t, c')
  {
    && |marks| == t.n + 1
    && forall m: nat {:trigger marks[m]} :: Node(t, m) && t.sm[m] ==>
         (marks[m] <==> if entering != [] then m in entering || New(t, c, c', t.parent[m])
                        else if exiting != [] then m in exiting || New(t, c', c, t.parent[m])
                        else true)
  }

  /** A machine that was left is listed, or the machine around it was left. */
  lemma LeftListed(t: Tables, c: Config, c': Config, exiting: seq<nat>, m: nat)
    requires Legal(t, c) && Legal(t, c') && ExitingList(t, c, c', exiting) && Node(t, m) && t.sm[m] && New(t, c', c, m)
    ensures m in exiting || New(t, c', c, t.parent[m])
  {
    assert UnderExit(t, exiting, 0, m);
    var i :| 0 <= i < |exiting| && Inside(t, m, exiting[i]);
    if m != exiting[i] {
      var p := t.parent[m];
      assert Node(t, p) && Inside(t, p, exiting[i]);
      if c'[p] {
        UpwardInside(t, c', p, exiting[i]);
        assert false;
      }
    }
  }

  lemma NoneEntered(t: Tables, c: Config, x: Config, entering: seq<nat>)
    requires Cfg(t, c) && Cfg(t, x) && EnteringList(t, c, x, entering) && entering == []
    ensures !EntersSome(t, c, x)
  {
    forall m: nat | Node(t, m) && t.sm[m]
      ensures !(x[m] && !c[m])
    {
      assert Top(t, c, m) !in entering;
    }
  }

  lemma MarksTell(t: Tables, c: Config, base: Config, started: set<nat>, x: Config, c': Config, entering: seq<nat>,
                  exiting: seq<nat>, marks: seq<bool>)
    requires HasInitials(t) && Legal(t, c) && EnterExit(t, c, base, started, x, c')
    requires EnteringList(t, c, x, entering) && ExitingList(t, c, c', exiting)
    requires MarksOfCalls(t, c, c', entering, exiting, marks)
    ensures MarksAfter(t, c, x, c', marks)
  {
    ListsTell(t, c, base, started, x, c', entering, exiting);
    forall m | Node(t, m) && t.sm[m]
      ensures marks[m] <==> MarkedBy(t, c, x, c', m)
    {
      if entering != [] {
        assert New(t, c, x, entering[0]);
        assert m in entering <==> New(t, c, x, m) && Outermost(t, c, m) by {
          assert Outermost(t, c, m) ==> Top(t, c, m) == m;
        }
      } else if exiting != [] {
        NoneEntered(t, c, x, entering);
        if New(t, c', c, m) {
          LeftListed(t, c, c', exiting, m);
        }
      }
    }
  }

  /** The passes over base lead from c to c' and leave these marks. */
  ghost predicate PassedMarks(t: Tables, c: Config, base: Config, c': Config, marks: seq<bool>) {
    exists started, x :: PassedBy(t, c, base, started, x, c', marks)
  }

  ghost predicate PassedBy(t: Tables, c: Config, base: Config, started: set<nat>, x: Config, c': Config,
                           marks: seq<bool>) {
    EnterExit(t, c, base, started, x, c') && MarksAfter(t, c, x, c', marks)
  }

  /** Passes from c by way of x to c' leave these marks. */
  ghost predicate PassedOver(t: Tables, c: Config, x: Config, c': Config, marks: seq<bool>) {
    exists base, started :: PassedBy(t, c, base, started, x, c', marks)
  }

  /** The marks over a whole step: without passes they stay. */
  ghost predicate StepMarks(t: Tables, c: Config, ts: seq<Transition>, c': Config, marks: seq<bool>,
                            marks': seq<bool>) {
    exists vs :: StepMarksWith(t, c, ts, vs, c', marks, marks')
  }

  ghost predicate StepMarksWith(t: Tables, c: Config, ts: seq<Transition>, vs: seq<Config>, c': Config,
                                marks: seq<bool>, marks': seq<bool>) {
    && Cfg(t, c) && AllEndpointsOk(t, ts) && KernelRun(t, c, ts, vs)
    && if AllLocal(t, ts) && !JoinFires(t, Regions(t, ts), vs) then marks' == marks
       else PassedMarks(t, c, vs[|vs| - 1], c', marks')
  }

  // ---------------------------------------------------------------------- the end of a simulation

  /** The step that goes by way of x from c to c' moved machine m: entered it, or, if it entered none, left it. */
  ghost predicate Moved(t: Tables, c: Config, x: Config, c': Config, m: nat)
    requires Cfg(t, c) && Cfg(t, x) && Cfg(t, c')
  {
    if EntersSome(t, c, x) then New(t, c, x, m) else New(t, c', c, m)
  }

  ghost predicate MovedAround(t: Tables, c: Config, x: Config, c': Config, m: nat)
    requires Cfg(t, c) && Cfg(t, x) && Cfg(t, c') && Node(t, m)
  {
    exists a :: Inside(t, m, a) && Moved(t, c, x, c', a)
  }

  /** At the end, with c -> c' the last step that made its passes and d the configuration now, whatever was started in
      between: on_exit runs for exactly the active machines that neither are among the machines moved by that step
      nor lie inside one; and for none at all if the step entered and left no machine. */
  lemma {:induction false} ExitedAtEnd(t: Tables, c: Config, base: Config, started: set<nat>, x: Config, c': Config,
                                       d: Config, marks: seq<bool>, m: nat)
    requires Legal(t, c) && Legal(t, d) && PassedBy(t, c, base, started, x, c', marks)
    requires Node(t, m) && t.sm[m]
    ensures OpenUp(t, Unmarked(t, d, marks), m) <==> d[m] && !SameMachines(t, c, c') && !MovedAround(t, c, x, c', m)
    decreases t.rank[m]
  {
    if t.parent[m] != 0 {
      ExitedAtEnd(t, c, base, started, x, c', d, marks, t.parent[m]);
    }
    if !SameMachines(t, c, c') {
      MarkedOrAround(t, c, base, started, x, c', marks, m);
    }
  }

  /** A machine is inside a moved one exactly if it is marked or the machine around it is inside a moved one. */
  lemma MarkedOrAround(t: Tables, c: Config, base: Config, started: set<nat>, x: Config, c': Config, marks: seq<bool>,
                       m: nat)
    requires Legal(t, c) && PassedBy(t, c, base, started, x, c', marks) && !SameMachines(t, c, c')
    requires Node(t, m) && t.sm[m]
    ensures MovedAround(t, c, x, c', m)
       <==> marks[m] || (t.parent[m] != 0 && Node(t, t.parent[m]) && MovedAround(t, c, x, c', t.parent[m]))
  {
    if MovedAround(t, c, x, c', m) {
      var a :| Inside(t, m, a) && Moved(t, c, x, c', a);
      if a == m && EntersSome(t, c, x) {
        assert ClosedAt(t, c, x, m);
        assert !Outermost(t, c, m) ==> Inside(t, t.parent[m], t.parent[m]) && Moved(t, c, x, c', t.parent[m]);
      } else if a != m {
        assert Inside(t, t.parent[m], a);
      }
    }
    if marks[m] {
      MarkMoves(t, c, base, started, x, c', marks, m);
    }
    if t.parent[m] != 0 && MovedAround(t, c, x, c', t.parent[m]) {
      var a :| Inside(t, t.parent[m], a) && Moved(t, c, x, c', a);
      assert Inside(t, m, a);
    }
  }

  lemma MarkMoves(t: Tables, c: Config, base: Config, started: set<nat>, x: Config, c': Config, marks: seq<bool>,
                  m: nat)
    requires Legal(t, c) && PassedBy(t, c, base, started, x, c', marks) && !SameMachines(t, c, c')
    requires Node(t, m) && t.sm[m] && marks[m]
    ensures MovedAround(t, c, x, c', m)
  {
    var p := t.parent[m];
    assert Inside(t, m, m);
    if !Moved(t, c, x, c', m) {
      assert Moved(t, c, x, c', p) && Inside(t, p, p);
      assert Inside(t, m, p);
    }
  }

  /** If the machines have not changed since that step: on_exit runs for exactly those that were active before it and
      still are. */
  lemma ExitedIfKept(t: Tables, c: Config, base: Config, started: set<nat>, x: Config, c': Config, d: Config,
                     marks: seq<bool>, m: nat)
    requires Legal(t, c) && Legal(t, d) && PassedBy(t, c, base, started, x, c', marks) && SameMachines(t, c', d)
    requires Node(t, m) && t.sm[m]
    ensures OpenUp(t, Unmarked(t, d, marks), m) <==> d[m] && c[m] && !SameMachines(t, c, c')
  {
    ExitedAtEnd(t, c, base, started, x, c', d, marks, m);
    if d[m] && c[m] && MovedAround(t, c, x, c', m) {
      var a :| Inside(t, m, a) && Moved(t, c, x, c', a);
      UpwardInside(t, c, m, a);
      UpwardInside(t, c', m, a);
      assert false;
    }
    if d[m] && !c[m] {
      assert New(t, c, x, m) && Inside(t, m, m) && Moved(t, c, x, c', m);
    }
  }

  /** So no active machine misses its on_exit exactly if none is active, or the last step with passes left some
      machine and entered none. */
  lemma AllExitedIff(t: Tables, c: Config, base: Config, started: set<nat>, x: Config, c': Config, d: Config,
                     marks: seq<bool>)
    requires Legal(t, c) && Legal(t, d) && PassedBy(t, c, base, started, x, c', marks) && SameMachines(t, c', d)
    ensures (forall m {:trigger d[m]} :: Node(t, m) && t.sm[m] && d[m] ==> OpenUp(t, Unmarked(t, d, marks), m))
       <==> (forall m {:trigger d[m]} :: Node(t, m) && t.sm[m] ==> !d[m])
            || ((exists m {:trigger c'[m]} :: Node(t, m) && t.sm[m] && c[m] && !c'[m])
                && forall m {:trigger c'[m]} :: Node(t, m) && t.sm[m] && c'[m] ==> c[m])
  {
    forall m | Node(t, m) && t.sm[m]
      ensures OpenUp(t, Unmarked(t, d, marks), m) <==> d[m] && c[m] && !SameMachines(t, c, c')
    {
      ExitedIfKept(t, c, base, started, x, c', d, marks, m);
    }
  }
}
