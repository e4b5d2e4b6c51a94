/** The execution context: the passes of one step over `temp` and the VISITED marks, and the calls
    they make. */
module Engine {
  import opened Containment
  import opened Closure
  import opened Nesting
  import opened EnteredStates
  import opened ExitStates
  import opened Kernel
  import opened Steps
  import opened Joins
  import opened StartHull
  import opened Shutdown
  import opened TransitionIndex
  import opened Triggering

  /** What a step runs: exit handlers, transition actions, enter handlers. */
  datatype Call = OnExit(machine: nat) | Fire(transition: nat) | OnEnter(machine: nat)

  /** All machines below n are marked. */
  ghost predicate MarkedBelow(t: Tables, marks: seq<bool>, n: nat)
    requires |marks| == t.n + 1
  {
    forall m {:trigger marks[m]} :: Node(t, m) && m < n && t.sm[m] ==> marks[m]
  }

  /** x lies inside a child listed at positions lo..hi. */
  ghost predicate UnderListed(t: Tables, lo: nat, hi: nat, x: nat)
    requires hi <= |t.children| && Node(t, x)
  {
    exists k :: lo <= k < hi && Inside(t, x, t.children[k])
  }

  lemma UnderWholeList(t: Tables, s: nat, x: nat)
    requires Node(t, s) && t.sm[s] && Node(t, x)
    ensures UnderListed(t, ListLo(t, s), ListHi(t, s), x) <==> x != s && Inside(t, x, s)
  {
    var lo, hi := ListLo(t, s), ListHi(t, s);
    if UnderListed(t, lo, hi, x) {
      var k :| lo <= k < hi && Inside(t, x, t.children[k]);
      ChildInside(t, t.children[k], s);
      InsideTransitive(t, x, t.children[k], s);
      InsideNode(t, x, t.children[k]);
    }
    if x != s && Inside(t, x, s) {
      var c := InsideChild(t, x, s);
      var k := ListedChild(t, s, c);
    }
  }

  lemma LeafInside(t: Tables, x: nat, c: nat)
    requires Node(t, x) && Node(t, c) && !t.sm[c]
    ensures Inside(t, x, c) <==> x == c
  {
    if Inside(t, x, c) && x != c {
      InsideNode(t, x, c);
    }
  }

  /** marks' is marks plus everything strictly inside s. */
  ghost predicate MarksInside(t: Tables, marks: seq<bool>, s: nat, marks': seq<bool>)
    requires |marks| == |marks'| == t.n + 1
  {
    forall x {:trigger marks'[x]} :: Node(t, x) ==> marks'[x] == (marks[x] || (x != s && Inside(t, x, s)))
  }

  /** v' is v without the children listed at lo..hi and everything inside them; marks' has them marked. */
  ghost predicate RemovedListed(t: Tables, lo: nat, hi: nat, v: Config, v': Config, marks: seq<bool>, marks': seq<bool>)
    requires hi <= |t.children| && |v| == |v'| == |marks| == |marks'| == t.n + 1
  {
    && (forall x {:trigger v'[x]} :: Node(t, x) ==> v'[x] == (v[x] && !UnderListed(t, lo, hi, x)))
    && (forall x {:trigger marks'[x]} :: Node(t, x) ==> marks'[x] == (marks[x] || UnderListed(t, lo, hi, x)))
  }

  /** v' is v without c and everything inside it; marks' has them marked. */
  ghost predicate RemovedAt(t: Tables, c: nat, v: Config, v': Config, marks: seq<bool>, marks': seq<bool>)
    requires |v| == |v'| == |marks| == |marks'| == t.n + 1
  {
    && (forall x {:trigger v'[x]} :: Node(t, x) ==> v'[x] == (v[x] && !Inside(t, x, c)))
    && (forall x {:trigger marks'[x]} :: Node(t, x) ==> marks'[x] == (marks[x] || Inside(t, x, c)))
  }

  lemma RemovedStep(t: Tables, lo: nat, i: nat, v: Config, v1: Config, v2: Config, m: seq<bool>, m1: seq<bool>,
                    m2: seq<bool>)
    requires lo <= i < |t.children|
    requires |v| == |v1| == |v2| == |m| == |m1| == |m2| == t.n + 1
    requires RemovedListed(t, lo, i, v, v1, m, m1) && RemovedAt(t, t.children[i], v1, v2, m1, m2)
    ensures RemovedListed(t, lo, i + 1, v, v2, m, m2)
  {
    forall x | Node(t, x)
      ensures v2[x] == (v[x] && !UnderListed(t, lo, i + 1, x))
      ensures m2[x] == (m[x] || UnderListed(t, lo, i + 1, x))
    {
      assert UnderListed(t, lo, i + 1, x) <==> UnderListed(t, lo, i, x) || Inside(t, x, t.children[i]);
      assert v1[x] == (v[x] && !UnderListed(t, lo, i, x));
      assert m1[x] == (m[x] || UnderListed(t, lo, i, x));
    }
  }

  lemma RemovedAll(t: Tables, s: nat, v: Config, v': Config, marks: seq<bool>, marks': seq<bool>)
    requires Node(t, s) && t.sm[s]
    requires |v| == |v'| == |marks| == |marks'| == t.n + 1 && v[0] == v'[0]
    requires RemovedListed(t, ListLo(t, s), ListHi(t, s), v, v', marks, marks')
    ensures CutInside(t, v, s, v') && MarksInside(t, marks, s, marks')
  {
    forall x | Node(t, x)
      ensures v'[x] == (v[x] && !(x != s && Inside(t, x, s)))
      ensures marks'[x] == (marks[x] || (x != s && Inside(t, x, s)))
    {
      UnderWholeList(t, s, x);
      assert v'[x] == (v[x] && !UnderListed(t, ListLo(t, s), ListHi(t, s), x));
    }
  }

  lemma RemovedLeaf(t: Tables, c: nat, v: Config, marks: seq<bool>)
    requires Node(t, c) && !t.sm[c] && |v| == |marks| == t.n + 1
    ensures RemovedAt(t, c, v, v[c := false], marks, marks[c := true])
  {
    forall x | Node(t, x)
      ensures Inside(t, x, c) <==> x == c
    {
      LeafInside(t, x, c);
    }
  }

  ghost function ExitCalls(q: seq<nat>): seq<Call> {
    seq(|q|, i requires 0 <= i < |q| => OnExit(q[i]))
  }

  ghost function EnterCalls(q: seq<nat>): seq<Call> {
    seq(|q|, i requires 0 <= i < |q| => OnEnter(q[i]))
  }

  lemma CallsJoin(a: seq<nat>, b: seq<nat>)
    requires a <= b
    ensures ExitCalls(a) + ExitCalls(b[|a|..]) == ExitCalls(b) && EnterCalls(a) + EnterCalls(b[|a|..]) == EnterCalls(b)
  {
  }

  ghost function FireCalls(q: seq<nat>): seq<Call> {
    seq(|q|, i requires 0 <= i < |q| => Fire(q[i]))
  }

  /** The calls of one step: exits of exactly the machines that are left, then the actions in order, then
      enters of exactly the machines that are entered; each once, machines before the ones around them. */
  ghost predicate StepCalls(t: Tables, c: Config, c': Config, fired: seq<nat>, calls: seq<Call>)
    requires Cfg(t, c) && Cfg(t, c')
  {
    exists exits, enters :: StepCallsWith(t, c, c', fired, calls, exits, enters)
  }

  ghost predicate StepCallsWith(t: Tables, c: Config, c': Config, fired: seq<nat>, calls: seq<Call>, exits: seq<nat>,
                                enters: seq<nat>)
    requires Cfg(t, c) && Cfg(t, c')
  {
    && calls == ExitCalls(exits) + FireCalls(fired) + EnterCalls(enters)
    && InnermostFirst(t, exits) && InnermostFirst(t, enters)
    && (forall m: nat {:trigger m in exits} :: m in exits <==> Node(t, m) && t.sm[m] && c[m] && !c'[m])
    && (forall m: nat {:trigger m in enters} :: m in enters <==> Node(t, m) && t.sm[m] && !c[m] && c'[m])
  }

  lemma NotKept(t: Tables, c: Config, list: seq<nat>, m: nat)
    requires Legal(t, c) && Node(t, m) && exists i :: 0 <= i < |list| && Inside(t, m, list[i])
    requires forall i :: 0 <= i < |list| ==> Node(t, list[i]) && !c[list[i]]
    ensures !c[m]
  {
    if c[m] {
      var i :| 0 <= i < |list| && Inside(t, m, list[i]);
      UpwardInside(t, c, m, list[i]);
    }
  }

  lemma ExitedOne(t: Tables, c: Config, c': Config, list: seq<nat>, m: nat)
    requires Legal(t, c) && Legal(t, c') && ExitingList(t, c, c', list) && Node(t, m)
    ensures InsideRoot(t, c, list, |list|, m) <==> t.sm[m] && c[m] && !c'[m]
  {
    assert t.sm[m] && c[m] && !c'[m] ==> UnderExit(t, list, 0, m);
    if InsideRoot(t, c, list, |list|, m) {
      NotKept(t, c', list, m);
    }
  }

  lemma EnteredOne(t: Tables, c: Config, x: Config, c': Config, list: seq<nat>, m: nat)
    requires Legal(t, c) && Legal(t, c') && Cfg(t, x) && Leq(c', x) && EnteringList(t, c, x, list) && Node(t, m)
    ensures InsideRoot(t, c', list, |list|, m) <==> t.sm[m] && !c[m] && c'[m]
  {
    if InsideRoot(t, c', list, |list|, m) {
      NotKept(t, c, list, m);
    }
    if t.sm[m] && !c[m] && c'[m] {
      TopEncloses(t, c, m);
      var i :| 0 <= i < |list| && list[i] == Top(t, c, m);
    }
  }

  /** The machines left below the exiting list are exactly those that are active no more. */
  lemma ExitedExactly(t: Tables, c: Config, c': Config, list: seq<nat>, q: seq<nat>)
    requires Legal(t, c) && Legal(t, c') && ExitingList(t, c, c', list)
    requires forall m {:trigger m in q} :: m in q <==> Node(t, m) && InsideRoot(t, c, list, |list|, m)
    ensures forall m: nat {:trigger m in q} :: m in q <==> Node(t, m) && t.sm[m] && c[m] && !c'[m]
  {
    forall m: nat {:trigger m in q} | true
      ensures m in q <==> Node(t, m) && t.sm[m] && c[m] && !c'[m]
    {
      if Node(t, m) {
        ExitedOne(t, c, c', list, m);
      }
    }
  }

  /** The machines entered below the entering list are exactly the new ones. */
  lemma EnteredExactly(t: Tables, c: Config, x: Config, c': Config, list: seq<nat>, q: seq<nat>)
    requires Legal(t, c) && Legal(t, c') && Cfg(t, x) && Leq(c', x) && EnteringList(t, c, x, list)
    requires forall m {:trigger m in q} :: m in q <==> Node(t, m) && InsideRoot(t, c', list, |list|, m)
    ensures forall m: nat {:trigger m in q} :: m in q <==> Node(t, m) && t.sm[m] && !c[m] && c'[m]
  {
    forall m: nat {:trigger m in q} | true
      ensures m in q <==> Node(t, m) && t.sm[m] && !c[m] && c'[m]
    {
      if Node(t, m) {
        EnteredOne(t, c, x, c', list, m);
      }
    }
  }

  lemma CallsExact(t: Tables, c: Config, x: Config, c': Config, exiting: seq<nat>, exits: seq<nat>, entering: seq<nat>,
                   enters: seq<nat>, fired: seq<nat>)
    requires Legal(t, c) && GreatestLegal(t, x, c')
    requires ExitingList(t, c, c', exiting) && EnteringList(t, c, x, entering)
    requires InnermostFirst(t, exits)
    requires forall m {:trigger m in exits} :: m in exits <==> Node(t, m) && InsideRoot(t, c, exiting, |exiting|, m)
    requires InnermostFirst(t, enters)
    requires forall m {:trigger m in enters} ::
      m in enters <==> Node(t, m) && InsideRoot(t, c', entering, |entering|, m)
    ensures StepCalls(t, c, c', fired, ExitCalls(exits) + FireCalls(fired) + EnterCalls(enters))
  {
    ExitedExactly(t, c, c', exiting, exits);
    EnteredExactly(t, c, x, c', entering, enters);
    assert StepCallsWith(t, c, c', fired, ExitCalls(exits) + FireCalls(fired) + EnterCalls(enters), exits, enters);
  }

  /** What reacting to an event calls and leaves marked. */
  ghost predicate Reacted(t: Tables, trs: seq<Transition>, s: LoopState, ev: int, s': LoopState, calls: seq<Call>,
                          marks: seq<bool>, marks': seq<bool>)
    requires LoopOk(t, trs, s)
  {
    && Cfg(t, s'.config)
    && exists fired, ts ::
         && FiredBy(trs, s.config, ev, s.holds, fired) && Picks(trs, fired, ts)
         && StepCalls(t, s.config, s'.config, fired, calls)
         && if fired == [] then marks' == marks else StepMarks(t, s.config, ts, s'.config, marks, marks')
  }

  lemma ReactedWith(t: Tables, trs: seq<Transition>, s: LoopState, ev: int, fired: seq<nat>, ts: seq<Transition>,
                    s': LoopState, calls: seq<Call>, marks: seq<bool>, marks': seq<bool>)
    requires LoopOk(t, trs, s) && Cfg(t, s'.config) && FiredBy(trs, s.config, ev, s.holds, fired)
    requires Picks(trs, fired, ts)
    requires StepCalls(t, s.config, s'.config, fired, calls)
    requires if fired == [] then marks' == marks else StepMarks(t, s.config, ts, s'.config, marks, marks')
    ensures Reacted(t, trs, s, ev, s', calls, marks, marks')
  {
  }

  lemma Took(t: Tables, trs: seq<Transition>, s: LoopState, ev: int, fired: seq<nat>, ts: seq<Transition>,
             s': LoopState, calls: seq<Call>, marks: seq<bool>, marks': seq<bool>)
    requires LoopOk(t, trs, s) && Cfg(t, s'.config) && s'.eps && FiredBy(trs, s.config, ev, s.holds, fired)
    requires Picks(trs, fired, ts)
    requires fired != [] && Step(t, s.config, ts, s'.config)
    requires StepCalls(t, s.config, s'.config, fired, calls) && StepMarks(t, s.config, ts, s'.config, marks, marks')
    ensures React(t, trs, s, ev, s') && Reacted(t, trs, s, ev, s', calls, marks, marks')
  {
    ReactsWith(t, trs, s, ev, fired, ts, s');
    ReactedWith(t, trs, s, ev, fired, ts, s', calls, marks, marks');
  }

  lemma TookNone(t: Tables, trs: seq<Transition>, s: LoopState, ev: int, s': LoopState, marks: seq<bool>)
    requires LoopOk(t, trs, s) && FiredBy(trs, s.config, ev, s.holds, []) && s' == s.(eps := !s.eps)
    ensures React(t, trs, s, ev, s') && Reacted(t, trs, s, ev, s', [], marks, marks)
  {
    LocalCalls(t, s.config, s.config, [], []);
    ReactsWith(t, trs, s, ev, [], [], s');
    ReactedWith(t, trs, s, ev, [], [], s', [], marks, marks);
  }

  lemma Appended(a: seq<Call>, b: seq<Call>, c: seq<Call>)
    ensures (a + b) + c == a + (b + c) && a <= a + b && (a + b)[|a|..] == b
  {
  }

  ghost predicate SwitchMarks(t: Tables, c: Config, machines: seq<nat>, value: bool, c': Config, marks': seq<bool>) {
    exists base :: Switched(t, c, machines, value, base) && PassedMarks(t, c, base, c', marks')
  }

  lemma SwitchPasses(t: Tables, c: Config, machines: seq<nat>, value: bool, c': Config, marks': seq<bool>)
    requires SwitchMarks(t, c, machines, value, c', marks')
    ensures PassedWith(t, c, machines, value, c') && Legal(t, c')
  {
    var base :| Switched(t, c, machines, value, base) && PassedMarks(t, c, base, c', marks');
    var started, x :| PassedBy(t, c, base, started, x, c', marks');
    assert Switched(t, c, machines, value, base) && EnterExit(t, c, base, started, x, c');
  }

  /** One of the two steps of a restart. */
  ghost predicate SwitchStep(t: Tables, c: Config, machines: seq<nat>, value: bool, fired: seq<nat>, c': Config,
                             calls: seq<Call>, marks': seq<bool>) {
    Cfg(t, c) && Cfg(t, c') && StepCalls(t, c, c', fired, calls) && SwitchMarks(t, c, machines, value, c', marks')
  }

  /** A restart makes the calls of two steps; the second one leaves the marks. */
  ghost predicate RestartEffects(t: Tables, c: Config, machines: seq<nat>, fired: seq<nat>, c': Config,
                                 calls: seq<Call>, marks': seq<bool>) {
    exists mid, off, on, marks
      {:trigger SwitchStep(t, c, machines, false, fired, mid, off, marks),
                SwitchStep(t, mid, machines, true, fired, c', on, marks')} ::
      && calls == off + on
      && SwitchStep(t, c, machines, false, fired, mid, off, marks)
      && SwitchStep(t, mid, machines, true, fired, c', on, marks')
  }

  lemma SwitchedTwice(t: Tables, c: Config, machines: seq<nat>, fired: seq<nat>, mid: Config, off: seq<Call>,
                      marks: seq<bool>, c': Config, on: seq<Call>, marks': seq<bool>)
    requires SwitchStep(t, c, machines, false, fired, mid, off, marks)
    requires SwitchStep(t, mid, machines, true, fired, c', on, marks')
    ensures RestartEffects(t, c, machines, fired, c', off + on, marks')
  {
  }

  lemma EffectsRestart(t: Tables, c: Config, machines: seq<nat>, fired: seq<nat>, c': Config, calls: seq<Call>,
                       marks': seq<bool>)
    requires RestartEffects(t, c, machines, fired, c', calls, marks')
    ensures Restarted(t, c, machines, c') && Legal(t, c')
  {
    var mid, off, on, marks :| calls == off + on && SwitchStep(t, c, machines, false, fired, mid, off, marks)
      && SwitchStep(t, mid, machines, true, fired, c', on, marks');
    SwitchPasses(t, c, machines, false, mid, marks);
    SwitchPasses(t, mid, machines, true, c', marks');
    assert RestartedBy(t, c, machines, mid, c');
  }

  /** q lists the elements of a set, each once. */
  ghost predicate Lists(q: seq<nat>, machines: set<nat>) {
    (forall m: nat {:trigger m in q} :: m in q <==> m in machines) && forall i, j :: 0 <= i < j < |q| ==> q[i] != q[j]
  }

  lemma ListsMore(q: seq<nat>, machines: set<nat>, m: nat)
    requires Lists(q, machines) && m !in machines
    ensures Lists(q + [m], machines + {m})
  {
    assert m !in q;
  }

  /** A start directive calls on_enter of the machines that own the states it names, each once. */
  ghost predicate StartCalls(t: Tables, given: set<nat>, calls: seq<Call>)
    requires Nodes(t, given)
  {
    exists owners :: Lists(owners, OwnersOf(t, given)) && calls == EnterCalls(owners)
  }

  /** What a turn calls and leaves marked. */
  ghost predicate TurnEffects(t: Tables, trs: seq<Transition>, s: LoopState, input: Input, s': LoopState,
                              calls: seq<Call>, marks: seq<bool>, marks': seq<bool>)
    requires LoopOk(t, trs, s) && Turn(t, trs, s, input, s')
  {
    match input
    case Epsilon => Reacted(t, trs, s, 0, s', calls, marks, marks')
    case Event(ev, seen) => Reacted(t, trs, s.(holds := seen), ev, s', calls, marks, marks')
    case Start(given) => StartCalls(t, given, calls) && marks' == marks
    case Restart(machines, seen) =>
      exists fired ::
        FiredBy(trs, s.config, 0, seen, fired) && RestartEffects(t, s.config, machines, fired, s'.config, calls, marks')
    case _ => calls == [] && marks' == marks
  }

  lemma RestartTurn(t: Tables, trs: seq<Transition>, s: LoopState, machines: seq<nat>, seen: seq<bool>, fired: seq<nat>,
                    s': LoopState, calls: seq<Call>, marks: seq<bool>, marks': seq<bool>)
    requires LoopOk(t, trs, s) && !s.eps && s'.eps && |seen| == |s'.holds| == |trs|
    requires FiredBy(trs, s.config, 0, seen, fired)
    requires RestartEffects(t, s.config, machines, fired, s'.config, calls, marks')
    ensures Turn(t, trs, s, Restart(machines, seen), s')
    ensures TurnEffects(t, trs, s, Restart(machines, seen), s', calls, marks, marks')
  {
    EffectsRestart(t, s.config, machines, fired, s'.config, calls, marks');
    assert Turn(t, trs, s, Restart(machines, seen), s');
  }

  /** The marks of the calls, by configurations instead of calls. */
  lemma CallsMark(t: Tables, c: Config, x: Config, c': Config, exiting: seq<nat>, exits: seq<nat>, entering: seq<nat>,
                  enters: seq<nat>, marks: seq<bool>)
    requires Legal(t, c) && GreatestLegal(t, x, c') && |marks| == t.n + 1
    requires ExitingList(t, c, c', exiting) && EnteringList(t, c, x, entering)
    requires forall m {:trigger m in exits} :: m in exits <==> Node(t, m) && InsideRoot(t, c, exiting, |exiting|, m)
    requires forall m {:trigger m in enters} ::
      m in enters <==> Node(t, m) && InsideRoot(t, c', entering, |entering|, m)
    requires forall m {:trigger marks[m]} :: Node(t, m) && t.sm[m] ==>
               (marks[m] <==> if entering != [] then m in entering || t.parent[m] in enters
                              else if exiting != [] then m in exiting || t.parent[m] in exits
                              else true)
    ensures MarksOfCalls(t, c, c', entering, exiting, marks)
  {
    ExitedExactly(t, c, c', exiting, exits);
    EnteredExactly(t, c, x, c', entering, enters);
  }

  class ExecutionContext {
    const t: Tables
    const trs: seq<Transition>
    var current: Config
    var visited: seq<bool>
    var log: seq<Call>
    var slotStarts: seq<nat>
    var slots: seq<int>
    var takingEpsilon: bool
    var holds: seq<bool>

    /** No state is active at the start. */
    constructor (t: Tables, trs: seq<Transition>)
      ensures Valid() && this.t == t && this.trs == trs && log == []
      ensures forall s :: 0 <= s <= t.n ==> !current[s]
      ensures Legal(t, current)
    {
      this.t, this.trs := t, trs;
      current := seq(t.n + 1, _ => false);
      visited := seq(t.n + 1, _ => false);
      log := [];
      slotStarts, slots, takingEpsilon, holds := [], [], false, [];
    }

    ghost predicate Valid()
      reads this
    {
      Cfg(t, current) && |visited| == t.n + 1
    }

    method Empty(s: nat, v: Config) returns (r: bool)
      requires Node(t, s) && t.sm[s] && Cfg(t, v)
      ensures r <==> EmptyIn(t, v, s)
    {
      var i := ListLo(t, s);
      while t.children[i] != 0
        invariant ListLo(t, s) <= i <= ListHi(t, s)
        invariant forall k :: ListLo(t, s) <= k < i ==> !v[t.children[k]]
        decreases ListHi(t, s) - i
      {
        if v[t.children[i]] {
          return false;
        }
        i := i + 1;
      }
      forall c | IsChild(t, c, s)
        ensures !v[c]
      {
        var k := ListedChild(t, s, c);
      }
      return true;
    }

    method RemoveChildren(s: nat, v: Config) returns (v': Config)
      requires Valid() && Node(t, s) && t.sm[s] && Cfg(t, v)
      modifies this`visited
      ensures Valid() && Cfg(t, v')
      ensures CutInside(t, v, s, v')
      ensures MarksInside(t, old(visited), s, visited)
      decreases t.n - t.rank[s], 1
    {
      v' := v;
      var i := ListLo(t, s);
      ghost var lo, end := i, ListHi(t, s);
      while t.children[i] != 0
        invariant lo <= i <= end < |t.children|
        invariant Valid() && Cfg(t, v')
        invariant RemovedListed(t, lo, i, v, v', old(visited), visited)
        decreases end - i
      {
        ghost var v1, m1 := v', visited;
        v' := RemoveChild(t.children[i], v', s);
        RemovedStep(t, lo, i, v, v1, v', old(visited), m1, visited);
        i := i + 1;
      }
      RemovedAll(t, s, v, v', old(visited), visited);
    }

    /** The body of the loop in RemoveChildren. */
    method RemoveChild(child: nat, v: Config, ghost s: nat) returns (v': Config)
      requires Valid() && Node(t, s) && t.sm[s] && IsChild(t, child, s) && Cfg(t, v)
      modifies this`visited
      ensures Valid() && Cfg(t, v')
      ensures RemovedAt(t, child, v, v', old(visited), visited)
      decreases t.n - t.rank[s], 0
    {
      v' := v[child := false];
      visited := visited[child := true];
      if !t.sm[child] {
        RemovedLeaf(t, child, v, old(visited));
        return;
      }
      ChildInside(t, child, s);
      v' := RemoveChildren(child, v');
    }

    /** Activates and marks a machine and its Initial state. */
    method Activate(temp0: Config, a: nat) returns (temp: Config)
      requires Valid() && Cfg(t, temp0) && Node(t, a)
      modifies this`visited
      ensures Valid() && Cfg(t, temp)
      ensures temp == WithInitial(t, temp0, a) && visited == WithInitial(t, old(visited), a)
    {
      temp := temp0[a := true];
      visited := visited[a := true];
      if t.initial[a] != 0 {
        assert IsChild(t, t.initial[a], a);
        temp := temp[t.initial[a] := true];
        visited := visited[t.initial[a] := true];
      }
    }

    /** Activates the machines around p that are not active yet, with their Initial states. */
    method Climb(state: nat, temp0: Config, ghost base: Config, ghost started: set<nat>, ghost list: seq<nat>)
      returns (temp: Config, p: nat)
      requires Valid() && Upward(t, current) && Node(t, state) && Cfg(t, base) && base[state]
      requires Scan(t, current, base, started, visited, temp0, state, list, Top(t, current, state),
          {state, t.parent[state]})
      requires temp0[state] && !current[state] && visited[state]
      requires t.sm[state] && t.initial[state] != 0 ==> temp0[t.initial[state]]
      modifies this`visited
      ensures Valid() && p == Top(t, current, state) && Node(t, p)
      ensures Scan(t, current, base, started, visited, temp, state, list, p, {})
      ensures temp[p] && !current[p] && Leq(temp0, temp) && Leq(old(visited), visited)
    {
      temp, p := temp0, state;
      ghost var top := Top(t, current, state);
      while t.parent[p] != 0 && !current[t.parent[p]]
        invariant Valid() && Node(t, p)
        invariant Scan(t, current, base, started, visited, temp, state, list, top, {p, t.parent[p]})
        invariant Leq(temp0, temp) && Leq(old(visited), visited)
        invariant temp[p] && visited[p] && !current[p] && Inside(t, state, p) && Top(t, current, p) == top
        invariant t.sm[p] && t.initial[p] != 0 ==> temp[t.initial[p]]
        decreases t.rank[p]
      {
        AddEncloser(t, current, base, started, visited, temp, state, list, top, p);
        p := t.parent[p];
        temp := Activate(temp, p);
      }
      EndClimb(t, current, base, started, visited, temp, state, list, top, p);
    }

    /** The body of the loop in StartThreads. */
    method StartThread(thread: nat, ghost r: nat, temp0: Config, ghost base: Config, ghost started: set<nat>,
                       ghost upto: nat, ghost list: seq<nat>, ghost ex: set<nat>)
      returns (temp: Config)
      requires Valid() && Upward(t, current) && Node(t, r) && r in started && IsThread(t, thread, r)
      requires Scan(t, current, base, started, visited, temp0, upto, list, Top(t, current, r), ex)
      requires temp0[r] && visited[r] && !current[r]
      modifies this`visited
      ensures Valid()
      ensures Scan(t, current, base, started, visited, temp, upto, list, Top(t, current, r), ex)
      ensures Leq(temp0, temp) && Leq(old(visited), visited) && temp[thread] && visited[thread]
    {
      AddThread(t, current, base, started, visited, temp0, upto, list, Top(t, current, r), ex, thread, r);
      temp := Activate(temp0, thread);
    }

    /** Activates the threads of a region that has just been entered, with their Initial states. */
    method StartThreads(r: nat, temp0: Config, ghost base: Config, ghost started: set<nat>, ghost upto: nat,
                        ghost list: seq<nat>, ghost ex: set<nat>)
      returns (temp: Config)
      requires Valid() && Upward(t, current) && Node(t, r) && t.sm[r] && r in started
      requires Scan(t, current, base, started, visited, temp0, upto, list, Top(t, current, r), ex)
      requires temp0[r] && visited[r] && !current[r]
      modifies this`visited
      ensures Valid()
      ensures Scan(t, current, base, started, visited, temp, upto, list, Top(t, current, r), ex)
      ensures Leq(temp0, temp) && Leq(old(visited), visited)
      ensures forall k :: IsThread(t, k, r) ==> temp[k] && visited[k]
    {
      temp := temp0;
      var i := ListLo(t, r);
      while t.children[i] != 0
        invariant ListLo(t, r) <= i <= ListHi(t, r)
        invariant Valid()
        invariant Scan(t, current, base, started, visited, temp, upto, list, Top(t, current, r), ex)
        invariant Leq(temp0, temp) && Leq(old(visited), visited)
        invariant forall j ::
          ListLo(t, r) <= j < i && IsThread(t, t.children[j], r) ==> temp[t.children[j]] && visited[t.children[j]]
        decreases ListHi(t, r) - i
      {
        if t.sm[t.children[i]] && t.thread[t.children[i]] {
          temp := StartThread(t.children[i], r, temp, base, started, upto, list, ex);
        }
        i := i + 1;
      }
      forall k | IsThread(t, k, r)
        ensures temp[k] && visited[k]
      {
        var j := ListedChild(t, r, k);
      }
    }

    /** A newly active machine starts its Initial state and its threads. */
    method EnterMachine(state: nat, temp0: Config, ghost list: seq<nat>, ghost base: Config, ghost started0: set<nat>)
      returns (temp: Config, ghost started: set<nat>)
      requires Valid() && Upward(t, current) && Node(t, state) && t.sm[state] && Cfg(t, base)
      requires Scan(t, current, base, started0, visited, temp0, state, list, 0, {})
      requires !visited[state] && temp0[state] && !current[state]
      requires ThreadsIn(t, temp0, started0) && ThreadsIn(t, visited, started0)
      modifies this`visited
      ensures Valid() && visited[state] && ThreadsIn(t, visited, started)
      ensures Scan(t, current, base, started, visited, temp, state, list, Top(t, current, state),
          {state, t.parent[state]})
      ensures ThreadsIn(t, temp, started) && temp[state] && (t.initial[state] != 0 ==> temp[t.initial[state]])
    {
      temp, started := temp0, started0;
      ghost var top, ex := Top(t, current, state), {state, t.parent[state]};
      BeginMachine(t, current, base, started, visited, temp, list, state);
      started := if t.region[state] then started + {state} else started;
      visited := visited[state := true];
      if t.initial[state] != 0 {
        AddInitial(t, current, base, started, visited, temp, state, list, top, ex, state);
        temp := temp[t.initial[state] := true];
        visited := visited[t.initial[state] := true];
      }
      if t.region[state] {
        temp := StartThreads(state, temp, base, started, state, list, ex);
      }
    }

    /** A newly active plain state of an inactive machine activates that machine. */
    method EnterPlain(state: nat, temp0: Config, ghost list: seq<nat>, ghost base: Config, ghost started: set<nat>)
      returns (temp: Config)
      requires Valid() && Upward(t, current) && Node(t, state) && !t.sm[state] && Cfg(t, base)
      requires Scan(t, current, base, started, visited, temp0, state, list, 0, {})
      requires !visited[state] && temp0[state] && !current[state] && !current[t.parent[state]]
      modifies this`visited
      ensures Valid() && visited[state]
      ensures Scan(t, current, base, started, visited, temp, state, list, Top(t, current, state),
          {state, t.parent[state]})
      ensures Leq(temp0, temp) && Leq(old(visited), visited)
    {
      temp := temp0;
      ghost var top, ex := Top(t, current, state), {state, t.parent[state]};
      Begin(t, current, base, started, visited, temp, state, list, state);
      assert temp[state := true] == temp;
      AddMark(t, current, base, started, visited, temp, state, list, top, ex, state);
      visited := visited[state := true];
      var prnt := t.parent[state];
      assert Node(t, prnt);
      ForceParent(t, current, base, started, temp, state);
      assert Inside(t, state, prnt);
      AddMark(t, current, base, started, visited, temp, state, list, top, ex, prnt);
      temp := temp[prnt := true];
      visited := visited[prnt := true];
    }

    /** One newly active state of the scan. */
    method EnterState(state: nat, temp0: Config, entering0: seq<nat>, ghost base: Config, ghost started0: set<nat>)
      returns (temp: Config, entering: seq<nat>, ghost started: set<nat>)
      requires Valid() && Upward(t, current) && Node(t, state) && Cfg(t, base)
      requires Scan(t, current, base, started0, visited, temp0, state, entering0, 0, {})
      requires !visited[state] && temp0[state] && !current[state]
      requires ThreadsIn(t, temp0, started0) && ThreadsIn(t, visited, started0)
      modifies this`visited
      ensures Valid()
      ensures Scan(t, current, base, started, visited, temp, state + 1, entering, 0, {})
      ensures ThreadsIn(t, temp, started) && ThreadsIn(t, visited, started)
      ensures |entering| <= |entering0| + 1
    {
      temp, entering, started := temp0, entering0, started0;
      if t.sm[state] {
        temp, started := EnterMachine(state, temp, entering, base, started);
      } else {
        if current[t.parent[state]] {
          AdvancePlain(t, current, base, started, visited, temp, state, entering);
          visited := visited[state := true];
          return;
        }
        temp := EnterPlain(state, temp, entering, base, started);
      }
      var p;
      temp, p := Climb(state, temp, base, started, entering);
      if t.sm[p] {
        Advance(t, current, base, started, visited, temp, state, entering, p);
        entering := entering + [p];
      }
    }

    method ClearVisited()
      requires Valid()
      modifies this`visited
      ensures Valid() && forall s :: 0 <= s < |visited| ==> !visited[s]
    {
      var i := 0;
      while i != t.n + 1
        invariant i <= t.n + 1 && |visited| == t.n + 1
        invariant forall s :: 0 <= s < i ==> !visited[s]
      {
        visited := visited[i := false];
        i := i + 1;
      }
    }

    /** Closes temp upwards and downwards around the newly active states. `entering` lists the outermost
        entered machines; `started` are the regions whose threads were started. */
    method ComputeEnteredStates(base: Config) returns (temp: Config, entering: seq<nat>, ghost started: set<nat>)
      requires Valid() && Legal(t, current) && Cfg(t, base)
      modifies this`visited
      ensures Valid() && EnterClosure(t, current, base, started, temp)
      ensures StartedExactly(t, current, base, started)
      ensures |entering| <= t.n
      ensures EnteringList(t, current, temp, entering)
    {
      ClearVisited();
      temp, entering, started := base, [], {};
      var state := 0;
      while state != |temp|
        invariant Valid() && state <= |temp| == t.n + 1
        invariant Scan(t, current, base, started, visited, temp, state, entering, 0, {})
        invariant ThreadsIn(t, temp, started) && ThreadsIn(t, visited, started)
        invariant |entering| <= state && |entering| <= t.n && (state == 0 || |entering| < state)
      {
        if visited[state] || !temp[state] || current[state] {
          Skip(t, current, base, started, visited, temp, state, entering);
        } else {
          temp, entering, started := EnterState(state, temp, entering, base, started);
        }
        state := state + 1;
      }
      ScanDone(t, current, base, started, visited, temp, entering);
    }

    /** Drops the machines that have become empty, from p upwards, and returns the outermost one. */
    method ClimbOut(p0: nat, temp0: Config, ghost w: Config, ghost upto: nat, ghost list: seq<nat>)
      returns (temp: Config, p: nat)
      requires Valid() && Node(t, p0) && t.sm[p0]
      requires Prune(t, current, w, visited, temp0, upto, list, t.parent[p0], p0)
      requires current[p0] && !temp0[p0]
      ensures Node(t, p) && t.sm[p]
      ensures Prune(t, current, w, visited, temp, upto, list + [p], 0, 0)
    {
      temp, p := temp0, p0;
      while t.parent[p] != 0 && current[t.parent[p]]
        invariant Node(t, p) && t.sm[p]
        invariant Prune(t, current, w, visited, temp, upto, list, t.parent[p], p)
        invariant current[p] && !temp[p]
        decreases t.rank[p]
      {
        var pp := t.parent[p];
        assert Node(t, pp);
        var empty := Empty(pp, temp);
        if !empty {
          break;
        }
        DropMachine(t, current, w, visited, temp, upto, list, pp, p, pp);
        p := pp;
        temp := temp[p := false];
      }
      ListExit(t, current, w, visited, temp, upto, list, p);
    }

    /** One machine of the scan. */
    method ExitState(state: nat, temp0: Config, exiting0: seq<nat>, ghost w: Config)
      returns (temp: Config, exiting: seq<nat>)
      requires Valid() && Node(t, state) && t.sm[state] && !visited[state] && MarkedBelow(t, visited, state)
      requires Prune(t, current, w, visited, temp0, state, exiting0, 0, 0)
      modifies this`visited
      ensures Valid()
      ensures Prune(t, current, w, visited, temp, state + 1, exiting, 0, 0)
      ensures |exiting| <= |exiting0| + 1 && MarkedBelow(t, visited, state + 1)
    {
      temp, exiting := temp0, exiting0;
      if temp[state] {
        var empty := Empty(state, temp);
        if !empty {
          MarkOnly(t, current, w, visited, temp, state, exiting, state);
          visited := visited[state := true];
          NextState(t, current, w, visited, temp, state, exiting);
          return;
        }
        EmptyWasActive(t, current, temp, state);
        DropMachine(t, current, w, visited, temp, state, exiting, 0, 0, state);
        visited := visited[state := true];
        temp := temp[state := false];
      } else {
        if !current[state] {
          MarkOnly(t, current, w, visited, temp, state, exiting, state);
          visited := visited[state := true];
          NextState(t, current, w, visited, temp, state, exiting);
          return;
        }
        ghost var marks := visited;
        visited := visited[state := true];
        temp := RemoveChildren(state, temp);
        CutMachine(t, current, w, marks, temp0, state, exiting, state, temp, visited);
      }
      var p;
      temp, p := ClimbOut(state, temp, w, state, exiting);
      exiting := exiting + [p];
      NextState(t, current, w, visited, temp, state, exiting);
    }

    /** Prunes temp to its greatest legal subset. `exiting` lists machines around everything that is left. */
    method ComputeExitStates(w: Config) returns (temp: Config, exiting: seq<nat>)
      requires Valid() && Legal(t, current) && Cfg(t, w)
      requires HasInitials(t) && exists base, started :: EnterClosure(t, current, base, started, w)
      modifies this`visited
      ensures Valid() && GreatestLegal(t, w, temp)
      ensures |exiting| <= t.n
      ensures ExitingList(t, current, temp, exiting)
      ensures MarkedBelow(t, visited, t.n + 1)
    {
      ClearVisited();
      PruneStart(t, current, w, visited);
      temp, exiting := ScanExits(w);
      PruneDone(t, current, w, visited, temp, exiting);
    }

    /** The scan of ComputeExitStates. */
    method ScanExits(w: Config) returns (temp: Config, exiting: seq<nat>)
      requires Valid() && Cfg(t, w) && Prune(t, current, w, visited, w, 0, [], 0, 0)
      modifies this`visited
      ensures Valid() && Prune(t, current, w, visited, temp, t.n + 1, exiting, 0, 0)
      ensures |exiting| <= t.n && MarkedBelow(t, visited, t.n + 1)
    {
      temp, exiting := w, [];
      var state := 0;
      while state != |temp|
        invariant Valid() && state <= |temp| == t.n + 1
        invariant Prune(t, current, w, visited, temp, state, exiting, 0, 0)
        invariant |exiting| <= state && (state == 0 || |exiting| < state) && MarkedBelow(t, visited, state)
      {
        if !t.sm[state] || visited[state] {
          NextState(t, current, w, visited, temp, state, exiting);
        } else {
          temp, exiting := ExitState(state, temp, exiting, w);
        }
        state := state + 1;
      }
    }

    /** Runs the exit handlers of the active machines at and inside s that are not marked, innermost first.
        q are the machines left so far; g are the machines that were active and unmarked at the start. */
    method DoExitImpl(s: nat, ghost g: Config, ghost q: seq<nat>) returns (ghost part: seq<nat>)
      requires Valid() && Node(t, s) && t.sm[s] && Cfg(t, g)
      requires Progress(t, g, visited, q) && InStep(t, g, visited, q, s) && Fresh(t, g, q, s)
      requires GateOk(t, g, current, visited, s)
      modifies this`visited, this`log
      ensures Valid() && log == old(log) + ExitCalls(part)
      ensures Progress(t, g, visited, q + part) && FromRoot(t, g, part, s)
      ensures InStep(t, g, visited, q + part, s) && Covers(t, g, q + part, s)
      ensures MarksWithin(t, old(visited), visited, s) && Visits(t, old(visited), visited, part, s)
      decreases t.n - t.rank[s], 2
    {
      part := [];
      if visited[s] {
        MarkedCovers(t, g, visited, q, s);
        return;
      }
      visited := visited[s := true];
      if !current[s] {
        ClosedCovers(t, g, q, s);
        return;
      }
      NewRoot(t, g, old(visited), q, s);
      part := ExitChildren(s, g, q, old(visited));
      VisitsDone(t, old(visited), visited, part, s);
      Finish(t, g, old(visited), visited, q, part, s);
      log := log + [OnExit(s)];
      part := part + [s];
    }

    /** The loop over the children in DoExitImpl. */
    method ExitChildren(s: nat, ghost g: Config, ghost q: seq<nat>, ghost marked0: seq<bool>)
      returns (ghost part: seq<nat>)
      requires Valid() && Node(t, s) && t.sm[s] && Cfg(t, g)
      requires |marked0| == t.n + 1 && visited == marked0[s := true] && Below(t, g, marked0, visited, q, [], s)
      requires GateOk(t, g, current, visited, s)
      modifies this`visited, this`log
      ensures Valid() && log == old(log) + ExitCalls(part)
      ensures Below(t, g, marked0, visited, q, part, s) && VisitsBelow(t, marked0[s := true], visited, part, s)
      ensures forall k :: IsChild(t, k, s) && t.sm[k] ==> Covers(t, g, q + part, k) && visited[k]
      decreases t.n - t.rank[s], 1
    {
      part := [];
      var i := ListLo(t, s);
      while t.children[i] != 0
        invariant ListLo(t, s) <= i <= ListHi(t, s)
        invariant Valid() && log == old(log) + ExitCalls(part)
        invariant Below(t, g, marked0, visited, q, part, s) && GateOk(t, g, current, visited, s)
        invariant VisitsBelow(t, marked0[s := true], visited, part, s)
        invariant forall j ::
          ListLo(t, s) <= j < i && t.sm[t.children[j]] ==>
            Covers(t, g, q + part, t.children[j]) && visited[t.children[j]]
        decreases ListHi(t, s) - i
      {
        if t.sm[t.children[i]] {
          ghost var part0 := part;
          part := ExitChild(t.children[i], s, g, q, part, marked0);
          CallsJoin(part0, part);
          Appended(old(log), ExitCalls(part0), ExitCalls(part[|part0|..]));
        }
        i := i + 1;
      }
      forall k | IsChild(t, k, s) && t.sm[k]
        ensures Covers(t, g, q + part, k) && visited[k]
      {
        var j := ListedChild(t, s, k);
      }
    }

    /** The body of the loop in DoExitImpl. */
    method ExitChild(child: nat, ghost s: nat, ghost g: Config, ghost q: seq<nat>, ghost part0: seq<nat>,
                     ghost marked0: seq<bool>)
      returns (ghost part: seq<nat>)
      requires Valid() && Node(t, s) && t.sm[s] && IsChild(t, child, s) && t.sm[child] && Cfg(t, g)
      requires |marked0| == t.n + 1 && Below(t, g, marked0, visited, q, part0, s) && GateOk(t, g, current, visited, s)
      requires VisitsBelow(t, marked0[s := true], visited, part0, s)
      modifies this`visited, this`log
      ensures Valid() && Below(t, g, marked0, visited, q, part, s) && GateOk(t, g, current, visited, s)
      ensures VisitsBelow(t, marked0[s := true], visited, part, s) && visited[child]
      ensures MoreMarks(t, old(visited), visited)
      ensures part0 <= part && log == old(log) + ExitCalls(part[|part0|..])
      ensures Covers(t, g, q + part, child)
      decreases t.n - t.rank[s], 0
    {
      ChildInside(t, child, s);
      ReadyForChild(t, g, marked0, visited, q, part0, s, child);
      GateNarrows(t, g, current, visited, visited, s, child);
      ghost var more := DoExitImpl(child, g, q + part0);
      ChildDone(t, g, marked0, old(visited), visited, q, part0, more, s, child);
      GateNarrows(t, g, current, old(visited), visited, s, s);
      VisitsChild(t, marked0[s := true], old(visited), visited, part0, more, s, child);
      part := part0 + more;
      assert part[|part0|..] == more;
    }

    /** The body of the loop in DoExit. */
    method ExitRoot(sms: seq<nat>, j: nat, ghost q0: seq<nat>) returns (ghost q: seq<nat>)
      requires Valid() && Upward(t, current) && j < |sms| && Node(t, sms[j]) && t.sm[sms[j]]
      requires Between(t, current, visited, q0, sms, j) && RootMarks(t, visited, q0, sms, j)
      modifies this`visited, this`log
      ensures Valid() && Between(t, current, visited, q, sms, j + 1) && RootMarks(t, visited, q, sms, j + 1)
      ensures q0 <= q && log == old(log) + ExitCalls(q[|q0|..])
    {
      RootReady(t, current, visited, q0, sms, j);
      ghost var part := DoExitImpl(sms[j], current, q0);
      NextRoot(t, current, old(visited), visited, q0, part, sms, j);
      RootMarksNext(t, old(visited), visited, q0, part, sms, j);
      q := q0 + part;
      assert q[|q0|..] == part;
    }

    method DoExit(sms: seq<nat>) returns (ghost q: seq<nat>)
      requires Valid() && Upward(t, current)
      requires forall i :: 0 <= i < |sms| ==> Node(t, sms[i]) && t.sm[sms[i]]
      modifies this`visited, this`log
      ensures Valid() && log == old(log) + ExitCalls(q) && InnermostFirst(t, q)
      ensures forall m {:trigger m in q} :: m in q <==> Node(t, m) && InsideRoot(t, current, sms, |sms|, m)
      ensures if sms == [] then visited == old(visited)
              else forall m {:trigger visited[m]} ::
                   Node(t, m) && t.sm[m] ==> (visited[m] <==> m in sms || t.parent[m] in q)
    {
      q := [];
      if |sms| != 0 {
        q := ExitRoots(sms);
        RootsDone(t, current, visited, q, sms);
        assert sms[..|sms|] == sms;
      }
    }

    /** The loop in DoExit. */
    method ExitRoots(sms: seq<nat>) returns (ghost q: seq<nat>)
      requires Valid() && Upward(t, current)
      requires forall i :: 0 <= i < |sms| ==> Node(t, sms[i]) && t.sm[sms[i]]
      modifies this`visited, this`log
      ensures Valid() && log == old(log) + ExitCalls(q)
      ensures Between(t, current, visited, q, sms, |sms|) && RootMarks(t, visited, q, sms, |sms|)
    {
      q := [];
      ClearVisited();
      FirstRoot(t, current, visited, sms);
      var j := 0;
      while j != |sms|
        invariant j <= |sms| && Valid() && log == old(log) + ExitCalls(q)
        invariant Between(t, current, visited, q, sms, j) && RootMarks(t, visited, q, sms, j)
      {
        ghost var q0 := q;
        q := ExitRoot(sms, j, q);
        CallsJoin(q0, q);
        Appended(old(log), ExitCalls(q0), ExitCalls(q[|q0|..]));
        j := j + 1;
      }
    }

    /** Runs the enter handlers of the machines at and inside s that v enters, innermost first. */
    method DoEnterImpl(s: nat, v: Config, ghost q: seq<nat>) returns (ghost part: seq<nat>)
      requires Valid() && Upward(t, current) && Node(t, s) && t.sm[s] && Cfg(t, v) && !current[s]
      requires Progress(t, v, visited, q) && InStep(t, v, visited, q, s) && Fresh(t, v, q, s)
      modifies this`visited, this`log
      ensures Valid() && log == old(log) + EnterCalls(part)
      ensures Progress(t, v, visited, q + part) && FromRoot(t, v, part, s)
      ensures InStep(t, v, visited, q + part, s) && Covers(t, v, q + part, s)
      ensures MarksWithin(t, old(visited), visited, s) && Visits(t, old(visited), visited, part, s)
      decreases t.n - t.rank[s], 2
    {
      part := [];
      if visited[s] {
        MarkedCovers(t, v, visited, q, s);
        return;
      }
      visited := visited[s := true];
      if !v[s] {
        ClosedCovers(t, v, q, s);
        return;
      }
      NewRoot(t, v, old(visited), q, s);
      part := EnterChildren(s, v, q, old(visited));
      VisitsDone(t, old(visited), visited, part, s);
      Finish(t, v, old(visited), visited, q, part, s);
      if !current[s] {
        log := log + [OnEnter(s)];
      }
      part := part + [s];
    }

    /** The loop over the children in DoEnterImpl. */
    method EnterChildren(s: nat, v: Config, ghost q: seq<nat>, ghost marked0: seq<bool>) returns (ghost part: seq<nat>)
      requires Valid() && Node(t, s) && t.sm[s] && Cfg(t, v) && Upward(t, current) && !current[s]
      requires |marked0| == t.n + 1 && visited == marked0[s := true] && Below(t, v, marked0, visited, q, [], s)
      modifies this`visited, this`log
      ensures Valid() && log == old(log) + EnterCalls(part)
      ensures Below(t, v, marked0, visited, q, part, s) && VisitsBelow(t, marked0[s := true], visited, part, s)
      ensures forall k :: IsChild(t, k, s) && t.sm[k] ==> Covers(t, v, q + part, k) && visited[k]
      decreases t.n - t.rank[s], 1
    {
      part := [];
      var i := ListLo(t, s);
      while t.children[i] != 0
        invariant ListLo(t, s) <= i <= ListHi(t, s)
        invariant Valid() && log == old(log) + EnterCalls(part)
        invariant Below(t, v, marked0, visited, q, part, s)
        invariant VisitsBelow(t, marked0[s := true], visited, part, s)
        invariant forall j ::
          ListLo(t, s) <= j < i && t.sm[t.children[j]] ==>
            Covers(t, v, q + part, t.children[j]) && visited[t.children[j]]
        decreases ListHi(t, s) - i
      {
        if t.sm[t.children[i]] {
          ghost var part0 := part;
          part := EnterChild(t.children[i], s, v, q, part, marked0);
          CallsJoin(part0, part);
          Appended(old(log), EnterCalls(part0), EnterCalls(part[|part0|..]));
        }
        i := i + 1;
      }
      forall k | IsChild(t, k, s) && t.sm[k]
        ensures Covers(t, v, q + part, k) && visited[k]
      {
        var j := ListedChild(t, s, k);
      }
    }

    /** The body of the loop in DoEnterImpl. */
    method EnterChild(child: nat, ghost s: nat, v: Config, ghost q: seq<nat>, ghost part0: seq<nat>,
                      ghost marked0: seq<bool>)
      returns (ghost part: seq<nat>)
      requires Valid() && Node(t, s) && t.sm[s] && IsChild(t, child, s) && t.sm[child] && Cfg(t, v)
      requires Upward(t, current) && !current[s]
      requires |marked0| == t.n + 1 && Below(t, v, marked0, visited, q, part0, s)
      requires VisitsBelow(t, marked0[s := true], visited, part0, s)
      modifies this`visited, this`log
      ensures Valid() && Below(t, v, marked0, visited, q, part, s)
      ensures VisitsBelow(t, marked0[s := true], visited, part, s) && visited[child]
      ensures MoreMarks(t, old(visited), visited)
      ensures part0 <= part && log == old(log) + EnterCalls(part[|part0|..])
      ensures Covers(t, v, q + part, child)
      decreases t.n - t.rank[s], 0
    {
      ChildInside(t, child, s);
      ReadyForChild(t, v, marked0, visited, q, part0, s, child);
      ghost var more := DoEnterImpl(child, v, q + part0);
      ChildDone(t, v, marked0, old(visited), visited, q, part0, more, s, child);
      VisitsChild(t, marked0[s := true], old(visited), visited, part0, more, s, child);
      part := part0 + more;
      assert part[|part0|..] == more;
    }

    /** The body of the loop in DoEnter. */
    method EnterRoot(sms: seq<nat>, j: nat, v: Config, ghost q0: seq<nat>) returns (ghost q: seq<nat>)
      requires Valid() && Upward(t, current) && j < |sms| && Node(t, sms[j]) && t.sm[sms[j]] && Cfg(t, v)
      requires Upward(t, v) && !current[sms[j]]
      requires Between(t, v, visited, q0, sms, j) && RootMarks(t, visited, q0, sms, j)
      modifies this`visited, this`log
      ensures Valid() && Between(t, v, visited, q, sms, j + 1) && RootMarks(t, visited, q, sms, j + 1)
      ensures q0 <= q && log == old(log) + EnterCalls(q[|q0|..])
    {
      RootReady(t, v, visited, q0, sms, j);
      ghost var part := DoEnterImpl(sms[j], v, q0);
      NextRoot(t, v, old(visited), visited, q0, part, sms, j);
      RootMarksNext(t, old(visited), visited, q0, part, sms, j);
      q := q0 + part;
      assert q[|q0|..] == part;
    }

    method DoEnter(sms: seq<nat>, v: Config) returns (ghost q: seq<nat>)
      requires Valid() && Upward(t, current) && Cfg(t, v) && Upward(t, v)
      requires forall i :: 0 <= i < |sms| ==> Node(t, sms[i]) && t.sm[sms[i]] && !current[sms[i]]
      modifies this`visited, this`log
      ensures Valid() && log == old(log) + EnterCalls(q) && InnermostFirst(t, q)
      ensures forall m {:trigger m in q} :: m in q <==> Node(t, m) && InsideRoot(t, v, sms, |sms|, m)
      ensures if sms == [] then visited == old(visited)
              else forall m {:trigger visited[m]} ::
                   Node(t, m) && t.sm[m] ==> (visited[m] <==> m in sms || t.parent[m] in q)
    {
      q := [];
      if |sms| != 0 {
        q := EnterRoots(sms, v);
        RootsDone(t, v, visited, q, sms);
        assert sms[..|sms|] == sms;
      }
    }

    /** The loop in DoEnter. */
    method EnterRoots(sms: seq<nat>, v: Config) returns (ghost q: seq<nat>)
      requires Valid() && Upward(t, current) && Cfg(t, v) && Upward(t, v)
      requires forall i :: 0 <= i < |sms| ==> Node(t, sms[i]) && t.sm[sms[i]] && !current[sms[i]]
      modifies this`visited, this`log
      ensures Valid() && log == old(log) + EnterCalls(q)
      ensures Between(t, v, visited, q, sms, |sms|) && RootMarks(t, visited, q, sms, |sms|)
    {
      q := [];
      ClearVisited();
      FirstRoot(t, v, visited, sms);
      var j := 0;
      while j != |sms|
        invariant j <= |sms| && Valid() && log == old(log) + EnterCalls(q)
        invariant Between(t, v, visited, q, sms, j) && RootMarks(t, visited, q, sms, j)
      {
        ghost var q0 := q;
        q := EnterRoot(sms, j, v, q);
        CallsJoin(q0, q);
        Appended(old(log), EnterCalls(q0), EnterCalls(q[|q0|..]));
        j := j + 1;
      }
    }

    // -------------------------------------------------------------------- the transition kernel

    /** All threads of region r have reached their Final states. */
    method AllThreadsFinal(r: nat, v: Config) returns (all: bool)
      requires CanJoin(t, r) && Cfg(t, v)
      ensures all <==> AllFinal(t, r, v)
    {
      assert Node(t, r) && t.sm[r];
      var j := ListLo(t, r);
      while t.children[j] != 0
        invariant ListLo(t, r) <= j <= ListHi(t, r)
        invariant forall i ::
          ListLo(t, r) <= i < j && IsThread(t, t.children[i], r) ==>
            t.finalState[t.children[i]] != 0 && v[t.finalState[t.children[i]]]
        decreases ListHi(t, r) - j
      {
        var child := t.children[j];
        if t.sm[child] && t.thread[child] {
          assert IsThread(t, child, r);
          if t.finalState[child] == 0 || !v[t.finalState[child]] {
            return false;
          }
        }
        j := j + 1;
      }
      forall k | IsThread(t, k, r)
        ensures t.finalState[k] != 0 && v[t.finalState[k]]
      {
        var i := ListedChild(t, r, k);
      }
      return true;
    }

    /** The join of region r fires. */
    method TakeJoin(r: nat, v: Config) returns (w: Config)
      requires CanJoin(t, r) && Cfg(t, v)
      ensures Cfg(t, w) && Joined(t, r, v, w)
    {
      assert Node(t, r) && t.sm[r];
      w := v;
      var j := ListLo(t, r);
      while t.children[j] != 0
        invariant ListLo(t, r) <= j <= ListHi(t, r) && Cfg(t, w)
        invariant forall x {:trigger w[x]} :: Node(t, x) && w[x] ==> v[x]
        invariant forall x {:trigger w[x]} :: Node(t, x) && v[x] && !w[x] ==> IsThread(t, x, r)
        invariant forall i :: ListLo(t, r) <= i < j && IsThread(t, t.children[i], r) ==> !w[t.children[i]]
        decreases ListHi(t, r) - j
      {
        var child := t.children[j];
        if t.sm[child] && t.thread[child] {
          w := w[child := false];
        }
        j := j + 1;
      }
      forall k | IsThread(t, k, r)
        ensures !w[k]
      {
        var i := ListedChild(t, r, k);
      }
      w := w[t.joinState[r] := true];
    }

    /** Applies the transitions to temp and collects the regions whose join may be due. */
    method ProcessTransitions(ts: seq<Transition>, temp0: Config)
      returns (temp: Config, possible: bool, regions: seq<nat>)
      requires Cfg(t, temp0) && AllEndpointsOk(t, ts)
      ensures temp == Moves(t, temp0, ts) && regions == Regions(t, ts)
      ensures possible <==> !AllLocal(t, ts)
    {
      possible, temp, regions := false, temp0, [];
      var p := 0;
      while p != |ts|
        invariant p <= |ts| && Cfg(t, temp) && AllEndpointsOk(t, ts[..p])
        invariant temp == Moves(t, temp0, ts[..p]) && regions == Regions(t, ts[..p])
        invariant possible <==> !AllLocal(t, ts[..p])
      {
        var trans := ts[p];
        assert EndpointsOk(t, trans);
        if !possible && t.parent[trans.to] != t.parent[trans.from] {
          possible := true;
        }
        if !possible && (t.sm[trans.to] || t.sm[trans.from]) {
          possible := true;
        }
        temp := temp[trans.from := false];
        temp := temp[trans.to := true];
        if t.inThread[trans.to] && t.final[trans.to] {
          var region := DueRegion(t, trans.to);
          if region !in regions {
            regions := regions + [region];
          }
        }
        OneMore(t, temp0, ts, p);
        p := p + 1;
      }
      assert ts[..p] == ts;
    }

    /** Fires the joins that are due. */
    method ProcessJoins(regions: seq<nat>, temp0: Config) returns (temp: Config, fired: bool, ghost vs: seq<Config>)
      requires Cfg(t, temp0) && forall i :: 0 <= i < |regions| ==> regions[i] <= t.n
      ensures JoinRun(t, regions, vs) && vs[0] == temp0 && temp == vs[|regions|]
      ensures fired <==> JoinFires(t, regions, vs)
    {
      temp, fired, vs := temp0, false, [temp0];
      var i := 0;
      while i != |regions|
        invariant i <= |regions| && JoinRun(t, regions[..i], vs) && vs[0] == temp0 && temp == vs[i]
        invariant fired <==> exists k :: 0 <= k < i && Fires(t, regions[k], vs[k])
      {
        var region := regions[i];
        var fires := false;
        if t.join[region] && t.joinState[region] != 0 {
          fires := AllThreadsFinal(region, temp);
          if fires {
            temp := TakeJoin(region, temp);
            fired := true;
          }
        }
        assert JoinStep(t, region, vs[i], temp);
        JoinRunExtend(t, regions, vs, vs + [temp], i);
        vs := vs + [temp];
        i := i + 1;
      }
      assert regions[..i] == regions;
    }

    /** Applies the transitions to temp, then the joins. `possible` says that a machine may have been
        entered or left. */
    method TransitionKernel(ts: seq<Transition>, temp0: Config)
      returns (temp: Config, possible: bool, ghost vs: seq<Config>)
      requires Cfg(t, temp0) && AllEndpointsOk(t, ts)
      ensures KernelRun(t, temp0, ts, vs) && temp == vs[|vs| - 1]
      ensures possible <==> !(AllLocal(t, ts) && !JoinFires(t, Regions(t, ts), vs))
      ensures FinalsPlain(t) ==> (possible <==>
        || (exists i :: 0 <= i < |ts| && EndpointsOk(t, ts[i])
              && (t.parent[ts[i].from] != t.parent[ts[i].to] || t.sm[ts[i].from] || t.sm[ts[i].to]))
        || exists r: nat :: Finishes(t, temp0, ts, r))
      ensures FinalsPlain(t) ==> forall x {:trigger temp[x]} :: Node(t, x) ==> (temp[x] <==>
        || (exists r: nat :: Finishes(t, temp0, ts, r) && t.joinState[r] == x)
        || (Moves(t, temp0, ts)[x] && !(t.sm[x] && t.thread[x] && Finishes(t, temp0, ts, t.parent[x]))))
    {
      var regions, fired;
      temp, possible, regions := ProcessTransitions(ts, temp0);
      temp, fired, vs := ProcessJoins(regions, temp);
      possible := possible || fired;
      if FinalsPlain(t) {
        PassesIff(t, temp0, ts, vs);
        forall x | Node(t, x)
          ensures temp[x] <==>
            || (exists r: nat :: Finishes(t, temp0, ts, r) && t.joinState[r] == x)
            || (Moves(t, temp0, ts)[x] && !(t.sm[x] && t.thread[x] && Finishes(t, temp0, ts, t.parent[x])))
        {
          JoinsDecide(t, temp0, ts, vs, x);
        }
      }
    }

    // -------------------------------------------------------------------- steps

    /** Runs the actions of the fired transitions. */
    method RunTriggeredActions(fired: seq<nat>)
      requires Valid()
      modifies this`log
      ensures Valid() && log == old(log) + FireCalls(fired)
    {
      var p := 0;
      while p != |fired|
        invariant p <= |fired| && Valid() && log == old(log) + FireCalls(fired[..p])
      {
        log := log + [Fire(fired[p])];
        assert FireCalls(fired[..p + 1]) == FireCalls(fired[..p]) + [Fire(fired[p])];
        p := p + 1;
      }
      assert fired[..p] == fired;
    }

    /** Closes and prunes base, and runs exit handlers, actions and enter handlers; the caller commits temp. */
    method ComputeEnterAndExitStates(base: Config, fired: seq<nat>)
      returns (temp: Config, ghost started: set<nat>, ghost x: Config, ghost calls: seq<Call>)
      requires Valid() && HasInitials(t) && Legal(t, current) && Cfg(t, base)
      modifies this`visited, this`log
      ensures Valid() && PassedBy(t, current, base, started, x, temp, visited)
      ensures log == old(log) + calls && StepCalls(t, current, temp, fired, calls)
    {
      var entering, exiting;
      temp, entering, started := ComputeEnteredStates(base);
      x := temp;
      temp, exiting := ComputeExitStates(temp);
      calls := RunCalls(temp, exiting, entering, fired, x);
      MarksTell(t, current, base, started, x, temp, entering, exiting, visited);
    }

    /** Exit handlers, actions, enter handlers. */
    method RunCalls(temp: Config, exiting: seq<nat>, entering: seq<nat>, fired: seq<nat>, ghost x: Config)
      returns (ghost calls: seq<Call>)
      requires Valid() && Legal(t, current) && GreatestLegal(t, x, temp)
      requires ExitingList(t, current, temp, exiting) && EnteringList(t, current, x, entering)
      requires MarkedBelow(t, visited, t.n + 1)
      modifies this`visited, this`log
      ensures Valid() && MarksOfCalls(t, current, temp, entering, exiting, visited)
      ensures log == old(log) + calls && StepCalls(t, current, temp, fired, calls)
    {
      ghost var exits := DoExit(exiting);
      RunTriggeredActions(fired);
      ghost var enters := DoEnter(entering, temp);
      CallsExact(t, current, x, temp, exiting, exits, entering, enters, fired);
      CallsMark(t, current, x, temp, exiting, exits, entering, enters, visited);
      calls := ExitCalls(exits) + FireCalls(fired) + EnterCalls(enters);
      Appended(old(log), ExitCalls(exits), FireCalls(fired));
      Appended(old(log), ExitCalls(exits) + FireCalls(fired), EnterCalls(enters));
    }

    ghost function Taken(fired: seq<nat>): (ts: seq<Transition>)
      requires forall i :: 0 <= i < |fired| ==> fired[i] < |trs|
    {
      seq(|fired|, i requires 0 <= i < |fired| => trs[fired[i]])
    }

    /** One step that takes the fired transitions. */
    method TakeTransitions(fired: seq<nat>) returns (ghost calls: seq<Call>)
      requires Valid() && HasInitials(t) && Legal(t, current)
      requires forall i :: 0 <= i < |fired| ==> fired[i] < |trs|
      requires Sourced(t, current, Taken(fired))
      modifies this`current, this`visited, this`log
      ensures Valid() && Legal(t, current)
      ensures Step(t, old(current), Taken(fired), current)
      ensures log == old(log) + calls && StepCalls(t, old(current), current, fired, calls)
      ensures StepMarks(t, old(current), Taken(fired), current, old(visited), visited)
    {
      var ts := seq(|fired|, i requires 0 <= i < |fired| => trs[fired[i]]);
      assert ts == Taken(fired);
      var temp, possible;
      ghost var vs, started, x;
      temp, possible, vs := TransitionKernel(ts, current);
      if !possible {
        RunTriggeredActions(fired);
        LocalStep(t, current, ts, vs);
        calls := FireCalls(fired);
        LocalCalls(t, current, temp, fired, calls);
      } else {
        temp, started, x, calls := ComputeEnterAndExitStates(temp, fired);
        assert StepWith(t, current, ts, vs, started, x, temp);
      }
      assert StepMarksWith(t, current, ts, vs, temp, old(visited), visited);
      current := temp;
    }

    // -------------------------------------------------------------------- the main loop

    ghost function State(): LoopState
      reads this
    {
      LoopState(current, takingEpsilon, holds)
    }

    /** The loop is set up: tables and index fit together. */
    ghost predicate Ready()
      reads this
    {
      && Valid() && HasInitials(t) && TableOk(t, trs) && |holds| == |trs| < MAX_ACTIVE_TRANSITIONS
      && IndexOk(t.n, Froms(trs), slotStarts, slots)
    }

    /** It is set up, and the configuration is legal. */
    ghost predicate Running()
      reads this
    {
      Ready() && LoopOk(t, trs, State())
    }

    /** Builds the transition index; `gotMemory` says whether the bucket memory was obtained. */
    method Prepare(gotMemory: bool, guards: seq<bool>)
      requires Valid() && HasInitials(t) && Legal(t, current) && |guards| == |trs| < MAX_ACTIVE_TRANSITIONS
      requires TableOk(t, trs)
      modifies this`slotStarts, this`slots, this`takingEpsilon, this`holds
      ensures Running() && !takingEpsilon && holds == guards
    {
      var froms := seq(|trs|, j requires 0 <= j < |trs| => trs[j].from);
      assert froms == Froms(trs);
      if gotMemory {
        slotStarts, slots := BuildIndexByBuckets(t.n, froms);
      } else {
        slotStarts, slots := BuildIndexByScan(t.n, froms);
      }
      takingEpsilon, holds := false, guards;
    }

    /** The transitions to take under ev, sorted and without duplicates. */
    method FindTransitions(ev: int) returns (fired: seq<nat>)
      requires Running()
      ensures FiredBy(trs, current, ev, holds, fired)
      ensures forall i :: 0 <= i < |fired| ==> fired[i] < |trs|
      ensures Sourced(t, current, Taken(fired))
      ensures SharedMachine(trs) ==> forall j: nat {:trigger j in fired} :: j in fired <==>
        && j < |trs| && current[trs[j].from] && !trs[j].isAbstract && trs[j].ev == ev && (trs[j].guarded ==> holds[j])
        && !(ev == 0 && trs[j].from == trs[j].to && !trs[j].guarded)
    {
      var triggered := ComputeTriggeredTransitions(trs, slotStarts, slots, t.n, current, current, ev, holds);
      fired := SortUnique(triggered, |trs|);
      assert forall i :: 0 <= i < |fired| ==> fired[i] in fired;
      ghost var ts := Taken(fired);
      forall i | 0 <= i < |ts|
        ensures EndpointsOk(t, ts[i]) && current[ts[i].from]
      {
        assert fired[i] in fired && ts[i] == trs[fired[i]];
      }
      if SharedMachine(trs) {
        forall j: nat
          ensures j in fired <==>
            && j < |trs| && current[trs[j].from] && !trs[j].isAbstract && trs[j].ev == ev
            && (trs[j].guarded ==> holds[j]) && !(ev == 0 && trs[j].from == trs[j].to && !trs[j].guarded)
        {
          FiredWithSharedMachine(trs, current, ev, holds, fired, j);
        }
      }
    }

    /** One pass through the part of the loop that takes transitions. */
    method ReactTo(ev: int, effect: seq<bool>) returns (fired: seq<nat>, ghost calls: seq<Call>)
      requires Running() && |effect| == |trs|
      modifies this`current, this`visited, this`log, this`takingEpsilon, this`holds
      ensures Running() && React(t, trs, old(State()), ev, State())
      ensures FiredBy(trs, old(current), ev, old(holds), fired)
      ensures fired == [] ==> holds == old(holds) && calls == [] && takingEpsilon == !old(takingEpsilon)
      ensures fired != [] ==> holds == effect && takingEpsilon
      ensures log == old(log) + calls && Reacted(t, trs, old(State()), ev, State(), calls, old(visited), visited)
    {
      fired := FindTransitions(ev);
      if fired == [] {
        calls := [];
        TakeNone(ev, fired);
      } else {
        calls := TakeFired(ev, fired, effect);
      }
    }

    /** No transition is taken. */
    method TakeNone(ev: int, fired: seq<nat>)
      requires Running() && fired == [] && FiredBy(trs, current, ev, holds, fired)
      modifies this`takingEpsilon
      ensures Running() && React(t, trs, old(State()), ev, State()) && takingEpsilon == !old(takingEpsilon)
      ensures Reacted(t, trs, old(State()), ev, State(), [], visited, visited)
    {
      ghost var s := State();
      takingEpsilon := !takingEpsilon;
      TookNone(t, trs, s, ev, State(), visited);
    }

    /** Some transition is taken. */
    method TakeFired(ev: int, fired: seq<nat>, effect: seq<bool>) returns (ghost calls: seq<Call>)
      requires Running() && |effect| == |trs| && fired != [] && FiredBy(trs, current, ev, holds, fired)
      requires (forall i :: 0 <= i < |fired| ==> fired[i] < |trs|) && Sourced(t, current, Taken(fired))
      modifies this`current, this`visited, this`log, this`takingEpsilon, this`holds
      ensures Running() && React(t, trs, old(State()), ev, State()) && holds == effect && takingEpsilon
      ensures log == old(log) + calls && Reacted(t, trs, old(State()), ev, State(), calls, old(visited), visited)
    {
      calls := TakeAndStay(fired, effect);
      Took(t, trs, old(State()), ev, fired, Taken(fired), State(), calls, old(visited), visited);
    }

    /** Takes the fired transitions and stays in the phase of epsilon transitions. */
    method TakeAndStay(fired: seq<nat>, effect: seq<bool>) returns (ghost calls: seq<Call>)
      requires Running() && |effect| == |trs|
      requires (forall i :: 0 <= i < |fired| ==> fired[i] < |trs|) && Sourced(t, current, Taken(fired))
      modifies this`current, this`visited, this`log, this`takingEpsilon, this`holds
      ensures Running() && holds == effect && takingEpsilon && log == old(log) + calls
      ensures Step(t, old(current), Taken(fired), current) && StepCalls(t, old(current), current, fired, calls)
      ensures StepMarks(t, old(current), Taken(fired), current, old(visited), visited)
    {
      calls := TakeTransitions(fired);
      takingEpsilon, holds := true, effect;
    }

    /** Restarts machines: one enter/exit pass without them, one with them. */
    method RestartMachines(machines: seq<nat>, fired: seq<nat>) returns (ghost calls: seq<Call>)
      requires Valid() && HasInitials(t) && Legal(t, current)
      requires forall i :: 0 <= i < |machines| ==> Node(t, machines[i])
      modifies this`current, this`visited, this`log
      ensures Valid() && Legal(t, current) && log == old(log) + calls
      ensures RestartEffects(t, old(current), machines, fired, current, calls, visited)
    {
      ghost var c := current;
      ghost var off := SwitchMachines(machines, false, fired);
      ghost var mid, marks := current, visited;
      ghost var on := SwitchMachines(machines, true, fired);
      calls := off + on;
      SwitchedTwice(t, c, machines, fired, mid, off, marks, current, on, visited);
      Appended(old(log), off, on);
    }

    /** Switches machines off or on, and makes the passes of a step. */
    method SwitchMachines(machines: seq<nat>, value: bool, fired: seq<nat>) returns (ghost calls: seq<Call>)
      requires Valid() && HasInitials(t) && Legal(t, current)
      requires forall i :: 0 <= i < |machines| ==> Node(t, machines[i])
      modifies this`current, this`visited, this`log
      ensures Valid() && Legal(t, current) && log == old(log) + calls
      ensures SwitchStep(t, old(current), machines, value, fired, current, calls, visited)
    {
      var base := SetAll(current, machines, value);
      ghost var started, x;
      var temp;
      temp, started, x, calls := ComputeEnterAndExitStates(base, fired);
      current := temp;
    }

    method SetAll(v: Config, machines: seq<nat>, value: bool) returns (w: Config)
      requires Cfg(t, v) && forall i :: 0 <= i < |machines| ==> Node(t, machines[i])
      ensures Switched(t, v, machines, value, w)
    {
      w := v;
      var i := 0;
      while i != |machines|
        invariant i <= |machines| && Cfg(t, w)
        invariant forall s {:trigger w[s]} :: Node(t, s) ==> w[s] == if s in machines[..i] then value else v[s]
      {
        w := w[machines[i] := value];
        i := i + 1;
      }
      assert machines[..i] == machines;
    }

    /** One turn of the main loop. `fetched` is what the fetch yields when the loop gets to it, `effect` the
        guards' values after the code that the turn runs. */
    method Iterate(fetched: Input, effect: seq<bool>) returns (ghost calls: seq<Call>)
      requires Running() && |effect| == |trs| == |SeenWith(fetched, holds)|
      requires fetched != Epsilon && (fetched.Start? ==> Nodes(t, fetched.given))
      requires fetched.Restart? ==> forall i :: 0 <= i < |fetched.machines| ==> Node(t, fetched.machines[i])
      modifies this
      ensures Ready() && (Running() <==> old(takingEpsilon) || InputFits(t, old(current), fetched))
      ensures var input := if old(takingEpsilon) then Epsilon else fetched;
        && Turn(t, trs, old(State()), input, State()) && log == old(log) + calls
        && TurnEffects(t, trs, old(State()), input, State(), calls, old(visited), visited)
      ensures !old(takingEpsilon) ==> (takingEpsilon <==> !fetched.QueuedAction?)
      ensures old(takingEpsilon) && SharedMachine(trs) ==> (takingEpsilon <==>
        exists j: nat {:trigger trs[j]} ::
          && j < |trs| && old(current)[trs[j].from] && !trs[j].isAbstract && trs[j].ev == 0
          && (trs[j].guarded ==> old(holds)[j]) && !(trs[j].from == trs[j].to && !trs[j].guarded))
    {
      if takingEpsilon {
        ghost var fired;
        calls, fired := HandleEpsilon(effect);
        if SharedMachine(trs) {
          SomeFires(trs, old(current), old(holds), fired);
        }
      } else {
        calls := HandleFetched(fetched, effect);
      }
    }

    /** A turn of the phase of epsilon transitions. */
    method HandleEpsilon(effect: seq<bool>) returns (ghost calls: seq<Call>, ghost fired: seq<nat>)
      requires Running() && |effect| == |trs| && takingEpsilon
      modifies this`current, this`visited, this`log, this`takingEpsilon, this`holds
      ensures Running() && Turn(t, trs, old(State()), Epsilon, State()) && log == old(log) + calls
      ensures TurnEffects(t, trs, old(State()), Epsilon, State(), calls, old(visited), visited)
      ensures FiredBy(trs, old(current), 0, old(holds), fired) && (takingEpsilon <==> fired != [])
    {
      var taken;
      taken, calls := ReactTo(0, effect);
      fired := taken;
    }

    /** A turn that handles what was fetched. */
    method HandleFetched(fetched: Input, effect: seq<bool>) returns (ghost calls: seq<Call>)
      requires Running() && |effect| == |trs| == |SeenWith(fetched, holds)| && !takingEpsilon
      requires fetched != Epsilon && (fetched.Start? ==> Nodes(t, fetched.given))
      requires fetched.Restart? ==> forall i :: 0 <= i < |fetched.machines| ==> Node(t, fetched.machines[i])
      modifies this`current, this`visited, this`log, this`takingEpsilon, this`holds
      ensures Ready() && (Running() <==> InputFits(t, old(current), fetched)) && log == old(log) + calls
      ensures Turn(t, trs, old(State()), fetched, State())
      ensures TurnEffects(t, trs, old(State()), fetched, State(), calls, old(visited), visited)
    {
      calls := [];
      match fetched
      case Epsilon =>
      case Event(ev, seen) =>
        calls := HandleEvent(ev, seen, effect);
      case Start(given) =>
        calls := HandleStart(given, effect);
      case SetState =>
        ChangeGuards(true, effect);
      case QueuedAction =>
        ChangeGuards(false, effect);
      case Restart(machines, seen) =>
        calls := HandleRestart(machines, seen, effect);
    }

    /** A set-state message, which begins a phase of epsilon transitions, or a queued action, which does not. */
    method ChangeGuards(message: bool, effect: seq<bool>)
      requires Running() && |effect| == |trs| && !takingEpsilon
      modifies this`takingEpsilon, this`holds
      ensures Running()
      ensures Turn(t, trs, old(State()), if message then SetState else QueuedAction, State())
    {
      takingEpsilon, holds := message, effect;
    }

    /** A fetched start directive: the configuration stays legal exactly if it fits. */
    method HandleStart(given: set<nat>, effect: seq<bool>) returns (ghost calls: seq<Call>)
      requires Running() && |effect| == |trs| && !takingEpsilon && Nodes(t, given)
      modifies this`current, this`log, this`takingEpsilon, this`holds
      ensures Ready() && (Running() <==> Fits(t, old(current), given)) && log == old(log) + calls
      ensures Turn(t, trs, old(State()), Start(given), State())
      ensures TurnEffects(t, trs, old(State()), Start(given), State(), calls, visited, visited)
    {
      calls := StartStates(given, effect);
      StartKeepsLegalIff(t, old(current), given);
    }

    /** A fetched restart. */
    method HandleRestart(machines: seq<nat>, seen: seq<bool>, effect: seq<bool>) returns (ghost calls: seq<Call>)
      requires Running() && |effect| == |seen| == |trs| && !takingEpsilon
      requires forall i :: 0 <= i < |machines| ==> Node(t, machines[i])
      modifies this`current, this`visited, this`log, this`takingEpsilon, this`holds
      ensures Running() && Turn(t, trs, old(State()), Restart(machines, seen), State()) && log == old(log) + calls
      ensures TurnEffects(t, trs, old(State()), Restart(machines, seen), State(), calls, old(visited), visited)
    {
      ghost var fired;
      fired, calls := FindAndRestart(machines, seen, effect);
      RestartTurn(t, trs, old(State()), machines, seen, fired, State(), calls, old(visited), visited);
    }

    /** The transitions of a restart are looked for, but only their actions run. */
    method FindAndRestart(machines: seq<nat>, seen: seq<bool>, effect: seq<bool>)
      returns (ghost fired: seq<nat>, ghost calls: seq<Call>)
      requires Running() && |effect| == |seen| == |trs| && !takingEpsilon
      requires forall i :: 0 <= i < |machines| ==> Node(t, machines[i])
      modifies this`current, this`visited, this`log, this`takingEpsilon, this`holds
      ensures Running() && takingEpsilon && holds == effect && log == old(log) + calls
      ensures FiredBy(trs, old(current), 0, seen, fired)
      ensures RestartEffects(t, old(current), machines, fired, current, calls, visited)
    {
      holds := seen;
      var found := FindTransitions(0);
      fired := found;
      calls := RestartMachines(machines, found);
      takingEpsilon, holds := true, effect;
    }

    /** A fetched event: the guards are looked at after the fetch. */
    method HandleEvent(ev: int, seen: seq<bool>, effect: seq<bool>) returns (ghost calls: seq<Call>)
      requires Running() && |effect| == |seen| == |trs| && !takingEpsilon
      modifies this`current, this`visited, this`log, this`takingEpsilon, this`holds
      ensures Running() && Turn(t, trs, old(State()), Event(ev, seen), State()) && log == old(log) + calls
      ensures TurnEffects(t, trs, old(State()), Event(ev, seen), State(), calls, old(visited), visited)
    {
      holds := seen;
      ghost var s := State();
      var fired;
      fired, calls := ReactTo(ev, effect);
      ghost var s' := State();
      holds := effect;
      assert State() == s'.(holds := effect);
    }

    /** The hull of the states that a start directive names becomes active, and on_enter runs for the machines that
        own these states. The set of them is gone through in any order. */
    method StartStates(given: set<nat>, effect: seq<bool>) returns (ghost calls: seq<Call>)
      requires Running() && |effect| == |trs| && Nodes(t, given)
      modifies this`current, this`log, this`takingEpsilon, this`holds
      ensures Ready() && takingEpsilon && holds == effect && current == StartedFrom(t, old(current), given)
      ensures log == old(log) + calls && StartCalls(t, given, calls)
      ensures forall s {:trigger current[s]} :: Node(t, s) ==> (current[s] <==>
        || old(current)[s] || s in given || StartedMachine(t, given, s)
        || (t.initial[t.parent[s]] == s && t.parent[s] != 0 && StartedMachine(t, given, t.parent[s])
              && forall g :: g in given ==> t.parent[g] != t.parent[s]))
      ensures forall m: nat {:trigger OnEnter(m)} :: OnEnter(m) in calls <==>
        (m in given && t.sm[m]) || exists g :: g in given && !t.sm[g] && t.parent[g] == m
    {
      var hull := StartHulls(given);
      current := Union(current, hull);
      takingEpsilon, holds := true, effect;
      ghost var owners := RunEnters(OwnersOf(t, given));
      calls := EnterCalls(owners);
      forall s | Node(t, s)
        ensures current[s] <==>
          || old(current)[s] || s in given || StartedMachine(t, given, s)
          || (t.initial[t.parent[s]] == s && t.parent[s] != 0 && StartedMachine(t, given, t.parent[s])
                && forall g :: g in given ==> t.parent[g] != t.parent[s])
      {
        StartedAre(t, given, s);
      }
      StartCallsAre(t, given, owners, calls);
    }

    method StartHulls(given: set<nat>) returns (v: Config)
      requires Nodes(t, given)
      ensures v == Flags(t, HullSet(t, given))
    {
      var hull := Hull(t, given);
      HullIs(t, given, hull);
      v := Flags(t, hull);
    }

    method RunEnters(machines: set<nat>) returns (ghost q: seq<nat>)
      modifies this`log
      ensures log == old(log) + EnterCalls(q) && Lists(q, machines)
    {
      q := [];
      var todo := machines;
      while todo != {}
        invariant todo <= machines && Lists(q, machines - todo) && log == old(log) + EnterCalls(q)
        decreases todo
      {
        var m :| m in todo;
        log := log + [OnEnter(m)];
        assert EnterCalls(q + [m]) == EnterCalls(q) + [OnEnter(m)];
        ListsMore(q, machines - todo, m);
        q := q + [m];
        todo := todo - {m};
        assert machines - todo == machines - (todo + {m}) + {m};
      }
    }

    /** When the loop has ended: runs the exit handlers from the top-level machines down. VISITED is not
        cleared, so a machine inside a marked one is not left. */
    method ExitAll() returns (ghost q: seq<nat>)
      requires Valid() && Legal(t, current)
      modifies this`visited, this`log
      ensures Valid() && log == old(log) + ExitCalls(q) && InnermostFirst(t, q)
      ensures forall m: nat {:trigger m in q} ::
        m in q <==> Node(t, m) && t.sm[m] && OpenUp(t, Unmarked(t, current, old(visited)), m)
    {
      q := [];
      ghost var g := Unmarked(t, current, visited);
      var stidx := 0;
      while stidx < |current|
        invariant stidx <= |current| && Valid() && log == old(log) + ExitCalls(q)
        invariant TopDone(t, g, visited, q, stidx) && MoreMarks(t, old(visited), visited)
      {
        if current[stidx] && t.sm[stidx] && t.parent[stidx] == 0 {
          q := ExitTop(stidx, g, q, old(visited), old(log));
        } else {
          TopSkip(t, g, visited, q, stidx);
        }
        stidx := stidx + 1;
      }
      TopFinished(t, g, visited, q);
    }

    /** The body of the loop in ExitAll. */
    method ExitTop(r: nat, ghost g: Config, ghost q0: seq<nat>, ghost marks: seq<bool>, ghost log0: seq<Call>)
      returns (ghost q: seq<nat>)
      requires Valid() && Node(t, r) && t.sm[r] && t.parent[r] == 0 && |marks| == t.n + 1
      requires g == Unmarked(t, current, marks) && MoreMarks(t, marks, visited)
      requires TopDone(t, g, visited, q0, r) && log == log0 + ExitCalls(q0)
      modifies this`visited, this`log
      ensures Valid() && TopDone(t, g, visited, q, r + 1) && MoreMarks(t, marks, visited)
      ensures log == log0 + ExitCalls(q)
    {
      TopReady(t, g, current, marks, visited, q0, r);
      ghost var part := DoExitImpl(r, g, q0);
      TopStep(t, g, old(visited), visited, q0, part, r);
      q := q0 + part;
      assert q[|q0|..] == part;
      CallsJoin(q0, q);
      Appended(log0, ExitCalls(q0), ExitCalls(part));
    }
  }

  /** A start directive calls on_enter of the named machines and of the machines around named plain states. */
  lemma StartCallsAre(t: Tables, given: set<nat>, owners: seq<nat>, calls: seq<Call>)
    requires Nodes(t, given) && Lists(owners, OwnersOf(t, given)) && calls == EnterCalls(owners)
    ensures forall m: nat {:trigger OnEnter(m)} :: OnEnter(m) in calls <==>
      (m in given && t.sm[m]) || exists g :: g in given && !t.sm[g] && t.parent[g] == m
  {
    forall m: nat
      ensures OnEnter(m) in calls <==> (m in given && t.sm[m]) || exists g :: g in given && !t.sm[g] && t.parent[g] == m
    {
      OwnersAre(t, given, m);
      if m in owners {
        var i :| 0 <= i < |owners| && owners[i] == m;
        assert calls[i] == OnEnter(m);
      }
    }
  }

  lemma LocalCalls(t: Tables, c: Config, c': Config, fired: seq<nat>, calls: seq<Call>)
    requires Cfg(t, c) && Cfg(t, c') && calls == FireCalls(fired)
    requires forall m :: Node(t, m) && t.sm[m] ==> c'[m] == c[m]
    ensures StepCalls(t, c, c', fired, calls)
  {
    assert calls == ExitCalls([]) + FireCalls(fired) + EnterCalls([]);
    assert StepCallsWith(t, c, c', fired, calls, [], []);
  }
}
