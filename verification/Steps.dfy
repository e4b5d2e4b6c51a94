/** One step as a relation between configurations, and what every run keeps. */
module Steps {
  import opened Containment
  import opened Closure
  import opened EnteredStates
  import opened Kernel
  import opened Triggering
  import opened StartHull
  import opened Samples

  /** The enter/exit branch: base is temp after the kernel, x after the entered states were added. */
  ghost predicate EnterExit(t: Tables, c: Config, base: Config, started: set<nat>, x: Config, c': Config) {
    && EnterClosure(t, c, base, started, x)
    && StartedExactly(t, c, base, started)
    && GreatestLegal(t, x, c')
  }

  ghost predicate JoinFires(t: Tables, regions: seq<nat>, vs: seq<Config>)
    requires JoinRun(t, regions, vs)
  {
    exists i :: 0 <= i < |regions| && Fires(t, regions[i], vs[i])
  }

  /** The kernel's result after transitions ts; vs runs through the joins. */
  ghost predicate KernelRun(t: Tables, c: Config, ts: seq<Transition>, vs: seq<Config>)
    requires Cfg(t, c) && AllEndpointsOk(t, ts)
  {
    JoinRun(t, Regions(t, ts), vs) && vs[0] == Moves(t, c, ts)
  }

  /** A step takes the transitions ts from c to c'. */
  ghost predicate StepWith(t: Tables, c: Config, ts: seq<Transition>, vs: seq<Config>, started: set<nat>, x: Config,
                           c': Config) {
    && Legal(t, c) && Sourced(t, c, ts) && KernelRun(t, c, ts, vs)
    && if AllLocal(t, ts) && !JoinFires(t, Regions(t, ts), vs)
       then c' == vs[|vs| - 1]
       else EnterExit(t, c, vs[|vs| - 1], started, x, c')
  }

  ghost predicate Step(t: Tables, c: Config, ts: seq<Transition>, c': Config) {
    exists vs, started, x :: StepWith(t, c, ts, vs, started, x, c')
  }

  lemma StepKeepsLegal(t: Tables, c: Config, ts: seq<Transition>, c': Config)
    requires Step(t, c, ts, c')
    ensures Legal(t, c')
  {
    var vs, started, x :| StepWith(t, c, ts, vs, started, x, c');
    if AllLocal(t, ts) && !JoinFires(t, Regions(t, ts), vs) {
      NoJoin(t, Regions(t, ts), vs);
      LocalMovesLegal(t, c, ts);
    }
  }

  /** The fast branch: no machine is entered or left. */
  lemma LocalStep(t: Tables, c: Config, ts: seq<Transition>, vs: seq<Config>)
    requires Legal(t, c) && Sourced(t, c, ts) && KernelRun(t, c, ts, vs)
    requires AllLocal(t, ts) && !JoinFires(t, Regions(t, ts), vs)
    ensures Step(t, c, ts, vs[|vs| - 1]) && Legal(t, vs[|vs| - 1])
    ensures forall m :: Node(t, m) && t.sm[m] ==> vs[|vs| - 1][m] == c[m]
  {
    NoJoin(t, Regions(t, ts), vs);
    LocalMovesLegal(t, c, ts);
    assert StepWith(t, c, ts, vs, {}, c, vs[|vs| - 1]);
  }

  lemma SameJoins(t: Tables, c: Config, ts: seq<Transition>, vs: seq<Config>, us: seq<Config>)
    requires Cfg(t, c) && AllEndpointsOk(t, ts) && KernelRun(t, c, ts, vs) && KernelRun(t, c, ts, us)
    ensures vs == us
  {
    forall k | 0 <= k < |vs|
      ensures vs[k] == us[k]
    {
      JoinRunUnique(t, Regions(t, ts), vs, us, k);
    }
  }

  lemma EnterExitUnique(t: Tables, c: Config, base: Config, a: set<nat>, x: Config, v: Config, b: set<nat>, y: Config,
                        w: Config)
    requires EnterExit(t, c, base, a, x, v) && EnterExit(t, c, base, b, y, w)
    ensures a == b && x == y && v == w
  {
    forall r: nat | r in a || r in b
      ensures r in a && r in b
    {
      assert Candidate(t, c, base, r);
      StartedUnique(t, c, base, a, b, r);
    }
    assert a == b;
    EnterClosureUnique(t, c, base, a, x, y);
    GreatestLegalUnique(t, x, v, w);
  }

  /** A step is a function of the configuration and the transitions taken. */
  lemma StepUnique(t: Tables, c: Config, ts: seq<Transition>, v: Config, w: Config)
    requires Step(t, c, ts, v) && Step(t, c, ts, w)
    ensures v == w
  {
    var vs, a, x :| StepWith(t, c, ts, vs, a, x, v);
    var us, b, y :| StepWith(t, c, ts, us, b, y, w);
    SameJoins(t, c, ts, vs, us);
    if !(AllLocal(t, ts) && !JoinFires(t, Regions(t, ts), vs)) {
      EnterExitUnique(t, c, vs[|vs| - 1], a, x, v, b, y, w);
    }
  }

  // ---------------------------------------------------------------------- joins over a whole step

  /** Region r stays in the step: after the transitions r and everything around it are still active. */
  ghost predicate StaysAround(t: Tables, v: Config, r: nat)
    requires Cfg(t, v) && Node(t, r)
  {
    forall a {:trigger v[a]} :: Node(t, a) && Inside(t, r, a) ==> v[a]
  }

  /** The states from x outwards. */
  ghost function Spine(t: Tables, x: nat): (v: Config)
    requires Node(t, x)
    ensures Cfg(t, v) && forall a {:trigger v[a]} :: Node(t, a) ==> v[a] == Inside(t, x, a)
  {
    seq(t.n + 1, a requires 0 <= a < t.n + 1 => a != 0 && Inside(t, x, a))
  }

  lemma SpineLegal(t: Tables, x: nat)
    requires Node(t, x) && !t.sm[x]
    ensures Legal(t, Spine(t, x))
  {
    var v := Spine(t, x);
    forall s | Node(t, s) && v[s] && t.parent[s] != 0
      ensures v[t.parent[s]]
    {
      assert Node(t, t.parent[s]) && Inside(t, s, t.parent[s]);
      InsideTransitive(t, x, s, t.parent[s]);
    }
    forall s | Node(t, s) && t.sm[s] && v[s]
      ensures !EmptyIn(t, v, s)
    {
      var c := InsideChild(t, x, s);
      assert v[c];
    }
  }

  /** A machine that was active and is off in base is off afterwards, with everything inside it. */
  lemma LeftForGood(t: Tables, c: Config, base: Config, started: set<nat>, x: Config, c': Config, k: nat, s: nat)
    requires EnterExit(t, c, base, started, x, c') && Legal(t, c)
    requires Node(t, k) && c[k] && !base[k] && Node(t, s) && Inside(t, s, k)
    ensures !c'[s]
  {
    ClosureAddsOnlyNewStates(t, c, base, started, x);
    if c'[s] {
      UpwardInside(t, c', s, k);
    }
  }

  /** Once the join of r has fired, its threads stay off and its join state stays on through later joins. */
  lemma {:induction false} JoinLasts(t: Tables, regions: seq<nat>, vs: seq<Config>, i: nat, k: nat)
    requires JoinRun(t, regions, vs) && i < k <= |regions| && Fires(t, regions[i], vs[i])
    ensures vs[k][t.joinState[regions[i]]]
    ensures forall th :: IsThread(t, th, regions[i]) ==> !vs[k][th]
    decreases k
  {
    var r, q := regions[i], regions[k - 1];
    assert JoinStep(t, q, vs[k - 1], vs[k]);
    assert IsChild(t, t.joinState[r], r);
    if k - 1 > i {
      JoinLasts(t, regions, vs, i, k - 1);
    }
    forall th | IsThread(t, th, r)
      ensures !vs[k][th]
    {
      assert CanJoin(t, q) ==> IsChild(t, t.joinState[q], q);
    }
  }

  /** When the join of r fires in a step that does not leave r, the threads of r that were active are
      left with everything inside them, and r and its join state are active. */
  lemma JoinTakesThreads(t: Tables, c: Config, ts: seq<Transition>, vs: seq<Config>, i: nat, started: set<nat>,
                         x: Config, c': Config)
    requires Legal(t, c) && AllEndpointsOk(t, ts) && KernelRun(t, c, ts, vs)
    requires i < |Regions(t, ts)| && Fires(t, Regions(t, ts)[i], vs[i])
    requires StaysAround(t, vs[|vs| - 1], Regions(t, ts)[i])
    requires forall k :: IsThread(t, k, Regions(t, ts)[i]) ==> c[k]
    requires EnterExit(t, c, vs[|vs| - 1], started, x, c')
    ensures var r := Regions(t, ts)[i]; c'[r] && c'[t.joinState[r]]
    ensures forall k, s :: IsThread(t, k, Regions(t, ts)[i]) && Node(t, s) && Inside(t, s, k) ==> !c'[s]
  {
    var base, r := vs[|vs| - 1], Regions(t, ts)[i];
    JoinLasts(t, Regions(t, ts), vs, i, |vs| - 1);
    KeepsSpine(t, c, base, started, x, c', r, t.joinState[r]);
    forall k, s | IsThread(t, k, r) && Node(t, s) && Inside(t, s, k)
      ensures !c'[s]
    {
      LeftForGood(t, c, base, started, x, c', k, s);
    }
  }

  /** A plain child of r that base holds, with r and everything around it, survives the passes. */
  lemma KeepsSpine(t: Tables, c: Config, base: Config, started: set<nat>, x: Config, c': Config, r: nat, j: nat)
    requires EnterExit(t, c, base, started, x, c')
    requires Node(t, r) && StaysAround(t, base, r) && IsChild(t, j, r) && !t.sm[j] && base[j]
    ensures c'[r] && c'[j]
  {
    SpineLegal(t, j);
    var spine := Spine(t, j);
    forall a | Node(t, a) && spine[a]
      ensures x[a]
    {
      assert a == j || Inside(t, r, a);
      assert base[a];
    }
    assert Leq(spine, x);
    assert Leq(spine, c');
    assert Inside(t, r, r) && Inside(t, j, r);
    assert spine[j] && spine[r];
  }

  /** What is around an added state is added with it, or was kept. */
  lemma {:induction false} AroundAdded(t: Tables, c: Config, base: Config, started: set<nat>, x: Config, s: nat, a: nat)
    requires EnterClosure(t, c, base, started, x) && Upward(t, c) && Node(t, s) && Node(t, a)
    requires x[s] && Inside(t, s, a)
    requires forall b {:trigger c[b]} :: Node(t, b) && Inside(t, s, b) && c[b] ==> base[b]
    ensures x[a]
    decreases t.rank[s]
  {
    if s != a {
      var p := t.parent[s];
      if !c[s] {
        assert ClosedAt(t, c, x, s);
      }
      assert Inside(t, p, p);
      assert c[p] ==> base[p];
      AroundAdded(t, c, base, started, x, p, a);
    }
  }

  /** An added state stays, with what is around it and, if it is a machine, with its Initial state, if the step keeps
      what was active around it. */
  lemma AddedStays(t: Tables, c: Config, base: Config, started: set<nat>, x: Config, c': Config, s: nat)
    requires EnterExit(t, c, base, started, x, c') && Upward(t, c) && Node(t, s) && x[s] && !c[s]
    requires t.sm[s] ==> t.initial[s] != 0
    requires forall b {:trigger c[b]} :: Node(t, b) && Inside(t, s, b) && c[b] ==> base[b]
    ensures forall a {:trigger c'[a]} :: Node(t, a) && Inside(t, s, a) ==> c'[a]
    ensures t.sm[s] ==> c'[t.initial[s]]
  {
    assert ClosedAt(t, c, x, s);
    var j := if t.sm[s] then t.initial[s] else s;
    assert t.sm[s] ==> IsChild(t, j, s) && !t.sm[j];
    assert Node(t, j) && !t.sm[j] && x[j];
    var spine := Spine(t, j);
    SpineLegal(t, j);
    forall a | Node(t, a) && spine[a]
      ensures x[a]
    {
      if a != j {
        assert Inside(t, s, a);
        AroundAdded(t, c, base, started, x, s, a);
      }
    }
    assert Leq(spine, x);
    assert Leq(spine, c');
    forall a | Node(t, a) && Inside(t, s, a)
      ensures c'[a]
    {
      assert Inside(t, j, a);
      assert spine[a];
    }
    assert Inside(t, j, j);
    assert spine[j];
  }

  /** A state that the transitions enter is active after the step, with everything around it; every machine around it
      that was inactive, and a machine itself, with its Initial state; and a region that starts its threads with these
      and their Initial states. */
  lemma EnteredIsActive(t: Tables, c: Config, base: Config, started: set<nat>, x: Config, c': Config, s: nat)
    requires EnterExit(t, c, base, started, x, c') && Legal(t, c) && HasInitials(t)
    requires Node(t, s) && base[s] && !c[s]
    requires forall b {:trigger c[b]} :: Node(t, b) && Inside(t, s, b) && c[b] ==> base[b]
    ensures forall a {:trigger c'[a]} :: Node(t, a) && Inside(t, s, a) ==> c'[a]
    ensures forall a {:trigger c[a]} :: Node(t, a) && Inside(t, s, a) && t.sm[a] && !c[a] ==> c'[t.initial[a]]
    ensures
      (t.sm[s] && t.region[s] && !t.thread[s]
         && forall q {:trigger base[q]} :: Node(t, q) && q < s && base[q] && !c[q] ==> !Inside(t, q, s)) ==>
        forall k {:trigger c'[k]} ::
          Node(t, k) && t.parent[k] == s && t.sm[k] && t.thread[k] ==> c'[k] && c'[t.initial[k]]
  {
    AddedStays(t, c, base, started, x, c', s);
    forall a | Node(t, a) && Inside(t, s, a) && t.sm[a] && !c[a]
      ensures c'[t.initial[a]]
    {
      AroundAdded(t, c, base, started, x, s, a);
      forall b | Node(t, b) && Inside(t, a, b)
        ensures Inside(t, s, b)
      {
        InsideTransitive(t, s, a, b);
      }
      AddedStays(t, c, base, started, x, c', a);
    }
    if t.sm[s] && t.region[s] && !t.thread[s]
      && forall q {:trigger base[q]} :: Node(t, q) && q < s && base[q] && !c[q] ==> !Inside(t, q, s) {
      assert s in started;
      forall k | Node(t, k) && t.parent[k] == s && t.sm[k] && t.thread[k]
        ensures c'[k] && c'[t.initial[k]]
      {
        assert IsThread(t, k, s);
        assert x[k] && !c[k];
        AddedStays(t, c, base, started, x, c', k);
        assert Inside(t, k, k);
      }
    }
  }

  /** A join that is not due changes nothing: as long as a thread of r has not reached its Final state, the
      joins neither leave a thread of r nor enter its join state. */
  lemma JoinWaits(t: Tables, regions: seq<nat>, vs: seq<Config>, r: nat, x: nat)
    requires JoinRun(t, regions, vs) && Node(t, r) && Node(t, x)
    requires forall i :: 0 <= i < |regions| && regions[i] == r ==> !AllFinal(t, r, vs[i])
    requires x == t.joinState[r] || IsThread(t, x, r)
    ensures vs[|regions|][x] == vs[0][x]
  {
    if vs[|regions|][x] != vs[0][x] {
      JoinsTouch(t, regions, vs, x);
    }
  }

  // ---------------------------------------------------------------------- the main loop

  /** Configuration, `taking_epsilon_transitions`, and the values of the guards in the current system state. */
  datatype LoopState = LoopState(config: Config, eps: bool, holds: seq<bool>)

  /** What one turn of the main loop gets: nothing while it takes epsilon transitions, otherwise what it
      fetches. Before it returns an event the fetch may run assignments, frame handlers and other code: `seen`
      are the guards' values after that. A set-state message changes guards only; a queued action runs arbitrary
      code. A start directive names states. */
  datatype Input =
    | Epsilon
    | Event(ev: int, seen: seq<bool>)
    | Start(given: set<nat>)
    | SetState
    | QueuedAction
    | Restart(machines: seq<nat>, seen: seq<bool>)

  /** The guards' values with which the fetched event is handled. */
  function SeenWith(input: Input, holds: seq<bool>): seq<bool> {
    if input.Event? || input.Restart? then input.seen else holds
  }

  ghost predicate TableOk(t: Tables, trs: seq<Transition>) {
    forall j {:trigger trs[j]} ::
      0 <= j < |trs| ==> trs[j].from <= t.n && trs[j].to <= t.n && (trs[j].from != 0 ==> trs[j].to != 0)
  }

  ghost predicate LoopOk(t: Tables, trs: seq<Transition>, s: LoopState) {
    TableOk(t, trs) && Legal(t, s.config) && |s.holds| == |trs|
  }

  ghost predicate Picks(trs: seq<Transition>, fired: seq<nat>, ts: seq<Transition>) {
    |ts| == |fired| && forall i :: 0 <= i < |fired| ==> fired[i] < |trs| && ts[i] == trs[fired[i]]
  }

  /** The transitions enabled under ev are taken; without any, the phase flips. */
  ghost predicate React(t: Tables, trs: seq<Transition>, s: LoopState, ev: int, s': LoopState)
    requires LoopOk(t, trs, s)
  {
    exists fired, ts :: FiredBy(trs, s.config, ev, s.holds, fired) && Picks(trs, fired, ts)
      && if fired == [] then s'.config == s.config && s'.eps == !s.eps
         else Step(t, s.config, ts, s'.config) && s'.eps
  }

  lemma ReactsWith(t: Tables, trs: seq<Transition>, s: LoopState, ev: int, fired: seq<nat>, ts: seq<Transition>,
                   s': LoopState)
    requires LoopOk(t, trs, s) && FiredBy(trs, s.config, ev, s.holds, fired) && Picks(trs, fired, ts)
    requires if fired == [] then s'.config == s.config && s'.eps == !s.eps
             else Step(t, s.config, ts, s'.config) && s'.eps
    ensures React(t, trs, s, ev, s')
  {
  }

  /** Two enter/exit passes, first with the machines off, then with them on. */
  ghost predicate Restarted(t: Tables, c: Config, machines: seq<nat>, c': Config) {
    exists mid :: RestartedBy(t, c, machines, mid, c')
  }

  ghost predicate RestartedBy(t: Tables, c: Config, machines: seq<nat>, mid: Config, c': Config) {
    PassedWith(t, c, machines, false, mid) && PassedWith(t, mid, machines, true, c')
  }

  /** The enter/exit branch leads from c, with the given machines switched to value, to c'. */
  ghost predicate PassedWith(t: Tables, c: Config, machines: seq<nat>, value: bool, c': Config) {
    exists base, started, x :: Switched(t, c, machines, value, base) && EnterExit(t, c, base, started, x, c')
  }

  /** w is v with the given machines switched to value. */
  ghost predicate Switched(t: Tables, v: Config, machines: seq<nat>, value: bool, w: Config) {
    && Cfg(t, v) && Cfg(t, w)
    && forall s {:trigger w[s]} :: Node(t, s) ==> w[s] == if s in machines then value else v[s]
  }

  /** One turn of the main loop. Actions and handlers may change the guards' values; without an event and
      without a transition nothing runs. */
  ghost predicate Turn(t: Tables, trs: seq<Transition>, s: LoopState, input: Input, s': LoopState)
    requires LoopOk(t, trs, s)
  {
    && |s'.holds| == |trs| == |SeenWith(input, s.holds)|
    && match input
       case Epsilon => s.eps && React(t, trs, s, 0, s') && (!s'.eps ==> s'.holds == s.holds)
       case Event(ev, seen) => !s.eps && React(t, trs, s.(holds := seen), ev, s')
       case Start(given) => !s.eps && Nodes(t, given) && s'.config == StartedFrom(t, s.config, given) && s'.eps
       case SetState => !s.eps && s'.config == s.config && s'.eps
       case QueuedAction => !s.eps && s'.config == s.config && !s'.eps
       case Restart(machines, _) => !s.eps && Restarted(t, s.config, machines, s'.config) && s'.eps
  }

  /** A start directive fits the configuration; nothing else can do harm. */
  ghost predicate InputFits(t: Tables, c: Config, input: Input) {
    input.Start? ==> Cfg(t, c) && Nodes(t, input.given) && Fits(t, c, input.given)
  }

  /** A turn keeps the configuration legal exactly if it is not a start directive that does not fit. */
  lemma TurnKeepsLegal(t: Tables, trs: seq<Transition>, s: LoopState, input: Input, s': LoopState)
    requires HasInitials(t) && LoopOk(t, trs, s) && Turn(t, trs, s, input, s')
    ensures LoopOk(t, trs, s') <==> InputFits(t, s.config, input)
  {
    match input
    case Epsilon =>
      ReactKeepsLegal(t, trs, s, 0, s');
    case Event(ev, seen) =>
      ReactKeepsLegal(t, trs, s.(holds := seen), ev, s');
    case Start(given) =>
      StartKeepsLegalIff(t, s.config, given);
    case _ =>
  }

  lemma ReactKeepsLegal(t: Tables, trs: seq<Transition>, s: LoopState, ev: int, s': LoopState)
    requires LoopOk(t, trs, s) && React(t, trs, s, ev, s')
    ensures Legal(t, s'.config)
  {
    var fired, ts :| FiredBy(trs, s.config, ev, s.holds, fired) && Picks(trs, fired, ts)
      && if fired == [] then s'.config == s.config && s'.eps == !s.eps
         else Step(t, s.config, ts, s'.config) && s'.eps;
    if fired != [] {
      StepKeepsLegal(t, s.config, ts, s'.config);
    }
  }

  /** No epsilon transition can be taken. */
  ghost predicate EpsilonStable(t: Tables, trs: seq<Transition>, s: LoopState)
    requires LoopOk(t, trs, s)
  {
    forall j: nat {:trigger Enabled(trs, s.config, j, 0, s.holds)} ::
      j < |trs| ==> !(Enabled(trs, s.config, j, 0, s.holds) && Reached(trs, j))
  }

  /** The loop fetches only when all epsilon transitions have been taken. */
  ghost predicate RunsToCompletion(t: Tables, trs: seq<Transition>, s: LoopState)
    requires LoopOk(t, trs, s)
  {
    !s.eps ==> EpsilonStable(t, trs, s)
  }

  /** Some epsilon transition that can be taken in c has its guard go from false to true. */
  ghost predicate Awakened(trs: seq<Transition>, c: Config, before: seq<bool>, after: seq<bool>)
    requires |before| == |after| == |trs| && forall j :: 0 <= j < |trs| ==> trs[j].from < |c|
  {
    exists j: nat {:trigger after[j]} :: j < |trs| && !before[j] && after[j]
      && c[trs[j].from] && trs[j].ev == 0 && trs[j].guarded && !trs[j].isAbstract && Reached(trs, j)
  }

  /** Where no epsilon transition is enabled, changing guards enables one exactly by awakening it. */
  lemma StableUnlessAwakened(t: Tables, trs: seq<Transition>, s: LoopState, after: seq<bool>)
    requires LoopOk(t, trs, s) && |after| == |trs| && EpsilonStable(t, trs, s)
    ensures EpsilonStable(t, trs, s.(holds := after)) <==> !Awakened(trs, s.config, s.holds, after)
  {
    if Awakened(trs, s.config, s.holds, after) {
      var j: nat :| j < |trs| && !s.holds[j] && after[j]
        && s.config[trs[j].from] && trs[j].ev == 0 && trs[j].guarded && !trs[j].isAbstract && Reached(trs, j);
      assert Enabled(trs, s.config, j, 0, after);
    } else {
      forall j: nat | j < |trs|
        ensures !(Enabled(trs, s.config, j, 0, after) && Reached(trs, j))
      {
        assert Enabled(trs, s.config, j, 0, after) && !Enabled(trs, s.config, j, 0, s.holds) ==>
          !s.holds[j] && after[j];
      }
    }
  }

  /** The turn respects run to completion: it handles a fetched event with no epsilon transition enabled, and
      the fetch after it starts with none enabled. */
  ghost predicate Completes(t: Tables, trs: seq<Transition>, s: LoopState, input: Input, s': LoopState) {
    && LoopOk(t, trs, s) && LoopOk(t, trs, s') && |SeenWith(input, s.holds)| == |trs|
    && (input.Event? || input.Restart? ==> EpsilonStable(t, trs, s.(holds := input.seen)))
    && RunsToCompletion(t, trs, s')
  }

  /** The fetch of an event, or a queued action, makes the guard of an epsilon transition true that only waits
      for it. */
  ghost predicate Wakes(trs: seq<Transition>, s: LoopState, input: Input, s': LoopState) {
    && |s.holds| == |s'.holds| == |SeenWith(input, s.holds)| == |trs|
       && (forall j :: 0 <= j < |trs| ==> trs[j].from < |s.config|)
    && match input
       case Event(_, seen) => Awakened(trs, s.config, s.holds, seen)
       case Restart(_, seen) => Awakened(trs, s.config, s.holds, seen)
       case QueuedAction => Awakened(trs, s.config, s.holds, s'.holds)
       case _ => false
  }

  /** After run to completion so far, a turn respects it exactly if it wakes no epsilon transition. */
  lemma TurnRunsToCompletion(t: Tables, trs: seq<Transition>, s: LoopState, input: Input, s': LoopState)
    requires LoopOk(t, trs, s) && Turn(t, trs, s, input, s') && LoopOk(t, trs, s')
    requires RunsToCompletion(t, trs, s)
    ensures Completes(t, trs, s, input, s') <==> !Wakes(trs, s, input, s')
  {
    match input
    case Epsilon =>
      EpsilonPhaseEnds(t, trs, s, s');
    case Event(_, seen) =>
      StableUnlessAwakened(t, trs, s, seen);
    case Restart(_, seen) =>
      StableUnlessAwakened(t, trs, s, seen);
    case QueuedAction =>
      StableUnlessAwakened(t, trs, s, s'.holds);
      assert s.(holds := s'.holds) == s';
    case _ =>
  }

  /** The epsilon phase ends only when no epsilon transition is enabled. */
  lemma EpsilonPhaseEnds(t: Tables, trs: seq<Transition>, s: LoopState, s': LoopState)
    requires LoopOk(t, trs, s) && Turn(t, trs, s, Epsilon, s') && LoopOk(t, trs, s')
    ensures RunsToCompletion(t, trs, s')
  {
    var fired, ts :| FiredBy(trs, s.config, 0, s.holds, fired) && Picks(trs, fired, ts)
      && if fired == [] then s'.config == s.config && s'.eps == !s.eps
         else Step(t, s.config, ts, s'.config) && s'.eps;
    if !s'.eps {
      forall j: nat | j < |trs|
        ensures !(Enabled(trs, s'.config, j, 0, s'.holds) && Reached(trs, j))
      {
        assert j !in fired;
      }
    }
  }

  /** A run of the main loop from the empty configuration. */
  ghost predicate LoopRun(t: Tables, trs: seq<Transition>, states: seq<LoopState>, inputs: seq<Input>) {
    && |states| == |inputs| + 1 && TableOk(t, trs) && HasInitials(t)
    && |states[0].holds| == |trs| && !states[0].eps && states[0].config == seq(t.n + 1, _ => false)
    && forall i {:trigger inputs[i]} ::
       0 <= i < |inputs| && LoopOk(t, trs, states[i]) ==> Turn(t, trs, states[i], inputs[i], states[i + 1])
  }

  lemma NothingEnabledAtStart(t: Tables, trs: seq<Transition>, s: LoopState)
    requires LoopOk(t, trs, s) && s.config == seq(t.n + 1, _ => false)
    ensures RunsToCompletion(t, trs, s)
  {
  }

  /** The first k start directives fit. */
  ghost predicate AllFit(t: Tables, states: seq<LoopState>, inputs: seq<Input>, k: nat)
    requires |states| == |inputs| + 1 && k <= |inputs|
  {
    forall i :: 0 <= i < k ==> InputFits(t, states[i].config, inputs[i])
  }

  /** The first k turns start and end with a legal configuration. */
  ghost predicate AllLegal(t: Tables, trs: seq<Transition>, states: seq<LoopState>, k: nat)
    requires k < |states|
  {
    forall i :: 0 <= i <= k ==> LoopOk(t, trs, states[i])
  }

  /** The first k turns respect run to completion. */
  ghost predicate AllComplete(t: Tables, trs: seq<Transition>, states: seq<LoopState>, inputs: seq<Input>, k: nat)
    requires |states| == |inputs| + 1 && k <= |inputs|
  {
    forall i :: 0 <= i < k ==> Completes(t, trs, states[i], inputs[i], states[i + 1])
  }

  /** None of the first k turns wakes an epsilon transition. */
  ghost predicate NoneWakes(trs: seq<Transition>, states: seq<LoopState>, inputs: seq<Input>, k: nat)
    requires |states| == |inputs| + 1 && k <= |inputs|
  {
    forall i :: 0 <= i < k ==> !Wakes(trs, states[i], inputs[i], states[i + 1])
  }

  lemma LastLegal(t: Tables, trs: seq<Transition>, states: seq<LoopState>, inputs: seq<Input>, k: nat)
    requires |states| == |inputs| + 1 && k < |inputs|
    ensures AllFit(t, states, inputs, k + 1)
       <==> AllFit(t, states, inputs, k) && InputFits(t, states[k].config, inputs[k])
    ensures AllLegal(t, trs, states, k + 1) <==> AllLegal(t, trs, states, k) && LoopOk(t, trs, states[k + 1])
  {
  }

  lemma LastTurn(t: Tables, trs: seq<Transition>, states: seq<LoopState>, inputs: seq<Input>, k: nat)
    requires |states| == |inputs| + 1 && k < |inputs|
    ensures AllComplete(t, trs, states, inputs, k + 1)
       <==> AllComplete(t, trs, states, inputs, k) && Completes(t, trs, states[k], inputs[k], states[k + 1])
    ensures NoneWakes(trs, states, inputs, k + 1)
       <==> NoneWakes(trs, states, inputs, k) && !Wakes(trs, states[k], inputs[k], states[k + 1])
  {
  }

  /** In every run the configurations are legal exactly as long as the start directives fit. */
  lemma {:induction false} EveryRun(t: Tables, trs: seq<Transition>, states: seq<LoopState>, inputs: seq<Input>, k: nat)
    requires LoopRun(t, trs, states, inputs) && k <= |inputs|
    ensures AllLegal(t, trs, states, k) <==> AllFit(t, states, inputs, k)
  {
    if k == 0 {
      NothingLegal(t, states[0].config);
    } else {
      EveryRun(t, trs, states, inputs, k - 1);
      LastLegal(t, trs, states, inputs, k - 1);
      if AllLegal(t, trs, states, k - 1) {
        NextLegal(t, trs, states, inputs, k - 1);
      }
    }
  }

  lemma NextLegal(t: Tables, trs: seq<Transition>, states: seq<LoopState>, inputs: seq<Input>, k: nat)
    requires LoopRun(t, trs, states, inputs) && k < |inputs| && LoopOk(t, trs, states[k])
    ensures LoopOk(t, trs, states[k + 1]) <==> InputFits(t, states[k].config, inputs[k])
  {
    assert inputs[k] == inputs[k];
    TurnKeepsLegal(t, trs, states[k], inputs[k], states[k + 1]);
  }

  /** And as long as they fit, the turns respect run to completion, whatever their number, exactly as long as none of
      them wakes an epsilon transition. */
  lemma {:induction false} EveryRunCompletes(t: Tables, trs: seq<Transition>, states: seq<LoopState>,
                                             inputs: seq<Input>, k: nat)
    requires LoopRun(t, trs, states, inputs) && k <= |inputs| && AllFit(t, states, inputs, k)
    ensures LoopOk(t, trs, states[k])
    ensures AllComplete(t, trs, states, inputs, k) <==> NoneWakes(trs, states, inputs, k)
    ensures AllComplete(t, trs, states, inputs, k) ==> RunsToCompletion(t, trs, states[k])
  {
    EveryRun(t, trs, states, inputs, k);
    if k == 0 {
      NothingEnabledAtStart(t, trs, states[0]);
    } else {
      EveryRunCompletes(t, trs, states, inputs, k - 1);
      assert inputs[k - 1] == inputs[k - 1];
      LastTurn(t, trs, states, inputs, k - 1);
      if AllComplete(t, trs, states, inputs, k - 1) {
        TurnRunsToCompletion(t, trs, states[k - 1], inputs[k - 1], states[k]);
      }
    }
  }

  /** A queued action may wake transitions, and is then followed by a fetch with one of them enabled. */
  lemma QueuedActionBreaks(t: Tables, trs: seq<Transition>, s: LoopState, after: seq<bool>)
    requires LoopOk(t, trs, s) && !s.eps && |after| == |trs| && Awakened(trs, s.config, s.holds, after)
    ensures var s' := s.(holds := after);
      Turn(t, trs, s, QueuedAction, s') && LoopOk(t, trs, s') && !RunsToCompletion(t, trs, s')
  {
    var j: nat :| j < |trs| && !s.holds[j] && after[j]
      && s.config[trs[j].from] && trs[j].ev == 0 && trs[j].guarded && !trs[j].isAbstract && Reached(trs, j);
    assert Enabled(trs, s.config, j, 0, after);
  }

  /** With one guarded epsilon transition whose source is active: a queued action that makes its guard true... */
  lemma ActionWakes(t: Tables, tr: Transition, c: Config) returns (s: LoopState, s': LoopState)
    requires WaitsForGuard(t, tr, c)
    ensures s == LoopState(c, false, [false]) && LoopOk(t, [tr], s) && RunsToCompletion(t, [tr], s)
    ensures Turn(t, [tr], s, QueuedAction, s') && !Completes(t, [tr], s, QueuedAction, s')
  {
    s := LoopState(c, false, [false]);
    s' := LoopState(c, false, [true]);
    assert Enabled([tr], c, 0, 0, [true]) && Reached([tr], 0);
  }

  /** ...or an assignment in a fetch that does so, before the fetch returns an event. */
  lemma FetchWakes(t: Tables, tr: Transition, c: Config, ev: int) returns (s: LoopState, s': LoopState)
    requires WaitsForGuard(t, tr, c) && ev != 0
    ensures s == LoopState(c, false, [false]) && LoopOk(t, [tr], s) && RunsToCompletion(t, [tr], s)
    ensures Turn(t, [tr], s, Event(ev, [true]), s') && !Completes(t, [tr], s, Event(ev, [true]), s')
  {
    s := LoopState(c, false, [false]);
    s' := LoopState(c, true, [true]);
    ReactsWith(t, [tr], s.(holds := [true]), ev, [], [], s');
    assert Enabled([tr], c, 0, 0, [true]) && Reached([tr], 0);
  }

  ghost predicate WaitsForGuard(t: Tables, tr: Transition, c: Config) {
    && TableOk(t, [tr]) && Legal(t, c) && tr.from <= t.n && c[tr.from]
    && tr.ev == 0 && tr.guarded && !tr.isAbstract
  }

  /** Run to completion does fail: one machine, its Initial state with a guarded epsilon loop. */
  lemma RunToCompletionFails() returns (s: LoopState, action: LoopState, fetch: LoopState)
    ensures Wf(ONE_MACHINE) && LoopOk(ONE_MACHINE, [GUARDED_LOOP], s)
    ensures RunsToCompletion(ONE_MACHINE, [GUARDED_LOOP], s)
    ensures Turn(ONE_MACHINE, [GUARDED_LOOP], s, QueuedAction, action)
    ensures !Completes(ONE_MACHINE, [GUARDED_LOOP], s, QueuedAction, action)
    ensures Turn(ONE_MACHINE, [GUARDED_LOOP], s, Event(1, [true]), fetch)
    ensures !Completes(ONE_MACHINE, [GUARDED_LOOP], s, Event(1, [true]), fetch)
  {
    OneMachineLegal();
    s, action := ActionWakes(ONE_MACHINE, GUARDED_LOOP, [false, true, true]);
    s, fetch := FetchWakes(ONE_MACHINE, GUARDED_LOOP, [false, true, true], 1);
  }

  const GUARDED_LOOP := Transition(1, 2, 2, 0, false, true)
}
