/** Whole runs of the engine: what the calls of on_enter and on_exit add up to, which machines are exited at
    the end, and a run that ends with machines that are not. */
module Runs {
  import opened Containment
  import opened Closure
  import opened Nesting
  import opened EnteredStates
  import opened Kernel
  import opened Triggering
  import opened Samples
  import opened StartHull
  import opened Steps
  import opened Shutdown
  import opened Engine

  /** A run with the calls of each turn and the marks before and after it. */
  datatype RunData = RunData(
    t: Tables,
    trs: seq<Transition>,
    states: seq<LoopState>,
    inputs: seq<Input>,
    calls: seq<seq<Call>>,
    marks: seq<seq<bool>>)

  /** Its start directives fit, so that by EveryRun all configurations are legal. */
  ghost predicate EngineRun(r: RunData) {
    && LoopRun(r.t, r.trs, r.states, r.inputs) && AllFit(r.t, r.states, r.inputs, |r.inputs|)
    && |r.calls| == |r.inputs| && |r.marks| == |r.states|
    && forall i {:trigger r.calls[i]} ::
       0 <= i < |r.inputs| && LoopOk(r.t, r.trs, r.states[i])
         && Turn(r.t, r.trs, r.states[i], r.inputs[i], r.states[i + 1]) ==>
         TurnEffects(r.t, r.trs, r.states[i], r.inputs[i], r.states[i + 1], r.calls[i], r.marks[i], r.marks[i + 1])
  }

  type Run = r: RunData | EngineRun(r) witness RunData(NO_STATES, [], [LoopState([false], false, [])], [], [],
      [[false]])

  /** Turn k is one of the loop, with its effects. */
  ghost predicate Takes(r: Run, k: nat)
    requires k < |r.inputs|
  {
    && LoopOk(r.t, r.trs, r.states[k]) && LoopOk(r.t, r.trs, r.states[k + 1])
       && Turn(r.t, r.trs, r.states[k], r.inputs[k], r.states[k + 1])
    && TurnEffects(r.t, r.trs, r.states[k], r.inputs[k], r.states[k + 1], r.calls[k], r.marks[k], r.marks[k + 1])
  }

  lemma TurnOfRun(r: Run, k: nat)
    requires k < |r.inputs|
    ensures Takes(r, k)
  {
    LegalInRun(r, k);
    LegalInRun(r, k + 1);
    assert r.inputs[k] == r.inputs[k] && r.calls[k] == r.calls[k];
  }

  lemma LegalInRun(r: Run, k: nat)
    requires k <= |r.inputs|
    ensures LoopOk(r.t, r.trs, r.states[k])
  {
    EveryRun(r.t, r.trs, r.states, r.inputs, k);
    assert AllFit(r.t, r.states, r.inputs, k);
  }

  // ---------------------------------------------------------------------- the marks of a turn

  /** Taking the transitions enabled under ev goes through the passes. */
  ghost predicate Crossing(t: Tables, trs: seq<Transition>, c: Config, ev: int, holds: seq<bool>)
    requires TableOk(t, trs) && Legal(t, c) && |holds| == |trs|
  {
    exists fired, ts, vs :: FiredBy(trs, c, ev, holds, fired) && Picks(trs, fired, ts) && CrossingStep(t, c, ts, vs)
  }

  ghost predicate CrossingStep(t: Tables, c: Config, ts: seq<Transition>, vs: seq<Config>)
    requires Cfg(t, c)
  {
    ts != [] && AllEndpointsOk(t, ts) && KernelRun(t, c, ts, vs)
      && !(AllLocal(t, ts) && !JoinFires(t, Regions(t, ts), vs))
  }

  /** The turn takes transitions and goes through the passes for them. */
  ghost predicate Passes(t: Tables, trs: seq<Transition>, s: LoopState, input: Input) {
    && LoopOk(t, trs, s) && |SeenWith(input, s.holds)| == |trs|
    && ((input.Epsilon? && Crossing(t, trs, s.config, 0, s.holds))
         || (input.Event? && Crossing(t, trs, s.config, input.ev, input.seen)))
  }

  lemma SamePicks(trs: seq<Transition>, c: Config, ev: int, holds: seq<bool>, fired: seq<nat>, ts: seq<Transition>,
                  fired': seq<nat>, ts': seq<Transition>)
    requires |holds| == |trs| && forall j :: 0 <= j < |trs| ==> trs[j].from < |c|
    requires FiredBy(trs, c, ev, holds, fired) && Picks(trs, fired, ts) && FiredBy(trs, c, ev, holds, fired')
    requires Picks(trs, fired', ts')
    ensures fired == fired' && ts == ts'
  {
    FiredUnique(fired, fired');
  }

  /** Whether a reaction goes through the passes is decided by any of its kernel runs. */
  lemma CrossingIs(t: Tables, trs: seq<Transition>, c: Config, ev: int, holds: seq<bool>, fired: seq<nat>,
                   ts: seq<Transition>, vs: seq<Config>)
    requires TableOk(t, trs) && Legal(t, c) && |holds| == |trs|
    requires FiredBy(trs, c, ev, holds, fired) && Picks(trs, fired, ts) && AllEndpointsOk(t, ts)
    requires KernelRun(t, c, ts, vs)
    ensures Crossing(t, trs, c, ev, holds) <==> CrossingStep(t, c, ts, vs)
  {
    if Crossing(t, trs, c, ev, holds) {
      var fired', ts', us :| FiredBy(trs, c, ev, holds, fired') && Picks(trs, fired', ts')
        && CrossingStep(t, c, ts', us);
      SamePicks(trs, c, ev, holds, fired, ts, fired', ts');
      SameJoins(t, c, ts, vs, us);
    }
  }

  lemma NoCrossing(t: Tables, trs: seq<Transition>, c: Config, ev: int, holds: seq<bool>)
    requires TableOk(t, trs) && Legal(t, c) && |holds| == |trs| && FiredBy(trs, c, ev, holds, [])
    ensures !Crossing(t, trs, c, ev, holds)
  {
    if Crossing(t, trs, c, ev, holds) {
      var fired', ts', us :| FiredBy(trs, c, ev, holds, fired') && Picks(trs, fired', ts')
        && CrossingStep(t, c, ts', us);
      SamePicks(trs, c, ev, holds, [], [], fired', ts');
      assert false;
    }
  }

  /** A step without passes enters and leaves no machine. */
  lemma LocalKeepsMachines(t: Tables, c: Config, ts: seq<Transition>, vs: seq<Config>, c': Config)
    requires Step(t, c, ts, c') && AllEndpointsOk(t, ts) && KernelRun(t, c, ts, vs)
    requires AllLocal(t, ts) && !JoinFires(t, Regions(t, ts), vs)
    ensures Cfg(t, c') && SameMachines(t, c, c')
  {
    var us, started, x :| StepWith(t, c, ts, us, started, x, c');
    SameJoins(t, c, ts, vs, us);
    LocalStep(t, c, ts, vs);
  }

  /** Passes from c to c' have left these marks. */
  ghost predicate Repassed(t: Tables, c: Config, c': Config, marks: seq<bool>) {
    exists base :: PassedMarks(t, c, base, c', marks)
  }

  /** What reacting to an event does to the marks: passes set them anew, anything else keeps marks and machines. */
  lemma ReactionMarks(t: Tables, trs: seq<Transition>, s: LoopState, ev: int, s': LoopState, calls: seq<Call>,
                      marks: seq<bool>, marks': seq<bool>)
    requires LoopOk(t, trs, s) && React(t, trs, s, ev, s') && Reacted(t, trs, s, ev, s', calls, marks, marks')
    ensures if Crossing(t, trs, s.config, ev, s.holds) then Repassed(t, s.config, s'.config, marks')
            else marks' == marks && SameMachines(t, s.config, s'.config)
  {
    var c, c' := s.config, s'.config;
    var fired, ts :| FiredBy(trs, c, ev, s.holds, fired) && Picks(trs, fired, ts)
      && if fired == [] then c' == c && s'.eps == !s.eps else Step(t, c, ts, c') && s'.eps;
    var fired', ts' :| FiredBy(trs, c, ev, s.holds, fired') && Picks(trs, fired', ts')
      && StepCalls(t, c, c', fired', calls)
      && if fired' == [] then marks' == marks else StepMarks(t, c, ts', c', marks, marks');
    SamePicks(trs, c, ev, s.holds, fired, ts, fired', ts');
    if fired == [] {
      NoCrossing(t, trs, c, ev, s.holds);
    } else {
      var vs :| StepMarksWith(t, c, ts, vs, c', marks, marks');
      CrossingIs(t, trs, c, ev, s.holds, fired, ts, vs);
      if AllLocal(t, ts) && !JoinFires(t, Regions(t, ts), vs) {
        LocalKeepsMachines(t, c, ts, vs, c');
      }
    }
  }

  /** Where the last passes of a turn begin: in its configuration, or in the one between the passes of a restart. */
  ghost predicate BeforePasses(t: Tables, trs: seq<Transition>, s: LoopState, input: Input, c: Config) {
    if input.Restart? then PassedWith(t, s.config, input.machines, false, c)
      else c == s.config && Passes(t, trs, s, input)
  }

  /** The marks after a turn: passes set them anew, any other turn keeps them; and apart from start directives it keeps
      the machines. */
  lemma TurnMarks(t: Tables, trs: seq<Transition>, s: LoopState, input: Input, s': LoopState, calls: seq<Call>,
                  marks: seq<bool>, marks': seq<bool>)
    requires LoopOk(t, trs, s) && LoopOk(t, trs, s') && Turn(t, trs, s, input, s')
    requires TurnEffects(t, trs, s, input, s', calls, marks, marks')
    ensures if input.Restart? || Passes(t, trs, s, input)
            then exists c :: BeforePasses(t, trs, s, input, c) && Repassed(t, c, s'.config, marks')
            else marks' == marks && (!input.Start? ==> SameMachines(t, s.config, s'.config))
  {
    match input
    case Epsilon => ReactionMarks(t, trs, s, 0, s', calls, marks, marks');
    case Event(ev, seen) => ReactionMarks(t, trs, s.(holds := seen), ev, s', calls, marks, marks');
    case Restart(machines, seen) =>
      var fired :| FiredBy(trs, s.config, 0, seen, fired)
        && RestartEffects(t, s.config, machines, fired, s'.config, calls, marks');
      RestartMarks(t, s.config, machines, fired, s'.config, calls, marks');
    case _ =>
  }

  lemma RestartMarks(t: Tables, c: Config, machines: seq<nat>, fired: seq<nat>, c': Config, calls: seq<Call>,
                     marks': seq<bool>)
    requires RestartEffects(t, c, machines, fired, c', calls, marks')
    ensures exists mid :: PassedWith(t, c, machines, false, mid) && Repassed(t, mid, c', marks')
  {
    var mid, off, on, marks :| calls == off + on && SwitchStep(t, c, machines, false, fired, mid, off, marks)
      && SwitchStep(t, mid, machines, true, fired, c', on, marks');
    SwitchPasses(t, c, machines, false, mid, marks);
    var base :| Switched(t, mid, machines, true, base) && PassedMarks(t, mid, base, c', marks');
  }

  /** Turn k takes no transition through the passes and restarts nothing. */
  ghost predicate KeepsMarks(r: Run, k: nat)
    requires k < |r.inputs|
  {
    !r.inputs[k].Restart? && !Passes(r.t, r.trs, r.states[k], r.inputs[k])
  }

  /** So do turns i to k, and unless `starts` they start nothing either. */
  ghost predicate KeepMarks(r: Run, i: nat, k: nat, starts: bool)
    requires k <= |r.inputs|
  {
    forall j {:trigger r.inputs[j]} :: i <= j < k ==> KeepsMarks(r, j) && (starts || !r.inputs[j].Start?)
  }

  lemma MarksKept(r: Run, k: nat)
    requires k < |r.inputs| && KeepsMarks(r, k)
    ensures r.marks[k + 1] == r.marks[k]
    ensures Cfg(r.t, r.states[k].config) && Cfg(r.t, r.states[k + 1].config)
    ensures !r.inputs[k].Start? ==> SameMachines(r.t, r.states[k].config, r.states[k + 1].config)
  {
    TurnOfRun(r, k);
    TurnMarks(r.t, r.trs, r.states[k], r.inputs[k], r.states[k + 1], r.calls[k], r.marks[k], r.marks[k + 1]);
  }

  lemma KeptAt(r: Run, i: nat, k: nat, starts: bool, j: nat)
    requires i <= j < k <= |r.inputs| && KeepMarks(r, i, k, starts)
    ensures KeepsMarks(r, j) && (starts || !r.inputs[j].Start?)
  {
    assert r.inputs[j] == r.inputs[j];
  }

  lemma MarksStay(r: Run, i: nat, k: nat, starts: bool)
    requires i <= k <= |r.inputs| && KeepMarks(r, i, k, starts)
    ensures r.marks[k] == r.marks[i]
  {
    forall j: nat | i <= j < k
      ensures r.marks[j + 1] == r.marks[j]
    {
      KeptAt(r, i, k, starts, j);
      MarksKept(r, j);
    }
    Unchanged(r.marks, i, k);
  }

  lemma {:induction false} Unchanged(marks: seq<seq<bool>>, i: nat, k: nat)
    requires i <= k < |marks| && forall j {:trigger marks[j]} :: i <= j < k ==> marks[j + 1] == marks[j]
    ensures marks[k] == marks[i]
    decreases k
  {
    if i < k {
      Unchanged(marks, i, k - 1);
    }
  }

  lemma MachinesStay(r: Run, i: nat, k: nat)
    requires i <= k <= |r.inputs| && KeepMarks(r, i, k, false)
    ensures Cfg(r.t, r.states[i].config) && Cfg(r.t, r.states[k].config)
    ensures SameMachines(r.t, r.states[i].config, r.states[k].config)
  {
    LegalInRun(r, i);
    forall j: nat | i <= j < k
      ensures SameAt(r.t, r.states, j)
    {
      KeptAt(r, i, k, false, j);
      MarksKept(r, j);
    }
    SameFrom(r.t, r.states, i, k);
  }

  /** Turn j keeps the machines. */
  ghost predicate SameAt(t: Tables, states: seq<LoopState>, j: nat)
    requires j + 1 < |states|
  {
    Cfg(t, states[j].config) && Cfg(t, states[j + 1].config) && SameMachines(t, states[j].config, states[j + 1].config)
  }

  lemma {:induction false} SameFrom(t: Tables, states: seq<LoopState>, i: nat, k: nat)
    requires i <= k < |states| && Cfg(t, states[i].config)
    requires forall j {:trigger SameAt(t, states, j)} :: i <= j < k ==> SameAt(t, states, j)
    ensures Cfg(t, states[k].config) && SameMachines(t, states[i].config, states[k].config)
    decreases k
  {
    if i < k {
      SameFrom(t, states, i, k - 1);
      assert SameAt(t, states, k - 1);
      SameTwice(t, states[i].config, states[k - 1].config, states[k].config);
    }
  }

  lemma SameTwice(t: Tables, u: Config, v: Config, w: Config)
    requires Cfg(t, u) && Cfg(t, v) && Cfg(t, w) && SameMachines(t, u, v) && SameMachines(t, v, w)
    ensures SameMachines(t, u, w)
  {
  }

  /** Turn i is a restart or goes through the passes. */
  ghost predicate SetsMarks(r: Run, i: nat)
    requires i < |r.inputs|
  {
    r.inputs[i].Restart? || Passes(r.t, r.trs, r.states[i], r.inputs[i])
  }

  /** The last passes of turn i begin in c, enter x and end the turn. */
  ghost predicate LastPasses(r: Run, i: nat, c: Config, x: Config)
    requires i < |r.inputs|
  {
    && Legal(r.t, c) && BeforePasses(r.t, r.trs, r.states[i], r.inputs[i], c)
    && PassedOver(r.t, c, x, r.states[i + 1].config, r.marks[i + 1])
  }

  lemma MarksSet(r: Run, i: nat) returns (c: Config, x: Config)
    requires i < |r.inputs| && SetsMarks(r, i)
    ensures LastPasses(r, i, c, x)
  {
    TurnOfRun(r, i);
    TurnMarks(r.t, r.trs, r.states[i], r.inputs[i], r.states[i + 1], r.calls[i], r.marks[i], r.marks[i + 1]);
    c :| BeforePasses(r.t, r.trs, r.states[i], r.inputs[i], c)
      && Repassed(r.t, c, r.states[i + 1].config, r.marks[i + 1]);
    var base :| PassedMarks(r.t, c, base, r.states[i + 1].config, r.marks[i + 1]);
    var started;
    started, x :| PassedBy(r.t, c, base, started, x, r.states[i + 1].config, r.marks[i + 1]);
    if r.inputs[i].Restart? {
      LegalBetween(r.t, r.states[i].config, r.inputs[i].machines, c);
    }
  }

  lemma LegalBetween(t: Tables, c: Config, machines: seq<nat>, mid: Config)
    requires PassedWith(t, c, machines, false, mid)
    ensures Legal(t, mid)
  {
    var base, started, x :| Switched(t, c, machines, false, base) && EnterExit(t, c, base, started, x, mid);
  }

  /** What is exited at the end of a run after k turns, whose last passes began in c and entered x. */
  ghost predicate ExitsAre(r: Run, i: nat, k: nat, c: Config, x: Config, m: nat)
    requires i < k <= |r.inputs| && Node(r.t, m)
  {
    var (after, end) := (r.states[i + 1].config, r.states[k].config);
    && Cfg(r.t, c) && Cfg(r.t, x) && Cfg(r.t, after) && Cfg(r.t, end) && |r.marks[k]| == r.t.n + 1
    && (OpenUp(r.t, Unmarked(r.t, end, r.marks[k]), m)
        <==> end[m] && !SameMachines(r.t, c, after) && !MovedAround(r.t, c, x, after, m))
  }

  lemma ExitedSince(r: Run, i: nat, k: nat, c: Config, x: Config, m: nat)
    requires i < k <= |r.inputs| && Node(r.t, m) && r.t.sm[m] && r.marks[k] == r.marks[i + 1] && Legal(r.t, c)
    requires PassedOver(r.t, c, x, r.states[i + 1].config, r.marks[i + 1])
    ensures ExitsAre(r, i, k, c, x, m)
  {
    var base, started :| PassedBy(r.t, c, base, started, x, r.states[i + 1].config, r.marks[i + 1]);
    LegalInRun(r, k);
    ExitedAtEnd(r.t, c, base, started, x, r.states[i + 1].config, r.states[k].config, r.marks[k], m);
  }

  /** A run that ends after k turns, of which turn i was the last to restart or to go through the passes: on_exit runs
      for exactly the active machines that neither are among the machines moved by these passes nor lie inside one,
      whatever was started since; and for none if the passes entered and left no machine. */
  lemma ExitedAfterRun(r: Run, i: nat, k: nat, m: nat) returns (c: Config, x: Config)
    requires i < k <= |r.inputs| && SetsMarks(r, i) && KeepMarks(r, i + 1, k, true)
    requires Node(r.t, m) && r.t.sm[m]
    ensures LastPasses(r, i, c, x) && ExitsAre(r, i, k, c, x, m)
  {
    c, x := MarksSet(r, i);
    MarksStay(r, i + 1, k, true);
    ExitedSince(r, i, k, c, x, m);
  }

  /** If nothing was started since, on_exit runs for exactly the machines that were active before those passes and
      still are. */
  lemma ExitedAfterQuietRun(r: Run, i: nat, k: nat, m: nat) returns (c: Config, x: Config)
    requires i < k <= |r.inputs| && SetsMarks(r, i) && KeepMarks(r, i + 1, k, false)
    requires Node(r.t, m) && r.t.sm[m]
    ensures LastPasses(r, i, c, x) && Cfg(r.t, r.states[i + 1].config) && Cfg(r.t, r.states[k].config)
    ensures |r.marks[k]| == r.t.n + 1
    ensures OpenUp(r.t, Unmarked(r.t, r.states[k].config, r.marks[k]), m)
       <==> r.states[k].config[m] && c[m] && !SameMachines(r.t, c, r.states[i + 1].config)
  {
    c, x := MarksSet(r, i);
    MarksStay(r, i + 1, k, false);
    MachinesStay(r, i + 1, k);
    KeptSince(r, i, k, c, x, m);
  }

  lemma KeptSince(r: Run, i: nat, k: nat, c: Config, x: Config, m: nat)
    requires i < k <= |r.inputs| && Node(r.t, m) && r.t.sm[m] && r.marks[k] == r.marks[i + 1] && Legal(r.t, c)
    requires PassedOver(r.t, c, x, r.states[i + 1].config, r.marks[i + 1])
    requires Cfg(r.t, r.states[i + 1].config) && Cfg(r.t, r.states[k].config)
    requires SameMachines(r.t, r.states[i + 1].config, r.states[k].config)
    ensures |r.marks[k]| == r.t.n + 1
    ensures OpenUp(r.t, Unmarked(r.t, r.states[k].config, r.marks[k]), m)
       <==> r.states[k].config[m] && c[m] && !SameMachines(r.t, c, r.states[i + 1].config)
  {
    var base, started :| PassedBy(r.t, c, base, started, x, r.states[i + 1].config, r.marks[i + 1]);
    LegalInRun(r, k);
    ExitedIfKept(r.t, c, base, started, x, r.states[i + 1].config, r.states[k].config, r.marks[k], m);
  }

  /** A run in which no turn goes through the passes exits all active machines at its end. */
  lemma ExitedWithoutPasses(r: Run, k: nat)
    requires k <= |r.inputs| && KeepMarks(r, 0, k, true)
    requires r.marks[0] == seq(r.t.n + 1, _ => false)
    ensures Legal(r.t, r.states[k].config) && |r.marks[k]| == r.t.n + 1
    ensures forall m ::
      Node(r.t, m) && r.t.sm[m] && r.states[k].config[m] ==>
        OpenUp(r.t, Unmarked(r.t, r.states[k].config, r.marks[k]), m)
  {
    LegalInRun(r, k);
    MarksStay(r, 0, k, true);
    LeavesAllIffUnmarked(r.t, r.states[k].config, r.marks[k]);
  }

  // ---------------------------------------------------------------------- enters against exits

  /** How many more times on_enter than on_exit of m is called. */
  ghost function Balance(calls: seq<Call>, m: nat): int {
    multiset(calls)[OnEnter(m)] as int - multiset(calls)[OnExit(m)] as int
  }

  function On(active: bool): int {
    if active then 1 else 0
  }

  function At(c: Config, m: nat): bool {
    m < |c| && c[m]
  }

  lemma BalanceAdds(a: seq<Call>, b: seq<Call>, m: nat)
    ensures Balance(a + b, m) == Balance(a, m) + Balance(b, m)
  {
  }

  ghost predicate NoRepeats(q: seq<nat>) {
    forall i, j :: 0 <= i < j < |q| ==> q[i] != q[j]
  }

  lemma {:induction false} Counted(q: seq<nat>, m: nat)
    requires NoRepeats(q)
    ensures Balance(EnterCalls(q), m) == On(m in q) && Balance(ExitCalls(q), m) == 0 - On(m in q)
    decreases |q|
  {
    if q != [] {
      var last := |q| - 1;
      Counted(q[..last], m);
      assert q == q[..last] + [q[last]];
      assert EnterCalls(q) == EnterCalls(q[..last]) + [OnEnter(q[last])];
      assert ExitCalls(q) == ExitCalls(q[..last]) + [OnExit(q[last])];
    }
  }

  lemma {:induction false} FiresBalance(fired: seq<nat>, m: nat)
    ensures Balance(FireCalls(fired), m) == 0
    decreases |fired|
  {
    if fired != [] {
      var last := |fired| - 1;
      FiresBalance(fired[..last], m);
      assert FireCalls(fired) == FireCalls(fired[..last]) + [Fire(fired[last])];
    }
  }

  /** A step calls on_enter of m once more than on_exit exactly as it makes m active, and the reverse. */
  lemma StepBalance(t: Tables, c: Config, c': Config, fired: seq<nat>, calls: seq<Call>, m: nat)
    requires Cfg(t, c) && Cfg(t, c') && StepCalls(t, c, c', fired, calls) && Node(t, m) && t.sm[m]
    ensures Balance(calls, m) == On(c'[m]) - On(c[m])
  {
    var exits, enters :| StepCallsWith(t, c, c', fired, calls, exits, enters);
    FirstOnce(t, exits);
    FirstOnce(t, enters);
    Counted(exits, m);
    Counted(enters, m);
    FiresBalance(fired, m);
    BalanceAdds(ExitCalls(exits) + FireCalls(fired), EnterCalls(enters), m);
    BalanceAdds(ExitCalls(exits), FireCalls(fired), m);
  }

  lemma FirstOnce(t: Tables, q: seq<nat>)
    requires InnermostFirst(t, q)
    ensures NoRepeats(q)
  {
    forall i, j | 0 <= i < j < |q|
      ensures q[i] != q[j]
    {
      assert Inside(t, q[i], q[i]) && !Inside(t, q[j], q[i]);
    }
  }

  /** What a start directive in configuration c calls too much or leaves out: it calls on_enter of the machines that
      own the states it names, and makes the started machines active. */
  ghost function Drift(t: Tables, input: Input, c: Config, m: nat): int {
    if input.Start? && Cfg(t, c) && Nodes(t, input.given) && Node(t, m) then
      On(m in OwnersOf(t, input.given)) - On(Activates(t, c, input.given, m))
    else 0
  }

  lemma StartBalance(t: Tables, c: Config, given: set<nat>, calls: seq<Call>, m: nat)
    requires Cfg(t, c) && Nodes(t, given) && StartCalls(t, given, calls) && Node(t, m) && t.sm[m]
    ensures Balance(calls, m) == On(StartedFrom(t, c, given)[m]) - On(c[m]) + Drift(t, Start(given), c, m)
  {
    var owners :| Lists(owners, OwnersOf(t, given)) && calls == EnterCalls(owners);
    Counted(owners, m);
    ActivatesIff(t, c, given, m);
  }

  /** A start directive calls on_enter of every machine as it becomes active, and of no other, exactly if the owners of
      the states it names are the started machines that are not active yet. */
  lemma StartBalancesIff(t: Tables, c: Config, given: set<nat>, calls: seq<Call>)
    requires Cfg(t, c) && Nodes(t, given) && StartCalls(t, given, calls)
    ensures (forall m: nat {:trigger Balance(calls, m)} :: Node(t, m) && t.sm[m] ==>
               Balance(calls, m) == On(StartedFrom(t, c, given)[m]) - On(c[m]))
       <==> (forall m: nat {:trigger Activates(t, c, given, m)} :: Node(t, m) && t.sm[m] ==>
               (m in OwnersOf(t, given) <==> Activates(t, c, given, m)))
  {
    forall m: nat | Node(t, m) && t.sm[m]
      ensures Balance(calls, m) == On(StartedFrom(t, c, given)[m]) - On(c[m])
         <==> (m in OwnersOf(t, given) <==> Activates(t, c, given, m))
    {
      StartBalance(t, c, given, calls, m);
    }
  }

  lemma TurnBalance(t: Tables, trs: seq<Transition>, s: LoopState, input: Input, s': LoopState, calls: seq<Call>,
                    marks: seq<bool>, marks': seq<bool>, m: nat)
    requires LoopOk(t, trs, s) && LoopOk(t, trs, s') && Turn(t, trs, s, input, s')
    requires TurnEffects(t, trs, s, input, s', calls, marks, marks') && Node(t, m) && t.sm[m]
    ensures Balance(calls, m) == On(s'.config[m]) - On(s.config[m]) + Drift(t, input, s.config, m)
  {
    match input
    case Epsilon => ReactedBalance(t, trs, s, 0, s', calls, marks, marks', m);
    case Event(ev, seen) => ReactedBalance(t, trs, s.(holds := seen), ev, s', calls, marks, marks', m);
    case Start(given) => StartBalance(t, s.config, given, calls, m);
    case Restart(machines, seen) =>
      var fired :| FiredBy(trs, s.config, 0, seen, fired)
        && RestartEffects(t, s.config, machines, fired, s'.config, calls, marks');
      RestartBalance(t, s.config, machines, fired, s'.config, calls, marks', m);
    case _ =>
  }

  lemma ReactedBalance(t: Tables, trs: seq<Transition>, s: LoopState, ev: int, s': LoopState, calls: seq<Call>,
                       marks: seq<bool>, marks': seq<bool>, m: nat)
    requires LoopOk(t, trs, s) && Reacted(t, trs, s, ev, s', calls, marks, marks') && Node(t, m) && t.sm[m]
    ensures Balance(calls, m) == On(s'.config[m]) - On(s.config[m])
  {
    var fired :| StepCalls(t, s.config, s'.config, fired, calls);
    StepBalance(t, s.config, s'.config, fired, calls, m);
  }

  lemma RestartBalance(t: Tables, c: Config, machines: seq<nat>, fired: seq<nat>, c': Config, calls: seq<Call>,
                       marks': seq<bool>, m: nat)
    requires RestartEffects(t, c, machines, fired, c', calls, marks') && Node(t, m) && t.sm[m]
    ensures |c| == |c'| == t.n + 1 && Balance(calls, m) == On(c'[m]) - On(c[m])
  {
    var mid, off, on, marks :| calls == off + on && SwitchStep(t, c, machines, false, fired, mid, off, marks)
      && SwitchStep(t, mid, machines, true, fired, c', on, marks');
    StepBalance(t, c, mid, fired, off, m);
    StepBalance(t, mid, c', fired, on, m);
    BalanceAdds(off, on, m);
  }

  ghost function RunBalance(calls: seq<seq<Call>>, m: nat, k: nat): int
    requires k <= |calls|
  {
    if k == 0 then 0 else RunBalance(calls, m, k - 1) + Balance(calls[k - 1], m)
  }

  ghost function RunDrift(t: Tables, states: seq<LoopState>, inputs: seq<Input>, m: nat, k: nat): int
    requires k <= |inputs| < |states|
  {
    if k == 0 then 0 else RunDrift(t, states, inputs, m, k - 1) + Drift(t, inputs[k - 1], states[k - 1].config, m)
  }

  /** Over every run on_enter and on_exit of a machine balance up to whether it is active, except for what start
      directives add or leave out. */
  lemma CallsBalance(r: Run, m: nat, k: nat)
    requires k <= |r.inputs| && Node(r.t, m) && r.t.sm[m]
    ensures RunBalance(r.calls, m, k) == On(At(r.states[k].config, m)) + RunDrift(r.t, r.states, r.inputs, m, k)
  {
    forall i: nat | i < k
      ensures TurnBalances(r.t, r.states[i], r.inputs[i], r.states[i + 1], r.calls[i], m)
    {
      TurnBalanced(r, m, i);
    }
    assert !At(r.states[0].config, m);
    SumsBalance(r.t, r.states, r.inputs, r.calls, m, k);
  }

  ghost predicate TurnBalances(t: Tables, s: LoopState, input: Input, s': LoopState, calls: seq<Call>, m: nat) {
    Balance(calls, m) == On(At(s'.config, m)) - On(At(s.config, m)) + Drift(t, input, s.config, m)
  }

  lemma {:induction false} SumsBalance(t: Tables, states: seq<LoopState>, inputs: seq<Input>, calls: seq<seq<Call>>,
                                       m: nat, k: nat)
    requires |states| == |inputs| + 1 && |calls| == |inputs| && k <= |inputs|
    requires forall i {:trigger calls[i]} ::
      0 <= i < k ==> TurnBalances(t, states[i], inputs[i], states[i + 1], calls[i], m)
    ensures RunBalance(calls, m, k)
         == On(At(states[k].config, m)) - On(At(states[0].config, m)) + RunDrift(t, states, inputs, m, k)
    decreases k
  {
    if k > 0 {
      SumsBalance(t, states, inputs, calls, m, k - 1);
      assert calls[k - 1] == calls[k - 1];
    }
  }

  lemma TurnBalanced(r: Run, m: nat, k: nat)
    requires k < |r.inputs| && Node(r.t, m) && r.t.sm[m]
    ensures TurnBalances(r.t, r.states[k], r.inputs[k], r.states[k + 1], r.calls[k], m)
  {
    TurnOfRun(r, k);
    TurnBalance(r.t, r.trs, r.states[k], r.inputs[k], r.states[k + 1], r.calls[k], r.marks[k], r.marks[k + 1], m);
  }

  // ---------------------------------------------------------------------- a machine that is not exited

  /** An event's transition from a machine to itself, as the only transition there is. */
  ghost predicate SelfTransition(t: Tables, tr: Transition) {
    Node(t, tr.from) && t.sm[tr.from] && tr.to == tr.from && !t.final[tr.from] && tr.ev != 0 && !tr.isAbstract
      && !tr.guarded
  }

  /** Passes over an unchanged legal configuration change nothing. */
  lemma NothingMoves(t: Tables, c: Config, started: set<nat>, x: Config, c': Config)
    requires Legal(t, c) && EnterExit(t, c, c, started, x, c')
    ensures c' == c
  {
    assert Closed(t, c, c, started);
    assert Leq(x, c);
    assert Leq(c, c');
  }

  lemma SelfKernel(t: Tables, c: Config, tr: Transition, vs: seq<Config>)
    requires Cfg(t, c) && SelfTransition(t, tr) && c[tr.from] && AllEndpointsOk(t, [tr]) && KernelRun(t, c, [tr], vs)
    ensures |vs| == 1 && vs[0] == c && !AllLocal(t, [tr])
  {
    assert Regions(t, [tr][..0]) == [];
    assert Moves(t, c, [tr][..0]) == c;
    assert Move(c, tr) == c;
    assert Crosses(t, [tr][0]);
  }

  /** A machine's transition to itself goes through the passes without effect... */
  lemma SelfStep(t: Tables, c: Config, tr: Transition, c': Config)
    requires SelfTransition(t, tr) && Legal(t, c) && c[tr.from] && Step(t, c, [tr], c')
    ensures c' == c
  {
    var vs, started, x :| StepWith(t, c, [tr], vs, started, x, c');
    SelfKernel(t, c, tr, vs);
    NothingMoves(t, c, started, x, c');
  }

  ghost predicate AllMarked(t: Tables, marks: seq<bool>) {
    |marks| == t.n + 1 && forall m {:trigger marks[m]} :: Node(t, m) && t.sm[m] ==> marks[m]
  }

  /** ...and so every machine stays marked. */
  lemma SelfMarks(t: Tables, c: Config, tr: Transition, marks: seq<bool>, marks': seq<bool>)
    requires SelfTransition(t, tr) && Legal(t, c) && c[tr.from] && StepMarks(t, c, [tr], c, marks, marks')
    ensures AllMarked(t, marks')
  {
    var vs :| StepMarksWith(t, c, [tr], vs, c, marks, marks');
    SelfKernel(t, c, tr, vs);
    var started, x :| PassedBy(t, c, c, started, x, c, marks');
    assert SameMachines(t, c, c);
  }

  /** Without epsilon transitions the epsilon phase ends at once. */
  lemma IdleTurn(t: Tables, tr: Transition, s: LoopState, s': LoopState, calls: seq<Call>, marks: seq<bool>,
                 marks': seq<bool>)
    requires LoopOk(t, [tr], s) && EndpointsOk(t, tr) && tr.ev != 0 && Turn(t, [tr], s, Epsilon, s')
    requires TurnEffects(t, [tr], s, Epsilon, s', calls, marks, marks')
    ensures s' == s.(eps := false) && calls == []
  {
    var fired, ts :| FiredBy([tr], s.config, 0, s.holds, fired) && Picks([tr], fired, ts)
      && if fired == [] then s'.config == s.config && s'.eps == !s.eps
         else Step(t, s.config, ts, s'.config) && s'.eps;
    NoneFires(tr, s.config, s.holds, fired);
    var fired', ts' :| FiredBy([tr], s.config, 0, s.holds, fired') && Picks([tr], fired', ts')
      && StepCalls(t, s.config, s'.config, fired', calls);
    NoneFires(tr, s.config, s.holds, fired');
    NoMachineCalls(t, s.config, fired', calls);
  }

  lemma NoneFires(tr: Transition, c: Config, holds: seq<bool>, fired: seq<nat>)
    requires tr.from < |c| && |holds| == 1 && tr.ev != 0 && FiredBy([tr], c, 0, holds, fired)
    ensures fired == []
  {
    if fired != [] {
      var j := Some(fired);
      assert false;
    }
  }

  lemma Some(q: seq<nat>) returns (m: nat)
    requires q != []
    ensures m in q
  {
    m := q[0];
  }

  lemma OneFires(tr: Transition, c: Config, holds: seq<bool>, fired: seq<nat>)
    requires tr.from < |c| && |holds| == 1 && c[tr.from] && tr.ev != 0 && !tr.isAbstract && !tr.guarded
    requires FiredBy([tr], c, tr.ev, holds, fired)
    ensures fired == [0]
  {
    assert Enabled([tr], c, 0, tr.ev, holds) && Reached([tr], 0);
    FiredUnique(fired, [0]);
  }

  /** A step that enters and leaves no machine only runs its actions. */
  lemma NoMachineCalls(t: Tables, c: Config, fired: seq<nat>, calls: seq<Call>)
    requires Cfg(t, c) && StepCalls(t, c, c, fired, calls)
    ensures calls == FireCalls(fired)
  {
    var exits, enters :| StepCallsWith(t, c, c, fired, calls, exits, enters);
    if exits != [] {
      var m := Some(exits);
      assert false;
    }
    if enters != [] {
      var m := Some(enters);
      assert false;
    }
    assert ExitCalls([]) + FireCalls(fired) + EnterCalls([]) == FireCalls(fired);
  }

  lemma SelfReact(t: Tables, tr: Transition, s: LoopState, s': LoopState)
    requires LoopOk(t, [tr], s) && SelfTransition(t, tr) && s.config[tr.from] && React(t, [tr], s, tr.ev, s')
    ensures s'.config == s.config
  {
    var fired, ts :| FiredBy([tr], s.config, tr.ev, s.holds, fired) && Picks([tr], fired, ts)
      && if fired == [] then s'.config == s.config && s'.eps == !s.eps
         else Step(t, s.config, ts, s'.config) && s'.eps;
    OneFires(tr, s.config, s.holds, fired);
    assert ts == [tr];
    SelfStep(t, s.config, tr, s'.config);
  }

  lemma SelfReacted(t: Tables, tr: Transition, s: LoopState, s': LoopState, calls: seq<Call>, marks: seq<bool>,
                    marks': seq<bool>)
    requires LoopOk(t, [tr], s) && SelfTransition(t, tr) && s.config[tr.from] && s'.config == s.config
    requires Reacted(t, [tr], s, tr.ev, s', calls, marks, marks')
    ensures calls == [Fire(0)] && AllMarked(t, marks')
  {
    var fired, ts :| FiredBy([tr], s.config, tr.ev, s.holds, fired) && Picks([tr], fired, ts)
      && StepCalls(t, s.config, s'.config, fired, calls)
      && if fired == [] then marks' == marks else StepMarks(t, s.config, ts, s'.config, marks, marks');
    OneFires(tr, s.config, s.holds, fired);
    assert ts == [tr];
    SelfMarks(t, s.config, tr, marks, marks');
    NoMachineCalls(t, s.config, fired, calls);
    assert FireCalls([0]) == [Fire(0)];
  }

  lemma NoneOpen(t: Tables, c: Config, marks: seq<bool>, q: seq<nat>)
    requires Cfg(t, c) && AllMarked(t, marks)
    requires forall m: nat {:trigger m in q} :: m in q ==> Node(t, m) && t.sm[m] && OpenUp(t, Unmarked(t, c, marks), m)
    ensures q == []
  {
    if q != [] {
      var m := Some(q);
      assert false;
    }
  }

  /** A run that ends with active machines and has called no on_exit: start, the phase without events, one
      transition of a machine to itself, the end. */
  method ActiveAtTheEnd(t: Tables, tr: Transition, given: set<nat>)
    returns (e: ExecutionContext, ghost started: seq<Call>)
    requires HasInitials(t) && SelfTransition(t, tr) && Nodes(t, given) && Fits(t, Nothing(t), given)
    requires StartedFrom(t, Nothing(t), given)[tr.from]
    ensures e.t == t && e.current == StartedFrom(t, Nothing(t), given)
    ensures StartCalls(t, given, started) && e.log == started + [Fire(0)]
  {
    e, started := Started(t, tr, given);
    TakeSelf(e, tr);
    ghost var marks, x := e.visited, e.current;
    ghost var q := e.ExitAll();
    NoneOpen(t, e.current, marks, q);
    assert e.log == started + [Fire(0)] + ExitCalls([]);
  }

  ghost function Nothing(t: Tables): (c: Config)
    ensures Legal(t, c) && forall s {:trigger c[s]} :: 0 <= s <= t.n ==> !c[s]
  {
    seq(t.n + 1, _ => false)
  }

  /** The run up to the first event. */
  method Started(t: Tables, tr: Transition, given: set<nat>) returns (e: ExecutionContext, ghost calls: seq<Call>)
    requires HasInitials(t) && SelfTransition(t, tr) && Nodes(t, given) && Fits(t, Nothing(t), given)
    ensures fresh(e) && e.t == t && e.trs == [tr] && e.Running() && !e.takingEpsilon
    ensures e.current == StartedFrom(t, Nothing(t), given) && StartCalls(t, given, calls) && e.log == calls
  {
    e := new ExecutionContext(t, [tr]);
    e.Prepare(true, [false]);
    assert e.current == Nothing(t);
    calls := e.HandleStart(given, [false]);
    PassIdle(e, tr);
  }

  method PassIdle(e: ExecutionContext, tr: Transition)
    requires e.Running() && e.takingEpsilon && e.trs == [tr] && SelfTransition(e.t, tr)
    modifies e
    ensures e.Running() && !e.takingEpsilon && e.current == old(e.current) && e.log == old(e.log)
  {
    ghost var calls := e.Iterate(SetState, e.holds);
    IdleTurn(e.t, tr, old(e.State()), e.State(), calls, old(e.visited), e.visited);
  }

  method TakeSelf(e: ExecutionContext, tr: Transition)
    requires e.Running() && !e.takingEpsilon && e.trs == [tr] && SelfTransition(e.t, tr) && e.current[tr.from]
    modifies e
    ensures e.Running() && e.current == old(e.current) && e.log == old(e.log) + [Fire(0)]
    ensures AllMarked(e.t, e.visited)
  {
    ghost var calls := e.Iterate(Event(tr.ev, e.holds), e.holds);
    ghost var s := old(e.State());
    assert s.(holds := s.holds) == s;
    SelfReact(e.t, tr, s, e.State());
    SelfReacted(e.t, tr, s, e.State(), calls, old(e.visited), e.visited);
  }

  /** For instance machine 1 with its Initial state and a transition to itself: it is active at the end, and its
      on_exit has not been called. */
  method NotExited() returns (e: ExecutionContext)
    ensures e.current == [false, true, true] && e.log == [OnEnter(1), Fire(0)]
  {
    OneMachineLegal();
    var tr := Transition(1, 1, 1, 1, false, false);
    OneStarted();
    ghost var started;
    e, started := ActiveAtTheEnd(ONE_MACHINE, tr, {1});
    OnlyOwner(ONE_MACHINE, {1}, 1, started);
  }

  lemma OneStarted()
    ensures Wf(ONE_MACHINE) && Nodes(ONE_MACHINE, {1}) && Fits(ONE_MACHINE, Nothing(ONE_MACHINE), {1})
    ensures StartedFrom(ONE_MACHINE, Nothing(ONE_MACHINE), {1}) == [false, true, true]
    ensures OwnersOf(ONE_MACHINE, {1}) == {1}
  {
    OneMachineLegal();
    var t: Tables := ONE_MACHINE;
    GivenUp(t, {1}, 1);
    assert StartedInitial(t, {1}, 2);
    assert InHull(t, {1}, 1) && InHull(t, {1}, 2);
  }

  lemma OnlyOwner(t: Tables, given: set<nat>, m: nat, calls: seq<Call>)
    requires Nodes(t, given) && OwnersOf(t, given) == {m} && StartCalls(t, given, calls)
    ensures calls == [OnEnter(m)]
  {
    var owners :| Lists(owners, OwnersOf(t, given)) && calls == EnterCalls(owners);
    var i := Only(owners, m);
  }

  lemma SameTwo(q: seq<nat>, m: nat)
    requires |q| > 1 && forall k :: 0 <= k < |q| ==> q[k] == m
    ensures q[0] == q[1]
  {
  }

  lemma Only(q: seq<nat>, m: nat) returns (i: nat)
    requires Lists(q, {m})
    ensures q == [m] && i == 0
  {
    i := 0;
    assert m in q;
    assert forall k :: 0 <= k < |q| ==> q[k] in q;
    if |q| > 1 {
      SameTwo(q, m);
      assert false;
    }
  }

  /** Starting an inner machine from nothing makes the machine around it active, but calls on_enter of the inner one
      only. */
  method InnerMachineStarted(t: Tables, k: nat) returns (e: ExecutionContext)
    requires HasInitials(t) && Node(t, k) && t.sm[k] && t.parent[k] != 0
    ensures e.t == t && Cfg(t, e.current) && Node(t, t.parent[k]) && e.current[t.parent[k]] && e.log == [OnEnter(k)]
  {
    e := new ExecutionContext(t, []);
    e.Prepare(true, []);
    ghost var c := e.current;
    InnerAlone(t, c, k);
    ghost var calls := e.HandleStart({k}, []);
    ActivatesIff(t, c, {k}, t.parent[k]);
    OnlyOwner(t, {k}, k, calls);
  }

  /** For instance machine 3 inside machine 1. */
  method NotEntered() returns (e: ExecutionContext)
    ensures |e.current| == 5 && e.current[1] && e.log == [OnEnter(3)]
  {
    NestedWf();
    e := InnerMachineStarted(NESTED, 3);
  }

  /** Starting the Initial state of an active machine calls the machine's on_enter again. */
  lemma CalledAgain(calls: seq<Call>)
    requires Wf(ONE_MACHINE) && Nodes(ONE_MACHINE, {2}) && StartCalls(ONE_MACHINE, {2}, calls)
    ensures calls == [OnEnter(1)] && Legal(ONE_MACHINE, [false, true, true])
    ensures StartedFrom(ONE_MACHINE, [false, true, true], {2}) == [false, true, true]
    ensures Drift(ONE_MACHINE, Start({2}), [false, true, true], 1) == 1
  {
    AgainStart([false, true, true]);
    OnlyOwner(ONE_MACHINE, {2}, 1, calls);
  }
}
