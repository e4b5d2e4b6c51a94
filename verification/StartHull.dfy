/** The start configuration: the states of a Start directive closed under containment, Initial and threads. */
module StartHull {
  import opened Containment
  import opened Samples

  ghost predicate Nodes(t: Tables, s: set<nat>) {
    forall x :: x in s ==> Node(t, x)
  }

  /** The machine of a state; a machine stands for itself. */
  function MachineOf(t: Tables, x: nat): (m: nat)
    requires Node(t, x)
    ensures Node(t, m) && t.sm[m]
  {
    if t.sm[x] then x
    else
      assert Node(t, t.parent[x]);
      t.parent[x]
  }

  /** The machines that contain a given state directly: they get no Initial state of their own. */
  function Holders(t: Tables, given: set<nat>): set<nat>
    requires Nodes(t, given)
  {
    set x | x in given :: t.parent[x]
  }

  /** What the presence of x brings along. */
  function Forced(t: Tables, holders: set<nat>, x: nat): (r: set<nat>)
    requires Node(t, x)
    ensures Nodes(t, r)
  {
    var m := MachineOf(t, x);
    assert t.initial[x] != 0 ==> IsChild(t, t.initial[x], x);
    (if t.parent[m] != 0 then {t.parent[m]} else {})
    + (if t.sm[x] && t.initial[x] != 0 && x !in holders then {t.initial[x]} else {})
    + (if t.sm[x] && t.region[x] then (set k | 1 <= k <= t.n && t.parent[k] == x && t.sm[k] && t.thread[k]) else {})
  }

  ghost predicate HullClosed(t: Tables, holders: set<nat>, s: set<nat>)
    requires Nodes(t, s)
  {
    forall x :: x in s ==> Forced(t, holders, x) <= s
  }

  /** s is part of every closed set that contains the given states. */
  ghost predicate Needed(t: Tables, holders: set<nat>, given: set<nat>, s: set<nat>) {
    forall y {:trigger HullClosed(t, holders, y)} :: Nodes(t, y) && given <= y && HullClosed(t, holders, y) ==> s <= y
  }

  /** h is the least closed set that contains the given states. */
  ghost predicate IsHull(t: Tables, given: set<nat>, h: set<nat>) {
    && Nodes(t, given) && Nodes(t, h) && given <= h && HullClosed(t, Holders(t, given), h)
    && forall y :: Nodes(t, y) && given <= y && HullClosed(t, Holders(t, given), y) ==> h <= y
  }

  ghost function AllNodes(t: Tables): (a: set<nat>)
    ensures forall x :: x in a <==> Node(t, x)
  {
    set x: nat {:trigger Node(t, x)} | x <= t.n && Node(t, x)
  }

  /** Grows the set until a round adds nothing. */
  method Hull(t: Tables, given: set<nat>) returns (s: set<nat>)
    requires Nodes(t, given)
    ensures IsHull(t, given, s)
  {
    s := given;
    var holders := Holders(t, given);
    var last := 0;
    while last < |s|
      invariant Nodes(t, s) && given <= s && last <= |s|
      invariant Needed(t, holders, given, s)
      invariant last == |s| ==> HullClosed(t, holders, s)
      decreases |AllNodes(t) - s|, |s| - last
    {
      last := |s|;
      s := Round(t, holders, given, s);
    }
  }

  /** One round: everything that the present states bring along. */
  method Round(t: Tables, holders: set<nat>, ghost given: set<nat>, s0: set<nat>) returns (s: set<nat>)
    requires Nodes(t, s0) && given <= s0
    requires Needed(t, holders, given, s0)
    ensures Nodes(t, s) && s0 <= s && |s0| <= |s|
    ensures Needed(t, holders, given, s)
    ensures |s| == |s0| ==> HullClosed(t, holders, s)
    ensures |s| != |s0| ==> |AllNodes(t) - s| < |AllNodes(t) - s0|
  {
    s := s0;
    var todo := s0;
    while todo != {}
      invariant Nodes(t, s) && s0 <= s && todo <= s0
      invariant Needed(t, holders, given, s)
      invariant forall x :: x in s0 - todo ==> Forced(t, holders, x) <= s
      decreases todo
    {
      var x :| x in todo;
      s := s + Forced(t, holders, x);
      todo := todo - {x};
    }
    RoundMeasure(t, s0, s);
  }

  /** A round that adds something leaves fewer states to add. */
  lemma RoundMeasure(t: Tables, s0: set<nat>, s: set<nat>)
    requires s0 <= s && Nodes(t, s)
    ensures |s0| <= |s| && (|s| == |s0| ==> s == s0)
    ensures |s| != |s0| ==> |AllNodes(t) - s| < |AllNodes(t) - s0|
  {
    SubsetSize(s0, s);
    if |s| != |s0| {
      assert s != s0;
      assert exists x :: x in s && x !in s0;
      var z :| z in s && z !in s0;
      assert z in AllNodes(t) - s0 && z !in AllNodes(t) - s;
      ProperSubsetSize(AllNodes(t) - s, AllNodes(t) - s0);
    }
  }

  lemma {:induction false} SubsetSize(a: set<nat>, b: set<nat>)
    requires a <= b
    ensures |a| <= |b| && (|a| == |b| ==> a == b)
    decreases a
  {
    if a != {} {
      var x :| x in a;
      SubsetSize(a - {x}, b - {x});
    }
  }

  lemma ProperSubsetSize(a: set<nat>, b: set<nat>)
    requires a < b
    ensures |a| < |b|
  {
    SubsetSize(a, b);
  }

  // ---------------------------------------------------------------------- the hull in closed form

  /** m lies around a given state: around a given machine or being it, strictly around the machine of a
      given plain state. */
  ghost predicate Around(t: Tables, given: set<nat>, m: nat)
    requires Nodes(t, given) && Node(t, m)
  {
    exists g :: g in given && AroundOne(t, g, m)
  }

  ghost predicate AroundOne(t: Tables, g: nat, m: nat)
    requires Node(t, g)
  {
    Inside(t, MachineOf(t, g), m) && (t.sm[g] || m != MachineOf(t, g))
  }

  /** m lies around a given state, or is a thread of a started region. */
  ghost predicate StartedMachine(t: Tables, given: set<nat>, m: nat)
    requires Nodes(t, given) && Node(t, m)
    decreases t.rank[m]
  {
    t.sm[m]
      && (Around(t, given, m)
           || (t.thread[m] && t.parent[m] != 0 && t.region[t.parent[m]] && StartedMachine(t, given, t.parent[m])))
  }

  ghost predicate StartedInitial(t: Tables, given: set<nat>, s: nat)
    requires Nodes(t, given) && Node(t, s)
  {
    var m := t.parent[s];
    m != 0 && t.initial[m] == s && m !in Holders(t, given) && StartedMachine(t, given, m)
  }

  /** The states of the start configuration. */
  ghost predicate InHull(t: Tables, given: set<nat>, s: nat)
    requires Nodes(t, given) && Node(t, s)
  {
    s in given || StartedMachine(t, given, s) || StartedInitial(t, given, s)
  }

  ghost function HullSet(t: Tables, given: set<nat>): (h: set<nat>)
    requires Nodes(t, given)
    ensures Nodes(t, h) && forall s :: Node(t, s) ==> (s in h <==> InHull(t, given, s))
  {
    set s: nat | 1 <= s <= t.n && InHull(t, given, s)
  }

  lemma AroundUp(t: Tables, given: set<nat>, m: nat)
    requires Nodes(t, given) && Node(t, m) && Around(t, given, m) && t.parent[m] != 0
    ensures StartedMachine(t, given, t.parent[m])
  {
    var g :| g in given && AroundOne(t, g, m);
    ClimbInside(t, MachineOf(t, g), m);
    assert AroundOne(t, g, t.parent[m]);
  }

  lemma ClimbInside(t: Tables, s: nat, m: nat)
    requires Node(t, s) && Node(t, m) && Inside(t, s, m) && t.parent[m] != 0
    ensures Node(t, t.parent[m]) && t.sm[t.parent[m]] && Inside(t, s, t.parent[m]) && t.parent[m] != s
  {
    assert Inside(t, m, t.parent[m]);
    InsideTransitive(t, s, m, t.parent[m]);
    InsideNode(t, s, m);
  }

  lemma StartedUp(t: Tables, given: set<nat>, m: nat)
    requires Nodes(t, given) && Node(t, m) && StartedMachine(t, given, m) && t.parent[m] != 0
    ensures StartedMachine(t, given, t.parent[m])
  {
    if Around(t, given, m) {
      AroundUp(t, given, m);
    }
  }

  lemma GivenUp(t: Tables, given: set<nat>, g: nat)
    requires Nodes(t, given) && g in given
    ensures t.sm[g] ==> StartedMachine(t, given, g)
    ensures t.parent[MachineOf(t, g)] != 0 ==> StartedMachine(t, given, t.parent[MachineOf(t, g)])
  {
    var m := MachineOf(t, g);
    if t.sm[g] {
      assert AroundOne(t, g, g);
    }
    if t.parent[m] != 0 {
      ClimbInside(t, m, m);
      assert AroundOne(t, g, t.parent[m]);
    }
  }

  /** The machine around that of x is started. */
  lemma AroundStarted(t: Tables, given: set<nat>, x: nat)
    requires Nodes(t, given) && Node(t, x) && InHull(t, given, x) && t.parent[MachineOf(t, x)] != 0
    ensures StartedMachine(t, given, t.parent[MachineOf(t, x)])
  {
    if x in given {
      GivenUp(t, given, x);
    } else if StartedMachine(t, given, x) {
      StartedUp(t, given, x);
    } else {
      StartedUp(t, given, t.parent[x]);
    }
  }

  /** A machine belongs to the start configuration exactly if it is started. */
  lemma MachineStarted(t: Tables, given: set<nat>, m: nat)
    requires Nodes(t, given) && Node(t, m) && t.sm[m]
    ensures InHull(t, given, m) <==> StartedMachine(t, given, m)
  {
    if m in given {
      GivenUp(t, given, m);
    }
  }

  /** Each state that x brings along belongs to the closed form with x. */
  lemma ForcedInHull(t: Tables, given: set<nat>, x: nat, k: nat)
    requires Nodes(t, given) && Node(t, x) && InHull(t, given, x) && k in Forced(t, Holders(t, given), x)
    ensures Node(t, k) && InHull(t, given, k)
  {
    if k == t.parent[MachineOf(t, x)] {
      AroundStarted(t, given, x);
    } else {
      MachineStarted(t, given, x);
    }
  }

  /** The closed form is closed. */
  lemma HullSetClosed(t: Tables, given: set<nat>)
    requires Nodes(t, given)
    ensures HullClosed(t, Holders(t, given), HullSet(t, given))
  {
    forall x, k | x in HullSet(t, given) && k in Forced(t, Holders(t, given), x)
      ensures k in HullSet(t, given)
    {
      ForcedInHull(t, given, x, k);
    }
  }

  /** Started machines belong to every closed set that contains the given states. */
  lemma {:induction false} StartedForced(t: Tables, given: set<nat>, y: set<nat>, m: nat)
    requires Nodes(t, given) && Nodes(t, y) && given <= y && HullClosed(t, Holders(t, given), y)
    requires Node(t, m) && StartedMachine(t, given, m)
    ensures m in y
    decreases t.rank[m]
  {
    if Around(t, given, m) {
      var g :| g in given && AroundOne(t, g, m);
      AroundForced(t, given, y, g, m);
    } else {
      StartedForced(t, given, y, t.parent[m]);
      assert Forced(t, Holders(t, given), t.parent[m]) <= y;
    }
  }

  lemma {:induction false} AroundForced(t: Tables, given: set<nat>, y: set<nat>, g: nat, m: nat)
    requires Nodes(t, given) && Nodes(t, y) && given <= y && HullClosed(t, Holders(t, given), y)
    requires g in given && Node(t, m) && AroundOne(t, g, m)
    ensures m in y
    decreases t.n - t.rank[m]
  {
    var k := MachineOf(t, g);
    if m == k {
      assert t.sm[g];
    } else {
      var c := InsideChild(t, k, m);
      if c == k {
        assert m == t.parent[MachineOf(t, g)];
        assert Forced(t, Holders(t, given), g) <= y;
      } else {
        InsideNode(t, k, c);
        AroundForced(t, given, y, g, c);
        assert Forced(t, Holders(t, given), c) <= y;
      }
    }
  }

  /** The computed hull is the closed form. */
  lemma HullIs(t: Tables, given: set<nat>, h: set<nat>)
    requires IsHull(t, given, h)
    ensures h == HullSet(t, given)
  {
    HullSetClosed(t, given);
    assert given <= HullSet(t, given);
    forall s | s in HullSet(t, given)
      ensures s in h
    {
      if s !in given {
        if StartedMachine(t, given, s) {
          StartedForced(t, given, h, s);
        } else {
          assert StartedInitial(t, given, s);
          StartedForced(t, given, h, t.parent[s]);
          assert Forced(t, Holders(t, given), t.parent[s]) <= h;
        }
      }
    }
  }

  // ---------------------------------------------------------------------- said over the tables

  /** A machine is started exactly if a named machine is it or lies inside of it, or a named plain state lies inside
      of it but not directly, or it is a thread of a started region. */
  lemma StartedIff(t: Tables, given: set<nat>, m: nat)
    requires Nodes(t, given) && Node(t, m)
    ensures StartedMachine(t, given, m) <==>
      t.sm[m]
        && ((exists g :: g in given && Inside(t, g, m) && (t.sm[g] || t.parent[g] != m))
             || (t.parent[m] != 0 && t.region[t.parent[m]] && t.thread[m] && StartedMachine(t, given, t.parent[m])))
  {
    forall g | g in given && t.sm[m]
      ensures AroundOne(t, g, m) <==> Inside(t, g, m) && (t.sm[g] || t.parent[g] != m)
    {
      assert Inside(t, g, m) && g != m ==> Inside(t, t.parent[g], m);
    }
    if g :| t.sm[m] && g in given && Inside(t, g, m) && (t.sm[g] || t.parent[g] != m) {
      assert AroundOne(t, g, m);
    }
  }

  /** The Initial state of a started machine is started with it, unless the machine directly contains a named state. */
  lemma InitialStartedIff(t: Tables, given: set<nat>, m: nat)
    requires Nodes(t, given) && Node(t, m) && t.initial[m] != 0 && t.initial[m] !in given
    ensures Node(t, t.initial[m])
    ensures InHull(t, given, t.initial[m]) <==>
      StartedMachine(t, given, m) && forall g :: g in given ==> t.parent[g] != m
  {
    assert IsChild(t, t.initial[m], m) && !t.sm[t.initial[m]];
    assert m in Holders(t, given) <==> exists g :: g in given && t.parent[g] == m;
  }

  /** What is started: the states named, the started machines, and their Initial states unless their machine directly
      contains a named state. */
  lemma StartedAre(t: Tables, given: set<nat>, s: nat)
    requires Nodes(t, given) && Node(t, s)
    ensures InHull(t, given, s) <==>
      || s in given
      || StartedMachine(t, given, s)
      || (t.initial[t.parent[s]] == s && t.parent[s] != 0 && StartedMachine(t, given, t.parent[s])
            && forall g :: g in given ==> t.parent[g] != t.parent[s])
  {
    if t.parent[s] != 0 && t.initial[t.parent[s]] == s && s !in given {
      InitialStartedIff(t, given, t.parent[s]);
    }
  }

  // ---------------------------------------------------------------------- legality

  function Flags(t: Tables, h: set<nat>): (v: Config)
    requires Nodes(t, h)
    ensures Cfg(t, v) && forall s {:trigger v[s]} :: Node(t, s) ==> v[s] == (s in h)
  {
    seq(t.n + 1, s requires 0 <= s <= t.n => s in h)
  }

  /** What a start directive adds in configuration c: the hull of the states it names. */
  ghost function StartedFrom(t: Tables, c: Config, given: set<nat>): (u: Config)
    requires Cfg(t, c) && Nodes(t, given)
    ensures Cfg(t, u)
  {
    Union(c, Flags(t, HullSet(t, given)))
  }

  /** The machine of every named plain state is active, or started by the states named. */
  ghost predicate Fits(t: Tables, c: Config, given: set<nat>)
    requires Cfg(t, c) && Nodes(t, given)
  {
    forall g :: g in given && !t.sm[g] ==> c[MachineOf(t, g)] || StartedMachine(t, given, MachineOf(t, g))
  }

  /** A start directive keeps a configuration legal exactly if it fits: the hull of a plain state does not
      contain its own machine. */
  lemma StartKeepsLegalIff(t: Tables, c: Config, given: set<nat>)
    requires HasInitials(t) && Legal(t, c) && Nodes(t, given)
    ensures Legal(t, StartedFrom(t, c, given)) <==> Fits(t, c, given)
  {
    var u := StartedFrom(t, c, given);
    if Fits(t, c, given) {
      FittingStart(t, c, given);
    }
    if Legal(t, u) {
      forall g | g in given && !t.sm[g]
        ensures c[MachineOf(t, g)] || StartedMachine(t, given, MachineOf(t, g))
      {
        assert u[g] && u[MachineOf(t, g)];
        MachineStarted(t, given, MachineOf(t, g));
      }
    }
  }

  lemma FittingStart(t: Tables, c: Config, given: set<nat>)
    requires HasInitials(t) && Legal(t, c) && Nodes(t, given) && Fits(t, c, given)
    ensures Legal(t, StartedFrom(t, c, given))
  {
    var u := StartedFrom(t, c, given);
    forall s | Node(t, s) && u[s] && t.parent[s] != 0
      ensures u[t.parent[s]]
    {
      if !c[s] {
        HullUpward(t, c, given, s);
      }
    }
    forall s | Node(t, s) && t.sm[s] && u[s]
      ensures !EmptyIn(t, u, s)
    {
      if c[s] {
        var k :| IsChild(t, k, s) && c[k];
        assert u[k];
      } else {
        HullInhabited(t, c, given, s);
      }
    }
  }

  lemma HullUpward(t: Tables, c: Config, given: set<nat>, s: nat)
    requires Cfg(t, c) && Nodes(t, given) && Fits(t, c, given) && Node(t, s) && InHull(t, given, s) && t.parent[s] != 0
    ensures Node(t, t.parent[s]) && (c[t.parent[s]] || InHull(t, given, t.parent[s]))
  {
    if s in given {
      GivenUp(t, given, s);
    } else if StartedMachine(t, given, s) {
      StartedUp(t, given, s);
    }
  }

  lemma HullInhabited(t: Tables, c: Config, given: set<nat>, s: nat)
    requires HasInitials(t) && Cfg(t, c) && Nodes(t, given) && Node(t, s) && t.sm[s] && InHull(t, given, s)
    ensures !EmptyIn(t, StartedFrom(t, c, given), s)
  {
    var u := StartedFrom(t, c, given);
    if s in Holders(t, given) {
      var g :| g in given && t.parent[g] == s;
      assert IsChild(t, g, s) && u[g];
    } else {
      var i := t.initial[s];
      assert IsChild(t, i, s);
      MachineStarted(t, given, s);
      assert StartedInitial(t, given, i);
      assert u[i];
    }
  }

  /** From nothing, the start configuration is legal exactly if the machine of every named plain state is started
      by other named states. */
  lemma StartLegalIff(t: Tables, given: set<nat>, h: set<nat>)
    requires HasInitials(t) && IsHull(t, given, h)
    ensures Legal(t, Flags(t, h)) <==> forall g :: g in given && !t.sm[g] ==> StartedMachine(t, given, MachineOf(t, g))
  {
    HullIs(t, given, h);
    var none: Config := seq(t.n + 1, _ => false);
    NothingLegal(t, none);
    StartKeepsLegalIff(t, none, given);
    OnlyStarted(none, Flags(t, h));
  }

  lemma OnlyStarted(none: Config, v: Config)
    requires |none| == |v| && forall s :: 0 <= s < |none| ==> !none[s]
    ensures Union(none, v) == v
  {
  }

  /** Naming machines only always gives a legal start. */
  lemma MachinesStartLegal(t: Tables, given: set<nat>, h: set<nat>)
    requires HasInitials(t) && IsHull(t, given, h)
    requires forall g :: g in given ==> t.sm[g]
    ensures Legal(t, Flags(t, h))
  {
    StartLegalIff(t, given, h);
  }

  /** Naming a plain state alone does not: its machine stays inactive. */
  lemma PlainStartIllegal()
    ensures Wf(ONE_MACHINE) && forall h :: IsHull(ONE_MACHINE, {2}, h) ==> !Legal(ONE_MACHINE, Flags(ONE_MACHINE, h))
  {
    OneMachineLegal();
    var t: Tables := ONE_MACHINE;
    forall h | IsHull(t, {2}, h)
      ensures !Legal(t, Flags(t, h))
    {
      StartLegalIff(t, {2}, h);
      assert Inside(t, 1, 1);
      assert MachineOf(t, 2) == 1 && !AroundOne(t, 2, 1);
      assert !Around(t, {2}, 1);
      assert !StartedMachine(t, {2}, 1);
    }
  }

  // ---------------------------------------------------------------------- on_enter of a start directive

  /** The machines that own the named states: theirs is the on_enter that a start directive calls. */
  function OwnersOf(t: Tables, given: set<nat>): (r: set<nat>)
    requires Nodes(t, given)
    ensures Nodes(t, r)
  {
    set g | g in given :: MachineOf(t, g)
  }

  /** These are the named machines, and the machines around the named plain states. */
  lemma OwnersAre(t: Tables, given: set<nat>, m: nat)
    requires Nodes(t, given)
    ensures m in OwnersOf(t, given) <==>
      (m in given && t.sm[m]) || exists g :: g in given && !t.sm[g] && t.parent[g] == m
  {
    if m in given && t.sm[m] {
      assert MachineOf(t, m) == m;
    }
    if g :| g in given && !t.sm[g] && t.parent[g] == m {
      assert MachineOf(t, g) == m;
    }
  }

  /** The start directive makes machine m active. */
  ghost predicate Activates(t: Tables, c: Config, given: set<nat>, m: nat)
    requires Cfg(t, c) && Nodes(t, given) && Node(t, m)
  {
    !c[m] && StartedMachine(t, given, m)
  }

  /** Activating is what the start directive does to the machines of c. */
  lemma ActivatesIff(t: Tables, c: Config, given: set<nat>, m: nat)
    requires Cfg(t, c) && Nodes(t, given) && Node(t, m) && t.sm[m]
    ensures StartedFrom(t, c, given)[m] <==> c[m] || Activates(t, c, given, m)
  {
    MachineStarted(t, given, m);
  }

  /** Starting an inner machine alone activates the one around it, whose on_enter is not called. */
  lemma InnerAlone(t: Tables, c: Config, k: nat)
    requires Legal(t, c) && Node(t, k) && t.sm[k] && t.parent[k] != 0 && !c[t.parent[k]]
    ensures Nodes(t, {k}) && Fits(t, c, {k}) && Node(t, t.parent[k])
    ensures Activates(t, c, {k}, t.parent[k]) && OwnersOf(t, {k}) == {k}
  {
    assert Node(t, k);
    ClimbInside(t, k, k);
    assert AroundOne(t, k, t.parent[k]);
  }

  /** For instance machine 3 inside machine 1. */
  lemma InnerStart(c: Config)
    requires c == FIVE_NO
    ensures Wf(NESTED) && HasInitials(NESTED) && Legal(NESTED, c) && Nodes(NESTED, {3}) && Fits(NESTED, c, {3})
    ensures Activates(NESTED, c, {3}, 1) && OwnersOf(NESTED, {3}) == {3}
  {
    NestedWf();
    NothingLegal(NESTED, c);
    InnerAlone(NESTED, c, 3);
  }

  /** Machine 1 with its Initial state, both active: starting the Initial state calls on_enter of machine 1 again. */
  lemma AgainStart(c: Config)
    requires c == [false, true, true]
    ensures Wf(ONE_MACHINE) && HasInitials(ONE_MACHINE) && Legal(ONE_MACHINE, c) && Nodes(ONE_MACHINE, {2})
    ensures Fits(ONE_MACHINE, c, {2}) && !Activates(ONE_MACHINE, c, {2}, 1) && OwnersOf(ONE_MACHINE, {2}) == {1}
  {
    OneMachineLegal();
    assert MachineOf(ONE_MACHINE, 2) == 1;
  }
}
