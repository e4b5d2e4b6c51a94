/** Choosing, for each transition between shadow states, the transition of the shadowed machine it stands for. */
module ShadowTransitions {

  /** Event 0 stands for none; the table builder numbers events from 1. */
  datatype Transition = Transition(from: nat, target: nat, ev: nat, guard: string, isAbstract: bool)

  /** The transitions, and the shadow of each state: -1 for none. */
  datatype TableData = TableData(transitions: seq<Transition>, shadow: seq<int>) {
    ghost predicate Wf() {
      forall i {:trigger transitions[i]} ::
        0 <= i < |transitions| ==> transitions[i].from < |shadow| && transitions[i].target < |shadow|
    }
  }

  type Tables = x: TableData | x.Wf() witness TableData([], [])

  predicate Bottom(t: Transition) {
    t.isAbstract && t.ev <= 0 && t.guard == ""
  }

  predicate Le(l: Transition, r: Transition) {
    if Bottom(l) then true
    else if l.ev == r.ev && l.guard == r.guard then true
    else if l.ev != r.ev then false
    else if l.guard == "" then true
    else l.guard == r.guard
  }

  predicate Same(l: Transition, r: Transition) {
    (Bottom(l) && Bottom(r)) || (l.ev == r.ev && l.guard == r.guard)
  }

  predicate Less(l: Transition, r: Transition) {
    Le(l, r) && !Same(l, r)
  }

  predicate Greater(l: Transition, r: Transition) {
    Le(r, l) && !Same(l, r)
  }

  // ---------------------------------------------------------------------- the order on candidates

  /** A plain transition without event is below an abstract one, which is below everything. */
  lemma LeIsNotTransitive()
    ensures exists x, y, z :: Le(x, y) && Le(y, z) && !Le(x, z)
  {
    var x := Transition(1, 2, 0, "", false);
    var y := Transition(1, 2, 0, "", true);
    var z := Transition(1, 2, 1, "g", false);
    assert Le(x, y) && Le(y, z) && !Le(x, z);
  }

  /** How closely a candidate for t matches it: not by event, by event, by event and guard. */
  function Closeness(t: Transition, c: Transition): nat {
    if c.ev != t.ev then 0 else if c.guard == "" then 1 else 2
  }

  /** On the transitions below t, the order is that of a number: total, transitive, and `Same` is its equality. */
  lemma CandidatesAreOrdered(t: Transition, a: Transition, b: Transition)
    requires Le(a, t) && Le(b, t)
    ensures Le(a, b) <==> Closeness(t, a) <= Closeness(t, b)
    ensures Same(a, b) <==> Closeness(t, a) == Closeness(t, b)
    ensures Less(a, b) <==> Closeness(t, a) < Closeness(t, b)
    ensures Greater(a, b) <==> Closeness(t, a) > Closeness(t, b)
  {
  }

  // ---------------------------------------------------------------------- the choice

  /** Transition i leads between the states that transition st shadows, and is below it. */
  predicate Candidate(x: Tables, st: int, i: int) {
    && 0 <= st < |x.transitions| && 0 <= i < |x.transitions|
    && var t, c := x.transitions[st], x.transitions[i];
       c.from == x.shadow[t.from] && c.target == x.shadow[t.target] && Le(c, t)
  }

  /** The candidates are the transitions between these states that have the same event and no guard or the same
      guard, and the abstract ones that have neither event nor guard. */
  lemma CandidatesAre(x: Tables, st: nat, i: nat)
    requires st < |x.transitions| && i < |x.transitions|
    ensures var t, c := x.transitions[st], x.transitions[i];
      Candidate(x, st, i) <==>
        && c.from == x.shadow[t.from] && c.target == x.shadow[t.target]
        && ((c.ev == t.ev && (c.guard == "" || c.guard == t.guard)) || (c.isAbstract && c.ev == 0 && c.guard == ""))
  {
  }

  /** How closely candidate i matches. */
  function Match(x: Tables, st: int, i: int): nat
    requires Candidate(x, st, i)
  {
    Closeness(x.transitions[st], x.transitions[i])
  }

  datatype Choice = Missing | Ambiguous | Chosen(index: int)

  /** i is a candidate with no other above it. */
  ghost predicate Closest(x: Tables, st: int, i: int) {
    Candidate(x, st, i)
      && forall j {:trigger Candidate(x, st, j)} :: Candidate(x, st, j) ==> Le(x.transitions[j], x.transitions[i])
  }

  /** i is the candidate greater than all others. */
  ghost predicate Greatest(x: Tables, st: int, i: int) {
    && Candidate(x, st, i)
    && forall j {:trigger Candidate(x, st, j)} ::
       j != i && Candidate(x, st, j) ==> Greater(x.transitions[i], x.transitions[j])
  }

  ghost predicate IsChoice(x: Tables, st: int, c: Choice) {
    match c
    case Missing => forall j {:trigger Candidate(x, st, j)} :: !Candidate(x, st, j)
    case Ambiguous => exists i, j {:trigger Closest(x, st, i), Closest(x, st, j)} ::
      i != j && Closest(x, st, i) && Closest(x, st, j)
    case Chosen(i) => Greatest(x, st, i)
  }

  /** At most one of the three outcomes, and at most one transition, meets the specification. */
  lemma ChoiceIsUnique(x: Tables, st: int, c: Choice, d: Choice)
    requires IsChoice(x, st, c) && IsChoice(x, st, d)
    ensures c == d
  {
    if c.Ambiguous? && d.Chosen? {
      GreatestIsNotAmbiguous(x, st, d.index);
    } else if c.Chosen? && d.Ambiguous? {
      GreatestIsNotAmbiguous(x, st, c.index);
    } else if c.Chosen? && d.Chosen? && c != d {
      CandidatesAreOrdered(x.transitions[st], x.transitions[c.index], x.transitions[d.index]);
    }
  }

  lemma GreatestIsNotAmbiguous(x: Tables, st: int, k: int)
    requires Greatest(x, st, k)
    ensures !IsChoice(x, st, Ambiguous)
  {
    forall i | Closest(x, st, i)
      ensures i == k
    {
      CandidatesAreOrdered(x.transitions[st], x.transitions[k], x.transitions[i]);
    }
  }

  /** The candidates, each once. */
  ghost predicate AllCandidates(x: Tables, st: int, s: seq<int>) {
    Distinct(s) && forall i :: i in s <==> Candidate(x, st, i)
  }

  ghost predicate Distinct(s: seq<int>) {
    forall a, b :: 0 <= a < b < |s| ==> s[a] != s[b]
  }

  ghost predicate OnlyCandidates(x: Tables, st: int, s: seq<int>) {
    forall a {:trigger s[a]} :: 0 <= a < |s| ==> Candidate(x, st, s[a])
  }

  /** No later one is `Less` than an earlier one. */
  ghost predicate Sorted(x: Tables, st: int, s: seq<int>) {
    OnlyCandidates(x, st, s) && forall a, b :: 0 <= a < b < |s| ==> !Less(x.transitions[s[b]], x.transitions[s[a]])
  }

  /** Being sorted is being sorted by how closely the candidates match. */
  lemma SortedByMatch(x: Tables, st: int, s: seq<int>)
    requires OnlyCandidates(x, st, s)
    ensures Sorted(x, st, s) <==> forall a, b :: 0 <= a < b < |s| ==> Match(x, st, s[a]) <= Match(x, st, s[b])
  {
    forall a, b | 0 <= a < b < |s|
      ensures Less(x.transitions[s[b]], x.transitions[s[a]]) <==> Match(x, st, s[b]) < Match(x, st, s[a])
    {
      CandidatesAreOrdered(x.transitions[st], x.transitions[s[b]], x.transitions[s[a]]);
    }
  }

  /** Whatever sorts the candidates, comparing the last two decides between a greatest one and ambiguity. */
  lemma LastTwoDecide(x: Tables, st: int, s: seq<int>)
    requires AllCandidates(x, st, s) && Sorted(x, st, s) && |s| > 1
    ensures IsChoice(x, st,
        if Greater(x.transitions[s[|s| - 1]], x.transitions[s[|s| - 2]]) then Chosen(s[|s| - 1]) else Ambiguous)
  {
    var t, i, j := x.transitions[st], s[|s| - 1], s[|s| - 2];
    SortedByMatch(x, st, s);
    CandidatesAreOrdered(t, x.transitions[i], x.transitions[j]);
    forall k | Candidate(x, st, k)
      ensures Le(x.transitions[k], x.transitions[i])
      ensures Greater(x.transitions[i], x.transitions[j]) && k != i ==> Greater(x.transitions[i], x.transitions[k])
      ensures !Greater(x.transitions[i], x.transitions[j]) ==> Le(x.transitions[k], x.transitions[j])
    {
      assert k in s;
      CandidatesAreOrdered(t, x.transitions[k], x.transitions[i]);
      CandidatesAreOrdered(t, x.transitions[i], x.transitions[k]);
      CandidatesAreOrdered(t, x.transitions[k], x.transitions[j]);
    }
    if !Greater(x.transitions[i], x.transitions[j]) {
      assert Closest(x, st, i) && Closest(x, st, j);
    }
  }

  // ---------------------------------------------------------------------- the passes over the table

  method ComputeCompatibleTransitions(x: Tables, st: nat) returns (r: seq<int>)
    requires st < |x.transitions|
    ensures AllCandidates(x, st, r)
    ensures forall i: nat {:trigger i in r} :: i in r <==>
      && i < |x.transitions|
      && var t, c := x.transitions[st], x.transitions[i];
         && c.from == x.shadow[t.from] && c.target == x.shadow[t.target]
         && ((c.ev == t.ev && (c.guard == "" || c.guard == t.guard)) || (c.isAbstract && c.ev == 0 && c.guard == ""))
  {
    var t := x.transitions[st];
    var between := [];
    for i := 0 to |x.transitions|
      invariant Distinct(between)
      invariant forall k ::
        k in between <==>
          0 <= k < i && x.transitions[k].from == x.shadow[t.from] && x.transitions[k].target == x.shadow[t.target]
    {
      if x.transitions[i].from == x.shadow[t.from] && x.transitions[i].target == x.shadow[t.target] {
        between := between + [i];
      }
    }
    r := [];
    for n := 0 to |between|
      invariant Distinct(r)
      invariant forall k :: k in r <==> k in between[..n] && k in between && Le(x.transitions[k], t)
    {
      assert between[n] in between;
      if Le(x.transitions[between[n]], t) {
        r := r + [between[n]];
      }
    }
    assert between[..|between|] == between;
  }

  /** Sorts candidates by `Less`. */
  method SortCandidates(x: Tables, st: nat, s: seq<int>) returns (r: seq<int>)
    requires AllCandidates(x, st, s)
    ensures AllCandidates(x, st, r) && |r| == |s| && Sorted(x, st, r)
  {
    r := [];
    for n := 0 to |s|
      invariant |r| == n && Sorted(x, st, r) && Distinct(r)
      invariant forall i :: i in r <==> i in s[..n]
    {
      assert s[n] in s;
      r := Insert(x, st, r, s[n]);
    }
    assert s[..|s|] == s;
  }

  method Insert(x: Tables, st: nat, s: seq<int>, i: int) returns (r: seq<int>)
    requires Candidate(x, st, i) && Sorted(x, st, s) && Distinct(s) && i !in s
    ensures |r| == |s| + 1 && Sorted(x, st, r) && Distinct(r) && (forall k :: k in r <==> k == i || k in s)
  {
    var n := |s|;
    while 0 < n && Less(x.transitions[i], x.transitions[s[n - 1]])
      invariant 0 <= n <= |s| && (n < |s| ==> Less(x.transitions[i], x.transitions[s[n]]))
    {
      n := n - 1;
    }
    r := s[..n] + [i] + s[n..];
    InsertAdds(s, i, n);
    InsertKeepsOrder(x, st, s, i, n);
  }

  lemma InsertAdds(s: seq<int>, i: int, n: nat)
    requires n <= |s| && i !in s && Distinct(s)
    ensures var r := s[..n] + [i] + s[n..]; Distinct(r) && forall k :: k in r <==> k == i || k in s
  {
    var r := s[..n] + [i] + s[n..];
    assert s == s[..n] + s[n..];
    forall a, b | 0 <= a < b < |r|
      ensures r[a] != r[b]
    {
      if a == n {
        assert r[b] == s[b - 1] && s[b - 1] in s;
      } else if b == n {
        assert r[a] == s[a] && s[a] in s;
      }
    }
  }

  lemma InsertKeepsOrder(x: Tables, st: nat, s: seq<int>, i: int, n: nat)
    requires Candidate(x, st, i) && n <= |s| && Sorted(x, st, s)
    requires n < |s| ==> Less(x.transitions[i], x.transitions[s[n]])
    requires 0 < n ==> !Less(x.transitions[i], x.transitions[s[n - 1]])
    ensures Sorted(x, st, s[..n] + [i] + s[n..])
  {
    var t, r := x.transitions[st], s[..n] + [i] + s[n..];
    SortedByMatch(x, st, s);
    if n < |s| {
      CandidatesAreOrdered(t, x.transitions[i], x.transitions[s[n]]);
    }
    if 0 < n {
      CandidatesAreOrdered(t, x.transitions[i], x.transitions[s[n - 1]]);
    }
    assert OnlyCandidates(x, st, r) by {
      forall a | 0 <= a < |r|
        ensures Candidate(x, st, r[a])
      {
        assert r[a] == if a < n then s[a] else if a == n then i else s[a - 1];
      }
    }
    SortedByMatch(x, st, r);
  }

  method Choose(x: Tables, st: nat) returns (c: Choice)
    requires st < |x.transitions|
    ensures IsChoice(x, st, c)
  {
    var candidates := ComputeCompatibleTransitions(x, st);
    if |candidates| == 0 {
      return Missing;
    } else if |candidates| > 1 {
      candidates := SortCandidates(x, st, candidates);
      LastTwoDecide(x, st, candidates);
      var n := |candidates|;
      if Greater(x.transitions[candidates[n - 1]], x.transitions[candidates[n - 2]]) {
        return Chosen(candidates[n - 1]);
      }
      return Ambiguous;
    }
    assert candidates[0] in candidates;
    return Chosen(candidates[0]);
  }

  /** The choice said by event and guard: nothing if there is no candidate, a candidate that matches more closely than
      all others, or two that match as closely as any. A candidate with the event matches more closely than one
      without, and among those with the event one with the guard more closely than one without. */
  lemma ChoiceIs(x: Tables, st: nat, c: Choice)
    requires st < |x.transitions| && IsChoice(x, st, c)
    ensures match c
      case Missing => forall j {:trigger Candidate(x, st, j)} :: !Candidate(x, st, j)
      case Chosen(i) => Candidate(x, st, i) &&
        forall j {:trigger Candidate(x, st, j)} :: Candidate(x, st, j) && j != i ==>
          Closeness(x.transitions[st], x.transitions[j]) < Closeness(x.transitions[st], x.transitions[i])
      case Ambiguous => exists i, j {:trigger Candidate(x, st, i), Candidate(x, st, j)} ::
        i != j && Candidate(x, st, i) && Candidate(x, st, j) &&
        forall k {:trigger Candidate(x, st, k)} :: Candidate(x, st, k) ==>
          Closeness(x.transitions[st], x.transitions[k])
            <= Closeness(x.transitions[st], x.transitions[i]) == Closeness(x.transitions[st], x.transitions[j])
  {
    match c
    case Missing =>
    case Chosen(i) =>
      forall j | Candidate(x, st, j) && j != i
        ensures Closeness(x.transitions[st], x.transitions[j]) < Closeness(x.transitions[st], x.transitions[i])
      {
        CandidatesAreOrdered(x.transitions[st], x.transitions[i], x.transitions[j]);
      }
    case Ambiguous =>
      var i, j :| i != j && Closest(x, st, i) && Closest(x, st, j);
      forall k | Candidate(x, st, k)
        ensures Closeness(x.transitions[st], x.transitions[k])
             <= Closeness(x.transitions[st], x.transitions[i]) == Closeness(x.transitions[st], x.transitions[j])
      {
        CandidatesAreOrdered(x.transitions[st], x.transitions[k], x.transitions[i]);
        CandidatesAreOrdered(x.transitions[st], x.transitions[j], x.transitions[i]);
        CandidatesAreOrdered(x.transitions[st], x.transitions[i], x.transitions[j]);
      }
  }

  predicate Shadowed(x: Tables, st: nat)
    requires st < |x.transitions|
  {
    x.shadow[x.transitions[st].from] > 0 && x.shadow[x.transitions[st].target] > 0
  }

  /** Fills the table of shadow transitions; stops with an error at the first transition without a choice. */
  method ComputeShadowTransitions(x: Tables, shadowTransitions: array<int>) returns (error: Choice)
    requires shadowTransitions.Length == |x.transitions|
    modifies shadowTransitions
    ensures error.Chosen? ==> forall st :: 0 <= st < |x.transitions| ==>
      if x.shadow[x.transitions[st].from] > 0 && x.shadow[x.transitions[st].target] > 0
        then Greatest(x, st, shadowTransitions[st])
        else shadowTransitions[st] == old(shadowTransitions[st])
    ensures !error.Chosen? ==> exists st {:trigger x.transitions[st]} ::
      && 0 <= st < |x.transitions|
      && x.shadow[x.transitions[st].from] > 0 && x.shadow[x.transitions[st].target] > 0 && IsChoice(x, st, error)
  {
    for st := 0 to |x.transitions|
      invariant forall k :: 0 <= k < st ==>
        if Shadowed(x, k) then Greatest(x, k, shadowTransitions[k])
          else shadowTransitions[k] == old(shadowTransitions[k])
      invariant forall k :: st <= k < |x.transitions| ==> shadowTransitions[k] == old(shadowTransitions[k])
    {
      if Shadowed(x, st) {
        var c := Choose(x, st);
        if !c.Chosen? {
          return c;
        }
        shadowTransitions[st] := c.index;
      }
    }
    return Chosen(0);
  }
}
