/** The static tables of the execution context: which state lies in which machine, which machine
    starts where, and what makes a set of active states a legal configuration. */
module Containment {

  /** States are numbered 1..n, 0 means "no state". Every table has n + 1 entries.
      `stateToChildren[m]` is the position of m in the flat list `children`; the children of m follow
      and end with a 0. `rank` is no table of the engine: it witnesses that `parent` has no cycle. */
  datatype TableData = TableData(
    n: nat,
    parent: seq<nat>,
    sm: seq<bool>,
    thread: seq<bool>,
    region: seq<bool>,
    join: seq<bool>,
    final: seq<bool>,
    inThread: seq<bool>,
    initial: seq<nat>,
    finalState: seq<nat>,
    joinState: seq<nat>,
    stateToChildren: seq<nat>,
    children: seq<nat>,
    rank: seq<nat>)

  /** One presence flag per state, as in `current_states` and the scratch vector `temp`. */
  type Config = seq<bool>

  predicate Node(t: TableData, s: int) {
    1 <= s <= t.n
  }

  /** All tables cover 0..n. */
  predicate Shaped(t: TableData) {
    && |t.parent| == t.n + 1 && |t.sm| == t.n + 1 && |t.thread| == t.n + 1 && |t.region| == t.n + 1
    && |t.join| == t.n + 1 && |t.final| == t.n + 1 && |t.inThread| == t.n + 1
    && |t.initial| == t.n + 1 && |t.finalState| == t.n + 1 && |t.joinState| == t.n + 1
    && |t.stateToChildren| == t.n + 1 && |t.rank| == t.n + 1
  }

  const NO_STATES :=
    TableData(0, [0], [false], [false], [false], [false], [false], [false], [0], [0], [0], [0], [], [0])

  type ShapedTables = t: TableData | Shaped(t) witness NO_STATES

  /** Containment is a forest of machines; only top-level machines have no parent. */
  ghost predicate Forest(t: ShapedTables)
  {
    && t.parent[0] == 0 && !t.sm[0] && !t.join[0]
    && (forall s {:trigger Node(t, s)} :: Node(t, s) ==> t.rank[s] <= t.n && t.parent[s] <= t.n)
    && (forall s {:trigger Node(t, s)} ::
         Node(t, s) && t.parent[s] != 0 ==> t.sm[t.parent[s]] && t.rank[t.parent[s]] < t.rank[s])
    && (forall s {:trigger Node(t, s)} :: Node(t, s) && !t.sm[s] ==> t.parent[s] != 0)
    && (forall s {:trigger t.join[s]} :: Node(t, s) && t.join[s] ==> t.sm[s])
  }

  /** Position of the first 0 at or after i, or |cs|. */
  function ListEnd(cs: seq<nat>, i: nat): (e: nat)
    requires i <= |cs|
    ensures i <= e <= |cs|
    ensures forall k :: i <= k < e ==> cs[k] != 0
    ensures e < |cs| ==> cs[e] == 0
    decreases |cs| - i
  {
    if i < |cs| && cs[i] != 0 then ListEnd(cs, i + 1) else i
  }

  ghost predicate IsChild(t: ShapedTables, c: int, s: int)
  {
    Node(t, c) && t.parent[c] == s
  }

  /** The zero-terminated list of machine s holds exactly its children, in any order, duplicates allowed. */
  ghost predicate ListOk(t: ShapedTables, s: nat)
    requires Node(t, s)
  {
    && t.stateToChildren[s] + 1 <= |t.children|
    && ListEnd(t.children, t.stateToChildren[s] + 1) < |t.children|
    && (forall k ::
         t.stateToChildren[s] + 1 <= k < ListEnd(t.children, t.stateToChildren[s] + 1) ==> IsChild(t, t.children[k], s))
    && (forall c ::
         IsChild(t, c, s) ==>
           exists k ::
             t.stateToChildren[s] + 1 <= k < ListEnd(t.children, t.stateToChildren[s] + 1) && t.children[k] == c)
  }

  /** What the passes need of the tables, except for the Initial states. */
  ghost predicate Wf(t: ShapedTables) {
    && Forest(t)
    && (forall s {:trigger ListOk(t, s)} :: Node(t, s) && t.sm[s] ==> ListOk(t, s))
    && (forall s {:trigger t.initial[s]} ::
         Node(t, s) && t.initial[s] != 0 ==> IsChild(t, t.initial[s], s) && !t.sm[t.initial[s]])
    && (forall s {:trigger t.finalState[s]} :: Node(t, s) ==> t.finalState[s] <= t.n)
    && (forall s {:trigger t.joinState[s]} ::
         Node(t, s) && t.joinState[s] != 0 ==> IsChild(t, t.joinState[s], s) && !t.sm[t.joinState[s]])
  }

  /** Tables as the builder produces them. */
  type Tables = t: ShapedTables | Wf(t) witness NO_STATES

  /** Every machine has a plain Initial state of its own. */
  ghost predicate HasInitials(t: Tables)
  {
    forall s {:trigger Node(t, s)} :: Node(t, s) && t.sm[s] ==> t.initial[s] != 0
  }

  /** The children of machine s are listed at positions ListLo(t, s) up to ListHi(t, s). */
  function ListLo(t: Tables, s: nat): (lo: nat)
    requires Node(t, s)
  {
    t.stateToChildren[s] + 1
  }

  ghost function ListHi(t: Tables, s: nat): (hi: nat)
    requires Node(t, s) && t.sm[s]
    ensures ListLo(t, s) <= hi < |t.children| && t.children[hi] == 0
    ensures forall k :: ListLo(t, s) <= k < hi ==> t.children[k] != 0 && IsChild(t, t.children[k], s)
  {
    assert ListOk(t, s);
    ListEnd(t.children, ListLo(t, s))
  }

  lemma ListedChild(t: Tables, s: nat, c: nat) returns (k: nat)
    requires Node(t, s) && t.sm[s] && IsChild(t, c, s)
    ensures ListLo(t, s) <= k < ListHi(t, s) && t.children[k] == c
  {
    assert ListOk(t, s);
    k :| ListLo(t, s) <= k < ListHi(t, s) && t.children[k] == c;
  }

  // ---------------------------------------------------------------------- containment order

  /** s is a, or lies inside machine a at any depth. */
  ghost predicate Inside(t: Tables, s: nat, a: nat)
    requires Node(t, s)
    decreases t.rank[s]
  {
    s == a || (t.parent[s] != 0 && Inside(t, t.parent[s], a))
  }

  lemma {:induction false} InsideNode(t: Tables, s: nat, a: nat)
    requires Node(t, s) && Inside(t, s, a)
    ensures Node(t, a) && (s != a ==> t.rank[a] < t.rank[s] && t.sm[a])
    decreases t.rank[s]
  {
    if s != a {
      InsideNode(t, t.parent[s], a);
    }
  }

  lemma {:induction false} InsideTransitive(t: Tables, s: nat, b: nat, a: nat)
    requires Node(t, s) && Node(t, b) && Inside(t, s, b) && Inside(t, b, a)
    ensures Inside(t, s, a)
    decreases t.rank[s]
  {
    if s != b {
      InsideTransitive(t, t.parent[s], b, a);
    }
  }

  /** A state strictly inside a lies inside exactly one child of a. */
  lemma {:induction false} InsideChild(t: Tables, s: nat, a: nat) returns (c: nat)
    requires Node(t, s) && Inside(t, s, a) && s != a
    ensures IsChild(t, c, a) && Inside(t, s, c)
    decreases t.rank[s]
  {
    if t.parent[s] == a {
      c := s;
    } else {
      c := InsideChild(t, t.parent[s], a);
    }
  }

  lemma {:induction false} ChildInside(t: Tables, c: nat, a: nat)
    requires IsChild(t, c, a) && a != 0
    ensures Inside(t, c, a) && c != a && t.sm[a] && Node(t, a) && t.rank[a] < t.rank[c]
  {
    assert Inside(t, a, a);
  }

  // ---------------------------------------------------------------------- configurations

  ghost predicate Cfg(t: Tables, v: Config) {
    |v| == t.n + 1 && !v[0]
  }

  ghost predicate Leq(v: Config, w: Config)
    requires |v| == |w|
  {
    forall s :: 0 <= s < |v| && v[s] ==> w[s]
  }

  /** No child of s is active. */
  ghost predicate EmptyIn(t: Tables, v: Config, s: nat)
    requires |v| == t.n + 1
  {
    forall c :: IsChild(t, c, s) ==> !v[c]
  }

  /** Every active state lies in an active machine. */
  ghost predicate Upward(t: Tables, v: Config)
    requires |v| == t.n + 1
  {
    forall s {:trigger Node(t, s)} :: Node(t, s) && v[s] && t.parent[s] != 0 ==> v[t.parent[s]]
  }

  /** Every active machine has an active child. */
  ghost predicate Inhabited(t: Tables, v: Config)
    requires |v| == t.n + 1
  {
    forall s {:trigger Node(t, s)} :: Node(t, s) && t.sm[s] && v[s] ==> !EmptyIn(t, v, s)
  }

  ghost predicate Legal(t: Tables, v: Config)
  {
    Cfg(t, v) && Upward(t, v) && Inhabited(t, v)
  }

  /** In an upward closed configuration every encloser of an active state is active. */
  lemma {:induction false} UpwardInside(t: Tables, v: Config, s: nat, a: nat)
    requires Cfg(t, v) && Upward(t, v) && Node(t, s) && v[s] && Inside(t, s, a)
    ensures Node(t, a) && v[a]
    decreases t.rank[s]
  {
    if s != a {
      UpwardInside(t, v, t.parent[s], a);
    }
  }

  /** The outermost state enclosing s that is reached without meeting a state of c. */
  ghost function Top(t: Tables, c: Config, s: nat): (p: nat)
    requires Cfg(t, c) && Node(t, s)
    ensures Node(t, p) && (t.sm[s] ==> t.sm[p]) && (t.parent[p] == 0 || c[t.parent[p]])
    decreases t.rank[s]
  {
    if t.parent[s] == 0 || c[t.parent[s]] then s else Top(t, c, t.parent[s])
  }

  lemma {:induction false} TopEncloses(t: Tables, c: Config, s: nat)
    requires Cfg(t, c) && Node(t, s)
    ensures Inside(t, s, Top(t, c, s))
    decreases t.rank[s]
  {
    if !(t.parent[s] == 0 || c[t.parent[s]]) {
      TopEncloses(t, c, t.parent[s]);
    }
  }

  /** What is active in v or in w. */
  function Union(v: Config, w: Config): (u: Config)
    requires |v| == |w|
    ensures |u| == |v| && forall s :: 0 <= s < |v| ==> u[s] == (v[s] || w[s])
  {
    seq(|v|, s requires 0 <= s < |v| => v[s] || w[s])
  }
}
