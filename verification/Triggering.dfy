/** The scan for triggered transitions through the transition index. */
module Triggering {
  import opened Containment
  import opened Kernel
  import opened TransitionIndex

  /** Size of the vector of triggered transitions. */
  const MAX_ACTIVE_TRANSITIONS := 4096

  function Froms(trs: seq<Transition>): (r: seq<nat>)
    ensures |r| == |trs| && forall j :: 0 <= j < |r| ==> r[j] == trs[j].from
  {
    seq(|trs|, j requires 0 <= j < |trs| => trs[j].from)
  }

  /** An epsilon transition from a state to itself without a guard. */
  predicate IdleLoop(tr: Transition) {
    tr.ev == 0 && tr.from == tr.to && !tr.guarded
  }

  /** Apart from its source: the transition may be taken under ev; holds[j] is the value of guard j. */
  predicate Matches(trs: seq<Transition>, j: nat, ev: int, holds: seq<bool>)
    requires j < |trs| == |holds|
  {
    !trs[j].isAbstract && trs[j].ev == ev && !IdleLoop(trs[j]) && (trs[j].guarded ==> holds[j])
  }

  /** A transition of an active source that may be taken. */
  predicate Enabled(trs: seq<Transition>, c: Config, j: nat, ev: int, holds: seq<bool>)
    requires j < |trs| == |holds| && trs[j].from < |c|
  {
    c[trs[j].from] && Matches(trs, j, ev, holds)
  }

  /** f is the first transition of its source. */
  ghost predicate First(trs: seq<Transition>, f: int)
    requires 0 <= f < |trs|
  {
    forall e :: 0 <= e < f ==> trs[e].from != trs[f].from
  }

  /** No earlier transition of the same source, j included, belongs to another machine than the first one
      unless it is abstract. */
  ghost predicate Reached(trs: seq<Transition>, j: int)
    requires 0 <= j < |trs|
  {
    forall i, f {:trigger trs[i], trs[f]} ::
      (0 <= f <= i <= j && trs[i].from == trs[f].from == trs[j].from && !trs[i].isAbstract && First(trs, f)) ==>
        trs[i].smp == trs[f].smp
  }

  /** The builder puts all transitions of a source into one machine's table. */
  ghost predicate SharedMachine(trs: seq<Transition>) {
    forall i, j :: 0 <= i < |trs| && 0 <= j < |trs| && trs[i].from == trs[j].from ==> trs[i].smp == trs[j].smp
  }

  ghost predicate Distinct(s: seq<nat>) {
    forall i, j :: 0 <= i < j < |s| ==> s[i] != s[j]
  }

  lemma {:induction false} DistinctBelow(s: seq<nat>, n: nat)
    requires Distinct(s) && forall i :: 0 <= i < |s| ==> s[i] < n
    ensures |s| <= n
  {
    Cardinality(s, n);
    Subset(Elements(s), NumbersBelow(n));
  }

  ghost function NumbersBelow(n: nat): (b: set<nat>)
    ensures |b| == n && forall x: nat :: x in b <==> x < n
  {
    if n == 0 then {} else NumbersBelow(n - 1) + {n - 1}
  }

  ghost function Elements(s: seq<nat>): set<nat> {
    set x | x in s
  }

  lemma {:induction false} Cardinality(s: seq<nat>, n: nat)
    requires Distinct(s)
    ensures |Elements(s)| == |s|
    decreases |s|
  {
    if s != [] {
      var last := |s| - 1;
      Cardinality(s[..last], n);
      assert Elements(s) == Elements(s[..last]) + {s[last]};
    }
  }

  lemma {:induction false} Subset(a: set<nat>, b: set<nat>)
    requires forall x :: x in a ==> x in b
    ensures |a| <= |b|
    decreases a
  {
    if a != {} {
      var x :| x in a;
      Subset(a - {x}, b - {x});
    }
  }

  /** The list of one source in the slots. */
  ghost predicate ListAt(trs: seq<Transition>, slots: seq<int>, at: nat, list: seq<int>, s: nat) {
    && at + |list| < |slots| && slots[at + |list|] == -1
    && forall k :: 0 <= k < |list| ==> slots[at + k] == list[k] && 0 <= list[k] < |trs| && trs[list[k]].from == s
  }

  /** The position at which the scan of a list stops. */
  ghost predicate StopsAt(trs: seq<Transition>, list: seq<int>, smp: nat, p: nat)
    requires p <= |list| && forall k :: 0 <= k < |list| ==> 0 <= list[k] < |trs|
  {
    && (forall k :: 0 <= k < p ==> trs[list[k]].isAbstract || trs[list[k]].smp == smp)
    && (p < |list| ==> !trs[list[p]].isAbstract && trs[list[p]].smp != smp)
  }

  /** The matching transitions of one list, in order, up to the first that belongs to another machine. */
  method ScanList(trs: seq<Transition>, slots: seq<int>, at: nat, s: nat, smp: nat, temp: Config, ev: int,
                  holds: seq<bool>, ghost list: seq<int>)
    returns (found: seq<nat>, ghost p: nat)
    requires ListAt(trs, slots, at, list, s) && |holds| == |trs|
    requires s < |temp| && temp[s] && forall j :: 0 <= j < |trs| ==> trs[j].to < |temp|
    requires forall k, l :: 0 <= k < l < |list| ==> list[k] < list[l]
    ensures p <= |list| && StopsAt(trs, list, smp, p)
    ensures forall j: nat :: j in found <==> j < |trs| && j in list[..p] && Matches(trs, j, ev, holds)
    ensures forall a, b :: 0 <= a < b < |found| ==> found[a] < found[b]
  {
    found, p := [], 0;
    var i := at;
    while slots[i] != -1
      invariant p <= |list| && i == at + p
      invariant forall k :: 0 <= k < p ==> trs[list[k]].isAbstract || trs[list[k]].smp == smp
      invariant forall j: nat :: j in found <==> j < |trs| && j in list[..p] && Matches(trs, j, ev, holds)
      invariant forall a, b :: 0 <= a < b < |found| ==> found[a] < found[b]
      invariant forall a :: 0 <= a < |found| && p < |list| ==> found[a] < list[p]
      decreases |list| - p
    {
      assert slots[at + p] == list[p];
      var j: nat := slots[i];
      assert list[..p + 1] == list[..p] + [j];
      var tr := trs[j];
      if tr.isAbstract {
      } else if tr.smp != smp {
        break;
      } else if temp[tr.to] && ev == 0 && tr.ev == 0 && tr.from == tr.to && !tr.guarded {
      } else if tr.ev == ev && tr.from == s && (!tr.guarded || holds[j]) {
        found := found + [j];
      }
      i, p := i + 1, p + 1;
    }
  }

  lemma OutgoingAt(trs: seq<Transition>, starts: seq<nat>, slots: seq<int>, n: nat, s: nat) returns (list: seq<int>)
    requires IndexOk(n, Froms(trs), starts, slots) && s <= n
    ensures ListAt(trs, slots, starts[s], list, s)
    ensures forall k, l :: 0 <= k < l < |list| ==> list[k] < list[l]
    ensures s != 0 ==> forall i :: 0 <= i < |trs| && trs[i].from == s ==> i in list
    ensures s == 0 ==> list == []
  {
    list := Outgoing(Froms(trs), s);
    var rest := SlotsAt(Froms(trs), n, s);
    IndicesOfAre(Froms(trs), s);
    assert slots[starts[s]..starts[s] + |list|] == list;
    assert slots[starts[s] + |list|] == -1;
    forall k | 0 <= k < |list|
      ensures slots[starts[s] + k] == list[k]
    {
      assert slots[starts[s]..starts[s] + |list|][k] == list[k];
    }
  }

  /** The matching transitions of one source. */
  method ScanState(trs: seq<Transition>, starts: seq<nat>, slots: seq<int>, n: nat, s: nat, temp: Config, ev: int,
                   holds: seq<bool>)
    returns (found: seq<nat>)
    requires IndexOk(n, Froms(trs), starts, slots) && s <= n && |holds| == |trs|
    requires |temp| == n + 1 && temp[s]
    requires forall j :: 0 <= j < |trs| ==> trs[j].from <= n && trs[j].to <= n
    ensures forall j: nat ::
      j in found <==> j < |trs| && trs[j].from == s != 0 && Matches(trs, j, ev, holds) && Reached(trs, j)
    ensures forall a, b :: 0 <= a < b < |found| ==> found[a] < found[b]
  {
    ghost var list := OutgoingAt(trs, starts, slots, n, s);
    var i := starts[s];
    assert list != [] ==> slots[i + 0] == list[0];
    if slots[i] == -1 {
      return [];
    }
    var smp := trs[slots[i]].smp;
    ghost var p;
    found, p := ScanList(trs, slots, i, s, smp, temp, ev, holds, list);
    forall j: nat | j < |trs| && trs[j].from == s
      ensures Reached(trs, j) <==> j in list[..p]
    {
      ReachedPrefix(trs, list, smp, p, j);
    }
    forall j: nat | j < |trs| && j in list[..p]
      ensures trs[j].from == s
    {
      assert j in list;
    }
  }

  /** Reached, said about the list of the source. */
  lemma ReachedPrefix(trs: seq<Transition>, list: seq<int>, smp: nat, p: nat, j: int)
    requires 0 <= j < |trs| && 0 < |list| && p <= |list| && j in list
    requires forall k :: 0 <= k < |list| ==> 0 <= list[k] < |trs| && trs[list[k]].from == trs[j].from
    requires forall k, l :: 0 <= k < l < |list| ==> list[k] < list[l]
    requires forall i :: 0 <= i < |trs| && trs[i].from == trs[j].from ==> i in list
    requires smp == trs[list[0]].smp
    requires StopsAt(trs, list, smp, p)
    ensures Reached(trs, j) <==> j in list[..p]
  {
    ListFirst(trs, list, j);
    var q :| 0 <= q < |list| && list[q] == j;
    if q < p {
      PrefixReached(trs, list, smp, p, j, q);
    } else {
      assert First(trs, list[0]);
      Unreached(trs, list[0], list[p], j);
      assert forall k :: 0 <= k < p ==> list[k] != j;
    }
  }

  lemma PrefixReached(trs: seq<Transition>, list: seq<int>, smp: nat, p: nat, j: int, q: nat)
    requires 0 <= j < |trs| && q < p <= |list| && list[q] == j
    requires forall k :: 0 <= k < |list| ==> 0 <= list[k] < |trs|
    requires forall k, l :: 0 <= k < l < |list| ==> list[k] < list[l]
    requires forall i :: 0 <= i < |trs| && trs[i].from == trs[j].from ==> i in list
    requires forall f :: 0 <= f < |trs| && trs[f].from == trs[j].from ==> (First(trs, f) <==> f == list[0])
    requires smp == trs[list[0]].smp
    requires forall k :: 0 <= k < p ==> trs[list[k]].isAbstract || trs[list[k]].smp == smp
    ensures Reached(trs, j)
  {
    forall i, f | 0 <= f <= i <= j && trs[i].from == trs[f].from == trs[j].from && !trs[i].isAbstract && First(trs, f)
      ensures trs[i].smp == trs[f].smp
    {
      assert i in list && f == list[0];
      var k :| 0 <= k < |list| && list[k] == i;
      assert k <= q;
    }
  }

  lemma Unreached(trs: seq<Transition>, f: int, i: int, j: int)
    requires 0 <= f <= i <= j < |trs| && trs[i].from == trs[f].from == trs[j].from
    requires First(trs, f) && !trs[i].isAbstract && trs[i].smp != trs[f].smp
    ensures !Reached(trs, j)
  {
  }

  lemma ListFirst(trs: seq<Transition>, list: seq<int>, j: int)
    requires 0 <= j < |trs| && 0 < |list|
    requires forall k :: 0 <= k < |list| ==> 0 <= list[k] < |trs| && trs[list[k]].from == trs[j].from
    requires forall k, l :: 0 <= k < l < |list| ==> list[k] < list[l]
    requires forall i :: 0 <= i < |trs| && trs[i].from == trs[j].from ==> i in list
    ensures forall f :: 0 <= f < |trs| && trs[f].from == trs[j].from ==> (First(trs, f) <==> f == list[0])
  {
    forall f | 0 <= f < |trs| && trs[f].from == trs[j].from
      ensures First(trs, f) <==> f == list[0]
    {
      assert f in list;
      assert trs[list[0]].from == trs[j].from;
    }
  }

  lemma Append(trs: seq<Transition>, triggered: seq<nat>, found: seq<nat>, s: nat)
    requires Distinct(triggered) && forall j: nat :: j in triggered ==> j < |trs| && trs[j].from < s
    requires forall j: nat :: j in found ==> j < |trs| && trs[j].from == s
    requires forall a, b :: 0 <= a < b < |found| ==> found[a] < found[b]
    ensures Distinct(triggered + found)
    ensures forall i :: 0 <= i < |triggered + found| ==> (triggered + found)[i] < |trs|
  {
    forall i | 0 <= i < |triggered|
      ensures triggered[i] < |trs| && trs[triggered[i]].from < s
    {
      assert triggered[i] in triggered;
    }
    forall i | 0 <= i < |found|
      ensures found[i] < |trs| && trs[found[i]].from == s
    {
      assert found[i] in found;
    }
  }

  /** All triggered transitions: each enabled and reached transition exactly once. */
  method ComputeTriggeredTransitions(trs: seq<Transition>, starts: seq<nat>, slots: seq<int>, n: nat, current: Config,
                                     temp: Config, ev: int, holds: seq<bool>)
    returns (triggered: seq<nat>)
    requires IndexOk(n, Froms(trs), starts, slots) && |holds| == |trs| < MAX_ACTIVE_TRANSITIONS
    requires |current| == n + 1 && !current[0] && temp == current
    requires forall j :: 0 <= j < |trs| ==> trs[j].from <= n && trs[j].to <= n
    ensures Distinct(triggered) && |triggered| < MAX_ACTIVE_TRANSITIONS
    ensures forall j: nat :: j in triggered <==> j < |trs| && Enabled(trs, current, j, ev, holds) && Reached(trs, j)
  {
    triggered := [];
    var s := 0;
    while s != |current| && |triggered| != MAX_ACTIVE_TRANSITIONS
      invariant s <= |current| && Distinct(triggered) && |triggered| < MAX_ACTIVE_TRANSITIONS
      invariant forall j: nat ::
        j in triggered <==> j < |trs| && trs[j].from < s && Enabled(trs, current, j, ev, holds) && Reached(trs, j)
    {
      if current[s] {
        var found := ScanState(trs, starts, slots, n, s, temp, ev, holds);
        Append(trs, triggered, found, s);
        triggered := triggered + found;
        DistinctBelow(triggered, |trs|);
      }
      s := s + 1;
    }
  }

  /** With one machine per source the scan through the index misses nothing. */
  lemma SharedMachineReachesAll(trs: seq<Transition>, j: nat)
    requires j < |trs| && SharedMachine(trs)
    ensures Reached(trs, j)
  {
  }

  ghost predicate Ascending(s: seq<nat>) {
    forall i, j :: 0 <= i < j < |s| ==> s[i] < s[j]
  }

  /** The numbers below n that occur in s, ascending: what sorting and dropping duplicates leaves. */
  function SortUnique(s: seq<nat>, n: nat): (r: seq<nat>)
    ensures Ascending(r)
    ensures forall j: nat {:trigger j in r} :: j in r <==> j in s && j < n
  {
    if n == 0 then [] else
      var r := SortUnique(s, n - 1);
      assert forall i :: 0 <= i < |r| ==> r[i] in r;
      if n - 1 in s then r + [n - 1] else r
  }

  /** The transitions a step takes: exactly the enabled and reached ones, in table order. */
  ghost predicate FiredBy(trs: seq<Transition>, c: Config, ev: int, holds: seq<bool>, fired: seq<nat>)
    requires |holds| == |trs| && forall j :: 0 <= j < |trs| ==> trs[j].from < |c|
  {
    Ascending(fired)
      && forall j: nat {:trigger j in fired} ::
         j in fired <==> j < |trs| && Enabled(trs, c, j, ev, holds) && Reached(trs, j)
  }

  /** Which transitions these are: their source is active, they are not abstract, their event is the one handled,
      their guard holds, they are no idle loops, and the scan reaches them: up to them no transition of their source
      belongs to another machine than its first one, unless it is abstract. */
  lemma FiredAre(trs: seq<Transition>, c: Config, ev: int, holds: seq<bool>, fired: seq<nat>, j: nat)
    requires |holds| == |trs| && forall i :: 0 <= i < |trs| ==> trs[i].from < |c|
    requires FiredBy(trs, c, ev, holds, fired)
    ensures j in fired <==>
      && j < |trs| && c[trs[j].from] && !trs[j].isAbstract && trs[j].ev == ev && (trs[j].guarded ==> holds[j])
      && !(ev == 0 && trs[j].from == trs[j].to && !trs[j].guarded)
      && forall i, f ::
        (0 <= f <= i <= j && trs[i].from == trs[f].from == trs[j].from && !trs[i].isAbstract
           && forall e :: 0 <= e < f ==> trs[e].from != trs[f].from) ==>
          trs[i].smp == trs[f].smp
  {
    if j < |trs| && forall i, f ::
         (0 <= f <= i <= j && trs[i].from == trs[f].from == trs[j].from && !trs[i].isAbstract
            && forall e :: 0 <= e < f ==> trs[e].from != trs[f].from) ==>
           trs[i].smp == trs[f].smp {
      assert Reached(trs, j);
    }
  }

  /** With one machine per source, all that are not idle loops fire. */
  lemma FiredWithSharedMachine(trs: seq<Transition>, c: Config, ev: int, holds: seq<bool>, fired: seq<nat>, j: nat)
    requires |holds| == |trs| && forall i :: 0 <= i < |trs| ==> trs[i].from < |c|
    requires FiredBy(trs, c, ev, holds, fired)
    requires forall i, k :: 0 <= i < |trs| && 0 <= k < |trs| && trs[i].from == trs[k].from ==> trs[i].smp == trs[k].smp
    ensures j in fired <==>
      && j < |trs| && c[trs[j].from] && !trs[j].isAbstract && trs[j].ev == ev && (trs[j].guarded ==> holds[j])
      && !(ev == 0 && trs[j].from == trs[j].to && !trs[j].guarded)
  {
    FiredAre(trs, c, ev, holds, fired, j);
  }

  lemma SomeFires(trs: seq<Transition>, c: Config, holds: seq<bool>, fired: seq<nat>)
    requires |holds| == |trs| && forall i :: 0 <= i < |trs| ==> trs[i].from < |c|
    requires FiredBy(trs, c, 0, holds, fired) && SharedMachine(trs)
    ensures fired != [] <==> exists j: nat {:trigger trs[j]} ::
      && j < |trs| && c[trs[j].from] && !trs[j].isAbstract && trs[j].ev == 0
      && (trs[j].guarded ==> holds[j]) && !(trs[j].from == trs[j].to && !trs[j].guarded)
  {
    if fired != [] {
      assert fired[0] in fired;
      FiredWithSharedMachine(trs, c, 0, holds, fired, fired[0]);
    }
    forall j: nat | j < |trs| && c[trs[j].from] && !trs[j].isAbstract && trs[j].ev == 0
      && (trs[j].guarded ==> holds[j]) && !(trs[j].from == trs[j].to && !trs[j].guarded)
      ensures j in fired
    {
      FiredWithSharedMachine(trs, c, 0, holds, fired, j);
    }
  }

  /** The fired transitions are determined by the configuration, the event and the guards. */
  lemma {:induction false} FiredUnique(s: seq<nat>, r: seq<nat>)
    requires Ascending(s) && Ascending(r) && forall j: nat {:trigger j in s} {:trigger j in r} :: j in s <==> j in r
    ensures s == r
    decreases |s|
  {
    LastGreatest(s, r);
    LastGreatest(r, s);
    if s != [] {
      var s', r' := s[..|s| - 1], r[..|r| - 1];
      DropLast(s);
      DropLast(r);
      FiredUnique(s', r');
      assert s == s' + [s[|s| - 1]] && r == r' + [r[|r| - 1]];
    }
  }

  lemma DropLast(s: seq<nat>)
    requires Ascending(s) && s != []
    ensures forall j: nat {:trigger j in s[..|s| - 1]} :: j in s[..|s| - 1] <==> j in s && j != s[|s| - 1]
  {
    assert s == s[..|s| - 1] + [s[|s| - 1]];
  }

  lemma LastGreatest(s: seq<nat>, r: seq<nat>)
    requires Ascending(s) && Ascending(r) && forall j: nat :: j in s ==> j in r
    ensures s != [] ==> r != [] && s[|s| - 1] <= r[|r| - 1]
  {
    if s != [] {
      assert s[|s| - 1] in r;
    }
  }
}
