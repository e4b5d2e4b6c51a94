/** The main event queue: a ring buffer of events and a second ring that finds the pending unique ones. */
module EventQueue {

  /** A ring of equally sized records. Offsets count records: every offset and capacity the queue uses is
      a multiple of the record size. */
  class Ringbuffer<R(0)> {
    const memory: array<R>
    var start: nat
    var end: nat
    var count: nat

    ghost predicate Valid()
      reads this, memory
    {
      && 0 < memory.Length && start < memory.Length && count <= memory.Length
      && end == Slot(count)
    }

    /** Where record i counted from the front is stored. */
    function Slot(i: nat): nat
      reads this
    {
      if start + i < memory.Length then start + i else start + i - memory.Length
    }

    /** Where the pending records are stored, oldest first. */
    ghost function Slots(): (s: seq<nat>)
      reads this
      ensures |s| == count && forall i :: 0 <= i < count ==> s[i] == Slot(i)
    {
      seq(count, i requires 0 <= i reads this => Slot(i))
    }

    ghost function Contents(): (q: seq<R>)
      reads this, memory
      requires Valid()
      ensures |q| == count
    {
      seq(count, i requires 0 <= i < count && start < memory.Length
          && count <= memory.Length reads this, memory => memory[Slot(i)])
    }

    constructor (capacity: nat)
      requires 0 < capacity
      ensures Valid() && fresh(memory) && memory.Length == capacity && Contents() == []
    {
      memory := new R[capacity];
      start, end, count := 0, 0, 0;
    }

    function Front(): R
      reads this, memory
      requires Valid() && 0 < count
      ensures Front() == Contents()[0]
    {
      memory[start]
    }

    /** Appends a record; a full ring drops its oldest one. Returns where the record is stored. */
    method Push(rec: R) returns (at: nat)
      requires Valid()
      modifies this, memory
      ensures Valid() && at < memory.Length && memory[at] == rec
      ensures Contents() == (if old(count) == memory.Length then old(Contents())[1..] else old(Contents())) + [rec]
      ensures count == (if old(count) == memory.Length then old(count) else old(count) + 1) && at == Slot(count - 1)
      ensures forall i: nat :: i < count - 1 ==> Slot(i) == old(Slot(if count == memory.Length then i + 1 else i))
    {
      var full := count == memory.Length;
      count := count + 1;
      if full {
        start := if start + 1 >= memory.Length then 0 else start + 1;
        count := count - 1;
      }
      at := end;
      memory[end] := rec;
      end := if end + 1 >= memory.Length then 0 else end + 1;
    }

    /** Removes the oldest record; an empty ring starts over at offset 0. */
    method Pop() returns (ok: bool)
      requires Valid()
      modifies this
      ensures Valid() && ok == (0 < old(count))
      ensures Contents() == if ok then old(Contents())[1..] else old(Contents())
      ensures forall i: nat :: i < count ==> Slot(i) == old(Slot(i + 1))
    {
      if count == 0 {
        return false;
      }
      start := if start + 1 >= memory.Length then 0 else start + 1;
      count := count - 1;
      if count == 0 {
        start, end := 0, 0;
      }
      return true;
    }

    /** Offset of the oldest record that satisfies p, or the capacity. */
    method Find(p: R -> bool) returns (ofs: nat)
      requires Valid()
      ensures ofs <= memory.Length
      ensures ofs == memory.Length <==> forall i :: 0 <= i < count ==> !p(Contents()[i])
      ensures ofs < memory.Length ==> exists i :: 0 <= i < count && ofs == Slot(i) && p(Contents()[i])
    {
      ofs := start;
      var i := 0;
      while i != count
        invariant i <= count && ofs <= memory.Length
        invariant (i < count ==> ofs == Slot(i) || (ofs == memory.Length && Slot(i) == 0))
        invariant forall j :: 0 <= j < i ==> !p(Contents()[j])
      {
        if ofs >= memory.Length {
          ofs := 0;
        }
        assert memory[ofs] == Contents()[i];
        if p(memory[ofs]) {
          return;
        }
        ofs := ofs + 1;
        i := i + 1;
      }
      ofs := memory.Length;
    }

    /** Moves the front record to the place of another one, which is dropped. */
    method SwapToFrontAndPop(ofs: nat, ghost k: nat)
      requires Valid() && (ofs < memory.Length && 0 < count ==> k < count && ofs == Slot(k))
      modifies this, memory
      ensures Valid()
      ensures Contents() == if ofs < memory.Length && 0 < old(count) then old(Contents())[k := old(Contents())[0]][1..]
        else old(Contents())
    {
      if ofs >= memory.Length || count == 0 {
        return;
      }
      if ofs == start {
        var _ := Pop();
        return;
      }
      var temp := memory[start];
      memory[start] := memory[ofs];
      memory[ofs] := temp;
      assert Contents() == old(Contents())[k := old(Contents())[0]][0 := old(Contents())[k]];
      var _ := Pop();
    }

    /** Overwrites a pending record in place. */
    method Replace(ofs: nat, rec: R, ghost i: nat)
      requires Valid() && i < count && ofs == Slot(i)
      modifies memory
      ensures Valid() && Contents() == old(Contents())[i := rec]
    {
      memory[ofs] := rec;
    }
  }

  /** Identifier of a pending unique event and where the event is stored. */
  datatype EventInfo<Id> = EventInfo(id: Id, storedAt: nat)

  // ---------------------------------------------------------------------- the queue as a sequence

  /** Which events are unique, and their identifiers. */
  datatype Kind<!E, !Id(==)> = Kind(unique: E -> bool, id: E -> Id) {
    /** e is unique and has identifier x. */
    predicate Is(e: E, x: Id) {
      unique(e) && id(e) == x
    }
  }

  /** No two pending unique events share an identifier. */
  ghost predicate OnePerId<E, Id>(kind: Kind<E, Id>, q: seq<E>) {
    forall i, j :: 0 <= i < j < |q| && kind.unique(q[i]) && kind.unique(q[j]) ==> kind.id(q[i]) != kind.id(q[j])
  }

  /** Position of the first pending unique event with identifier x, or |q|. */
  function Position<E, Id(==)>(kind: Kind<E, Id>, q: seq<E>, x: Id): (i: nat)
    ensures i <= |q|
    ensures i < |q| ==> kind.Is(q[i], x)
    ensures forall j :: 0 <= j < i ==> !kind.Is(q[j], x)
  {
    if q == [] || kind.Is(q[0], x) then 0 else 1 + Position(kind, q[1..], x)
  }

  /** Pushing: a unique event replaces the pending one with its identifier, anything else is appended. */
  function Pushed<E, Id(==)>(kind: Kind<E, Id>, q: seq<E>, e: E): (r: seq<E>) {
    if kind.unique(e) && Position(kind, q, kind.id(e)) < |q| then q[Position(kind, q, kind.id(e)) := e] else q + [e]
  }

  /** Pushing onto a ring of the given capacity: without a pending event to replace, a full ring loses its oldest. */
  function PushedWithin<E, Id(==)>(kind: Kind<E, Id>, capacity: nat, q: seq<E>, e: E): (r: seq<E>)
    requires 0 < capacity
  {
    if |q| == capacity && !Replaces(kind, q, e) then q[1..] + [e] else Pushed(kind, q, e)
  }

  predicate Replaces<E, Id(==)>(kind: Kind<E, Id>, q: seq<E>, e: E) {
    kind.unique(e) && Position(kind, q, kind.id(e)) < |q|
  }

  lemma PushedKeepsOnePerId<E, Id>(kind: Kind<E, Id>, q: seq<E>, e: E)
    requires OnePerId(kind, q)
    ensures OnePerId(kind, Pushed(kind, q, e))
  {
  }

  // ---------------------------------------------------------------------- many pushes

  /** Pushing the events of es in order. */
  ghost function PushedAll<E, Id>(kind: Kind<E, Id>, q: seq<E>, es: seq<E>): (r: seq<E>)
  {
    if es == [] then q else Pushed(kind, PushedAll(kind, q, es[..|es| - 1]), es[|es| - 1])
  }

  /** The events that are not unique, in order. */
  ghost function Plain<E, Id>(kind: Kind<E, Id>, q: seq<E>): seq<E> {
    if q == [] then [] else (if kind.unique(q[0]) then [] else [q[0]]) + Plain(kind, q[1..])
  }

  lemma {:induction false} PlainAppend<E, Id>(kind: Kind<E, Id>, q: seq<E>, r: seq<E>)
    ensures Plain(kind, q + r) == Plain(kind, q) + Plain(kind, r)
    decreases |q|
  {
    if q == [] {
      assert q + r == r;
    } else {
      assert (q + r)[1..] == q[1..] + r;
      PlainAppend(kind, q[1..], r);
    }
  }

  lemma PlainReplace<E, Id>(kind: Kind<E, Id>, q: seq<E>, i: nat, e: E)
    requires i < |q| && kind.unique(q[i]) && kind.unique(e)
    ensures Plain(kind, q[i := e]) == Plain(kind, q)
  {
    assert q == q[..i] + ([q[i]] + q[i + 1..]);
    assert q[i := e] == q[..i] + ([e] + q[i + 1..]);
    PlainAppend(kind, q[..i], [q[i]] + q[i + 1..]);
    PlainAppend(kind, q[..i], [e] + q[i + 1..]);
  }

  /** Events that are not unique are neither lost nor reordered by coalescing. */
  lemma {:induction false} PlainEventsKept<E, Id>(kind: Kind<E, Id>, q: seq<E>, es: seq<E>)
    ensures Plain(kind, PushedAll(kind, q, es)) == Plain(kind, q) + Plain(kind, es)
    decreases |es|
  {
    if es == [] {
      assert Plain(kind, q) + [] == Plain(kind, q);
    } else {
      var n := |es| - 1;
      var r, e := PushedAll(kind, q, es[..n]), es[n];
      PlainEventsKept(kind, q, es[..n]);
      assert es == es[..n] + [e];
      PlainAppend(kind, es[..n], [e]);
      if kind.unique(e) && Position(kind, r, kind.id(e)) < |r| {
        PlainReplace(kind, r, Position(kind, r, kind.id(e)), e);
      } else {
        PlainAppend(kind, r, [e]);
      }
    }
  }

  /** e is the last unique event of es with its identifier. */
  ghost predicate LastOfId<E, Id>(kind: Kind<E, Id>, es: seq<E>, j: int)
    requires 0 <= j < |es|
  {
    kind.unique(es[j]) && forall k :: j < k < |es| && kind.unique(es[k]) ==> kind.id(es[k]) != kind.id(es[j])
  }

  ghost predicate Latest<E, Id>(kind: Kind<E, Id>, es: seq<E>, e: E) {
    exists j :: 0 <= j < |es| && es[j] == e && LastOfId(kind, es, j)
  }

  /** A pending unique event is the last one pushed with its identifier, and each identifier pushed is
      pending exactly once. */
  lemma {:induction false} UniqueEventsCoalesced<E, Id>(kind: Kind<E, Id>, es: seq<E>)
    ensures OnePerId(kind, PushedAll(kind, [], es))
    ensures forall i ::
      0 <= i < |PushedAll(kind, [], es)| && kind.unique(PushedAll(kind, [], es)[i]) ==>
        Latest(kind, es, PushedAll(kind, [], es)[i])
    ensures forall j :: 0 <= j < |es| && LastOfId(kind, es, j) ==> es[j] in PushedAll(kind, [], es)
    decreases |es|
  {
    if es != [] {
      var n := |es| - 1;
      var r, e := PushedAll(kind, [], es[..n]), es[n];
      var r' := Pushed(kind, r, e);
      UniqueEventsCoalesced(kind, es[..n]);
      PushedKeepsOnePerId(kind, r, e);
      forall i | 0 <= i < |r'| && kind.unique(r'[i])
        ensures Latest(kind, es, r'[i])
      {
        LatestAfterPush(kind, es, r, i);
      }
      forall j | 0 <= j < |es| && LastOfId(kind, es, j)
        ensures es[j] in r'
      {
        assert es == es[..n] + [e];
        PendingAfterPush(kind, es[..n], e, r, j);
      }
    }
  }

  lemma LatestAfterPush<E, Id>(kind: Kind<E, Id>, es: seq<E>, r: seq<E>, i: nat)
    requires es != [] && OnePerId(kind, r)
    requires forall i :: 0 <= i < |r| && kind.unique(r[i]) ==> Latest(kind, es[..|es| - 1], r[i])
    requires i < |Pushed(kind, r, es[|es| - 1])| && kind.unique(Pushed(kind, r, es[|es| - 1])[i])
    ensures Latest(kind, es, Pushed(kind, r, es[|es| - 1])[i])
  {
    var n := |es| - 1;
    var e, r' := es[n], Pushed(kind, r, es[n]);
    if kind.unique(e) && kind.id(r'[i]) == kind.id(e) {
      PushedKeepsOnePerId(kind, r, e);
      assert r'[i] == e;
      assert LastOfId(kind, es, n);
    } else {
      assert i < |r| && r'[i] == r[i];
      var j :| 0 <= j < n && es[..n][j] == r[i] && LastOfId(kind, es[..n], j);
      forall k | j < k < |es| && kind.unique(es[k])
        ensures kind.id(es[k]) != kind.id(es[j])
      {
        if k < n {
          assert es[..n][k] == es[k];
        }
      }
      assert LastOfId(kind, es, j);
    }
  }

  lemma PendingAfterPush<E, Id>(kind: Kind<E, Id>, before: seq<E>, e: E, r: seq<E>, j: nat)
    requires j < |before + [e]| && LastOfId(kind, before + [e], j)
    requires forall j :: 0 <= j < |before| && LastOfId(kind, before, j) ==> before[j] in r
    ensures (before + [e])[j] in Pushed(kind, r, e)
  {
    var es, r' := before + [e], Pushed(kind, r, e);
    var p := Position(kind, r, kind.id(e));
    if j == |before| {
      if kind.unique(e) && p < |r| {
        assert r'[p] == e;
      } else {
        assert r'[|r|] == e;
      }
    } else {
      assert forall k :: 0 <= k < |before| ==> es[k] == before[k];
      assert LastOfId(kind, before, j);
      var i :| 0 <= i < |r| && r[i] == es[j];
      assert es[|before|] == e;
      assert r'[i] == es[j];
    }
  }

  // ---------------------------------------------------------------------- the side index

  /** Entry info stands for event e stored at ofs. */
  ghost predicate Stands<E, Id>(kind: Kind<E, Id>, e: E, ofs: nat, info: EventInfo<Id>) {
    kind.unique(e) && info == EventInfo(kind.id(e), ofs)
  }

  ghost predicate HasEvent<E, Id>(kind: Kind<E, Id>, q: seq<E>, slots: seq<nat>, info: EventInfo<Id>)
    requires |slots| == |q|
  {
    exists i :: 0 <= i < |q| && Stands(kind, q[i], slots[i], info)
  }

  ghost predicate HasEntry<E, Id>(kind: Kind<E, Id>, e: E, ofs: nat, u: seq<EventInfo<Id>>) {
    exists k :: 0 <= k < |u| && Stands(kind, e, ofs, u[k])
  }

  /** u holds exactly one entry per pending unique event of q; slots says where the events are stored. */
  ghost predicate Indexed<E, Id>(kind: Kind<E, Id>, q: seq<E>, slots: seq<nat>, u: seq<EventInfo<Id>>) {
    && |slots| == |q| && OnePerId(kind, q)
    && (forall k {:trigger HasEvent(kind, q, slots, u[k])} :: 0 <= k < |u| ==> HasEvent(kind, q, slots, u[k]))
    && (forall i {:trigger HasEntry(kind, q[i], slots[i], u)} ::
         0 <= i < |q| && kind.unique(q[i]) ==> HasEntry(kind, q[i], slots[i], u))
    && (forall k, l :: 0 <= k < l < |u| ==> u[k].id != u[l].id)
  }

  /** Without an entry for its identifier an event is no duplicate. */
  lemma NoEntryNoEvent<E, Id>(kind: Kind<E, Id>, q: seq<E>, slots: seq<nat>, u: seq<EventInfo<Id>>, e: E)
    requires Indexed(kind, q, slots, u) && kind.unique(e) && forall k :: 0 <= k < |u| ==> u[k].id != kind.id(e)
    ensures forall i :: 0 <= i < |q| && kind.unique(q[i]) ==> kind.id(q[i]) != kind.id(e)
  {
    forall i | 0 <= i < |q| && kind.unique(q[i])
      ensures kind.id(q[i]) != kind.id(e)
    {
      assert HasEntry(kind, q[i], slots[i], u);
    }
  }

  lemma HasEventMore<E, Id>(kind: Kind<E, Id>, q: seq<E>, slots: seq<nat>, e: E, at: nat, info: EventInfo<Id>)
    requires |slots| == |q| && (HasEvent(kind, q, slots, info) || Stands(kind, e, at, info))
    ensures HasEvent(kind, q + [e], slots + [at], info)
  {
    var q', slots' := q + [e], slots + [at];
    if HasEvent(kind, q, slots, info) {
      var i :| 0 <= i < |q| && Stands(kind, q[i], slots[i], info);
      assert Stands(kind, q'[i], slots'[i], info);
    } else {
      assert Stands(kind, q'[|q|], slots'[|q|], info);
    }
  }

  lemma HasEntryMore<E, Id>(kind: Kind<E, Id>, e: E, ofs: nat, u: seq<EventInfo<Id>>, info: EventInfo<Id>)
    requires HasEntry(kind, e, ofs, u) || Stands(kind, e, ofs, info)
    ensures HasEntry(kind, e, ofs, u + [info])
  {
    if HasEntry(kind, e, ofs, u) {
      var k :| 0 <= k < |u| && Stands(kind, e, ofs, u[k]);
      assert Stands(kind, e, ofs, (u + [info])[k]);
    } else {
      assert Stands(kind, e, ofs, (u + [info])[|u|]);
    }
  }

  /** Appending an event that is not unique. */
  lemma IndexedAppendPlain<E, Id>(kind: Kind<E, Id>, q: seq<E>, slots: seq<nat>, u: seq<EventInfo<Id>>, e: E, at: nat)
    requires Indexed(kind, q, slots, u) && !kind.unique(e)
    ensures Indexed(kind, q + [e], slots + [at], u)
    ensures Pushed(kind, q, e) == q + [e]
  {
    forall k | 0 <= k < |u|
      ensures HasEvent(kind, q + [e], slots + [at], u[k])
    {
      HasEventMore(kind, q, slots, e, at, u[k]);
    }
  }

  /** Appending a unique event whose identifier is not pending. */
  lemma IndexedAppendUnique<E, Id>(kind: Kind<E, Id>, q: seq<E>, slots: seq<nat>, u: seq<EventInfo<Id>>, e: E, at: nat)
    requires Indexed(kind, q, slots, u) && kind.unique(e)
    requires forall k :: 0 <= k < |u| ==> u[k].id != kind.id(e)
    ensures Indexed(kind, q + [e], slots + [at], u + [EventInfo(kind.id(e), at)])
    ensures Pushed(kind, q, e) == q + [e]
  {
    var info := EventInfo(kind.id(e), at);
    NoEntryNoEvent(kind, q, slots, u, e);
    forall k | 0 <= k < |u + [info]|
      ensures HasEvent(kind, q + [e], slots + [at], (u + [info])[k])
    {
      HasEventMore(kind, q, slots, e, at, (u + [info])[k]);
    }
    forall i | 0 <= i < |q + [e]| && kind.unique((q + [e])[i])
      ensures HasEntry(kind, (q + [e])[i], (slots + [at])[i], u + [info])
    {
      HasEntryMore(kind, (q + [e])[i], (slots + [at])[i], u, info);
    }
  }

  /** Replacing the pending event an entry stands for. */
  lemma IndexedReplace<E, Id>(kind: Kind<E, Id>, q: seq<E>, slots: seq<nat>, u: seq<EventInfo<Id>>, e: E, k: nat,
                              i: nat)
    requires Indexed(kind, q, slots, u) && k < |u| && i < |q| && Stands(kind, q[i], slots[i], u[k])
    requires kind.unique(e) && u[k].id == kind.id(e)
    ensures Indexed(kind, q[i := e], slots, u)
    ensures Pushed(kind, q, e) == q[i := e]
  {
    assert i == Position(kind, q, kind.id(e));
    var q' := q[i := e];
    forall l | 0 <= l < |u|
      ensures HasEvent(kind, q', slots, u[l])
    {
      assert HasEvent(kind, q, slots, u[l]);
      var j :| 0 <= j < |q| && Stands(kind, q[j], slots[j], u[l]);
      assert Stands(kind, q'[j], slots[j], u[l]);
    }
    forall j | 0 <= j < |q'| && kind.unique(q'[j])
      ensures HasEntry(kind, q'[j], slots[j], u)
    {
      assert HasEntry(kind, q[j], slots[j], u);
      var l :| 0 <= l < |u| && Stands(kind, q[j], slots[j], u[l]);
      assert Stands(kind, q'[j], slots[j], u[l]);
    }
  }

  /** Dropping an oldest event that is not unique. */
  lemma IndexedDropPlain<E, Id>(kind: Kind<E, Id>, q: seq<E>, slots: seq<nat>, u: seq<EventInfo<Id>>)
    requires Indexed(kind, q, slots, u) && q != [] && !kind.unique(q[0])
    ensures Indexed(kind, q[1..], slots[1..], u)
  {
    forall l | 0 <= l < |u|
      ensures HasEvent(kind, q[1..], slots[1..], u[l])
    {
      assert HasEvent(kind, q, slots, u[l]);
      var j :| 0 <= j < |q| && Stands(kind, q[j], slots[j], u[l]);
      assert Stands(kind, q[1..][j - 1], slots[1..][j - 1], u[l]);
    }
    forall j | 0 <= j < |q[1..]| && kind.unique(q[1..][j])
      ensures HasEntry(kind, q[1..][j], slots[1..][j], u)
    {
      assert HasEntry(kind, q[j + 1], slots[j + 1], u);
    }
  }

  /** Dropping a unique oldest event with its entry; the first entry takes the place of that entry. */
  lemma IndexedDropUnique<E, Id>(kind: Kind<E, Id>, q: seq<E>, slots: seq<nat>, u: seq<EventInfo<Id>>, k: nat)
    requires Indexed(kind, q, slots, u) && q != [] && kind.unique(q[0])
    requires k < |u| && u[k].id == kind.id(q[0])
    ensures Indexed(kind, q[1..], slots[1..], u[k := u[0]][1..])
  {
    var u' := u[k := u[0]][1..];
    forall l | 0 <= l < |u'|
      ensures HasEvent(kind, q[1..], slots[1..], u'[l])
    {
      var l0 := if l + 1 == k then 0 else l + 1;
      assert u'[l] == u[l0] && l0 != k;
      assert HasEvent(kind, q, slots, u[l0]);
      var j :| 0 <= j < |q| && Stands(kind, q[j], slots[j], u[l0]);
      assert j != 0;
      assert Stands(kind, q[1..][j - 1], slots[1..][j - 1], u'[l]);
    }
    forall j | 0 <= j < |q[1..]| && kind.unique(q[1..][j])
      ensures HasEntry(kind, q[1..][j], slots[1..][j], u')
    {
      assert HasEntry(kind, q[j + 1], slots[j + 1], u);
      var l :| 0 <= l < |u| && Stands(kind, q[j + 1], slots[j + 1], u[l]);
      assert l != k;
      var l' := if l == 0 then k - 1 else l - 1;
      assert u'[l'] == u[l];
      assert Stands(kind, q[1..][j], slots[1..][j], u'[l']);
    }
  }

  // ---------------------------------------------------------------------- full rings

  /** Pushing e keeps the index exact: it replaces a pending event, or what the full rings lose is no unique event,
      or just such an event with its own entry. */
  ghost predicate KeepsIndex<E, Id>(kind: Kind<E, Id>, q: seq<E>, slots: seq<nat>, u: seq<EventInfo<Id>>, e: E,
                                    full: bool, sideFull: bool)
    requires |slots| == |q| && (full ==> q != []) && (sideFull ==> u != [])
  {
    || Replaces(kind, q, e)
    || (if kind.unique(e) && sideFull then full && Stands(kind, q[0], slots[0], u[0]) else !(full && kind.unique(q[0])))
  }

  /** An entry whose event has gone. */
  lemma StaleEntry<E, Id>(kind: Kind<E, Id>, q: seq<E>, slots: seq<nat>, u: seq<EventInfo<Id>>, e: E, slots': seq<nat>,
                          u': seq<EventInfo<Id>>, k: nat)
    requires Indexed(kind, q, slots, u) && q != [] && kind.unique(q[0]) && !Replaces(kind, q, e)
    requires k < |u'| && u'[k].id == kind.id(q[0]) && |slots'| == |q|
    ensures !Indexed(kind, q[1..] + [e], slots', u')
  {
    var q' := q[1..] + [e];
    assert forall i :: 0 <= i < |q| - 1 ==> q'[i] == q[i + 1];
    if HasEvent(kind, q', slots', u'[k]) {
      var i :| 0 <= i < |q'| && Stands(kind, q'[i], slots'[i], u'[k]);
      if i < |q| - 1 {
        assert false;
      } else {
        PendingFound(kind, q, e, 0);
        assert false;
      }
    }
  }

  lemma PendingFound<E, Id>(kind: Kind<E, Id>, q: seq<E>, e: E, i: nat)
    requires i < |q| && kind.unique(q[i]) && kind.unique(e) && kind.id(q[i]) == kind.id(e)
    ensures Replaces(kind, q, e)
  {
    assert kind.Is(q[i], kind.id(e));
  }

  /** A pending event whose entry has gone. */
  lemma LostEntry<E, Id>(kind: Kind<E, Id>, q': seq<E>, slots': seq<nat>, u': seq<EventInfo<Id>>, j: nat)
    requires |slots'| == |q'| && j < |q'| && kind.unique(q'[j])
    requires forall l :: 0 <= l < |u'| ==> u'[l].id != kind.id(q'[j])
    ensures !Indexed(kind, q', slots', u')
  {
    assert !HasEntry(kind, q'[j], slots'[j], u');
  }

  /** Appending e keeps the index exact just under that condition. */
  lemma AppendKeepsIff<E, Id>(kind: Kind<E, Id>, q: seq<E>, slots: seq<nat>, u: seq<EventInfo<Id>>, e: E, at: nat,
                              full: bool, sideFull: bool)
    requires Indexed(kind, q, slots, u) && !Replaces(kind, q, e) && (full ==> q != []) && (sideFull ==> u != [])
    ensures var (q', slots', u') := Appended(kind, q, slots, u, e, at, full, sideFull);
      Indexed(kind, q', slots', u') <==> KeepsIndex(kind, q, slots, u, e, full, sideFull)
  {
    if kind.unique(e) {
      AppendUniqueKeepsIff(kind, q, slots, u, e, at, full, sideFull);
    } else {
      AppendPlainKeepsIff(kind, q, slots, u, e, at, full);
    }
  }

  /** Events, their places, and entries after appending e. */
  ghost function Appended<E, Id>(kind: Kind<E, Id>, q: seq<E>, slots: seq<nat>, u: seq<EventInfo<Id>>, e: E, at: nat,
                                 full: bool, sideFull: bool)
    : (r: (seq<E>, seq<nat>, seq<EventInfo<Id>>))
    requires |slots| == |q| && (full ==> q != []) && (sideFull ==> u != [])
  {
    ((if full then q[1..] else q) + [e], (if full then slots[1..] else slots) + [at],
     if kind.unique(e) then (if sideFull then u[1..] else u) + [EventInfo(kind.id(e), at)] else u)
  }

  lemma AppendPlainKeepsIff<E, Id>(kind: Kind<E, Id>, q: seq<E>, slots: seq<nat>, u: seq<EventInfo<Id>>, e: E, at: nat,
                                   full: bool)
    requires Indexed(kind, q, slots, u) && !kind.unique(e) && (full ==> q != [])
    ensures Indexed(kind, (if full then q[1..] else q) + [e], (if full then slots[1..] else slots) + [at], u)
       <==> !(full && kind.unique(q[0]))
  {
    if full && kind.unique(q[0]) {
      var k := FrontEntry(kind, q, slots, u);
      StaleEntry(kind, q, slots, u, e, slots[1..] + [at], u, k);
    } else if full {
      IndexedDropPlain(kind, q, slots, u);
      IndexedAppendPlain(kind, q[1..], slots[1..], u, e, at);
    } else {
      IndexedAppendPlain(kind, q, slots, u, e, at);
    }
  }

  lemma NoPending<E, Id>(kind: Kind<E, Id>, q: seq<E>, slots: seq<nat>, u: seq<EventInfo<Id>>, e: E)
    requires Indexed(kind, q, slots, u) && kind.unique(e) && !Replaces(kind, q, e)
    ensures forall k :: 0 <= k < |u| ==> u[k].id != kind.id(e)
  {
    forall k | 0 <= k < |u|
      ensures u[k].id != kind.id(e)
    {
      assert HasEvent(kind, q, slots, u[k]);
      var i :| 0 <= i < |q| && Stands(kind, q[i], slots[i], u[k]);
      assert kind.Is(q[i], kind.id(q[i]));
    }
  }

  lemma AppendUniqueKeepsIff<E, Id>(kind: Kind<E, Id>, q: seq<E>, slots: seq<nat>, u: seq<EventInfo<Id>>, e: E, at: nat,
                                    full: bool, sideFull: bool)
    requires Indexed(kind, q, slots, u) && kind.unique(e) && !Replaces(kind, q, e) && (full ==> q != [])
      && (sideFull ==> u != [])
    ensures var (q', slots', u') := Appended(kind, q, slots, u, e, at, full, sideFull);
      Indexed(kind, q', slots', u') <==> KeepsIndex(kind, q, slots, u, e, full, sideFull)
  {
    NoPending(kind, q, slots, u, e);
    if sideFull {
      SideFullKeepsIff(kind, q, slots, u, e, at, full);
    } else if full && kind.unique(q[0]) {
      var k := FrontEntry(kind, q, slots, u);
      StaleEntry(kind, q, slots, u, e, slots[1..] + [at], u + [EventInfo(kind.id(e), at)], k);
    } else if full {
      IndexedDropPlain(kind, q, slots, u);
      IndexedAppendUnique(kind, q[1..], slots[1..], u, e, at);
    } else {
      IndexedAppendUnique(kind, q, slots, u, e, at);
    }
  }

  /** A full side ring loses its oldest entry. */
  lemma SideFullKeepsIff<E, Id>(kind: Kind<E, Id>, q: seq<E>, slots: seq<nat>, u: seq<EventInfo<Id>>, e: E, at: nat,
                                full: bool)
    requires Indexed(kind, q, slots, u) && kind.unique(e) && !Replaces(kind, q, e) && (full ==> q != []) && u != []
    requires forall k :: 0 <= k < |u| ==> u[k].id != kind.id(e)
    ensures Indexed(kind, (if full then q[1..] else q) + [e], (if full then slots[1..] else slots) + [at],
        u[1..] + [EventInfo(kind.id(e), at)])
       <==> full && Stands(kind, q[0], slots[0], u[0])
  {
    var u' := u[1..] + [EventInfo(kind.id(e), at)];
    assert HasEvent(kind, q, slots, u[0]);
    var i :| 0 <= i < |q| && Stands(kind, q[i], slots[i], u[0]);
    if full && i == 0 {
      IndexedDropUnique(kind, q, slots, u, 0);
      assert u[0 := u[0]][1..] == u[1..];
      IndexedAppendUnique(kind, q[1..], slots[1..], u[1..], e, at);
    } else {
      var q', j := (if full then q[1..] else q) + [e], if full then i - 1 else i;
      assert q'[j] == q[i];
      LostEntry(kind, q', (if full then slots[1..] else slots) + [at], u', j);
    }
  }

  /** A ring of one event that is full with event 1: pushing event 2 leaves the entry of event 1 behind. */
  lemma FullRingLeavesEntry() returns (kind: Kind<int, int>)
    ensures Indexed(kind, [1], [0], [EventInfo(1, 0)]) && !Replaces(kind, [1], 2)
    ensures !Indexed(kind, [2], [0], [EventInfo(1, 0), EventInfo(2, 0)])
  {
    kind := Kind((e: int) => true, (e: int) => e);
    var q, slots, u := [1], [0], [EventInfo(1, 0)];
    assert Stands(kind, q[0], slots[0], u[0]);
    assert HasEvent(kind, q, slots, u[0]) && HasEntry(kind, q[0], slots[0], u);
    assert q[1..] + [2] == [2];
    StaleEntry(kind, q, slots, u, 2, [0], u + [EventInfo(2, 0)], 0);
    assert u + [EventInfo(2, 0)] == [EventInfo(1, 0), EventInfo(2, 0)];
  }

  // ---------------------------------------------------------------------- two rings

  class Eventqueue<E(0), Id(0, ==)> {
    const kind: Kind<E, Id>
    const data: Ringbuffer<E>
    const side: Ringbuffer<EventInfo<Id>>

    ghost predicate Rings()
      reads this, data, data.memory, side, side.memory
    {
      data.Valid() && side.Valid() && data as object != side && data.memory as object != side.memory
    }

    /** The side ring holds exactly one entry per pending unique event. */
    ghost predicate Valid()
      reads this, data, data.memory, side, side.memory
    {
      Rings() && Indexed(kind, data.Contents(), data.Slots(), side.Contents())
    }

    /** Pushing e keeps the side ring exact. */
    ghost predicate KeepsExact(e: E)
      requires Rings()
      reads this, data, data.memory, side, side.memory
    {
      KeepsIndex(kind, data.Contents(), data.Slots(), side.Contents(), e, data.count == data.memory.Length,
          side.count == side.memory.Length)
    }

    constructor (kind: Kind<E, Id>, capacity: nat, sideCapacity: nat)
      requires 0 < capacity && 0 < sideCapacity
      ensures Valid() && data.Contents() == [] && this.kind == kind
      ensures data.memory.Length == capacity && side.memory.Length == sideCapacity
      ensures fresh(data) && fresh(data.memory) && fresh(side) && fresh(side.memory)
    {
      this.kind := kind;
      data := new Ringbuffer<E>(capacity);
      side := new Ringbuffer<EventInfo<Id>>(sideCapacity);
    }

    /** Offset of the side entry with identifier x, or the capacity of the side ring. */
    method FindEntry(x: Id) returns (ofs: nat, ghost k: nat)
      requires Valid()
      ensures ofs <= side.memory.Length
      ensures ofs < side.memory.Length ==> k < side.count && ofs == side.Slot(k) && side.Contents()[k].id == x
      ensures ofs == side.memory.Length ==> forall l :: 0 <= l < side.count ==> side.Contents()[l].id != x
    {
      k := 0;
      var sameId := (info: EventInfo<Id>) => info.id == x;
      ofs := side.Find(sameId);
      if ofs < side.memory.Length {
        k :| 0 <= k < side.count && ofs == side.Slot(k) && sameId(side.Contents()[k]);
      } else {
        forall l | 0 <= l < side.count
          ensures side.Contents()[l].id != x
        {
          assert !sameId(side.Contents()[l]);
        }
      }
    }

    /** Pushes an event, replacing a pending one or losing the oldest one of a full ring; the side ring stays exact
        just if no unique event is lost without its own entry. */
    method Push(e: E)
      requires Valid()
      modifies data, data.memory, side, side.memory
      ensures Rings() && data.Contents() == PushedWithin(kind, data.memory.Length, old(data.Contents()), e)
      ensures Valid() <==> old(KeepsExact(e))
    {
      ghost var q, slots, u := data.Contents(), data.Slots(), side.Contents();
      if kind.unique(e) {
        var ofs;
        ghost var k;
        ofs, k := FindEntry(kind.id(e));
        if ofs < side.memory.Length {
          ReplacePending(e, ofs, k);
          return;
        }
        assert side.Contents() == u && data.Contents() == q && data.Slots() == slots;
        NoEntryNoEvent(kind, q, slots, u, e);
        AppendUnique(e);
        return;
      }
      ghost var full := data.count == data.memory.Length;
      var at := data.Push(e);
      assert data.Slots() == (if full then slots[1..] else slots) + [at];
      AppendPlainKeepsIff(kind, q, slots, u, e, at, full);
    }

    method ReplacePending(e: E, ofs: nat, ghost k: nat)
      requires Valid() && kind.unique(e)
      requires k < side.count && ofs == side.Slot(k) && side.Contents()[k].id == kind.id(e)
      modifies data.memory
      ensures Valid() && Replaces(kind, old(data.Contents()), e)
      ensures data.Contents() == Pushed(kind, old(data.Contents()), e)
    {
      ghost var q, slots, u := data.Contents(), data.Slots(), side.Contents();
      assert HasEvent(kind, q, slots, u[k]);
      ghost var i :| 0 <= i < |q| && Stands(kind, q[i], slots[i], u[k]);
      assert side.memory[ofs] == u[k];
      data.Replace(side.memory[ofs].storedAt, e, i);
      IndexedReplace(kind, q, slots, u, e, k, i);
      PendingFound(kind, q, e, i);
    }

    method AppendUnique(e: E)
      requires Valid() && kind.unique(e) && !Replaces(kind, data.Contents(), e)
      modifies data, data.memory, side, side.memory
      ensures Rings() && data.Contents() == PushedWithin(kind, data.memory.Length, old(data.Contents()), e)
      ensures Valid() <==> old(KeepsExact(e))
    {
      ghost var q, slots, u := data.Contents(), data.Slots(), side.Contents();
      ghost var full, sideFull := data.count == data.memory.Length, side.count == side.memory.Length;
      var at := data.Push(e);
      var _ := side.Push(EventInfo(kind.id(e), at));
      assert data.Slots() == (if full then slots[1..] else slots) + [at];
      AppendUniqueKeepsIff(kind, q, slots, u, e, at, full, sideFull);
    }

    method Pop()
      requires Valid()
      modifies data, side, side.memory
      ensures Valid()
      ensures data.Contents() == if old(data.Contents()) == [] then [] else old(data.Contents())[1..]
    {
      if data.count == 0 {
        return;
      }
      if side.count == 0 || !kind.unique(data.Front()) {
        PopPlain();
        return;
      }
      PopUnique();
    }

    method PopPlain()
      requires Valid() && 0 < data.count && (side.count == 0 || !kind.unique(data.Contents()[0]))
      modifies data
      ensures Valid() && data.Contents() == old(data.Contents())[1..]
    {
      ghost var q, slots, u := data.Contents(), data.Slots(), side.Contents();
      assert kind.unique(q[0]) ==> HasEntry(kind, q[0], slots[0], u);
      IndexedDropPlain(kind, q, slots, u);
      var _ := data.Pop();
      assert data.Slots() == slots[1..];
    }

    method PopUnique()
      requires Valid() && 0 < data.count && kind.unique(data.Contents()[0])
      modifies data, side, side.memory
      ensures Valid() && data.Contents() == old(data.Contents())[1..]
    {
      ghost var q, slots, u := data.Contents(), data.Slots(), side.Contents();
      var ofs;
      ghost var k;
      ofs, k := FindEntry(kind.id(data.Front()));
      ghost var l := FrontEntry(kind, q, slots, u);
      assert side.Contents()[l].id == kind.id(q[0]);
      assert ofs < side.memory.Length;
      var _ := data.Pop();
      assert data.Slots() == slots[1..];
      RemoveEntry(ofs, k);
      Reindexed(kind, q, slots, u, k, data.Contents(), data.Slots(), side.Contents());
    }

    method RemoveEntry(ofs: nat, ghost k: nat)
      requires data.Valid() && side.Valid() && data as object != side && data.memory as object != side.memory
      requires ofs < side.memory.Length ==> k < side.count && ofs == side.Slot(k)
      modifies side, side.memory
      ensures data.Valid() && side.Valid()
      ensures data.Contents() == old(data.Contents()) && data.Slots() == old(data.Slots())
      ensures ofs < side.memory.Length ==> side.Contents() == old(side.Contents())[k := old(side.Contents())[0]][1..]
    {
      if ofs >= side.memory.Length {
        return;
      }
      side.SwapToFrontAndPop(ofs, k);
      assert data.Contents() == old(data.Contents());
    }
  }

  lemma Reindexed<E, Id>(kind: Kind<E, Id>, q: seq<E>, slots: seq<nat>, u: seq<EventInfo<Id>>, k: nat, q': seq<E>,
                         slots': seq<nat>, u': seq<EventInfo<Id>>)
    requires Indexed(kind, q, slots, u) && q != [] && kind.unique(q[0])
    requires k < |u| && u[k].id == kind.id(q[0])
    requires q' == q[1..] && slots' == slots[1..] && u' == u[k := u[0]][1..]
    ensures Indexed(kind, q', slots', u')
  {
    IndexedDropUnique(kind, q, slots, u, k);
  }

  lemma FrontEntry<E, Id>(kind: Kind<E, Id>, q: seq<E>, slots: seq<nat>, u: seq<EventInfo<Id>>) returns (l: nat)
    requires Indexed(kind, q, slots, u) && q != [] && kind.unique(q[0])
    ensures l < |u| && u[l].id == kind.id(q[0])
  {
    assert HasEntry(kind, q[0], slots[0], u);
    l :| 0 <= l < |u| && Stands(kind, q[0], slots[0], u[l]);
  }
}
