/** Small tables for inputs that show what the engine does. */
module Samples {
  import opened Containment

  /** Machine 1 with the Initial state 2. */
  const ONE_MACHINE: TableData :=
    TableData(2, [0, 0, 1], [false, true, false], [false, false, false], [false, false, false],
              [false, false, false], [false, false, false], [false, false, false],
              [0, 2, 0], [0, 0, 0], [0, 0, 0], [0, 0, 0], [1, 2, 0], [0, 0, 1])

  lemma OneMachineForest()
    ensures Shaped(ONE_MACHINE) && Forest(ONE_MACHINE)
  {
  }

  lemma OneMachineList()
    requires Shaped(ONE_MACHINE)
    ensures ListOk(ONE_MACHINE, 1)
  {
    var t: ShapedTables := ONE_MACHINE;
    assert ListEnd(t.children, 2) == 2;
    assert ListEnd(t.children, 1) == 2;
    forall c | IsChild(t, c, 1)
      ensures c == t.children[1]
    {
    }
  }

  lemma OneMachineWf()
    ensures Shaped(ONE_MACHINE) && Wf(ONE_MACHINE) && HasInitials(ONE_MACHINE)
  {
    OneMachineForest();
    OneMachineList();
  }

  lemma OneMachineLegal()
    ensures Wf(ONE_MACHINE) && HasInitials(ONE_MACHINE) && Legal(ONE_MACHINE, [false, true, true])
  {
    OneMachineWf();
    var v: Config := [false, true, true];
    assert IsChild(ONE_MACHINE, 2, 1) && v[2];
  }

  lemma NothingLegal(t: Tables, c: Config)
    requires |c| == t.n + 1 && forall s :: 0 <= s <= t.n ==> !c[s]
    ensures Legal(t, c)
  {
  }

  const FIVE_NO := [false, false, false, false, false]

  /** Machine 1 with the Initial state 2 and machine 3, which has the Initial state 4. */
  const NESTED: TableData :=
    TableData(4, [0, 0, 1, 1, 3], [false, true, false, true, false], FIVE_NO, FIVE_NO, FIVE_NO, FIVE_NO, FIVE_NO,
              [0, 2, 0, 4, 0], [0, 0, 0, 0, 0], [0, 0, 0, 0, 0], [0, 0, 0, 4, 0], [1, 2, 3, 0, 3, 4, 0],
                [0, 0, 1, 1, 2])

  lemma NestedForest()
    ensures Shaped(NESTED) && Forest(NESTED)
  {
  }

  lemma NestedList(m: nat, lo: nat, hi: nat)
    requires Shaped(NESTED) && ((m == 1 && lo == 1 && hi == 3) || (m == 3 && lo == 5 && hi == 6))
    ensures NESTED.stateToChildren[m] + 1 == lo && ListEnd(NESTED.children, lo) == hi
  {
    if m == 1 {
      assert ListEnd(NESTED.children, 3) == 3;
      assert ListEnd(NESTED.children, 2) == 3;
    } else {
      assert ListEnd(NESTED.children, 6) == 6;
    }
  }

  lemma NestedLists(s: nat)
    requires Shaped(NESTED) && (s == 1 || s == 3)
    ensures ListOk(NESTED, s)
  {
    var t: ShapedTables := NESTED;
    NestedList(s, if s == 1 then 1 else 5, if s == 1 then 3 else 6);
    forall c | IsChild(t, c, s)
      ensures c == t.children[if s == 3 then 5 else if c == 2 then 1 else 2]
    {
    }
  }

  lemma NestedNames()
    ensures Shaped(NESTED)
    ensures forall s {:trigger NESTED.initial[s]} :: Node(NESTED, s) && NESTED.initial[s] != 0 ==>
      IsChild(NESTED, NESTED.initial[s], s) && !NESTED.sm[NESTED.initial[s]]
    ensures forall s :: Node(NESTED, s) ==> NESTED.finalState[s] == 0 && NESTED.joinState[s] == 0
    ensures forall s {:trigger Node(NESTED, s)} ::
      Node(NESTED, s) && NESTED.sm[s] ==> NESTED.initial[s] != 0 && (s == 1 || s == 3)
  {
  }

  lemma NestedWf()
    ensures Shaped(NESTED) && Wf(NESTED) && HasInitials(NESTED)
  {
    NestedForest();
    NestedNames();
    NestedLists(1);
    NestedLists(3);
  }
}
