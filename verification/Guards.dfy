/** Unfolding of named guards: memoised substitution with cycle detection. */
module Guards {

  /** Expressions as the unfolding sees them: operators are rebuilt, guards substituted, calls left alone. */
  datatype Expr =
    | Literal(value: int)
    | Symbol(kind: string, name: string)
    | Guard(guard: string)
    | Binary(op: string, left: Expr, right: Expr)
    | Unary(uop: string, arg: Expr)
    | Call(callee: string, args: Expr)

  type Table = map<string, Expr>

  /** The guards that occur in e, arguments of calls included. */
  function Occurring(e: Expr): set<string> {
    match e
    case Literal(_) => {}
    case Symbol(_, _) => {}
    case Guard(g) => {g}
    case Binary(_, l, r) => Occurring(l) + Occurring(r)
    case Unary(_, a) => Occurring(a)
    case Call(_, a) => Occurring(a)
  }

  /** The guards that unfolding substitutes. */
  function Substituted(e: Expr): set<string> {
    match e
    case Literal(_) => {}
    case Symbol(_, _) => {}
    case Guard(g) => {g}
    case Binary(_, l, r) => Substituted(l) + Substituted(r)
    case Unary(_, a) => Substituted(a)
    case Call(_, _) => {}
  }

  /** Guards are reached through operators only, never through arguments of calls. */
  ghost predicate OperatorsOnly(table: Table, e: Expr) {
    Occurring(e) == Substituted(e) && forall g :: g in table ==> Occurring(table[g]) == Substituted(table[g])
  }

  // ---------------------------------------------------------------------- walks

  /** A nonempty walk through guard definitions: first a guard that e mentions, then guards mentioned by the
      definition of the one before; `all` counts guards in arguments of calls as mentioned. */
  ghost predicate Walk(table: Table, e: Expr, w: seq<string>, all: bool)
    decreases |w|
  {
    && w != []
    && w[0] in (if all then Occurring(e) else Substituted(e))
    && (|w| > 1 ==> w[0] in table && Walk(table, table[w[0]], w[1..], all))
  }

  ghost predicate Reaches(table: Table, e: Expr, g: string, all: bool) {
    exists w :: Walk(table, e, w, all) && w[|w| - 1] == g
  }

  /** The walk ends where it has been before. */
  ghost predicate Lasso(table: Table, e: Expr, w: seq<string>, all: bool) {
    Walk(table, e, w, all) && exists i :: 0 <= i < |w| - 1 && w[i] == w[|w| - 1]
  }

  lemma {:induction false} WalkSuffix(table: Table, e: Expr, w: seq<string>, all: bool, i: nat)
    requires Walk(table, e, w, all) && i < |w| - 1
    ensures w[i] in table && Walk(table, table[w[i]], w[i + 1..], all)
    decreases i
  {
    if i > 0 {
      WalkSuffix(table, table[w[0]], w[1..], all, i - 1);
      assert w[1..][i..] == w[i + 1..];
    }
  }

  lemma {:induction false} WalkAppend(table: Table, e: Expr, w: seq<string>, v: seq<string>, all: bool)
    requires Walk(table, e, w, all) && w[|w| - 1] in table && Walk(table, table[w[|w| - 1]], v, all)
    ensures Walk(table, e, w + v, all)
    decreases |w|
  {
    if |w| == 1 {
      assert (w + v)[1..] == v;
    } else {
      assert (w + v)[1..] == w[1..] + v;
      WalkAppend(table, table[w[0]], w[1..], v, all);
    }
  }

  /** Going round the loop once more gives a longer lasso. */
  lemma Pump(table: Table, e: Expr, w: seq<string>, all: bool) returns (longer: seq<string>)
    requires Lasso(table, e, w, all)
    ensures Lasso(table, e, longer, all) && |longer| > |w|
  {
    var i :| 0 <= i < |w| - 1 && w[i] == w[|w| - 1];
    WalkSuffix(table, e, w, all, i);
    longer := w + w[i + 1..];
    WalkAppend(table, e, w, w[i + 1..], all);
    assert longer[i] == longer[|longer| - 1];
  }

  lemma {:induction false} LongLasso(table: Table, e: Expr, w: seq<string>, all: bool, n: nat)
    returns (longer: seq<string>)
    requires Lasso(table, e, w, all)
    ensures Lasso(table, e, longer, all) && |longer| > n
    decreases n - |w|
  {
    longer := Pump(table, e, w, all);
    if |longer| <= n {
      longer := LongLasso(table, e, longer, all, n);
    }
  }

  // ---------------------------------------------------------------------- plain substitution

  datatype Option<+T> = None | Some(value: T)

  /** Substitution without memo and without path, cut off at nesting depth k. */
  function Naive(table: Table, e: Expr, k: nat): (r: Option<Expr>)
    decreases k, e
  {
    match e
    case Guard(g) => if k == 0 || g !in table then None else Naive(table, table[g], k - 1)
    case Binary(op, l, r) =>
      var l' := Naive(table, l, k);
      var r' := Naive(table, r, k);
      if l'.None? || r'.None? then None else Some(Binary(op, l'.value, r'.value))
    case Unary(op, a) =>
      var a' := Naive(table, a, k);
      if a'.None? then None else Some(Unary(op, a'.value))
    case _ => Some(e)
  }

  lemma {:induction false} NaiveMonotone(table: Table, e: Expr, k: nat, l: nat)
    requires k <= l && Naive(table, e, k).Some?
    ensures Naive(table, e, l) == Naive(table, e, k)
    decreases k, e
  {
    match e
    case Guard(g) => NaiveMonotone(table, table[g], k - 1, l - 1);
    case Binary(_, x, y) =>
      NaiveMonotone(table, x, k, l);
      NaiveMonotone(table, y, k, l);
    case Unary(_, a) => NaiveMonotone(table, a, k, l);
    case _ =>
  }

  /** If substitution ends at depth k, no walk is longer than k and no walk meets an undefined guard. */
  lemma {:induction false} NaiveBoundsWalks(table: Table, e: Expr, k: nat, w: seq<string>)
    requires Naive(table, e, k).Some? && Walk(table, e, w, false)
    ensures |w| <= k && w[|w| - 1] in table
    decreases k, e
  {
    match e
    case Guard(g) =>
      if |w| > 1 {
        NaiveBoundsWalks(table, table[g], k - 1, w[1..]);
      }
    case Binary(_, l, r) =>
      if w[0] in Substituted(l) {
        NaiveBoundsWalks(table, l, k, w);
      } else {
        NaiveBoundsWalks(table, r, k, w);
      }
    case Unary(_, a) => NaiveBoundsWalks(table, a, k, w);
    case _ =>
  }

  /** With a cycle within reach, substitution never ends. */
  lemma LassoForbidsSubstitution(table: Table, e: Expr, w: seq<string>, k: nat)
    requires Lasso(table, e, w, false)
    ensures Naive(table, e, k).None?
  {
    if Naive(table, e, k).Some? {
      var longer := LongLasso(table, e, w, false, k);
      NaiveBoundsWalks(table, e, k, longer);
    }
  }

  /** No guard is left to substitute. */
  lemma {:induction false} NaiveGuardFree(table: Table, e: Expr, k: nat)
    requires Naive(table, e, k).Some?
    ensures Substituted(Naive(table, e, k).value) == {}
    decreases k, e
  {
    match e
    case Guard(g) => NaiveGuardFree(table, table[g], k - 1);
    case Binary(_, l, r) =>
      NaiveGuardFree(table, l, k);
      NaiveGuardFree(table, r, k);
    case Unary(_, a) => NaiveGuardFree(table, a, k);
    case _ =>
  }

  // ---------------------------------------------------------------------- meaning

  /** A system state: values of symbols and of calls, and what the operators compute. */
  datatype World = World(symbol: (string, string) -> int, call: (string, Expr) -> int,
      binary: (string, int, int) -> int, unary: (string, int) -> int)

  /** Value of an expression; a guard means its definition, followed to depth k. */
  function Eval(table: Table, e: Expr, world: World, k: nat): (v: Option<int>)
    decreases k, e
  {
    match e
    case Literal(v) => Some(v)
    case Symbol(kind, n) => Some(world.symbol(kind, n))
    case Call(f, a) => Some(world.call(f, a))
    case Guard(g) => if k == 0 || g !in table then None else Eval(table, table[g], world, k - 1)
    case Binary(op, l, r) =>
      var l' := Eval(table, l, world, k);
      var r' := Eval(table, r, world, k);
      if l'.None? || r'.None? then None else Some(world.binary(op, l'.value, r'.value))
    case Unary(op, a) =>
      var a' := Eval(table, a, world, k);
      if a'.None? then None else Some(world.unary(op, a'.value))
  }

  /** Substitution keeps the value in every system state. */
  lemma {:induction false} NaiveKeepsMeaning(table: Table, e: Expr, k: nat, world: World)
    requires Naive(table, e, k).Some?
    ensures Eval(table, e, world, k).Some?
    ensures Eval(table, e, world, k) == Eval(map[], Naive(table, e, k).value, world, 0)
    decreases k, e
  {
    match e
    case Guard(g) => NaiveKeepsMeaning(table, table[g], k - 1, world);
    case Binary(_, l, r) =>
      NaiveKeepsMeaning(table, l, k, world);
      NaiveKeepsMeaning(table, r, k, world);
    case Unary(_, a) => NaiveKeepsMeaning(table, a, k, world);
    case _ =>
  }

  /** The value does not depend on how deep definitions are followed, once it exists. */
  lemma {:induction false} EvalMonotone(table: Table, e: Expr, world: World, k: nat, l: nat)
    requires k <= l && Eval(table, e, world, k).Some?
    ensures Eval(table, e, world, l) == Eval(table, e, world, k)
    decreases k, e
  {
    match e
    case Guard(g) => EvalMonotone(table, table[g], world, k - 1, l - 1);
    case Binary(_, x, y) =>
      EvalMonotone(table, x, world, k, l);
      EvalMonotone(table, y, world, k, l);
    case Unary(_, a) => EvalMonotone(table, a, world, k, l);
    case _ =>
  }

  /** v is the value of e: guards mean their definitions. */
  ghost predicate HasValue(table: Table, e: Expr, world: World, v: int) {
    exists k: nat :: Eval(table, e, world, k) == Some(v)
  }

  /** An operator gets the values of its operands, from left to right. */
  lemma BinaryValueIff(table: Table, op: string, l: Expr, r: Expr, world: World, v: int)
    ensures HasValue(table, Binary(op, l, r), world, v) <==>
      exists a, b :: HasValue(table, l, world, a) && HasValue(table, r, world, b) && v == world.binary(op, a, b)
  {
    if a, b :| HasValue(table, l, world, a) && HasValue(table, r, world, b) && v == world.binary(op, a, b) {
      var k: nat :| Eval(table, l, world, k) == Some(a);
      var m: nat :| Eval(table, r, world, m) == Some(b);
      var n := if k < m then m else k;
      EvalMonotone(table, l, world, k, n);
      EvalMonotone(table, r, world, m, n);
      assert Eval(table, Binary(op, l, r), world, n) == Some(v);
    }
    if k: nat :| Eval(table, Binary(op, l, r), world, k) == Some(v) {
      var a, b := Eval(table, l, world, k).value, Eval(table, r, world, k).value;
      assert HasValue(table, l, world, a) && HasValue(table, r, world, b);
    }
  }

  /** The other expressions: a guard has the value of its definition, symbols and calls that of the system state. */
  lemma ValueIff(table: Table, e: Expr, world: World, v: int)
    requires !e.Binary?
    ensures HasValue(table, e, world, v) <==>
      match e
      case Literal(n) => v == n
      case Symbol(kind, name) => v == world.symbol(kind, name)
      case Call(f, args) => v == world.call(f, args)
      case Guard(g) => g in table && HasValue(table, table[g], world, v)
      case Unary(op, a) => exists b :: HasValue(table, a, world, b) && v == world.unary(op, b)
  {
    match e
    case Guard(g) =>
      if g in table {
        if k: nat :| Eval(table, table[g], world, k) == Some(v) {
          assert Eval(table, e, world, k + 1) == Some(v);
        }
        if k: nat :| Eval(table, e, world, k) == Some(v) {
          assert Eval(table, table[g], world, k - 1) == Some(v);
        }
      }
    case Unary(op, a) =>
      if b :| HasValue(table, a, world, b) && v == world.unary(op, b) {
        var k: nat :| Eval(table, a, world, k) == Some(b);
        assert Eval(table, e, world, k) == Some(v);
      }
      if k: nat :| Eval(table, e, world, k) == Some(v) {
        assert HasValue(table, a, world, Eval(table, a, world, k).value);
      }
    case Literal(_) => PlainValue(table, e, world, v);
    case Symbol(_, _) => PlainValue(table, e, world, v);
    case Call(_, _) => PlainValue(table, e, world, v);
  }

  lemma PlainValue(table: Table, e: Expr, world: World, v: int)
    requires e.Literal? || e.Symbol? || e.Call?
    ensures HasValue(table, e, world, v) <==> Eval(table, e, world, 0) == Some(v)
  {
  }

  // ---------------------------------------------------------------------- collecting guards

  /** Every guard of v beyond v0 is defined and its definition mentions guards of v only. */
  ghost predicate ClosedBeyond(table: Table, v0: set<string>, v: set<string>) {
    v0 <= v && forall g :: g in v && g !in v0 ==> g in table && Occurring(table[g]) <= v
  }

  /** Collects the guards within reach of e; fails on an undefined one. */
  method GuardsInExpr(table: Table, e: Expr, v0: set<string>)
    returns (ok: bool, v: set<string>, ghost missing: seq<string>)
    ensures ok ==> ClosedBeyond(table, v0, v) && Occurring(e) <= v
    ensures ok ==> forall g :: g in v && g !in v0 ==> Reaches(table, e, g, true)
    ensures !ok ==> Walk(table, e, missing, true) && missing[|missing| - 1] !in table
    ensures v0 <= v
    decreases table.Keys - v0, e
  {
    ok, v, missing := true, v0, [];
    match e
    case Literal(_) =>
    case Symbol(_, _) =>
    case Guard(g) =>
      if g !in v {
        v := v + {g};
        if g !in table {
          ok, missing := false, [g];
          return;
        }
        ok, v, missing := GuardsInExpr(table, table[g], v);
        if !ok {
          missing := [g] + missing;
          WalkCons(table, g, missing[1..], true);
        } else {
          assert Walk(table, e, [g], true);
          forall h | h in v && h !in v0
            ensures Reaches(table, e, h, true)
          {
            if h == g {
              assert [g][|[g]| - 1] == h;
            } else {
              var w :| Walk(table, table[g], w, true) && w[|w| - 1] == h;
              WalkCons(table, g, w, true);
            }
          }
        }
      }
    case Binary(_, l, r) =>
      ok, v, missing := GuardsInExpr(table, l, v);
      if !ok {
        WalkPart(table, l, e, missing, true);
        return;
      }
      ghost var v1 := v;
      ok, v, missing := GuardsInExpr(table, r, v);
      if !ok {
        WalkPart(table, r, e, missing, true);
        return;
      }
      forall h | h in v && h !in v0
        ensures Reaches(table, e, h, true)
      {
        ReachPart(table, if h in v1 then l else r, e, h, true);
      }
    case Unary(_, a) =>
      ok, v, missing := GuardsInExpr(table, a, v);
      if !ok {
        WalkPart(table, a, e, missing, true);
        return;
      }
      forall h | h in v && h !in v0
        ensures Reaches(table, e, h, true)
      {
        ReachPart(table, a, e, h, true);
      }
    case Call(_, a) =>
      ok, v, missing := GuardsInExpr(table, a, v);
      if !ok {
        WalkPart(table, a, e, missing, true);
        return;
      }
      forall h | h in v && h !in v0
        ensures Reaches(table, e, h, true)
      {
        ReachPart(table, a, e, h, true);
      }
  }

  lemma WalkCons(table: Table, g: string, w: seq<string>, all: bool)
    requires g in table && Walk(table, table[g], w, all)
    ensures Walk(table, Guard(g), [g] + w, all) && ([g] + w)[|[g] + w| - 1] == w[|w| - 1]
  {
    assert ([g] + w)[1..] == w;
  }

  lemma WalkPart(table: Table, part: Expr, e: Expr, w: seq<string>, all: bool)
    requires Walk(table, part, w, all)
    requires if all then Occurring(part) <= Occurring(e) else Substituted(part) <= Substituted(e)
    ensures Walk(table, e, w, all)
  {
  }

  lemma ReachPart(table: Table, part: Expr, e: Expr, h: string, all: bool)
    requires Reaches(table, part, h, all)
    requires if all then Occurring(part) <= Occurring(e) else Substituted(part) <= Substituted(e)
    ensures Reaches(table, e, h, all)
  {
    var w :| Walk(table, part, w, all) && w[|w| - 1] == h;
    WalkPart(table, part, e, w, all);
  }

  /** A closed set that holds the guards of e holds everything within reach. */
  lemma {:induction false} ClosedHoldsWalk(table: Table, e: Expr, v: set<string>, w: seq<string>)
    requires ClosedBeyond(table, {}, v) && Occurring(e) <= v && Walk(table, e, w, true)
    ensures w[|w| - 1] in v && w[|w| - 1] in table
    decreases |w|
  {
    if |w| > 1 {
      ClosedHoldsWalk(table, table[w[0]], v, w[1..]);
    }
  }

  // ---------------------------------------------------------------------- unfolding

  datatype Unfolded = Done(expr: Expr) | Cycle | Missing

  /** e unfolds to r at some depth. */
  ghost predicate UnfoldsTo(table: Table, e: Expr, r: Expr) {
    exists k: nat :: Naive(table, e, k) == Some(r)
  }

  lemma UnfoldsJoin(table: Table, op: string, l: Expr, l': Expr, r: Expr, r': Expr)
    requires UnfoldsTo(table, l, l') && UnfoldsTo(table, r, r')
    ensures UnfoldsTo(table, Binary(op, l, r), Binary(op, l', r'))
  {
    var k: nat :| Naive(table, l, k) == Some(l');
    var m: nat :| Naive(table, r, m) == Some(r');
    var n := if k < m then m else k;
    NaiveMonotone(table, l, k, n);
    NaiveMonotone(table, r, m, n);
    assert Naive(table, Binary(op, l, r), n) == Some(Binary(op, l', r'));
  }

  lemma UnfoldsUnary(table: Table, op: string, a: Expr, a': Expr)
    requires UnfoldsTo(table, a, a')
    ensures UnfoldsTo(table, Unary(op, a), Unary(op, a'))
  {
    var k: nat :| Naive(table, a, k) == Some(a');
    assert Naive(table, Unary(op, a), k) == Some(Unary(op, a'));
  }

  lemma UnfoldsGuard(table: Table, g: string, r: Expr)
    requires g in table && UnfoldsTo(table, table[g], r)
    ensures UnfoldsTo(table, Guard(g), r)
  {
    var k: nat :| Naive(table, table[g], k) == Some(r);
    assert Naive(table, Guard(g), k + 1) == Some(r);
  }

  /** The walk ends on the path or where it has been before. */
  ghost predicate BackEdge(table: Table, e: Expr, path: set<string>, w: seq<string>) {
    Walk(table, e, w, false) && (w[|w| - 1] in path || Lasso(table, e, w, false))
  }

  lemma BackEdgePart(table: Table, part: Expr, e: Expr, path: set<string>, w: seq<string>)
    requires BackEdge(table, part, path, w) && Substituted(part) <= Substituted(e)
    ensures BackEdge(table, e, path, w)
  {
    WalkPart(table, part, e, w, false);
  }

  lemma BackEdgeGuard(table: Table, g: string, path: set<string>, w: seq<string>)
    requires g in table && BackEdge(table, table[g], path + {g}, w)
    ensures BackEdge(table, Guard(g), path, [g] + w)
  {
    var w' := [g] + w;
    WalkCons(table, g, w, false);
    if w[|w| - 1] !in path {
      if w[|w| - 1] == g {
        assert w'[0] == w'[|w'| - 1];
      } else {
        var i :| 0 <= i < |w| - 1 && w[i] == w[|w| - 1];
        assert w'[i + 1] == w'[|w'| - 1];
      }
    }
  }

  class Unfolder {
    const table: Table
    var memo: map<string, Expr>
    var path: set<string>

    ghost predicate Valid()
      reads this
    {
      forall g :: g in memo ==> UnfoldsTo(table, Guard(g), memo[g])
    }

    constructor (table: Table, guard: string)
      ensures Valid() && this.table == table && memo == map[] && path == {guard}
    {
      this.table, memo, path := table, map[], {guard};
    }

    method Unfold(e: Expr) returns (r: Unfolded, ghost w: seq<string>)
      requires Valid()
      modifies this
      ensures Valid()
      ensures r.Done? ==> UnfoldsTo(table, e, r.expr) && path == old(path)
      ensures r.Cycle? ==> BackEdge(table, e, old(path), w)
      ensures r.Missing? ==> Walk(table, e, w, false) && w[|w| - 1] !in table
      decreases table.Keys - path, e
    {
      w := [];
      match e
      case Binary(op, left, right) =>
        var l, rr;
        l, w := Unfold(left);
        if !l.Done? {
          Lift(left, e, l, old(path), w);
          return l, w;
        }
        rr, w := Unfold(right);
        if !rr.Done? {
          Lift(right, e, rr, old(path), w);
          return rr, w;
        }
        UnfoldsJoin(table, op, left, l.expr, right, rr.expr);
        return Done(Binary(op, l.expr, rr.expr)), w;
      case Unary(op, arg) =>
        var a;
        a, w := Unfold(arg);
        if !a.Done? {
          Lift(arg, e, a, old(path), w);
          return a, w;
        }
        UnfoldsUnary(table, op, arg, a.expr);
        return Done(Unary(op, a.expr)), w;
      case Guard(n) =>
        if n in path {
          return Cycle, [n];
        }
        if n in memo {
          return Done(memo[n]), w;
        }
        if n !in table {
          return Missing, [n];
        }
        path := path + {n};
        r, w := Unfold(table[n]);
        if !r.Done? {
          if r.Cycle? {
            BackEdgeGuard(table, n, old(path), w);
          } else {
            WalkCons(table, n, w, false);
          }
          w := [n] + w;
          return;
        }
        UnfoldsGuard(table, n, r.expr);
        memo := memo[n := r.expr];
        path := path - {n};
      case _ =>
        assert Naive(table, e, 0) == Some(e);
        return Done(e), w;
    }

    lemma Lift(part: Expr, e: Expr, r: Unfolded, path: set<string>, w: seq<string>)
      requires Substituted(part) <= Substituted(e)
      requires r.Cycle? ==> BackEdge(table, part, path, w)
      requires r.Missing? ==> Walk(table, part, w, false)
      ensures r.Cycle? ==> BackEdge(table, e, path, w)
      ensures r.Missing? ==> Walk(table, e, w, false)
    {
      if r.Cycle? {
        BackEdgePart(table, part, e, path, w);
      } else if r.Missing? {
        WalkPart(table, part, e, w, false);
      }
    }
  }

  // ---------------------------------------------------------------------- evaluating a guard

  datatype GuardValue = Truth(holds: bool) | Undefined | Cyclic

  predicate ContainsCalls(e: Expr) {
    match e
    case Call(_, _) => true
    case Binary(_, l, r) => ContainsCalls(l) || ContainsCalls(r)
    case Unary(_, a) => ContainsCalls(a)
    case _ => false
  }

  lemma {:induction false} SubstitutedOccur(e: Expr)
    ensures Substituted(e) <= Occurring(e)
    decreases e
  {
    match e
    case Binary(_, l, r) =>
      SubstitutedOccur(l);
      SubstitutedOccur(r);
    case Unary(_, a) => SubstitutedOccur(a);
    case _ =>
  }

  lemma {:induction false} WalkWiden(table: Table, e: Expr, w: seq<string>)
    requires Walk(table, e, w, false)
    ensures Walk(table, e, w, true)
    decreases |w|
  {
    SubstitutedOccur(e);
    if |w| > 1 {
      WalkWiden(table, table[w[0]], w[1..]);
    }
  }

  lemma {:induction false} NaiveIdentity(table: Table, e: Expr, k: nat)
    requires Substituted(e) == {}
    ensures Naive(table, e, k) == Some(e)
    decreases e
  {
    match e
    case Binary(_, l, r) =>
      assert Substituted(l) == {} && Substituted(r) == {};
      NaiveIdentity(table, l, k);
      NaiveIdentity(table, r, k);
    case Unary(_, a) => NaiveIdentity(table, a, k);
    case _ =>
  }

  /** A guard without a definition is needed. */
  ghost predicate NeedsUndefined(table: Table, name: string) {
    name !in table || exists w :: Walk(table, table[name], w, true) && w[|w| - 1] !in table
  }

  /** The guard is mentioned within reach of its own definition, or unfolding it runs into a loop. */
  ghost predicate NeedsCycle(table: Table, name: string) {
    name in table && (Reaches(table, table[name], name, true) || exists w :: Lasso(table, Guard(name), w, false))
  }

  /** b is the truth of guard `name`. */
  ghost predicate MeansTruth(table: Table, name: string, world: World, b: bool) {
    exists k: nat, v :: Eval(table, Guard(name), world, k) == Some(v) && b == (v != 0)
  }

  /** A guard has at most one truth. */
  lemma TruthUnique(table: Table, name: string, world: World, a: bool, b: bool)
    requires MeansTruth(table, name, world, a) && MeansTruth(table, name, world, b)
    ensures a == b
  {
    var k: nat, v :| Eval(table, Guard(name), world, k) == Some(v) && a == (v != 0);
    var l: nat, w :| Eval(table, Guard(name), world, l) == Some(w) && b == (w != 0);
    if k <= l {
      EvalMonotone(table, Guard(name), world, k, l);
    } else {
      EvalMonotone(table, Guard(name), world, l, k);
    }
  }

  /** A closed set of reachable guards settles which guards are missing and whether name reaches itself. */
  lemma ClosedSettles(table: Table, name: string, v: set<string>)
    requires name in table && ClosedBeyond(table, {}, v) && Occurring(table[name]) <= v
    ensures !NeedsUndefined(table, name)
    ensures Reaches(table, table[name], name, true) ==> name in v
  {
    forall w | Walk(table, table[name], w, true)
      ensures w[|w| - 1] in v && w[|w| - 1] in table
    {
      ClosedHoldsWalk(table, table[name], v, w);
    }
  }

  /** If the definition unfolds there is no loop, and the value is that of the unfolded expression. */
  lemma UnfoldedSettles(table: Table, name: string, r: Expr, world: World)
    requires name in table && UnfoldsTo(table, table[name], r)
    ensures !exists w :: Lasso(table, Guard(name), w, false)
    ensures Eval(map[], r, world, 0).Some? && MeansTruth(table, name, world, Eval(map[], r, world, 0).value != 0)
    ensures Substituted(r) == {}
  {
    UnfoldsGuard(table, name, r);
    var k: nat :| Naive(table, Guard(name), k) == Some(r);
    forall w | Lasso(table, Guard(name), w, false)
      ensures false
    {
      LassoForbidsSubstitution(table, Guard(name), w, k);
    }
    NaiveKeepsMeaning(table, Guard(name), k, world);
    NaiveGuardFree(table, Guard(name), k);
  }

  /** The truth of a guard that is defined by an operator. */
  lemma BinaryTruth(table: Table, name: string, world: World, holds: bool, op: string, l: Expr, r: Expr)
    requires name in table && table[name] == Binary(op, l, r) && MeansTruth(table, name, world, holds)
    ensures exists a, b ::
      HasValue(table, l, world, a) && HasValue(table, r, world, b) && holds == (world.binary(op, a, b) != 0)
  {
    var k: nat, v :| Eval(table, Guard(name), world, k) == Some(v) && holds == (v != 0);
    assert HasValue(table, Guard(name), world, v);
    ValueIff(table, Guard(name), world, v);
    BinaryValueIff(table, op, l, r, world, v);
  }

  /** Evaluates a guard: natively supplied ones directly, the others by unfolding their definitions. */
  method EvalGuard(table: Table, native: map<string, bool>, name: string, world: World) returns (r: GuardValue)
    ensures name in native ==> r == Truth(native[name])
    ensures name !in native ==> (r.Undefined? <==> NeedsUndefined(table, name))
    ensures name !in native ==> (r.Cyclic? <==> !NeedsUndefined(table, name) && NeedsCycle(table, name))
    ensures name !in native && r.Truth? ==> forall b :: MeansTruth(table, name, world, b) <==> b == r.holds
    ensures name !in native && r.Truth? && table[name].Binary? ==>
      exists a, b ::
        HasValue(table, table[name].left, world, a) && HasValue(table, table[name].right, world, b)
          && r.holds == (world.binary(table[name].op, a, b) != 0)
  {
    if name in native {
      return Truth(native[name]);
    }
    if name !in table {
      return Undefined;
    }
    var ok, inRhs;
    ghost var missing;
    ok, inRhs, missing := GuardsInExpr(table, table[name], {});
    if !ok {
      return Undefined;
    }
    ClosedSettles(table, name, inRhs);
    var unfolded := table[name];
    if inRhs != {} || ContainsCalls(table[name]) {
      if name in inRhs {
        return Cyclic;
      }
      var unfolder := new Unfolder(table, name);
      var u;
      ghost var w;
      u, w := unfolder.Unfold(table[name]);
      if u.Cycle? {
        BackEdgeGuard(table, name, {}, w);
        return Cyclic;
      }
      if u.Missing? {
        WalkWiden(table, table[name], w);
        return Undefined;
      }
      unfolded := u.expr;
    } else {
      SubstitutedOccur(table[name]);
      NaiveIdentity(table, table[name], 0);
      assert UnfoldsTo(table, table[name], table[name]);
    }
    UnfoldedSettles(table, name, unfolded, world);
    var holds := Eval(map[], unfolded, world, 0).value != 0;
    forall b | MeansTruth(table, name, world, b)
      ensures b == holds
    {
      TruthUnique(table, name, world, b, holds);
    }
    if table[name].Binary? {
      BinaryTruth(table, name, world, holds, table[name].op, table[name].left, table[name].right);
    }
    return Truth(holds);
  }

  /** Where guards are mentioned through operators only, cyclic means that a loop is within reach. */
  lemma CyclicIffLoop(table: Table, name: string)
    requires name in table && OperatorsOnly(table, table[name])
    ensures NeedsCycle(table, name) <==> exists w :: Lasso(table, Guard(name), w, false)
  {
    if Reaches(table, table[name], name, true) {
      var w :| Walk(table, table[name], w, true) && w[|w| - 1] == name;
      WalkNarrow(table, table[name], w);
      WalkCons(table, name, w, false);
      var w' := [name] + w;
      assert w'[0] == w'[|w'| - 1];
      assert Lasso(table, Guard(name), w', false);
    }
  }

  lemma {:induction false} WalkNarrow(table: Table, e: Expr, w: seq<string>)
    requires OperatorsOnly(table, e) && Walk(table, e, w, true)
    ensures Walk(table, e, w, false)
    decreases |w|
  {
    if |w| > 1 {
      WalkNarrow(table, table[w[0]], w[1..]);
    }
  }
}
