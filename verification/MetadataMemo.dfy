// The evaluator's table of variables, keyed by (name, mode) only, is
// transparent when the template terms it evaluates in the caller's scope are
// closed: they neither read a lambda variable of the caller nor have a lambda
// for a value.  In both other cases it can give a stale value.
module MetadataMemo {
  import opened Wrappers
  import opened MetadataSemantics
  import opened MetadataScopes

  // Every entry is the value of its variable's body in the empty scope.
  ghost predicate TableSound(tpl: Template, cache: map<Key, Value>) {
    forall k :: k in cache ==> k.0 in tpl.variables && Means(tpl, tpl.variables[k.0], k.1, map[], cache[k])
  }

  ghost predicate Primed(tpl: Template, memo: bool, st: Memo) {
    memo ==> ClosedTemplate(tpl) && TableSound(tpl, st.cache)
  }

  function Max(a: nat, b: nat): nat { if a < b then b else a }

  // ----- What a run returns is the plain meaning

  lemma {:induction false} RunSound(tpl: Template, memo: bool, st: Memo, t: Term, mode: Mode, scope: Scope)
    returns (d: nat)
    requires Run(tpl, memo, st, t, mode, scope).Some? && Primed(tpl, memo, st)
    ensures Meaning(tpl, d, t, mode, scope) == Some(Run(tpl, memo, st, t, mode, scope).value.0)
    ensures Primed(tpl, memo, Run(tpl, memo, st, t, mode, scope).value.1)
    decreases st.remaining, 0, t
  {
    match t
    case Plain(_) => d := 0;
    case Literal(_) => d := 1;
    case Array(ts) => d := RunSoundAll(tpl, memo, st, ts, mode, scope);
    case Object(json, ts) =>
      d := RunSoundMembers(tpl, memo, if json then st else Charge(st), ts, mode, scope, map[]);
      d := if json then d else d + 1;
    case Call(op, ts) =>
      var d1 := RunSoundAll(tpl, memo, Charge(st), ts, mode, scope);
      var (vs, s1) := RunAll(tpl, memo, Charge(st), ts, mode, scope).value;
      var o := Next(tpl, op, vs, mode, scope);
      var d2 := RunSoundNext(tpl, memo, s1, o, mode, scope);
      d := Max(d1, d2);
      DeeperAll(tpl, d1, d, ts, mode, scope);
      DeeperNext(tpl, d2, d, o, mode, scope);
      d := d + 1;
  }

  lemma {:induction false} RunSoundNext(tpl: Template, memo: bool, st: Memo, o: Outcome, mode: Mode, scope: Scope)
    returns (d: nat)
    requires RunNext(tpl, memo, st, o, mode, scope).Some? && Primed(tpl, memo, st)
    ensures MeaningNext(tpl, d, o, mode, scope) == Some(RunNext(tpl, memo, st, o, mode, scope).value.0)
    ensures Primed(tpl, memo, RunNext(tpl, memo, st, o, mode, scope).value.1)
    decreases st.remaining, 2
  {
    match o
    case Done(_) => d := 0;
    case Then(t, m, _) => d := RunSound(tpl, memo, st, t, m, scope);
    case Recall(n) => d := RunSoundVariable(tpl, memo, st, n, mode, scope);
    case Each(mapping, fn, rows) => d := RunSoundRows(tpl, memo, st, mapping, fn, rows, mode);
  }

  lemma {:induction false} RunSoundVariable(tpl: Template, memo: bool, st: Memo, n: string, mode: Mode, scope: Scope)
    returns (d: nat)
    requires RunNext(tpl, memo, st, Recall(n), mode, scope).Some? && Primed(tpl, memo, st)
    ensures MeaningNext(tpl, d, Recall(n), mode, scope) == Some(RunNext(tpl, memo, st, Recall(n), mode, scope).value.0)
    ensures Primed(tpl, memo, RunNext(tpl, memo, st, Recall(n), mode, scope).value.1)
    decreases st.remaining, 1
  {
    var k := (n, mode);
    if memo && k in st.cache {
      d :| Meaning(tpl, d, tpl.variables[n], mode, map[]) == Some(st.cache[k]);
    } else {
      d := RunSound(tpl, memo, st.(active := st.active + {k}), tpl.variables[n], mode, scope);
    }
    if memo {
      ScopeIrrelevant(tpl, d, tpl.variables[n], mode, map[], scope, {});
    }
  }

  lemma {:induction false} RunSoundAll(tpl: Template, memo: bool, st: Memo, ts: seq<Term>, mode: Mode, scope: Scope)
    returns (d: nat)
    requires RunAll(tpl, memo, st, ts, mode, scope).Some? && Primed(tpl, memo, st)
    ensures MeaningAll(tpl, d, ts, mode, scope) == Some(RunAll(tpl, memo, st, ts, mode, scope).value.0)
    ensures Primed(tpl, memo, RunAll(tpl, memo, st, ts, mode, scope).value.1)
    decreases st.remaining, 0, ts
  {
    if ts == [] {
      d := 0;
    } else {
      var s1 := Run(tpl, memo, st, ts[0], mode, scope).value.1;
      var d1 := RunSound(tpl, memo, st, ts[0], mode, scope);
      var d2 := RunSoundAll(tpl, memo, s1, ts[1..], mode, scope);
      d := Max(d1, d2);
      Deeper(tpl, d1, d, ts[0], mode, scope);
      DeeperAll(tpl, d2, d, ts[1..], mode, scope);
    }
  }

  lemma {:induction false} RunSoundMembers(tpl: Template, memo: bool, st: Memo, ts: seq<Term>, mode: Mode,
                                           scope: Scope, done: map<string, Value>)
    returns (d: nat)
    requires RunMembers(tpl, memo, st, ts, mode, scope, done).Some? && Primed(tpl, memo, st)
    ensures MeaningMembers(tpl, d, ts, mode, scope, done) == Some(RunMembers(tpl, memo, st, ts, mode, scope, done).value.0)
    ensures Primed(tpl, memo, RunMembers(tpl, memo, st, ts, mode, scope, done).value.1)
    decreases st.remaining, 0, ts
  {
    if ts == [] {
      d := 0;
    } else {
      var (key, s1) := Run(tpl, memo, st, ts[0], mode, scope).value;
      var inner := FieldMode(key.s, mode);
      var (raw, s2) := Run(tpl, memo, s1, ts[1], inner, scope).value;
      var done' := done[key.s := FieldValue(key.s, mode, raw).value];
      var d1 := RunSound(tpl, memo, st, ts[0], mode, scope);
      var d2 := RunSound(tpl, memo, s1, ts[1], inner, scope);
      var d3 := RunSoundMembers(tpl, memo, s2, ts[2..], mode, scope, done');
      d := Max(d1, Max(d2, d3));
      Deeper(tpl, d1, d, ts[0], mode, scope);
      Deeper(tpl, d2, d, ts[1], inner, scope);
      DeeperMembers(tpl, d3, d, ts[2..], mode, scope, done');
    }
  }

  lemma {:induction false} RunSoundRows(tpl: Template, memo: bool, st: Memo, mapping: bool, fn: Value,
                                        rows: seq<Value>, mode: Mode) returns (d: nat)
    requires Applicable(fn) && RunRows(tpl, memo, st, mapping, fn, rows, mode).Some? && Primed(tpl, memo, st)
    ensures MeaningRows(tpl, d, mapping, fn, rows, mode) == Some(RunRows(tpl, memo, st, mapping, fn, rows, mode).value.0)
    ensures Primed(tpl, memo, RunRows(tpl, memo, st, mapping, fn, rows, mode).value.1)
    decreases st.remaining, 1, rows
  {
    if rows == [] {
      d := 0;
    } else {
      var scope := fn.scope[fn.param.s := rows[0]];
      var s1 := Run(tpl, memo, st, fn.body, mode, scope).value.1;
      var d1 := RunSound(tpl, memo, st, fn.body, mode, scope);
      var d2 := RunSoundRows(tpl, memo, s1, mapping, fn, rows[1..], mode);
      d := Max(d1, d2);
      Deeper(tpl, d1, d, fn.body, mode, scope);
      DeeperRows(tpl, d2, d, mapping, fn, rows[1..], mode);
    }
  }

  // ----- The table changes no value that fits the budget

  // The evaluator with a table, with at least the same budget left, running
  // beside the one without.
  ghost predicate Ahead(tpl: Template, a: Memo, b: Memo) {
    b.active == a.active && b.remaining >= a.remaining && TableSound(tpl, b.cache)
  }

  // It returns the same value and stays ahead.
  ghost predicate Keeps<T(!new)>(tpl: Template, plain: Option<(T, Memo)>, tabled: Option<(T, Memo)>) {
    plain.Some? && tabled.Some? && tabled.value.0 == plain.value.0 && Ahead(tpl, plain.value.1, tabled.value.1)
  }

  lemma {:induction false} Transparent(tpl: Template, a: Memo, b: Memo, t: Term, mode: Mode, scope: Scope)
    requires ClosedTemplate(tpl) && Ahead(tpl, a, b) && Run(tpl, false, a, t, mode, scope).Some?
    ensures Keeps(tpl, Run(tpl, false, a, t, mode, scope), Run(tpl, true, b, t, mode, scope))
    decreases a.remaining, 0, t
  {
    match t
    case Plain(_) =>
    case Literal(_) =>
    case Array(ts) => TransparentAll(tpl, a, b, ts, mode, scope);
    case Object(json, ts) =>
      if json {
        TransparentMembers(tpl, a, b, ts, mode, scope, map[]);
      } else {
        TransparentMembers(tpl, Charge(a), Charge(b), ts, mode, scope, map[]);
      }
    case Call(op, ts) =>
      TransparentAll(tpl, Charge(a), Charge(b), ts, mode, scope);
      var (vs, a1) := RunAll(tpl, false, Charge(a), ts, mode, scope).value;
      var b1 := RunAll(tpl, true, Charge(b), ts, mode, scope).value.1;
      TransparentNext(tpl, a1, b1, Next(tpl, op, vs, mode, scope), mode, scope);
  }

  lemma {:induction false} TransparentNext(tpl: Template, a: Memo, b: Memo, o: Outcome, mode: Mode, scope: Scope)
    requires ClosedTemplate(tpl) && Ahead(tpl, a, b) && RunNext(tpl, false, a, o, mode, scope).Some?
    ensures Keeps(tpl, RunNext(tpl, false, a, o, mode, scope), RunNext(tpl, true, b, o, mode, scope))
    decreases a.remaining, 2
  {
    match o
    case Done(_) =>
    case Then(t, m, _) => Transparent(tpl, a, b, t, m, scope);
    case Recall(n) => TransparentVariable(tpl, a, b, n, mode, scope);
    case Each(mapping, fn, rows) => TransparentRows(tpl, a, b, mapping, fn, rows, mode);
  }

  // A variable found in the table would have been evaluated to the same value,
  // because its value depends on neither the scope nor the depth.
  lemma {:induction false} TransparentVariable(tpl: Template, a: Memo, b: Memo, n: string, mode: Mode, scope: Scope)
    requires ClosedTemplate(tpl) && Ahead(tpl, a, b) && RunNext(tpl, false, a, Recall(n), mode, scope).Some?
    ensures Keeps(tpl, RunNext(tpl, false, a, Recall(n), mode, scope), RunNext(tpl, true, b, Recall(n), mode, scope))
    decreases a.remaining, 1
  {
    var k, body := (n, mode), tpl.variables[n];
    var inner := a.(active := a.active + {k});
    if k in b.cache {
      var d1: nat :| Meaning(tpl, d1, body, mode, map[]) == Some(b.cache[k]);
      ScopeIrrelevant(tpl, d1, body, mode, map[], scope, {});
      var d2 := RunSound(tpl, false, inner, body, mode, scope);
      OneMeaning(tpl, d1, d2, body, mode, scope);
    } else {
      Transparent(tpl, inner, b.(active := b.active + {k}), body, mode, scope);
      var _ := RunSoundNext(tpl, true, b, Recall(n), mode, scope);
    }
  }

  lemma {:induction false} TransparentAll(tpl: Template, a: Memo, b: Memo, ts: seq<Term>, mode: Mode, scope: Scope)
    requires ClosedTemplate(tpl) && Ahead(tpl, a, b) && RunAll(tpl, false, a, ts, mode, scope).Some?
    ensures Keeps(tpl, RunAll(tpl, false, a, ts, mode, scope), RunAll(tpl, true, b, ts, mode, scope))
    decreases a.remaining, 0, ts
  {
    if ts != [] {
      Transparent(tpl, a, b, ts[0], mode, scope);
      TransparentAll(tpl, Run(tpl, false, a, ts[0], mode, scope).value.1, Run(tpl, true, b, ts[0], mode, scope).value.1,
                     ts[1..], mode, scope);
    }
  }

  lemma {:induction false} TransparentMembers(tpl: Template, a: Memo, b: Memo, ts: seq<Term>, mode: Mode,
                                              scope: Scope, done: map<string, Value>)
    requires ClosedTemplate(tpl) && Ahead(tpl, a, b) && RunMembers(tpl, false, a, ts, mode, scope, done).Some?
    ensures Keeps(tpl, RunMembers(tpl, false, a, ts, mode, scope, done), RunMembers(tpl, true, b, ts, mode, scope, done))
    decreases a.remaining, 0, ts
  {
    if ts != [] {
      Transparent(tpl, a, b, ts[0], mode, scope);
      var (key, a1) := Run(tpl, false, a, ts[0], mode, scope).value;
      var b1 := Run(tpl, true, b, ts[0], mode, scope).value.1;
      var inner := FieldMode(key.s, mode);
      Transparent(tpl, a1, b1, ts[1], inner, scope);
      var (raw, a2) := Run(tpl, false, a1, ts[1], inner, scope).value;
      TransparentMembers(tpl, a2, Run(tpl, true, b1, ts[1], inner, scope).value.1, ts[2..], mode, scope,
                         done[key.s := FieldValue(key.s, mode, raw).value]);
    }
  }

  lemma {:induction false} TransparentRows(tpl: Template, a: Memo, b: Memo, mapping: bool, fn: Value,
                                           rows: seq<Value>, mode: Mode)
    requires ClosedTemplate(tpl) && Ahead(tpl, a, b) && Applicable(fn)
    requires RunRows(tpl, false, a, mapping, fn, rows, mode).Some?
    ensures Keeps(tpl, RunRows(tpl, false, a, mapping, fn, rows, mode), RunRows(tpl, true, b, mapping, fn, rows, mode))
    decreases a.remaining, 1, rows
  {
    if rows != [] {
      var scope := fn.scope[fn.param.s := rows[0]];
      Transparent(tpl, a, b, fn.body, mode, scope);
      TransparentRows(tpl, Run(tpl, false, a, fn.body, mode, scope).value.1, Run(tpl, true, b, fn.body, mode, scope).value.1,
                      mapping, fn, rows[1..], mode);
    }
  }

  // ----- The main results

  const BUDGET := 50000

  function Start(budget: nat): Memo { Memo(map[], {}, budget) }

  // Whatever the evaluator without a table computes within the budget, the
  // evaluator with the table computes too, with no fewer steps left.
  lemma MemoTransparent(tpl: Template, budget: nat, t: Term, mode: Mode, scope: Scope)
    requires ClosedTemplate(tpl) && Run(tpl, false, Start(budget), t, mode, scope).Some?
    ensures Run(tpl, true, Start(budget), t, mode, scope).Some?
    ensures Run(tpl, true, Start(budget), t, mode, scope).value.0 == Run(tpl, false, Start(budget), t, mode, scope).value.0
    ensures Run(tpl, true, Start(budget), t, mode, scope).value.1.remaining
         >= Run(tpl, false, Start(budget), t, mode, scope).value.1.remaining
  {
    Transparent(tpl, Start(budget), Start(budget), t, mode, scope);
  }

  // And whatever it returns, on any budget, is the plain meaning of the term.
  lemma MemoSound(tpl: Template, budget: nat, t: Term, mode: Mode, scope: Scope)
    requires ClosedTemplate(tpl) && Run(tpl, true, Start(budget), t, mode, scope).Some?
    ensures Means(tpl, t, mode, scope, Run(tpl, true, Start(budget), t, mode, scope).value.0)
  {
    var _ := RunSound(tpl, true, Start(budget), t, mode, scope);
  }

  // ----- Otherwise the table is wrong

  // The variable "v" is `op` applied to 'x': with LambdaVariable, the lambda
  // variable of whoever refers to it; with Lambda, a lambda with no free
  // variable of its own, which still captures the scope of whoever refers to it.
  function StaleTemplate(op: Operator): Template {
    Template(map[], map[], map["v" := Call(op, [Literal(Str("x"))])], map[], (_, _) => None, (_, _) => None)
  }

  predicate Scoped(op: Operator) { op.LambdaVariable? || op.Lambda? }

  function Seen(op: Operator, x: Value): Value {
    if op.Lambda? then Closure(Str("x"), op.body, map["x" := x]) else x
  }

  function StaleBody(): Term { Call(Variable, [Literal(Str("v"))]) }

  // map([1, 2], lambda('x', variables('v'))): the first row's value is
  // returned for the second.
  function StaleTerm(): Term {
    Call(Collect(true), [Literal(List([Num(1), Num(2)])), Call(Lambda(StaleBody()), [Literal(Str("x"))])])
  }

  lemma LiteralRun(tpl: Template, memo: bool, st: Memo, v: Value, mode: Mode, scope: Scope)
    requires st.remaining >= 1
    ensures RunAll(tpl, memo, st, [Literal(v)], mode, scope) == Some(([v], Charge(st)))
  {
    assert [Literal(v)][1..] == [] && [v] + [] == [v];
    assert RunAll(tpl, memo, Charge(st), [], mode, scope) == Some(([], Charge(st)));
  }

  // A call whose only argument is a literal.
  lemma CallRun(tpl: Template, memo: bool, st: Memo, op: Operator, v: Value, mode: Mode, scope: Scope)
    requires st.remaining >= 2
    ensures Run(tpl, memo, st, Call(op, [Literal(v)]), mode, scope)
         == RunNext(tpl, memo, Charge(Charge(st)), Next(tpl, op, [v], mode, scope), mode, scope)
  {
    LiteralRun(tpl, memo, Charge(st), v, mode, scope);
  }

  lemma StaleRow(op: Operator, memo: bool, st: Memo, x: Value)
    requires Scoped(op) && st.remaining >= 4 && st.active == {}
    ensures Run(StaleTemplate(op), memo, st, StaleBody(), PlainMode, map["x" := x]) ==
      if memo && ("v", PlainMode) in st.cache
      then Some((st.cache[("v", PlainMode)], Charge(Charge(st))))
      else Some((Seen(op, x), Memo(if memo then st.cache[("v", PlainMode) := Seen(op, x)] else st.cache, {}, st.remaining - 4)))
  {
    var tpl, scope, k := StaleTemplate(op), map["x" := x], ("v", PlainMode);
    CallRun(tpl, memo, st, Variable, Str("v"), PlainMode, scope);
    var inner := Charge(Charge(st)).(active := {k});
    CallRun(tpl, memo, inner, op, Str("x"), PlainMode, scope);
    assert {} + {k} == {k} && {k} - {k} == {};
  }

  lemma StaleRows(op: Operator, memo: bool, st: Memo, fn: Value)
    requires Scoped(op) && st.remaining >= 8 && st.active == {} && st.cache == map[]
    requires fn == Closure(Str("x"), StaleBody(), map[])
    ensures var r := RunRows(StaleTemplate(op), memo, st, true, fn, [Num(1), Num(2)], PlainMode);
      r.Some? && r.value.0 == [Seen(op, Num(1)), Seen(op, Num(if memo then 1 else 2))]
  {
    var tpl := StaleTemplate(op);
    StaleRow(op, memo, st, Num(1));
    var s1 := Run(tpl, memo, st, StaleBody(), PlainMode, map["x" := Num(1)]).value.1;
    StaleRow(op, memo, s1, Num(2));
    var s2 := Run(tpl, memo, s1, StaleBody(), PlainMode, map["x" := Num(2)]).value.1;
    var second := Seen(op, Num(if memo then 1 else 2));
    assert fn.scope["x" := Num(1)] == map["x" := Num(1)] && fn.scope["x" := Num(2)] == map["x" := Num(2)];
    assert [Num(1), Num(2)][1..] == [Num(2)] && [Num(2)][1..] == [];
    assert RunRows(tpl, memo, s2, true, fn, [], PlainMode) == Some(([], s2));
    assert RunRows(tpl, memo, s1, true, fn, [Num(2)], PlainMode) == Some(([second] + [], s2));
  }

  // The two arguments: the literal rows and the lambda.
  lemma StaleArguments(op: Operator, memo: bool, st: Memo)
    requires st.remaining >= 3
    ensures RunAll(StaleTemplate(op), memo, st, StaleTerm().args, PlainMode, map[])
         == Some(([List([Num(1), Num(2)]), Closure(Str("x"), StaleBody(), map[])], Charge(Charge(Charge(st)))))
  {
    var tpl, s1 := StaleTemplate(op), Charge(st);
    var rows, fn, last := List([Num(1), Num(2)]), Closure(Str("x"), StaleBody(), map[]), StaleTerm().args[1];
    CallRun(tpl, memo, s1, Lambda(StaleBody()), Str("x"), PlainMode, map[]);
    var s3 := Charge(Charge(s1));
    assert [last][1..] == [] && RunAll(tpl, memo, s3, [], PlainMode, map[]) == Some(([], s3));
    assert RunAll(tpl, memo, s1, [last], PlainMode, map[]) == Some(([fn] + [], s3));
    assert StaleTerm().args[1..] == [last] && [rows] + ([fn] + []) == [rows, fn];
  }

  lemma StaleRun(op: Operator, memo: bool, budget: nat)
    requires Scoped(op) && budget >= 12
    ensures var r := Run(StaleTemplate(op), memo, Start(budget), StaleTerm(), PlainMode, map[]);
      r.Some? && r.value.0 == List([Seen(op, Num(1)), Seen(op, Num(if memo then 1 else 2))])
  {
    StaleArguments(op, memo, Start(budget - 1));
    StaleRows(op, memo, Start(budget - 4), Closure(Str("x"), StaleBody(), map[]));
  }

  lemma StaleTable()
    ensures !ClosedTemplate(StaleTemplate(LambdaVariable))
    ensures var plain := Run(StaleTemplate(LambdaVariable), false, Start(BUDGET), StaleTerm(), PlainMode, map[]);
      plain.Some? && plain.value.0 == List([Num(1), Num(2)])
    ensures var tabled := Run(StaleTemplate(LambdaVariable), true, Start(BUDGET), StaleTerm(), PlainMode, map[]);
      tabled.Some? && tabled.value.0 == List([Num(1), Num(1)])
  {
    assert "v" in StaleTemplate(LambdaVariable).variables && !Closed(StaleTemplate(LambdaVariable).variables["v"], {});
    StaleRun(LambdaVariable, false, BUDGET);
    StaleRun(LambdaVariable, true, BUDGET);
  }

  // Why lambdas may only stand in map and filter: with the variable
  // lambda('x', lambdaVariables('x')), which has no free lambda variable, both
  // rows get the closure over x = 1, where the plain run gives one over x = 2.
  lemma StaleClosure()
    ensures var body := Call(LambdaVariable, [Literal(Str("x"))]);
      && !ClosedTemplate(StaleTemplate(Lambda(body)))
      && (var plain := Run(StaleTemplate(Lambda(body)), false, Start(BUDGET), StaleTerm(), PlainMode, map[]);
          plain.Some? && plain.value.0 == List([Captured(body, 1), Captured(body, 2)]))
      && (var tabled := Run(StaleTemplate(Lambda(body)), true, Start(BUDGET), StaleTerm(), PlainMode, map[]);
          tabled.Some? && tabled.value.0 == List([Captured(body, 1), Captured(body, 1)]))
  {
    var op := Lambda(Call(LambdaVariable, [Literal(Str("x"))]));
    assert "v" in StaleTemplate(op).variables && !Closed(StaleTemplate(op).variables["v"], {});
    StaleRun(op, false, BUDGET);
    StaleRun(op, true, BUDGET);
  }

  function Captured(body: Term, n: int): Value {
    Closure(Str("x"), body, map["x" := Num(n)])
  }
}
