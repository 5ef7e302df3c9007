// The evaluator itself: an object whose table, set of active variables and
// remaining budget change as it walks a template.
module MetadataEvaluator {
  import opened Wrappers
  import opened MetadataSemantics
  import opened MetadataScopes
  import opened MetadataMemo

  // Whether an answer and the state left are those of a run; a refusal ends
  // the whole evaluation, so the state it leaves does not matter.
  ghost predicate Does<T(!new)>(out: Option<(T, Memo)>, r: Option<T>, after: Memo) {
    if out.Some? then r == Some(out.value.0) && after == out.value.1 else r.None?
  }

  ghost function Prepend(result: seq<Value>, rest: Option<(seq<Value>, Memo)>): Option<(seq<Value>, Memo)> {
    if rest.Some? then Some((result + rest.value.0, rest.value.1)) else None
  }

  lemma RowsStep(tpl: Template, st: Memo, mapping: bool, fn: Value, rows: seq<Value>, i: nat, mode: Mode,
                 result: seq<Value>)
    requires Applicable(fn) && i < |rows|
    ensures Prepend(result, RunRows(tpl, true, st, mapping, fn, rows[i..], mode)) ==
      match Run(tpl, true, st, fn.body, mode, fn.scope[fn.param.s := rows[i]])
      case None => None
      case Some((v, s1)) =>
        var some := RowResult(mapping, rows[i], v);
        if some.None? then None
        else Prepend(result + some.value, RunRows(tpl, true, s1, mapping, fn, rows[i+1..], mode))
  {
    assert rows[i..][0] == rows[i] && rows[i..][1..] == rows[i+1..];
    var here := Run(tpl, true, st, fn.body, mode, fn.scope[fn.param.s := rows[i]]);
    if here.Some? {
      var some, rest := RowResult(mapping, rows[i], here.value.0), RunRows(tpl, true, here.value.1, mapping, fn, rows[i+1..], mode);
      assert some.Some? && rest.Some? ==> result + (some.value + rest.value.0) == result + some.value + rest.value.0;
    }
  }

  class Evaluator {
    const template: Template
    var cache: map<Key, Value>
    var active: set<Key>
    var remaining: nat

    constructor (template: Template, budget: nat)
      ensures this.template == template && State() == Memo(map[], {}, budget)
    {
      this.template := template;
      cache, active, remaining := map[], {}, budget;
    }

    ghost function State(): Memo
      reads this
    {
      Memo(cache, active, remaining)
    }

    method Evaluate(t: Term, mode: Mode, scope: Scope) returns (r: Option<Value>)
      modifies this
      ensures Does(old(Run(template, true, State(), t, mode, scope)), r, State())
      decreases remaining, 0, t
    {
      if t.Charged() {
        if remaining == 0 {
          return None;
        }
        remaining := remaining - 1;
      }
      match t
      case Plain(v) => return Some(v);
      case Literal(v) => return Some(v);
      case Array(items) =>
        if |items| > MAX_ITEMS {
          return None;
        }
        var vs :- EvaluateAll(items, mode, scope);
        return Some(List(vs));
      case Object(_, members) =>
        var o :- EvaluateMembers(members, mode, scope);
        return Some(Obj(o));
      case Call(op, args) =>
        var vs :- EvaluateAll(args, mode, scope);
        r := Continue(Next(template, op, vs, mode, scope), mode, scope);
    }

    // Over a template of closed terms the answer is what the term means, and the
    // table keeps holding what its variables mean, from the empty table on.
    twostate lemma AnswerMeans(t: Term, mode: Mode, scope: Scope, r: Option<Value>)
      requires Does(old(Run(template, true, State(), t, mode, scope)), r, State()) && r.Some?
      requires ClosedTemplate(template) && TableSound(template, old(cache))
      ensures Means(template, t, mode, scope, r.value) && TableSound(template, cache)
    {
      var _ := RunSound(template, true, old(State()), t, mode, scope);
    }

    method Continue(o: Outcome, mode: Mode, scope: Scope) returns (r: Option<Value>)
      modifies this
      ensures Does(old(RunNext(template, true, State(), o, mode, scope)), r, State())
      decreases remaining, 2
    {
      match o
      case Refuse => return None;
      case Done(v) => return Some(v);
      case Then(t, m, api) =>
        var v :- Evaluate(t, m, scope);
        return Finish(template, api, v);
      case Recall(n) =>
        var k := (n, mode);
        if k in active || |active| >= MAX_ACTIVE {
          return None;
        }
        if k !in cache {
          if n !in template.variables {
            return None;
          }
          active := active + {k};
          var v :- Evaluate(template.variables[n], mode, scope);
          cache := cache[k := v];
          active := active - {k};
        }
        return Some(cache[k]);
      case Each(mapping, fn, rows) =>
        if !Applicable(fn) {
          return None;
        }
        var vs :- EvaluateRows(mapping, fn, rows, mode);
        return Some(List(vs));
    }

    method EvaluateAll(ts: seq<Term>, mode: Mode, scope: Scope) returns (r: Option<seq<Value>>)
      modifies this
      ensures Does(old(RunAll(template, true, State(), ts, mode, scope)), r, State())
      decreases remaining, 0, ts
    {
      if ts == [] {
        return Some([]);
      }
      var v :- Evaluate(ts[0], mode, scope);
      var vs :- EvaluateAll(ts[1..], mode, scope);
      return Some([v] + vs);
    }

    method EvaluateMembers(ts: seq<Term>, mode: Mode, scope: Scope) returns (r: Option<map<string, Value>>)
      modifies this
      ensures Does(old(RunMembers(template, true, State(), ts, mode, scope, map[])), r, State())
      decreases remaining, 0, ts
    {
      var done: map<string, Value> := map[];
      var i := 0;
      ghost var out := RunMembers(template, true, State(), ts, mode, scope, map[]);
      assert ts[0..] == ts;
      while i + 1 < |ts|
        invariant i <= |ts| && remaining <= old(remaining)
        invariant out == RunMembers(template, true, State(), ts[i..], mode, scope, done)
      {
        assert ts[i..][0] == ts[i] && ts[i..][1] == ts[i+1] && ts[i..][2..] == ts[i+2..];
        var key :- Evaluate(ts[i], mode, scope);
        if !key.Str? || key.s in done {
          return None;
        }
        var raw :- Evaluate(ts[i+1], FieldMode(key.s, mode), scope);
        var v :- FieldValue(key.s, mode, raw);
        done := done[key.s := v];
        i := i + 2;
      }
      if i < |ts| {
        return None;
      }
      return Some(done);
    }

    method EvaluateRows(mapping: bool, fn: Value, rows: seq<Value>, mode: Mode) returns (r: Option<seq<Value>>)
      requires Applicable(fn)
      modifies this
      ensures Does(old(RunRows(template, true, State(), mapping, fn, rows, mode)), r, State())
      decreases remaining, 1, rows
    {
      var result: seq<Value> := [];
      ghost var out := RunRows(template, true, State(), mapping, fn, rows, mode);
      assert rows[0..] == rows && (out.Some? ==> [] + out.value.0 == out.value.0);
      for i := 0 to |rows|
        invariant remaining <= old(remaining)
        invariant out == Prepend(result, RunRows(template, true, State(), mapping, fn, rows[i..], mode))
      {
        RowsStep(template, State(), mapping, fn, rows, i, mode, result);
        var v :- Evaluate(fn.body, mode, fn.scope[fn.param.s := rows[i]]);
        var some :- RowResult(mapping, rows[i], v);
        result := result + some;
      }
      assert rows[|rows|..] == [] && result + [] == result;
      return Some(result);
    }
  }
}
