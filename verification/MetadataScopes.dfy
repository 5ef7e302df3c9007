// The plain meaning of ARM metadata terms: a closed term means the same in
// every scope, and no term has two values.
module MetadataScopes {
  import opened Wrappers
  import opened MetadataSemantics

  // ----- Closed terms

  // Lambda variables only by a literal name that is bound, and lambdas only as
  // the second argument of map or filter, with a literal name.  A lambda
  // anywhere else would be a value, and its value holds the scope it is met in.
  ghost predicate Closed(t: Term, bound: set<string>)
    decreases t
  {
    match t
    case Plain(_) => true
    case Literal(_) => true
    case Array(ts) => forall u :: u in ts ==> Closed(u, bound)
    case Object(_, ts) => forall u :: u in ts ==> Closed(u, bound)
    case Call(op, ts) =>
      match op
      case Lambda(_) => false
      case LambdaVariable => |ts| == 1 && IsName(ts[0]) && ts[0].value.s in bound
      case Collect(_) => |ts| == 2 && Closed(ts[0], bound) && ClosedLambda(ts[1], bound)
      case If(a, b) => Closed(a, bound) && Closed(b, bound) && forall u :: u in ts ==> Closed(u, bound)
      case _ => forall u :: u in ts ==> Closed(u, bound)
  }

  ghost predicate ClosedLambda(f: Term, bound: set<string>)
    decreases f
  {
    && f.Call? && f.op.Lambda? && |f.args| == 1 && IsName(f.args[0])
    && Closed(f.op.body, bound + {f.args[0].value.s})
  }

  predicate IsName(t: Term) {
    t.Literal? && t.value.Str?
  }

  // What a call may still evaluate in the caller's scope is closed too.
  ghost predicate ClosedTemplate(tpl: Template) {
    && (forall n :: n in tpl.variables ==> Closed(tpl.variables[n], {}))
    && (forall n :: n in tpl.applications ==> Closed(tpl.applications[n], {}))
    && (forall n :: n in tpl.parameters && tpl.parameters[n].initial.Some?
          ==> Closed(tpl.parameters[n].initial.value, {}))
  }

  ghost predicate Agree(s1: Scope, s2: Scope, bound: set<string>) {
    forall x :: x in bound ==> x in s1 && x in s2 && s1[x] == s2[x]
  }

  // ----- A closed term means the same in every scope that binds its variables

  lemma {:induction false} ScopeIrrelevant(tpl: Template, d: nat, t: Term, mode: Mode, s1: Scope, s2: Scope,
                                           bound: set<string>)
    requires ClosedTemplate(tpl) && Closed(t, bound) && Agree(s1, s2, bound)
    ensures Meaning(tpl, d, t, mode, s1) == Meaning(tpl, d, t, mode, s2)
    decreases d, 0, t
  {
    if t.Charged() && d == 0 {
    } else {
      match t
      case Plain(_) =>
      case Literal(_) =>
      case Array(ts) => ScopeIrrelevantAll(tpl, d, ts, mode, s1, s2, bound);
      case Object(json, ts) =>
        ScopeIrrelevantMembers(tpl, if json then d else d - 1, ts, mode, s1, s2, bound, map[]);
      case Call(op, ts) =>
        if op.Collect? {
          ScopeIrrelevantCollect(tpl, d, t, mode, s1, s2, bound);
        } else {
          ScopeIrrelevantAll(tpl, d - 1, ts, mode, s1, s2, bound);
          var vs := MeaningAll(tpl, d - 1, ts, mode, s1);
          if vs.Some? {
            ScopeIrrelevantCall(tpl, d, t, vs.value, mode, s1, s2, bound);
          }
        }
    }
  }

  lemma {:induction false} ScopeIrrelevantCall(tpl: Template, d: nat, t: Term, vs: seq<Value>, mode: Mode, s1: Scope,
                                               s2: Scope, bound: set<string>)
    requires ClosedTemplate(tpl) && Closed(t, bound) && Agree(s1, s2, bound) && t.Call? && !t.op.Collect? && d > 0
    requires MeaningAll(tpl, d - 1, t.args, mode, s1) == Some(vs)
    ensures MeaningNext(tpl, d - 1, Next(tpl, t.op, vs, mode, s1), mode, s1)
         == MeaningNext(tpl, d - 1, Next(tpl, t.op, vs, mode, s2), mode, s2)
    decreases d, 0, t, 0
  {
    var o := Next(tpl, t.op, vs, mode, s1);
    NextIrrelevant(tpl, d - 1, t, vs, mode, s1, s2, bound);
    if o.Then? {
      ScopeIrrelevant(tpl, d - 1, o.term, o.mode, s1, s2, if t.op.If? then bound else {});
    } else if o.Recall? && o.name in tpl.variables {
      ScopeIrrelevant(tpl, d - 1, tpl.variables[o.name], mode, s1, s2, {});
    }
  }

  lemma {:induction false} NextIrrelevant(tpl: Template, d: nat, t: Term, vs: seq<Value>, mode: Mode, s1: Scope,
                                          s2: Scope, bound: set<string>)
    requires ClosedTemplate(tpl) && Closed(t, bound) && Agree(s1, s2, bound) && t.Call? && !t.op.Collect?
    requires MeaningAll(tpl, d, t.args, mode, s1) == Some(vs)
    ensures Next(tpl, t.op, vs, mode, s1) == Next(tpl, t.op, vs, mode, s2)
    ensures var o := Next(tpl, t.op, vs, mode, s1);
      !o.Each? && (o.Then? ==> Closed(o.term, if t.op.If? then bound else {}))
  {
    if t.op.LambdaVariable? {
      NameMeaning(tpl, d, t.args, mode, s1);
    }
  }

  lemma NameMeaning(tpl: Template, d: nat, ts: seq<Term>, mode: Mode, scope: Scope)
    requires |ts| == 1 && IsName(ts[0])
    ensures MeaningAll(tpl, d, ts, mode, scope) == if d > 0 then Some([ts[0].value]) else None
  {
    assert ts[1..] == [] && MeaningAll(tpl, d, [], mode, scope) == Some([]);
    assert [ts[0].value] + [] == [ts[0].value];
  }

  lemma LambdaMeaning(tpl: Template, d: nat, f: Term, mode: Mode, scope: Scope)
    requires f.Call? && f.op.Lambda? && |f.args| == 1 && IsName(f.args[0])
    ensures Meaning(tpl, d, f, mode, scope)
         == if d > 1 then Some(Closure(f.args[0].value, f.op.body, scope)) else None
  {
    if d > 0 {
      NameMeaning(tpl, d - 1, f.args, mode, scope);
    }
  }

  lemma CollectMeaning(tpl: Template, d: nat, mapping: bool, r: Term, f: Term, mode: Mode, scope: Scope)
    requires d > 0
    ensures Meaning(tpl, d, Call(Collect(mapping), [r, f]), mode, scope) ==
      var rows, fn := Meaning(tpl, d - 1, r, mode, scope), Meaning(tpl, d - 1, f, mode, scope);
      if rows.None? || fn.None? then None
      else MeaningNext(tpl, d - 1, Next(tpl, Collect(mapping), [rows.value, fn.value], mode, scope), mode, scope)
  {
    assert [r, f][1..] == [f] && [f][1..] == [];
    assert MeaningAll(tpl, d - 1, [], mode, scope) == Some([]);
    var fn := Meaning(tpl, d - 1, f, mode, scope);
    assert MeaningAll(tpl, d - 1, [f], mode, scope) == if fn.None? then None else Some([fn.value] + []);
  }

  lemma {:induction false} ScopeIrrelevantCollect(tpl: Template, d: nat, t: Term, mode: Mode, s1: Scope, s2: Scope,
                                                  bound: set<string>)
    requires ClosedTemplate(tpl) && Closed(t, bound) && Agree(s1, s2, bound) && t.Call? && t.op.Collect? && d > 0
    ensures Meaning(tpl, d, t, mode, s1) == Meaning(tpl, d, t, mode, s2)
    decreases d, 0, t, 0
  {
    var r, f := t.args[0], t.args[1];
    assert t.args == [r, f];
    CollectMeaning(tpl, d, t.op.mapping, r, f, mode, s1);
    CollectMeaning(tpl, d, t.op.mapping, r, f, mode, s2);
    ScopeIrrelevant(tpl, d - 1, r, mode, s1, s2, bound);
    LambdaMeaning(tpl, d - 1, f, mode, s1);
    LambdaMeaning(tpl, d - 1, f, mode, s2);
    var rows := Meaning(tpl, d - 1, r, mode, s1);
    if d > 2 && rows.Some? && rows.value.List? {
      ScopeIrrelevantRows(tpl, d - 1, t.op.mapping, Closure(f.args[0].value, f.op.body, s1),
                          Closure(f.args[0].value, f.op.body, s2), rows.value.items, mode, bound);
    }
  }

  lemma {:induction false} ScopeIrrelevantAll(tpl: Template, d: nat, ts: seq<Term>, mode: Mode, s1: Scope, s2: Scope,
                                              bound: set<string>)
    requires ClosedTemplate(tpl) && (forall u :: u in ts ==> Closed(u, bound)) && Agree(s1, s2, bound)
    ensures MeaningAll(tpl, d, ts, mode, s1) == MeaningAll(tpl, d, ts, mode, s2)
    decreases d, 0, ts
  {
    if ts != [] {
      ScopeIrrelevant(tpl, d, ts[0], mode, s1, s2, bound);
      ScopeIrrelevantAll(tpl, d, ts[1..], mode, s1, s2, bound);
    }
  }

  lemma {:induction false} ScopeIrrelevantMembers(tpl: Template, d: nat, ts: seq<Term>, mode: Mode, s1: Scope,
                                                  s2: Scope,
                                                  bound: set<string>, done: map<string, Value>)
    requires ClosedTemplate(tpl) && (forall u :: u in ts ==> Closed(u, bound)) && Agree(s1, s2, bound)
    ensures MeaningMembers(tpl, d, ts, mode, s1, done) == MeaningMembers(tpl, d, ts, mode, s2, done)
    decreases d, 0, ts, 1
  {
    if |ts| > 1 {
      ScopeIrrelevantMember(tpl, d, ts, mode, s1, s2, bound, done);
      var more := MeaningMember(tpl, d, ts, mode, s1, done);
      if more.Some? {
        ScopeIrrelevantMembers(tpl, d, ts[2..], mode, s1, s2, bound, more.value);
      }
    }
  }

  lemma {:induction false} ScopeIrrelevantMember(tpl: Template, d: nat, ts: seq<Term>, mode: Mode, s1: Scope, s2: Scope,
                                                 bound: set<string>, done: map<string, Value>)
    requires ClosedTemplate(tpl) && |ts| > 1 && (forall u :: u in ts ==> Closed(u, bound)) && Agree(s1, s2, bound)
    ensures MeaningMember(tpl, d, ts, mode, s1, done) == MeaningMember(tpl, d, ts, mode, s2, done)
    decreases d, 0, ts, 0
  {
    ScopeIrrelevant(tpl, d, ts[0], mode, s1, s2, bound);
    var key := Meaning(tpl, d, ts[0], mode, s1);
    if key.Some? && key.value.Str? {
      ScopeIrrelevant(tpl, d, ts[1], FieldMode(key.value.s, mode), s1, s2, bound);
    }
  }

  lemma {:induction false} ScopeIrrelevantRows(tpl: Template, d: nat, mapping: bool, fn1: Value, fn2: Value,
                                               rows: seq<Value>, mode: Mode, bound: set<string>)
    requires ClosedTemplate(tpl) && Applicable(fn1) && Applicable(fn2) && fn1.param == fn2.param && fn1.body == fn2.body
    requires Closed(fn1.body, bound + {fn1.param.s}) && Agree(fn1.scope, fn2.scope, bound)
    ensures MeaningRows(tpl, d, mapping, fn1, rows, mode) == MeaningRows(tpl, d, mapping, fn2, rows, mode)
    decreases d, 1, rows
  {
    if rows != [] {
      var x := fn1.param.s;
      ScopeIrrelevant(tpl, d, fn1.body, mode, fn1.scope[x := rows[0]], fn2.scope[x := rows[0]], bound + {x});
      ScopeIrrelevantRows(tpl, d, mapping, fn1, fn2, rows[1..], mode, bound);
    }
  }

  // ----- A deeper bound changes no value

  lemma {:induction false} Deeper(tpl: Template, d: nat, e: nat, t: Term, mode: Mode, scope: Scope)
    requires d <= e && Meaning(tpl, d, t, mode, scope).Some?
    ensures Meaning(tpl, e, t, mode, scope) == Meaning(tpl, d, t, mode, scope)
    decreases d, 0, t
  {
    match t
    case Plain(_) =>
    case Literal(_) =>
    case Array(ts) => DeeperAll(tpl, d, e, ts, mode, scope);
    case Object(json, ts) =>
      if json {
        DeeperMembers(tpl, d, e, ts, mode, scope, map[]);
      } else {
        DeeperMembers(tpl, d - 1, e - 1, ts, mode, scope, map[]);
      }
    case Call(op, ts) =>
      DeeperAll(tpl, d - 1, e - 1, ts, mode, scope);
      var vs := MeaningAll(tpl, d - 1, ts, mode, scope).value;
      DeeperNext(tpl, d - 1, e - 1, Next(tpl, op, vs, mode, scope), mode, scope);
  }

  lemma {:induction false} DeeperNext(tpl: Template, d: nat, e: nat, o: Outcome, mode: Mode, scope: Scope)
    requires d <= e && MeaningNext(tpl, d, o, mode, scope).Some?
    ensures MeaningNext(tpl, e, o, mode, scope) == MeaningNext(tpl, d, o, mode, scope)
    decreases d, 2
  {
    match o
    case Done(_) =>
    case Then(t, m, _) => Deeper(tpl, d, e, t, m, scope);
    case Recall(n) => Deeper(tpl, d, e, tpl.variables[n], mode, scope);
    case Each(mapping, fn, rows) => DeeperRows(tpl, d, e, mapping, fn, rows, mode);
  }

  lemma {:induction false} DeeperAll(tpl: Template, d: nat, e: nat, ts: seq<Term>, mode: Mode, scope: Scope)
    requires d <= e && MeaningAll(tpl, d, ts, mode, scope).Some?
    ensures MeaningAll(tpl, e, ts, mode, scope) == MeaningAll(tpl, d, ts, mode, scope)
    decreases d, 0, ts
  {
    if ts != [] {
      Deeper(tpl, d, e, ts[0], mode, scope);
      DeeperAll(tpl, d, e, ts[1..], mode, scope);
    }
  }

  lemma {:induction false} DeeperMembers(tpl: Template, d: nat, e: nat, ts: seq<Term>, mode: Mode, scope: Scope,
                                         done: map<string, Value>)
    requires d <= e && MeaningMembers(tpl, d, ts, mode, scope, done).Some?
    ensures MeaningMembers(tpl, e, ts, mode, scope, done) == MeaningMembers(tpl, d, ts, mode, scope, done)
    decreases d, 0, ts
  {
    if ts != [] {
      Deeper(tpl, d, e, ts[0], mode, scope);
      var key := Meaning(tpl, d, ts[0], mode, scope).value;
      var inner := FieldMode(key.s, mode);
      Deeper(tpl, d, e, ts[1], inner, scope);
      var v := FieldValue(key.s, mode, Meaning(tpl, d, ts[1], inner, scope).value);
      DeeperMembers(tpl, d, e, ts[2..], mode, scope, done[key.s := v.value]);
    }
  }

  lemma {:induction false} DeeperRows(tpl: Template, d: nat, e: nat, mapping: bool, fn: Value, rows: seq<Value>,
                                      mode: Mode)
    requires d <= e && Applicable(fn) && MeaningRows(tpl, d, mapping, fn, rows, mode).Some?
    ensures MeaningRows(tpl, e, mapping, fn, rows, mode) == MeaningRows(tpl, d, mapping, fn, rows, mode)
    decreases d, 1, rows
  {
    if rows != [] {
      Deeper(tpl, d, e, fn.body, mode, fn.scope[fn.param.s := rows[0]]);
      DeeperRows(tpl, d, e, mapping, fn, rows[1..], mode);
    }
  }

  // So a term has at most one value, whatever the depth.
  lemma OneMeaning(tpl: Template, d: nat, e: nat, t: Term, mode: Mode, scope: Scope)
    requires Meaning(tpl, d, t, mode, scope).Some? && Meaning(tpl, e, t, mode, scope).Some?
    ensures Meaning(tpl, d, t, mode, scope) == Meaning(tpl, e, t, mode, scope)
  {
    if d <= e {
      Deeper(tpl, d, e, t, mode, scope);
    } else {
      Deeper(tpl, e, d, t, mode, scope);
    }
  }

  // What a term means, at some depth and so at every greater one.
  ghost predicate Means(tpl: Template, t: Term, mode: Mode, scope: Scope, v: Value) {
    exists d: nat :: Meaning(tpl, d, t, mode, scope) == Some(v)
  }
}
