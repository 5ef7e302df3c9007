// ARM metadata expressions as the offline evaluator reads them: terms, values,
// and two meanings.  `Meaning` is the plain recursive one, bounded only in
// depth.  `Run` is what the evaluator does: it charges a step budget, keeps a
// table of variables by (name, mode) and refuses cyclic variables.
module MetadataSemantics {
  import opened Wrappers

  const MAX_ITEMS := 512
  const MAX_ACTIVE := 64

  datatype Mode = PlainMode | EnvMode

  type Scope = map<string, Value>

  datatype Value =
    | Null
    | Bool(b: bool)
    | Num(n: int)
    | Str(s: string)
    | List(items: seq<Value>)
    | Obj(fields: map<string, Value>)
    | Opaque
    | SecretSource(appId: string, name: string)
    | EnvValue(empty: bool)
    | Closure(param: Value, body: Term, scope: Scope)

  // A template value whose bracketed strings are already parsed.  Plain,
  // Array and a JSON Object come from the template itself; the rest are nodes
  // of a parsed expression.  An object lists its keys and values in turn.
  datatype Term =
    | Plain(value: Value)
    | Array(items: seq<Term>)
    | Object(json: bool, members: seq<Term>)
    | Literal(value: Value)
    | Call(op: Operator, args: seq<Term>)
  {
    // Evaluating an expression node costs a step; walking template JSON does not.
    predicate Charged() {
      Literal? || Call? || (Object? && !json)
    }
  }

  // What a call does once its arguments have values.  The branches of `if` and
  // the body of a lambda are not arguments, since they are evaluated later if
  // at all; `Strict` is any function that only looks at its argument values.
  datatype Operator =
    | Get
    | If(thn: Term, els: Term)
    | Lambda(body: Term)
    | Collect(mapping: bool)
    | Parameter
    | Variable
    | LambdaVariable
    | ListSecrets
    | Reference
    | Strict(name: string)

  // `initial` is the default value, if any; a secure parameter may only be
  // absent with an empty default.
  datatype Definition = Definition(secure: bool, initial: Option<Term>)

  // `applications` names the eligible secret sources, `listing` answers
  // listSecrets for an API version and an evaluated application name.
  datatype Template = Template(
    parameters: map<string, Definition>,
    supplied: map<string, Value>,
    variables: map<string, Term>,
    applications: map<string, Term>,
    strict: (string, seq<Value>) -> Option<Value>,
    listing: (Value, Value) -> Option<Value>)

  // How evaluation goes on after the arguments: not at all, with a value, with
  // another term (whose value `listSecrets` still passes to `listing`), with a
  // variable, or row by row.
  datatype Outcome =
    | Refuse
    | Done(value: Value)
    | Then(term: Term, mode: Mode, api: Option<Value>)
    | Recall(name: string)
    | Each(mapping: bool, fn: Value, rows: seq<Value>)

  // ----- Steps that involve no recursion

  function Known(v: Option<Value>): Outcome {
    if v.Some? then Done(v.value) else Refuse
  }

  function Member(obj: Value, key: Value): Option<Value> {
    match obj
    case Opaque => Some(Opaque)
    case Obj(fields) => if key.Str? && key.s in fields then Some(fields[key.s]) else None
    case List(items) => if key.Num? && 0 <= key.n < |items| then Some(items[key.n]) else None
    case _ => None
  }

  function FindParameter(tpl: Template, key: Value, mode: Mode): Outcome {
    if !key.Str? || key.s !in tpl.parameters then Refuse
    else
      var d := tpl.parameters[key.s];
      if d.secure then
        if key.s !in tpl.supplied && d.initial == Some(Plain(Str(""))) then Done(Str("")) else Refuse
      else if key.s in tpl.supplied then Done(tpl.supplied[key.s])
      else if d.initial.Some? then Then(d.initial.value, mode, None)
      else Refuse
  }

  predicate Applicable(fn: Value) {
    fn.Closure? && fn.param.Str?
  }

  function Next(tpl: Template, op: Operator, vs: seq<Value>, mode: Mode, scope: Scope): Outcome {
    match op
    case Get => if |vs| == 2 then Known(Member(vs[0], vs[1])) else Refuse
    case If(a, b) => if |vs| == 1 && vs[0].Bool? then Then(if vs[0].b then a else b, mode, None) else Refuse
    case Lambda(body) => if |vs| == 1 then Done(Closure(vs[0], body, scope)) else Refuse
    case Collect(mapping) =>
      if |vs| == 2 && vs[0].List? && |vs[0].items| <= MAX_ITEMS && Applicable(vs[1])
      then Each(mapping, vs[1], vs[0].items) else Refuse
    case Parameter => if |vs| == 1 then FindParameter(tpl, vs[0], mode) else Refuse
    case Variable => if |vs| == 1 && vs[0].Str? then Recall(vs[0].s) else Refuse
    case LambdaVariable => if |vs| == 1 && vs[0].Str? && vs[0].s in scope then Done(scope[vs[0].s]) else Refuse
    case ListSecrets =>
      if |vs| == 2 && vs[0].Str? && vs[0].s in tpl.applications
      then Then(tpl.applications[vs[0].s], PlainMode, Some(vs[1])) else Refuse
    case Reference => Done(Opaque)
    case Strict(name) =>
      if exists v :: v in vs && (v.Opaque? || v.SecretSource?) then Refuse else Known(tpl.strict(name, vs))
  }

  function Finish(tpl: Template, api: Option<Value>, v: Value): Option<Value> {
    if api.None? then Some(v) else tpl.listing(api.value, v)
  }

  function FieldMode(key: string, mode: Mode): Mode {
    if key == "value" then PlainMode else mode
  }

  // In an environment row the value itself is never kept, only its emptiness,
  // and a secret may not sit there.
  function FieldValue(key: string, mode: Mode, v: Value): Option<Value> {
    if mode == EnvMode && key == "value" then
      if v.SecretSource? then None else Some(EnvValue(v == Str("")))
    else Some(v)
  }

  // What one row adds to the result of map or filter.
  function RowResult(mapping: bool, row: Value, v: Value): Option<seq<Value>> {
    if mapping then Some([v])
    else if v.Bool? then Some(if v.b then [row] else [])
    else None
  }

  // ----- The plain meaning

  function Meaning(tpl: Template, d: nat, t: Term, mode: Mode, scope: Scope): Option<Value>
    decreases d, 0, t
  {
    if t.Charged() && d == 0 then None
    else
      match t
      case Plain(v) => Some(v)
      case Array(items) =>
        if |items| > MAX_ITEMS then None
        else var vs :- MeaningAll(tpl, d, items, mode, scope); Some(List(vs))
      case Object(json, members) =>
        var o :- MeaningMembers(tpl, if json then d else d - 1, members, mode, scope, map[]); Some(Obj(o))
      case Literal(v) => Some(v)
      case Call(op, args) =>
        var vs :- MeaningAll(tpl, d - 1, args, mode, scope);
        MeaningNext(tpl, d - 1, Next(tpl, op, vs, mode, scope), mode, scope)
  }

  function MeaningNext(tpl: Template, d: nat, o: Outcome, mode: Mode, scope: Scope): Option<Value>
    decreases d, 2
  {
    match o
    case Refuse => None
    case Done(v) => Some(v)
    case Then(t, m, api) => var v :- Meaning(tpl, d, t, m, scope); Finish(tpl, api, v)
    case Recall(n) => if n in tpl.variables then Meaning(tpl, d, tpl.variables[n], mode, scope) else None
    case Each(mapping, fn, rows) =>
      if !Applicable(fn) then None
      else var vs :- MeaningRows(tpl, d, mapping, fn, rows, mode); Some(List(vs))
  }

  function MeaningAll(tpl: Template, d: nat, ts: seq<Term>, mode: Mode, scope: Scope): Option<seq<Value>>
    decreases d, 0, ts
  {
    if ts == [] then Some([])
    else
      var v :- Meaning(tpl, d, ts[0], mode, scope);
      var vs :- MeaningAll(tpl, d, ts[1..], mode, scope);
      Some([v] + vs)
  }

  function MeaningMembers(tpl: Template, d: nat, ts: seq<Term>, mode: Mode, scope: Scope,
                          done: map<string, Value>): Option<map<string, Value>>
    decreases d, 0, ts, 1
  {
    if ts == [] then Some(done)
    else if |ts| == 1 then None
    else
      var more :- MeaningMember(tpl, d, ts, mode, scope, done);
      MeaningMembers(tpl, d, ts[2..], mode, scope, more)
  }

  function MeaningMember(tpl: Template, d: nat, ts: seq<Term>, mode: Mode, scope: Scope,
                         done: map<string, Value>): Option<map<string, Value>>
    requires |ts| > 1
    decreases d, 0, ts, 0
  {
    var key :- Meaning(tpl, d, ts[0], mode, scope);
    if !key.Str? || key.s in done then None
    else
      var raw :- Meaning(tpl, d, ts[1], FieldMode(key.s, mode), scope);
      var v :- FieldValue(key.s, mode, raw);
      Some(done[key.s := v])
  }

  function MeaningRows(tpl: Template, d: nat, mapping: bool, fn: Value, rows: seq<Value>,
                       mode: Mode): Option<seq<Value>>
    requires Applicable(fn)
    decreases d, 1, rows
  {
    if rows == [] then Some([])
    else
      var v :- Meaning(tpl, d, fn.body, mode, fn.scope[fn.param.s := rows[0]]);
      var some :- RowResult(mapping, rows[0], v);
      var more :- MeaningRows(tpl, d, mapping, fn, rows[1..], mode);
      Some(some + more)
  }

  // ----- What the evaluator does

  type Key = (string, Mode)

  datatype Memo = Memo(cache: map<Key, Value>, active: set<Key>, remaining: nat)

  // `memo` is true for the evaluator and false for the same evaluator without
  // its table.  Every template ends: the budget falls, or the term gets smaller.
  function Run(tpl: Template, memo: bool, st: Memo, t: Term, mode: Mode, scope: Scope): (r: Option<(Value, Memo)>)
    ensures r.Some? ==> r.value.1.remaining <= st.remaining && r.value.1.active == st.active
    decreases st.remaining, 0, t
  {
    if t.Charged() && st.remaining == 0 then None
    else
      match t
      case Plain(v) => Some((v, st))
      case Array(items) =>
        if |items| > MAX_ITEMS then None
        else var (vs, s1) :- RunAll(tpl, memo, st, items, mode, scope); Some((List(vs), s1))
      case Object(json, members) =>
        var s := if json then st else Charge(st);
        var (o, s1) :- RunMembers(tpl, memo, s, members, mode, scope, map[]); Some((Obj(o), s1))
      case Literal(v) => Some((v, Charge(st)))
      case Call(op, args) =>
        var (vs, s1) :- RunAll(tpl, memo, Charge(st), args, mode, scope);
        RunNext(tpl, memo, s1, Next(tpl, op, vs, mode, scope), mode, scope)
  }

  function Charge(st: Memo): Memo
    requires st.remaining > 0
  {
    st.(remaining := st.remaining - 1)
  }

  function RunNext(tpl: Template, memo: bool, st: Memo, o: Outcome, mode: Mode,
                   scope: Scope): (r: Option<(Value, Memo)>)
    ensures r.Some? ==> r.value.1.remaining <= st.remaining && r.value.1.active == st.active
    decreases st.remaining, 2
  {
    match o
    case Refuse => None
    case Done(v) => Some((v, st))
    case Then(t, m, api) =>
      var (v, s1) :- Run(tpl, memo, st, t, m, scope);
      var w :- Finish(tpl, api, v);
      Some((w, s1))
    case Recall(n) =>
      var k := (n, mode);
      if k in st.active || |st.active| >= MAX_ACTIVE then None
      else if memo && k in st.cache then Some((st.cache[k], st))
      else if n !in tpl.variables then None
      else
        var (v, s1) :- Run(tpl, memo, st.(active := st.active + {k}), tpl.variables[n], mode, scope);
        Some((v, Memo(if memo then s1.cache[k := v] else s1.cache, s1.active - {k}, s1.remaining)))
    case Each(mapping, fn, rows) =>
      if !Applicable(fn) then None
      else var (vs, s1) :- RunRows(tpl, memo, st, mapping, fn, rows, mode); Some((List(vs), s1))
  }

  function RunAll(tpl: Template, memo: bool, st: Memo, ts: seq<Term>, mode: Mode, scope: Scope)
    : (r: Option<(seq<Value>, Memo)>)
    ensures r.Some? ==> r.value.1.remaining <= st.remaining && r.value.1.active == st.active
    decreases st.remaining, 0, ts
  {
    if ts == [] then Some(([], st))
    else
      var (v, s1) :- Run(tpl, memo, st, ts[0], mode, scope);
      var (vs, s2) :- RunAll(tpl, memo, s1, ts[1..], mode, scope);
      Some(([v] + vs, s2))
  }

  function RunMembers(tpl: Template, memo: bool, st: Memo, ts: seq<Term>, mode: Mode, scope: Scope,
                      done: map<string, Value>): (r: Option<(map<string, Value>, Memo)>)
    ensures r.Some? ==> r.value.1.remaining <= st.remaining && r.value.1.active == st.active
    decreases st.remaining, 0, ts
  {
    if ts == [] then Some((done, st))
    else if |ts| == 1 then None
    else
      var (key, s1) :- Run(tpl, memo, st, ts[0], mode, scope);
      if !key.Str? || key.s in done then None
      else
        var (raw, s2) :- Run(tpl, memo, s1, ts[1], FieldMode(key.s, mode), scope);
        var v :- FieldValue(key.s, mode, raw);
        RunMembers(tpl, memo, s2, ts[2..], mode, scope, done[key.s := v])
  }

  function RunRows(tpl: Template, memo: bool, st: Memo, mapping: bool, fn: Value, rows: seq<Value>, mode: Mode)
    : (r: Option<(seq<Value>, Memo)>)
    requires Applicable(fn)
    ensures r.Some? ==> r.value.1.remaining <= st.remaining && r.value.1.active == st.active
    decreases st.remaining, 1, rows
  {
    if rows == [] then Some(([], st))
    else
      var (v, s1) :- Run(tpl, memo, st, fn.body, mode, fn.scope[fn.param.s := rows[0]]);
      var some :- RowResult(mapping, rows[0], v);
      var (more, s2) :- RunRows(tpl, memo, s1, mapping, fn, rows[1..], mode);
      Some((some + more, s2))
  }
}
