// What each kind of term means, said of terms and values alone.
module MetadataLaws {
  import opened Wrappers
  import opened MetadataSemantics
  import opened MetadataScopes

  // ----- Several terms, and calls of them

  ghost predicate MeansAll(tpl: Template, ts: seq<Term>, mode: Mode, scope: Scope, vs: seq<Value>) {
    |vs| == |ts| && forall i :: 0 <= i < |ts| ==> Means(tpl, ts[i], mode, scope, vs[i])
  }

  lemma {:induction false} AllForward(tpl: Template, d: nat, ts: seq<Term>, mode: Mode, scope: Scope)
    requires MeaningAll(tpl, d, ts, mode, scope).Some?
    ensures MeansAll(tpl, ts, mode, scope, MeaningAll(tpl, d, ts, mode, scope).value)
  {
    if ts != [] {
      AllForward(tpl, d, ts[1..], mode, scope);
      var vs := MeaningAll(tpl, d, ts[1..], mode, scope).value;
      forall i | 0 <= i < |ts|
        ensures Means(tpl, ts[i], mode, scope, MeaningAll(tpl, d, ts, mode, scope).value[i])
      {
        assert i > 0 ==> ts[i] == ts[1..][i-1];
      }
    }
  }

  lemma {:induction false} AllBackward(tpl: Template, ts: seq<Term>, mode: Mode, scope: Scope, vs: seq<Value>)
    returns (d: nat)
    requires MeansAll(tpl, ts, mode, scope, vs)
    ensures MeaningAll(tpl, d, ts, mode, scope) == Some(vs)
  {
    if ts == [] {
      d := 0;
    } else {
      var e: nat :| Meaning(tpl, e, ts[0], mode, scope) == Some(vs[0]);
      assert forall i :: 0 <= i < |ts| - 1 ==> ts[1..][i] == ts[i+1] && vs[1..][i] == vs[i+1];
      var f := AllBackward(tpl, ts[1..], mode, scope, vs[1..]);
      d := if e < f then f else e;
      Deeper(tpl, e, d, ts[0], mode, scope);
      DeeperAll(tpl, f, d, ts[1..], mode, scope);
      assert [vs[0]] + vs[1..] == vs;
    }
  }

  // How a call goes on once its arguments have values.
  ghost predicate GoesOn(tpl: Template, o: Outcome, mode: Mode, scope: Scope, v: Value) {
    exists d: nat :: MeaningNext(tpl, d, o, mode, scope) == Some(v)
  }

  lemma {:induction false} CallMeans(tpl: Template, op: Operator, ts: seq<Term>, mode: Mode, scope: Scope, v: Value)
    ensures Means(tpl, Call(op, ts), mode, scope, v) <==>
      exists vs: seq<Value> :: MeansAll(tpl, ts, mode, scope, vs) && GoesOn(tpl, Next(tpl, op, vs, mode, scope), mode, scope, v)
  {
    if Means(tpl, Call(op, ts), mode, scope, v) {
      var d: nat :| Meaning(tpl, d, Call(op, ts), mode, scope) == Some(v);
      var vs := MeaningAll(tpl, d - 1, ts, mode, scope).value;
      AllForward(tpl, d - 1, ts, mode, scope);
      assert MeaningNext(tpl, d - 1, Next(tpl, op, vs, mode, scope), mode, scope) == Some(v);
      assert GoesOn(tpl, Next(tpl, op, vs, mode, scope), mode, scope, v);
    }
    if vs :| MeansAll(tpl, ts, mode, scope, vs) && GoesOn(tpl, Next(tpl, op, vs, mode, scope), mode, scope, v) {
      CallBackward(tpl, op, ts, mode, scope, vs, v);
    }
  }

  lemma {:induction false} CallBackward(tpl: Template, op: Operator, ts: seq<Term>, mode: Mode, scope: Scope,
                                        vs: seq<Value>, v: Value)
    requires MeansAll(tpl, ts, mode, scope, vs) && GoesOn(tpl, Next(tpl, op, vs, mode, scope), mode, scope, v)
    ensures Means(tpl, Call(op, ts), mode, scope, v)
  {
    var o := Next(tpl, op, vs, mode, scope);
    var e := AllBackward(tpl, ts, mode, scope, vs);
    var f: nat :| MeaningNext(tpl, f, o, mode, scope) == Some(v);
    var d := if e < f then f else e;
    DeeperAll(tpl, e, d, ts, mode, scope);
    DeeperNext(tpl, f, d, o, mode, scope);
    assert Meaning(tpl, d + 1, Call(op, ts), mode, scope) == Some(v);
  }

  lemma ThenGoesOn(tpl: Template, t: Term, m: Mode, api: Option<Value>, mode: Mode, scope: Scope, v: Value)
    ensures GoesOn(tpl, Then(t, m, api), mode, scope, v) <==>
      exists w :: Means(tpl, t, m, scope, w) && (if api.None? then v == w else tpl.listing(api.value, w) == Some(v))
  {
    if GoesOn(tpl, Then(t, m, api), mode, scope, v) {
      var d: nat :| MeaningNext(tpl, d, Then(t, m, api), mode, scope) == Some(v);
      assert Means(tpl, t, m, scope, Meaning(tpl, d, t, m, scope).value);
    }
    if w :| Means(tpl, t, m, scope, w) && (if api.None? then v == w else tpl.listing(api.value, w) == Some(v)) {
      var d: nat :| Meaning(tpl, d, t, m, scope) == Some(w);
      assert MeaningNext(tpl, d, Then(t, m, api), mode, scope) == Some(v);
    }
  }

  lemma DoneGoesOn(tpl: Template, x: Value, mode: Mode, scope: Scope, v: Value)
    ensures GoesOn(tpl, Done(x), mode, scope, v) <==> v == x
    ensures !GoesOn(tpl, Refuse, mode, scope, v)
  {
    assert MeaningNext(tpl, 0, Done(x), mode, scope) == Some(x);
  }

  // One argument.
  lemma {:induction false} UnaryMeans(tpl: Template, op: Operator, t: Term, mode: Mode, scope: Scope, v: Value)
    ensures Means(tpl, Call(op, [t]), mode, scope, v) <==>
      exists x :: Means(tpl, t, mode, scope, x) && GoesOn(tpl, Next(tpl, op, [x], mode, scope), mode, scope, v)
  {
    CallMeans(tpl, op, [t], mode, scope, v);
    if vs :| MeansAll(tpl, [t], mode, scope, vs) && GoesOn(tpl, Next(tpl, op, vs, mode, scope), mode, scope, v) {
      assert vs == [vs[0]] && Means(tpl, [t][0], mode, scope, vs[0]);
    }
    if x :| Means(tpl, t, mode, scope, x) && GoesOn(tpl, Next(tpl, op, [x], mode, scope), mode, scope, v) {
      assert MeansAll(tpl, [t], mode, scope, [x]);
    }
  }

  // Two arguments.
  lemma {:induction false} BinaryMeans(tpl: Template, op: Operator, t: Term, u: Term, mode: Mode, scope: Scope,
                                       v: Value)
    ensures Means(tpl, Call(op, [t, u]), mode, scope, v) <==>
      exists x, y :: Means(tpl, t, mode, scope, x) && Means(tpl, u, mode, scope, y)
        && GoesOn(tpl, Next(tpl, op, [x, y], mode, scope), mode, scope, v)
  {
    CallMeans(tpl, op, [t, u], mode, scope, v);
    if vs :| MeansAll(tpl, [t, u], mode, scope, vs) && GoesOn(tpl, Next(tpl, op, vs, mode, scope), mode, scope, v) {
      assert vs == [vs[0], vs[1]];
      assert Means(tpl, [t, u][0], mode, scope, vs[0]) && Means(tpl, [t, u][1], mode, scope, vs[1]);
    }
    forall x, y | Means(tpl, t, mode, scope, x) && Means(tpl, u, mode, scope, y)
      ensures MeansAll(tpl, [t, u], mode, scope, [x, y])
    {
    }
  }

  // ----- Literals, lists, conditions and lookups

  lemma ValueMeans(tpl: Template, x: Value, mode: Mode, scope: Scope, v: Value)
    ensures Means(tpl, Plain(x), mode, scope, v) <==> v == x
    ensures Means(tpl, Literal(x), mode, scope, v) <==> v == x
  {
    assert Meaning(tpl, 1, Plain(x), mode, scope) == Some(x);
    assert Meaning(tpl, 1, Literal(x), mode, scope) == Some(x);
  }

  // A list has the values of its items, in order, when it is not too long.
  lemma {:induction false} ArrayMeans(tpl: Template, ts: seq<Term>, mode: Mode, scope: Scope, v: Value)
    ensures Means(tpl, Array(ts), mode, scope, v) <==>
      |ts| <= MAX_ITEMS && v.List? && MeansAll(tpl, ts, mode, scope, v.items)
  {
    if Means(tpl, Array(ts), mode, scope, v) {
      var d: nat :| Meaning(tpl, d, Array(ts), mode, scope) == Some(v);
      AllForward(tpl, d, ts, mode, scope);
    }
    if |ts| <= MAX_ITEMS && v.List? && MeansAll(tpl, ts, mode, scope, v.items) {
      var d := AllBackward(tpl, ts, mode, scope, v.items);
      assert Meaning(tpl, d, Array(ts), mode, scope) == Some(v);
    }
  }

  // `if` means what the branch that its condition selects means, and nothing
  // when the condition is no truth value.
  lemma {:induction false} IfMeans(tpl: Template, c: Term, a: Term, b: Term, mode: Mode, scope: Scope, v: Value)
    ensures Means(tpl, Call(If(a, b), [c]), mode, scope, v) <==>
      || (Means(tpl, c, mode, scope, Bool(true)) && Means(tpl, a, mode, scope, v))
      || (Means(tpl, c, mode, scope, Bool(false)) && Means(tpl, b, mode, scope, v))
  {
    UnaryMeans(tpl, If(a, b), c, mode, scope, v);
    DoneGoesOn(tpl, v, mode, scope, v);
    ThenGoesOn(tpl, a, mode, None, mode, scope, v);
    ThenGoesOn(tpl, b, mode, None, mode, scope, v);
  }

  // Member access: of an object by a key it has, of a list by an index within
  // it; an opaque value stays opaque.
  lemma {:induction false} GetMeans(tpl: Template, t: Term, u: Term, mode: Mode, scope: Scope, v: Value)
    ensures Means(tpl, Call(Get, [t, u]), mode, scope, v) <==>
      exists x, y :: Means(tpl, t, mode, scope, x) && Means(tpl, u, mode, scope, y) && HasMember(x, y, v)
  {
    BinaryMeans(tpl, Get, t, u, mode, scope, v);
    forall x, y
      ensures GoesOn(tpl, Next(tpl, Get, [x, y], mode, scope), mode, scope, v) <==> HasMember(x, y, v)
    {
      DoneGoesOn(tpl, if Member(x, y).Some? then Member(x, y).value else Null, mode, scope, v);
    }
  }

  ghost predicate HasMember(x: Value, y: Value, v: Value) {
    || (x == Opaque && v == Opaque)
    || (x.Obj? && y.Str? && (y.s, v) in x.fields.Items)
    || (x.List? && y.Num? && exists i :: 0 <= i < |x.items| && y.n == i && x.items[i] == v)
  }

  // A variable means what its body means where it is referred to.
  lemma {:induction false} VariableMeans(tpl: Template, t: Term, mode: Mode, scope: Scope, v: Value)
    ensures Means(tpl, Call(Variable, [t]), mode, scope, v) <==>
      exists n :: Means(tpl, t, mode, scope, Str(n)) && n in tpl.variables && Means(tpl, tpl.variables[n], mode, scope, v)
  {
    UnaryMeans(tpl, Variable, t, mode, scope, v);
    DoneGoesOn(tpl, v, mode, scope, v);
    forall n
      ensures GoesOn(tpl, Recall(n), mode, scope, v) <==> n in tpl.variables && Means(tpl, tpl.variables[n], mode, scope, v)
    {
      if GoesOn(tpl, Recall(n), mode, scope, v) {
        var d: nat :| MeaningNext(tpl, d, Recall(n), mode, scope) == Some(v);
        assert Meaning(tpl, d, tpl.variables[n], mode, scope) == Some(v);
      }
      if n in tpl.variables && Means(tpl, tpl.variables[n], mode, scope, v) {
        var d: nat :| Meaning(tpl, d, tpl.variables[n], mode, scope) == Some(v);
        assert MeaningNext(tpl, d, Recall(n), mode, scope) == Some(v);
      }
    }
  }

  // A secure parameter means the empty text, and only when nothing is supplied
  // for it and its default is that; any other means what is supplied for it, or
  // else what its default means.
  lemma {:induction false} ParameterMeans(tpl: Template, t: Term, mode: Mode, scope: Scope, v: Value)
    ensures Means(tpl, Call(Parameter, [t]), mode, scope, v) <==>
      exists n :: Means(tpl, t, mode, scope, Str(n)) && n in tpl.parameters && ParameterIs(tpl, n, mode, scope, v)
  {
    UnaryMeans(tpl, Parameter, t, mode, scope, v);
    forall x
      ensures GoesOn(tpl, Next(tpl, Parameter, [x], mode, scope), mode, scope, v) <==>
        x.Str? && x.s in tpl.parameters && ParameterIs(tpl, x.s, mode, scope, v)
    {
      DoneGoesOn(tpl, v, mode, scope, v);
      DoneGoesOn(tpl, Str(""), mode, scope, v);
      if x.Str? && x.s in tpl.parameters {
        if x.s in tpl.supplied {
          DoneGoesOn(tpl, tpl.supplied[x.s], mode, scope, v);
        }
        if tpl.parameters[x.s].initial.Some? {
          ThenGoesOn(tpl, tpl.parameters[x.s].initial.value, mode, None, mode, scope, v);
        }
      }
    }
  }

  ghost predicate ParameterIs(tpl: Template, n: string, mode: Mode, scope: Scope, v: Value)
    requires n in tpl.parameters
  {
    var d := tpl.parameters[n];
    && (d.secure ==> n !in tpl.supplied && d.initial == Some(Plain(Str(""))) && v == Str(""))
    && (!d.secure && n in tpl.supplied ==> v == tpl.supplied[n])
    && (!d.secure && n !in tpl.supplied ==> d.initial.Some? && Means(tpl, d.initial.value, mode, scope, v))
  }

  // The secrets of an application are listed under its name as evaluated plainly.
  lemma {:induction false} SecretsMean(tpl: Template, t: Term, u: Term, mode: Mode, scope: Scope, v: Value)
    ensures Means(tpl, Call(ListSecrets, [t, u]), mode, scope, v) <==>
      exists n, api :: Means(tpl, t, mode, scope, Str(n)) && Means(tpl, u, mode, scope, api)
        && n in tpl.applications && Lists(tpl, tpl.applications[n], api, scope, v)
  {
    BinaryMeans(tpl, ListSecrets, t, u, mode, scope, v);
    forall x, api
      ensures GoesOn(tpl, Next(tpl, ListSecrets, [x, api], mode, scope), mode, scope, v) <==>
        x.Str? && x.s in tpl.applications && Lists(tpl, tpl.applications[x.s], api, scope, v)
    {
      if x.Str? && x.s in tpl.applications {
        ThenGoesOn(tpl, tpl.applications[x.s], PlainMode, Some(api), mode, scope, v);
      } else {
        DoneGoesOn(tpl, v, mode, scope, v);
      }
    }
  }

  ghost predicate Lists(tpl: Template, application: Term, api: Value, scope: Scope, v: Value) {
    exists name :: Means(tpl, application, PlainMode, scope, name) && tpl.listing(api, name) == Some(v)
  }

  // Any other function is given its argument values, unless a secret or an
  // opaque value is among them.
  lemma {:induction false} StrictMeans(tpl: Template, name: string, ts: seq<Term>, mode: Mode, scope: Scope, v: Value)
    ensures Means(tpl, Call(Strict(name), ts), mode, scope, v) <==>
      exists vs: seq<Value> :: MeansAll(tpl, ts, mode, scope, vs) && tpl.strict(name, vs) == Some(v)
        && forall x :: x in vs ==> !x.Opaque? && !x.SecretSource?
    ensures Means(tpl, Call(Reference, ts), mode, scope, v) <==>
      v == Opaque && exists vs: seq<Value> :: MeansAll(tpl, ts, mode, scope, vs)
  {
    CallMeans(tpl, Strict(name), ts, mode, scope, v);
    CallMeans(tpl, Reference, ts, mode, scope, v);
    DoneGoesOn(tpl, Opaque, mode, scope, v);
    forall vs: seq<Value>
      ensures GoesOn(tpl, Next(tpl, Strict(name), vs, mode, scope), mode, scope, v) <==>
        tpl.strict(name, vs) == Some(v) && forall x :: x in vs ==> !x.Opaque? && !x.SecretSource?
    {
      var r := tpl.strict(name, vs);
      DoneGoesOn(tpl, if r.Some? then r.value else Null, mode, scope, v);
    }
  }

  // ----- Lambdas

  // A lambda is its parameter and body with the scope it is met in; a lambda
  // variable is what the scope holds.
  lemma {:induction false} LambdaMeans(tpl: Template, t: Term, body: Term, mode: Mode, scope: Scope, v: Value)
    ensures Means(tpl, Call(Lambda(body), [t]), mode, scope, v) <==>
      v.Closure? && v.body == body && v.scope == scope && Means(tpl, t, mode, scope, v.param)
    ensures Means(tpl, Call(LambdaVariable, [t]), mode, scope, v) <==>
      exists x :: Means(tpl, t, mode, scope, Str(x)) && (x, v) in scope.Items
  {
    UnaryMeans(tpl, Lambda(body), t, mode, scope, v);
    UnaryMeans(tpl, LambdaVariable, t, mode, scope, v);
    forall x
      ensures GoesOn(tpl, Next(tpl, Lambda(body), [x], mode, scope), mode, scope, v) <==> v == Closure(x, body, scope)
      ensures GoesOn(tpl, Next(tpl, LambdaVariable, [x], mode, scope), mode, scope, v) <==> x.Str? && (x.s, v) in scope.Items
    {
      DoneGoesOn(tpl, Closure(x, body, scope), mode, scope, v);
      DoneGoesOn(tpl, if x.Str? && x.s in scope then scope[x.s] else Null, mode, scope, v);
    }
  }

  // What a lambda's body means for one row.
  ghost predicate Gives(tpl: Template, fn: Value, row: Value, mode: Mode, v: Value)
    requires fn.Closure? && fn.param.Str?
  {
    Means(tpl, fn.body, mode, fn.scope[fn.param.s := row], v)
  }

  ghost predicate GivesAll(tpl: Template, fn: Value, rows: seq<Value>, mode: Mode, vs: seq<Value>)
    requires fn.Closure? && fn.param.Str?
  {
    |vs| == |rows| && forall i :: 0 <= i < |rows| ==> Gives(tpl, fn, rows[i], mode, vs[i])
  }

  // What comes of rows: for map the values themselves, for filter the rows whose
  // value is true.
  function Kept(mapping: bool, rows: seq<Value>, vs: seq<Value>): seq<Value>
    requires |vs| == |rows|
  {
    if mapping then vs
    else if rows == [] then []
    else (if vs[0] == Bool(true) then [rows[0]] else []) + Kept(false, rows[1..], vs[1..])
  }

  ghost predicate Judged(mapping: bool, vs: seq<Value>) {
    !mapping ==> forall v :: v in vs ==> v.Bool?
  }

  lemma {:induction false} RowsForward(tpl: Template, d: nat, mapping: bool, fn: Value, rows: seq<Value>, mode: Mode)
    returns (vs: seq<Value>)
    requires Applicable(fn) && MeaningRows(tpl, d, mapping, fn, rows, mode).Some?
    ensures GivesAll(tpl, fn, rows, mode, vs) && Judged(mapping, vs)
    ensures MeaningRows(tpl, d, mapping, fn, rows, mode).value == Kept(mapping, rows, vs)
  {
    if rows == [] {
      vs := [];
    } else {
      var v := Meaning(tpl, d, fn.body, mode, fn.scope[fn.param.s := rows[0]]).value;
      var more := RowsForward(tpl, d, mapping, fn, rows[1..], mode);
      vs := [v] + more;
      assert vs[1..] == more && Gives(tpl, fn, rows[0], mode, v);
      assert forall i :: 0 < i < |rows| ==> vs[i] == more[i-1] && rows[i] == rows[1..][i-1];
    }
  }

  lemma {:induction false} RowsBackward(tpl: Template, mapping: bool, fn: Value, rows: seq<Value>, mode: Mode,
                                        vs: seq<Value>)
    returns (d: nat)
    requires Applicable(fn) && GivesAll(tpl, fn, rows, mode, vs) && Judged(mapping, vs)
    ensures MeaningRows(tpl, d, mapping, fn, rows, mode) == Some(Kept(mapping, rows, vs))
  {
    if rows == [] {
      d := 0;
    } else {
      var here := fn.scope[fn.param.s := rows[0]];
      assert Gives(tpl, fn, rows[0], mode, vs[0]);
      var e: nat :| Meaning(tpl, e, fn.body, mode, here) == Some(vs[0]);
      assert forall i :: 0 <= i < |rows| - 1 ==> vs[1..][i] == vs[i+1] && rows[1..][i] == rows[i+1];
      var f := RowsBackward(tpl, mapping, fn, rows[1..], mode, vs[1..]);
      d := if e < f then f else e;
      Deeper(tpl, e, d, fn.body, mode, here);
      DeeperRows(tpl, f, d, mapping, fn, rows[1..], mode);
      assert [vs[0]] + vs[1..] == vs;
    }
  }

  // `map` gives the value of the lambda for every row, in order; `filter` keeps
  // in order the rows for which it is true, and means nothing if for any of them
  // it is no truth value.
  lemma {:induction false} CollectMeans(tpl: Template, mapping: bool, t: Term, u: Term, mode: Mode, scope: Scope,
                                        v: Value)
    ensures Means(tpl, Call(Collect(mapping), [t, u]), mode, scope, v) <==>
      exists rows, fn :: Means(tpl, t, mode, scope, List(rows)) && Means(tpl, u, mode, scope, fn)
        && |rows| <= MAX_ITEMS && Collects(tpl, mapping, fn, rows, mode, v)
  {
    BinaryMeans(tpl, Collect(mapping), t, u, mode, scope, v);
    DoneGoesOn(tpl, v, mode, scope, v);
    forall rows, fn
      ensures GoesOn(tpl, Next(tpl, Collect(mapping), [List(rows), fn], mode, scope), mode, scope, v) <==>
        |rows| <= MAX_ITEMS && Collects(tpl, mapping, fn, rows, mode, v)
    {
      EachGoesOn(tpl, mapping, fn, rows, mode, scope, v);
    }
  }

  ghost predicate Collects(tpl: Template, mapping: bool, fn: Value, rows: seq<Value>, mode: Mode, v: Value) {
    && fn.Closure? && fn.param.Str?
    && exists vs :: GivesAll(tpl, fn, rows, mode, vs) && Judged(mapping, vs) && v == List(Kept(mapping, rows, vs))
  }

  lemma EachGoesOn(tpl: Template, mapping: bool, fn: Value, rows: seq<Value>, mode: Mode, scope: Scope, v: Value)
    ensures GoesOn(tpl, Each(mapping, fn, rows), mode, scope, v) <==> Collects(tpl, mapping, fn, rows, mode, v)
  {
    var o := Each(mapping, fn, rows);
    if GoesOn(tpl, o, mode, scope, v) {
      var d: nat :| MeaningNext(tpl, d, o, mode, scope) == Some(v);
      var vs := RowsForward(tpl, d, mapping, fn, rows, mode);
    }
    if Collects(tpl, mapping, fn, rows, mode, v) {
      var vs :| GivesAll(tpl, fn, rows, mode, vs) && Judged(mapping, vs) && v == List(Kept(mapping, rows, vs));
      var d := RowsBackward(tpl, mapping, fn, rows, mode, vs);
      assert MeaningNext(tpl, d, o, mode, scope) == Some(v);
    }
  }

  // ----- Objects

  // Keys and values in turn: each key a text of its own, and the value of a
  // `value` member evaluated plainly and, in an environment row, not a secret.
  ghost predicate MembersMean(tpl: Template, ts: seq<Term>, mode: Mode, scope: Scope, keys: seq<string>,
                              raws: seq<Value>) {
    && |ts| == 2 * |keys| && |raws| == |keys|
    && (forall i, j :: 0 <= i < j < |keys| ==> keys[i] != keys[j])
    && (forall i :: 0 <= i < |keys| ==> MemberMeans(tpl, ts[2*i], ts[2*i+1], mode, scope, keys[i], raws[i]))
  }

  ghost predicate MemberMeans(tpl: Template, t: Term, u: Term, mode: Mode, scope: Scope, key: string, raw: Value) {
    && Means(tpl, t, mode, scope, Str(key))
    && Means(tpl, u, if key == "value" then PlainMode else mode, scope, raw)
    && (mode.EnvMode? && key == "value" ==> !raw.SecretSource?)
  }

  // What a member shows of its value: in an environment row, only whether the
  // text is empty.
  function Shown(mode: Mode, key: string, raw: Value): Value {
    if mode.EnvMode? && key == "value" then EnvValue(raw == Str("")) else raw
  }

  function Filled(done: map<string, Value>, mode: Mode, keys: seq<string>, raws: seq<Value>): map<string, Value>
    requires |raws| == |keys|
    decreases |keys|
  {
    if keys == [] then done
    else Filled(done[keys[0] := Shown(mode, keys[0], raws[0])], mode, keys[1..], raws[1..])
  }

  lemma {:induction false} FilledHolds(done: map<string, Value>, mode: Mode, keys: seq<string>, raws: seq<Value>)
    requires |raws| == |keys| && (forall i, j :: 0 <= i < j < |keys| ==> keys[i] != keys[j])
    requires forall k :: k in keys ==> k !in done
    ensures forall k :: k in Filled(done, mode, keys, raws) <==> k in done || k in keys
    ensures forall k :: k in done ==> Filled(done, mode, keys, raws)[k] == done[k]
    ensures forall i :: 0 <= i < |keys| ==> Filled(done, mode, keys, raws)[keys[i]] == Shown(mode, keys[i], raws[i])
    decreases |keys|
  {
    if keys != [] {
      var more := done[keys[0] := Shown(mode, keys[0], raws[0])];
      assert forall i :: 0 <= i < |keys| - 1 ==> keys[1..][i] == keys[i+1];
      FilledHolds(more, mode, keys[1..], raws[1..]);
      assert keys == [keys[0]] + keys[1..];
      assert forall i :: 0 < i < |keys| ==> keys[i] == keys[1..][i-1] && raws[i] == raws[1..][i-1];
    }
  }

  ghost predicate Apart(keys: seq<string>, done: map<string, Value>) {
    forall k :: k in keys ==> k !in done
  }

  lemma MembersTail(tpl: Template, ts: seq<Term>, mode: Mode, scope: Scope, keys: seq<string>, raws: seq<Value>)
    requires |ts| >= 2 && |keys| >= 1 && |raws| == |keys|
    ensures MembersMean(tpl, ts, mode, scope, keys, raws) <==>
      && MemberMeans(tpl, ts[0], ts[1], mode, scope, keys[0], raws[0]) && keys[0] !in keys[1..]
      && MembersMean(tpl, ts[2..], mode, scope, keys[1..], raws[1..])
  {
    if MembersMean(tpl, ts, mode, scope, keys, raws) {
      forall i | 0 <= i < |keys| - 1
        ensures MemberMeans(tpl, ts[2..][2*i], ts[2..][2*i+1], mode, scope, keys[1..][i], raws[1..][i])
      {
        assert MemberMeans(tpl, ts[2*(i+1)], ts[2*(i+1)+1], mode, scope, keys[i+1], raws[i+1]);
      }
      assert MemberMeans(tpl, ts[2*0], ts[2*0+1], mode, scope, keys[0], raws[0]);
    }
    if MemberMeans(tpl, ts[0], ts[1], mode, scope, keys[0], raws[0]) && keys[0] !in keys[1..]
      && MembersMean(tpl, ts[2..], mode, scope, keys[1..], raws[1..]) {
      forall i | 0 <= i < |keys|
        ensures MemberMeans(tpl, ts[2*i], ts[2*i+1], mode, scope, keys[i], raws[i])
      {
        if i > 0 {
          assert MemberMeans(tpl, ts[2..][2*(i-1)], ts[2..][2*(i-1)+1], mode, scope, keys[1..][i-1], raws[1..][i-1]);
        }
      }
      forall i, j | 0 <= i < j < |keys| ensures keys[i] != keys[j] {
        assert keys[j] == keys[1..][j-1];
        if i > 0 {
          assert keys[i] == keys[1..][i-1];
        }
      }
    }
  }

  lemma {:induction false} MembersForward(tpl: Template, d: nat, ts: seq<Term>, mode: Mode, scope: Scope,
                                          done: map<string, Value>)
    returns (keys: seq<string>, raws: seq<Value>)
    requires MeaningMembers(tpl, d, ts, mode, scope, done).Some?
    ensures MembersMean(tpl, ts, mode, scope, keys, raws) && Apart(keys, done)
    ensures MeaningMembers(tpl, d, ts, mode, scope, done).value == Filled(done, mode, keys, raws)
  {
    if ts == [] {
      keys, raws := [], [];
    } else {
      var key, raw := MemberForward(tpl, d, ts, mode, scope, done);
      var more, others := MembersForward(tpl, d, ts[2..], mode, scope, done[key := Shown(mode, key, raw)]);
      keys, raws := [key] + more, [raw] + others;
      assert keys[1..] == more && raws[1..] == others;
      MembersTail(tpl, ts, mode, scope, keys, raws);
    }
  }

  lemma MemberForward(tpl: Template, d: nat, ts: seq<Term>, mode: Mode, scope: Scope, done: map<string, Value>)
    returns (key: string, raw: Value)
    requires |ts| > 1 && MeaningMember(tpl, d, ts, mode, scope, done).Some?
    ensures MemberMeans(tpl, ts[0], ts[1], mode, scope, key, raw) && key !in done
    ensures MeaningMember(tpl, d, ts, mode, scope, done).value == done[key := Shown(mode, key, raw)]
  {
    key := Meaning(tpl, d, ts[0], mode, scope).value.s;
    raw := Meaning(tpl, d, ts[1], FieldMode(key, mode), scope).value;
  }

  lemma MemberBackward(tpl: Template, ts: seq<Term>, mode: Mode, scope: Scope, done: map<string, Value>, key: string,
                       raw: Value) returns (d: nat)
    requires |ts| > 1 && MemberMeans(tpl, ts[0], ts[1], mode, scope, key, raw) && key !in done
    ensures forall e :: e >= d ==> MeaningMember(tpl, e, ts, mode, scope, done) == Some(done[key := Shown(mode, key, raw)])
  {
    var inner := if key == "value" then PlainMode else mode;
    var e: nat :| Meaning(tpl, e, ts[0], mode, scope) == Some(Str(key));
    var f: nat :| Meaning(tpl, f, ts[1], inner, scope) == Some(raw);
    d := if e < f then f else e;
    forall g | g >= d
      ensures MeaningMember(tpl, g, ts, mode, scope, done) == Some(done[key := Shown(mode, key, raw)])
    {
      Deeper(tpl, e, g, ts[0], mode, scope);
      Deeper(tpl, f, g, ts[1], inner, scope);
    }
  }

  lemma {:induction false} MembersBackward(tpl: Template, ts: seq<Term>, mode: Mode, scope: Scope,
                                           done: map<string, Value>, keys: seq<string>, raws: seq<Value>)
    returns (d: nat)
    requires MembersMean(tpl, ts, mode, scope, keys, raws) && Apart(keys, done)
    ensures MeaningMembers(tpl, d, ts, mode, scope, done) == Some(Filled(done, mode, keys, raws))
  {
    if ts == [] {
      d := 0;
    } else {
      MembersTail(tpl, ts, mode, scope, keys, raws);
      var more := done[keys[0] := Shown(mode, keys[0], raws[0])];
      assert keys[0] in keys && forall k :: k in keys[1..] ==> k in keys;
      var e := MemberBackward(tpl, ts, mode, scope, done, keys[0], raws[0]);
      var f := MembersBackward(tpl, ts[2..], mode, scope, more, keys[1..], raws[1..]);
      d := if e < f then f else e;
      DeeperMembers(tpl, f, d, ts[2..], mode, scope, more);
      assert MeaningMember(tpl, d, ts, mode, scope, done) == Some(more);
    }
  }

  lemma ShowsFilled(fields: map<string, Value>, mode: Mode, keys: seq<string>, raws: seq<Value>)
    requires |raws| == |keys| && forall i, j :: 0 <= i < j < |keys| ==> keys[i] != keys[j]
    ensures Shows(fields, mode, keys, raws) <==> fields == Filled(map[], mode, keys, raws)
  {
    FilledHolds(map[], mode, keys, raws);
    if Shows(fields, mode, keys, raws) {
      var filled := Filled(map[], mode, keys, raws);
      forall k | k in fields ensures fields[k] == filled[k] {
        var i :| 0 <= i < |keys| && keys[i] == k;
      }
      assert fields == filled;
    }
  }

  lemma ObjectForward(tpl: Template, d: nat, json: bool, ts: seq<Term>, mode: Mode, scope: Scope)
    requires Meaning(tpl, d, Object(json, ts), mode, scope).Some?
    ensures var v := Meaning(tpl, d, Object(json, ts), mode, scope).value;
      v.Obj? && exists keys, raws :: MembersMean(tpl, ts, mode, scope, keys, raws) && Shows(v.fields, mode, keys, raws)
  {
    var v := Meaning(tpl, d, Object(json, ts), mode, scope).value;
    var keys, raws := MembersForward(tpl, if json then d else d - 1, ts, mode, scope, map[]);
    ShowsFilled(v.fields, mode, keys, raws);
  }

  lemma ObjectBackward(tpl: Template, json: bool, ts: seq<Term>, mode: Mode, scope: Scope, fields: map<string, Value>,
                       keys: seq<string>, raws: seq<Value>)
    requires MembersMean(tpl, ts, mode, scope, keys, raws) && Shows(fields, mode, keys, raws)
    ensures Means(tpl, Object(json, ts), mode, scope, Obj(fields))
  {
    ShowsFilled(fields, mode, keys, raws);
    var d := MembersBackward(tpl, ts, mode, scope, map[], keys, raws);
    assert Meaning(tpl, if json then d else d + 1, Object(json, ts), mode, scope) == Some(Obj(fields));
  }

  // An object has just its keys, each with what its member shows; of an
  // environment row that is never the value itself, and never a secret.
  lemma {:induction false} ObjectMeans(tpl: Template, json: bool, ts: seq<Term>, mode: Mode, scope: Scope, v: Value)
    ensures Means(tpl, Object(json, ts), mode, scope, v) <==>
      v.Obj? && exists keys, raws :: MembersMean(tpl, ts, mode, scope, keys, raws) && Shows(v.fields, mode, keys, raws)
  {
    if Means(tpl, Object(json, ts), mode, scope, v) {
      var d: nat :| Meaning(tpl, d, Object(json, ts), mode, scope) == Some(v);
      ObjectForward(tpl, d, json, ts, mode, scope);
    }
    if v.Obj? {
      forall keys, raws | MembersMean(tpl, ts, mode, scope, keys, raws) && Shows(v.fields, mode, keys, raws)
        ensures Means(tpl, Object(json, ts), mode, scope, v)
      {
        ObjectBackward(tpl, json, ts, mode, scope, v.fields, keys, raws);
      }
    }
  }

  ghost predicate Shows(fields: map<string, Value>, mode: Mode, keys: seq<string>, raws: seq<Value>)
    requires |raws| == |keys|
  {
    && (forall k :: k in fields <==> k in keys)
    && (forall i :: 0 <= i < |keys| ==> fields[keys[i]] == Shown(mode, keys[i], raws[i]))
  }
}
