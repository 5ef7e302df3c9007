// Create-then-activate reconciliation of a resource whose versions are
// immutable: what may be left behind when a run is cut off after any service
// call, and what later runs make of it.
module ImmutableVersions {
  import opened Wrappers

  // ----- Content up to what the service fills in

  datatype Json =
    | Null
    | Bool(b: bool)
    | Num(n: int)
    | Str(s: string)
    | Arr(items: seq<Json>)
    | Obj(members: map<string, Json>)

  // Members that are null are left out, at every depth; list items stay.
  function Canonical(j: Json): Json {
    match j
    case Arr(items) => Arr(seq(|items|, i requires 0 <= i < |items| => Canonical(items[i])))
    case Obj(members) => Obj(map k | k in members && !members[k].Null? :: Canonical(members[k]))
    case _ => j
  }

  lemma {:induction false} CanonicalIdempotent(j: Json)
    ensures Canonical(Canonical(j)) == Canonical(j)
  {
    match j
    case Arr(items) =>
      forall i | 0 <= i < |items|
        ensures Canonical(Canonical(items[i])) == Canonical(items[i])
      {
        CanonicalIdempotent(items[i]);
      }
      assert Canonical(Canonical(j)) == Canonical(j);
    case Obj(members) =>
      forall k | k in members
        ensures Canonical(Canonical(members[k])) == Canonical(members[k])
      {
        CanonicalIdempotent(members[k]);
      }
      var c := Canonical(j).members;
      assert forall k :: k in c ==> !c[k].Null?;
      assert Canonical(Canonical(j)).members == c;
    case _ =>
  }

  // Two contents that differ only by null members, at whatever depth; a null
  // item of a list counts.
  ghost predicate SameButNulls(a: Json, b: Json)
    decreases a
  {
    match a
    case Arr(items) =>
      b.Arr? && |b.items| == |items| && forall i :: 0 <= i < |items| ==> SameButNulls(items[i], b.items[i])
    case Obj(members) =>
      && b.Obj?
      && (forall k :: Holds(a, k) <==> Holds(b, k))
      && (forall k :: k in members && Holds(a, k) && Holds(b, k) ==> SameButNulls(members[k], b.members[k]))
    case _ => a == b
  }

  predicate Holds(j: Json, key: string)
    requires j.Obj?
  {
    key in j.members && !j.members[key].Null?
  }

  lemma {:induction false} SameItems(a: Json, b: Json)
    requires a.Arr? && b.Arr? && |a.items| == |b.items|
    requires forall i :: 0 <= i < |a.items| ==>
      (Canonical(a.items[i]) == Canonical(b.items[i]) <==> SameButNulls(a.items[i], b.items[i]))
    ensures Canonical(a) == Canonical(b) <==> SameButNulls(a, b)
  {
    var ca, cb := Canonical(a).items, Canonical(b).items;
    assert forall i :: 0 <= i < |ca| ==> ca[i] == Canonical(a.items[i]) && cb[i] == Canonical(b.items[i]);
    if ca == cb {
      forall i | 0 <= i < |a.items| ensures SameButNulls(a.items[i], b.items[i]) {
        assert ca[i] == cb[i];
      }
    }
  }

  lemma {:induction false} SameMembers(a: Json, b: Json)
    requires a.Obj? && b.Obj?
    requires forall k :: k in a.members && k in b.members ==>
      (Canonical(a.members[k]) == Canonical(b.members[k]) <==> SameButNulls(a.members[k], b.members[k]))
    ensures Canonical(a) == Canonical(b) <==> SameButNulls(a, b)
  {
    var ca, cb := Canonical(a).members, Canonical(b).members;
    assert forall k :: (k in ca <==> Holds(a, k)) && (k in cb <==> Holds(b, k));
    assert forall k :: k in ca ==> ca[k] == Canonical(a.members[k]);
    assert forall k :: k in cb ==> cb[k] == Canonical(b.members[k]);
    if SameButNulls(a, b) {
      assert ca == cb;
    }
  }

  // The service may add null members anywhere, and drop them, and nothing else,
  // without changing what is compared.
  lemma {:induction false} NullMembersIgnored(a: Json, b: Json)
    ensures Canonical(a) == Canonical(b) <==> SameButNulls(a, b)
    decreases a
  {
    if a.Arr? && b.Arr? && |a.items| == |b.items| {
      forall i | 0 <= i < |a.items|
        ensures Canonical(a.items[i]) == Canonical(b.items[i]) <==> SameButNulls(a.items[i], b.items[i])
      {
        NullMembersIgnored(a.items[i], b.items[i]);
      }
      SameItems(a, b);
    } else if a.Obj? && b.Obj? {
      forall k | k in a.members && k in b.members
        ensures Canonical(a.members[k]) == Canonical(b.members[k]) <==> SameButNulls(a.members[k], b.members[k])
      {
        NullMembersIgnored(a.members[k], b.members[k]);
      }
      SameMembers(a, b);
    } else {
      assert Canonical(a).Arr? <==> a.Arr?;
      assert a.Arr? && b.Arr? ==> |Canonical(a).items| != |Canonical(b).items|;
    }
  }

  // A skill is one text, compared as it is; a toolbox is compared canonically.
  datatype Kind = Skill | Toolbox

  predicate Same(kind: Kind, a: Json, b: Json) {
    if kind == Skill then a == b else Canonical(a) == Canonical(b)
  }

  // ----- The service's state for one named resource

  type Id = string

  // A version the service lists without a usable identifier has none here.
  datatype Version = Version(id: Option<Id>, content: Json)

  datatype Store = Absent | Present(versions: seq<Version>, active: Option<Id>) {
    function Versions(): seq<Version> { if Absent? then [] else versions }
  }

  function Find(vs: seq<Version>, id: Option<Id>): Option<Version> {
    if id.None? || vs == [] then None
    else if vs[0].id == id then Some(vs[0])
    else Find(vs[1..], id)
  }

  ghost predicate Serves(kind: Kind, s: Store, desired: Json) {
    s.Present? && Find(s.versions, s.active).Some? && Same(kind, Find(s.versions, s.active).value.content, desired)
  }

  // ----- What one reconcile decides, and the states it passes through

  datatype Plan = Refuse | Keep | Switch(index: nat) | Add

  // The candidate a search stops at: a skill's search passes over matching
  // versions without an identifier, a toolbox's does not.
  predicate Stops(kind: Kind, v: Version, desired: Json) {
    Same(kind, v.content, desired) && (kind == Skill ==> v.id.Some?)
  }

  function Search(kind: Kind, vs: seq<Version>, desired: Json, i: nat): (r: Option<nat>)
    requires i <= |vs|
    ensures r.Some? ==> i <= r.value < |vs| && Stops(kind, vs[r.value], desired)
    ensures r.Some? ==> forall j :: i <= j < r.value ==> !Stops(kind, vs[j], desired)
    ensures r.None? ==> forall j :: i <= j < |vs| ==> !Stops(kind, vs[j], desired)
    decreases |vs| - i
  {
    if i == |vs| then None
    else if Stops(kind, vs[i], desired) then Some(i)
    else Search(kind, vs, desired, i + 1)
  }

  function PlanFor(kind: Kind, s: Store, desired: Json): Plan {
    match s
    case Absent => Add
    case Present(vs, active) =>
      var current := Find(vs, active);
      if current.None? then Refuse
      else if Same(kind, current.value.content, desired) then Keep
      else
        match Search(kind, vs, desired, 0)
        case None => Add
        case Some(i) => if vs[i].id.None? then Refuse else Switch(i)
  }

  // How the service answers a creation: the identifier it gives, the content it
  // echoes, and whether a new version of an existing resource becomes active at once.
  datatype Answer = Answer(id: Option<Id>, content: Json, eager: bool)

  ghost predicate Honest(kind: Kind, s: Store, desired: Json, a: Answer) {
    && Same(kind, a.content, desired)
    && (a.id.Some? ==> forall v :: v in s.Versions() ==> v.id != a.id)
  }

  function Created(s: Store, a: Answer): Store {
    var vs := s.Versions() + [Version(a.id, a.content)];
    Present(vs, if s.Absent? || a.eager then a.id else s.active)
  }

  // A version that becomes active at once, or is the first of its resource, is
  // served before any second call.
  lemma EagerServes(kind: Kind, s: Store, desired: Json, a: Answer)
    requires Honest(kind, s, desired, a) && a.id.Some? && (a.eager || s.Absent?)
    ensures Serves(kind, Created(s, a), desired)
  {
    FindIn(s.Versions(), a.id);
    FindAppend(s.Versions(), Version(a.id, a.content), a.id);
  }

  // The states between the mutating calls, the last one being the end.
  function Stages(kind: Kind, s: Store, desired: Json, a: Answer): seq<Store> {
    match PlanFor(kind, s, desired)
    case Refuse => [s]
    case Keep => [s]
    case Switch(i) =>
      if s.Present? && i < |s.versions| then [s, s.(active := s.versions[i].id)] else [s]
    case Add =>
      var c := Created(s, a);
      if a.id.Some? then [s, c, Present(c.versions, a.id)] else [s, c]
  }

  // A run that got as far as stage `k`, finishing only at the last one.
  ghost predicate Attempt(kind: Kind, s: Store, desired: Json, a: Answer, k: nat, after: Store) {
    Honest(kind, s, desired, a) && k < |Stages(kind, s, desired, a)| && after == Stages(kind, s, desired, a)[k]
  }

  predicate Finishes(kind: Kind, s: Store, desired: Json, a: Answer, k: nat) {
    && k + 1 == |Stages(kind, s, desired, a)|
    && !PlanFor(kind, s, desired).Refuse?
    && (PlanFor(kind, s, desired).Add? ==> a.id.Some?)
  }

  // ----- One run

  // Versions are only ever added, one at most, and a version is only added
  // when no version the search can see already holds its content.
  lemma {:induction false} AddsOnlyNew(kind: Kind, s: Store, desired: Json, a: Answer, k: nat, after: Store)
    requires Attempt(kind, s, desired, a, k, after)
    ensures after.Versions() == s.Versions() || after.Versions() == s.Versions() + [Version(a.id, a.content)]
    ensures after.Versions() != s.Versions() ==>
      forall v :: v in s.Versions() && Same(kind, v.content, desired) ==> kind == Skill && v.id.None?
  {
    if after.Versions() != s.Versions() && s.Present? {
      forall v | v in s.versions && Same(kind, v.content, desired)
        ensures kind == Skill && v.id.None?
      {
        var j :| 0 <= j < |s.versions| && s.versions[j] == v;
        assert !Stops(kind, s.versions[j], desired);
      }
    }
  }

  // So a toolbox never gets a duplicate, and a skill gets one exactly when its
  // content is not served and every version holding it lacks an identifier.
  lemma {:induction false} DuplicateExactly(kind: Kind, s: Store, desired: Json)
    requires s.Present? && Find(s.versions, s.active).Some?
    ensures (PlanFor(kind, s, desired).Add? && exists v :: v in s.versions && Same(kind, v.content, desired))
      <==> (&& kind == Skill
            && !Serves(kind, s, desired)
            && (exists v :: v in s.versions && Same(kind, v.content, desired))
            && (forall v :: v in s.versions && Same(kind, v.content, desired) ==> v.id.None?))
  {
    var found := Search(kind, s.versions, desired, 0);
    if found.Some? {
      assert s.versions[found.value] in s.versions;
    } else {
      forall v | v in s.versions && Same(kind, v.content, desired)
        ensures kind == Skill && v.id.None?
      {
        var j :| 0 <= j < |s.versions| && s.versions[j] == v;
        assert !Stops(kind, s.versions[j], desired);
      }
    }
  }

  // A skill whose one version holding a text has no identifier.
  lemma DuplicateSkill()
    ensures var s := Present([Version(Some("1"), Str("old")), Version(None, Str("new"))], Some("1"));
      PlanFor(Skill, s, Str("new")) == Add && s.versions[1].content == Str("new")
  {
    var vs := [Version(Some("1"), Str("old")), Version(None, Str("new"))];
    assert !Stops(Skill, vs[0], Str("new")) && !Stops(Skill, vs[1], Str("new"));
  }

  lemma {:induction false} FindAppend(vs: seq<Version>, v: Version, id: Option<Id>)
    ensures Find(vs + [v], id) == if Find(vs, id).Some? then Find(vs, id) else if id.Some? && v.id == id then Some(v) else None
  {
    if vs == [] {
      assert Find([v][1..], id) == None;
    } else {
      FindAppend(vs[1..], v, id);
      assert (vs + [v])[1..] == vs[1..] + [v];
    }
  }

  ghost predicate DistinctIds(vs: seq<Version>) {
    forall j, k :: 0 <= j < k < |vs| && vs[j].id.Some? ==> vs[j].id != vs[k].id
  }

  lemma {:induction false} FindOnly(vs: seq<Version>, i: nat)
    requires i < |vs| && vs[i].id.Some?
    requires DistinctIds(vs)
    ensures Find(vs, vs[i].id) == Some(vs[i])
  {
    if i > 0 {
      FindOnly(vs[1..], i - 1);
    }
  }

  lemma {:induction false} FindIn(vs: seq<Version>, id: Option<Id>)
    ensures Find(vs, id).Some? ==> Find(vs, id).value in vs && Find(vs, id).value.id == id
    ensures Find(vs, id).None? && id.Some? ==> forall v :: v in vs ==> v.id != id
  {
    if vs != [] {
      FindIn(vs[1..], id);
    }
  }

  // A run that finishes leaves the desired content served, and then there is
  // nothing left to do: running again changes nothing, however far it gets.
  lemma FinishedServes(kind: Kind, s: Store, desired: Json, a: Answer, k: nat, after: Store)
    requires Attempt(kind, s, desired, a, k, after) && Finishes(kind, s, desired, a, k) && DistinctIds(s.Versions())
    ensures Serves(kind, after, desired)
    ensures PlanFor(kind, after, desired) == Keep
    ensures forall b, m, again :: Attempt(kind, after, desired, b, m, again) ==> again == after
  {
    match PlanFor(kind, s, desired)
    case Keep =>
    case Switch(i) =>
      assert s.Versions() == s.versions;
      FindOnly(s.versions, i);
    case Add =>
      FindIn(s.Versions(), a.id);
      FindAppend(s.Versions(), Version(a.id, a.content), a.id);
  }

  // ----- What a run can get stuck on

  // A version the search may reuse: of the desired content and, for a skill, with
  // an identifier.
  predicate Reusable(kind: Kind, v: Version, desired: Json) {
    Same(kind, v.content, desired) && (kind.Skill? ==> v.id.Some?)
  }

  // The first version that may be reused, if any, has no identifier.
  ghost predicate FirstIsNameless(kind: Kind, vs: seq<Version>, desired: Json) {
    exists i :: 0 <= i < |vs| && Reusable(kind, vs[i], desired) && vs[i].id.None?
      && forall j :: 0 <= j < i ==> !Reusable(kind, vs[j], desired)
  }

  // The active version is not listed; or, where the content is not served, the
  // version to reuse has no identifier, or the one to be created gets none.
  ghost predicate Stuck(kind: Kind, s: Store, desired: Json, a: Answer) {
    match s
    case Absent => a.id.None?
    case Present(vs, active) =>
      || active.None? || (forall v :: v in vs ==> v.id != active)
      || (!Serves(kind, s, desired)
          && (|| FirstIsNameless(kind, vs, desired)
              || (a.id.None? && forall v :: v in vs ==> !Reusable(kind, v, desired))))
  }

  lemma ReusableFound(kind: Kind, vs: seq<Version>, desired: Json)
    ensures var found := Search(kind, vs, desired, 0);
      && (found.None? <==> forall v :: v in vs ==> !Reusable(kind, v, desired))
      && (found.Some? && vs[found.value].id.None? <==> FirstIsNameless(kind, vs, desired))
  {
    var found := Search(kind, vs, desired, 0);
    assert forall j :: 0 <= j < |vs| ==> vs[j] in vs && (Stops(kind, vs[j], desired) <==> Reusable(kind, vs[j], desired));
  }

  // Only such a run is refused: the plan says so exactly then.
  lemma {:induction false} StuckExactly(kind: Kind, s: Store, desired: Json, a: Answer)
    ensures Stuck(kind, s, desired, a) <==>
      PlanFor(kind, s, desired) == Refuse || (PlanFor(kind, s, desired) == Add && a.id.None?)
  {
    if s.Present? {
      FindIn(s.versions, s.active);
      ReusableFound(kind, s.versions, desired);
    }
  }

  // A run cut off between creating a version and activating it leaves nothing
  // that the next one gets stuck on, whatever it would be answered, and no later
  // run for that content adds a version.
  lemma {:induction false} InterruptedCreationRecovers(kind: Kind, s: Store, desired: Json, a: Answer)
    requires Honest(kind, s, desired, a) && a.id.Some? && !Stuck(kind, s, desired, a)
    requires s.Present? ==> forall v :: v in s.versions ==> !Reusable(kind, v, desired)
    ensures forall b :: !Stuck(kind, Created(s, a), desired, b)
    ensures forall b, k, later :: Attempt(kind, Created(s, a), desired, b, k, later) ==>
      later.Versions() == Created(s, a).Versions()
  {
    var after := Created(s, a);
    var n := |s.Versions()|;
    assert after.versions[n] == Version(a.id, a.content) && Reusable(kind, after.versions[n], desired);
    assert forall j :: 0 <= j < n ==> after.versions[j] == s.Versions()[j] && s.Versions()[j] in s.Versions();
    assert forall v :: v in s.Versions() ==> v in after.versions;
    assert after.versions[n] in after.versions;
    forall b ensures !Stuck(kind, after, desired, b) {
    }
    forall b, k, later | Attempt(kind, after, desired, b, k, later)
      ensures later.Versions() == after.Versions()
    {
      AddsOnlyNew(kind, after, desired, b, k, later);
    }
  }

  // ----- Histories: any number of runs, with any desired contents, cut anywhere

  datatype Event = Event(desired: Json, answer: Answer, stage: nat, after: Store)

  ghost predicate History(kind: Kind, start: Store, events: seq<Event>) {
    events == [] ||
      var prefix, e := events[..|events|-1], events[|events|-1];
      History(kind, start, prefix) && Attempt(kind, Last(start, prefix), e.desired, e.answer, e.stage, e.after)
  }

  function Last(start: Store, events: seq<Event>): Store {
    if events == [] then start else events[|events|-1].after
  }

  ghost predicate NoDuplicates(kind: Kind, s: Store) {
    forall j, k :: 0 <= j < k < |s.Versions()| ==> !Same(kind, s.Versions()[j].content, s.Versions()[k].content)
  }

  ghost predicate Usable(s: Store) {
    forall v :: v in s.Versions() ==> v.id.Some?
  }

  lemma AttemptKeeps(kind: Kind, s: Store, desired: Json, a: Answer, k: nat, after: Store)
    requires Attempt(kind, s, desired, a, k, after) && DistinctIds(s.Versions()) && NoDuplicates(kind, s)
    requires kind == Skill ==> Usable(s) && a.id.Some?
    ensures DistinctIds(after.Versions()) && NoDuplicates(kind, after) && (kind == Skill ==> Usable(after))
    ensures s.Versions() <= after.Versions()
    ensures forall v :: v in after.Versions() ==> v in s.Versions() || Same(kind, v.content, desired)
  {
    AddsOnlyNew(kind, s, desired, a, k, after);
    forall i, j | 0 <= i < j < |after.Versions()|
      ensures !Same(kind, after.Versions()[i].content, after.Versions()[j].content)
      ensures after.Versions()[i].id.Some? ==> after.Versions()[i].id != after.Versions()[j].id
    {
      if j == |s.Versions()| {
        assert after.Versions()[i] == s.Versions()[i];
        assert s.Versions()[i] in s.Versions();
      }
    }
  }

  // Over every history that starts without duplicates, no two versions ever
  // hold the same content, no version is changed or removed, and every new
  // version holds a content some run desired.  For skills the service must have
  // given every version an identifier.
  lemma {:induction false} HistoryKeeps(kind: Kind, start: Store, events: seq<Event>)
    requires History(kind, start, events) && DistinctIds(start.Versions()) && NoDuplicates(kind, start)
    requires kind == Skill ==> Usable(start) && forall e :: e in events ==> e.answer.id.Some?
    ensures var s := Last(start, events);
      && DistinctIds(s.Versions()) && NoDuplicates(kind, s) && (kind == Skill ==> Usable(s))
      && start.Versions() <= s.Versions()
      && forall v :: v in s.Versions() ==>
           v in start.Versions() || exists e :: e in events && Same(kind, v.content, e.desired)
    decreases |events|
  {
    if events != [] {
      var prefix, e := events[..|events|-1], events[|events|-1];
      assert forall x :: x in prefix ==> x in events;
      HistoryKeeps(kind, start, prefix);
      AttemptKeeps(kind, Last(start, prefix), e.desired, e.answer, e.stage, e.after);
      assert e in events;
    }
  }

  // However often runs were cut off before, one that finishes ends with its
  // content served and a repetition of it does nothing.
  lemma Converges(kind: Kind, start: Store, events: seq<Event>)
    requires History(kind, start, events) && DistinctIds(start.Versions()) && NoDuplicates(kind, start) && events != []
    requires kind == Skill ==> Usable(start) && forall e :: e in events ==> e.answer.id.Some?
    requires var e := events[|events|-1];
      Finishes(kind, Last(start, events[..|events|-1]), e.desired, e.answer, e.stage)
    ensures var e := events[|events|-1];
      && Serves(kind, e.after, e.desired) && PlanFor(kind, e.after, e.desired) == Keep
      && forall b, m, again :: Attempt(kind, e.after, e.desired, b, m, again) ==> again == e.after
  {
    var prefix, e := events[..|events|-1], events[|events|-1];
    assert forall x :: x in prefix ==> x in events;
    HistoryKeeps(kind, start, prefix);
    FinishedServes(kind, Last(start, prefix), e.desired, e.answer, e.stage, e.after);
  }
}
