// The two reconcilers as sequences of service calls.  A process survives a
// given number of calls, so each run may be cut off after any of them.
module Reconciler {
  import opened Wrappers
  import opened ImmutableVersions

  datatype Outcome = Finished(created: bool) | CutOff | Refused

  // A run's outcome and final state are those of an attempt that got to some
  // stage, and it is only called finished at the last one.
  ghost predicate Did(kind: Kind, before: Store, desired: Json, a: Answer, after: Store, outcome: Outcome) {
    exists k: nat :: Attempt(kind, before, desired, a, k, after)
      && (outcome.Finished? ==> Finishes(kind, before, desired, a, k))
      && (outcome.Refused? ==> k + 1 == |Stages(kind, before, desired, a)|)
      && (outcome.Finished? && outcome.created ==> PlanFor(kind, before, desired).Add?)
  }

  // A finished run leaves the content served and says truly whether it added a
  // version; a refused one was stuck.
  ghost predicate Ends(kind: Kind, before: Store, desired: Json, a: Answer, after: Store, outcome: Outcome) {
    && (outcome.Refused? ==> Stuck(kind, before, desired, a))
    && (outcome.Finished? ==> !Stuck(kind, before, desired, a))
    && (outcome.Finished? && DistinctIds(before.Versions()) ==> Serves(kind, after, desired))
    && (outcome.Finished? ==> |after.Versions()| == |before.Versions()| + if outcome.created then 1 else 0)
  }

  lemma DidEnds(kind: Kind, before: Store, desired: Json, a: Answer, after: Store, outcome: Outcome)
    requires Did(kind, before, desired, a, after, outcome)
    requires outcome.Refused? ==> Stuck(kind, before, desired, a)
    requires outcome.Finished? ==> |after.Versions()| == |before.Versions()| + if outcome.created then 1 else 0
    ensures Ends(kind, before, desired, a, after, outcome)
  {
    StuckExactly(kind, before, desired, a);
    var k: nat :| Attempt(kind, before, desired, a, k, after)
      && (outcome.Finished? ==> Finishes(kind, before, desired, a, k));
    if outcome.Finished? && DistinctIds(before.Versions()) {
      FinishedServes(kind, before, desired, a, k, after);
    }
  }

  // The calls a finished toolbox run makes: to look, to read the active version,
  // to list the others, to create and to activate.
  ghost function ToolboxCalls(before: Store, desired: Json, created: bool): nat {
    if before.Absent? then 3 else if Serves(Toolbox, before, desired) then 2 else if created then 5 else 4
  }

  // How many versions have an identifier.
  function Named(vs: seq<Version>): nat {
    if vs == [] then 0 else Named(vs[..|vs|-1]) + if vs[|vs|-1].id.Some? then 1 else 0
  }

  // A skill run reads every version with an identifier up to the one it reuses.
  ghost function SkillCalls(before: Store, desired: Json): nat {
    if before.Absent? || Serves(Skill, before, desired) then 3
    else
      match Search(Skill, before.versions, desired, 0)
      case None => 5 + Named(before.versions)
      case Some(i) => 4 + Named(before.versions[..i+1])
  }

  class Project {
    var store: Store
    var left: nat

    constructor (store: Store, left: nat)
      ensures this.store == store && this.left == left
    {
      this.store, this.left := store, left;
    }

    // One more service call, if the process lives that long.
    method Call() returns (alive: bool)
      modifies this`left
      ensures alive <==> old(left) > 0
      ensures left == if old(left) > 0 then old(left) - 1 else 0
    {
      alive := left > 0;
      if alive {
        left := left - 1;
      }
    }

    method Create(a: Answer) returns (alive: bool)
      modifies this
      ensures alive <==> old(left) > 0
      ensures store == if alive then Created(old(store), a) else old(store)
      ensures alive ==> left == old(left) - 1
    {
      alive := Call();
      if alive {
        store := Created(store, a);
      }
    }

    method Activate(id: Id) returns (alive: bool)
      requires store.Present?
      modifies this
      ensures alive <==> old(left) > 0
      ensures store == if alive then Present(old(store).versions, Some(id)) else old(store)
      ensures alive ==> left == old(left) - 1
    {
      alive := Call();
      if alive {
        store := Present(store.versions, Some(id));
      }
    }

    // Creation alone is not relied on to activate: the new version is activated by
    // a second call, and an answer without an identifier is refused.
    method CreateAndActivate(kind: Kind, desired: Json, a: Answer) returns (outcome: Outcome)
      requires Honest(kind, store, desired, a) && PlanFor(kind, store, desired).Add?
      modifies this
      ensures Did(kind, old(store), desired, a, store, outcome)
      ensures outcome.Finished? ==> outcome.created && |store.Versions()| == |old(store).Versions()| + 1
      ensures outcome.Refused? ==> a.id.None?
      ensures outcome.Finished? ==> left == old(left) - 2
      ensures old(left) >= 2 ==> !outcome.CutOff?
    {
      ghost var s, stages := store, Stages(kind, store, desired, a);
      var alive := Create(a);
      if !alive {
        assert Attempt(kind, s, desired, a, 0, store);
        return CutOff;
      }
      assert Attempt(kind, s, desired, a, 1, store);
      if a.id.None? {
        return Refused;
      }
      alive := Activate(a.id.value);
      if !alive {
        return CutOff;
      }
      assert Attempt(kind, s, desired, a, 2, store);
      return Finished(true);
    }

    method SwitchTo(kind: Kind, desired: Json, a: Answer, i: nat) returns (outcome: Outcome)
      requires Honest(kind, store, desired, a) && PlanFor(kind, store, desired) == Switch(i)
      modifies this
      ensures Did(kind, old(store), desired, a, store, outcome)
      ensures outcome.Finished? ==> !outcome.created && store.Versions() == old(store).Versions()
      ensures outcome.CutOff? || outcome.Finished?
      ensures outcome.Finished? ==> left == old(left) - 1
      ensures old(left) >= 1 ==> outcome.Finished?
    {
      ghost var s := store;
      var alive := Activate(store.versions[i].id.value);
      if !alive {
        assert Attempt(kind, s, desired, a, 0, store);
        return CutOff;
      }
      assert Attempt(kind, s, desired, a, 1, store);
      return Finished(false);
    }

    method EnsureToolbox(desired: Json, a: Answer) returns (outcome: Outcome)
      requires Honest(Toolbox, store, desired, a)
      modifies this
      ensures Did(Toolbox, old(store), desired, a, store, outcome)
      ensures Ends(Toolbox, old(store), desired, a, store, outcome)
      ensures old(left) >= 5 ==> !outcome.CutOff?
      ensures outcome.Finished? ==> old(left) - left == ToolboxCalls(old(store), desired, outcome.created)
    {
      outcome := RunToolbox(desired, a);
      DidEnds(Toolbox, old(store), desired, a, store, outcome);
    }

    // The run itself, call by call.
    method RunToolbox(desired: Json, a: Answer) returns (outcome: Outcome)
      requires Honest(Toolbox, store, desired, a)
      modifies this
      ensures Did(Toolbox, old(store), desired, a, store, outcome)
      ensures outcome.Refused? ==> Stuck(Toolbox, old(store), desired, a)
      ensures outcome.Finished? ==> |store.Versions()| == |old(store).Versions()| + if outcome.created then 1 else 0
      ensures old(left) >= 5 ==> !outcome.CutOff?
      ensures outcome.Finished? ==> old(left) - left == ToolboxCalls(old(store), desired, outcome.created)
    {
      StuckExactly(Toolbox, store, desired, a);
      assert Attempt(Toolbox, store, desired, a, 0, store);
      var alive := Call();
      if !alive {
        return CutOff;
      }
      if store.Absent? {
        outcome := CreateAndActivate(Toolbox, desired, a);
        return;
      }
      alive := Call();
      if !alive {
        return CutOff;
      }
      var current := Find(store.versions, store.active);
      if current.None? {
        return Refused;
      }
      if Same(Toolbox, current.value.content, desired) {
        return Finished(false);
      }
      alive := Call();
      if !alive {
        return CutOff;
      }
      var reuse := FindToolbox(desired);
      if reuse.None? {
        outcome := CreateAndActivate(Toolbox, desired, a);
        return;
      }
      if store.versions[reuse.value].id.None? {
        return Refused;
      }
      outcome := SwitchTo(Toolbox, desired, a, reuse.value);
    }

    // The first version of the list that holds the content.
    method FindToolbox(desired: Json) returns (reuse: Option<nat>)
      requires store.Present?
      ensures reuse == Search(Toolbox, store.versions, desired, 0)
    {
      for i := 0 to |store.versions|
        invariant forall j :: 0 <= j < i ==> !Stops(Toolbox, store.versions[j], desired)
      {
        if Same(Toolbox, store.versions[i].content, desired) {
          assert Search(Toolbox, store.versions, desired, 0) == Some(i);
          return Some(i);
        }
      }
      return None;
    }

    method EnsureSkill(desired: Json, a: Answer) returns (outcome: Outcome)
      requires Honest(Skill, store, desired, a)
      modifies this
      ensures Did(Skill, old(store), desired, a, store, outcome)
      ensures Ends(Skill, old(store), desired, a, store, outcome)
      ensures old(left) >= |old(store).Versions()| + 5 ==> !outcome.CutOff?
      ensures outcome.Finished? ==> old(left) - left == SkillCalls(old(store), desired)
    {
      outcome := RunSkill(desired, a);
      DidEnds(Skill, old(store), desired, a, store, outcome);
    }

    method RunSkill(desired: Json, a: Answer) returns (outcome: Outcome)
      requires Honest(Skill, store, desired, a)
      modifies this
      ensures Did(Skill, old(store), desired, a, store, outcome)
      ensures outcome.Refused? ==> Stuck(Skill, old(store), desired, a)
      ensures outcome.Finished? ==> |store.Versions()| == |old(store).Versions()| + if outcome.created then 1 else 0
      ensures old(left) >= |old(store).Versions()| + 5 ==> !outcome.CutOff?
      ensures outcome.Finished? ==> old(left) - left == SkillCalls(old(store), desired)
    {
      StuckExactly(Skill, store, desired, a);
      assert Attempt(Skill, store, desired, a, 0, store);
      var alive := Call();
      if !alive {
        return CutOff;
      }
      if store.Absent? {
        outcome := CreateAndActivate(Skill, desired, a);
        return;
      }
      if store.active.None? {
        return Refused;
      }
      alive := Call();
      if !alive {
        return CutOff;
      }
      var current := Find(store.versions, store.active);
      if current.None? {
        return Refused;
      }
      if current.value.content == desired {
        alive := Call();
        return if alive then Finished(false) else CutOff;
      }
      alive := Call();
      if !alive {
        return CutOff;
      }
      var reuse;
      alive, reuse := FindSkill(desired);
      if !alive {
        return CutOff;
      }
      if reuse.None? {
        outcome := CreateAndActivate(Skill, desired, a);
        return;
      }
      outcome := SwitchTo(Skill, desired, a, reuse.value);
    }

    // Reads the versions with an identifier one after the other, up to the first
    // that holds the content.
    method FindSkill(desired: Json) returns (alive: bool, reuse: Option<nat>)
      requires store.Present?
      modifies this`left
      ensures alive ==> reuse == Search(Skill, store.versions, desired, 0)
      ensures alive ==> left == old(left) - Named(if reuse.Some? then store.versions[..reuse.value+1] else store.versions)
      ensures old(left) >= |store.versions| ==> alive && left >= old(left) - |store.versions|
    {
      for i := 0 to |store.versions|
        invariant forall j :: 0 <= j < i ==> !Stops(Skill, store.versions[j], desired)
        invariant left == old(left) - Named(store.versions[..i]) && Named(store.versions[..i]) <= i
      {
        var candidate := store.versions[i];
        assert store.versions[..i+1][..i] == store.versions[..i];
        if candidate.id.None? {
          continue;
        }
        alive := Call();
        if !alive {
          return false, None;
        }
        if candidate.content != desired {
          continue;
        }
        assert Search(Skill, store.versions, desired, 0) == Some(i);
        return true, Some(i);
      }
      assert store.versions[..|store.versions|] == store.versions;
      return true, None;
    }
  }
}
