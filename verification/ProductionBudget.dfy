// The production gate over one quota pool: what has to hold of the live
// deployments before capacities may be moved to their targets, and what that
// buys while they are being moved, one by one and in any order.
module ProductionBudget {
  import opened Wrappers
  import opened PoolAccounting

  type Key = (Region, string)

  // What the live inventory says of one deployment; `owned` says that the
  // account carrying it is the one the policy's scope names.
  datatype Entry = Entry(region: Region, name: string, model: Model, settled: bool, owned: bool, capacity: int)

  // A deployment's production settings; `floor` covers its baseline and its
  // critical minimum.
  datatype Member = Member(key: Key, floor: nat, ceiling: nat, capacity: Option<nat>)

  datatype Reserve = Reserve(replacement: nat, retry: nat, otherWorkloads: nat)
  {
    function Total(): nat { replacement + retry + otherWorkloads }
  }

  datatype Inventory = Inventory(entries: seq<(Key, Entry)>)
  {
    ghost predicate Valid() {
      forall i, j :: 0 <= i < j < |entries| ==> entries[i].0 != entries[j].0
    }

    function Get(key: Key): Option<Entry> {
      Search(entries, key)
    }
  }

  function Search(entries: seq<(Key, Entry)>, key: Key): Option<Entry> {
    if entries == [] then None
    else if entries[0].0 == key then Some(entries[0].1)
    else Search(entries[1..], key)
  }

  // Finds the entry under the key, when no two share one.
  lemma {:induction false} SearchFinds(entries: seq<(Key, Entry)>, key: Key)
    ensures Search(entries, key).None? <==> forall i :: 0 <= i < |entries| ==> entries[i].0 != key
    ensures Search(entries, key).Some? ==> (key, Search(entries, key).value) in entries
  {
    if entries != [] {
      SearchFinds(entries[1..], key);
      assert entries[0] in entries && forall i :: 0 < i < |entries| ==> entries[i] == entries[1..][i-1];
      assert entries[0].0 == key ==> entries[0] == (key, entries[0].1);
    }
  }

  lemma GetMeans(inventory: Inventory, key: Key, e: Entry)
    requires inventory.Valid()
    ensures inventory.Get(key) == Some(e) <==> (key, e) in inventory.entries
  {
    SearchFinds(inventory.entries, key);
  }

  function Integer(n: int, minimum: int, maximum: int): Result<nat, Code>
    requires 0 <= minimum
  {
    if minimum <= n <= maximum then Ok(n) else Err("invalid_production_integer")
  }

  // ----- Everything the pool is known to hold

  predicate Mine(p: Pool, e: Entry) {
    e.region in p.regions && Counts(p, e.model)
  }

  predicate Sound(p: Pool, e: Entry) {
    e.owned && e.settled && e.model.version in p.versions && 1 <= e.capacity <= MAX_NUMBER
  }

  // A row counts for the pool by region, format, model name and offer, whatever
  // its version, and is sound when reviewed, settled, owned and of some capacity.
  lemma PoolRow(p: Pool, e: Entry)
    ensures Mine(p, e) <==>
      e.region in p.regions && (e.model.format, e.model.name, e.model.sku) == (p.format, p.name, p.sku)
    ensures Sound(p, e) <==>
      e.owned && e.settled && e.model.version in p.versions && 0 < e.capacity < 0x20_0000_0000_0000
  {
  }

  function Known(p: Pool, entries: seq<(Key, Entry)>): int {
    if entries == [] then 0
    else
      var e := entries[|entries|-1].1;
      Known(p, entries[..|entries|-1]) + (if Mine(p, e) then e.capacity else 0)
  }

  ghost predicate AllSound(p: Pool, entries: seq<(Key, Entry)>) {
    forall i :: 0 <= i < |entries| && Mine(p, entries[i].1) ==> Sound(p, entries[i].1)
  }

  lemma {:induction false} KnownGrows(p: Pool, entries: seq<(Key, Entry)>, i: nat)
    requires i <= |entries| && AllSound(p, entries)
    ensures 0 <= Known(p, entries[..i]) <= Known(p, entries)
  {
    if entries == [] {
    } else if i == |entries| {
      assert entries[..i] == entries;
      KnownGrows(p, entries[..|entries|-1], |entries| - 1);
      assert entries[..|entries|-1][..|entries|-1] == entries[..|entries|-1];
    } else {
      KnownGrows(p, entries[..|entries|-1], i);
      assert entries[..|entries|-1][..i] == entries[..i];
    }
  }

  function CapacityOf(p: Pool, e: Entry): (r: Result<nat, Code>)
    ensures r.Ok? <==> Sound(p, e)
    ensures r.Ok? ==> r.value == e.capacity
  {
    if !e.owned then Err("production_account_mismatch")
    else if e.model.version !in p.versions || !e.settled then Err("unsettled_or_unreviewed_pool_deployment")
    else Integer(e.capacity, 1, MAX_NUMBER)
  }

  // Succeeds with the pool's known allocation, unless some row of the pool is
  // not owned, settled and reviewed or the sum leaves the number range.
  method KnownCapacity(p: Pool, inventory: Inventory) returns (r: Result<nat, Code>)
    ensures r.Ok? <==> AllSound(p, inventory.entries) && Known(p, inventory.entries) <= MAX_NUMBER
    ensures r.Ok? ==> r.value == Known(p, inventory.entries)
  {
    var entries := inventory.entries;
    var known: nat := 0;
    for i := 0 to |entries|
      invariant AllSound(p, entries[..i]) && known == Known(p, entries[..i]) <= MAX_NUMBER
    {
      var e := entries[i].1;
      assert entries[..i+1][..i] == entries[..i];
      assert entries[..i+1][i] == entries[i];
      if !Mine(p, e) {
        continue;
      }
      var capacity :- CapacityOf(p, e);
      if AllSound(p, entries) {
        KnownGrows(p, entries, i + 1);
      }
      known :- Number(known + capacity);
    }
    assert entries[..|entries|] == entries;
    return Ok(known);
  }

  // ----- Live capacities and targets

  function KeyOf(d: Deployment): Key { (d.region, d.name) }

  // The live capacity of a catalog deployment, found exactly as catalogued.
  function LiveOf(inventory: Inventory, d: Deployment, fold: string -> string): Result<nat, Code> {
    match inventory.Get((d.region, fold(d.name)))
    case None => Err("production_inventory_incomplete")
    case Some(e) =>
      if e.name != d.name || e.model != d.model || !e.settled then Err("production_inventory_incomplete")
      else if !e.owned then Err("production_account_mismatch")
      else Integer(e.capacity, 1, MAX_NUMBER)
  }

  function Configured(members: seq<Member>, key: Key): Option<Member> {
    if members == [] then None
    else if members[|members|-1].key == key then Some(members[|members|-1])
    else Configured(members[..|members|-1], key)
  }

  // An enabled deployment goes to its configured capacity; a disabled one stays.
  function TargetOf(members: seq<Member>, enabled: set<Key>, key: Key, live: nat): Result<nat, Code> {
    if key !in enabled then Ok(live)
    else
      match Configured(members, key)
      case Some(m) => if m.capacity.Some? then Ok(m.capacity.value) else Err("production_capacity_missing")
      case None => Err("production_capacity_missing")
  }

  // The live capacity is that of the inventory's entry under the deployment's
  // region and folded name, if it is in every way as catalogued, settled and owned.
  lemma LiveMeans(inventory: Inventory, d: Deployment, fold: string -> string, n: nat)
    requires inventory.Valid()
    ensures LiveOf(inventory, d, fold) == Ok(n) <==>
      exists e :: ((d.region, fold(d.name)), e) in inventory.entries
        && e.name == d.name && e.model == d.model && e.settled && e.owned && e.capacity == n
        && 0 < n < 0x20_0000_0000_0000
  {
    var key := (d.region, fold(d.name));
    SearchFinds(inventory.entries, key);
    forall e ensures inventory.Get(key) == Some(e) <==> (key, e) in inventory.entries {
      GetMeans(inventory, key, e);
    }
  }

  // What is configured last for the deployment counts.
  ghost predicate ConfiguredAs(members: seq<Member>, key: Key, m: Member) {
    exists i :: 0 <= i < |members| && members[i] == m && m.key == key
      && forall j :: i < j < |members| ==> members[j].key != key
  }

  lemma {:induction false} ConfiguredMeans(members: seq<Member>, key: Key, m: Member)
    ensures Configured(members, key) == Some(m) <==> ConfiguredAs(members, key, m)
  {
    if members != [] {
      var n := |members| - 1;
      ConfiguredMeans(members[..n], key, m);
      if members[n].key == key {
        assert members[n] == m ==> ConfiguredAs(members, key, m);
      } else {
        assert ConfiguredAs(members[..n], key, m) <==> ConfiguredAs(members, key, m) by {
          assert forall i :: 0 <= i < n ==> members[..n][i] == members[i];
          if i :| 0 <= i < n && members[..n][i] == m && m.key == key && forall j :: i < j < n ==> members[..n][j].key != key {
            assert members[i] == m && forall j :: i < j < |members| ==> members[j].key != key;
          }
        }
      }
    }
  }

  // A disabled deployment keeps what it has; an enabled one goes to the capacity
  // configured for it, and to none without it.
  lemma TargetMeans(members: seq<Member>, enabled: set<Key>, key: Key, live: nat, target: nat)
    ensures TargetOf(members, enabled, key, live) == Ok(target) <==>
      if key in enabled then exists m :: ConfiguredAs(members, key, m) && m.capacity == Some(target) else target == live
  {
    forall m ensures Configured(members, key) == Some(m) <==> ConfiguredAs(members, key, m) {
      ConfiguredMeans(members, key, m);
    }
  }

  function Keys(ds: seq<Deployment>): seq<Key> {
    seq(|ds|, i requires 0 <= i < |ds| => KeyOf(ds[i]))
  }

  ghost predicate Distinct(ks: seq<Key>) {
    forall i, j :: 0 <= i < j < |ks| ==> ks[i] != ks[j]
  }

  // The live capacity and the target of each catalog deployment.
  datatype Plan = Plan(live: map<Key, nat>, targets: map<Key, nat>)

  ghost predicate Planned(plan: Plan, ds: seq<Deployment>, inventory: Inventory, members: seq<Member>,
                          enabled: set<Key>, fold: string -> string) {
    forall d :: d in ds ==>
      && KeyOf(d) in plan.live && KeyOf(d) in plan.targets
      && LiveOf(inventory, d, fold) == Ok(plan.live[KeyOf(d)])
      && TargetOf(members, enabled, KeyOf(d), plan.live[KeyOf(d)]) == Ok(plan.targets[KeyOf(d)])
  }

  ghost predicate Plannable(d: Deployment, inventory: Inventory, members: seq<Member>, enabled: set<Key>,
                            fold: string -> string) {
    var live := LiveOf(inventory, d, fold);
    live.Ok? && TargetOf(members, enabled, KeyOf(d), live.value).Ok?
  }

  function Sum(ks: seq<Key>, m: map<Key, nat>): nat {
    if ks == [] then 0
    else Sum(ks[..|ks|-1], m) + (if ks[|ks|-1] in m then m[ks[|ks|-1]] else 0)
  }

  lemma {:induction false} SumSame(ks: seq<Key>, m: map<Key, nat>, n: map<Key, nat>)
    requires forall k :: k in ks ==> k in m && k in n && m[k] == n[k]
    ensures Sum(ks, m) == Sum(ks, n)
  {
    if ks != [] {
      SumSame(ks[..|ks|-1], m, n);
    }
  }

  lemma {:induction false} SumGrows(ks: seq<Key>, m: map<Key, nat>, i: nat)
    requires i <= |ks|
    ensures Sum(ks[..i], m) <= Sum(ks, m)
  {
    if i == |ks| {
      assert ks[..i] == ks;
    } else {
      SumGrows(ks[..|ks|-1], m, i);
      assert ks[..|ks|-1][..i] == ks[..i];
    }
  }

  lemma PlannedMore(plan: Plan, ds: seq<Deployment>, d: Deployment, live: nat, target: nat,
                    inventory: Inventory, members: seq<Member>, enabled: set<Key>, fold: string -> string)
    requires Planned(plan, ds, inventory, members, enabled, fold)
    requires forall e :: e in ds ==> KeyOf(e) != KeyOf(d)
    requires LiveOf(inventory, d, fold) == Ok(live) && TargetOf(members, enabled, KeyOf(d), live) == Ok(target)
    ensures Planned(Plan(plan.live[KeyOf(d) := live], plan.targets[KeyOf(d) := target]), ds + [d], inventory, members, enabled, fold)
  {
    var next := Plan(plan.live[KeyOf(d) := live], plan.targets[KeyOf(d) := target]);
    forall e | e in ds + [d]
      ensures Planned(next, [e], inventory, members, enabled, fold)
    {
      if e in ds {
        assert next.live[KeyOf(e)] == plan.live[KeyOf(e)] && next.targets[KeyOf(e)] == plan.targets[KeyOf(e)];
      }
    }
  }

  lemma SumMore(live: map<Key, nat>, ds: seq<Deployment>, d: Deployment, n: nat)
    requires forall e :: e in ds ==> KeyOf(e) in live && KeyOf(e) != KeyOf(d)
    ensures Sum(Keys(ds + [d]), live[KeyOf(d) := n]) == Sum(Keys(ds), live) + n
  {
    assert Keys(ds + [d]) == Keys(ds) + [KeyOf(d)];
    assert (Keys(ds) + [KeyOf(d)])[..|ds|] == Keys(ds);
    forall k | k in Keys(ds)
      ensures k in live && k != KeyOf(d)
    {
      var i :| 0 <= i < |ds| && Keys(ds)[i] == k;
      assert ds[i] in ds;
    }
    SumSame(Keys(ds), live, live[KeyOf(d) := n]);
  }

  // Reads every catalog deployment's live capacity and target; fails when one
  // is not there as catalogued, has no configured capacity, or the live sum
  // leaves the number range.
  method ReadPlan(expected: seq<Deployment>, inventory: Inventory, members: seq<Member>, enabled: set<Key>,
                  fold: string -> string)
    returns (r: Result<(Plan, nat), Code>)
    requires Distinct(Keys(expected))
    ensures r.Ok? ==> Planned(r.value.0, expected, inventory, members, enabled, fold)
    ensures r.Ok? ==> r.value.1 == Sum(Keys(expected), r.value.0.live) <= MAX_NUMBER
    ensures r.Err? ==>
      || (exists d :: d in expected && !Plannable(d, inventory, members, enabled, fold))
      || (forall plan :: Planned(plan, expected, inventory, members, enabled, fold) ==> Sum(Keys(expected), plan.live) > MAX_NUMBER)
  {
    var plan, allocation: nat := Plan(map[], map[]), 0;
    for i := 0 to |expected|
      invariant Planned(plan, expected[..i], inventory, members, enabled, fold)
      invariant allocation == Sum(Keys(expected[..i]), plan.live) <= MAX_NUMBER
    {
      var d := expected[i];
      assert expected[..i+1] == expected[..i] + [d] && d in expected;
      NewKey(expected, i);
      var live :- LiveOf(inventory, d, fold);
      var target :- TargetOf(members, enabled, KeyOf(d), live);
      PlannedMore(plan, expected[..i], d, live, target, inventory, members, enabled, fold);
      SumMore(plan.live, expected[..i], d, live);
      plan := Plan(plan.live[KeyOf(d) := live], plan.targets[KeyOf(d) := target]);
      TooMuch(expected, i + 1, plan, inventory, members, enabled, fold);
      allocation :- Number(allocation + live);
    }
    assert expected[..|expected|] == expected;
    return Ok((plan, allocation));
  }

  lemma NewKey(ds: seq<Deployment>, i: nat)
    requires i < |ds| && Distinct(Keys(ds))
    ensures forall e :: e in ds[..i] ==> KeyOf(e) != KeyOf(ds[i])
  {
    forall e | e in ds[..i]
      ensures KeyOf(e) != KeyOf(ds[i])
    {
      var j :| 0 <= j < i && ds[j] == e;
      assert Keys(ds)[j] == KeyOf(e) && Keys(ds)[i] == KeyOf(ds[i]);
    }
  }

  // A prefix of the deployments holds no more than all of them, in any plan.
  lemma TooMuch(ds: seq<Deployment>, i: nat, plan: Plan, inventory: Inventory, members: seq<Member>,
                enabled: set<Key>, fold: string -> string)
    requires i <= |ds| && Planned(plan, ds[..i], inventory, members, enabled, fold)
    ensures forall whole :: Planned(whole, ds, inventory, members, enabled, fold) ==> Sum(Keys(ds[..i]), plan.live) <= Sum(Keys(ds), whole.live)
  {
    forall whole | Planned(whole, ds, inventory, members, enabled, fold)
      ensures Sum(Keys(ds[..i]), plan.live) <= Sum(Keys(ds), whole.live)
    {
      assert Keys(ds[..i]) == Keys(ds)[..i];
      forall k | k in Keys(ds[..i])
        ensures k in plan.live && k in whole.live && plan.live[k] == whole.live[k]
      {
        var j :| 0 <= j < i && Keys(ds[..i])[j] == k;
        assert ds[j] in ds && ds[..i][j] in ds[..i];
      }
      SumSame(Keys(ds[..i]), plan.live, whole.live);
      SumGrows(Keys(ds), whole.live, i);
    }
  }

  // ----- Room for the increases, and for the end state

  function Increase(ks: seq<Key>, plan: Plan): nat {
    if ks == [] then 0
    else
      var k := ks[|ks|-1];
      Increase(ks[..|ks|-1], plan)
      + (if k in plan.live && k in plan.targets && plan.targets[k] > plan.live[k] then plan.targets[k] - plan.live[k] else 0)
  }

  method CheckIncreaseHeadroom(reserve: Reserve, ks: seq<Key>, plan: Plan, current: nat, limit: nat)
    returns (r: Result<nat, Code>)
    requires forall k :: k in ks ==> k in plan.live && k in plan.targets
    requires limit <= MAX_NUMBER
    ensures r.Ok? <==> Increase(ks, plan) == 0 || current + Increase(ks, plan) + reserve.Total() <= limit
  {
    var sum: nat := 0;
    for i := 0 to |ks|
      invariant sum == Increase(ks[..i], plan)
    {
      assert ks[..i+1][..i] == ks[..i];
      if plan.targets[ks[i]] > plan.live[ks[i]] {
        sum := sum + (plan.targets[ks[i]] - plan.live[ks[i]]);
      }
    }
    assert ks[..|ks|] == ks;
    var increase :- Number(sum);
    if increase != 0 {
      var needed :- Number(current + increase + reserve.Total());
      if needed > limit {
        return Err("replacement_order_headroom_insufficient");
      }
    }
    return Ok(increase);
  }

  datatype Budget = Budget(limit: nat, current: nat, outside: nat, catalogAllocation: nat, proposed: nat,
                           headroomBefore: nat, headroomAfter: nat, unreservedAfter: nat)

  ghost predicate WithinBounds(active: seq<Member>, plan: Plan, reserve: Reserve) {
    forall m :: m in active ==> m.key in plan.targets && m.floor <= plan.targets[m.key] <= m.ceiling && plan.targets[m.key] <= reserve.replacement
  }

  // Every active target is in range and can be replaced out of the reserve, and
  // the end state leaves the whole reserve free.
  ghost predicate Affordable(reserve: Reserve, active: seq<Member>, ks: seq<Key>, plan: Plan, current: nat,
                             limit: nat, catalogAllocation: nat) {
    && catalogAllocation <= current <= limit
    && WithinBounds(active, plan, reserve)
    && Sum(ks, plan.targets) + (current - catalogAllocation) + reserve.Total() <= limit
  }

  method DrawUp(reserve: Reserve, active: seq<Member>, ks: seq<Key>, plan: Plan, current: nat, limit: nat,
                catalogAllocation: nat)
    returns (r: Result<Budget, Code>)
    requires forall m :: m in active ==> m.key in plan.targets && m.ceiling <= MAX_NUMBER
    requires limit <= MAX_NUMBER && catalogAllocation <= MAX_NUMBER
    ensures r.Ok? <==> Affordable(reserve, active, ks, plan, current, limit, catalogAllocation)
    ensures r.Ok? ==> var b := r.value;
      && b.outside + b.catalogAllocation == b.current == current && b.catalogAllocation == catalogAllocation
      && b.proposed == Sum(ks, plan.targets)
      && b.headroomBefore + b.current == b.limit == limit
      && b.headroomAfter + b.proposed + b.outside == b.limit
      && b.unreservedAfter + reserve.Total() == b.headroomAfter
  {
    if catalogAllocation > current || current > limit {
      return Err("contradictory_pool_allocation");
    }
    var replacement: nat := 0;
    for i := 0 to |active|
      invariant forall j :: 0 <= j < i ==> active[j].floor <= plan.targets[active[j].key] <= active[j].ceiling
      invariant forall j :: 0 <= j < i ==> plan.targets[active[j].key] <= replacement
      invariant replacement == 0 || exists j :: 0 <= j < i && plan.targets[active[j].key] == replacement
    {
      var target :- Integer(plan.targets[active[i].key], active[i].floor, active[i].ceiling);
      if target > replacement {
        replacement := target;
      }
    }
    if reserve.replacement < replacement {
      return Err("production_replacement_reserve_too_small");
    }
    var proposed :- Number(Sum(ks, plan.targets));
    var outside: nat := current - catalogAllocation;
    var endState :- Number(proposed + outside);
    var required :- Number(endState + reserve.Total());
    if required > limit {
      return Err("production_pool_reserve_exceeded");
    }
    return Ok(Budget(limit, current, outside, catalogAllocation, proposed, limit - current, limit - endState, limit - required));
  }

  // ----- The gate

  // What the gate demands of a pool whose counter reads `current` of `limit`,
  // once live capacities and targets are known.
  ghost predicate Cleared(reserve: Reserve, active: seq<Member>, ks: seq<Key>, plan: Plan, current: nat, limit: nat) {
    && (Increase(ks, plan) == 0 || current + Increase(ks, plan) + reserve.Total() <= limit)
    && Affordable(reserve, active, ks, plan, current, limit, Sum(ks, plan.live))
  }

  ghost predicate Admitted(p: Pool, reserve: Reserve, members: seq<Member>, enabled: set<Key>,
                           expected: seq<Deployment>,
                           inventory: Inventory, fold: string -> string, plan: Plan, current: nat, limit: nat) {
    && AllSound(p, inventory.entries)
    && Known(p, inventory.entries) <= current
    && Planned(plan, expected, inventory, members, enabled, fold)
    && Cleared(reserve, Active(members, enabled), Keys(expected), plan, current, limit)
  }

  function Active(members: seq<Member>, enabled: set<Key>): (r: seq<Member>)
    ensures forall m :: m in r <==> m in members && m.key in enabled
  {
    if members == [] then []
    else
      var rest := Active(members[..|members|-1], enabled);
      if members[|members|-1].key in enabled then rest + [members[|members|-1]] else rest
  }

  // Two plans for the same deployments agree on all that the gate looks at.
  lemma OnePlan(a: Plan, b: Plan, p: Pool, reserve: Reserve, members: seq<Member>, enabled: set<Key>,
                expected: seq<Deployment>,
                inventory: Inventory, fold: string -> string, current: nat, limit: nat)
    requires forall m :: m in members ==> m.key in Keys(expected)
    requires Planned(a, expected, inventory, members, enabled, fold)
    ensures Admitted(p, reserve, members, enabled, expected, inventory, fold, b, current, limit) ==>
      Admitted(p, reserve, members, enabled, expected, inventory, fold, a, current, limit)
  {
    if Admitted(p, reserve, members, enabled, expected, inventory, fold, b, current, limit) {
      var ks := Keys(expected);
      forall k | k in ks
        ensures k in a.live && k in a.targets && k in b.live && k in b.targets && a.live[k] == b.live[k]
        ensures a.targets[k] == b.targets[k]
      {
        var i :| 0 <= i < |ks| && ks[i] == k;
        assert expected[i] in expected;
      }
      SumSame(ks, a.live, b.live);
      SumSame(ks, a.targets, b.targets);
      IncreaseSame(ks, a, b);
    }
  }

  lemma {:induction false} IncreaseSame(ks: seq<Key>, a: Plan, b: Plan)
    requires forall k :: k in ks ==> k in a.live && k in a.targets && k in b.live && k in b.targets
    requires forall k :: k in ks ==> a.live[k] == b.live[k] && a.targets[k] == b.targets[k]
    ensures Increase(ks, a) == Increase(ks, b)
  {
    if ks != [] {
      IncreaseSame(ks[..|ks|-1], a, b);
    }
  }

  // Succeeds exactly when some plan for the pool is admitted under the counter.
  method CheckDeployments(p: Pool, reserve: Reserve, members: seq<Member>, enabled: set<Key>, expected: seq<Deployment>,
                          inventory: Inventory, fold: string -> string, current: nat, limit: nat)
    returns (r: Result<Budget, Code>, plan: Plan)
    requires Distinct(Keys(expected)) && current <= limit <= MAX_NUMBER
    requires forall m :: m in members ==> m.key in Keys(expected) && m.ceiling <= MAX_NUMBER
    ensures r.Ok? ==>
      && Admitted(p, reserve, members, enabled, expected, inventory, fold, plan, current, limit)
      && r.value.current == current && r.value.limit == limit
      && r.value.proposed == Sum(Keys(expected), plan.targets)
      && r.value.outside + Sum(Keys(expected), plan.live) == current
    ensures r.Err? ==> forall any :: !Admitted(p, reserve, members, enabled, expected, inventory, fold, any, current, limit)
  {
    plan := Plan(map[], map[]);
    var known := KnownCapacity(p, inventory);
    if known.Err? || known.value > current {
      return Err("contradictory_pool_allocation"), plan;
    }
    var read := ReadPlan(expected, inventory, members, enabled, fold);
    if read.Err? {
      return Err(read.error), plan;
    }
    plan := read.value.0;
    forall any
      ensures Admitted(p, reserve, members, enabled, expected, inventory, fold, any, current, limit) ==>
        Admitted(p, reserve, members, enabled, expected, inventory, fold, plan, current, limit)
    {
      OnePlan(plan, any, p, reserve, members, enabled, expected, inventory, fold, current, limit);
    }
    r := DrawCleared(reserve, Active(members, enabled), Keys(expected), plan, current, limit, read.value.1);
  }

  method DrawCleared(reserve: Reserve, active: seq<Member>, ks: seq<Key>, plan: Plan, current: nat, limit: nat,
                     catalogAllocation: nat)
    returns (r: Result<Budget, Code>)
    requires forall k :: k in ks ==> k in plan.live && k in plan.targets
    requires forall m :: m in active ==> m.key in ks && m.ceiling <= MAX_NUMBER
    requires limit <= MAX_NUMBER && catalogAllocation == Sum(ks, plan.live) <= MAX_NUMBER
    ensures r.Ok? <==> Cleared(reserve, active, ks, plan, current, limit)
    ensures r.Ok? ==> r.value.current == current && r.value.limit == limit
    ensures r.Ok? ==> r.value.proposed == Sum(ks, plan.targets) && r.value.outside + catalogAllocation == current
  {
    var increase :- CheckIncreaseHeadroom(reserve, ks, plan, current, limit);
    r := DrawUp(reserve, active, ks, plan, current, limit, catalogAllocation);
  }

  // Passes over a pool without enabled members.  Accepts any other exactly when
  // its regions agree on one counter value and a plan is admitted under it.
  method CheckLivePool(p: Pool, reserve: Reserve, members: seq<Member>, enabled: set<Key>, catalog: seq<Deployment>,
                       inventory: Inventory, quotas: map<Region, seq<Quota>>, fold: string -> string)
    returns (r: Result<Option<Budget>, Code>, plan: Plan)
    requires Distinct(Keys(Expected(catalog, p)))
    requires forall m :: m in members ==> m.key in Keys(Expected(catalog, p)) && m.ceiling <= MAX_NUMBER
    ensures r == Ok(None) <==> forall m :: m in members ==> m.key !in enabled
    ensures r.Ok? && r.value.Some? ==> var b := r.value.value;
      && OneCounter(p, quotas, (b.current, b.limit))
      && Admitted(p, reserve, members, enabled, Expected(catalog, p), inventory, fold, plan, b.current, b.limit)
      && b.proposed == Sum(Keys(Expected(catalog, p)), plan.targets)
      && b.outside + Sum(Keys(Expected(catalog, p)), plan.live) == b.current
    ensures r.Err? ==> forall any, value: (nat, nat) :: OneCounter(p, quotas, value) && value.1 <= MAX_NUMBER ==>
      !Admitted(p, reserve, members, enabled, Expected(catalog, p), inventory, fold, any, value.0, value.1)
  {
    plan := Plan(map[], map[]);
    if forall m :: m in members ==> m.key !in enabled {
      return Ok(None), plan;
    }
    var counter, counterCodes := TheCounter(p, quotas);
    if counterCodes != {} {
      return Err("contradictory_pool_counters"), plan;
    }
    var (current, limit) := counter.value;
    if current > MAX_NUMBER || limit > MAX_NUMBER {
      return Err("invalid_numeric_value"), plan;
    }
    if current > limit {
      return Err("contradictory_pool_allocation"), plan;
    }
    var checked;
    checked, plan := CheckDeployments(p, reserve, members, enabled, Expected(catalog, p), inventory, fold, current, limit);
    r := match checked case Ok(b) => Ok(Some(b)) case Err(code) => Err(code);
  }

  // ----- What clearance buys

  // The counter while deployments are moved: those in `moved` hold their target,
  // the others still their live capacity, and outside allocation stands still.
  function Counter(outside: int, ks: seq<Key>, plan: Plan, moved: set<Key>): int {
    if ks == [] then outside
    else
      var k := ks[|ks|-1];
      var held := if k in moved then plan.targets else plan.live;
      Counter(outside, ks[..|ks|-1], plan, moved) + (if k in held then held[k] else 0)
  }

  // A rollout sets one deployment after the other to its target; `level` is what
  // the service's counter then reads.
  datatype Rollout = Rollout(level: int, moved: set<Key>)

  function Move(r: Rollout, plan: Plan, k: Key): Rollout
    requires k in plan.live && k in plan.targets
  {
    if k in r.moved then r else Rollout(r.level - plan.live[k] + plan.targets[k], r.moved + {k})
  }

  function Roll(current: nat, plan: Plan, order: seq<Key>): Rollout
    requires forall k :: k in order ==> k in plan.live && k in plan.targets
  {
    if order == [] then Rollout(current, {})
    else Move(Roll(current, plan, order[..|order|-1]), plan, order[|order|-1])
  }

  lemma {:induction false} CounterAtRest(outside: int, ks: seq<Key>, plan: Plan)
    ensures Counter(outside, ks, plan, {}) == outside + Sum(ks, plan.live)
  {
    if ks != [] {
      CounterAtRest(outside, ks[..|ks|-1], plan);
    }
  }

  lemma {:induction false} CounterAtEnd(outside: int, ks: seq<Key>, plan: Plan, moved: set<Key>)
    requires forall k :: k in ks ==> k in moved
    ensures Counter(outside, ks, plan, moved) == outside + Sum(ks, plan.targets)
  {
    if ks != [] {
      CounterAtEnd(outside, ks[..|ks|-1], plan, moved);
    }
  }

  lemma {:induction false} CounterUnmoved(outside: int, ks: seq<Key>, plan: Plan, moved: set<Key>, k: Key)
    requires k !in ks
    ensures Counter(outside, ks, plan, moved + {k}) == Counter(outside, ks, plan, moved)
  {
    if ks != [] {
      CounterUnmoved(outside, ks[..|ks|-1], plan, moved, k);
    }
  }

  lemma {:induction false} CounterMoves(outside: int, ks: seq<Key>, plan: Plan, moved: set<Key>, k: Key)
    requires Distinct(ks) && k in ks && k !in moved && k in plan.live && k in plan.targets
    ensures Counter(outside, ks, plan, moved + {k}) == Counter(outside, ks, plan, moved) - plan.live[k] + plan.targets[k]
  {
    var prefix := ks[..|ks|-1];
    if ks[|ks|-1] == k {
      assert k !in prefix;
      CounterUnmoved(outside, prefix, plan, moved, k);
    } else {
      assert k in prefix;
      CounterMoves(outside, prefix, plan, moved, k);
    }
  }

  // Never above the start by more than all the increases together.
  lemma {:induction false} CounterWithin(outside: int, ks: seq<Key>, plan: Plan, moved: set<Key>)
    requires forall k :: k in ks ==> k in plan.live && k in plan.targets
    ensures Counter(outside, ks, plan, moved) <= outside + Sum(ks, plan.live) + Increase(ks, plan)
  {
    if ks != [] {
      CounterWithin(outside, ks[..|ks|-1], plan, moved);
    }
  }

  // The counter a rollout reaches is that of the set it has moved.
  lemma {:induction false} RollCounts(current: nat, ks: seq<Key>, plan: Plan, order: seq<Key>)
    requires Distinct(ks)
    requires forall k :: k in ks ==> k in plan.live && k in plan.targets
    requires forall k :: k in order ==> k in ks
    ensures var r := Roll(current, plan, order);
      r.level == Counter(current - Sum(ks, plan.live), ks, plan, r.moved)
    ensures forall k :: k in Roll(current, plan, order).moved <==> k in order
  {
    if order == [] {
      CounterAtRest(current - Sum(ks, plan.live), ks, plan);
    } else {
      var before, k := order[..|order|-1], order[|order|-1];
      RollCounts(current, ks, plan, before);
      assert order == before + [k];
      var r := Roll(current, plan, before);
      if k !in r.moved {
        CounterMoves(current - Sum(ks, plan.live), ks, plan, r.moved, k);
      }
    }
  }

  predicate Grows(ks: seq<Key>, plan: Plan) { Increase(ks, plan) > 0 }

  lemma {:induction false} GrowsMeans(ks: seq<Key>, plan: Plan)
    requires forall k :: k in ks ==> k in plan.live && k in plan.targets
    ensures Grows(ks, plan) <==> exists k :: k in ks && plan.targets[k] > plan.live[k]
  {
    if ks != [] {
      GrowsMeans(ks[..|ks|-1], plan);
      assert ks == ks[..|ks|-1] + [ks[|ks|-1]];
    }
  }

  // A cleared pool keeps its limit in every order of moves, keeps its whole
  // reserve free throughout if any target grows, and at the end in any case.
  lemma AnyOrder(reserve: Reserve, active: seq<Member>, ks: seq<Key>, plan: Plan, current: nat, limit: nat,
                 order: seq<Key>)
    requires Distinct(ks)
    requires forall k :: k in ks ==> k in plan.live && k in plan.targets
    requires forall k :: k in order ==> k in ks
    requires Cleared(reserve, active, ks, plan, current, limit)
    ensures Roll(current, plan, order).level <= limit
    ensures (exists k :: k in ks && plan.targets[k] > plan.live[k]) ==> Roll(current, plan, order).level + reserve.Total() <= limit
    ensures (forall k :: k in ks ==> k in order) ==>
      && Roll(current, plan, order).level == current - Sum(ks, plan.live) + Sum(ks, plan.targets)
      && Roll(current, plan, order).level + reserve.Total() <= limit
  {
    var outside, r := current - Sum(ks, plan.live), Roll(current, plan, order);
    RollCounts(current, ks, plan, order);
    CounterWithin(outside, ks, plan, r.moved);
    GrowsMeans(ks, plan);
    if forall k :: k in ks ==> k in order {
      CounterAtEnd(outside, ks, plan, r.moved);
    }
  }

  // A second copy of an active deployment fits at the end, and at every point of
  // every rollout exactly when some target grows or it fits before the first move.
  lemma SecondCopy(reserve: Reserve, active: seq<Member>, ks: seq<Key>, plan: Plan, current: nat, limit: nat, m: Member)
    requires Distinct(ks)
    requires forall k :: k in ks ==> k in plan.live && k in plan.targets
    requires Cleared(reserve, active, ks, plan, current, limit)
    requires m in active
    ensures Roll(current, plan, ks).level + plan.targets[m.key] <= limit
    ensures (forall order :: Partial(order, ks) ==> Roll(current, plan, order).level + plan.targets[m.key] <= limit)
      <==> (Grows(ks, plan) || current + plan.targets[m.key] <= limit)
  {
    AnyOrder(reserve, active, ks, plan, current, limit, ks);
    GrowsMeans(ks, plan);
    assert Partial([], ks) && Roll(current, plan, []).level == current;
    if Grows(ks, plan) || current + plan.targets[m.key] <= limit {
      forall order | Partial(order, ks)
        ensures Roll(current, plan, order).level + plan.targets[m.key] <= limit
      {
        AnyOrder(reserve, active, ks, plan, current, limit, order);
        RollCounts(current, ks, plan, order);
        CounterWithin(current - Sum(ks, plan.live), ks, plan, Roll(current, plan, order).moved);
      }
    }
    if Grows(ks, plan) {
      assert plan.targets[m.key] <= reserve.replacement;
    }
  }

  ghost predicate Partial(order: seq<Key>, ks: seq<Key>) {
    forall k :: k in order ==> k in ks
  }

  // With only decreases to make there need not be such room at first: a full
  // pool may be cleared to shrink.
  lemma ShrinkingFullPool()
    ensures var m := Member(("r", "d"), 1, 4, Some(2));
      var plan := Plan(map[m.key := 6], map[m.key := 2]);
      && Cleared(Reserve(2, 1, 1), [m], [m.key], plan, 10, 10)
      && Roll(10, plan, []).level + plan.targets[m.key] > 10
  {
    var m := Member(("r", "d"), 1, 4, Some(2));
    var plan := Plan(map[m.key := 6], map[m.key := 2]);
    var ks := [m.key];
    assert ks[..0] == [];
    assert Sum(ks, plan.targets) == 2 && Sum(ks, plan.live) == 6 && Increase(ks, plan) == 0;
  }
}
