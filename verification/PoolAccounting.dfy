// Quota pools asserted by an operator: which catalog deployments each counts,
// and what can be said about its allocation from inventories and counters.
module PoolAccounting {
  import opened Wrappers
  import opened Filters

  const MAX_NUMBER := 0x1F_FFFF_FFFF_FFFF

  type Code = string
  type Region = string

  datatype Model = Model(format: string, name: string, version: string, sku: string)

  datatype Deployment = Deployment(name: string, region: Region, model: Model, external: bool)

  // One deployment found in a region; `settled` is a succeeded provisioning state.
  datatype Row = Row(name: string, model: Model, settled: bool, capacity: nat)

  datatype Quota = Quota(counter: string, unit: string, current: nat, limit: nat)

  // What the platform says is still available for one model version.
  datatype Offer = Offer(region: Region, sku: string, available: nat)

  datatype Pool = Pool(counter: string, unit: string, regions: seq<Region>,
                       format: string, name: string, sku: string, versions: seq<string>)

  datatype Evidence = Evidence(
    inventories: map<Region, seq<Row>>,
    quotas: map<Region, seq<Quota>>,
    offers: map<(string, string, string), seq<Offer>>,
    available: set<string>)

  function Number(n: int): Result<nat, Code> {
    if 0 <= n <= MAX_NUMBER then Ok(n) else Err("invalid_numeric_value")
  }

  predicate Counts(p: Pool, m: Model) {
    m.format == p.format && m.name == p.name && m.sku == p.sku
  }

  // The catalog deployments a pool answers for.
  function Expected(catalog: seq<Deployment>, p: Pool): seq<Deployment> {
    if catalog == [] then []
    else
      var rest := Expected(catalog[..|catalog|-1], p);
      var d := catalog[|catalog|-1];
      if d.region in p.regions && Counts(p, d.model) then rest + [d] else rest
  }

  lemma {:induction false} InExpected(catalog: seq<Deployment>, p: Pool, d: Deployment)
    ensures d in Expected(catalog, p) <==>
      d in catalog && d.region in p.regions && (d.model.format, d.model.name, d.model.sku) == (p.format, p.name, p.sku)
  {
    if catalog != [] {
      InExpected(catalog[..|catalog|-1], p, d);
      assert catalog == catalog[..|catalog|-1] + [catalog[|catalog|-1]];
    }
  }

  // ----- Membership of several assertions

  predicate Overlap(a: Pool, b: Pool, fold: string -> string) {
    exists r :: r in a.regions && r in b.regions
      && (fold(a.counter) == fold(b.counter) || (a.format == b.format && a.name == b.name && a.sku == b.sku))
  }

  ghost predicate Separate(pools: seq<Pool>, fold: string -> string) {
    forall i, j :: 0 <= i < j < |pools| ==> !Overlap(pools[i], pools[j], fold)
  }

  ghost predicate DistinctRegions(pools: seq<Pool>) {
    forall p :: p in pools ==> forall i, j :: 0 <= i < j < |p.regions| ==> p.regions[i] != p.regions[j]
  }

  type ModelKey = (string, string, string, Region)

  // What has been claimed by some pools: regions under counters and under models.
  ghost predicate Claimed(counters: set<(string, Region)>, models: set<ModelKey>, pools: seq<Pool>,
                          fold: string -> string) {
    && (forall c, r :: (c, r) in counters <==> exists q :: q in pools && fold(q.counter) == c && r in q.regions)
    && (forall f, n, s, r :: (f, n, s, r) in models <==>
          exists q :: q in pools && (q.format, q.name, q.sku) == (f, n, s) && r in q.regions)
  }

  lemma ClaimedMore(counters: set<(string, Region)>, models: set<ModelKey>, pools: seq<Pool>, p: Pool,
                    fold: string -> string)
    requires Claimed(counters, models, pools, fold)
    ensures Claimed(counters + (set r | r in p.regions :: (fold(p.counter), r)),
                    models + (set r | r in p.regions :: (p.format, p.name, p.sku, r)), pools + [p], fold)
  {
    assert forall q :: q in pools + [p] <==> q in pools || q == p;
  }

  // Claims the regions of one more pool, unless one is claimed already.
  method Claim(p: Pool, counters: set<(string, Region)>, models: set<ModelKey>, fold: string -> string,
               ghost pools: seq<Pool>)
    returns (r: Option<(set<(string, Region)>, set<ModelKey>)>)
    requires Claimed(counters, models, pools, fold)
    requires forall i, j :: 0 <= i < j < |p.regions| ==> p.regions[i] != p.regions[j]
    ensures r.Some? ==> Claimed(r.value.0, r.value.1, pools + [p], fold)
    ensures r.Some? <==> forall q :: q in pools ==> !Overlap(q, p, fold)
  {
    var c := fold(p.counter);
    var cs, ms := counters, models;
    for j := 0 to |p.regions|
      invariant forall k :: 0 <= k < j ==> (c, p.regions[k]) !in counters && (p.format, p.name, p.sku, p.regions[k]) !in models
      invariant cs == counters + (set r | r in p.regions[..j] :: (c, r))
      invariant ms == models + (set r | r in p.regions[..j] :: (p.format, p.name, p.sku, r))
    {
      var region := p.regions[j];
      assert region !in p.regions[..j] && p.regions[..j+1] == p.regions[..j] + [region];
      if (c, region) in cs || (p.format, p.name, p.sku, region) in ms {
        return None;
      }
      cs, ms := cs + {(c, region)}, ms + {(p.format, p.name, p.sku, region)};
    }
    assert p.regions[..|p.regions|] == p.regions;
    ClaimedMore(counters, models, pools, p, fold);
    return Some((cs, ms));
  }

  // Accepts the pools exactly when no two share a region under one counter or
  // one model, whatever unit or version labels they carry.
  method CheckMembership(pools: seq<Pool>, fold: string -> string) returns (ok: bool)
    requires DistinctRegions(pools)
    ensures ok <==> Separate(pools, fold)
  {
    var counters: set<(string, Region)>, models: set<ModelKey> := {}, {};
    for i := 0 to |pools|
      invariant Separate(pools[..i], fold) && Claimed(counters, models, pools[..i], fold)
    {
      assert pools[i] in pools && pools[..i+1] == pools[..i] + [pools[i]];
      var more := Claim(pools[i], counters, models, fold, pools[..i]);
      if more.None? {
        return false;
      }
      counters, models := more.value.0, more.value.1;
    }
    assert pools[..|pools|] == pools;
    return true;
  }

  // So no catalog deployment is counted in two accepted pools.
  lemma CountedOnce(catalog: seq<Deployment>, pools: seq<Pool>, fold: string -> string, i: nat, j: nat, d: Deployment)
    requires Separate(pools, fold) && i < j < |pools|
    ensures !(d in Expected(catalog, pools[i]) && d in Expected(catalog, pools[j]))
  {
    InExpected(catalog, pools[i], d);
    InExpected(catalog, pools[j], d);
  }

  // ----- Sums

  // All rows of a pool's regions, with the region they were found in.
  function RowsOf(inventories: map<Region, seq<Row>>, regions: seq<Region>): seq<(Region, Row)> {
    if regions == [] then []
    else RowsOf(inventories, regions[..|regions|-1]) + Tagged(regions[|regions|-1], Rows(inventories, regions[|regions|-1]))
  }

  function Rows(inventories: map<Region, seq<Row>>, region: Region): seq<Row> {
    if region in inventories then inventories[region] else []
  }

  function Tagged(region: Region, rows: seq<Row>): seq<(Region, Row)> {
    seq(|rows|, i requires 0 <= i < |rows| => (region, rows[i]))
  }

  // What one row adds to the pool's capacity, unless its (region, name) is in `keys`.
  function Share(entry: (Region, Row), p: Pool, keys: set<(Region, string)>): nat {
    if Counts(p, entry.1.model) && (entry.0, entry.1.name) !in keys then entry.1.capacity else 0
  }

  // The capacity of the pool's rows whose (region, name) is not in `keys`.
  function CapacityOutside(rows: seq<(Region, Row)>, p: Pool, keys: set<(Region, string)>): nat {
    if rows == [] then 0
    else CapacityOutside(rows[..|rows|-1], p, keys) + Share(rows[|rows|-1], p, keys)
  }

  lemma {:induction false} OutsideShrinks(rows: seq<(Region, Row)>, p: Pool, keys: set<(Region, string)>,
                                          key: (Region, string))
    ensures CapacityOutside(rows, p, keys + {key}) <= CapacityOutside(rows, p, keys)
  {
    if rows != [] {
      OutsideShrinks(rows[..|rows|-1], p, keys, key);
      assert Share(rows[|rows|-1], p, keys + {key}) <= Share(rows[|rows|-1], p, keys);
    }
  }

  // Setting one row aside frees at least its capacity.
  lemma {:induction false} SetAside(rows: seq<(Region, Row)>, p: Pool, keys: set<(Region, string)>, region: Region,
                                    row: Row)
    requires (region, row) in rows && Counts(p, row.model) && (region, row.name) !in keys
    ensures CapacityOutside(rows, p, keys + {(region, row.name)}) + row.capacity <= CapacityOutside(rows, p, keys)
  {
    var prefix, last := rows[..|rows|-1], rows[|rows|-1];
    var key := (region, row.name);
    assert Share(last, p, keys + {key}) <= Share(last, p, keys);
    if last == (region, row) {
      OutsideShrinks(prefix, p, keys, key);
    } else {
      assert (region, row) in prefix;
      SetAside(prefix, p, keys, region, row);
    }
  }

  lemma {:induction false} InRowsOf(inventories: map<Region, seq<Row>>, regions: seq<Region>, region: Region, row: Row)
    requires region in regions && row in Rows(inventories, region)
    ensures (region, row) in RowsOf(inventories, regions)
  {
    var last := regions[|regions|-1];
    if region == last {
      var i :| 0 <= i < |Rows(inventories, region)| && Rows(inventories, region)[i] == row;
      assert Tagged(region, Rows(inventories, region))[i] == (region, row);
    } else {
      assert region in regions[..|regions|-1];
      InRowsOf(inventories, regions[..|regions|-1], region, row);
    }
  }

  // Everything the pool's rows hold, catalogued or not.
  function Total(p: Pool, inventories: map<Region, seq<Row>>): nat {
    CapacityOutside(RowsOf(inventories, p.regions), p, {})
  }

  // ----- Counters

  function Under(counter: string): Quota -> bool {
    (q: Quota) => q.counter == counter
  }

  // The counter value a region reports in the asserted unit, if it reports one.
  function Quoted(p: Pool, quotas: map<Region, seq<Quota>>, region: Region): Option<(nat, nat)> {
    var matching := if region in quotas then Filter(quotas[region], Under(p.counter)) else [];
    if |matching| != 1 || matching[0].unit != p.unit then None
    else Some((matching[0].current, matching[0].limit))
  }

  // The values some regions report, and whether any reports none.
  method ObserveCounters(regions: seq<Region>, quoted: Region -> Option<(nat, nat)>)
    returns (values: set<(nat, nat)>, mismatch: bool)
    ensures mismatch <==> exists r :: r in regions && quoted(r).None?
    ensures AllQuoted(regions, quoted, values)
  {
    values, mismatch := {}, false;
    for i := 0 to |regions|
      invariant mismatch <==> exists k :: 0 <= k < i && quoted(regions[k]).None?
      invariant forall k :: 0 <= k < i && quoted(regions[k]).Some? ==> quoted(regions[k]).value in values
      invariant forall v :: v in values ==> exists r :: r in regions && quoted(r) == Some(v)
    {
      match quoted(regions[i])
      case None => mismatch := true;
      case Some(value) => values := values + {value};
    }
  }

  ghost predicate AllQuoted(regions: seq<Region>, quoted: Region -> Option<(nat, nat)>, values: set<(nat, nat)>) {
    && (forall v :: v in values ==> exists r :: r in regions && quoted(r) == Some(v))
    && (forall r :: r in regions && quoted(r).Some? ==> quoted(r).value in values)
  }

  ghost predicate Differ(regions: seq<Region>, quoted: Region -> Option<(nat, nat)>) {
    exists a, b :: a in regions && b in regions && quoted(a).Some? && quoted(b).Some? && quoted(a) != quoted(b)
  }

  lemma ManyValues(regions: seq<Region>, quoted: Region -> Option<(nat, nat)>, values: set<(nat, nat)>)
    requires AllQuoted(regions, quoted, values)
    ensures |values| > 1 <==> Differ(regions, quoted)
  {
    if |values| > 1 {
      var v :| v in values;
      assert |values - {v}| >= 1;
      var w :| w in values - {v};
      var a :| a in regions && quoted(a) == Some(v);
      var b :| b in regions && quoted(b) == Some(w);
      assert quoted(a) != quoted(b);
    }
    if Differ(regions, quoted) {
      var a, b :| a in regions && b in regions && quoted(a).Some? && quoted(b).Some? && quoted(a) != quoted(b);
      var both := {quoted(a).value, quoted(b).value};
      assert both <= values && |both| == 2;
      SubsetSize(both, values);
    }
  }

  lemma OnlyValue<T>(values: set<T>, value: T)
    requires |values| == 1 && value in values
    ensures values == {value}
  {
    assert |values - {value}| == 0;
  }

  // The one value that is quoted, and what is wrong with the others.
  method OneValue(regions: seq<Region>, quoted: Region -> Option<(nat, nat)>)
    returns (counter: Option<(nat, nat)>, codes: set<Code>)
    ensures codes == {} <==> counter.Some? && regions != [] && forall r :: r in regions ==> quoted(r) == counter
    ensures counter.Some? ==> exists r :: r in regions && quoted(r) == counter
    ensures counter.Some? ==> forall r :: r in regions && quoted(r).Some? ==> quoted(r) == counter
    ensures regions != [] && (forall r :: r in regions ==> quoted(r).Some?) && !Differ(regions, quoted) ==> counter.Some?
    ensures "pool_counter_or_unit_mismatch" in codes <==> exists r :: r in regions && quoted(r).None?
    ensures "contradictory_pool_counters" in codes <==> Differ(regions, quoted)
    ensures "missing_pool_counter" in codes <==> counter.None?
  {
    codes := {};
    var values, mismatch := ObserveCounters(regions, quoted);
    ManyValues(regions, quoted, values);
    if mismatch {
      codes := codes + {"pool_counter_or_unit_mismatch"};
    }
    if |values| > 1 {
      codes := codes + {"contradictory_pool_counters"};
    }
    if |values| != 1 {
      assert regions != [] ==> regions[0] in regions;
      return None, codes + {"missing_pool_counter"};
    }
    var value :| value in values;
    OnlyValue(values, value);
    return Some(value), codes;
  }

  // The region's only row under the pool's counter is in the asserted unit and
  // has these numbers.
  ghost predicate Reports(p: Pool, quotas: map<Region, seq<Quota>>, region: Region, current: nat, limit: nat) {
    region in quotas && exists i: nat :: ReportsAt(p, quotas[region], i, current, limit)
  }

  ghost predicate ReportsAt(p: Pool, qs: seq<Quota>, i: nat, current: nat, limit: nat) {
    && i < |qs| && qs[i].counter == p.counter && qs[i].unit == p.unit
    && qs[i].current == current && qs[i].limit == limit
    && forall j :: 0 <= j < |qs| && j != i ==> qs[j].counter != p.counter
  }

  // A region is quoted with the numbers of its only row under the counter, and
  // not at all when it has none or several, or one in another unit.
  lemma QuotedMeans(p: Pool, quotas: map<Region, seq<Quota>>, region: Region, current: nat, limit: nat)
    ensures Quoted(p, quotas, region) == Some((current, limit)) <==> Reports(p, quotas, region, current, limit)
  {
    if region in quotas {
      var qs := quotas[region];
      OneLeft(qs, Under(p.counter));
      forall i: nat | i < |qs|
        ensures ReportsAt(p, qs, i, current, limit) <==>
          OnlyAt(qs, Under(p.counter), i) && qs[i].unit == p.unit && qs[i].current == current && qs[i].limit == limit
      {
      }
    }
  }

  // Every region reports the same counter value.
  ghost predicate OneCounter(p: Pool, quotas: map<Region, seq<Quota>>, value: (nat, nat)) {
    p.regions != [] && forall r :: r in p.regions ==> Reports(p, quotas, r, value.0, value.1)
  }

  // ----- What the catalog deployments hold

  function Named(name: string): Row -> bool {
    (row: Row) => row.name == name
  }

  function Live(inventories: map<Region, seq<Row>>, d: Deployment): seq<Row> {
    Filter(Rows(inventories, d.region), Named(d.name))
  }

  // The deployment is there exactly once, settled and as catalogued.
  predicate Present(inventories: map<Region, seq<Row>>, d: Deployment) {
    var live := Live(inventories, d);
    |live| == 1 && live[0].model == d.model && live[0].settled
  }

  // The row that a deployment is found in: the only one of its name in its region.
  ghost predicate FoundAt(inventories: map<Region, seq<Row>>, d: Deployment, i: nat) {
    && d.region in inventories && i < |inventories[d.region]|
    && inventories[d.region][i].name == d.name
    && forall j :: 0 <= j < |inventories[d.region]| && j != i ==> inventories[d.region][j].name != d.name
  }

  lemma PresentMeans(inventories: map<Region, seq<Row>>, d: Deployment)
    ensures Present(inventories, d) <==>
      exists i: nat :: FoundAt(inventories, d, i) && inventories[d.region][i].model == d.model && inventories[d.region][i].settled
    ensures Present(inventories, d) ==>
      forall i: nat :: FoundAt(inventories, d, i) ==> Holding(inventories, d) == inventories[d.region][i].capacity
  {
    var rows := Rows(inventories, d.region);
    OneLeft(rows, Named(d.name));
    forall i: nat ensures FoundAt(inventories, d, i) <==> OnlyAt(rows, Named(d.name), i) {
    }
  }

  function Holding(inventories: map<Region, seq<Row>>, d: Deployment): nat {
    if Present(inventories, d) then Live(inventories, d)[0].capacity else 0
  }

  function Held(ds: seq<Deployment>, inventories: map<Region, seq<Row>>): nat {
    if ds == [] then 0
    else Held(ds[..|ds|-1], inventories) + Holding(inventories, ds[|ds|-1])
  }

  function KeysOf(ds: seq<Deployment>): set<(Region, string)> {
    set d | d in ds :: (d.region, d.name)
  }

  ghost predicate DistinctKeys(ds: seq<Deployment>) {
    forall i, j :: 0 <= i < j < |ds| ==> (ds[i].region, ds[i].name) != (ds[j].region, ds[j].name)
  }

  lemma {:induction false} ExpectedDistinct(catalog: seq<Deployment>, p: Pool)
    requires DistinctKeys(catalog)
    ensures DistinctKeys(Expected(catalog, p))
  {
    if catalog != [] {
      var prefix, d := catalog[..|catalog|-1], catalog[|catalog|-1];
      ExpectedDistinct(prefix, p);
      forall e | e in Expected(prefix, p)
        ensures (e.region, e.name) != (d.region, d.name)
      {
        InExpected(prefix, p, e);
      }
    }
  }

  // One more deployment is set aside from the pool's rows.
  lemma {:induction false} SetDeploymentAside(p: Pool, inventories: map<Region, seq<Row>>, expected: seq<Deployment>,
                                              i: nat)
    requires DistinctKeys(expected) && i < |expected|
    requires expected[i].region in p.regions && Counts(p, expected[i].model)
    ensures Beside(p, inventories, expected[..i+1]) + Holding(inventories, expected[i]) <= Beside(p, inventories, expected[..i])
  {
    var d := expected[i];
    var key, keys := (d.region, d.name), KeysOf(expected[..i]);
    assert KeysOf(expected[..i+1]) == keys + {key};
    assert key !in keys;
    if Present(inventories, d) {
      var row := Live(inventories, d)[0];
      assert row in Live(inventories, d);
      InRowsOf(inventories, p.regions, d.region, row);
      SetAside(RowsOf(inventories, p.regions), p, keys, d.region, row);
    } else {
      OutsideShrinks(RowsOf(inventories, p.regions), p, keys, key);
    }
  }

  ghost predicate AllPresent(inventories: map<Region, seq<Row>>, ds: seq<Deployment>) {
    forall d :: d in ds ==> Present(inventories, d)
  }

  // What the pool's rows hold beside those of `ds`.
  function Beside(p: Pool, inventories: map<Region, seq<Row>>, ds: seq<Deployment>): nat {
    CapacityOutside(RowsOf(inventories, p.regions), p, KeysOf(ds))
  }

  // What `ds` hold fits beside every other row of the pool.
  ghost predicate HeldSoFar(p: Pool, inventories: map<Region, seq<Row>>, ds: seq<Deployment>, allocation: nat,
                            clean: bool) {
    && (clean <==> AllPresent(inventories, ds))
    && (clean ==> allocation == Held(ds, inventories))
    && allocation + Beside(p, inventories, ds) <= Total(p, inventories)
  }

  lemma {:induction false} HeldStep(p: Pool, inventories: map<Region, seq<Row>>, expected: seq<Deployment>, i: nat,
                                    allocation: nat, clean: bool)
    requires DistinctKeys(expected) && i < |expected|
    requires expected[i].region in p.regions && Counts(p, expected[i].model)
    requires HeldSoFar(p, inventories, expected[..i], allocation, clean)
    ensures var d := expected[i];
      if Present(inventories, d) then HeldSoFar(p, inventories, expected[..i+1], allocation + Holding(inventories, d), clean)
      else HeldSoFar(p, inventories, expected[..i+1], allocation, false)
  {
    SetDeploymentAside(p, inventories, expected, i);
    assert expected[..i+1] == expected[..i] + [expected[i]];
  }

  lemma HeldNone(p: Pool, inventories: map<Region, seq<Row>>, expected: seq<Deployment>)
    ensures HeldSoFar(p, inventories, expected[..0], 0, true)
  {
    assert KeysOf(expected[..0]) == {};
  }

  function LiveCapacity(inventories: map<Region, seq<Row>>, d: Deployment): (r: Result<nat, Code>)
    ensures r.Ok? <==> Present(inventories, d)
    ensures r.Ok? ==> r.value == Holding(inventories, d)
  {
    var live := Live(inventories, d);
    if |live| != 1 then Err("missing_pool_deployment")
    else if live[0].model != d.model || !live[0].settled then Err("pool_deployment_identity_or_state_mismatch")
    else Ok(live[0].capacity)
  }

  ghost predicate OfPool(p: Pool, ds: seq<Deployment>) {
    DistinctKeys(ds) && forall d :: d in ds ==> d.region in p.regions && Counts(p, d.model)
  }

  method AddDeployment(p: Pool, inventories: map<Region, seq<Row>>, expected: seq<Deployment>, i: nat, start: nat,
                       given: set<Code>)
    returns (r: Result<(nat, set<Code>), Code>)
    requires OfPool(p, expected) && i < |expected|
    requires HeldSoFar(p, inventories, expected[..i], start, given == {})
    ensures r.Ok? ==> HeldSoFar(p, inventories, expected[..i+1], r.value.0, r.value.1 == {})
    ensures r.Err? ==> Total(p, inventories) > MAX_NUMBER
  {
    assert expected[i] in expected;
    HeldStep(p, inventories, expected, i, start, given == {});
    match LiveCapacity(inventories, expected[i])
    case Err(code) =>
      return Ok((start, given + {code}));
    case Ok(capacity) =>
      var allocation :- Number(start + capacity);
      return Ok((allocation, given));
  }

  method CatalogAllocation(expected: seq<Deployment>, p: Pool, inventories: map<Region, seq<Row>>)
    returns (r: Result<(nat, set<Code>), Code>)
    requires OfPool(p, expected)
    ensures r.Ok? ==> HeldSoFar(p, inventories, expected, r.value.0, r.value.1 == {})
    ensures r.Err? ==> Total(p, inventories) > MAX_NUMBER
  {
    var found: (nat, set<Code>) := (0, {});
    HeldNone(p, inventories, expected);
    for i := 0 to |expected|
      invariant HeldSoFar(p, inventories, expected[..i], found.0, found.1 == {})
    {
      found :- AddDeployment(p, inventories, expected, i, found.0, found.1);
    }
    assert expected[..|expected|] == expected;
    return Ok(found);
  }

  // ----- What all the pool's rows hold

  predicate Reviewed(p: Pool, row: Row) {
    Counts(p, row.model) ==> row.settled && row.model.version in p.versions
  }

  ghost predicate AllReviewed(p: Pool, rows: seq<(Region, Row)>) {
    forall i :: 0 <= i < |rows| ==> Reviewed(p, rows[i].1)
  }

  // What the pool's reviewed rows hold; without a code it is every one of them.
  method KnownAllocation(p: Pool, inventories: map<Region, seq<Row>>) returns (r: Result<(nat, set<Code>), Code>)
    ensures r.Ok? ==> (r.value.1 == {} <==> AllReviewed(p, RowsOf(inventories, p.regions)))
    ensures r.Ok? && r.value.1 == {} ==> r.value.0 == Total(p, inventories)
    ensures r.Err? ==> Total(p, inventories) > MAX_NUMBER
  {
    var found: (nat, set<Code>) := (0, {});
    for i := 0 to |p.regions|
      invariant KnownSoFar(p, RowsOf(inventories, p.regions[..i]), found.0, found.1 == {})
    {
      MoreRegions(p, inventories, i + 1);
      assert p.regions[..i+1][..i] == p.regions[..i];
      found :- AddRegion(p, inventories, p.regions[i], RowsOf(inventories, p.regions[..i]), found.0, found.1);
    }
    assert p.regions[..|p.regions|] == p.regions;
    return Ok(found);
  }

  method AddRow(p: Pool, ghost before: seq<(Region, Row)>, region: Region, row: Row, start: nat, given: set<Code>)
    returns (r: Result<(nat, set<Code>), Code>)
    requires KnownSoFar(p, before, start, given == {})
    ensures r.Ok? ==> KnownSoFar(p, before + [(region, row)], r.value.0, r.value.1 == {})
    ensures r.Err? ==> CapacityOutside(before + [(region, row)], p, {}) > MAX_NUMBER
  {
    KnownStep(p, before, (region, row), start, given == {});
    if !Counts(p, row.model) {
      return Ok((start, given));
    }
    if !row.settled || row.model.version !in p.versions {
      return Ok((start, given + {"unsettled_or_unreviewed_pool_deployment"}));
    }
    var allocation :- Number(start + row.capacity);
    return Ok((allocation, given));
  }

  method AddRegion(p: Pool, inventories: map<Region, seq<Row>>, region: Region, ghost before: seq<(Region, Row)>,
                   start: nat, given: set<Code>)
    returns (r: Result<(nat, set<Code>), Code>)
    requires KnownSoFar(p, before, start, given == {})
    ensures r.Ok? ==> KnownSoFar(p, before + Tagged(region, Rows(inventories, region)), r.value.0, r.value.1 == {})
    ensures r.Err? ==> CapacityOutside(before + Tagged(region, Rows(inventories, region)), p, {}) > MAX_NUMBER
  {
    var found: (nat, set<Code>) := (start, given);
    var rows := Rows(inventories, region);
    assert before + Tagged(region, rows[..0]) == before;
    for j := 0 to |rows|
      invariant KnownSoFar(p, before + Tagged(region, rows[..j]), found.0, found.1 == {})
    {
      found :- AddNext(p, before, region, rows, j, found.0, found.1);
    }
    assert rows[..|rows|] == rows;
    return Ok(found);
  }

  method AddNext(p: Pool, ghost before: seq<(Region, Row)>, region: Region, rows: seq<Row>, j: nat, start: nat,
                 given: set<Code>)
    returns (r: Result<(nat, set<Code>), Code>)
    requires j < |rows| && KnownSoFar(p, before + Tagged(region, rows[..j]), start, given == {})
    ensures r.Ok? ==> KnownSoFar(p, before + Tagged(region, rows[..j+1]), r.value.0, r.value.1 == {})
    ensures r.Err? ==> CapacityOutside(before + Tagged(region, rows), p, {}) > MAX_NUMBER
  {
    ghost var so := before + Tagged(region, rows[..j]);
    assert before + Tagged(region, rows[..j+1]) == so + [(region, rows[j])];
    assert before + Tagged(region, rows) == so + [(region, rows[j])] + Tagged(region, rows[j+1..]);
    MoreRows(p, so + [(region, rows[j])], Tagged(region, rows[j+1..]));
    r := AddRow(p, so, region, rows[j], start, given);
  }

  ghost predicate KnownSoFar(p: Pool, rows: seq<(Region, Row)>, allocation: nat, clean: bool) {
    && (clean <==> AllReviewed(p, rows))
    && (clean ==> allocation == CapacityOutside(rows, p, {}))
    && allocation <= CapacityOutside(rows, p, {})
  }

  lemma KnownStep(p: Pool, rows: seq<(Region, Row)>, entry: (Region, Row), allocation: nat, clean: bool)
    requires KnownSoFar(p, rows, allocation, clean)
    ensures
      if !Counts(p, entry.1.model) then KnownSoFar(p, rows + [entry], allocation, clean)
      else if Reviewed(p, entry.1) then KnownSoFar(p, rows + [entry], allocation + entry.1.capacity, clean)
      else KnownSoFar(p, rows + [entry], allocation, false)
  {
    assert (rows + [entry])[..|rows|] == rows && (rows + [entry])[|rows|] == entry;
    assert AllReviewed(p, rows + [entry]) <==> AllReviewed(p, rows) && Reviewed(p, entry.1);
  }

  // Rows read so far weigh no more than all rows.
  lemma {:induction false} MoreRows(p: Pool, rows: seq<(Region, Row)>, more: seq<(Region, Row)>)
    ensures CapacityOutside(rows, p, {}) <= CapacityOutside(rows + more, p, {})
  {
    if more == [] {
      assert rows + more == rows;
    } else {
      MoreRows(p, rows, more[..|more|-1]);
      assert (rows + more)[..|rows + more|-1] == rows + more[..|more|-1];
    }
  }

  lemma {:induction false} MoreRegions(p: Pool, inventories: map<Region, seq<Row>>, i: nat)
    requires i <= |p.regions|
    ensures CapacityOutside(RowsOf(inventories, p.regions[..i]), p, {}) <= Total(p, inventories)
    decreases |p.regions| - i
  {
    if i == |p.regions| {
      assert p.regions[..i] == p.regions;
    } else {
      assert p.regions[..i+1][..i] == p.regions[..i];
      MoreRows(p, RowsOf(inventories, p.regions[..i]), Tagged(p.regions[i], Rows(inventories, p.regions[i])));
      MoreRegions(p, inventories, i + 1);
    }
  }

  // ----- What the platform offers

  function For(region: Region, sku: string): Offer -> bool {
    (o: Offer) => o.region == region && o.sku == sku
  }

  // The one capacity offered for a version in a region, if there is exactly one.
  function Offered(p: Pool, e: Evidence, version: string, region: Region): Option<nat> {
    var key := (p.format, p.name, version);
    var matches := Filter(if key in e.offers then e.offers[key] else [], For(region, p.sku));
    if |matches| == 1 then Some(matches[0].available) else None
  }

  // The only offer of the version in the region under the pool's offer.
  ghost predicate OfferedAt(p: Pool, e: Evidence, version: string, region: Region, i: nat, available: nat) {
    (p.format, p.name, version) in e.offers
    && var offers := e.offers[(p.format, p.name, version)];
       && i < |offers| && offers[i] == Offer(region, p.sku, available)
       && forall j :: 0 <= j < |offers| && j != i ==> offers[j].region != region || offers[j].sku != p.sku
  }

  lemma OfferedMeans(p: Pool, e: Evidence, version: string, region: Region, available: nat)
    ensures Offered(p, e, version, region) == Some(available) <==> exists i: nat :: OfferedAt(p, e, version, region, i, available)
  {
    var key := (p.format, p.name, version);
    if key in e.offers {
      var offers := e.offers[key];
      OneLeft(offers, For(region, p.sku));
      forall i: nat
        ensures OfferedAt(p, e, version, region, i, available) <==> OnlyAt(offers, For(region, p.sku), i) && offers[i].available == available
      {
      }
    }
  }

  function AvailabilitySource(p: Pool, version: string): string {
    "availability:" + p.format + ":" + p.name + ":" + version
  }

  // The name of the source of a version's offers: format, name and version, each
  // after a colon.
  lemma SourceNamed(p: Pool, version: string)
    ensures var s, f, n := AvailabilitySource(p, version), |p.format|, |p.name|;
      && |s| == 15 + f + n + |version| && s[..13] == "availability:" && s[13..13+f] == p.format && s[13+f] == ':'
      && s[14+f..14+f+n] == p.name && s[14+f+n] == ':' && s[15+f+n..] == version
  {
  }

  ghost predicate AllOffered(p: Pool, e: Evidence) {
    && (forall v :: v in p.versions ==> AvailabilitySource(p, v) in e.available)
    && (forall v, r :: v in p.versions && r in p.regions ==> Offered(p, e, v, r).Some?)
  }

  // What is offered of some versions.
  ghost predicate Gathered(platforms: seq<nat>, p: Pool, e: Evidence, versions: seq<string>) {
    && (forall v, r :: v in versions && r in p.regions && Offered(p, e, v, r).Some? ==> Offered(p, e, v, r).value in platforms)
    && (forall a :: a in platforms ==> exists v, r :: v in versions && r in p.regions && Offered(p, e, v, r) == Some(a))
  }

  ghost predicate VersionOffered(p: Pool, e: Evidence, version: string) {
    AvailabilitySource(p, version) in e.available && forall r :: r in p.regions ==> Offered(p, e, version, r).Some?
  }

  // The offers there are, and whether any region has none.
  method Collect(regions: seq<Region>, offered: Region -> Option<nat>) returns (platforms: seq<nat>, missing: bool)
    ensures missing <==> exists r :: r in regions && offered(r).None?
    ensures forall r :: r in regions && offered(r).Some? ==> offered(r).value in platforms
    ensures forall a :: a in platforms ==> exists r :: r in regions && offered(r) == Some(a)
  {
    platforms, missing := [], false;
    for j := 0 to |regions|
      invariant missing <==> exists k :: 0 <= k < j && offered(regions[k]).None?
      invariant forall k :: 0 <= k < j && offered(regions[k]).Some? ==> offered(regions[k]).value in platforms
      invariant forall a :: a in platforms ==> exists r :: r in regions && offered(r) == Some(a)
    {
      match offered(regions[j])
      case None => missing := true;
      case Some(available) => platforms := platforms + [available];
    }
  }

  // One version's offers, in every region.
  method PlatformsOf(p: Pool, e: Evidence, version: string) returns (platforms: seq<nat>, codes: set<Code>)
    ensures codes == {} <==> VersionOffered(p, e, version)
    ensures Gathered(platforms, p, e, [version])
  {
    var offered := (r: Region) => Offered(p, e, version, r);
    var missing;
    platforms, missing := Collect(p.regions, offered);
    GatheredHere(platforms, p, e, version, offered);
    codes := (if AvailabilitySource(p, version) in e.available then {} else {"incomplete_pool_sources"})
      + (if missing then {"missing_pool_availability"} else {});
  }

  lemma GatheredHere(platforms: seq<nat>, p: Pool, e: Evidence, version: string, offered: Region -> Option<nat>)
    requires forall r :: offered(r) == Offered(p, e, version, r)
    requires forall r :: r in p.regions && offered(r).Some? ==> offered(r).value in platforms
    requires forall a :: a in platforms ==> exists r :: r in p.regions && offered(r) == Some(a)
    ensures Gathered(platforms, p, e, [version])
  {
    assert version in [version];
  }

  method Platforms(p: Pool, e: Evidence) returns (platforms: seq<nat>, codes: set<Code>)
    ensures codes == {} <==> AllOffered(p, e)
    ensures Gathered(platforms, p, e, p.versions)
  {
    platforms, codes := [], {};
    for i := 0 to |p.versions|
      invariant codes == {} <==> forall k :: 0 <= k < i ==> VersionOffered(p, e, p.versions[k])
      invariant Gathered(platforms, p, e, p.versions[..i])
    {
      var more, wrong := PlatformsOf(p, e, p.versions[i]);
      assert p.versions[..i+1] == p.versions[..i] + [p.versions[i]];
      GatheredMore(platforms, more, p, e, p.versions[..i], p.versions[i]);
      platforms, codes := platforms + more, codes + wrong;
    }
    assert p.versions[..|p.versions|] == p.versions;
  }

  lemma GatheredMore(a: seq<nat>, b: seq<nat>, p: Pool, e: Evidence, versions: seq<string>, version: string)
    requires Gathered(a, p, e, versions) && Gathered(b, p, e, [version])
    ensures Gathered(a + b, p, e, versions + [version])
  {
    assert forall v :: v in versions + [version] <==> v in versions || v in [version];
  }

  // ----- One pool

  // `current` and `limit` are the asserted counter; the derived numbers are
  // withheld unless the evidence is consistent.
  datatype Rollup = Rollup(
    codes: set<Code>, current: Option<nat>, limit: Option<nat>,
    catalogAllocation: Option<int>, uncatalogued: Option<int>, outside: Option<int>, headroom: Option<int>)
  {
    predicate Consistent() { codes == {} }
  }

  function SourcesOf(p: Pool): set<string> {
    {"group", "accounts"} + (set r | r in p.regions :: "deployments:" + r) + (set r | r in p.regions :: "quota:" + r)
  }

  // The sources a pool depends on: the group, the accounts, and in every region
  // the deployments and the quota.
  lemma SourcesMean(p: Pool, source: string)
    ensures source in SourcesOf(p) <==>
      source == "group" || source == "accounts"
      || exists r :: r in p.regions && (source == "deployments:" + r || source == "quota:" + r)
  {
  }

  ghost predicate NoneExternal(ds: seq<Deployment>) {
    forall d :: d in ds ==> !d.external
  }

  ghost predicate OfferedWithin(p: Pool, e: Evidence, current: nat, limit: nat) {
    forall v, r :: v in p.versions && r in p.regions && Offered(p, e, v, r).Some? ==> Offered(p, e, v, r).value + current <= limit
  }

  // The evidence agrees with itself and with the catalog about one counter value.
  ghost predicate Agrees(p: Pool, catalog: seq<Deployment>, e: Evidence, current: nat, limit: nat) {
    && OneCounter(p, e.quotas, (current, limit))
    && SourcesOf(p) <= e.available
    && NoneExternal(Expected(catalog, p))
    && AllPresent(e.inventories, Expected(catalog, p))
    && AllReviewed(p, RowsOf(e.inventories, p.regions))
    && AllOffered(p, e)
    && OfferedWithin(p, e, current, limit)
    && Total(p, e.inventories) <= current <= limit
  }

  // The derived numbers, and that they account for the whole limit.
  ghost predicate Accounts(u: Rollup, p: Pool, catalog: seq<Deployment>, e: Evidence) {
    && u.current.Some? && u.limit.Some? && u.catalogAllocation.Some? && u.uncatalogued.Some? && u.outside.Some? && u.headroom.Some?
    && u.catalogAllocation.value == Held(Expected(catalog, p), e.inventories)
    && u.catalogAllocation.value + u.uncatalogued.value == Total(p, e.inventories)
    && 0 <= u.catalogAllocation.value <= Total(p, e.inventories) <= u.current.value <= u.limit.value
    && u.catalogAllocation.value + u.outside.value == u.current.value
    && u.headroom.value + u.outside.value + u.catalogAllocation.value == u.limit.value
  }

  ghost predicate Withheld(u: Rollup) {
    u.catalogAllocation.None? && u.uncatalogued.None? && u.outside.None? && u.headroom.None?
  }

  // The reading and adding up that precedes the verdict.
  datatype Findings = Findings(codes: set<Code>, counter: Option<(nat, nat)>, catalogAllocation: nat, known: nat, platforms: seq<nat>)

  ghost predicate Found(f: Findings, p: Pool, catalog: seq<Deployment>, e: Evidence) {
    && (f.codes == {} <==>
        && f.counter.Some? && OneCounter(p, e.quotas, f.counter.value)
        && SourcesOf(p) <= e.available
        && NoneExternal(Expected(catalog, p))
        && AllPresent(e.inventories, Expected(catalog, p))
        && AllReviewed(p, RowsOf(e.inventories, p.regions))
        && AllOffered(p, e))
    && (f.codes == {} ==>
        && f.catalogAllocation == Held(Expected(catalog, p), e.inventories) <= Total(p, e.inventories)
        && f.known == Total(p, e.inventories))
    && (forall v :: OneCounter(p, e.quotas, v) ==> f.counter == Some(v))
    && Observed(p, e.quotas, f.counter)
    && (forall c: nat, l: nat :: OfferedWithin(p, e, c, l) <==> forall a :: a in f.platforms ==> a + c <= l)
  }

  // The sources that are missing, and deployments elsewhere.
  method SourceCodes(p: Pool, expected: seq<Deployment>, e: Evidence) returns (codes: set<Code>)
    ensures codes == {} <==> SourcesOf(p) <= e.available && NoneExternal(expected)
  {
    codes := if exists d :: d in expected && d.external then {"external_target_scope_unavailable"} else {};
    if !(SourcesOf(p) <= e.available) {
      codes := codes + {"incomplete_pool_sources"};
    }
  }

  lemma ExpectedOfPool(catalog: seq<Deployment>, p: Pool)
    requires DistinctKeys(catalog)
    ensures OfPool(p, Expected(catalog, p))
  {
    ExpectedDistinct(catalog, p);
    forall d | d in Expected(catalog, p)
      ensures d.region in p.regions && Counts(p, d.model)
    {
      InExpected(catalog, p, d);
    }
  }

  lemma OffersFit(platforms: seq<nat>, p: Pool, e: Evidence, current: nat, limit: nat)
    requires Gathered(platforms, p, e, p.versions)
    ensures OfferedWithin(p, e, current, limit) <==> forall a :: a in platforms ==> a + current <= limit
  {
  }

  method Gather(p: Pool, catalog: seq<Deployment>, e: Evidence) returns (r: Result<Findings, Code>)
    requires DistinctKeys(catalog)
    ensures r.Err? ==> Total(p, e.inventories) > MAX_NUMBER
    ensures r.Ok? ==> Found(r.value, p, catalog, e)
  {
    var expected := Expected(catalog, p);
    ExpectedOfPool(catalog, p);
    var codes := SourceCodes(p, expected, e);
    var counter, counterCodes := TheCounter(p, e.quotas);
    var ours :- CatalogAllocation(expected, p, e.inventories);
    var all :- KnownAllocation(p, e.inventories);
    var platforms, platformCodes := Platforms(p, e);
    forall c: nat, l: nat
      ensures OfferedWithin(p, e, c, l) <==> forall a :: a in platforms ==> a + c <= l
    {
      OffersFit(platforms, p, e, c, l);
    }
    return Ok(Findings(codes + counterCodes + ours.1 + all.1 + platformCodes, counter, ours.0, all.0, platforms));
  }

  method RollUp(p: Pool, catalog: seq<Deployment>, e: Evidence) returns (r: Result<Rollup, Code>)
    requires DistinctKeys(catalog)
    ensures r.Err? ==> Total(p, e.inventories) > MAX_NUMBER
    ensures r.Ok? ==> (r.value.Consistent() <==> exists current, limit :: Agrees(p, catalog, e, current, limit))
    ensures r.Ok? && r.value.Consistent() ==>
      Accounts(r.value, p, catalog, e) && Agrees(p, catalog, e, r.value.current.value, r.value.limit.value)
    ensures r.Ok? && !r.value.Consistent() ==> Withheld(r.value)
    ensures r.Ok? ==> r.value.current.Some? == r.value.limit.Some?
    ensures r.Ok? && r.value.current.Some? ==> Observed(p, e.quotas, Some((r.value.current.value, r.value.limit.value)))
  {
    var f :- Gather(p, catalog, e);
    var codes := f.codes;
    if f.counter.None? {
      return Ok(Rollup(codes + {"missing_pool_counter"}, None, None, None, None, None, None));
    }
    var (current, limit) := f.counter.value;
    if current > limit || f.known > current {
      codes := codes + {"contradictory_pool_allocation"};
    }
    if exists a :: a in f.platforms && a + current > limit {
      codes := codes + {"contradictory_pool_availability"};
    }
    if codes != {} {
      return Ok(Rollup(codes, Some(current), Some(limit), None, None, None, None));
    }
    assert Agrees(p, catalog, e, current, limit);
    return Ok(Rollup(codes, Some(current), Some(limit), Some(f.catalogAllocation), Some(f.known - f.catalogAllocation),
                     Some(current - f.catalogAllocation), Some(limit - current)));
  }

  // The counter is what some region reports, and no other reports anything else.
  ghost predicate Observed(p: Pool, quotas: map<Region, seq<Quota>>, counter: Option<(nat, nat)>) {
    counter.Some? ==>
      && (exists r :: r in p.regions && Reports(p, quotas, r, counter.value.0, counter.value.1))
      && (forall r, c: nat, l: nat :: r in p.regions && Reports(p, quotas, r, c, l) ==> (c, l) == counter.value)
  }

  function Quotes(p: Pool, quotas: map<Region, seq<Quota>>): Region -> Option<(nat, nat)> {
    r => Quoted(p, quotas, r)
  }

  // The one value every region reports; without a code they all report it.
  method TheCounter(p: Pool, quotas: map<Region, seq<Quota>>) returns (counter: Option<(nat, nat)>, codes: set<Code>)
    ensures codes == {} <==> counter.Some? && OneCounter(p, quotas, counter.value)
    ensures forall v :: OneCounter(p, quotas, v) ==> counter == Some(v)
    ensures Observed(p, quotas, counter)
    ensures "pool_counter_or_unit_mismatch" in codes <==> exists r :: r in p.regions && Quotes(p, quotas)(r).None?
    ensures "contradictory_pool_counters" in codes <==> Differ(p.regions, Quotes(p, quotas))
    ensures "missing_pool_counter" in codes <==> counter.None?
  {
    counter, codes := OneValue(p.regions, Quotes(p, quotas));
    QuotesMean(p, quotas);
    forall v | OneCounter(p, quotas, v) ensures counter == Some(v) {
      OneIsQuoted(p, quotas, v);
    }
  }

  lemma QuotesMean(p: Pool, quotas: map<Region, seq<Quota>>)
    ensures forall r, c: nat, l: nat :: Quotes(p, quotas)(r) == Some((c, l)) <==> Reports(p, quotas, r, c, l)
  {
    forall r, c: nat, l: nat
      ensures Quotes(p, quotas)(r) == Some((c, l)) <==> Reports(p, quotas, r, c, l)
    {
      QuotedMeans(p, quotas, r, c, l);
    }
  }

  lemma OneIsQuoted(p: Pool, quotas: map<Region, seq<Quota>>, value: (nat, nat))
    requires OneCounter(p, quotas, value)
    ensures p.regions != [] && p.regions[0] in p.regions
    ensures forall r :: r in p.regions ==> Quotes(p, quotas)(r) == Some(value)
  {
    QuotesMean(p, quotas);
  }
}
