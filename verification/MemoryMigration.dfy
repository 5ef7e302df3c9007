// Copying legacy memories into partitioned items: parsing, writing each item
// once or checking the one already there, and starting over after being cut off.
module MemoryMigration {
  import opened Wrappers
  import opened MemoryRows

  // Documents by partition and identity.
  type Store = map<Key, Document>

  // ----- One item

  // The item already there is the one this source row would have made.
  predicate Matches(existing: Document, item: Document, hash: string -> string)
    requires item.migration.Some?
  {
    && existing.kind == "memory" && existing.user == item.user
    && existing.migration == item.migration
    && existing.text.Some? && hash(existing.text.value) == item.migration.value.textHash
    && existing.dimensions == item.dimensions
  }

  // What a migration item is: it matches itself.
  ghost predicate Proper(item: Document, hash: string -> string) {
    item.migration.Some? && item.migration.value.source == "mem0" && Matches(item, item, hash) && item.id != STATE
  }

  // ----- A run over some items, as far as it gets

  datatype Progress = Progress(store: Store, created: nat, kept: nat, failed: bool)

  function Put(p: Progress, item: Document, hash: string -> string): Progress {
    if p.failed then p
    else if item.Key() !in p.store then p.(store := p.store[item.Key() := item], created := p.created + 1)
    else if item.migration.Some? && Matches(p.store[item.Key()], item, hash) then p.(kept := p.kept + 1)
    else p.(failed := true)
  }

  function PutAll(store: Store, items: seq<Document>, hash: string -> string): Progress {
    if items == [] then Progress(store, 0, 0, false)
    else Put(PutAll(store, items[..|items|-1], hash), items[|items|-1], hash)
  }

  function Users(items: seq<Document>): set<string> {
    set i | i in items :: i.user
  }

  // No partition the run would write to has been used by the runtime.
  predicate Safe(store: Store, items: seq<Document>) {
    forall i :: i in items ==> (i.user, STATE) !in store
  }

  // The document under an item's key is the memory that its source makes.
  ghost predicate Stands(d: Document, item: Document, hash: string -> string)
    requires item.migration.Some?
  {
    && d.kind == "memory" && d.user == item.user && d.dimensions == item.dimensions
    && d.migration == item.migration && d.text.Some? && hash(d.text.value) == item.migration.value.textHash
  }

  // The target container, and the operations of the migration on it.
  class Container {
    var store: Store

    constructor (store: Store)
      ensures this.store == store
    {
      this.store := store;
    }

    method AssertSafe(users: seq<string>) returns (safe: bool)
      ensures safe <==> forall u :: u in users ==> (u, STATE) !in store
    {
      for i := 0 to |users|
        invariant forall k :: 0 <= k < i ==> (users[k], STATE) !in store
      {
        if (users[i], STATE) in store {
          return false;
        }
      }
      return true;
    }

    // Creates the item, or accepts the matching one that is there: `Ok(true)`
    // and `Ok(false)`.  Never replaces anything.
    method CreateOrVerify(item: Document, hash: string -> string) returns (r: Result<bool, string>)
      requires item.migration.Some?
      modifies this
      ensures var p := Put(Progress(old(store), 0, 0, false), item, hash);
        && store == p.store
        && (r.Err? <==> p.failed)
        && (r.Ok? ==> (r.value <==> p.created == 1) && (!r.value <==> p.kept == 1))
    {
      if item.Key() !in store {
        store := store[item.Key() := item];
        return Ok(true);
      }
      var verified := Verify(item, hash);
      return if verified then Ok(false) else Err("existing item does not match its source");
    }

    method Verify(item: Document, hash: string -> string) returns (ok: bool)
      requires item.migration.Some?
      ensures ok <==> item.Key() in store && Matches(store[item.Key()], item, hash)
      ensures ok <==> item.Key() in store && Stands(store[item.Key()], item, hash)
    {
      if item.Key() !in store {
        return false;
      }
      ok := Matches(store[item.Key()], item, hash);
    }
  }

  // ----- What a run does to the store

  ghost predicate AllProper(items: seq<Document>, hash: string -> string) {
    forall i :: i in items ==> Proper(i, hash)
  }

  // Nothing that was there is changed, and all that is new is one of the items
  // under its own key.
  ghost predicate Grown(after: Store, before: Store, items: seq<Document>) {
    && (forall k :: k in before ==> k in after && after[k] == before[k])
    && (forall k :: k in after && k !in before ==> after[k] in items && after[k].Key() == k)
  }

  lemma {:induction false} RunOnlyAdds(store: Store, items: seq<Document>, hash: string -> string)
    ensures Grown(PutAll(store, items, hash).store, store, items)
    ensures |PutAll(store, items, hash).store| == |store| + PutAll(store, items, hash).created
    ensures !PutAll(store, items, hash).failed ==> PutAll(store, items, hash).created + PutAll(store, items, hash).kept == |items|
    ensures !PutAll(store, items, hash).failed ==> forall i :: i in items ==> i.Key() in PutAll(store, items, hash).store
  {
    if items != [] {
      var prefix, item := items[..|items|-1], items[|items|-1];
      RunOnlyAdds(store, prefix, hash);
      assert items == prefix + [item];
      var p := PutAll(store, prefix, hash);
      if item.Key() !in p.store {
        assert p.store[item.Key() := item].Keys == p.store.Keys + {item.Key()};
      }
    }
  }

  // Whether a run can get through: what is already there matches, and so do items
  // that share a key which is still free.
  ghost predicate Compatible(store: Store, items: seq<Document>, hash: string -> string)
    requires AllProper(items, hash)
  {
    && (forall i :: i in items && i.Key() in store ==> Matches(store[i.Key()], i, hash))
    && (forall i, j :: i in items && j in items && i.Key() == j.Key() && i.Key() !in store ==> Matches(i, j, hash))
  }

  lemma MatchesIsEquivalence(a: Document, b: Document, c: Document, hash: string -> string)
    requires Proper(a, hash) && Proper(b, hash) && Proper(c, hash)
    ensures Matches(a, b, hash) ==> Matches(b, a, hash)
    ensures Matches(a, b, hash) && Matches(b, c, hash) ==> Matches(a, c, hash)
  {
  }

  lemma {:induction false} RunSucceedsWhenCompatible(store: Store, items: seq<Document>, hash: string -> string)
    requires AllProper(items, hash)
    ensures !PutAll(store, items, hash).failed <==> Compatible(store, items, hash)
  {
    if items != [] {
      var prefix, item := items[..|items|-1], items[|items|-1];
      assert items == prefix + [item];
      RunSucceedsWhenCompatible(store, prefix, hash);
      RunOnlyAdds(store, prefix, hash);
      CompatibleMore(store, prefix, item, PutAll(store, prefix, hash), hash);
    }
  }

  lemma CompatibleMore(store: Store, prefix: seq<Document>, item: Document, p: Progress, hash: string -> string)
    requires AllProper(prefix, hash) && Proper(item, hash)
    requires Grown(p.store, store, prefix)
    requires !p.failed <==> Compatible(store, prefix, hash)
    requires !p.failed ==> forall i :: i in prefix ==> i.Key() in p.store
    ensures !Put(p, item, hash).failed <==> Compatible(store, prefix + [item], hash)
  {
    var k, items := item.Key(), prefix + [item];
    assert forall i :: i in items <==> i in prefix || i == item;
    if Compatible(store, prefix, hash) && k in p.store && k !in store {
      var held := p.store[k];
      forall i | i in prefix && i.Key() == k
        ensures Matches(held, item, hash) <==> Matches(i, item, hash)
        ensures Matches(i, item, hash) <==> Matches(item, i, hash)
      {
        MatchesIsEquivalence(held, i, item, hash);
        MatchesIsEquivalence(i, held, item, hash);
        MatchesIsEquivalence(i, item, i, hash);
        MatchesIsEquivalence(item, i, item, hash);
      }
    }
  }

  // Rows of one user that share a target identity but not their text, such as
  // rows without any identity of their own, stop every complete run.
  lemma SharedIdentityStops(a: Memory, b: Memory, store: Store, items: seq<Document>, naming: Naming,
                            render: Memory -> string)
    requires AllProper(items, naming.hash)
    requires Build(a, naming, render) in items && Build(b, naming, render) in items
    requires a.user == b.user && naming.target(a.id) == naming.target(b.id)
    requires naming.hash(a.text) != naming.hash(b.text)
    ensures PutAll(store, items, naming.hash).failed
  {
    RunSucceedsWhenCompatible(store, items, naming.hash);
    var x, y := Build(a, naming, render), Build(b, naming, render);
    assert x.Key() == y.Key() && x.migration != y.migration;
    assert !Matches(x, y, naming.hash);
  }

  // ----- Interrupted runs

  // One run over the items in some order, cut off after some of them.
  datatype Attempt = Attempt(order: seq<Document>, cut: nat)

  ghost predicate Within(order: seq<Document>, items: seq<Document>) {
    forall i :: i in order ==> i in items
  }

  function AttemptOn(store: Store, a: Attempt, hash: string -> string): Store {
    if !Safe(store, a.order) then store
    else PutAll(store, if a.cut <= |a.order| then a.order[..a.cut] else a.order, hash).store
  }

  function AfterAttempts(store: Store, history: seq<Attempt>, hash: string -> string): Store {
    if history == [] then store
    else AttemptOn(AfterAttempts(store, history[..|history|-1], hash), history[|history|-1], hash)
  }

  lemma {:induction false} AttemptsOnlyAdd(store: Store, history: seq<Attempt>, items: seq<Document>,
                                           hash: string -> string)
    requires forall a :: a in history ==> Within(a.order, items)
    ensures Grown(AfterAttempts(store, history, hash), store, items)
  {
    if history != [] {
      var before := AfterAttempts(store, history[..|history|-1], hash);
      var a := history[|history|-1];
      AttemptsOnlyAdd(store, history[..|history|-1], items, hash);
      var part := if a.cut <= |a.order| then a.order[..a.cut] else a.order;
      RunOnlyAdds(before, part, hash);
      assert Within(part, items) by { assert a in history; }
    }
  }

  ghost predicate DistinctKeys(items: seq<Document>) {
    forall i, j :: 0 <= i < j < |items| ==> items[i].Key() != items[j].Key()
  }

  // The initial store and, for every item, exactly one document under its key:
  // what was there, or else the item.
  ghost predicate Migrated(after: Store, initial: Store, items: seq<Document>) {
    && Grown(after, initial, items)
    && (forall i :: i in items ==> i.Key() in after)
    && (DistinctKeys(items) ==> forall i :: i in items && i.Key() !in initial ==> after[i.Key()] == i)
  }

  // A complete run gets through: its partitions are unused and nothing in it
  // mismatches.
  predicate Finishes(store: Store, items: seq<Document>, hash: string -> string) {
    Safe(store, items) && !PutAll(store, items, hash).failed
  }

  // Attempts leave unused partitions unused, as no item has the identity that
  // the runtime gives its own document.
  lemma SafeSurvives(store: Store, history: seq<Attempt>, items: seq<Document>, hash: string -> string)
    requires AllProper(items, hash) && forall a :: a in history ==> Within(a.order, items)
    ensures Safe(AfterAttempts(store, history, hash), items) <==> Safe(store, items)
  {
    AttemptsOnlyAdd(store, history, items, hash);
  }

  // A complete run after any attempts has migrated everything, and another one
  // then gets through and finds everything in place.
  lemma CompleteRunMigrates(initial: Store, history: seq<Attempt>, items: seq<Document>, hash: string -> string)
    requires AllProper(items, hash)
    requires forall a :: a in history ==> Within(a.order, items)
    requires Finishes(AfterAttempts(initial, history, hash), items, hash)
    ensures var after := AttemptOn(AfterAttempts(initial, history, hash), Attempt(items, |items|), hash);
      && Migrated(after, initial, items)
      && Finishes(after, items, hash)
      && PutAll(after, items, hash) == Progress(after, 0, |items|, false)
  {
    var before := AfterAttempts(initial, history, hash);
    AttemptsOnlyAdd(initial, history, items, hash);
    RunMigrates(initial, before, items, hash);
    RunRepeats(before, items, hash);
    CompleteAttempt(before, items, hash);
  }

  lemma CompleteAttempt(before: Store, items: seq<Document>, hash: string -> string)
    requires Safe(before, items)
    ensures AttemptOn(before, Attempt(items, |items|), hash) == PutAll(before, items, hash).store
  {
    assert items[..|items|] == items;
  }

  lemma RunMigrates(initial: Store, before: Store, items: seq<Document>, hash: string -> string)
    requires Grown(before, initial, items) && !PutAll(before, items, hash).failed
    ensures Migrated(PutAll(before, items, hash).store, initial, items)
  {
    var after := PutAll(before, items, hash).store;
    RunOnlyAdds(before, items, hash);
    forall i | i in items && i.Key() !in initial && DistinctKeys(items)
      ensures after[i.Key()] == i
    {
      assert after[i.Key()] in items && after[i.Key()].Key() == i.Key();
    }
  }

  lemma RunRepeats(before: Store, items: seq<Document>, hash: string -> string)
    requires AllProper(items, hash) && Finishes(before, items, hash)
    ensures var after := PutAll(before, items, hash).store;
      Finishes(after, items, hash) && PutAll(after, items, hash) == Progress(after, 0, |items|, false)
  {
    var p := PutAll(before, items, hash);
    RunOnlyAdds(before, items, hash);
    RunSucceedsWhenCompatible(before, items, hash);
    StillCompatible(before, p.store, items, hash);
    RunSucceedsWhenCompatible(p.store, items, hash);
    NothingToCreate(p.store, items, hash);
  }

  lemma StillCompatible(before: Store, after: Store, items: seq<Document>, hash: string -> string)
    requires AllProper(items, hash) && Compatible(before, items, hash) && Grown(after, before, items)
    ensures Compatible(after, items, hash)
  {
  }

  lemma {:induction false} NothingToCreate(store: Store, items: seq<Document>, hash: string -> string)
    requires forall i :: i in items ==> i.Key() in store
    ensures PutAll(store, items, hash).store == store && PutAll(store, items, hash).created == 0
    ensures !PutAll(store, items, hash).failed ==> PutAll(store, items, hash).kept == |items|
  {
    if items != [] {
      NothingToCreate(store, items[..|items|-1], hash);
    }
  }

  // Attempts cut off on the way never change whether a complete run gets through.
  lemma AttemptsAreHarmless(initial: Store, history: seq<Attempt>, items: seq<Document>, hash: string -> string)
    requires AllProper(items, hash)
    requires forall a :: a in history ==> Within(a.order, items)
    ensures Finishes(AfterAttempts(initial, history, hash), items, hash) <==> Finishes(initial, items, hash)
    ensures PutAll(AfterAttempts(initial, history, hash), items, hash).failed <==> PutAll(initial, items, hash).failed
  {
    var before := AfterAttempts(initial, history, hash);
    SafeSurvives(initial, history, items, hash);
    AttemptsOnlyAdd(initial, history, items, hash);
    RunSucceedsWhenCompatible(initial, items, hash);
    RunSucceedsWhenCompatible(before, items, hash);
    if Compatible(initial, items, hash) {
      StillCompatible(initial, before, items, hash);
    }
    if Compatible(before, items, hash) {
      forall i, j | i in items && j in items && i.Key() == j.Key() && i.Key() !in initial && i.Key() in before
        ensures Matches(i, j, hash)
      {
        var held := before[i.Key()];
        MatchesIsEquivalence(held, i, j, hash);
        MatchesIsEquivalence(i, held, j, hash);
      }
    }
  }

  // ----- Counting a partition

  predicate Legacy(d: Document) {
    d.kind == "memory" && d.migration.Some? && d.migration.value.source == "mem0"
  }

  // A document that is no memory, or was not migrated from the old store, counts
  // in no partition, and any other in its own alone.
  lemma LegacyCounts(store: Store, k: Key, d: Document, user: string)
    requires k !in store
    ensures var counts := k.0 == user && d.kind == "memory" && d.migration.Some? && d.migration.value.source == "mem0";
      LegacyKeys(store[k := d], user) == LegacyKeys(store, user) + if counts then {k} else {}
  {
  }

  function LegacyKeys(store: Store, user: string): set<Key> {
    set k | k in store && k.0 == user && Legacy(store[k])
  }

  function Occurrences(items: seq<Document>, user: string): nat {
    if items == [] then 0
    else Occurrences(items[..|items|-1], user) + (if items[|items|-1].user == user then 1 else 0)
  }

  function KeysIn(items: seq<Document>, user: string): set<Key> {
    if items == [] then {}
    else KeysIn(items[..|items|-1], user) + (if items[|items|-1].user == user then {items[|items|-1].Key()} else {})
  }

  lemma {:induction false} KeysInMeans(items: seq<Document>, user: string, k: Key)
    ensures k in KeysIn(items, user) <==> exists i :: i in items && i.user == user && i.Key() == k
  {
    if items != [] {
      var prefix, last := items[..|items|-1], items[|items|-1];
      KeysInMeans(prefix, user, k);
      assert items == prefix + [last];
      if last.user == user && last.Key() == k {
        assert last in items;
      }
    }
  }

  // Fewer keys than items exactly when two items of the user share one.
  ghost predicate DistinctFor(items: seq<Document>, user: string) {
    forall i, j :: 0 <= i < j < |items| && items[i].user == user && items[j].user == user ==> items[i].Key() != items[j].Key()
  }

  // One more item is no duplicate when the user's earlier items lack its key.
  lemma DistinctForOneMore(prefix: seq<Document>, last: Document, user: string)
    ensures DistinctFor(prefix + [last], user)
       <==> DistinctFor(prefix, user) && (last.user == user ==> last.Key() !in KeysIn(prefix, user))
  {
    var items := prefix + [last];
    KeysInMeans(prefix, user, last.Key());
    assert forall k :: 0 <= k < |prefix| ==> items[k] == prefix[k] && prefix[k] in prefix;
    if last.user == user && last.Key() in KeysIn(prefix, user) {
      var k :| 0 <= k < |prefix| && prefix[k].user == user && prefix[k].Key() == last.Key();
      assert items[k].Key() == items[|prefix|].Key();
    }
  }

  lemma {:induction false} KeysCount(items: seq<Document>, user: string)
    ensures |KeysIn(items, user)| <= Occurrences(items, user)
    ensures |KeysIn(items, user)| == Occurrences(items, user) <==> DistinctFor(items, user)
  {
    if items != [] {
      var prefix, last := items[..|items|-1], items[|items|-1];
      KeysCount(prefix, user);
      DistinctForOneMore(prefix, last, user);
      assert items == prefix + [last];
      if last.user == user && last.Key() in KeysIn(prefix, user) {
        assert KeysIn(items, user) == KeysIn(prefix, user);
      }
    }
  }

  lemma DistinctForAll(items: seq<Document>)
    ensures DistinctKeys(items) <==> forall user :: user in Users(items) ==> DistinctFor(items, user)
  {
    forall i, j | 0 <= i < j < |items| && items[i].Key() == items[j].Key()
      ensures !DistinctFor(items, items[i].user) && items[i].user in Users(items)
    {
      assert items[i] in items;
    }
  }

  // After a complete migration into partitions without legacy items, the count
  // of every partition is that of its source rows exactly when no two of them
  // share a key: the check finds every duplicate, and nothing else.
  lemma CountsFindDuplicates(initial: Store, after: Store, items: seq<Document>, hash: string -> string)
    requires AllProper(items, hash) && Compatible(initial, items, hash) && Migrated(after, initial, items)
    requires forall user :: user in Users(items) ==> LegacyKeys(initial, user) == {}
    ensures (forall user :: user in Users(items) ==> |LegacyKeys(after, user)| == Occurrences(items, user)) <==> DistinctKeys(items)
  {
    forall i | i in items
      ensures i.Key() in initial ==> i.Key() in LegacyKeys(initial, i.user)
    {
    }
    forall user | user in Users(items)
      ensures |LegacyKeys(after, user)| == Occurrences(items, user) <==> DistinctFor(items, user)
    {
      KeysCount(items, user);
      LegacyAreItems(initial, after, items, user);
    }
    DistinctForAll(items);
  }

  lemma LegacyAreItems(initial: Store, after: Store, items: seq<Document>, user: string)
    requires forall i :: i in items ==> Legacy(i) && i.Key() !in initial
    requires Migrated(after, initial, items)
    requires LegacyKeys(initial, user) == {}
    ensures LegacyKeys(after, user) == KeysIn(items, user)
  {
    forall k
      ensures k in LegacyKeys(after, user) <==> k in KeysIn(items, user)
    {
      KeysInMeans(items, user, k);
      assert k in LegacyKeys(after, user) && k in initial ==> k in LegacyKeys(initial, user);
    }
  }

  // ----- The migration

  datatype Counters = Counters(scanned: nat, quarantined: nat, valid: nat, created: nat, kept: nat, verified: nat, recalled: nat)

  datatype Ending = Finished | Died | Failed(problem: string)

  lemma {:induction false} ItemsAreProper(rows: seq<SourceRow>, parse: SourceRow -> Parsed, build: Memory -> Document,
                                          hash: string -> string)
    requires forall m :: Proper(build(m), hash)
    ensures AllProper(ItemsOf(rows, parse, build), hash)
  {
    if rows != [] {
      ItemsAreProper(rows[..|rows|-1], parse, build, hash);
    }
  }

  method UserList(items: seq<Document>) returns (users: seq<string>)
    ensures forall u :: u in users <==> u in Users(items)
  {
    users := [];
    for i := 0 to |items|
      invariant forall u :: u in users <==> u in Users(items[..i])
    {
      assert items[..i+1] == items[..i] + [items[i]];
      if items[i].user !in users {
        users := users + [items[i].user];
      }
    }
    assert items[..|items|] == items;
  }

  // The rows' items, quarantine and counts; `None` when a row ends the run.
  method ParseRows(rows: seq<SourceRow>, parse: SourceRow -> Parsed, build: Memory -> Document)
    returns (items: Option<seq<Document>>, quarantine: seq<(string, string)>, counters: Counters)
    ensures items.Some? <==> forall r :: r in rows ==> !parse(r).Aborted?
    ensures items.Some? ==>
      && items.value == ItemsOf(rows, parse, build) && quarantine == SetAside(rows, parse)
      && counters == Counters(|rows|, |quarantine|, |items.value|, 0, 0, 0, 0) && |rows| == |items.value| + |quarantine|
  {
    var found: seq<Document> := [];
    quarantine := [];
    counters := Counters(0, 0, 0, 0, 0, 0, 0);
    for i := 0 to |rows|
      invariant forall r :: r in rows[..i] ==> !parse(r).Aborted?
      invariant found == ItemsOf(rows[..i], parse, build) && quarantine == SetAside(rows[..i], parse)
      invariant counters == Counters(i, |quarantine|, |found|, 0, 0, 0, 0) && i == |found| + |quarantine|
    {
      assert rows[..i+1] == rows[..i] + [rows[i]] && rows[..i+1][..i] == rows[..i];
      assert rows[i] in rows;
      match parse(rows[i])
      case Aborted => return None, quarantine, counters;
      case Quarantined(idHash, reason) =>
        quarantine := quarantine + [(idHash, reason)];
        counters := counters.(scanned := counters.scanned + 1, quarantined := counters.quarantined + 1);
      case Accepted(m) =>
        found := found + [build(m)];
        counters := counters.(scanned := counters.scanned + 1, valid := counters.valid + 1);
    }
    assert rows[..|rows|] == rows;
    items := Some(found);
  }

  // Once a run has failed it changes nothing more.
  lemma {:induction false} FailureLasts(store: Store, items: seq<Document>, i: nat, hash: string -> string)
    requires i <= |items| && PutAll(store, items[..i], hash).failed
    ensures PutAll(store, items, hash) == PutAll(store, items[..i], hash)
  {
    if i == |items| {
      assert items[..i] == items;
    } else {
      assert items[..|items|-1][..i] == items[..i];
      FailureLasts(store, items[..|items|-1], i, hash);
    }
  }

  // Writes items one after the other until one of them fails.
  method WriteItems(container: Container, items: seq<Document>, hash: string -> string)
    returns (problem: Option<string>, created: nat, kept: nat)
    requires AllProper(items, hash)
    modifies container
    ensures problem.Some? <==> PutAll(old(container.store), items, hash).failed
    ensures container.store == PutAll(old(container.store), items, hash).store
    ensures PutAll(old(container.store), items, hash) == Progress(container.store, created, kept, problem.Some?)
  {
    created, kept := 0, 0;
    for i := 0 to |items|
      invariant PutAll(old(container.store), items[..i], hash) == Progress(container.store, created, kept, false)
    {
      assert items[..i+1][..i] == items[..i] && items[i] in items;
      var written := container.CreateOrVerify(items[i], hash);
      if written.Err? {
        FailureLasts(old(container.store), items, i + 1, hash);
        return Some(written.error), created, kept;
      }
      if written.value {
        created := created + 1;
      } else {
        kept := kept + 1;
      }
    }
    assert items[..|items|] == items;
    problem := None;
  }

  // Applies the items to partitions the runtime has not used, dying after `cut`
  // of them.
  method Apply(container: Container, items: seq<Document>, hash: string -> string, cut: nat)
    returns (ending: Ending, created: nat, kept: nat)
    requires AllProper(items, hash)
    modifies container
    ensures container.store == AttemptOn(old(container.store), Attempt(items, cut), hash)
    ensures ending.Finished? <==>
      Finishes(old(container.store), items, hash) && cut >= |items|
    ensures ending.Finished? ==> PutAll(old(container.store), items, hash) == Progress(container.store, created, kept, false)
    ensures !Safe(old(container.store), items) ==> ending.Failed? && created == 0 == kept
    ensures |container.store| == |old(container.store)| + created
  {
    var users := UserList(items);
    var safe := container.AssertSafe(users);
    if !safe {
      return Failed("target partition has runtime memory state"), 0, 0;
    }
    var problem;
    problem, created, kept := WriteItems(container, if cut <= |items| then items[..cut] else items, hash);
    assert cut == |items| ==> items[..cut] == items;
    RunOnlyAdds(old(container.store), if cut <= |items| then items[..cut] else items, hash);
    ending := if problem.Some? then Failed(problem.value) else if cut < |items| then Died else Finished;
  }

  // What verification looks for: every item as its source made it, and in every
  // partition as many legacy items as source rows.
  ghost predicate Matched(store: Store, items: seq<Document>, hash: string -> string)
    requires AllProper(items, hash)
  {
    && (forall i :: i in items ==> i.Key() in store && Matches(store[i.Key()], i, hash))
    && (forall user :: user in Users(items) ==> |LegacyKeys(store, user)| == Occurrences(items, user))
  }

  // The number of items whose recall is sampled.
  function Sampled(items: seq<Document>, samples: int): nat {
    if samples < 0 then 0 else if samples < |items| then samples else |items|
  }

  // Checks every item against the store, every partition against its count, and
  // for some of the items that a search finds them.
  method VerifyAll(container: Container, items: seq<Document>, hash: string -> string, samples: int,
                   recall: Document -> bool)
    returns (ok: bool, verified: nat, recalled: nat)
    requires AllProper(items, hash)
    ensures ok <==> Matched(container.store, items, hash) && forall i :: i in items[..Sampled(items, samples)] ==> recall(i)
    ensures ok ==> verified == |items| && recalled == Sampled(items, samples)
  {
    recalled := 0;
    ok, verified := VerifyItems(container, items, hash);
    if !ok {
      return;
    }
    for i := 0 to Sampled(items, samples)
      invariant recalled == i && forall k :: 0 <= k < i ==> recall(items[k])
    {
      if !recall(items[i]) {
        assert items[..Sampled(items, samples)][i] in items[..Sampled(items, samples)];
        return false, verified, recalled;
      }
      recalled := recalled + 1;
    }
  }

  method VerifyItems(container: Container, items: seq<Document>, hash: string -> string)
    returns (ok: bool, verified: nat)
    requires AllProper(items, hash)
    ensures ok <==> Matched(container.store, items, hash)
    ensures ok ==> verified == |items|
  {
    verified := 0;
    for i := 0 to |items|
      invariant verified == i
      invariant forall k :: 0 <= k < i ==>
        items[k].migration.Some? && items[k].Key() in container.store && Matches(container.store[items[k].Key()], items[k], hash)
    {
      assert items[i] in items;
      var same := container.Verify(items[i], hash);
      if !same {
        return false, verified;
      }
      verified := verified + 1;
    }
    ok := VerifyCounts(container, items);
  }

  method VerifyCounts(container: Container, items: seq<Document>) returns (ok: bool)
    ensures ok <==> forall user :: user in Users(items) ==> |LegacyKeys(container.store, user)| == Occurrences(items, user)
  {
    var users := UserList(items);
    for u := 0 to |users|
      invariant forall k :: 0 <= k < u ==> |LegacyKeys(container.store, users[k])| == Occurrences(items, users[k])
    {
      if |LegacyKeys(container.store, users[u])| != Occurrences(items, users[u]) {
        assert users[u] in Users(items);
        return false;
      }
    }
    ok := true;
  }

  ghost predicate AddsUp(counters: Counters, rows: nat, items: nat, quarantined: nat) {
    && counters.scanned == rows == counters.valid + counters.quarantined
    && counters.quarantined == quarantined && counters.valid == items
  }

  // One migration of `rows`, which writes when `apply` says so and may die on
  // the way.  It finishes exactly when every row can be read, the writes get
  // through and what is then in the store verifies; `counters` add up, and a
  // run that does not write changes nothing.
  method Migrate(container: Container, rows: seq<SourceRow>, apply: bool, verify: bool, dimensions: nat,
                 strip: string -> string, naming: Naming, render: Memory -> string, cut: nat,
                 samples: int, recall: Document -> bool)
    returns (ending: Ending, counters: Counters, quarantine: seq<(string, string)>)
    requires naming.Valid()
    modifies container
    ensures var items := ItemsOf(rows, Parser(dimensions, strip, naming), Builder(naming, render));
      && AllProper(items, naming.hash) && Mirrors(items, rows, dimensions, strip, naming, render)
      && container.store == (if apply && !Unreadable(rows, dimensions, strip, naming)
                             then AttemptOn(old(container.store), Attempt(items, cut), naming.hash) else old(container.store))
      && (ending.Finished? <==>
        && !Unreadable(rows, dimensions, strip, naming)
        && (apply ==> Finishes(old(container.store), items, naming.hash) && cut >= |items|)
        && (verify ==> Matched(container.store, items, naming.hash)
                       && forall i :: i in items[..Sampled(items, samples)] ==> recall(i)))
      && (ending.Finished? ==>
        && Quarantines(quarantine, rows, dimensions, strip, naming)
        && AddsUp(counters, |rows|, |items|, |quarantine|)
        && (apply ==> counters.valid == counters.created + counters.kept)
        && (apply ==> PutAll(old(container.store), items, naming.hash) == Progress(container.store, counters.created, counters.kept, false))
        && (verify ==> counters.verified == counters.valid && counters.recalled == Sampled(items, samples)))
  {
    var parsed;
    parsed, quarantine, counters := ParseRows(rows, Parser(dimensions, strip, naming), Builder(naming, render));
    ItemsAreProper(rows, Parser(dimensions, strip, naming), Builder(naming, render), naming.hash);
    ItemsMirror(rows, dimensions, strip, naming, render);
    SomeAborted(rows, dimensions, strip, naming);
    if parsed.None? {
      return Failed("unreadable row"), counters, quarantine;
    }
    AsideQuarantines(rows, dimensions, strip, naming);
    var items := parsed.value;
    ending := Finished;
    if apply {
      var created, kept;
      ending, created, kept := Apply(container, items, naming.hash, cut);
      counters := counters.(created := created, kept := kept);
      RunOnlyAdds(old(container.store), items, naming.hash);
      if !ending.Finished? {
        return;
      }
    }
    if verify {
      var ok, verified, recalled := VerifyAll(container, items, naming.hash, samples, recall);
      if !ok {
        return Failed("target does not match the source"), counters, quarantine;
      }
      counters := counters.(verified := verified, recalled := recalled);
    }
  }
}
