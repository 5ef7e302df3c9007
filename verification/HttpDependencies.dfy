// The conditional dependency closure of a uv lock: a worklist fixpoint that
// gives each package reached from the direct requirements the markers under
// which it is needed.
module HttpDependencies {
  import opened Wrappers
  import opened MarkerConditions

  type Name = string

  const REGISTRY := "https://pypi.org/simple"

  // `marker` is the lock's optional marker; `extraFields` says that the entry
  // carries a key other than name and marker.
  datatype Dependency = Dependency(name: Name, marker: Option<Marker>, extraFields: bool)

  // `registry` is the URL when the source is a registry and nothing else.
  datatype Package = Package(name: Name, registry: Option<string>, dependencies: seq<Dependency>)

  type Graph = map<Name, Package>

  datatype LockError =
    | DuplicateEntry(name: Name)
    | Absent(name: Name)
    | NotPublic(name: Name)
    | UnsupportedEdge(name: Name)

  datatype Entry = Entry(name: Name, condition: Condition)

  // ----- The specification: walks through the lock

  function EdgeMarkers(d: Dependency): Clause {
    if d.marker.Some? && d.marker.value != "" then {d.marker.value} else {}
  }

  datatype Walk = Start(name: Name) | Via(prefix: Walk, edge: Dependency) {
    function End(): Name {
      match this
      case Start(n) => n
      case Via(_, d) => d.name
    }

    // The markers that must all hold for this walk to be taken.
    function Markers(): Clause {
      match this
      case Start(_) => {}
      case Via(w, d) => w.Markers() + EdgeMarkers(d)
    }
  }

  ghost predicate IsWalk(g: Graph, direct: seq<Name>, w: Walk) {
    match w
    case Start(n) => n in direct
    case Via(p, d) => IsWalk(g, direct, p) && p.End() in g && d in g[p.End()].dependencies
  }

  // Some walk to `name` needs exactly the markers `clause`.
  ghost predicate WalkClause(g: Graph, direct: seq<Name>, name: Name, clause: Clause) {
    exists w :: IsWalk(g, direct, w) && w.End() == name && w.Markers() == clause
  }

  ghost predicate Reached(g: Graph, direct: seq<Name>, name: Name) {
    exists w :: IsWalk(g, direct, w) && w.End() == name
  }

  // `name` can be reached along edges whose markers all hold.
  ghost predicate ReachedUnder(g: Graph, direct: seq<Name>, name: Name, truth: set<Marker>) {
    exists w :: IsWalk(g, direct, w) && w.End() == name && w.Markers() <= truth
  }

  // The condition consists of the inclusion-minimal marker sets over all walks.
  ghost predicate Exact(g: Graph, direct: seq<Name>, name: Name, condition: Condition) {
    forall c :: c in condition <==>
      WalkClause(g, direct, name, c) && !exists b :: b < c && WalkClause(g, direct, name, b)
  }

  ghost predicate Usable(g: Graph, name: Name) {
    && name in g
    && g[name].registry == Some(REGISTRY)
    && forall d :: d in g[name].dependencies ==> !d.extraFields
  }

  ghost predicate Distinct(lock: seq<Package>) {
    forall i, j :: 0 <= i < j < |lock| ==> lock[i].name != lock[j].name
  }

  // The lock's packages by name.
  function GraphOf(lock: seq<Package>): Graph {
    if lock == [] then map[]
    else GraphOf(lock[..|lock|-1])[lock[|lock|-1].name := lock[|lock|-1]]
  }

  // A lock `closure` must accept.
  ghost predicate ValidLock(lock: seq<Package>, direct: seq<Name>) {
    Distinct(lock) && forall n :: Reached(GraphOf(lock), direct, n) ==> Usable(GraphOf(lock), n)
  }

  // Under every truth assignment, an exact condition holds exactly when the
  // package is reachable along edges whose markers hold.
  lemma ExactMeaning(g: Graph, direct: seq<Name>, name: Name, condition: Condition, truth: set<Marker>)
    requires Exact(g, direct, name, condition)
    ensures Holds(condition, truth) <==> ReachedUnder(g, direct, name, truth)
  {
    if w :| IsWalk(g, direct, w) && w.End() == name && w.Markers() <= truth {
      var m := MinimalWalkClause(g, direct, name, w.Markers());
      assert m in condition;
    }
  }

  lemma {:induction false} MinimalWalkClause(g: Graph, direct: seq<Name>, name: Name, clause: Clause)
    returns (m: Clause)
    requires WalkClause(g, direct, name, clause)
    ensures m <= clause && WalkClause(g, direct, name, m)
    ensures !exists b :: b < m && WalkClause(g, direct, name, b)
    decreases clause
  {
    if b :| b < clause && WalkClause(g, direct, name, b) {
      m := MinimalWalkClause(g, direct, name, b);
    } else {
      m := clause;
    }
  }

  // ----- The worklist

  datatype Work = Work(needed: map<Name, Condition>, pending: seq<Entry>)

  function Known(needed: map<Name, Condition>, name: Name): Condition {
    if name in needed then needed[name] else {}
  }

  ghost predicate Queued(pending: seq<Entry>, name: Name, clause: Clause) {
    exists e :: e in pending && e.name == name && Covers(e.condition, clause)
  }

  ghost predicate Accounted(w: Work, name: Name, clause: Clause) {
    Covers(Known(w.needed, name), clause) || Queued(w.pending, name, clause)
  }

  // Every condition kept or queued is made of clauses of real walks.
  ghost predicate Sound(g: Graph, direct: seq<Name>, w: Work) {
    && (forall n, c :: n in w.needed && c in w.needed[n] ==> WalkClause(g, direct, n, c))
    && (forall e, c :: e in w.pending && c in e.condition ==> WalkClause(g, direct, e.name, c))
  }

  ghost predicate Canonical(w: Work) {
    && (forall n :: n in w.needed ==> w.needed[n] != {} && Antichain(w.needed[n]))
    && (forall e :: e in w.pending ==> e.condition != {})
  }

  // Whatever is kept has been, or is about to be, pushed along every edge.
  ghost predicate Closed(g: Graph, direct: seq<Name>, w: Work) {
    && (forall n :: n in direct ==> Accounted(w, n, {}))
    && (forall n, c, d :: n in w.needed && c in w.needed[n] && n in g && d in g[n].dependencies
          ==> Accounted(w, d.name, c + EdgeMarkers(d)))
  }

  ghost predicate Invariant(g: Graph, direct: seq<Name>, w: Work) {
    && Sound(g, direct, w)
    && Canonical(w)
    && Closed(g, direct, w)
    && forall n :: n in w.needed ==> Usable(g, n)
  }

  function InitialWork(direct: seq<Name>): Work {
    Work(map[], seq(|direct|, i requires 0 <= i < |direct| => Entry(direct[i], ALWAYS)))
  }

  function Edge(d: Dependency): Condition {
    if d.marker.Some? && d.marker.value != "" then {{d.marker.value}} else ALWAYS
  }

  // The entries one package pushes once `merged` is known for it.
  function Pushed(dependencies: seq<Dependency>, merged: Condition): seq<Entry> {
    seq(|dependencies|, i requires 0 <= i < |dependencies| =>
      Entry(dependencies[i].name, Both(merged, Edge(dependencies[i]))))
  }

  function Without(pending: seq<Entry>, i: nat): seq<Entry>
    requires i < |pending|
  {
    pending[..i] + pending[i+1..]
  }

  // Processing the queued entry at index `i`, whichever one it is.
  function Process(g: Graph, w: Work, i: nat): Work
    requires i < |w.pending|
  {
    var e := w.pending[i];
    var rest := Without(w.pending, i);
    var merged := Simplify(Known(w.needed, e.name) + e.condition);
    if merged == Known(w.needed, e.name) then Work(w.needed, rest)
    else if e.name in g then
      Work(w.needed[e.name := merged], rest + Pushed(g[e.name].dependencies, merged))
    else Work(w.needed[e.name := merged], rest)
  }

  lemma InitialInvariant(g: Graph, direct: seq<Name>)
    ensures Invariant(g, direct, InitialWork(direct))
  {
    var w := InitialWork(direct);
    forall e, c | e in w.pending && c in e.condition
      ensures WalkClause(g, direct, e.name, c)
    {
      assert IsWalk(g, direct, Start(e.name)) && Start(e.name).Markers() == c;
    }
    forall n | n in direct
      ensures Accounted(w, n, {})
    {
      var i :| 0 <= i < |direct| && direct[i] == n;
      assert w.pending[i] == Entry(n, ALWAYS) && {} in ALWAYS;
      assert Covers(ALWAYS, {});
    }
  }

  // Nothing accounted for is lost: a clause the removed entry covered is now
  // covered by what is known.
  lemma ProcessKeepsAccounted(g: Graph, w: Work, i: nat, name: Name, clause: Clause)
    requires i < |w.pending|
    requires Accounted(w, name, clause)
    ensures Accounted(Process(g, w, i), name, clause)
  {
    var e := w.pending[i];
    var after := Process(g, w, i);
    var union := Known(w.needed, e.name) + e.condition;
    SimplifyCovers(union, clause);
    if Covers(Known(w.needed, name), clause) {
      assert name == e.name ==> Covers(union, clause);
    } else {
      var q :| q in w.pending && q.name == name && Covers(q.condition, clause);
      if q == e {
        assert Covers(union, clause);
        assert Covers(Known(after.needed, name), clause);
      } else {
        assert q in after.pending;
      }
    }
  }

  lemma PushedSound(g: Graph, direct: seq<Name>, name: Name, merged: Condition, q: Entry, c: Clause)
    requires name in g && q in Pushed(g[name].dependencies, merged) && c in q.condition
    requires forall a :: a in merged ==> WalkClause(g, direct, name, a)
    ensures WalkClause(g, direct, q.name, c)
  {
    var d :| d in g[name].dependencies && q == Entry(d.name, Both(merged, Edge(d)));
    var a, b :| a in merged && b in Edge(d) && c == a + b;
    var walk :| IsWalk(g, direct, walk) && walk.End() == name && walk.Markers() == a;
    assert IsWalk(g, direct, Via(walk, d)) && Via(walk, d).Markers() == c;
  }

  lemma ProcessSound(g: Graph, direct: seq<Name>, w: Work, i: nat)
    requires i < |w.pending| && Sound(g, direct, w)
    ensures Sound(g, direct, Process(g, w, i))
  {
    var e := w.pending[i];
    var merged := Simplify(Known(w.needed, e.name) + e.condition);
    forall c | c in merged
      ensures WalkClause(g, direct, e.name, c)
    {
      assert e in w.pending;
    }
    if e.name in g {
      forall q, c | q in Pushed(g[e.name].dependencies, merged) && c in q.condition
        ensures WalkClause(g, direct, q.name, c)
      {
        PushedSound(g, direct, e.name, merged, q, c);
      }
    }
  }

  lemma BothNonempty(left: Condition, right: Condition)
    requires left != {} && right != {}
    ensures Both(left, right) != {}
  {
    var a :| a in left;
    var b :| b in right;
    var products := set x, y | x in left && y in right :: x + y;
    assert a + b in products;
    var m := MinimalBelow(products, a + b);
  }

  lemma ProcessCanonical(g: Graph, w: Work, i: nat)
    requires i < |w.pending| && Canonical(w)
    ensures Canonical(Process(g, w, i))
  {
    var e := w.pending[i];
    var union := Known(w.needed, e.name) + e.condition;
    var merged := Simplify(union);
    var c :| c in e.condition;
    var m := MinimalBelow(union, c);
    assert merged != {};
    if e.name in g {
      forall q | q in Pushed(g[e.name].dependencies, merged)
        ensures q.condition != {}
      {
        var d :| d in g[e.name].dependencies && q == Entry(d.name, Both(merged, Edge(d)));
        BothNonempty(merged, Edge(d));
      }
    }
  }

  lemma PushedCovers(dependencies: seq<Dependency>, merged: Condition, d: Dependency, c: Clause)
    requires d in dependencies && c in merged
    ensures Queued(Pushed(dependencies, merged), d.name, c + EdgeMarkers(d))
  {
    var i :| 0 <= i < |dependencies| && dependencies[i] == d;
    var q := Pushed(dependencies, merged)[i];
    assert EdgeMarkers(d) in Edge(d);
    BothCovers(merged, Edge(d), c + EdgeMarkers(d));
  }

  lemma ProcessClosed(g: Graph, direct: seq<Name>, w: Work, i: nat)
    requires i < |w.pending| && Closed(g, direct, w)
    ensures Closed(g, direct, Process(g, w, i))
  {
    var e := w.pending[i];
    var after := Process(g, w, i);
    forall n | n in direct
      ensures Accounted(after, n, {})
    {
      ProcessKeepsAccounted(g, w, i, n, {});
    }
    forall n, c, d | n in after.needed && c in after.needed[n] && n in g && d in g[n].dependencies
      ensures Accounted(after, d.name, c + EdgeMarkers(d))
    {
      if n in w.needed && c in w.needed[n] {
        ProcessKeepsAccounted(g, w, i, d.name, c + EdgeMarkers(d));
      } else {
        var merged := after.needed[n];
        PushedCovers(g[n].dependencies, merged, d, c);
        var q :| q in Pushed(g[n].dependencies, merged) && q.name == d.name && Covers(q.condition, c + EdgeMarkers(d));
        assert q in after.pending;
      }
    }
  }

  // Every step keeps the invariant, whichever queued entry it takes, provided
  // the package it opens is usable.
  lemma ProcessKeepsInvariant(g: Graph, direct: seq<Name>, w: Work, i: nat)
    requires i < |w.pending| && Invariant(g, direct, w)
    requires Process(g, w, i).needed != w.needed ==> Usable(g, w.pending[i].name)
    ensures Invariant(g, direct, Process(g, w, i))
  {
    ProcessSound(g, direct, w, i);
    ProcessCanonical(g, w, i);
    ProcessClosed(g, direct, w, i);
  }

  // ----- At the end of the work

  lemma {:induction false} WalksCovered(g: Graph, direct: seq<Name>, w: Work, walk: Walk)
    requires Invariant(g, direct, w) && w.pending == []
    requires IsWalk(g, direct, walk)
    ensures walk.End() in w.needed && Covers(w.needed[walk.End()], walk.Markers())
  {
    match walk
    case Start(n) =>
      assert Accounted(w, n, {});
    case Via(p, d) =>
      WalksCovered(g, direct, w, p);
      var c :| c in w.needed[p.End()] && c <= p.Markers();
      assert Accounted(w, d.name, c + EdgeMarkers(d));
      var b :| b in Known(w.needed, d.name) && b <= c + EdgeMarkers(d);
  }

  lemma FinalExact(g: Graph, direct: seq<Name>, w: Work, name: Name)
    requires Invariant(g, direct, w) && w.pending == []
    ensures name in w.needed <==> Reached(g, direct, name)
    ensures name in w.needed ==> Exact(g, direct, name, w.needed[name])
  {
    if walk :| IsWalk(g, direct, walk) && walk.End() == name {
      WalksCovered(g, direct, w, walk);
    }
    if name in w.needed {
      var some :| some in w.needed[name];
      assert WalkClause(g, direct, name, some);
      forall c
        ensures c in w.needed[name] <==>
          WalkClause(g, direct, name, c) && !exists b :: b < c && WalkClause(g, direct, name, b)
      {
        MinimalIffKept(g, direct, w, name, c);
      }
    }
  }

  lemma WalkClauseCovered(g: Graph, direct: seq<Name>, w: Work, name: Name, c: Clause)
    requires Invariant(g, direct, w) && w.pending == [] && name in w.needed
    requires WalkClause(g, direct, name, c)
    ensures Covers(w.needed[name], c)
  {
    var walk :| IsWalk(g, direct, walk) && walk.End() == name && walk.Markers() == c;
    WalksCovered(g, direct, w, walk);
  }

  lemma KeptIsMinimal(g: Graph, direct: seq<Name>, w: Work, name: Name, c: Clause, b: Clause)
    requires Invariant(g, direct, w) && w.pending == [] && name in w.needed
    requires c in w.needed[name] && b <= c && WalkClause(g, direct, name, b)
    ensures b == c
  {
    WalkClauseCovered(g, direct, w, name, b);
    var k :| k in w.needed[name] && k <= b;
    assert k <= c;
  }

  lemma MinimalIffKept(g: Graph, direct: seq<Name>, w: Work, name: Name, c: Clause)
    requires Invariant(g, direct, w) && w.pending == [] && name in w.needed
    ensures c in w.needed[name] <==>
      WalkClause(g, direct, name, c) && !exists b :: b < c && WalkClause(g, direct, name, b)
  {
    if c in w.needed[name] {
      forall b | b <= c && WalkClause(g, direct, name, b)
        ensures b == c
      {
        KeptIsMinimal(g, direct, w, name, c, b);
      }
    } else if WalkClause(g, direct, name, c) {
      WalkClauseCovered(g, direct, w, name, c);
      var k :| k in w.needed[name] && k <= c;
      assert k != c;
      assert k < c && WalkClause(g, direct, name, k);
    }
  }

  // ----- Whatever order the entries are taken in

  // One step of the worklist that takes the entry at any index.
  ghost predicate Next(g: Graph, w: Work, after: Work) {
    exists i: nat :: i < |w.pending| && after == Process(g, w, i)
  }

  ghost predicate Run(g: Graph, direct: seq<Name>, run: seq<Work>) {
    && run != []
    && run[0] == InitialWork(direct)
    && forall k :: 0 <= k < |run| - 1 ==> Next(g, run[k], run[k+1])
  }

  lemma {:induction false} RunSound(g: Graph, direct: seq<Name>, run: seq<Work>)
    requires Run(g, direct, run)
    requires forall n :: Reached(g, direct, n) ==> Usable(g, n)
    ensures Invariant(g, direct, run[|run|-1])
    decreases |run|
  {
    if |run| == 1 {
      InitialInvariant(g, direct);
    } else {
      var prefix := run[..|run|-1];
      RunSound(g, direct, prefix);
      var w := prefix[|prefix|-1];
      assert Next(g, run[|run|-2], run[|run|-1]);
      var i: nat :| i < |w.pending| && run[|run|-1] == Process(g, w, i);
      var c :| c in w.pending[i].condition;
      assert WalkClause(g, direct, w.pending[i].name, c);
      ProcessKeepsInvariant(g, direct, w, i);
    }
  }

  // Any two complete runs, whatever order each takes, end with the same
  // conditions for the same packages.
  lemma OrderIndependent(g: Graph, direct: seq<Name>, r1: seq<Work>, r2: seq<Work>)
    requires Run(g, direct, r1) && Run(g, direct, r2)
    requires forall n :: Reached(g, direct, n) ==> Usable(g, n)
    requires r1[|r1|-1].pending == [] && r2[|r2|-1].pending == []
    ensures r1[|r1|-1].needed == r2[|r2|-1].needed
  {
    RunSound(g, direct, r1);
    RunSound(g, direct, r2);
    var a, b := r1[|r1|-1], r2[|r2|-1];
    forall n
      ensures n in a.needed <==> n in b.needed
      ensures n in a.needed ==> a.needed[n] == b.needed[n]
    {
      FinalExact(g, direct, a, n);
      FinalExact(g, direct, b, n);
    }
  }

  // ----- Termination, on cyclic graphs too

  ghost function MarkersOf(dependencies: set<Dependency>): Clause {
    set d, m | d in dependencies && m in EdgeMarkers(d) :: m
  }

  ghost function AllEdges(g: Graph): set<Dependency> {
    set n, d | n in g && d in g[n].dependencies :: d
  }

  ghost function AllNames(g: Graph, direct: seq<Name>): set<Name> {
    (set n | n in direct) + (set d | d in AllEdges(g) :: d.name)
  }

  // The (package, clause) pairs over the lock's markers that are not covered
  // yet.  It shrinks at every step that is not skipped.
  ghost function Uncovered(g: Graph, direct: seq<Name>, needed: map<Name, Condition>): set<(Name, Clause)> {
    var names, clauses := AllNames(g, direct), set c: Clause | c <= MarkersOf(AllEdges(g));
    set n, c | n in names && c in clauses && !Covers(Known(needed, n), c) :: (n, c)
  }

  lemma {:induction false} WalkWithin(g: Graph, direct: seq<Name>, w: Walk)
    requires IsWalk(g, direct, w)
    ensures w.End() in AllNames(g, direct) && w.Markers() <= MarkersOf(AllEdges(g))
  {
    match w
    case Start(n) =>
    case Via(p, d) =>
      WalkWithin(g, direct, p);
      assert d in AllEdges(g);
  }

  lemma StepShrinks(g: Graph, direct: seq<Name>, w: Work, i: nat)
    requires i < |w.pending| && Invariant(g, direct, w)
    requires Process(g, w, i).needed != w.needed
    ensures Uncovered(g, direct, Process(g, w, i).needed) < Uncovered(g, direct, w.needed)
  {
    var e := w.pending[i];
    var after := Process(g, w, i);
    var known := Known(w.needed, e.name);
    assert Antichain(known);
    var grown := MergeGrows(known, e.condition);
    assert WalkClause(g, direct, e.name, grown);
    var walk :| IsWalk(g, direct, walk) && walk.End() == e.name && walk.Markers() == grown;
    WalkWithin(g, direct, walk);
    var before, later := Uncovered(g, direct, w.needed), Uncovered(g, direct, after.needed);
    assert (e.name, grown) in before;
    assert Covers(after.needed[e.name], grown);
    assert (e.name, grown) !in later;
    forall n, c | (n, c) in later
      ensures (n, c) in before
    {
      if n == e.name {
        SimplifyCovers(known + e.condition, c);
        assert Covers(known, c) ==> Covers(known + e.condition, c);
      }
    }
  }

  // What each refusal says about the lock.
  ghost predicate Explains(error: LockError, lock: seq<Package>, direct: seq<Name>) {
    var g := GraphOf(lock);
    match error
    case DuplicateEntry(n) => exists i, j :: 0 <= i < j < |lock| && lock[i].name == n == lock[j].name
    case Absent(n) => Reached(g, direct, n) && n !in g
    case NotPublic(n) => Reached(g, direct, n) && n in g && g[n].registry != Some(REGISTRY)
    case UnsupportedEdge(n) =>
      Reached(g, direct, n) && n in g && exists d :: d in g[n].dependencies && d.extraFields
  }

  method IndexPackages(lock: seq<Package>) returns (r: Result<Graph, LockError>)
    ensures r.Ok? ==> Distinct(lock) && r.value == GraphOf(lock)
    ensures r.Err? ==> r.error.DuplicateEntry? && Explains(r.error, lock, [])
  {
    var packages: Graph := map[];
    for i := 0 to |lock|
      invariant Distinct(lock[..i]) && packages == GraphOf(lock[..i])
      invariant forall n :: n in packages <==> exists k :: 0 <= k < i && lock[k].name == n
    {
      if lock[i].name in packages {
        return Err(DuplicateEntry(lock[i].name));
      }
      packages := packages[lock[i].name := lock[i]];
      assert lock[..i+1][..i] == lock[..i];
    }
    assert lock[..|lock|] == lock;
    return Ok(packages);
  }

  // One package's edges, pushed in lock order with the condition so far.
  method PushEdges(package: Package, merged: Condition, pending: seq<Entry>)
    returns (r: Result<seq<Entry>, LockError>)
    ensures r.Ok? ==>
      && r.value == pending + Pushed(package.dependencies, merged)
      && forall d :: d in package.dependencies ==> !d.extraFields
    ensures r.Err? ==>
      r.error == UnsupportedEdge(package.name) && exists d :: d in package.dependencies && d.extraFields
  {
    var grown := pending;
    for k := 0 to |package.dependencies|
      invariant grown == pending + Pushed(package.dependencies[..k], merged)
      invariant forall j :: 0 <= j < k ==> !package.dependencies[j].extraFields
    {
      var d := package.dependencies[k];
      if d.extraFields {
        return Err(UnsupportedEdge(package.name));
      }
      grown := grown + [Entry(d.name, Both(merged, Edge(d)))];
      assert Pushed(package.dependencies[..k+1], merged)
          == Pushed(package.dependencies[..k], merged) + [Entry(d.name, Both(merged, Edge(d)))];
    }
    assert package.dependencies[..|package.dependencies|] == package.dependencies;
    return Ok(grown);
  }

  // The specification of a returned closure: exactly the packages some walk
  // reaches, each with its lock entry and its exact condition.
  ghost predicate IsClosure(g: Graph, direct: seq<Name>, result: map<Name, (Package, Condition)>) {
    forall n ::
      && (n in result <==> Reached(g, direct, n))
      && (n in result ==> n in g && result[n].0 == g[n] && Exact(g, direct, n, result[n].1))
  }

  // One turn of the worklist: the last entry is taken, and either it adds
  // nothing, or its package is opened and its edges are queued.
  method TakeEntry(packages: Graph, w: Work, ghost lock: seq<Package>, ghost direct: seq<Name>)
    returns (r: Result<Work, LockError>)
    requires packages == GraphOf(lock) && w.pending != [] && Invariant(packages, direct, w)
    ensures r.Ok? ==> r.value == Process(packages, w, |w.pending| - 1) && Invariant(packages, direct, r.value)
    ensures r.Ok? ==>
      || (r.value.needed == w.needed && |r.value.pending| < |w.pending|)
      || Uncovered(packages, direct, r.value.needed) < Uncovered(packages, direct, w.needed)
    ensures r.Err? ==> Explains(r.error, lock, direct) && exists n :: Reached(packages, direct, n) && !Usable(packages, n)
  {
    ghost var i := |w.pending| - 1;
    var e := w.pending[|w.pending|-1];
    var rest := w.pending[..|w.pending|-1];
    assert rest == Without(w.pending, i);
    var known := Known(w.needed, e.name);
    var merged := Simplify(known + e.condition);
    Advance(packages, direct, w, i);
    if merged == known {
      return Ok(Work(w.needed, rest));
    }
    if e.name !in packages {
      return Err(Absent(e.name));
    }
    var package := packages[e.name];
    if package.registry != Some(REGISTRY) {
      return Err(NotPublic(e.name));
    }
    GraphNames(lock, e.name);
    var pending :- PushEdges(package, merged, rest);
    return Ok(Work(w.needed[e.name := merged], pending));
  }

  // Each package reachable from `direct` with the markers under which it is
  // needed.  The call accepts exactly the valid locks.
  method Closure(lock: seq<Package>, direct: seq<Name>)
    returns (r: Result<map<Name, (Package, Condition)>, LockError>)
    ensures r.Ok? <==> ValidLock(lock, direct)
    ensures r.Ok? ==> IsClosure(GraphOf(lock), direct, r.value)
    ensures r.Err? ==> Explains(r.error, lock, direct)
  {
    var packages :- IndexPackages(lock);
    var w := InitialWork(direct);
    InitialInvariant(packages, direct);
    while |w.pending| > 0
      invariant Invariant(packages, direct, w)
      decreases Uncovered(packages, direct, w.needed), |w.pending|
    {
      w :- TakeEntry(packages, w, lock, direct);
    }
    ClosureFromWork(packages, direct, w);
    return Ok(map n | n in w.needed :: (packages[n], w.needed[n]));
  }

  // One turn of the loop: the entry taken is on a real walk, a skipped entry
  // leaves what is known alone, and any other turn shrinks the uncovered pairs.
  lemma Advance(g: Graph, direct: seq<Name>, w: Work, i: nat)
    requires i < |w.pending| && Invariant(g, direct, w)
    ensures Reached(g, direct, w.pending[i].name)
    ensures Process(g, w, i).needed == w.needed || Usable(g, w.pending[i].name)
      ==> Invariant(g, direct, Process(g, w, i))
    ensures Process(g, w, i).needed != w.needed ==>
      Uncovered(g, direct, Process(g, w, i).needed) < Uncovered(g, direct, w.needed)
    ensures Simplify(Known(w.needed, w.pending[i].name) + w.pending[i].condition) != Known(w.needed, w.pending[i].name)
      ==> Process(g, w, i).needed != w.needed
  {
    var e := w.pending[i];
    var c :| c in e.condition;
    assert WalkClause(g, direct, e.name, c);
    var after := Process(g, w, i);
    if Simplify(Known(w.needed, e.name) + e.condition) != Known(w.needed, e.name) {
      assert Known(after.needed, e.name) != Known(w.needed, e.name);
    }
    if after.needed == w.needed || Usable(g, e.name) {
      ProcessKeepsInvariant(g, direct, w, i);
    }
    if after.needed != w.needed {
      StepShrinks(g, direct, w, i);
    }
  }

  lemma {:induction false} GraphNames(lock: seq<Package>, name: Name)
    requires name in GraphOf(lock)
    ensures GraphOf(lock)[name].name == name && GraphOf(lock)[name] in lock
  {
    if name != lock[|lock|-1].name {
      GraphNames(lock[..|lock|-1], name);
    }
  }

  lemma ClosureFromWork(g: Graph, direct: seq<Name>, w: Work)
    requires Invariant(g, direct, w) && w.pending == []
    ensures forall n :: Reached(g, direct, n) ==> Usable(g, n)
    ensures IsClosure(g, direct, map n | n in w.needed && n in g :: (g[n], w.needed[n]))
    ensures forall n :: n in w.needed ==> n in g
  {
    forall n
      ensures n in w.needed <==> Reached(g, direct, n)
      ensures n in w.needed ==> Usable(g, n) && Exact(g, direct, n, w.needed[n])
    {
      FinalExact(g, direct, w, n);
    }
  }

  // What the closure is for: under every truth assignment of the markers, a
  // package is listed with a condition that holds exactly when it is reachable
  // along edges whose markers hold.
  lemma ClosureMeaning(g: Graph, direct: seq<Name>, result: map<Name, (Package, Condition)>,
                       name: Name, truth: set<Marker>)
    requires IsClosure(g, direct, result)
    ensures (name in result && Holds(result[name].1, truth)) <==> ReachedUnder(g, direct, name, truth)
  {
    if name in result {
      ExactMeaning(g, direct, name, result[name].1, truth);
    } else if w :| IsWalk(g, direct, w) && w.End() == name && w.Markers() <= truth {
      assert Reached(g, direct, name);
    }
  }
}
