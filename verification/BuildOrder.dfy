/**
 * The build order of a package's workspace dependencies: a worklist closure, then Kahn's algorithm over it.
 * Both tables are keyed by FOLDER name, as in the program, while dependencies are declared by PACKAGE name and looked
 * up in the index. The target need not be the package the index lists under its name.
 */
module BuildOrder {
  import opened Common

  type Name = string

  datatype Package = Package(name: Name, folderName: string, deps: set<Name>)

  type Index = map<Name, Package>

  datatype Plan = Order(packages: seq<Package>) | Undeclared(folderName: string, dependency: Name) | Cycle

  /** The index lists each package under its own name. */
  ghost predicate WellNamed(index: Index) {
    forall n <- index :: index[n].name == n
  }

  ghost predicate Listed(index: Index, p: Package) {
    p.name in index && index[p.name] == p
  }

  // ---------------------------------------------------------------------------------------------
  // What the plan is about: paths of dependencies
  // ---------------------------------------------------------------------------------------------

  ghost predicate DependsOn(index: Index, p: Package, q: Package) {
    q.name in p.deps && Listed(index, q)
  }

  ghost predicate IsPath(index: Index, ps: seq<Package>) {
    ps != [] && forall i :: 0 <= i < |ps| - 1 ==> DependsOn(index, ps[i], ps[i + 1])
  }

  ghost predicate PathFromTo(index: Index, ps: seq<Package>, a: Package, b: Package) {
    IsPath(index, ps) && ps[0] == a && ps[|ps| - 1] == b
  }

  ghost predicate Reachable(index: Index, a: Package, b: Package) {
    exists ps :: PathFromTo(index, ps, a, b)
  }

  /** Every dependency named on the way is declared by some package. */
  ghost predicate Complete(index: Index, target: Package) {
    forall p :: Reachable(index, target, p) ==> p.deps <= index.Keys
  }

  /** No two packages needed share a folder name, whichever workspace root they live under. */
  ghost predicate DistinctFolders(index: Index, target: Package) {
    forall p, q :: Reachable(index, target, p) && Reachable(index, target, q) && p.folderName == q.folderName ==> p == q
  }

  ghost predicate Acyclic(index: Index, target: Package) {
    forall ps :: IsPath(index, ps) && Reachable(index, target, ps[0]) && |ps| > 1 ==> ps[0] != ps[|ps| - 1]
  }

  function Folders(ps: seq<Package>): set<string> {
    set i | 0 <= i < |ps| :: ps[i].folderName
  }

  ghost predicate NoRepeats(ps: seq<Package>) {
    forall i, j :: 0 <= i < j < |ps| ==> ps[i] != ps[j]
  }

  /** Everything a package depends on is declared and comes before it. */
  ghost predicate DependenciesFirst(order: seq<Package>, index: Index) {
    forall i, d :: 0 <= i < |order| && d in order[i].deps ==> d in index && index[d] in order[..i]
  }

  /** Exactly the reachable packages, once each, dependencies first, the target last. */
  ghost predicate IsBuildOrder(order: seq<Package>, index: Index, target: Package) {
    && NoRepeats(order) && DependenciesFirst(order, index)
    && (forall p :: p in order <==> Reachable(index, target, p))
    && order != [] && order[|order| - 1] == target
  }

  lemma StepReaches(index: Index, target: Package, p: Package, q: Package)
    requires Reachable(index, target, p) && DependsOn(index, p, q)
    ensures Reachable(index, target, q)
  {
    var ps :| PathFromTo(index, ps, target, p);
    assert PathFromTo(index, ps + [q], target, q);
  }

  lemma TargetReaches(index: Index, target: Package)
    ensures Reachable(index, target, target)
  {
    assert PathFromTo(index, [target], target, target);
  }

  /** Only the target itself can be reachable without being listed. */
  lemma ReachableIsListed(index: Index, target: Package, p: Package)
    requires Reachable(index, target, p)
    ensures p == target || Listed(index, p)
  {
    var ps :| PathFromTo(index, ps, target, p);
    if |ps| > 1 {
      assert DependsOn(index, ps[|ps| - 2], ps[|ps| - 2 + 1]);
    }
  }

  // ---------------------------------------------------------------------------------------------
  // The closure
  // ---------------------------------------------------------------------------------------------

  ghost predicate AllReachable(ps: seq<Package>, index: Index, target: Package) {
    forall i :: 0 <= i < |ps| ==> Reachable(index, target, ps[i])
  }

  ghost predicate DistinctlyFoldered(ps: seq<Package>) {
    forall i, j :: 0 <= i < j < |ps| ==> ps[i].folderName != ps[j].folderName
  }

  /** Dependency `d` is declared, and its folder is already taken or it waits on the stack. */
  ghost predicate Covered(d: Name, index: Index, folders: set<string>, stack: seq<Package>) {
    d in index && (index[d].folderName in folders || index[d] in stack)
  }

  ghost predicate IsClosure(closure: seq<Package>, index: Index, target: Package) {
    && AllReachable(closure, index, target)
    && DistinctlyFoldered(closure)
    && closure != [] && closure[0] == target
    && (forall i, d :: 0 <= i < |closure| && d in closure[i].deps ==> Covered(d, index, Folders(closure), []))
  }

  ghost predicate IsUndeclared(plan: Plan, index: Index, target: Package) {
    plan.Undeclared? &&
    exists p :: Reachable(index, target, p) && p.folderName == plan.folderName
                && plan.dependency in p.deps && plan.dependency !in index
  }

  /** The loop over `current`'s dependencies, in any order. */
  method PushDependencies(current: Package, index: Index, stack: seq<Package>, ghost target: Package)
    returns (result: Result<seq<Package>, Plan>)
    requires WellNamed(index) && AllReachable(stack, index, target) && Reachable(index, target, current)
    ensures result.Err? ==> IsUndeclared(result.error, index, target)
    ensures result.Ok? ==> stack <= result.value && AllReachable(result.value, index, target)
    ensures result.Ok? ==> forall d :: d in current.deps ==> d in index && index[d] in result.value
  {
    var pushed, deps := stack, current.deps;
    while deps != {}
      invariant deps <= current.deps && stack <= pushed && AllReachable(pushed, index, target)
      invariant forall d :: d in current.deps - deps ==> d in index && index[d] in pushed
    {
      var d :| d in deps;
      if d !in index {
        return Err(Undeclared(current.folderName, d));
      }
      StepReaches(index, target, current, index[d]);
      pushed, deps := pushed + [index[d]], deps - {d};
    }
    result := Ok(pushed);
  }

  /** What the worklist loop keeps. */
  ghost predicate Collecting(closure: seq<Package>, stack: seq<Package>, index: Index, target: Package) {
    && AllReachable(closure, index, target) && AllReachable(stack, index, target)
    && DistinctlyFoldered(closure)
    && (if closure == [] then stack == [target] else closure[0] == target)
    && (forall i, d :: 0 <= i < |closure| && d in closure[i].deps ==> Covered(d, index, Folders(closure), stack))
  }

  lemma SkippingKeepsCollecting(closure: seq<Package>, stack: seq<Package>, index: Index, target: Package)
    requires Collecting(closure, stack, index, target)
    requires stack != [] && stack[|stack| - 1].folderName in Folders(closure)
    ensures Collecting(closure, stack[..|stack| - 1], index, target)
  {
    var top, popped := stack[|stack| - 1], stack[..|stack| - 1];
    assert stack == popped + [top];
    forall i, d | 0 <= i < |closure| && d in closure[i].deps
      ensures Covered(d, index, Folders(closure), popped)
    {
      assert Covered(d, index, Folders(closure), stack);
      assert index[d] in stack ==> index[d] == top || index[d] in popped;
    }
  }

  lemma VisitingKeepsCollecting(
    closure: seq<Package>, stack: seq<Package>, pushed: seq<Package>, index: Index, target: Package)
    requires Collecting(closure, stack, index, target)
    requires stack != [] && stack[|stack| - 1].folderName !in Folders(closure)
    requires stack[..|stack| - 1] <= pushed && AllReachable(pushed, index, target)
    requires forall d :: d in stack[|stack| - 1].deps ==> d in index && index[d] in pushed
    ensures Collecting(closure + [stack[|stack| - 1]], pushed, index, target)
  {
    var top, popped := stack[|stack| - 1], stack[..|stack| - 1];
    var longer := closure + [top];
    FoldersOfAppend(closure, top);
    assert stack == popped + [top];
    forall i, d | 0 <= i < |longer| && d in longer[i].deps
      ensures Covered(d, index, Folders(longer), pushed)
    {
      if i < |closure| {
        assert Covered(d, index, Folders(closure), stack);
        assert index[d] in stack ==> index[d] == top || index[d] in popped;
        assert index[d] in popped ==> index[d] in pushed;
      }
    }
  }

  lemma TopAndRest(stack: seq<Package>, index: Index, target: Package)
    requires AllReachable(stack, index, target) && stack != []
    ensures AllReachable(stack[..|stack| - 1], index, target) && Reachable(index, target, stack[|stack| - 1])
  {
    assert stack[..|stack| - 1] <= stack;
  }

  method CollectClosure(target: Package, index: Index) returns (result: Result<seq<Package>, Plan>)
    requires WellNamed(index)
    ensures result.Ok? ==> IsClosure(result.value, index, target)
    ensures result.Err? ==> IsUndeclared(result.error, index, target)
  {
    var closure: seq<Package>, folders: set<string> := [], {};
    var stack := [target];
    TargetReaches(index, target);
    while |stack| > 0
      invariant Collecting(closure, stack, index, target) && folders == Folders(closure)
      decreases |Universe(index, target) - Elements(closure)|, |stack|
    {
      var current := stack[|stack| - 1];
      ghost var before := stack;
      stack := stack[..|stack| - 1];
      if current.folderName in folders {
        SkippingKeepsCollecting(closure, before, index, target);
        continue;
      }
      TopAndRest(before, index, target);
      NewFolderShrinksTheRest(closure, current, index, target);
      FoldersOfAppend(closure, current);
      var pushed := PushDependencies(current, index, stack, target);
      if pushed.Err? {
        return Err(pushed.error);
      }
      VisitingKeepsCollecting(closure, before, pushed.value, index, target);
      closure, folders, stack := closure + [current], folders + {current.folderName}, pushed.value;
    }
    result := Ok(closure);
  }

  lemma FoldersOfAppend(closure: seq<Package>, p: Package)
    ensures Folders(closure + [p]) == Folders(closure) + {p.folderName}
  {
    var longer := closure + [p];
    assert forall i :: 0 <= i < |closure| ==> longer[i] == closure[i];
    assert longer[|closure|] == p;
  }

  ghost function Elements<T>(q: seq<T>): set<T> {
    set x | x in q
  }

  ghost function Universe(index: Index, target: Package): set<Package> {
    {target} + set n | n in index :: index[n]
  }

  /** A package in a folder not seen yet is not in the closure yet. */
  lemma NewFolderShrinksTheRest(closure: seq<Package>, p: Package, index: Index, target: Package)
    requires Reachable(index, target, p) && p.folderName !in Folders(closure)
    ensures |Universe(index, target) - Elements(closure + [p])| < |Universe(index, target) - Elements(closure)|
  {
    ReachableIsListed(index, target, p);
    assert p !in closure;
    assert Elements(closure + [p]) == Elements(closure) + {p};
    var rest := Universe(index, target) - Elements(closure + [p]);
    assert Universe(index, target) - Elements(closure) == rest + {p};
  }

  // ---------------------------------------------------------------------------------------------
  // Kahn's algorithm over the closure
  // ---------------------------------------------------------------------------------------------

  method CountInDegrees(closure: seq<Package>, index: Index) returns (inDegree: map<string, int>)
    requires DistinctlyFoldered(closure)
    requires forall i :: 0 <= i < |closure| ==> closure[i].deps <= index.Keys
    ensures forall i :: 0 <= i < |closure| ==>
              closure[i].folderName in inDegree && inDegree[closure[i].folderName] == |closure[i].deps|
  {
    inDegree := map[];
    for i := 0 to |closure|
      invariant forall j :: 0 <= j < i ==> closure[j].folderName in inDegree && inDegree[closure[j].folderName] == 0
    {
      inDegree := inDegree[closure[i].folderName := 0];
    }
    for i := 0 to |closure|
      invariant forall j :: 0 <= j < |closure| ==>
                  closure[j].folderName in inDegree
                  && inDegree[closure[j].folderName] == if j < i then |closure[j].deps| else 0
    {
      var folder, deps := closure[i].folderName, closure[i].deps;
      while deps != {}
        invariant deps <= closure[i].deps
        invariant forall j :: 0 <= j < |closure| ==>
                    closure[j].folderName in inDegree
                    && inDegree[closure[j].folderName]
                       == if j < i then |closure[j].deps| else if j == i then |closure[i].deps| - |deps| else 0
      {
        var d :| d in deps;
        deps := deps - {d};
        if d in index {
          inDegree := inDegree[folder := inDegree[folder] + 1];
        }
      }
    }
  }

  /** The dependencies of `p` whose packages are not built yet. */
  ghost function Waiting(p: Package, built: seq<Package>, index: Index): set<Name> {
    set d | d in p.deps && (d in index ==> index[d] !in built)
  }

  /** Counts and queue agree: a package is queued exactly when all it depends on is built. The scan over the closure
    * has reached `j`: before it, `built'` is taken into account, after it `built`. */
  ghost predicate Tracks(
    closure: seq<Package>, index: Index, inDegree: map<string, int>, queue: seq<Package>, built: seq<Package>,
    built': seq<Package>, j: nat)
  {
    forall i :: 0 <= i < |closure| ==>
      var waiting := Waiting(closure[i], if i < j then built' else built, index);
      && closure[i].folderName in inDegree
      && inDegree[closure[i].folderName] == |waiting|
      && (closure[i] in queue <==> waiting == {})
  }

  ghost predicate QueueOf(closure: seq<Package>, queue: seq<Package>) {
    NoRepeats(queue) && forall i :: 0 <= i < |queue| ==> queue[i] in closure
  }

  lemma CountDropsByOne(p: Package, built: seq<Package>, n: Package, index: Index)
    requires WellNamed(index) && Listed(index, n) && n !in built
    ensures |Waiting(p, built + [n], index)| == |Waiting(p, built, index)| - (if n.name in p.deps then 1 else 0)
  {
    var before, after := Waiting(p, built, index), Waiting(p, built + [n], index);
    if n.name in p.deps {
      assert before == after + {n.name} && n.name !in after;
    } else {
      assert before == after;
    }
  }

  /** Once everything is queued, a package nothing resolves to lowers counts below zero and queues nothing. */
  ghost predicate AllSettled(closure: seq<Package>, inDegree: map<string, int>) {
    forall i :: 0 <= i < |closure| ==> closure[i].folderName in inDegree && inDegree[closure[i].folderName] <= 0
  }

  /** Building `next` lowers the count of each dependent and queues those it was the last obstacle for. */
  method Relax(
    closure: seq<Package>, index: Index, inDegree: map<string, int>, ready: seq<Package>, next: Package,
    ghost order: seq<Package>)
    returns (counts: map<string, int>, queued: seq<Package>)
    requires WellNamed(index) && DistinctlyFoldered(closure)
    requires QueueOf(closure, order + [next] + ready) && next !in order
    requires if Listed(index, next)
             then Tracks(closure, index, inDegree, order + [next] + ready, order, order + [next], 0)
             else AllSettled(closure, inDegree)
    ensures QueueOf(closure, order + [next] + queued)
    ensures if Listed(index, next) then
              Tracks(closure, index, counts, order + [next] + queued, order, order + [next], |closure|)
            else queued == ready
  {
    counts, queued := inDegree, ready;
    for j := 0 to |closure|
      invariant QueueOf(closure, order + [next] + queued)
      invariant if Listed(index, next)
                then Tracks(closure, index, counts, order + [next] + queued, order, order + [next], j)
                else queued == ready && AllSettled(closure, counts)
    {
      var pkg := closure[j];
      ghost var queue := order + [next] + queued;
      if next.name !in pkg.deps {
        if Listed(index, next) {
          PassingKeepsTracks(closure, index, counts, queue, order, next, j);
        }
        continue;
      }
      if Listed(index, next) {
        LoweringKeepsTracks(closure, index, counts, queue, order, next, j);
      }
      var remaining := counts[pkg.folderName] - 1;
      counts := counts[pkg.folderName := remaining];
      if remaining == 0 {
        QueueingKeepsQueue(closure, queue, pkg);
        assert queue + [pkg] == order + [next] + (queued + [pkg]);
        queued := queued + [pkg];
      }
    }
  }

  lemma QueueingKeepsQueue(closure: seq<Package>, queue: seq<Package>, p: Package)
    requires QueueOf(closure, queue) && p in closure && p !in queue
    ensures QueueOf(closure, queue + [p])
  {
  }

  lemma PassingKeepsTracks(
    closure: seq<Package>, index: Index, counts: map<string, int>, queue: seq<Package>, built: seq<Package>,
    n: Package, j: nat)
    requires WellNamed(index) && Listed(index, n) && j < |closure| && n !in built && n.name !in closure[j].deps
    requires Tracks(closure, index, counts, queue, built, built + [n], j)
    ensures Tracks(closure, index, counts, queue, built, built + [n], j + 1)
  {
    assert Waiting(closure[j], built + [n], index) == Waiting(closure[j], built, index);
  }

  lemma LoweringKeepsTracks(
    closure: seq<Package>, index: Index, counts: map<string, int>, queue: seq<Package>, built: seq<Package>,
    n: Package, j: nat)
    requires WellNamed(index) && Listed(index, n) && DistinctlyFoldered(closure)
    requires j < |closure| && n !in built && n.name in closure[j].deps
    requires Tracks(closure, index, counts, queue, built, built + [n], j)
    ensures closure[j] !in queue && closure[j].folderName in counts
    ensures var left := counts[closure[j].folderName] - 1;
            Tracks(closure, index, counts[closure[j].folderName := left],
                   if left == 0 then queue + [closure[j]] else queue, built, built + [n], j + 1)
  {
    var pkg := closure[j];
    CountDropsByOne(pkg, built, n, index);
    assert n.name in Waiting(pkg, built, index);
    var left := counts[pkg.folderName] - 1;
    var queue' := if left == 0 then queue + [pkg] else queue;
    assert left == 0 <==> Waiting(pkg, built + [n], index) == {};
    forall i | 0 <= i < |closure| && i != j
      ensures closure[i].folderName != pkg.folderName && (closure[i] in queue' <==> closure[i] in queue)
    {
      assert closure[i] != pkg;
    }
  }

  ghost predicate Scheduled(
    closure: seq<Package>, index: Index, inDegree: map<string, int>, order: seq<Package>, ready: seq<Package>)
  {
    && QueueOf(closure, order + ready)
    && Tracks(closure, index, inDegree, order + ready, order, order, 0)
    && DependenciesFirst(order, index)
  }

  lemma Smaller<T>(a: set<T>, b: set<T>)
    requires a <= b
    ensures |a| <= |b|
    ensures |a| == |b| ==> a == b
  {
    assert b == a + (b - a);
  }

  lemma SomethingLeft<T>(a: set<T>, b: set<T>)
    requires |a| > |b|
    ensures a - b != {}
  {
    assert a == (a - b) + (a * b);
    Smaller(a * b, b);
  }

  lemma {:induction false} ElementsCount(q: seq<Package>)
    ensures |Elements(q)| <= |q|
    ensures NoRepeats(q) ==> |Elements(q)| == |q|
  {
    if q != [] {
      var front, last := q[..|q| - 1], q[|q| - 1];
      ElementsCount(front);
      assert q == front + [last];
      assert Elements(q) == Elements(front) + {last};
    }
  }

  lemma QueueFits(closure: seq<Package>, queue: seq<Package>)
    requires QueueOf(closure, queue)
    ensures Elements(queue) <= Elements(closure) && |queue| <= |Elements(closure)| <= |closure|
  {
    ElementsCount(queue);
    ElementsCount(closure);
    assert forall p :: p in queue ==> p in closure;
    Smaller(Elements(queue), Elements(closure));
  }

  /** The package at the head of the queue is not built yet, and all it depends on is. */
  lemma BuildingIsDue(
    closure: seq<Package>, index: Index, inDegree: map<string, int>, order: seq<Package>, ready: seq<Package>)
    requires Scheduled(closure, index, inDegree, order, ready) && ready != []
    requires forall i :: 0 <= i < |closure| ==> closure[i].deps <= index.Keys
    ensures ready[0] in closure && ready[0] !in order && |order| < |closure|
    ensures forall d :: d in ready[0].deps ==> d in index && index[d] in order
  {
    var next, queue := ready[0], order + ready;
    assert queue[|order|] == next && next in queue;
    QueueFits(closure, queue);
    var k :| 0 <= k < |closure| && closure[k] == next;
    assert forall i :: 0 <= i < |order| ==> queue[i] == order[i];
    assert Waiting(next, order, index) == {};
    forall d | d in next.deps
      ensures d in index && index[d] in order
    {
      assert d !in Waiting(next, order, index);
    }
  }

  lemma AppendKeepsDependenciesFirst(order: seq<Package>, next: Package, index: Index)
    requires DependenciesFirst(order, index) && forall d :: d in next.deps ==> d in index && index[d] in order
    ensures DependenciesFirst(order + [next], index)
  {
    var longer := order + [next];
    forall i, d | 0 <= i < |longer| && d in longer[i].deps
      ensures d in index && index[d] in longer[..i]
    {
      assert longer[..i] == order[..i];
      assert order[..|order|] == order;
    }
  }

  /** The packages that depend on nothing. */
  method ReadyAtStart(
    closure: seq<Package>, inDegree: map<string, int>, ghost index: Index)
    returns (ready: seq<Package>)
    requires DistinctlyFoldered(closure)
    requires forall i :: 0 <= i < |closure| ==>
               closure[i].folderName in inDegree && inDegree[closure[i].folderName] == |closure[i].deps|
    ensures Scheduled(closure, index, inDegree, [], ready)
  {
    ready := [];
    for i := 0 to |closure|
      invariant QueueOf(closure, ready)
      invariant forall p :: p in ready ==> p in closure[..i]
      invariant forall j :: 0 <= j < i ==> (closure[j] in ready <==> closure[j].deps == {})
    {
      if inDegree[closure[i].folderName] == 0 {
        assert forall j :: 0 <= j < i ==> closure[j] != closure[i];
        QueueingKeepsQueue(closure, ready, closure[i]);
        ready := ready + [closure[i]];
      }
    }
    assert [] + ready == ready;
    assert forall i :: 0 <= i < |closure| ==> Waiting(closure[i], [], index) == closure[i].deps;
  }

  /** Tracking done with the scan is tracking from the next one's start. */
  lemma ScanDone(
    closure: seq<Package>, index: Index, inDegree: map<string, int>, order: seq<Package>, next: Package,
    ready: seq<Package>)
    requires QueueOf(closure, order + [next] + ready) && DependenciesFirst(order + [next], index)
    requires Tracks(closure, index, inDegree, order + [next] + ready, order, order + [next], |closure|)
    ensures Scheduled(closure, index, inDegree, order + [next], ready)
  {
  }

  /** A set that holds the target and is closed under dependencies holds everything reachable. */
  lemma {:induction false} ClosedSetsHoldPaths(index: Index, closed: set<Package>, ps: seq<Package>)
    requires IsPath(index, ps) && ps[0] in closed
    requires forall p, q :: p in closed && DependsOn(index, p, q) ==> q in closed
    ensures ps[|ps| - 1] in closed
  {
    if |ps| > 1 {
      var front := ps[..|ps| - 1];
      ClosedSetsHoldPaths(index, closed, front);
      assert DependsOn(index, ps[|ps| - 2], ps[|ps| - 2 + 1]);
    }
  }

  lemma EarlierIsIn(order: seq<Package>, index: Index, p: Package, q: Package)
    requires DependenciesFirst(order, index) && p in order && DependsOn(index, p, q)
    ensures q in order
  {
    var i :| 0 <= i < |order| && order[i] == p;
    assert index[q.name] in order[..i];
  }

  /** When the target's turn comes, everything else is built. */
  lemma TargetComesLast(index: Index, target: Package, order: seq<Package>, p: Package)
    requires DependenciesFirst(order, index) && Reachable(index, target, p)
    requires forall d :: d in target.deps ==> d in index && index[d] in order
    ensures p == target || p in order
  {
    var ps :| PathFromTo(index, ps, target, p);
    var closed := Elements(order) + {target};
    forall a, b | a in closed && DependsOn(index, a, b)
      ensures b in closed
    {
      if a != target {
        EarlierIsIn(order, index, a, b);
      }
    }
    ClosedSetsHoldPaths(index, closed, ps);
  }

  /** Nothing is waiting any more. */
  ghost predicate Finished(closure: seq<Package>, index: Index, order: seq<Package>, ready: seq<Package>) {
    && ready == [] && QueueOf(closure, order) && DependenciesFirst(order, index)
    && forall i :: 0 <= i < |closure| ==> closure[i] in order
  }

  lemma NothingBehind(q: seq<Package>, n: nat)
    requires NoRepeats(q) && n <= |q| && forall i :: 0 <= i < |q| ==> q[i] in q[..n]
    ensures n == |q|
  {
    ElementsCount(q);
    ElementsCount(q[..n]);
    assert forall p :: p in q ==> p in q[..n];
    Smaller(Elements(q), Elements(q[..n]));
  }

  /** An unlisted package's turn is the target's, and the last. */
  lemma UnlistedFinishes(
    closure: seq<Package>, index: Index, target: Package, inDegree: map<string, int>, order: seq<Package>,
    ready: seq<Package>)
    requires Scheduled(closure, index, inDegree, order, ready) && ready != [] && !Listed(index, ready[0])
    requires AllReachable(closure, index, target)
    requires forall i :: 0 <= i < |closure| ==> closure[i].deps <= index.Keys
    ensures AllSettled(closure, inDegree) && Finished(closure, index, order + [ready[0]], ready[1..])
  {
    var next, queue := ready[0], order + ready;
    BuildingIsDue(closure, index, inDegree, order, ready);
    AppendKeepsDependenciesFirst(order, next, index);
    assert queue == order + [next] + ready[1..];
    forall i | 0 <= i < |closure|
      ensures closure[i] in order + [next]
    {
      ReachableIsListed(index, target, next);
      TargetComesLast(index, target, order, closure[i]);
    }
    assert queue[..|order| + 1] == order + [next];
    NothingBehind(queue, |order| + 1);
    assert queue == order + [next];
  }

  /** What is left when nothing is ready: the queue order, and every package whose dependencies are all in it. */
  method Kahn(closure: seq<Package>, index: Index, ghost target: Package) returns (order: seq<Package>)
    requires WellNamed(index) && DistinctlyFoldered(closure) && AllReachable(closure, index, target)
    requires forall i :: 0 <= i < |closure| ==> closure[i].deps <= index.Keys
    ensures QueueOf(closure, order) && DependenciesFirst(order, index)
    ensures forall i :: 0 <= i < |closure| ==> (closure[i] in order <==> Waiting(closure[i], order, index) == {})
  {
    var inDegree := CountInDegrees(closure, index);
    var ready := ReadyAtStart(closure, inDegree, index);
    order := [];
    while |ready| > 0
      invariant Scheduled(closure, index, inDegree, order, ready) || Finished(closure, index, order, ready)
      decreases |closure| - |order|
    {
      var next := ready[0];
      assert order + [next] + ready[1..] == order + ready;
      BuildingIsDue(closure, index, inDegree, order, ready);
      AppendKeepsDependenciesFirst(order, next, index);
      if !Listed(index, next) {
        UnlistedFinishes(closure, index, target, inDegree, order, ready);
      }
      inDegree, ready := Relax(closure, index, inDegree, ready[1..], next, order);
      if Listed(index, next) {
        ScanDone(closure, index, inDegree, order, next, ready);
      }
      order := order + [next];
    }
    assert order + ready == order;
    if Finished(closure, index, order, ready) {
      BuiltWaitForNothing(closure, index, order);
    }
  }

  lemma BuiltWaitForNothing(closure: seq<Package>, index: Index, order: seq<Package>)
    requires DependenciesFirst(order, index)
    ensures forall i :: 0 <= i < |closure| && closure[i] in order ==> Waiting(closure[i], order, index) == {}
  {
    forall i, d | 0 <= i < |closure| && closure[i] in order && d in closure[i].deps
      ensures d in index && index[d] in order
    {
      var k :| 0 <= k < |order| && order[k] == closure[i];
      assert index[d] in order[..k];
    }
  }

  // ---------------------------------------------------------------------------------------------
  // What a full and a short order mean
  // ---------------------------------------------------------------------------------------------

  /** Along a path, positions in the order only go down. */
  lemma {:induction false} PathsDescend(order: seq<Package>, index: Index, ps: seq<Package>, k: nat) returns (k': nat)
    requires IsPath(index, ps) && DependenciesFirst(order, index)
    requires k < |order| && order[k] == ps[0]
    ensures k' <= k && order[k'] == ps[|ps| - 1] && (|ps| > 1 ==> k' < k)
  {
    if |ps| == 1 {
      k' := k;
    } else {
      var m := PathsDescend(order, index, ps[..|ps| - 1], k);
      var q := ps[|ps| - 1];
      assert DependsOn(index, ps[|ps| - 2], ps[|ps| - 2 + 1]);
      assert index[q.name] in order[..m];
      k' :| 0 <= k' < |order[..m]| && order[..m][k'] == q;
    }
  }

  /** A queue order as long as the closure is a build order, and it exists only for a complete acyclic graph whose
    * folders are distinct. */
  lemma FullOrderIsABuildOrder(index: Index, target: Package, closure: seq<Package>, order: seq<Package>)
    requires IsClosure(closure, index, target)
    requires QueueOf(closure, order) && DependenciesFirst(order, index) && |order| == |closure|
    ensures IsBuildOrder(order, index, target)
    ensures Complete(index, target) && DistinctFolders(index, target) && Acyclic(index, target)
  {
    FullOrderHasTheClosure(closure, order);
    BuiltAreTheReachable(index, target, closure, order);
    OrderIsAcyclic(index, target, order);
    DistinctFoldersHold(index, target, closure);
    TargetIsLast(index, target, order);
  }

  lemma FullOrderHasTheClosure(closure: seq<Package>, order: seq<Package>)
    requires QueueOf(closure, order) && |order| == |closure|
    ensures forall p :: p in order <==> p in closure
  {
    QueueFits(closure, order);
    ElementsCount(order);
    Smaller(Elements(order), Elements(closure));
    assert forall p :: p in order <==> p in Elements(order);
    assert forall p :: p in closure <==> p in Elements(closure);
  }

  lemma BuiltAreTheReachable(index: Index, target: Package, closure: seq<Package>, order: seq<Package>)
    requires IsClosure(closure, index, target) && DependenciesFirst(order, index)
    requires forall p :: p in order <==> p in closure
    ensures forall p :: p in order <==> Reachable(index, target, p)
    ensures forall p :: p in closure <==> Reachable(index, target, p)
    ensures Complete(index, target)
  {
    assert target in closure && target in order;
    forall p
      ensures p in order <==> Reachable(index, target, p)
    {
      if Reachable(index, target, p) {
        var ps :| PathFromTo(index, ps, target, p);
        forall a, b | a in Elements(order) && DependsOn(index, a, b)
          ensures b in Elements(order)
        {
          EarlierIsIn(order, index, a, b);
        }
        ClosedSetsHoldPaths(index, Elements(order), ps);
      }
    }
    forall p | p in order
      ensures p.deps <= index.Keys
    {
      var i :| 0 <= i < |order| && order[i] == p;
    }
  }

  lemma OrderIsAcyclic(index: Index, target: Package, order: seq<Package>)
    requires DependenciesFirst(order, index) && NoRepeats(order)
    requires forall p :: p in order <==> Reachable(index, target, p)
    ensures Acyclic(index, target)
  {
    forall ps | IsPath(index, ps) && Reachable(index, target, ps[0]) && |ps| > 1
      ensures ps[0] != ps[|ps| - 1]
    {
      assert ps[0] in order;
      var k :| 0 <= k < |order| && order[k] == ps[0];
      var k' := PathsDescend(order, index, ps, k);
      assert order[k'] != order[k];
    }
  }

  lemma TargetIsLast(index: Index, target: Package, order: seq<Package>)
    requires DependenciesFirst(order, index) && NoRepeats(order)
    requires forall p :: p in order <==> Reachable(index, target, p)
    ensures order != [] && order[|order| - 1] == target
  {
    TargetReaches(index, target);
    assert target in order;
    var t :| 0 <= t < |order| && order[t] == target;
    var last := order[|order| - 1];
    assert last in order;
    var ps :| PathFromTo(index, ps, target, last);
    var k := PathsDescend(order, index, ps, t);
    assert k == |order| - 1;
  }

  lemma DistinctFoldersHold(index: Index, target: Package, closure: seq<Package>)
    requires DistinctlyFoldered(closure) && forall p :: p in closure <==> Reachable(index, target, p)
    ensures DistinctFolders(index, target)
  {
    forall p, q | Reachable(index, target, p) && Reachable(index, target, q) && p.folderName == q.folderName
      ensures p == q
    {
      assert p in closure && q in closure;
      var i :| 0 <= i < |closure| && closure[i] == p;
      var j :| 0 <= j < |closure| && closure[j] == q;
      assert i == j;
    }
  }

  /** With distinct folders the closure misses no dependency. */
  lemma ClosureIsClosed(index: Index, target: Package, closure: seq<Package>)
    requires WellNamed(index) && IsClosure(closure, index, target) && DistinctFolders(index, target)
    ensures forall i, d :: 0 <= i < |closure| && d in closure[i].deps ==> d in index && index[d] in closure
    ensures Complete(index, target)
  {
    forall i, d | 0 <= i < |closure| && d in closure[i].deps
      ensures d in index && index[d] in closure
    {
      assert Covered(d, index, Folders(closure), []);
      var j :| 0 <= j < |closure| && closure[j].folderName == index[d].folderName;
      StepReaches(index, target, closure[i], index[d]);
      assert closure[j] == index[d];
    }
    forall p | Reachable(index, target, p)
      ensures p.deps <= index.Keys
    {
      var ps :| PathFromTo(index, ps, target, p);
      forall a, b | a in Elements(closure) && DependsOn(index, a, b)
        ensures b in Elements(closure)
      {
        var i :| 0 <= i < |closure| && closure[i] == a;
        assert index[b.name] in closure;
      }
      assert closure[0] in closure;
      ClosedSetsHoldPaths(index, Elements(closure), ps);
      var i :| 0 <= i < |closure| && closure[i] == p;
    }
  }

  ghost predicate StuckOn(index: Index, stuck: set<Package>, p: Package) {
    exists q :: DependsOn(index, p, q) && q in stuck
  }

  ghost predicate AllStuck(index: Index, stuck: set<Package>) {
    forall p {:trigger StuckOn(index, stuck, p)} :: p in stuck ==> StuckOn(index, stuck, p)
  }

  /** Where every package has a dependency that is stuck too, there is a path of any length among the stuck ones. */
  lemma {:induction false} LongPath(
    index: Index, stuck: set<Package>, start: Package, length: nat)
    returns (ps: seq<Package>)
    requires start in stuck && length > 0 && AllStuck(index, stuck)
    ensures IsPath(index, ps) && |ps| == length && ps[0] == start && forall i :: 0 <= i < |ps| ==> ps[i] in stuck
    decreases length
  {
    if length == 1 {
      ps := [start];
    } else {
      assert StuckOn(index, stuck, start);
      var q :| DependsOn(index, start, q) && q in stuck;
      var rest := LongPath(index, stuck, q, length - 1);
      ps := [start] + rest;
      forall i | 0 <= i < |ps| - 1
        ensures DependsOn(index, ps[i], ps[i + 1])
      {
        assert i > 0 ==> DependsOn(index, rest[i - 1], rest[i - 1 + 1]);
      }
    }
  }

  lemma {:induction false} Pigeonhole<T>(q: seq<T>, holes: set<T>)
    requires |q| > |holes| && forall i :: 0 <= i < |q| ==> q[i] in holes
    ensures exists i, j :: 0 <= i < j < |q| && q[i] == q[j]
  {
    var last, front := q[|q| - 1], q[..|q| - 1];
    if last in front {
      var i :| 0 <= i < |front| && front[i] == last;
      assert q[i] == q[|q| - 1];
    } else {
      assert forall i :: 0 <= i < |front| ==> front[i] in holes - {last};
      Pigeonhole(front, holes - {last});
      var i, j :| 0 <= i < j < |front| && front[i] == front[j];
      assert q[i] == q[j];
    }
  }

  lemma CycleAmongTheStuck(index: Index, stuck: set<Package>) returns (cycle: seq<Package>)
    requires stuck != {} && AllStuck(index, stuck)
    ensures IsPath(index, cycle) && |cycle| > 1 && cycle[0] == cycle[|cycle| - 1] && cycle[0] in stuck
  {
    var start :| start in stuck;
    var ps := LongPath(index, stuck, start, |stuck| + 1);
    Pigeonhole(ps, stuck);
    var i, j :| 0 <= i < j < |ps| && ps[i] == ps[j];
    cycle := ps[i..j + 1];
    forall x | 0 <= x < |cycle| - 1
      ensures DependsOn(index, cycle[x], cycle[x + 1])
    {
      assert DependsOn(index, ps[i + x], ps[i + x + 1]);
    }
  }

  /** A package left out of the order depends on another one left out. */
  lemma StuckOnAnother(index: Index, target: Package, closure: seq<Package>, order: seq<Package>, p: Package)
    requires WellNamed(index) && AllReachable(closure, index, target)
    requires forall i, d :: 0 <= i < |closure| && d in closure[i].deps ==> d in index && index[d] in closure
    requires forall i :: 0 <= i < |closure| ==> (closure[i] in order <==> Waiting(closure[i], order, index) == {})
    requires p in Elements(closure) - Elements(order)
    ensures Reachable(index, target, p) && StuckOn(index, Elements(closure) - Elements(order), p)
  {
    var i :| 0 <= i < |closure| && closure[i] == p;
    var d :| d in Waiting(p, order, index);
    assert DependsOn(index, p, index[d]);
  }

  /** If the queue runs dry early although nothing is missing from the closure, some dependencies form a cycle. */
  lemma ShortOrderMeansACycle(index: Index, target: Package, closure: seq<Package>, order: seq<Package>)
    requires WellNamed(index) && AllReachable(closure, index, target) && |order| < |closure|
            && DistinctlyFoldered(closure)
    requires forall i, d :: 0 <= i < |closure| && d in closure[i].deps ==> d in index && index[d] in closure
    requires forall i :: 0 <= i < |closure| ==> (closure[i] in order <==> Waiting(closure[i], order, index) == {})
    ensures !Acyclic(index, target)
  {
    var stuck := Elements(closure) - Elements(order);
    assert NoRepeats(closure);
    ElementsCount(closure);
    ElementsCount(order);
    SomethingLeft(Elements(closure), Elements(order));
    forall p | p in stuck
      ensures Reachable(index, target, p) && StuckOn(index, stuck, p)
    {
      StuckOnAnother(index, target, closure, order, p);
    }
    var cycle := CycleAmongTheStuck(index, stuck);
  }

  /** A plan is an order exactly when every reachable dependency is declared, no two reachable packages share a folder
    * name and the dependencies have no cycle. The cycle error is also how a shared folder name comes out. */
  method TransitiveClosureInBuildOrder(target: Package, index: Index) returns (plan: Plan)
    requires WellNamed(index)
    ensures plan.Order? <==> Complete(index, target) && DistinctFolders(index, target) && Acyclic(index, target)
    ensures plan.Order? ==> IsBuildOrder(plan.packages, index, target)
    ensures plan.Undeclared? ==> IsUndeclared(plan, index, target)
    ensures DistinctFolders(index, target) ==> (plan.Undeclared? <==> !Complete(index, target))
    ensures DistinctFolders(index, target) ==> (plan.Cycle? <==> Complete(index, target) && !Acyclic(index, target))
  {
    var collected := CollectClosure(target, index);
    if collected.Err? {
      return collected.error;
    }
    var closure := collected.value;
    ClosureIsDeclared(index, target, closure);
    var order := Kahn(closure, index, target);
    if |order| != |closure| {
      QueueFits(closure, order);
      if DistinctFolders(index, target) {
        ClosureIsClosed(index, target, closure);
        ShortOrderMeansACycle(index, target, closure, order);
      }
      return Cycle;
    }
    FullOrderIsABuildOrder(index, target, closure, order);
    plan := Order(order);
  }

  lemma ClosureIsDeclared(index: Index, target: Package, closure: seq<Package>)
    requires IsClosure(closure, index, target)
    ensures forall i :: 0 <= i < |closure| ==> closure[i].deps <= index.Keys
  {
    forall i, d | 0 <= i < |closure| && d in closure[i].deps
      ensures d in index
    {
      assert Covered(d, index, Folders(closure), []);
    }
  }

  // ---------------------------------------------------------------------------------------------
  // The discovered workspace
  // ---------------------------------------------------------------------------------------------

  /** discoverWorkspace keeps one package per folder name. */
  ghost predicate KeyedByFolder(workspace: map<string, Package>) {
    forall f <- workspace :: workspace[f].folderName == f
  }

  ghost predicate IndexOf(index: Index, workspace: map<string, Package>) {
    && WellNamed(index)
    && (forall n <- index :: index[n].folderName in workspace && workspace[index[n].folderName] == index[n])
    && (forall f <- workspace :: workspace[f].name in index)
  }

  /** The index by name; of two packages declaring one name it keeps the later. */
  method IndexByPackageName(workspace: map<string, Package>) returns (byName: Index)
    requires KeyedByFolder(workspace)
    ensures IndexOf(byName, workspace)
  {
    byName := map[];
    var folders := workspace.Keys;
    while folders != {}
      invariant folders <= workspace.Keys && WellNamed(byName)
      invariant forall n <- byName :: byName[n].folderName in workspace && workspace[byName[n].folderName] == byName[n]
      invariant forall f <- workspace.Keys - folders :: workspace[f].name in byName
      decreases |folders|
    {
      var f :| f in folders;
      folders := folders - {f};
      byName := byName[workspace[f].name := workspace[f]];
    }
  }

  /** For any package of a discovered workspace, the folders are distinct, so its cycle error means a cycle. */
  lemma DiscoveredFoldersAreDistinct(workspace: map<string, Package>, index: Index, target: Package)
    requires KeyedByFolder(workspace) && IndexOf(index, workspace)
    requires target.folderName in workspace && workspace[target.folderName] == target
    ensures DistinctFolders(index, target)
  {
    forall p, q | Reachable(index, target, p) && Reachable(index, target, q) && p.folderName == q.folderName
      ensures p == q
    {
      ReachableIsListed(index, target, p);
      ReachableIsListed(index, target, q);
    }
  }

  const APP: Package := Package("app", "web", {"lib"})
  const LIB: Package := Package("lib", "web", {})
  const SHARED: Index := map["app" := APP, "lib" := LIB]

  lemma SharedFolderFacts()
    ensures WellNamed(SHARED) && Complete(SHARED, APP) && Acyclic(SHARED, APP) && !DistinctFolders(SHARED, APP)
  {
    forall ps | IsPath(SHARED, ps) && Reachable(SHARED, APP, ps[0]) && |ps| > 1
      ensures ps[0] == APP && ps[|ps| - 1] == LIB
    {
      ReachableIsListed(SHARED, APP, ps[0]);
      assert DependsOn(SHARED, ps[0], ps[1]);
      assert |ps| > 2 ==> DependsOn(SHARED, ps[|ps| - 3], ps[|ps| - 3 + 1]);
      assert DependsOn(SHARED, ps[|ps| - 2], ps[|ps| - 2 + 1]);
    }
    forall p | Reachable(SHARED, APP, p)
      ensures p.deps <= SHARED.Keys
    {
      ReachableIsListed(SHARED, APP, p);
    }
    TargetReaches(SHARED, APP);
    assert DependsOn(SHARED, APP, LIB);
    StepReaches(SHARED, APP, APP, LIB);
  }

  /** Handed two packages of one folder name, the function reports a cycle where there is none. */
  method SharedFolderNameIsReportedAsACycle() returns (plan: Plan)
    ensures plan.Cycle? && Complete(SHARED, APP) && Acyclic(SHARED, APP)
  {
    SharedFolderFacts();
    plan := TransitiveClosureInBuildOrder(APP, SHARED);
  }
}
