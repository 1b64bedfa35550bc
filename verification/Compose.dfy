/** The start-order resolver of `corten forge` (src/compose.rs).
    A depth-first search over three mutable collections: `order` (the result), `visited`
    (finished services) and `visiting` (the services on the current search path). */
module Compose {
  import opened Wrappers

  /** Service name -> its `depends_on` list. */
  type Services = map<string, seq<string>>

  datatype ResolveError =
    | Circular(name: string)
    | Unknown(name: string, dep: string)

  // ---------- The dependency graph ----------

  predicate DependsOn(services: Services, a: string, b: string) {
    a in services && b in services[a]
  }

  ghost predicate AllKnown(services: Services) {
    forall a, b :: DependsOn(services, a, b) ==> b in services
  }

  ghost predicate IsPath(services: Services, p: seq<string>) {
    forall i :: 0 <= i < |p| - 1 ==> DependsOn(services, p[i], p[i + 1])
  }

  ghost predicate IsCycle(services: Services, p: seq<string>) {
    |p| >= 2 && p[0] == p[|p| - 1] && IsPath(services, p)
  }

  ghost predicate Acyclic(services: Services) {
    forall p :: !IsCycle(services, p)
  }

  /** `a` depends, directly or through others, on `b`, or is `b`. */
  ghost predicate Reaches(services: Services, a: string, b: string) {
    exists p :: |p| >= 1 && p[0] == a && p[|p| - 1] == b && IsPath(services, p)
  }

  ghost predicate AllReached(services: Services, a: string, found: set<string>) {
    forall n :: n in found ==> Reaches(services, a, n)
  }

  /** What each error claims about the graph: a cycle through the named service, or an edge to nowhere. */
  ghost predicate ErrorWitnessed(services: Services, e: ResolveError) {
    match e
    case Circular(name) => exists c :: IsCycle(services, c) && c[0] == name
    case Unknown(name, dep) => DependsOn(services, name, dep) && dep !in services
  }

  // ---------- What a start order is ----------

  ghost predicate NoDuplicates(s: seq<string>) {
    forall i, j :: 0 <= i < j < |s| ==> s[i] != s[j]
  }

  /** Every service comes strictly after everything it depends on. */
  ghost predicate DepsFirst(services: Services, order: seq<string>) {
    forall i, d :: 0 <= i < |order| && DependsOn(services, order[i], d) ==> d in order[..i]
  }

  ghost predicate AllIn(deps: seq<string>, done: set<string>) {
    forall d :: d in deps ==> d in done
  }

  lemma AllInExtends(deps: seq<string>, i: nat, before: set<string>, after: set<string>)
    requires i < |deps| && AllIn(deps[..i], before) && before <= after && deps[i] in after
    ensures AllIn(deps[..i + 1], after)
  {
    assert deps[..i + 1] == deps[..i] + [deps[i]];
  }

  /** `order` lists the finished services, each once and each after its dependencies. */
  ghost predicate Settled(services: Services, order: seq<string>, visited: set<string>) {
    && (forall n :: n in order <==> n in visited)
    && NoDuplicates(order)
    && DepsFirst(services, order)
  }

  /** All services are finished. */
  ghost predicate IsStartOrder(services: Services, order: seq<string>) {
    Settled(services, order, services.Keys)
  }

  /** Walking a dependency path moves strictly backwards in any deps-first order. */
  lemma {:induction false} PathDescends(services: Services, order: seq<string>, p: seq<string>, i: nat)
    requires DepsFirst(services, order)
    requires |p| >= 2 && IsPath(services, p)
    requires i < |order| && order[i] == p[0]
    ensures p[|p| - 1] in order[..i]
    decreases |p|
  {
    assert DependsOn(services, p[0], p[1]);
    var j :| 0 <= j < i && order[j] == p[1];
    if |p| > 2 {
      var q := p[1..];
      forall k | 0 <= k < |q| - 1
        ensures DependsOn(services, q[k], q[k + 1])
      {
        assert DependsOn(services, p[k + 1], p[k + 2]);
      }
      PathDescends(services, order, q, j);
      assert order[..j] <= order[..i];
    }
  }

  /** A start order exists only for complete, acyclic dependency graphs. */
  lemma StartOrderExcludesCycles(services: Services, order: seq<string>)
    requires IsStartOrder(services, order)
    ensures AllKnown(services) && Acyclic(services)
  {
    forall a, b | DependsOn(services, a, b)
      ensures b in services
    {
      var i :| 0 <= i < |order| && order[i] == a;
      assert b in order[..i];
    }
    forall p | IsCycle(services, p)
      ensures false
    {
      assert DependsOn(services, p[0], p[1]);
      var i :| 0 <= i < |order| && order[i] == p[0];
      PathDescends(services, order, p, i);
    }
  }

  /** The search path followed by an edge back into it contains a cycle through `name`. */
  lemma StackClosesCycle(services: Services, stack: seq<string>, name: string)
    requires IsPath(services, stack) && name in stack
    requires DependsOn(services, stack[|stack| - 1], name)
    ensures exists c :: IsCycle(services, c) && c[0] == name
  {
    var i :| 0 <= i < |stack| && stack[i] == name;
    var c := stack[i..] + [name];
    forall k | 0 <= k < |c| - 1
      ensures DependsOn(services, c[k], c[k + 1])
    {
      if k < |c| - 2 {
        assert c[k] == stack[i + k] && c[k + 1] == stack[i + k + 1];
      }
    }
    assert IsCycle(services, c);
  }

  lemma PathExtends(services: Services, stack: seq<string>, name: string)
    requires IsPath(services, stack)
    requires stack != [] ==> DependsOn(services, stack[|stack| - 1], name)
    ensures IsPath(services, stack + [name])
  {
  }

  lemma ReachesItself(services: Services, a: string)
    ensures Reaches(services, a, a)
  {
    assert IsPath(services, [a]);
  }

  lemma AllReachThrough(services: Services, a: string, d: string, found: set<string>)
    requires DependsOn(services, a, d)
    requires AllReached(services, d, found)
    ensures AllReached(services, a, found)
  {
    forall n | n in found
      ensures Reaches(services, a, n)
    {
      ReachesThrough(services, a, d, n);
    }
  }

  lemma ReachesThrough(services: Services, a: string, d: string, b: string)
    requires DependsOn(services, a, d) && Reaches(services, d, b)
    ensures Reaches(services, a, b)
  {
    var p :| |p| >= 1 && p[0] == d && p[|p| - 1] == b && IsPath(services, p);
    var q := [a] + p;
    forall k | 0 <= k < |q| - 1
      ensures DependsOn(services, q[k], q[k + 1])
    {
      if k > 0 {
        assert q[k] == p[k - 1] && q[k + 1] == p[k];
      }
    }
    assert IsPath(services, q);
  }

  lemma FinishKeepsSettled(services: Services, order: seq<string>, visited: set<string>, name: string)
    requires Settled(services, order, visited) && name !in visited
    requires name in services ==> AllIn(services[name], visited)
    ensures Settled(services, order + [name], visited + {name})
  {
    var longer := order + [name];
    assert NoDuplicates(longer);
    forall i, d | 0 <= i < |longer| && DependsOn(services, longer[i], d)
      ensures d in longer[..i]
    {
      assert longer[..i] == order[..i];
      assert i < |order| ==> DependsOn(services, order[i], d);
      assert order[..|order|] == order;
    }
  }

  // ---------- The resolver ----------

  class Resolver {
    const services: Services
    var order: seq<string>
    var visited: set<string>
    var visiting: set<string>

    constructor (services: Services)
      ensures this.services == services
      ensures order == [] && visited == {} && visiting == {}
    {
      this.services := services;
      order, visited, visiting := [], {}, {};
    }

    ghost predicate Valid()
      reads this
    {
      Settled(services, order, visited) && visited !! visiting
    }

    /** `stack` lists `visiting` in the order the search entered it. */
    ghost predicate OnPath(stack: seq<string>)
      reads this
    {
      && (forall n :: n in stack <==> n in visiting)
      && IsPath(services, stack)
    }

    method TopoSort(name: string, ghost stack: seq<string>) returns (r: Result<(), ResolveError>)
      requires Valid() && OnPath(stack)
      requires stack != [] ==> DependsOn(services, stack[|stack| - 1], name)
      modifies this`order, this`visited, this`visiting
      decreases |services.Keys - visiting|, 1
      ensures r.Ok? ==> Valid() && visiting == old(visiting) && name in visited
      ensures r.Ok? ==> old(order) <= order && old(visited) <= visited <= old(visited) + {name} + services.Keys
      ensures r.Ok? ==>
        if name in old(visited) then order == old(order) else order != [] && order[|order| - 1] == name
      ensures r.Ok? ==> AllReached(services, name, visited - old(visited))
      ensures r.Err? ==> ErrorWitnessed(services, r.error)
    {
      if name in visited {
        return Ok(());
      }
      if name in visiting {
        StackClosesCycle(services, stack, name);
        return Err(Circular(name));
      }

      visiting := visiting + {name};
      PathExtends(services, stack, name);
      var sub := VisitDeps(name, stack + [name], old(visiting));
      if sub.Err? {
        return sub;
      }
      Finish(name);
      ReachesItself(services, name);
      return Ok(());
    }

    /** The three updates that end a successful `TopoSort`. */
    method Finish(name: string)
      requires Valid() && name in visiting
      requires name in services ==> AllIn(services[name], visited)
      modifies this`order, this`visited, this`visiting
      ensures Valid()
      ensures visiting == old(visiting) - {name}
      ensures visited == old(visited) + {name}
      ensures order == old(order) + [name]
    {
      FinishKeepsSettled(services, order, visited, name);
      visiting := visiting - {name};
      visited := visited + {name};
      order := order + [name];
    }

    /** The loop over `depends_on` in the middle of `TopoSort`; `above` is `visiting` without `name`. */
    method VisitDeps(name: string, ghost stack: seq<string>, ghost above: set<string>)
      returns (r: Result<(), ResolveError>)
      requires Valid() && OnPath(stack) && stack != [] && stack[|stack| - 1] == name
      requires name !in above && visiting == above + {name}
      modifies this`order, this`visited, this`visiting
      decreases |services.Keys - above|, 0
      ensures r.Ok? ==> Valid() && visiting == old(visiting)
      ensures r.Ok? && name in services ==> AllIn(services[name], visited)
      ensures r.Ok? ==> old(order) <= order && old(visited) <= visited <= old(visited) + services.Keys
      ensures r.Ok? ==> AllReached(services, name, visited - old(visited))
      ensures r.Err? ==> ErrorWitnessed(services, r.error)
    {
      if name !in services {
        return Ok(());
      }
      FewerUnvisited(services.Keys, above, name);
      var deps := services[name];
      var i := 0;
      while i < |deps|
        invariant 0 <= i <= |deps|
        invariant Valid() && visiting == old(visiting)
        invariant AllIn(deps[..i], visited)
        invariant old(order) <= order && old(visited) <= visited <= old(visited) + services.Keys
        invariant AllReached(services, name, visited - old(visited))
      {
        var dep := deps[i];
        assert DependsOn(services, name, dep);
        if dep !in services {
          return Err(Unknown(name, dep));
        }
        ghost var before := visited;
        var sub := TopoSort(dep, stack);
        if sub.Err? {
          return sub;
        }
        AllReachThrough(services, name, dep, visited - before);
        AllInExtends(deps, i, before, visited);
        i := i + 1;
      }
      assert deps[..i] == deps;
      return Ok(());
    }
  }

  /** The recursion's measure: entering a known service leaves fewer services to enter. */
  lemma FewerUnvisited(all: set<string>, visiting: set<string>, name: string)
    requires name in all && name !in visiting
    ensures |all - (visiting + {name})| < |all - visiting|
  {
    assert all - visiting == (all - (visiting + {name})) + {name};
  }

  /** Runs the search from every service; `keys` is whatever order the hash map yields. */
  method ResolveOrder(services: Services, keys: seq<string>) returns (r: Result<seq<string>, ResolveError>)
    requires forall n :: n in keys <==> n in services
    ensures r.Ok? <==> AllKnown(services) && Acyclic(services)
    ensures r.Ok? ==> IsStartOrder(services, r.value)
    ensures r.Err? ==> ErrorWitnessed(services, r.error)
  {
    var resolver := new Resolver(services);
    var i := 0;
    while i < |keys|
      invariant 0 <= i <= |keys|
      invariant resolver.services == services
      invariant resolver.Valid() && resolver.visiting == {}
      invariant resolver.visited <= services.Keys
      invariant forall k :: 0 <= k < i ==> keys[k] in resolver.visited
    {
      var sub := resolver.TopoSort(keys[i], []);
      if sub.Err? {
        return Err(sub.error);
      }
      i := i + 1;
    }
    StartOrderExcludesCycles(services, resolver.order);
    return Ok(resolver.order);
  }
}
