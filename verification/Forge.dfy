/** The start and stop loops of `corten forge up` and `corten forge down` (src/main.rs).
    Each command resolves its own order, so the two may use different ones. */
module Forge {
  import opened Wrappers
  import opened Compose

  /** Whatever a service in `running` depends on is in `running` too. */
  ghost predicate Closed(services: Services, running: set<string>) {
    forall a, b :: a in running && DependsOn(services, a, b) ==> b in running
  }

  function Elements(s: seq<string>): set<string> {
    set n | n in s
  }

  /** Starting any prefix of a start order keeps the started set closed. */
  lemma StartedPrefixClosed(services: Services, order: seq<string>, i: nat, base: set<string>)
    requires IsStartOrder(services, order) && i <= |order|
    requires Closed(services, base)
    ensures Closed(services, base + Elements(order[..i]))
  {
  }

  /** Stopping any suffix of a start order, except services whose container is not found, keeps the
      remaining set closed if the ones left over are closed among themselves. */
  lemma StoppedSuffixClosed(services: Services, order: seq<string>, i: nat, base: set<string>, missing: set<string>)
    requires IsStartOrder(services, order) && i <= |order|
    requires Closed(services, base) && Closed(services, base * missing)
    ensures Closed(services, base - (Elements(order[i..]) - missing))
  {
  }

  /** When all of a start order is stopped, the services left over are those not found. */
  lemma LeftOverClosed(services: Services, base: set<string>, missing: set<string>)
    requires AllKnown(services)
    requires Closed(services, base) && Closed(services, base - (services.Keys - missing))
    ensures Closed(services, base * missing)
  {
    forall a, b | a in base * missing && DependsOn(services, a, b)
      ensures b in base * missing
    {
      assert a in base - (services.Keys - missing);
    }
  }

  /** `running` after each start of `order[..n]`, from `base`. */
  ghost function StartSteps(base: set<string>, order: seq<string>, n: nat): seq<set<string>>
    requires n <= |order|
  {
    seq(n, k requires 0 <= k < n => base + Elements(order[..k + 1]))
  }

  /** `running` after each of the last `n` services of `order` is stopped, last first, where the ones
      in `missing` are not found and so not stopped. */
  ghost function StopSteps(base: set<string>, order: seq<string>, missing: set<string>, n: nat): seq<set<string>>
    requires n <= |order|
  {
    seq(n, k requires 0 <= k < n => base - (Elements(order[|order| - 1 - k..]) - missing))
  }

  ghost predicate AllClosed(services: Services, history: seq<set<string>>) {
    forall k :: 0 <= k < |history| ==> Closed(services, history[k])
  }

  lemma StartStepsClosed(services: Services, order: seq<string>, n: nat, base: set<string>)
    requires IsStartOrder(services, order) && n <= |order| && Closed(services, base)
    ensures AllClosed(services, StartSteps(base, order, n))
  {
    var steps := StartSteps(base, order, n);
    forall k | 0 <= k < |steps|
      ensures Closed(services, steps[k])
    {
      StartedPrefixClosed(services, order, k + 1, base);
    }
  }

  lemma StopStepsClosed(services: Services, order: seq<string>, n: nat, base: set<string>, missing: set<string>)
    requires IsStartOrder(services, order) && n <= |order|
    requires Closed(services, base) && Closed(services, base * missing)
    ensures AllClosed(services, StopSteps(base, order, missing, n))
  {
    var steps := StopSteps(base, order, missing, n);
    forall k | 0 <= k < |steps|
      ensures Closed(services, steps[k])
    {
      StoppedSuffixClosed(services, order, |order| - 1 - k, base, missing);
    }
  }

  /** At every moment of an `up` that gets through `n` services, followed by a `down` that picked its own
      order and gets through `m`, no service runs without the services it depends on, provided the ones
      whose container the `down` does not find are closed among themselves; these alone are left by a
      complete `down`, however far the `up` got. */
  lemma UpThenDownClosed(services: Services, up: seq<string>, n: nat, down: seq<string>, m: nat, missing: set<string>)
    requires IsStartOrder(services, up) && n <= |up|
    requires IsStartOrder(services, down) && m <= |down|
    ensures AllClosed(services, StartSteps({}, up, n))
    ensures Closed(services, Elements(up[..n]) * missing) ==>
      AllClosed(services, StopSteps(Elements(up[..n]), down, missing, m))
    ensures Elements(up[..n]) - (Elements(down) - missing) == Elements(up[..n]) * missing
  {
    StartStepsClosed(services, up, n, {});
    StartedPrefixClosed(services, up, n, {});
    assert {} + Elements(up[..n]) == Elements(up[..n]);
    if Closed(services, Elements(up[..n]) * missing) {
      StopStepsClosed(services, down, m, Elements(up[..n]), missing);
    }
    assert forall s :: s in Elements(up[..n]) ==> s in up;
  }

  lemma StartStepsNext(base: set<string>, order: seq<string>, n: nat)
    requires n < |order|
    ensures base + Elements(order[..n + 1]) == base + Elements(order[..n]) + {order[n]}
    ensures StartSteps(base, order, n + 1) == StartSteps(base, order, n) + [base + Elements(order[..n + 1])]
  {
    assert order[..n + 1] == order[..n] + [order[n]];
  }

  lemma StopStepsNext(base: set<string>, order: seq<string>, missing: set<string>, n: nat)
    requires n < |order|
    ensures var i := |order| - 1 - n;
      && base - (Elements(order[i..]) - missing)
         == base - (Elements(order[i + 1..]) - missing) - (if order[i] in missing then {} else {order[i]})
      && StopSteps(base, order, missing, n + 1)
         == StopSteps(base, order, missing, n) + [base - (Elements(order[i..]) - missing)]
  {
    var i := |order| - 1 - n;
    assert order[i..] == [order[i]] + order[i + 1..];
  }

  datatype UpResult =
    | Unresolved(error: ResolveError)
    | FailedAt(order: seq<string>, started: nat)
    | AllStarted(order: seq<string>)

  /** The containers of one forge project. `history` records `running` after every start and stop. */
  class Project {
    const services: Services
    var running: set<string>
    ghost var history: seq<set<string>>

    constructor (services: Services)
      ensures this.services == services && running == {} && history == []
    {
      this.services := services;
      running := {};
      history := [];
    }

    ghost predicate Valid()
      reads this
    {
      && Closed(services, running)
      && forall h :: h in history ==> Closed(services, h)
    }

    /** `broken` holds the services whose pull, configuration or launch fails: the first ends the command. */
    method Up(keys: seq<string>, broken: set<string>) returns (r: UpResult)
      requires Valid()
      requires forall n :: n in keys <==> n in services
      modifies this
      ensures Valid()
      ensures r.Unresolved? ==> running == old(running) && history == old(history)
      ensures r.Unresolved? <==> !(AllKnown(services) && Acyclic(services))
      ensures !r.Unresolved? ==> IsStartOrder(services, r.order)
      ensures r.FailedAt? ==> r.started < |r.order| && r.order[r.started] in broken
      ensures r.FailedAt? ==> forall k :: 0 <= k < r.started ==> r.order[k] !in broken
      ensures r.FailedAt? ==> running == old(running) + Elements(r.order[..r.started])
      ensures r.FailedAt? ==> history == old(history) + StartSteps(old(running), r.order, r.started)
      ensures r.AllStarted? ==> running == old(running) + services.Keys && broken !! services.Keys
      ensures r.AllStarted? ==> history == old(history) + StartSteps(old(running), r.order, |r.order|)
    {
      var resolved := ResolveOrder(services, keys);
      if resolved.Err? {
        return Unresolved(resolved.error);
      }
      var order := resolved.value;
      var i := 0;
      while i < |order|
        invariant 0 <= i <= |order|
        invariant Valid()
        invariant running == old(running) + Elements(order[..i])
        invariant history == old(history) + StartSteps(old(running), order, i)
        invariant forall k :: 0 <= k < i ==> order[k] !in broken
      {
        if order[i] in broken {
          return FailedAt(order, i);
        }
        StartStepsNext(old(running), order, i);
        StartedPrefixClosed(services, order, i + 1, old(running));
        running := running + {order[i]};
        history := history + [running];
        i := i + 1;
      }
      assert order[..i] == order;
      return AllStarted(order);
    }

    /** `missing` holds the services whose container is not found. A complete `down` kept every
        dependency running as long as it was needed if and only if no running service it missed
        depended on one it found. */
    method Down(keys: seq<string>, missing: set<string>) returns (r: Result<seq<string>, ResolveError>)
      requires Valid()
      requires forall n :: n in keys <==> n in services
      modifies this
      ensures r.Ok? <==> AllKnown(services) && Acyclic(services)
      ensures r.Err? ==> Valid() && running == old(running) && history == old(history)
      ensures r.Ok? ==> (Valid() <==> Closed(services, old(running) * missing))
      ensures r.Ok? ==> IsStartOrder(services, r.value) && running == old(running) - (services.Keys - missing)
      ensures r.Ok? ==> history == old(history) + StopSteps(old(running), r.value, missing, |r.value|)
    {
      var resolved := ResolveOrder(services, keys);
      if resolved.Err? {
        return resolved;
      }
      var order := resolved.value;
      var i := |order|;
      while i > 0
        invariant 0 <= i <= |order|
        invariant running == old(running) - (Elements(order[i..]) - missing)
        invariant history == old(history) + StopSteps(old(running), order, missing, |order| - i)
      {
        i := i - 1;
        StopStepsNext(old(running), order, missing, |order| - 1 - i);
        if order[i] !in missing {
          running := running - {order[i]};
        }
        history := history + [running];
      }
      assert order[0..] == order;
      if Closed(services, old(running) * missing) {
        StopStepsClosed(services, order, |order|, old(running), missing);
        StoppedSuffixClosed(services, order, 0, old(running), missing);
      }
      if Closed(services, running) {
        LeftOverClosed(services, old(running), missing);
      }
      return resolved;
    }
  }
}
