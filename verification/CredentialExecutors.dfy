/**
  The single-flight cache of credential-refresh executors. A promise is cached when its load
  starts; if the load fails, a rejection handler later removes the entry. The three things that
  can happen, in any interleaving: a call, a load settling, a rejection handler running.
 */
module CredentialExecutors {
  import opened Wrappers
  import opened Sets

  /** Rejected: the load has failed but its handler has not run. Evicted: the handler has run. */
  datatype Status = Pending | Fulfilled | Rejected | Evicted

  datatype Load = Load(provider: string, status: Status)

  /** Every promise ever made, by number, and which one each provider has cached. */
  datatype State = State(loads: seq<Load>, cache: map<string, nat>)

  datatype Step =
    | Call(provider: string, available: bool, specialized: bool, constructible: bool)
    | Settle(load: nat, ok: bool)
    | RunHandler(load: nat)

  const Initial := State([], map[])

  /** The promise a call returns; None when it throws before there is one. */
  function Returned(s: State, c: Step): Option<nat>
    requires c.Call?
  {
    if !c.available then None
    else if c.provider in s.cache then Some(s.cache[c.provider])
    else if !c.specialized && !c.constructible then None
    else Some(|s.loads|)
  }

  /** A settlement or a handler that is not due changes nothing. */
  function Next(s: State, step: Step): State {
    match step
    case Call(provider, _, specialized, _) =>
      if Returned(s, step) == Some(|s.loads|) && provider !in s.cache then
        State(s.loads + [Load(provider, if specialized then Pending else Fulfilled)], s.cache[provider := |s.loads|])
      else s
    case Settle(i, ok) =>
      if i < |s.loads| && s.loads[i].status == Pending then
        s.(loads := s.loads[i := s.loads[i].(status := if ok then Fulfilled else Rejected)])
      else s
    case RunHandler(i) =>
      if i < |s.loads| && s.loads[i].status == Rejected then
        State(s.loads[i := s.loads[i].(status := Evicted)], s.cache - {s.loads[i].provider})
      else s
  }

  class CredentialExecutorCache {
    var loads: seq<Load>
    var credentialExecutorCache: map<string, nat>

    constructor ()
      ensures Contents() == Initial
    {
      loads, credentialExecutorCache := [], map[];
    }

    function Contents(): State
      reads this
    {
      State(loads, credentialExecutorCache)
    }

    method GetCredentialRefreshExecutor(provider: string, available: bool, specialized: bool, constructible: bool)
      returns (promise: Option<nat>)
      modifies this
      ensures
        var call := Call(provider, available, specialized, constructible);
        promise == Returned(old(Contents()), call) && Contents() == Next(old(Contents()), call)
    {
      if !available {
        return None;
      }
      if provider !in credentialExecutorCache {
        var status := Pending;
        if !specialized {
          if !constructible {
            return None;
          }
          status := Fulfilled;
        }
        credentialExecutorCache := credentialExecutorCache[provider := |loads|];
        loads := loads + [Load(provider, status)];
      }
      return Some(credentialExecutorCache[provider]);
    }

    method InnerSettles(load: nat, ok: bool)
      requires load < |loads| && loads[load].status == Pending
      modifies this`loads
      ensures Contents() == Next(old(Contents()), Settle(load, ok))
    {
      loads := loads[load := loads[load].(status := if ok then Fulfilled else Rejected)];
    }

    method RejectionHandler(load: nat)
      requires load < |loads| && loads[load].status == Rejected
      modifies this
      ensures Contents() == Next(old(Contents()), RunHandler(load))
    {
      credentialExecutorCache := credentialExecutorCache - {loads[load].provider};
      loads := loads[load := loads[load].(status := Evicted)];
    }
  }

  // ---------------------------------------------------------------- every interleaving

  ghost function StateAfter(s: State, steps: seq<Step>): State {
    if steps == [] then s else Next(StateAfter(s, steps[..|steps| - 1]), steps[|steps| - 1])
  }

  ghost predicate Cached(s: State, i: nat) {
    i < |s.loads| && s.loads[i].provider in s.cache && s.cache[s.loads[i].provider] == i
  }

  /** The promises cached are exactly those not evicted, each under its own provider. */
  ghost predicate Invariant(s: State) {
    && (forall p :: p in s.cache ==> s.cache[p] < |s.loads| && s.loads[s.cache[p]].provider == p)
    && (forall i: nat :: i < |s.loads| ==> (Cached(s, i) <==> s.loads[i].status != Evicted))
  }

  lemma StepKeepsInvariant(s: State, step: Step)
    requires Invariant(s)
    ensures Invariant(Next(s, step))
  {
    var s' := Next(s, step);
    forall i: nat | i < |s'.loads|
      ensures Cached(s', i) <==> s'.loads[i].status != Evicted
    {
      if i < |s.loads| {
        assert Cached(s, i) <==> s.loads[i].status != Evicted;
        if step.RunHandler? && s' != s {
          assert Cached(s, step.load);
        }
      }
    }
  }

  lemma {:induction false} InvariantAlways(s: State, steps: seq<Step>)
    requires Invariant(s)
    ensures Invariant(StateAfter(s, steps))
  {
    if steps != [] {
      InvariantAlways(s, steps[..|steps| - 1]);
      StepKeepsInvariant(StateAfter(s, steps[..|steps| - 1]), steps[|steps| - 1]);
    }
  }

  // ---------------------------------------------------------------- loads read off the history

  /** Where in the history load i started. */
  ghost function Birth(steps: seq<Step>, i: nat): (b: nat)
    requires i < |StateAfter(Initial, steps).loads|
    ensures b < |steps|
  {
    var front := steps[..|steps| - 1];
    if i < |StateAfter(Initial, front).loads| then Birth(front, i) else |front|
  }

  /** The steps since load i started. */
  ghost function Life(steps: seq<Step>, i: nat): seq<Step>
    requires i < |StateAfter(Initial, steps).loads|
  {
    steps[Birth(steps, i) + 1..]
  }

  datatype Settlement = Unsettled | Well | Badly

  /** How load i first settles in these steps. */
  ghost function Outcome(life: seq<Step>, i: nat): Settlement {
    if life == [] then Unsettled
    else
      var front, last := life[..|life| - 1], life[|life| - 1];
      if Outcome(front, i) != Unsettled then Outcome(front, i)
      else if last == Settle(i, true) then Well
      else if last == Settle(i, false) then Badly
      else Unsettled
  }

  /** The handler of load i has run after the load failed. */
  ghost predicate Handled(life: seq<Step>, i: nat) {
    && life != []
    && var front, last := life[..|life| - 1], life[|life| - 1];
       Handled(front, i) || (Outcome(front, i) == Badly && last == RunHandler(i))
  }

  /** The default executor is there at once; a specialised one when its load settles well. */
  ghost predicate Succeeded(steps: seq<Step>, i: nat) {
    && i < |StateAfter(Initial, steps).loads|
    && var start := steps[Birth(steps, i)];
       start.Call? && (!start.specialized || Outcome(Life(steps, i), i) == Well)
  }

  ghost predicate Failed(steps: seq<Step>, i: nat) {
    && i < |StateAfter(Initial, steps).loads|
    && var start := steps[Birth(steps, i)];
       start.Call? && start.specialized && Outcome(Life(steps, i), i) == Badly
  }

  ghost predicate FailedAndHandled(steps: seq<Step>, i: nat) {
    Failed(steps, i) && Handled(Life(steps, i), i)
  }

  /** Load i was started by a call for this provider. */
  ghost predicate StartedFor(steps: seq<Step>, i: nat, provider: string) {
    && i < |StateAfter(Initial, steps).loads|
    && var start := steps[Birth(steps, i)];
       start.Call? && start.provider == provider
  }

  /** A step later an older load has the same start and one more step behind it. */
  lemma LifeStep(front: seq<Step>, last: Step, i: nat)
    requires i < |StateAfter(Initial, front).loads|
    ensures StateAfter(Initial, front + [last]) == Next(StateAfter(Initial, front), last)
    ensures Birth(front + [last], i) == Birth(front, i)
    ensures Life(front + [last], i) == Life(front, i) + [last]
  {
    assert (front + [last])[..|front|] == front;
  }

  ghost function StatusOf(specialized: bool, outcome: Settlement, handled: bool): Status {
    if !specialized || outcome == Well then Fulfilled
    else if outcome == Unsettled then Pending
    else if handled then Evicted
    else Rejected
  }

  ghost predicate Recorded(steps: seq<Step>, i: nat)
    requires i < |StateAfter(Initial, steps).loads|
  {
    var start, life := steps[Birth(steps, i)], Life(steps, i);
    && start.Call?
    && StateAfter(Initial, steps).loads[i] ==
       Load(start.provider, StatusOf(start.specialized, Outcome(life, i), Handled(life, i)))
  }

  /** What one step does to the status of load i. */
  ghost function StatusNext(status: Status, step: Step, i: nat): Status {
    if status == Pending && step == Settle(i, true) then Fulfilled
    else if status == Pending && step == Settle(i, false) then Rejected
    else if status == Rejected && step == RunHandler(i) then Evicted
    else status
  }

  lemma NextStatus(s: State, step: Step, i: nat)
    requires i < |s.loads|
    ensures |s.loads| <= |Next(s, step).loads|
    ensures Next(s, step).loads[i] == s.loads[i].(status := StatusNext(s.loads[i].status, step, i))
  {
  }

  lemma {:induction false} HandledAfterFailure(life: seq<Step>, i: nat)
    ensures Handled(life, i) ==> Outcome(life, i) == Badly
  {
    if life != [] {
      HandledAfterFailure(life[..|life| - 1], i);
    }
  }

  lemma HistoryNext(specialized: bool, life: seq<Step>, step: Step, i: nat)
    ensures StatusOf(specialized, Outcome(life + [step], i), Handled(life + [step], i))
         == StatusNext(StatusOf(specialized, Outcome(life, i), Handled(life, i)), step, i)
  {
    var longer := life + [step];
    assert longer[..|longer| - 1] == life && longer[|longer| - 1] == step;
    HandledAfterFailure(life, i);
  }

  lemma RecordedStep(front: seq<Step>, last: Step, i: nat)
    requires i < |StateAfter(Initial, front).loads| && Recorded(front, i)
    ensures i < |StateAfter(Initial, front + [last]).loads|
    ensures Recorded(front + [last], i)
  {
    LifeStep(front, last, i);
    NextStatus(StateAfter(Initial, front), last, i);
    HistoryNext(front[Birth(front, i)].specialized, Life(front, i), last, i);
  }

  lemma {:induction false} RecordedAlways(steps: seq<Step>, i: nat)
    requires i < |StateAfter(Initial, steps).loads|
    ensures Recorded(steps, i)
  {
    var front, last := steps[..|steps| - 1], steps[|steps| - 1];
    assert steps == front + [last];
    if i < |StateAfter(Initial, front).loads| {
      RecordedAlways(front, i);
      RecordedStep(front, last, i);
    } else {
      assert Life(steps, i) == [];
    }
  }

  /** What is recorded of a load is what the history says of it. */
  lemma StatusIsHistory(steps: seq<Step>, i: nat)
    requires i < |StateAfter(Initial, steps).loads|
    ensures
      var start := steps[Birth(steps, i)];
      start.Call? && StateAfter(Initial, steps).loads[i] == Load(start.provider,
        if Succeeded(steps, i) then Fulfilled
        else if FailedAndHandled(steps, i) then Evicted
        else if Failed(steps, i) then Rejected
        else Pending)
  {
    var start, life := steps[Birth(steps, i)], Life(steps, i);
    RecordedAlways(steps, i);
    assert Succeeded(steps, i) <==> !start.specialized || Outcome(life, i) == Well;
    assert Failed(steps, i) <==> start.specialized && Outcome(life, i) == Badly;
    assert FailedAndHandled(steps, i) <==> Failed(steps, i) && Handled(life, i);
  }

  /** A promise is cached exactly when its load did not fail and then have its handler run. */
  lemma CachedByHistory(steps: seq<Step>, i: nat)
    requires i < |StateAfter(Initial, steps).loads|
    ensures Cached(StateAfter(Initial, steps), i) <==> !FailedAndHandled(steps, i)
  {
    InvariantAlways(Initial, steps);
    StatusIsHistory(steps, i);
  }

  /**
    What a call does, from the history alone. An unavailable provider's call throws. Otherwise a
    load that did not fail and have its handler run is shared; where there is none exactly one new
    load starts, unless the default executor cannot be built.
   */
  lemma CallByHistory(steps: seq<Step>, call: Step)
    requires call.Call?
    ensures
      var s := StateAfter(Initial, steps);
      var s' := Next(s, call);
      && (!call.available ==> Returned(s, call) == None && s' == s)
      && (call.available ==>
            (forall i: nat :: StartedFor(steps, i, call.provider) && !FailedAndHandled(steps, i) ==>
               Returned(s, call) == Some(i) && s' == s) &&
            ((forall i: nat :: StartedFor(steps, i, call.provider) ==> FailedAndHandled(steps, i)) ==>
               if call.specialized || call.constructible then
                 Returned(s, call) == Some(|s.loads|) && StartedFor(steps + [call], |s.loads|, call.provider) &&
                 |s'.loads| == |s.loads| + 1 && s'.loads[..|s.loads|] == s.loads
               else Returned(s, call) == None && s' == s))
  {
    var s := StateAfter(Initial, steps);
    InvariantAlways(Initial, steps);
    assert (steps + [call])[..|steps|] == steps;
    forall i: nat | i < |s.loads|
      ensures StartedFor(steps, i, call.provider) <==> s.loads[i].provider == call.provider
      ensures Cached(s, i) <==> !FailedAndHandled(steps, i)
    {
      StatusIsHistory(steps, i);
      CachedByHistory(steps, i);
    }
    if call.provider in s.cache {
      assert Cached(s, s.cache[call.provider]);
    }
  }

  /** A load that succeeded is what every later call for its provider returns, whatever happens in between. */
  lemma SuccessIsReturned(steps: seq<Step>, more: seq<Step>, i: nat, call: Step)
    requires Succeeded(steps, i) && call.Call? && call.available && StartedFor(steps, i, call.provider)
    ensures
      var s := StateAfter(Initial, steps + more);
      Returned(s, call) == Some(i) && Next(s, call) == s
  {
    SuccessStays(steps, more, i, call.provider);
    CallByHistory(steps + more, call);
  }

  lemma {:induction false} SuccessStays(steps: seq<Step>, more: seq<Step>, i: nat, provider: string)
    requires Succeeded(steps, i) && StartedFor(steps, i, provider)
    ensures Succeeded(steps + more, i) && StartedFor(steps + more, i, provider)
  {
    if more == [] {
      assert steps + more == steps;
    } else {
      var front, last := more[..|more| - 1], more[|more| - 1];
      SuccessStays(steps, front, i, provider);
      assert steps + more == steps + front + [last];
      SuccessStaysOneStep(steps + front, last, i, provider);
    }
  }

  lemma SuccessStaysOneStep(steps: seq<Step>, last: Step, i: nat, provider: string)
    requires Succeeded(steps, i) && StartedFor(steps, i, provider)
    ensures Succeeded(steps + [last], i) && StartedFor(steps + [last], i, provider)
  {
    var life := Life(steps, i);
    LifeStep(steps, last, i);
    NextStatus(StateAfter(Initial, steps), last, i);
    assert (life + [last])[..|life|] == life;
  }

  ghost predicate NoCallFor(steps: seq<Step>, provider: string) {
    forall k :: 0 <= k < |steps| && steps[k].Call? ==> steps[k].provider != provider
  }

  lemma {:induction false} StaysUncached(steps: seq<Step>, more: seq<Step>, provider: string)
    requires provider !in StateAfter(Initial, steps).cache && NoCallFor(more, provider)
    ensures provider !in StateAfter(Initial, steps + more).cache
  {
    if more == [] {
      assert steps + more == steps;
    } else {
      var front, last := more[..|more| - 1], more[|more| - 1];
      StaysUncached(steps, front, provider);
      assert (steps + more)[..|steps + more| - 1] == steps + front;
    }
  }

  /** Once a failed load's handler has run, the next call that can start a load starts exactly one. */
  lemma FailureReloads(steps: seq<Step>, i: nat, more: seq<Step>, call: Step)
    requires Failed(steps, i) && !FailedAndHandled(steps, i)
    requires call.Call? && call.available && (call.specialized || call.constructible)
    requires StartedFor(steps, i, call.provider) && NoCallFor(more, call.provider)
    ensures
      var s := StateAfter(Initial, steps + [RunHandler(i)] + more);
      Returned(s, call) == Some(|s.loads|) && |Next(s, call).loads| == |s.loads| + 1
  {
    var handled := steps + [RunHandler(i)];
    var all := handled + more;
    StatusIsHistory(steps, i);
    assert handled[..|steps|] == steps;
    StaysUncached(handled, more, call.provider);
    forall j: nat | StartedFor(all, j, call.provider) ensures FailedAndHandled(all, j) {
      StatusIsHistory(all, j);
      CachedByHistory(all, j);
    }
    CallByHistory(all, call);
  }

  /** Single flight: whatever the interleaving, a provider never has two loads that are not evicted. */
  lemma SingleFlight(steps: seq<Step>, i: nat, j: nat)
    requires
      var s := StateAfter(Initial, steps);
      i < |s.loads| && j < |s.loads| && s.loads[i].provider == s.loads[j].provider &&
      s.loads[i].status != Evicted && s.loads[j].status != Evicted
    ensures i == j
  {
    InvariantAlways(Initial, steps);
    var s := StateAfter(Initial, steps);
    assert Cached(s, i) && Cached(s, j);
  }

  /** The rejection handler evicts the very promise that failed, and no other entry. */
  lemma HandlerEvictsItsOwnPromise(steps: seq<Step>, i: nat)
    requires
      var s := StateAfter(Initial, steps);
      i < |s.loads| && s.loads[i].status == Rejected
    ensures
      var s := StateAfter(Initial, steps);
      var s' := Next(s, RunHandler(i));
      Cached(s, i) && s'.cache.Keys == s.cache.Keys - {s.loads[i].provider} &&
      forall p :: p in s.cache && s.cache[p] != i ==> p in s'.cache && s'.cache[p] == s.cache[p]
  {
    InvariantAlways(Initial, steps);
    var s := StateAfter(Initial, steps);
    assert Cached(s, i);
  }

  /** From s to s' load i is untouched and its provider starts no other. */
  ghost predicate Settled(s: State, s': State, i: nat) {
    && i < |s.loads| <= |s'.loads| && s'.loads[i] == s.loads[i]
    && (forall j: nat :: j < |s.loads| ==> s'.loads[j].provider == s.loads[j].provider)
    && (forall j: nat :: |s.loads| <= j < |s'.loads| ==> s'.loads[j].provider != s.loads[i].provider)
  }

  lemma StepKeepsSuccess(s: State, step: Step, i: nat)
    requires Invariant(s) && i < |s.loads| && s.loads[i].status == Fulfilled
    ensures Settled(s, Next(s, step), i)
  {
    assert Cached(s, i);
  }

  /** A successful load is never evicted: every later call gets it, and no further load starts for its provider. */
  lemma {:induction false} SuccessIsForever(steps: seq<Step>, more: seq<Step>, i: nat)
    requires i < |StateAfter(Initial, steps).loads| && StateAfter(Initial, steps).loads[i].status == Fulfilled
    ensures
      var s, s' := StateAfter(Initial, steps), StateAfter(StateAfter(Initial, steps), more);
      Settled(s, s', i) && Cached(s', i)
  {
    var s := StateAfter(Initial, steps);
    InvariantAlways(Initial, steps);
    SuccessKept(s, more, i);
    InvariantAlways(s, more);
    assert StateAfter(s, more).loads[i].status != Evicted;
  }

  lemma {:induction false} SuccessKept(s: State, more: seq<Step>, i: nat)
    requires Invariant(s) && i < |s.loads| && s.loads[i].status == Fulfilled
    ensures Settled(s, StateAfter(s, more), i)
  {
    if more != [] {
      var front, last := more[..|more| - 1], more[|more| - 1];
      SuccessKept(s, front, i);
      InvariantAlways(s, front);
      StepKeepsSuccess(StateAfter(s, front), last, i);
    }
  }

  /** Until its handler runs, every call for the provider returns the same promise. */
  lemma SharedUntilEvicted(steps: seq<Step>, i: nat, call: Step)
    requires call.Call? && call.available
    requires
      var s := StateAfter(Initial, steps);
      i < |s.loads| && s.loads[i].provider == call.provider && s.loads[i].status != Evicted
    ensures
      var s := StateAfter(Initial, steps);
      Returned(s, call) == Some(i) && Next(s, call) == s
  {
    InvariantAlways(Initial, steps);
    assert Cached(StateAfter(Initial, steps), i);
  }

  ghost function LoadsFor(steps: seq<Step>, p: string): set<nat> {
    set i: nat | i < |StateAfter(Initial, steps).loads| && StartedFor(steps, i, p)
  }

  ghost function FailuresFor(steps: seq<Step>, p: string): set<nat> {
    set i: nat | i < |StateAfter(Initial, steps).loads| && StartedFor(steps, i, p) && Failed(steps, i)
  }

  /** The loads ever started for a provider never exceed its failed ones by more than one. */
  lemma LoadsBoundedByFailures(steps: seq<Step>, p: string)
    ensures |LoadsFor(steps, p)| <= |FailuresFor(steps, p)| + 1
  {
    InvariantAlways(Initial, steps);
    var s, failed := StateAfter(Initial, steps), FailuresFor(steps, p);
    var last := if p in s.cache then {s.cache[p]} else {};
    forall i | i in LoadsFor(steps, p) ensures i in failed + last {
      StatusIsHistory(steps, i);
      CachedByHistory(steps, i);
    }
    SubsetCardinality(LoadsFor(steps, p), failed + last);
  }
}
