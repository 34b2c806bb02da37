/** When a call that its waiters dropped can publish late (`identity_manager.go`, `coalesceVerification`): the exact
    condition under which the evidence in the cache can fall behind what was published. */
module LatePublication {
  import opened Wrappers
  import opened VerifiedCache
  import opened Coalescing

  // ---------------------------------------------------------------------------------------------
  // The guard

  /** Evidence that could still be stored at a time after its own acquisition. */
  predicate Lasting(vd: VerifiedDomain, clock: nat) {
    vd.dnsTTL > 0 && clock < vd.expiry && vd.acquiredAt + 1 < vd.expiry
  }

  /** The last waiter of a registered call leaves while the worker holds new evidence that it is about to publish
      and that could still be stored later. */
  predicate Hazard(w: World, step: Step) {
    && step.Leave? && Registered(w.c, step.id)
    && var call := w.c.calls[step.id];
       call.waiters == 1 && Publishes(call) && call.worked.vd.token.None? && Lasting(call.worked.vd, w.clock)
  }

  /** No step of the run is such a departure. */
  ghost predicate NoHazard(w: World, steps: seq<Step>)
    decreases |steps|
  {
    steps == [] || (CanStep(w, steps[0]) && !Hazard(w, steps[0]) && NoHazard(Next(w, steps[0]), steps[1..]))
  }

  /** A call that has left the registry is finished, superseded or cancelled. */
  ghost predicate LeftInv(c: Coordinator) {
    forall id: nat | id < |c.calls| && !Registered(c, id) ::
      !c.calls[id].result.Pending? || c.calls[id].superseded || c.calls[id].cancelled
  }

  /** A call out of the registry has nothing left to publish that could be stored late. */
  predicate Harmless(w: World, id: nat)
    requires id < |w.c.calls|
  {
    var call := w.c.calls[id];
    || Registered(w.c, id) || !call.result.Pending? || !Publishes(call)
    || call.worked.vd.token.Some? || !Lasting(call.worked.vd, w.clock)
  }

  ghost predicate HarmlessInv(w: World) {
    forall id: nat | id < |w.c.calls| :: Harmless(w, id)
  }

  /** Whether a step is one of the call's own. */
  predicate Own(step: Step, id: nat) {
    (step.Worked? || step.Finish? || step.Leave?) && step.id == id
  }

  /** What one step does to a call: a call out of the registry is left alone by everything but its own steps, and
      a registered one leaves the registry by its last waiter, by finishing or by being superseded. */
  ghost predicate Treats(c: Coordinator, d: Coordinator, id: nat, own: bool, leave: bool) {
    && id < |c.calls| && id < |d.calls|
    && (!Registered(c, id) && !own ==> d.calls[id] == c.calls[id] && !Registered(d, id))
    && (Registered(c, id) && !Registered(d, id) ==>
          || (leave && c.calls[id].waiters == 1 && d.calls[id] == c.calls[id].(waiters := 0, cancelled := true))
          || !d.calls[id].result.Pending?
          || d.calls[id].superseded)
  }

  lemma JoinTreats(c: Coordinator, domain: string, kind: Work, now: nat, id: nat)
    requires RegistryInv(c) && id < |c.calls|
    ensures Treats(c, AfterJoin(c, domain, kind, now), id, false, false)
  {
  }

  lemma LeaveTreats(c: Coordinator, waiter: nat, id: nat)
    requires waiter < |c.calls| && c.calls[waiter].waiters > 0 && id < |c.calls|
    ensures Treats(c, AfterLeave(c, waiter), id, waiter == id, waiter == id)
  {
  }

  lemma DiscardTreats(c: Coordinator, domain: string, invalidate: bool, id: nat)
    requires id < |c.calls|
    ensures Treats(c, AfterDiscard(c, domain, invalidate), id, false, false)
  {
    hide Drop;
  }

  lemma PublishTreats(c: Coordinator, publisher: nat, now: nat, victim: Key, id: nat)
    requires publisher < |c.calls| && c.calls[publisher].worked.Succeeded? && id < |c.calls|
    ensures var d := AfterPublish(c, publisher, now, victim);
            && |d.calls| == |c.calls| && (Registered(d, id) <==> Registered(c, id))
            && WorkOf(d.calls[id]) == WorkOf(c.calls[id])
            && (!Registered(c, id) ==> d.calls[id] == c.calls[id])
  {
    hide AfterPut;
  }

  lemma FinishTreats(c: Coordinator, finisher: nat, now: nat, victim: Key, id: nat)
    requires finisher < |c.calls| && !c.calls[finisher].worked.Pending? && id < |c.calls|
    ensures Treats(c, AfterFinish(c, finisher, now, victim), id, finisher == id, false)
  {
    hide AfterPublish;
    if Publishes(c.calls[finisher]) {
      PublishTreats(c, finisher, now, victim, id);
      PublishTreats(c, finisher, now, victim, finisher);
    }
  }

  lemma StepTreats(w: World, step: Step, id: nat)
    requires RegistryInv(w.c) && CanStep(w, step) && id < |w.c.calls|
    ensures Treats(w.c, Moved(w, step), id, Own(step, id), step == Leave(id))
  {
    hide Apply, RegistryInv, Obtainable, NotOurs, AfterFinish, AfterDiscard, AfterJoin, AfterLeave;
    match step
    case Tick(_) =>
    case Join(domain, kind) => JoinTreats(w.c, domain, kind, w.clock, id);
    case Worked(worker, _) =>
    case Finish(finisher, victim) => FinishTreats(w.c, finisher, w.clock, victim, id);
    case Leave(waiter) => LeaveTreats(w.c, waiter, id);
    case EvictDomain(domain) => DiscardTreats(w.c, domain, false, id);
    case InvalidateDomain(domain) => DiscardTreats(w.c, domain, true, id);
    case Elsewhere(_) =>
  }

  lemma ResultsStay(w: World, step: Step, id: nat)
    requires CanStep(w, step) && id < |w.c.calls| && !w.c.calls[id].result.Pending?
    ensures id < |Moved(w, step).calls| && !Moved(w, step).calls[id].result.Pending?
  {
    hide Apply, AfterPut, Drop, Obtainable, NotOurs, Registered;
  }

  lemma LeftAfterStep(w: World, step: Step)
    requires RegistryInv(w.c) && LeftInv(w.c) && CanStep(w, step)
    ensures LeftInv(Moved(w, step))
  {
    hide Moved, RegistryInv, CanStep;
    CallsEvolve(w, step);
    var d := Moved(w, step);
    forall id: nat | id < |d.calls| && !Registered(d, id)
      ensures !d.calls[id].result.Pending? || d.calls[id].superseded || d.calls[id].cancelled
    {
      if id >= |w.c.calls| {
        NewCallsAreRegistered(w, step, id);
      }
      if Registered(w.c, id) {
        StepTreats(w, step, id);
      } else {
        assert Grown(w.c.calls[id], d.calls[id]);
        if !w.c.calls[id].result.Pending? {
          ResultsStay(w, step, id);
        }
      }
    }
  }

  lemma NewCallsAreRegistered(w: World, step: Step, id: nat)
    requires RegistryInv(w.c) && CanStep(w, step) && |w.c.calls| <= id < |Moved(w, step).calls|
    ensures Registered(Moved(w, step), id)
  {
    hide Apply, AfterPut, Drop, Obtainable, NotOurs;
  }

  /** What a call publishes after a step it would have published before it, unless its worker has just
      finished. */
  lemma PublishesBefore(a: Call, b: Call)
    requires Grown(a, b) && a.worked == b.worked && Publishes(b)
    ensures Publishes(a)
  {
  }

  lemma HarmlessAfterStep(w: World, step: Step, id: nat)
    requires RegistryInv(w.c) && LeftInv(w.c) && HarmlessInv(w) && CanStep(w, step) && !Hazard(w, step)
    requires id < |Next(w, step).c.calls|
    ensures Harmless(Next(w, step), id)
  {
    hide Moved, RegistryInv, LeftInv, Entries, NextPublished;
    var next := Next(w, step);
    if !Registered(next.c, id) {
      CallsEvolve(w, step);
      if id >= |w.c.calls| {
        NewCallsAreRegistered(w, step, id);
      } else {
        var call, after := w.c.calls[id], next.c.calls[id];
        assert Grown(call, after) && Harmless(w, id);
        WorkAfterStep(w, step, id);
        if Registered(w.c, id) {
          StepTreats(w, step, id);
          if after.result.Pending? && Publishes(after) {
            PublishesBefore(call, after);
            assert step == Leave(id) && call.waiters == 1;
          }
        } else if step.Worked? && step.id == id {
          LateWorkPublishesNothing(w, step);
        } else {
          if Publishes(after) {
            PublishesBefore(call, after);
          }
          if !call.result.Pending? {
            ResultsStay(w, step, id);
          }
        }
      }
    }
  }

  /** A worker that finishes after its call has left the registry publishes nothing. */
  lemma LateWorkPublishesNothing(w: World, step: Step)
    requires CanStep(w, step) && step.Worked? && !Registered(w.c, step.id) && LeftInv(w.c)
    ensures step.id < |Moved(w, step).calls|
    ensures !Moved(w, step).calls[step.id].result.Pending? || !Publishes(Moved(w, step).calls[step.id])
  {
    hide Obtainable;
  }

  /** Evidence that does not last is not taken once something newer was published. */
  lemma HarmlessIsNotTaken(w: World, step: Step)
    requires Inv(w) && HarmlessInv(w) && CanStep(w, step) && LateAndDropped(w, step)
    ensures !Takes(w, w.c.calls[step.id].worked.vd)
  {
    hide CacheInv, RegistryInv, CallsInv, FloorsInv, SeenInv, OlderThanCurrent;
    assert Harmless(w, step.id);
  }

  /** A late publication that the cache does not take leaves the entries as they are. */
  lemma LatestAfterUntaken(w: World, step: Step)
    requires Inv(w) && EntriesAreLatest(w) && CanStep(w, step)
    requires LateAndDropped(w, step) && !Takes(w, w.c.calls[step.id].worked.vd)
    ensures EntriesAreLatest(Next(w, step))
  {
    hide Moved, CacheInv, RegistryInv, FloorsInv, SeenInv, Published, Entries, NextPublished, AfterPut, Unstorable,
      OlderThanCurrent;
    var next := Next(w, step);
    ObtainedBySource(w, step.id);
    CacheAfterPublish(w, step);
    LatePut(w.c, w.c.calls[step.id].worked.vd, w.clock, step.victim);
    SameManager(w, step);
    forall domain | Home(w.c, domain) in next.c.cache.entries
      ensures next.c.cache.entries[Home(w.c, domain)].acquiredAt == Published(next, domain)
    {
      PublishedAfterStep(w, step, domain);
    }
  }

  /** Everything that holds along a run without hazards. */
  ghost predicate Calm(w: World) {
    Inv(w) && LeftInv(w.c) && HarmlessInv(w) && EntriesAreLatest(w)
  }

  lemma CalmAfterStep(w: World, step: Step)
    requires Calm(w) && CanStep(w, step) && !Hazard(w, step)
    ensures Calm(Next(w, step)) && NoRegress(w, Next(w, step))
  {
    hide CacheInv, CallsInv, FloorsInv, ClockInv, SeenInv, RegistryInv, EntriesAreLatest, LeftInv, NoRegress, Moved,
      LateAndDropped, Harmless, Hazard, CanStep, Takes, Entries, NextPublished;
    StepKeepsInv(w, step);
    LeftAfterStep(w, step);
    forall id: nat | id < |Next(w, step).c.calls| ensures Harmless(Next(w, step), id) {
      HarmlessAfterStep(w, step, id);
    }
    RegressExactly(w, step);
    if LateAndDropped(w, step) {
      HarmlessIsNotTaken(w, step);
      LatestAfterUntaken(w, step);
    } else {
      LatestAfterStep(w, step);
    }
  }

  /** Over whole runs: unless a last waiter leaves a worker that holds lasting new evidence, every entry of the
      manager holds exactly the latest acquisition ever published for its domain. */
  lemma {:induction false} EntriesStayLatest(w: World, steps: seq<Step>, last: World)
    requires Calm(w) && Reaches(w, steps, last) && NoHazard(w, steps)
    ensures Calm(last)
    decreases |steps|
  {
    hide Calm, Next, CanStep, Hazard;
    if steps != [] {
      CalmAfterStep(w, steps[0]);
      EntriesStayLatest(Next(w, steps[0]), steps[1..], last);
    }
  }

  lemma StartIsCalm(w: World)
    requires Initial(w)
    ensures Calm(w)
  {
    InitialInv(w);
  }

  /** From the start: in every reachable world the invariant holds, and after a run without hazards the entries
      are the latest published. */
  lemma ReachableWorlds(w: World, steps: seq<Step>, last: World)
    requires Initial(w) && Reaches(w, steps, last)
    ensures Inv(last)
    ensures NoHazard(w, steps) ==> EntriesAreLatest(last)
  {
    hide Reaches, NoHazard, Initial, Inv;
    StartIsCalm(w);
    InitialInv(w);
    RunKeepsInv(w, steps, last);
    if NoHazard(w, steps) {
      EntriesStayLatest(w, steps, last);
    }
  }

  lemma {:induction false} LeftOverRuns(w: World, steps: seq<Step>, last: World)
    requires RegistryInv(w.c) && LeftInv(w.c) && Reaches(w, steps, last)
    ensures LeftInv(last.c)
    decreases |steps|
  {
    hide RegistryInv, LeftInv, Moved, CanStep;
    if steps != [] {
      CallsEvolve(w, steps[0]);
      LeftAfterStep(w, steps[0]);
      LeftOverRuns(Next(w, steps[0]), steps[1..], last);
    }
  }

  /** In every reachable world a late publication comes from a call that its last waiter dropped and cancelled,
      when the worker was already past the cancellation check. */
  lemma LateCallsWereDropped(w: World, steps: seq<Step>, last: World, step: Step)
    requires Initial(w) && Reaches(w, steps, last) && CanStep(last, step) && LateAndDropped(last, step)
    ensures last.c.calls[step.id].cancelled && last.c.calls[step.id].worked.Succeeded?
  {
    hide Reaches, Obtainable, NotOurs;
    StartIsCalm(w);
    LeftOverRuns(w, steps, last);
  }

  // ---------------------------------------------------------------------------------------------
  // Every hazard can end with older evidence in the cache

  lemma ReachesOneMore(w: World, run: seq<Step>, rest: seq<Step>, last: World)
    requires run != [] && run == [run[0]] + rest
    requires CanStep(w, run[0]) && Reaches(Next(w, run[0]), rest, last)
    ensures Reaches(w, run, last)
  {
    hide CanStep, Next;
    assert run[1..] == rest;
  }

  lemma ReachesNothing(w: World)
    ensures Reaches(w, [], w)
  {
  }

  lemma {:induction false} ReachesThen(w: World, first: seq<Step>, middle: World, rest: seq<Step>, last: World)
    requires Reaches(w, first, middle) && Reaches(middle, rest, last)
    ensures Reaches(w, first + rest, last)
    decreases |first|
  {
    hide CanStep, Next;
    if first == [] {
      assert first + rest == rest;
    } else {
      ReachesThen(Next(w, first[0]), first[1..], middle, rest, last);
      ReachesOneMore(w, first + rest, first[1..] + rest, last);
    }
  }

  /** The entry of a domain holds older evidence than was published. */
  ghost predicate Behind(w: World, domain: string) {
    Home(w.c, domain) in w.c.cache.entries && w.c.cache.entries[Home(w.c, domain)].acquiredAt < Published(w, domain)
  }

  /** A call that is out of the registry and whose worker is about to publish new evidence. */
  predicate AboutToPublish(call: Call) {
    Publishes(call) && call.result.Pending? && call.worked.vd.token.None?
  }

  /** A dropped call waits for its last lock section, and its domain has no entry. */
  ghost predicate Waits(w: World, id: nat, call: Call) {
    && Inv(w) && id < |w.c.calls| && !Registered(w.c, id) && w.c.calls[id] == call
    && call.worked.Succeeded? && Home(w.c, call.worked.vd.domain) !in w.c.cache.entries
  }

  lemma StillWaits(w: World, step: Step, id: nat, call: Call)
    requires Waits(w, id, call) && CanStep(w, step) && !Own(step, id)
    requires step.Tick? || step.Join? || step.Worked?
    ensures Waits(Next(w, step), id, call)
  {
    hide Inv, Entries, Registered, RegistryInv;
    StepKeepsInv(w, step);
    RegistryIsSound(w);
    StepTreats(w, step, id);
    QuietSteps(w, step);
  }

  lemma RegistryIsSound(w: World)
    requires Inv(w)
    ensures RegistryInv(w.c)
  {
  }

  lemma QuietSteps(w: World, step: Step)
    requires CanStep(w, step) && (step.Tick? || step.Join? || step.Worked?)
    ensures Moved(w, step).cache == w.c.cache && Moved(w, step).manager == w.c.manager
  {
  }

  lemma DomainOfCall(w: World, id: nat)
    requires Inv(w) && id < |w.c.calls| && w.c.calls[id].worked.Succeeded?
    ensures w.c.calls[id].worked.vd.domain == w.c.calls[id].domain != ""
  {
    ObtainedBySource(w, id);
  }

  /** After the last waiter has left and the domain is evicted, the call waits. */
  lemma DroppedThenEvicted(w: World, id: nat) returns (next: World, call: Call)
    requires Inv(w) && CanStep(w, Leave(id)) && Hazard(w, Leave(id))
    ensures Reaches(Next(w, Leave(id)), [EvictDomain(w.c.calls[id].domain)], next)
    ensures Waits(next, id, call) && AboutToPublish(call) && call.worked == w.c.calls[id].worked
    ensures next.clock == w.clock
    ensures forall kind :: WorkKey(call.domain, kind) !in next.c.verifying
  {
    hide Inv, Entries;
    var domain, w1 := w.c.calls[id].domain, Next(w, Leave(id));
    DomainOfCall(w, id);
    RegistryIsSound(w);
    assert w.c.calls[id].result.Pending? by { RegisteredIsPending(w.c, id); }
    LastWaiterLeaves(w.c, id);
    StepKeepsInv(w, Leave(id));
    call := w1.c.calls[id];
    next := Next(w1, EvictDomain(domain));
    StepKeepsInv(w1, EvictDomain(domain));
    RegistryIsSound(w1);
    StepTreats(w1, EvictDomain(domain), id);
    EvictionEmpties(w1.c, domain);
    ReachesNothing(next);
    ReachesOneMore(w1, [EvictDomain(domain)], [], next);
  }

  lemma RegisteredIsPending(c: Coordinator, id: nat)
    requires RegistryInv(c) && Registered(c, id)
    ensures c.calls[id].result.Pending?
  {
  }

  lemma LastWaiterLeaves(c: Coordinator, id: nat)
    requires id < |c.calls| && c.calls[id].waiters == 1
    ensures var d := AfterLeave(c, id);
            id < |d.calls| && d.calls[id] == c.calls[id].(waiters := 0, cancelled := true) && !Registered(d, id)
  {
  }

  lemma EvictionEmpties(c: Coordinator, domain: string)
    ensures Home(c, domain) !in AfterDiscard(c, domain, false).cache.entries
    ensures forall kind :: WorkKey(domain, kind) !in AfterDiscard(c, domain, false).verifying
  {
  }

  /** Evidence that may not be stored: its publication leaves no entry. */
  function Fleeting(domain: string, acquiredAt: nat): VerifiedDomain {
    VerifiedDomain(domain, acquiredAt, 0, 0, 0, Fresh, None)
  }

  /** A refresh of the domain joins, and its worker acquires newer evidence that may not be stored. */
  lemma RefreshWorks(w: World, id: nat, call: Call) returns (next: World, newer: nat)
    requires Waits(w, id, call) && call.domain != "" && WorkKey(call.domain, IdentityRefresh) !in w.c.verifying
    ensures newer == |w.c.calls|
    ensures Reaches(w, [Join(call.domain, IdentityRefresh), Worked(newer, Succeeded(Fleeting(call.domain, w.clock)))],
                    next)
    ensures Waits(next, id, call) && next.clock == w.clock
    ensures newer < |next.c.calls|
    ensures next.c.calls[newer] ==
        NewCall(call.domain, IdentityRefresh, w.clock).(worked := Succeeded(Fleeting(call.domain, w.clock)))
  {
    hide Waits, Entries;
    newer := |w.c.calls|;
    var join, work := Join(call.domain, IdentityRefresh), Worked(newer, Succeeded(Fleeting(call.domain, w.clock)));
    assert id < newer by { WaitingCall(w, id, call); }
    var w1 := Next(w, join);
    StillWaits(w, join, id, call);
    next := Next(w1, work);
    StillWaits(w1, work, id, call);
    ReachesNothing(next);
    ReachesOneMore(w1, [work], [], next);
    ReachesOneMore(w, [join, work], [work], next);
  }

  lemma WaitingCall(w: World, id: nat, call: Call)
    requires Waits(w, id, call)
    ensures Inv(w) && id < |w.c.calls| && w.c.calls[id] == call && !Registered(w.c, id)
  {
  }

  /** The refresh publishes, which leaves no entry, and the dropped call still waits. */
  lemma RefreshPublishes(w: World, id: nat, call: Call, newer: nat) returns (step: Step, next: World)
    requires Waits(w, id, call) && newer < |w.c.calls| && newer != id && call.worked.vd.domain == call.domain != ""
    requires w.c.calls[newer] ==
        NewCall(call.domain, IdentityRefresh, w.clock).(worked := Succeeded(Fleeting(call.domain, w.clock)))
    ensures CanStep(w, step) && next == Next(w, step)
    ensures Waits(next, id, call) && next.clock == w.clock && Published(next, call.domain) >= w.clock
  {
    hide Inv, Entries, RegistryInv;
    step := Finish(newer, AnyVictim(w.c.cache, Home(w.c, call.domain)));
    next := Next(w, step);
    StepKeepsInv(w, step);
    RegistryIsSound(w);
    StepTreats(w, step, id);
    CacheAfterPublish(w, step);
    SameManager(w, step);
    PublishedAfterStep(w, step, call.domain);
  }

  /** At last the dropped call stores its evidence. */
  lemma LateCallStores(w: World, id: nat, call: Call) returns (step: Step, next: World)
    requires Waits(w, id, call) && AboutToPublish(call) && call.worked.vd.domain == call.domain != ""
    requires Lasting(call.worked.vd, w.clock) && call.worked.vd.acquiredAt < Published(w, call.domain)
    ensures CanStep(w, step) && next == Next(w, step) && LateAndDropped(w, step) && Behind(next, call.domain)
  {
    hide Inv, Entries, RegistryInv;
    step := Finish(id, AnyVictim(w.c.cache, Home(w.c, call.domain)));
    next := Next(w, step);
    CacheAfterPublish(w, step);
    SameManager(w, step);
    PublishedAfterStep(w, step, call.domain);
  }

  /** The other half: from every world in which a last waiter leaves a worker that holds lasting new evidence,
      some continuation publishes newer evidence and then stores the older. */
  lemma HazardCanGoBack(w: World, id: nat) returns (steps: seq<Step>, last: World)
    requires Inv(w) && CanStep(w, Leave(id)) && Hazard(w, Leave(id))
    ensures Reaches(Next(w, Leave(id)), steps, last) && Behind(last, w.c.calls[id].domain)
  {
    hide Inv, CanStep, Next, Waits, Reaches, Behind, Published;
    var vd, domain := w.c.calls[id].worked.vd, w.c.calls[id].domain;
    DomainOfCall(w, id);
    var w1, call := DroppedThenEvicted(w, id);
    WaitingCall(w1, id, call);
    DomainOfCall(w1, id);
    var tick := Tick(if w1.clock > vd.acquiredAt then w1.clock else vd.acquiredAt + 1);
    TickTo(w1, tick.now);
    var w2 := Next(w1, tick);
    StillWaits(w1, tick, id, call);
    var w3, newer := RefreshWorks(w2, id, call);
    assert id < newer by { WaitingCall(w2, id, call); }
    var publish, w4 := RefreshPublishes(w3, id, call, newer);
    var finish, w5 := LateCallStores(w4, id, call);
    last := w5;
    ReachesNothing(w5);
    ReachesOneMore(w4, [finish], [], w5);
    ReachesOneMore(w3, [publish, finish], [finish], w5);
    var refresh := [Join(domain, IdentityRefresh), Worked(newer, Succeeded(Fleeting(domain, w2.clock)))];
    ReachesThen(w2, refresh, w3, [publish, finish], w5);
    ReachesOneMore(w1, [tick] + (refresh + [publish, finish]), refresh + [publish, finish], w5);
    ReachesThen(Next(w, Leave(id)), [EvictDomain(domain)], w1, [tick] + (refresh + [publish, finish]), w5);
    steps := [EvictDomain(domain)] + ([tick] + (refresh + [publish, finish]));
  }

  lemma TickTo(w: World, now: nat)
    requires now >= w.clock
    ensures CanStep(w, Tick(now)) && Next(w, Tick(now)).clock == now && Next(w, Tick(now)).c == w.c
  {
  }

  // ---------------------------------------------------------------------------------------------
  // A dropped call can store older evidence

  function Evidence(acquiredAt: nat, dnsTTL: int): VerifiedDomain {
    VerifiedDomain("d", acquiredAt, 100, dnsTTL, 0, Fresh, None)
  }

  const START := World(Coordinator(0, EMPTY, map[], []), 1, map[], {})

  const NOBODY := Key("", Standalone)

  const LOOKUP := WorkKey("d", IdentityLookup)

  const DROPPED := Call("d", IdentityLookup, 1, 0, false, false, 0, true, Succeeded(Evidence(1, 10)), Pending)

  const SECOND := NewCall("d", IdentityLookup, 2).(worked := Succeeded(Evidence(2, 0)))

  const FIRST_RUN := [Join("d", IdentityLookup), Worked(0, Succeeded(Evidence(1, 10))), Leave(0), Tick(2)]

  /** The worker of the first call passes its cancellation check before the only waiter gives up. */
  lemma FirstIsDropped() returns (w: World)
    ensures Reaches(START, FIRST_RUN, w)
    ensures w.c == Coordinator(0, EMPTY, map[], [DROPPED]) && w.clock == 2 && w.published == map[]
  {
    hide Entries, Reaches;
    var w1 := Next(START, FIRST_RUN[0]);
    assert w1.c == Coordinator(0, EMPTY, map[LOOKUP := 0], [NewCall("d", IdentityLookup, 1)]);
    var w2 := Next(w1, FIRST_RUN[1]);
    var w3 := Next(w2, FIRST_RUN[2]);
    assert w3.c.verifying == map[];
    w := Next(w3, FIRST_RUN[3]);
    ReachesNothing(w);
    ReachesOneMore(w3, FIRST_RUN[3..], [], w);
    ReachesOneMore(w2, FIRST_RUN[2..], FIRST_RUN[3..], w);
    ReachesOneMore(w1, FIRST_RUN[1..], FIRST_RUN[2..], w);
    ReachesOneMore(START, FIRST_RUN, FIRST_RUN[1..], w);
  }

  const SECOND_RUN := [Join("d", IdentityLookup), Worked(1, Succeeded(Evidence(2, 0))), Finish(1, NOBODY)]

  lemma SecondWorks(w: World) returns (w1: World, w2: World)
    requires w.c == Coordinator(0, EMPTY, map[], [DROPPED]) && w.clock == 2 && w.published == map[]
    ensures CanStep(w, SECOND_RUN[0]) && w1 == Next(w, SECOND_RUN[0]) && CanStep(w1, SECOND_RUN[1])
        && w2 == Next(w1, SECOND_RUN[1])
    ensures w2.c == Coordinator(0, EMPTY, map[LOOKUP := 1], [DROPPED, SECOND]) && w2.clock == 2 && w2.published == map[]
  {
    hide Entries;
    w1 := Next(w, SECOND_RUN[0]);
    assert w1.c == Coordinator(0, EMPTY, map[LOOKUP := 1], [DROPPED, NewCall("d", IdentityLookup, 2)]);
    w2 := Next(w1, SECOND_RUN[1]);
  }

  lemma SecondFinishes(c: Coordinator)
    requires c == Coordinator(0, EMPTY, map[LOOKUP := 1], [DROPPED, SECOND])
    ensures AfterFinish(c, 1, 2, NOBODY) ==
        Coordinator(0, EMPTY, map[], [DROPPED, SECOND.(result := SECOND.worked, floor := 2)])
  {
    assert AfterPut(EMPTY, Evidence(2, 0), Private(0), 2, NOBODY) == EMPTY;
    var p := AfterPublish(c, 1, 2, NOBODY);
    assert p.calls == [DROPPED, SECOND.(floor := 2)];
    assert Unregister(p, 1).verifying == map[];
  }

  /** A second call publishes newer evidence that may not be cached, */
  lemma SecondPublishes(w: World) returns (next: World)
    requires w.c == Coordinator(0, EMPTY, map[], [DROPPED]) && w.clock == 2 && w.published == map[]
    ensures Reaches(w, SECOND_RUN, next)
    ensures next.c == Coordinator(0, EMPTY, map[], [DROPPED, SECOND.(result := SECOND.worked, floor := 2)])
    ensures next.clock == 2 && next.published == map["d" := 2]
  {
    hide Entries, Reaches, AfterFinish;
    var w1, w2 := SecondWorks(w);
    SecondFinishes(w2.c);
    next := Next(w2, SECOND_RUN[2]);
    ReachesNothing(next);
    ReachesOneMore(w2, SECOND_RUN[2..], [], next);
    ReachesOneMore(w1, SECOND_RUN[1..], SECOND_RUN[2..], next);
    ReachesOneMore(w, SECOND_RUN, SECOND_RUN[1..], next);
  }

  /** and then the first call stores the older evidence. */
  lemma DroppedCallStoresOlder() returns (dropped: World, published: World, last: World)
    ensures Initial(START)
    ensures Reaches(START, FIRST_RUN, dropped) && Reaches(dropped, SECOND_RUN, published)
    ensures LateAndDropped(published, Finish(0, NOBODY)) && Reaches(published, [Finish(0, NOBODY)], last)
    ensures Behind(last, "d")
  {
    hide Entries, Reaches;
    dropped := FirstIsDropped();
    published := SecondPublishes(dropped);
    assert published.c.calls[0] == DROPPED;
    last := Next(published, Finish(0, NOBODY));
    ReachesNothing(last);
    ReachesOneMore(published, [Finish(0, NOBODY)], [], last);
  }
}
