/** What callers of shared verification work get (`identity_manager.go`, `coalesceVerification`). */
module SharedWork {
  import opened VerifiedCache
  import opened Coalescing

  // ---------------------------------------------------------------------------------------------
  // Sharing

  /** Two callers of the same work share one call, and it goes on when one of them leaves. */
  lemma TwoJoinsShareOneCall(w: World, domain: string, kind: Work) returns (id: nat)
    requires RegistryInv(w.c) && domain != ""
    ensures var w1 := Next(w, Join(domain, kind));
            && CanStep(w, Join(domain, kind)) && CanStep(w1, Join(domain, kind))
            && id < |w1.c.calls| && Registered(w1.c, id) && WorkOf(w1.c.calls[id]) == WorkKey(domain, kind)
            && |w.c.calls| <= |w1.c.calls| <= |w.c.calls| + 1
            && (WorkKey(domain, kind) !in w.c.verifying ==>
                  id == |w.c.calls| && w1.c.calls[id].startedAt == w.clock && w1.c.calls[id].waiters == 1)
            && var w2 := Next(w1, Join(domain, kind));
               && |w2.c.calls| == |w1.c.calls| && Registered(w2.c, id)
               && w2.c.calls[id] == w1.c.calls[id].(waiters := w1.c.calls[id].waiters + 1)
               && CanStep(w2, Leave(id))
               && var w3 := Next(w2, Leave(id));
                  Registered(w3.c, id) && w3.c.calls == w1.c.calls
  {
    hide Entries;
    var key := WorkKey(domain, kind);
    id := if key in w.c.verifying then w.c.verifying[key] else |w.c.calls|;
    JoinCall(w.c, domain, kind, w.clock);
    var c1 := AfterJoin(w.c, domain, kind, w.clock);
    JoinCall(c1, domain, kind, w.clock);
  }

  lemma JoinCall(c: Coordinator, domain: string, kind: Work, now: nat)
    requires RegistryInv(c)
    ensures RegistryInv(AfterJoin(c, domain, kind, now))
    ensures var key, d := WorkKey(domain, kind), AfterJoin(c, domain, kind, now);
            && key in d.verifying && d.verifying[key] < |d.calls|
            && d.calls[d.verifying[key]].waiters > 0
  {
    JoinEvolves(c, domain, kind, now);
  }

  /** The waiters of a call are those who joined it and have not left. */
  lemma WaitersAreCounted(w: World, step: Step, id: nat)
    requires RegistryInv(w.c) && CanStep(w, step) && id < |w.c.calls|
    ensures id < |Moved(w, step).calls|
    ensures Moved(w, step).calls[id].waiters ==
            w.c.calls[id].waiters
            + (if step.Join? && Registered(w.c, id) && WorkOf(w.c.calls[id]) == WorkKey(step.domain, step.kind) then 1
               else 0)
            - (if step == Leave(id) then 1 else 0)
  {
    hide Apply, Obtainable, NotOurs, AfterFinish, AfterDiscard, AfterJoin;
    match step
    case Join(domain, kind) => JoinedWaiters(w.c, domain, kind, w.clock, id);
    case Finish(finisher, victim) => FinishKeepsWaiters(w.c, finisher, w.clock, victim, id);
    case EvictDomain(domain) => DiscardKeepsWaiters(w.c, domain, false, id);
    case InvalidateDomain(domain) => DiscardKeepsWaiters(w.c, domain, true, id);
    case _ =>
  }

  lemma FinishKeepsWaiters(c: Coordinator, finisher: nat, now: nat, victim: Key, id: nat)
    requires finisher < |c.calls| && id < |c.calls|
    ensures var d := AfterFinish(c, finisher, now, victim); id < |d.calls| && d.calls[id].waiters == c.calls[id].waiters
  {
    hide AfterPut;
  }

  lemma DiscardKeepsWaiters(c: Coordinator, domain: string, invalidate: bool, id: nat)
    requires id < |c.calls|
    ensures var d := AfterDiscard(c, domain, invalidate);
            id < |d.calls| && d.calls[id].waiters == c.calls[id].waiters
  {
    hide Drop;
  }

  lemma JoinedWaiters(c: Coordinator, domain: string, kind: Work, now: nat, id: nat)
    requires RegistryInv(c) && id < |c.calls|
    ensures var d := AfterJoin(c, domain, kind, now);
            && id < |d.calls|
            && d.calls[id].waiters ==
               c.calls[id].waiters + if Registered(c, id) && WorkOf(c.calls[id]) == WorkKey(domain, kind) then 1 else 0
  {
  }

  // ---------------------------------------------------------------------------------------------
  // Results

  /** Every waiter gets what the worker holds, unless the call was invalidated. */
  lemma WorkIsDelivered(w: World, id: nat, victim: Key)
    requires RegistryInv(w.c) && CanStep(w, Finish(id, victim))
    ensures var call, c := w.c.calls[id], Moved(w, Finish(id, victim));
            && id < |c.calls| && !Registered(c, id)
            && (call.worked.Succeeded? && !call.invalidated ==> c.calls[id].result == call.worked)
            && (call.worked.Failed? || call.invalidated ==> c.calls[id].result == Failed)
  {
    hide AfterPut, AfterPublish;
    var p := if Publishes(w.c.calls[id]) then AfterPublish(w.c, id, w.clock, victim) else w.c;
    if Publishes(w.c.calls[id]) {
      PublishEvolves(w.c, id, w.clock, victim);
    }
    UnregisterEvolves(p, id);
  }

  /** Evidence that no one has overtaken and that may be stored is stored: the entry of the domain is what the
      worker holds, and everyone can rely on an acquisition at least that recent. */
  lemma WorkIsStored(w: World, id: nat, victim: Key)
    requires Inv(w) && CanStep(w, Finish(id, victim)) && w.c.calls[id].worked.Succeeded?
    requires var call, vd := w.c.calls[id], w.c.calls[id].worked.vd;
             && !call.invalidated && !call.superseded && vd.acquiredAt >= call.floor
             && vd.expiry != 0 && w.clock < vd.expiry && vd.dnsTTL > 0
             && (vd.token.Some? ==> vd.token.value !in w.c.cache.invalidated)
             && (Home(w.c, call.domain) in w.c.cache.entries ==>
                   w.c.cache.entries[Home(w.c, call.domain)].acquiredAt <= vd.acquiredAt)
    ensures var call, next := w.c.calls[id], Next(w, Finish(id, victim));
            var vd, home := call.worked.vd, Home(w.c, call.domain);
            && home in next.c.cache.entries
            && next.c.cache.entries[home] == vd.(token := next.c.cache.entries[home].token)
            && (vd.token.Some? ==> next.c.cache.entries[home].token == vd.token)
            && next.c.cache.entries[home].token.Some?
            && next.c.cache.entries[home].token.value !in next.c.cache.invalidated
            && Published(next, call.domain) >= vd.acquiredAt
  {
    hide AfterPut, Moved, Inv, CacheInv, Entries, StillFenced;
    ObtainedBySource(w, id);
    PublicationIsEnabled(w, id, victim);
    CacheIsSound(w);
    VictimSuffices(w, id, victim);
    PutStores(w.c.cache, w.c.calls[id].worked.vd, Private(w.c.manager), w.clock, victim);
    CacheAfterPublish(w, Finish(id, victim));
    PublishedAfterStep(w, Finish(id, victim), w.c.calls[id].domain);
    if w.c.calls[id].worked.vd.token.Some? {
      SnapshotIsAtHome(w, id);
    }
  }

  lemma CacheIsSound(w: World)
    requires Inv(w)
    ensures CacheInv(w.c.cache)
  {
  }

  lemma VictimSuffices(w: World, id: nat, victim: Key)
    requires CanStep(w, Finish(id, victim))
    ensures var home := Home(w.c, w.c.calls[id].domain);
            home !in w.c.cache.entries && |w.c.cache.entries| >= 1024 ==> victim in w.c.cache.entries
  {
  }

  /** A copy whose flag is unset has its entry in its domain's place. */
  lemma SnapshotIsAtHome(w: World, id: nat)
    requires Inv(w) && id < |w.c.calls| && w.c.calls[id].worked.Succeeded?
    requires w.c.calls[id].worked.vd.token.Some? && w.c.calls[id].worked.vd.token.value !in w.c.cache.invalidated
    ensures Attached(w.c.cache, Home(w.c, w.c.calls[id].domain), w.c.calls[id].worked.vd.token.value)
  {
    hide CacheInv, RegistryInv, FloorsInv;
    ObtainedBySource(w, id);
  }

  // ---------------------------------------------------------------------------------------------
  // What happens to a call

  /** A call is superseded only by an eviction or invalidation of its domain, or by the publication of a lookup or
      refresh that started later; its floor rises only to what is published for its domain; only an invalidation
      invalidates it, only its last waiter cancels it, and only its worker gives it a result. */
  ghost predicate ChangesOnlyBy(w: World, step: Step, id: nat, b: Call)
    requires id < |w.c.calls|
  {
    var a := w.c.calls[id];
    && (b.superseded != a.superseded ==>
          Registered(w.c, id) && (DiscardOf(step, a.domain) || OvertakenBy(w, step, a)))
    && (b.floor != a.floor ==> Registered(w.c, id) && RaisedBy(w, step, a, b.floor))
    && (b.invalidated != a.invalidated ==> Registered(w.c, id) && step == InvalidateDomain(a.domain))
    && (b.cancelled != a.cancelled ==> step == Leave(id) && a.waiters == 1)
    && (b.result != a.result ==> step.Finish? && step.id == id)
  }

  lemma FinishChanges(w: World, step: Step, id: nat)
    requires CanStep(w, step) && step.Finish? && id < |w.c.calls|
    ensures id < |Moved(w, step).calls| && ChangesOnlyBy(w, step, id, Moved(w, step).calls[id])
  {
    hide AfterPut;
  }

  lemma DiscardChanges(w: World, step: Step, id: nat)
    requires CanStep(w, step) && (step.EvictDomain? || step.InvalidateDomain?) && id < |w.c.calls|
    ensures id < |Moved(w, step).calls| && ChangesOnlyBy(w, step, id, Moved(w, step).calls[id])
  {
    hide Drop;
  }

  lemma LeaveChanges(w: World, step: Step, id: nat)
    requires CanStep(w, step) && step.Leave? && id < |w.c.calls|
    ensures id < |Moved(w, step).calls| && ChangesOnlyBy(w, step, id, Moved(w, step).calls[id])
  {
  }

  lemma OnlyTheseChangeACall(w: World, step: Step, id: nat)
    requires CanStep(w, step) && id < |w.c.calls|
    ensures id < |Moved(w, step).calls| && ChangesOnlyBy(w, step, id, Moved(w, step).calls[id])
  {
    hide Apply, AfterFinish, AfterDiscard, AfterLeave, Obtainable, NotOurs;
    match step
    case Finish(_, _) => FinishChanges(w, step, id);
    case EvictDomain(_) => DiscardChanges(w, step, id);
    case InvalidateDomain(_) => DiscardChanges(w, step, id);
    case Leave(_) => LeaveChanges(w, step, id);
    case _ =>
  }

  predicate DiscardOf(step: Step, domain: string) {
    step == EvictDomain(domain) || step == InvalidateDomain(domain)
  }

  predicate OvertakenBy(w: World, step: Step, call: Call) {
    && step.Finish? && step.id < |w.c.calls|
    && var publisher := w.c.calls[step.id];
       && publisher.domain == call.domain && publisher.kind != StatusRefresh && publisher.worked.Succeeded?
       && !publisher.superseded && !publisher.invalidated && call.startedAt < publisher.startedAt
  }

  predicate RaisedBy(w: World, step: Step, call: Call, floor: nat) {
    && step.Finish? && step.id < |w.c.calls|
    && var publisher := w.c.calls[step.id];
       && publisher.domain == call.domain && publisher.worked.Succeeded?
       && !publisher.superseded && !publisher.invalidated
       && floor == publisher.worked.vd.acquiredAt > call.floor
  }
}
