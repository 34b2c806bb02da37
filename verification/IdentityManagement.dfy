/** The manager object whose lock sections are the steps of `Coalescing` (`identity_manager.go`). */
module IdentityManagement {
  import opened VerifiedCache
  import opened Coalescing

  /** The two loops of a publication, one after the other. */
  function Floored(call: Call, acquiredAt: nat): Call {
    if acquiredAt > call.floor then call.(floor := acquiredAt) else call
  }

  function Superseded(call: Call, startedAt: nat): Call {
    if call.startedAt < startedAt then call.(superseded := true) else call
  }

  function Discarded(call: Call, invalidate: bool): Call {
    call.(superseded := true, invalidated := call.invalidated || invalidate)
  }

  /** `calls` is `before` with `f` applied to the registered calls of a domain whose work is not in `todo`. */
  ghost predicate Visited(c: Coordinator, domain: string, todo: set<WorkKey>, f: Call -> Call, calls: seq<Call>) {
    && |calls| == |c.calls|
    && forall i | 0 <= i < |calls| ::
         calls[i] == if Concerns(c, i, domain) && WorkOf(c.calls[i]) !in todo then f(c.calls[i]) else c.calls[i]
  }

  /** Visiting the call registered under one more key. */
  lemma VisitOne(c: Coordinator, domain: string, todo: set<WorkKey>, f: Call -> Call, calls: seq<Call>, key: WorkKey)
    requires RegistryInv(c) && key in todo && key in c.verifying && Visited(c, domain, todo, f, calls)
    ensures var id := c.verifying[key];
            && id < |calls| && calls[id] == c.calls[id]
            && Visited(c, domain, todo - {key}, f, if key.domain == domain then calls[id := f(calls[id])] else calls)
  {
    var id := c.verifying[key];
    assert WorkOf(c.calls[id]) == key;
    forall i | 0 <= i < |calls| && i != id ensures Concerns(c, i, domain) ==> WorkOf(c.calls[i]) != key {
    }
  }

  ghost predicate KeepsRegistration(f: Call -> Call) {
    forall call :: KeptBy(f, call)
  }

  predicate KeptBy(f: Call -> Call, call: Call) {
    var after := f(call);
    && WorkOf(after) == WorkOf(call) && after.result == call.result && after.waiters == call.waiters
    && after.cancelled == call.cancelled && after.invalidated == call.invalidated
  }

  lemma VisitKeepsRegistry(c: Coordinator, d: Coordinator, domain: string, f: Call -> Call)
    requires RegistryInv(c) && KeepsRegistration(f) && Visited(c, domain, {}, f, d.calls) && d.verifying == c.verifying
    ensures RegistryInv(d) && forall i | 0 <= i < |c.calls| :: Concerns(d, i, domain) <==> Concerns(c, i, domain)
  {
    forall i | 0 <= i < |c.calls| ensures WorkOf(d.calls[i]) == WorkOf(c.calls[i]) {
      assert KeptBy(f, c.calls[i]);
    }
    forall key | key in d.verifying
      ensures var id := d.verifying[key];
              && id < |d.calls| && WorkOf(d.calls[id]) == key
              && d.calls[id].result.Pending? && d.calls[id].waiters > 0 && !d.calls[id].cancelled
                  && !d.calls[id].invalidated
    {
      assert KeptBy(f, c.calls[c.verifying[key]]);
    }
  }

  class IdentityManager {
    const manager: nat
    const cache: IdentityCache
    var verifying: map<WorkKey, nat>
    var calls: seq<Call>

    ghost function State(): Coordinator
      reads this, cache
    {
      Coordinator(manager, cache.State(), verifying, calls)
    }

    constructor (manager: nat, cache: IdentityCache)
      ensures State() == Coordinator(manager, cache.State(), map[], []) && RegistryInv(State())
      ensures this.cache == cache
    {
      this.manager, this.cache, verifying, calls := manager, cache, map[], [];
    }

    /** Joins the call registered for the work, or starts one. */
    method Join(domain: string, kind: Work, now: nat) returns (id: nat)
      requires RegistryInv(State())
      modifies this
      ensures State() == AfterJoin(old(State()), domain, kind, now) && RegistryInv(State())
      ensures Registered(State(), id) && WorkOf(calls[id]) == WorkKey(domain, kind)
    {
      JoinEvolves(State(), domain, kind, now);
      var key := WorkKey(domain, kind);
      if key in verifying {
        id := verifying[key];
      } else {
        id := |calls|;
        calls := calls + [Call(domain, kind, now, 0, false, false, 0, false, Pending, Pending)];
        verifying := verifying[key := id];
      }
      calls := calls[id := calls[id].(waiters := calls[id].waiters + 1)];
    }

    /** Applies a change to every registered call of a domain, in any order. */
    method VisitDomain(domain: string, f: Call -> Call)
      requires RegistryInv(State())
      modifies this`calls
      ensures Visited(old(State()), domain, {}, f, calls)
    {
      ghost var before := State();
      var todo := verifying.Keys;
      while todo != {}
        invariant todo <= verifying.Keys
        invariant Visited(before, domain, todo, f, calls)
      {
        hide RegistryInv, Visited;
        var key :| key in todo;
        VisitOne(before, domain, todo, f, calls, key);
        if key.domain == domain {
          calls := calls[verifying[key] := f(calls[verifying[key]])];
        }
        todo := todo - {key};
      }
    }

    /** The two loops of a publication: raise the floors, then supersede the calls that started earlier. */
    method Overtake(publisher: Call, acquiredAt: nat)
      requires RegistryInv(State())
      modifies this`calls
      ensures |calls| == |old(calls)|
      ensures forall i | 0 <= i < |calls| ::
                calls[i] == if Concerns(old(State()), i, publisher.domain)
                            then Overtaken(old(calls)[i], publisher, acquiredAt)
                            else old(calls)[i]
    {
      hide RegistryInv;
      ghost var before := State();
      var floored := (call: Call) => Floored(call, acquiredAt);
      VisitDomain(publisher.domain, floored);
      if publisher.kind != StatusRefresh {
        ghost var middle := State();
        FlooringKeeps(acquiredAt);
        VisitKeepsRegistry(before, middle, publisher.domain, floored);
        VisitDomain(publisher.domain, (call: Call) => Superseded(call, publisher.startedAt));
      }
    }

    /** The worker's last lock section. */
    method Finish(id: nat, now: nat) returns (ghost victim: Key)
      requires RegistryInv(State()) && id < |calls|
      modifies this, cache
      ensures var c, call := old(State()), old(calls)[id];
              Publishes(call) && NeedsRoom(c.cache, Home(c, call.worked.vd.domain)) ==> victim in c.cache.entries
      ensures State() == AfterFinish(old(State()), id, now, victim) && RegistryInv(State())
    {
      hide RegistryInv, AfterPut, NeedsRoom;
      ghost var before := State();
      var call := calls[id];
      var verdict := call.worked;
      victim := Key(call.domain, Private(manager));
      if verdict.Succeeded? && call.invalidated {
        verdict := Failed;
      }
      if verdict.Succeeded? && !call.superseded && verdict.vd.acquiredAt >= call.floor {
        Overtake(call, verdict.vd.acquiredAt);
        victim := cache.Put(verdict.vd, Private(manager), now);
        assert calls == AfterPublish(before, id, now, victim).calls;
      }
      ghost var published := State();
      assert published == if Publishes(before.calls[id]) then AfterPublish(before, id, now, victim) else before;
      assert WorkOf(calls[id]) == WorkOf(call);
      calls := calls[id := calls[id].(result := verdict)];
      if WorkOf(call) in verifying && verifying[WorkOf(call)] == id {
        verifying := verifying - {WorkOf(call)};
      }
      FinishEvolves(before, id, now, victim);
    }

    /** A waiter gives up. */
    method Leave(id: nat)
      requires RegistryInv(State()) && id < |calls| && calls[id].waiters > 0
      modifies this
      ensures State() == AfterLeave(old(State()), id) && RegistryInv(State())
    {
      LeaveEvolves(State(), id);
      calls := calls[id := calls[id].(waiters := calls[id].waiters - 1)];
      if calls[id].waiters == 0 {
        var key := WorkOf(calls[id]);
        if key in verifying && verifying[key] == id {
          verifying := verifying - {key};
        }
        calls := calls[id := calls[id].(cancelled := true)];
      }
    }

    /** Eviction, or invalidation after a non-ACTIVE status, atomic with the removal of the cache entry. */
    method Discard(domain: string, invalidate: bool)
      requires RegistryInv(State())
      modifies this, cache
      ensures State() == AfterDiscard(old(State()), domain, invalidate) && RegistryInv(State())
    {
      hide RegistryInv, Drop;
      ghost var before := State();
      DiscardEvolves(before, domain, invalidate);
      cache.Evict(Key(domain, Private(manager)));
      CacheAloneEvolves(before, cache.State());
      VisitDomain(domain, (call: Call) => Discarded(call, invalidate));
      assert calls == AfterDiscard(before, domain, invalidate).calls;
      verifying := map key | key in verifying && key.domain != domain :: verifying[key];
    }
  }

  lemma FlooringKeeps(acquiredAt: nat)
    ensures KeepsRegistration((call: Call) => Floored(call, acquiredAt))
  {
  }
}
