/** Shared verification work and the evidence it publishes (`identity_manager.go`, `coalesceVerification`,
    `EvictDomain`, `invalidateNonActiveDomain`, `refreshCachedStatusIfNeeded`).

    Every lock section is one step. The clock never goes back; other namespaces of the cache do as they like. */
module Coalescing {
  import opened Wrappers
  import opened VerifiedCache

  datatype Work = IdentityLookup | StatusRefresh | IdentityRefresh

  datatype WorkKey = WorkKey(domain: string, kind: Work)

  datatype Outcome = Pending | Succeeded(vd: VerifiedDomain) | Failed

  /** One shared call. `worked` is what its worker holds once it has passed the cancellation check, `result`
      what the waiters get. */
  datatype Call = Call(
    domain: string,
    kind: Work,
    startedAt: nat,
    floor: nat,
    superseded: bool,
    invalidated: bool,
    waiters: nat,
    cancelled: bool,
    worked: Outcome,
    result: Outcome)

  /** A manager's coordination state: the calls it ever made, those registered for sharing, and the cache. */
  datatype Coordinator = Coordinator(
    manager: nat,
    cache: Cache,
    verifying: map<WorkKey, nat>,
    calls: seq<Call>)

  function WorkOf(call: Call): WorkKey {
    WorkKey(call.domain, call.kind)
  }

  predicate Registered(c: Coordinator, id: nat) {
    id < |c.calls| && WorkOf(c.calls[id]) in c.verifying && c.verifying[WorkOf(c.calls[id])] == id
  }

  predicate Concerns(c: Coordinator, id: nat, domain: string) {
    Registered(c, id) && c.calls[id].domain == domain
  }

  function Home(c: Coordinator, domain: string): Key {
    Key(domain, Private(c.manager))
  }

  function NewCall(domain: string, kind: Work, now: nat): Call {
    Call(domain, kind, now, 0, false, false, 1, false, Pending, Pending)
  }

  function AfterJoin(c: Coordinator, domain: string, kind: Work, now: nat): Coordinator {
    var key := WorkKey(domain, kind);
    if key in c.verifying && c.verifying[key] < |c.calls| then
      var id := c.verifying[key];
      c.(calls := c.calls[id := c.calls[id].(waiters := c.calls[id].waiters + 1)])
    else
      c.(verifying := c.verifying[key := |c.calls|], calls := c.calls + [NewCall(domain, kind, now)])
  }

  function Unregister(c: Coordinator, id: nat): Coordinator {
    if Registered(c, id) then c.(verifying := c.verifying - {WorkOf(c.calls[id])}) else c
  }

  /** What the waiters get: an invalidated call never succeeds. */
  function Verdict(call: Call): Outcome {
    if call.worked.Succeeded? && call.invalidated then Failed else call.worked
  }

  predicate Publishes(call: Call) {
    Verdict(call).Succeeded? && !call.superseded && call.worked.vd.acquiredAt >= call.floor
  }

  /** The effect of a publication on a registered call of the same domain. */
  function Overtaken(call: Call, publisher: Call, acquiredAt: nat): Call {
    call.(floor := if acquiredAt > call.floor then acquiredAt else call.floor,
          superseded := call.superseded || (publisher.kind != StatusRefresh && call.startedAt < publisher.startedAt))
  }

  function AfterPublish(c: Coordinator, id: nat, now: nat, victim: Key): Coordinator
    requires id < |c.calls| && c.calls[id].worked.Succeeded?
  {
    var publisher := c.calls[id];
    c.(calls := seq(|c.calls|, i requires 0 <= i < |c.calls| =>
                  if Concerns(c, i, publisher.domain)
                  then Overtaken(c.calls[i], publisher, publisher.worked.vd.acquiredAt)
                  else c.calls[i]),
       cache := AfterPut(c.cache, publisher.worked.vd, Private(c.manager), now, victim))
  }

  function AfterFinish(c: Coordinator, id: nat, now: nat, victim: Key): Coordinator
    requires id < |c.calls|
  {
    var p := if Publishes(c.calls[id]) then AfterPublish(c, id, now, victim) else c;
    var u := Unregister(p, id);
    u.(calls := u.calls[id := u.calls[id].(result := Verdict(c.calls[id]))])
  }

  /** A waiter gives up; the last one drops and cancels the call. */
  function AfterLeave(c: Coordinator, id: nat): Coordinator
    requires id < |c.calls| && c.calls[id].waiters > 0
  {
    var call := c.calls[id].(waiters := c.calls[id].waiters - 1);
    var left := c.(calls := c.calls[id := call]);
    if call.waiters == 0 then
      var u := Unregister(left, id);
      u.(calls := u.calls[id := call.(cancelled := true)])
    else left
  }

  /** Eviction and non-ACTIVE invalidation: the entry goes, and the registered calls of the domain with it. */
  function AfterDiscard(c: Coordinator, domain: string, invalidate: bool): Coordinator {
    c.(cache := Drop(c.cache, Home(c, domain)),
       verifying := map key | key in c.verifying && key.domain != domain :: c.verifying[key],
       calls := seq(|c.calls|, i requires 0 <= i < |c.calls| =>
                  if Concerns(c, i, domain)
                  then c.calls[i].(superseded := true, invalidated := c.calls[i].invalidated || invalidate)
                  else c.calls[i]))
  }

  // ---------------------------------------------------------------------------------------------
  // Steps

  datatype Snapshot = Snapshot(domain: string, token: nat, acquiredAt: nat)

  /** The coordinator, the clock, and two histories: the latest acquisition published for each domain, and
      every entry that was ever in the manager's namespace. */
  datatype World = World(c: Coordinator, clock: nat, published: map<string, nat>, seen: set<Snapshot>)

  datatype Step =
    | Tick(now: nat)
    | Join(domain: string, kind: Work)
    | Worked(id: nat, outcome: Outcome)
    | Finish(id: nat, victim: Key)
    | Leave(id: nat)
    | EvictDomain(domain: string)
    | InvalidateDomain(domain: string)
    | Elsewhere(step: CacheStep)

  function Published(w: World, domain: string): nat {
    if domain in w.published then w.published[domain] else 0
  }

  /** What a worker can return: evidence acquired since the call started, or a copy of a cached entry. */
  ghost predicate Obtainable(w: World, call: Call, vd: VerifiedDomain) {
    && vd.domain == call.domain != ""
    && match vd.token
       case None => call.kind != StatusRefresh && call.startedAt <= vd.acquiredAt <= w.clock
       case Some(t) => call.kind != IdentityRefresh && Snapshot(vd.domain, t, vd.acquiredAt) in w.seen
  }

  /** Steps of the cache that are not the manager's publications: puts in another namespace, lookups that reap an
      expired entry, and evictions anywhere, also the manager's own eviction of evidence it finds no longer
      fresh, which leaves its calls alone. */
  ghost predicate NotOurs(c: Coordinator, step: CacheStep) {
    && Enabled(c.cache, step)
    && (step.Put? ==> step.namespace != Private(c.manager))
  }

  ghost predicate CanStep(w: World, step: Step) {
    var c := w.c;
    match step
    case Tick(now) => now >= w.clock
    case Join(domain, _) => domain != ""
    case Worked(id, outcome) =>
      && id < |c.calls| && c.calls[id].worked.Pending? && !outcome.Pending?
      && (outcome.Succeeded? ==> !c.calls[id].cancelled && Obtainable(w, c.calls[id], outcome.vd))
    case Finish(id, victim) =>
      && id < |c.calls| && !c.calls[id].worked.Pending? && c.calls[id].result.Pending?
      && (NeedsRoom(c.cache, Home(c, c.calls[id].domain)) ==> victim in c.cache.entries)
    case Leave(id) => id < |c.calls| && c.calls[id].waiters > 0
    case EvictDomain(_) => true
    case InvalidateDomain(_) => true
    case Elsewhere(s) => NotOurs(c, s)
  }

  ghost function Moved(w: World, step: Step): Coordinator
    requires CanStep(w, step)
  {
    var c := w.c;
    match step
    case Tick(_) => c
    case Join(domain, kind) => AfterJoin(c, domain, kind, w.clock)
    case Worked(id, outcome) => c.(calls := c.calls[id := c.calls[id].(worked := outcome)])
    case Finish(id, victim) => AfterFinish(c, id, w.clock, victim)
    case Leave(id) => AfterLeave(c, id)
    case EvictDomain(domain) => AfterDiscard(c, domain, false)
    case InvalidateDomain(domain) => AfterDiscard(c, domain, true)
    case Elsewhere(s) => c.(cache := Apply(c.cache, s))
  }

  function Entries(c: Coordinator): set<Snapshot> {
    set key | key in c.cache.entries && key.namespace == Private(c.manager) && c.cache.entries[key].token.Some? ::
      Snapshot(key.domain, c.cache.entries[key].token.value, c.cache.entries[key].acquiredAt)
  }

  function Raise(published: map<string, nat>, domain: string, acquiredAt: nat): map<string, nat> {
    if domain in published && published[domain] >= acquiredAt then published else published[domain := acquiredAt]
  }

  ghost function NextPublished(w: World, step: Step): map<string, nat>
    requires CanStep(w, step)
  {
    if step.Finish? && Publishes(w.c.calls[step.id])
    then Raise(w.published, w.c.calls[step.id].domain, w.c.calls[step.id].worked.vd.acquiredAt)
    else w.published
  }

  ghost function Next(w: World, step: Step): World
    requires CanStep(w, step)
  {
    var c := Moved(w, step);
    World(c, if step.Tick? then step.now else w.clock, NextPublished(w, step), w.seen + Entries(c))
  }

  // ---------------------------------------------------------------------------------------------
  // The invariant

  /** Registered calls are unfinished, attended and valid, and registered under their own work. */
  ghost predicate RegistryInv(c: Coordinator) {
    forall key | key in c.verifying ::
      var id := c.verifying[key];
      && id < |c.calls| && WorkOf(c.calls[id]) == key
      && c.calls[id].result.Pending? && c.calls[id].waiters > 0 && !c.calls[id].cancelled && !c.calls[id].invalidated
  }

  ghost predicate CallInv(w: World, call: Call) {
    && call.startedAt <= w.clock && call.domain != ""
    && (call.worked.Succeeded? ==> Obtainable(w, call, call.worked.vd))
  }

  ghost predicate CallsInv(w: World) {
    forall id | 0 <= id < |w.c.calls| :: CallInv(w, w.c.calls[id])
  }

  /** A registered call started after everything published for its domain, or its floor is above it. */
  ghost predicate FloorsInv(w: World) {
    forall id: nat | Registered(w.c, id) ::
      Published(w, w.c.calls[id].domain) <= w.c.calls[id].floor
          || Published(w, w.c.calls[id].domain) <= w.c.calls[id].startedAt
  }

  ghost predicate ClockInv(w: World) {
    forall domain | domain in w.published :: w.published[domain] <= w.clock
  }

  /** A snapshot has its flag set, or its entry is still there with the same acquisition. */
  ghost predicate StillFenced(c: Coordinator, s: Snapshot) {
    && s.token < c.cache.issued
    && (s.token in c.cache.invalidated ||
        (Attached(c.cache, Home(c, s.domain), s.token)
         && c.cache.entries[Home(c, s.domain)].acquiredAt == s.acquiredAt))
  }

  ghost predicate SeenInv(w: World) {
    && Entries(w.c) <= w.seen
    && forall s | s in w.seen :: s.acquiredAt <= Published(w, s.domain) && StillFenced(w.c, s)
  }

  ghost predicate Inv(w: World) {
    && CacheInv(w.c.cache)
    && RegistryInv(w.c)
    && CallsInv(w)
    && FloorsInv(w)
    && ClockInv(w)
    && SeenInv(w)
  }

  // ---------------------------------------------------------------------------------------------
  // Every step keeps it

  /** Entries of the manager's namespace keep their token and acquisition, except one that holds new evidence
      under a new token. */
  ghost predicate OnlyFresh(c: Coordinator, d: Cache, domain: string, acquiredAt: nat) {
    forall key | key in d.entries && key.namespace == Private(c.manager) ::
      || SameEvidence(c.cache, d, key)
      || (key.domain == domain && d.entries[key].token == Some(c.cache.issued)
          && d.entries[key].acquiredAt == acquiredAt)
  }

  predicate SameEvidence(c: Cache, d: Cache, key: Key) {
    && key in c.entries && key in d.entries
    && d.entries[key].token == c.entries[key].token && d.entries[key].acquiredAt == c.entries[key].acquiredAt
  }

  ghost predicate OnlyKept(c: Coordinator, d: Cache) {
    forall key | key in d.entries && key.namespace == Private(c.manager) :: SameEvidence(c.cache, d, key)
  }

  /** A manager's own publication of something obtainable. */
  lemma PutOnlyFresh(c: Coordinator, vd: VerifiedDomain, now: nat, victim: Key)
    requires CacheInv(c.cache)
    requires vd.token.Some? ==> StillFenced(c, Snapshot(vd.domain, vd.token.value, vd.acquiredAt))
    ensures OnlyFresh(c, AfterPut(c.cache, vd, Private(c.manager), now, victim), vd.domain, vd.acquiredAt)
    ensures vd.token.Some? ==> OnlyKept(c, AfterPut(c.cache, vd, Private(c.manager), now, victim))
  {
    hide CacheInv;
  }

  lemma ElsewhereOnlyKept(c: Coordinator, step: CacheStep)
    requires NotOurs(c, step)
    ensures OnlyKept(c, Apply(c.cache, step))
  {
  }

  lemma DropOnlyKept(c: Coordinator, key: Key)
    ensures OnlyKept(c, Drop(c.cache, key))
  {
  }

  /** The cache after a step. */
  lemma CacheAfterStep(w: World, step: Step)
    requires Inv(w) && CanStep(w, step)
    ensures var d := Moved(w, step).cache;
            && CacheInv(d) && Fenced(w.c.cache, d)
            && (!(step.Finish? && Publishes(w.c.calls[step.id])) ==> OnlyKept(w.c, d))
            && (step.Finish? && Publishes(w.c.calls[step.id]) ==>
                  var vd := w.c.calls[step.id].worked.vd;
                  OnlyFresh(w.c, d, vd.domain, vd.acquiredAt) && (vd.token.Some? ==> OnlyKept(w.c, d)))
  {
    hide CacheInv, Fenced, Apply, Drop, OnlyKept, OnlyFresh, RegistryInv, FloorsInv;
    FencedByNothing(w.c.cache);
    NothingMoved(w.c);
    match step
    case Tick(_) =>
    case Join(_, _) =>
    case Worked(_, _) =>
    case Leave(_) =>
    case Finish(id, victim) =>
      var call := w.c.calls[id];
      if Publishes(call) {
        assert CallInv(w, call);
        PublicationIsEnabled(w, id, victim);
        StepIsFenced(w.c.cache, Put(call.worked.vd, Private(w.c.manager), w.clock, victim));
        PutOnlyFresh(w.c, call.worked.vd, w.clock, victim);
        PutIsStep(w.c.cache, call.worked.vd, Private(w.c.manager), w.clock, victim);
      }
    case EvictDomain(domain) => DropIsFenced(w.c.cache, Home(w.c, domain)); DropOnlyKept(w.c, Home(w.c, domain));
    case InvalidateDomain(domain) => DropIsFenced(w.c.cache, Home(w.c, domain)); DropOnlyKept(w.c, Home(w.c, domain));
    case Elsewhere(s) => StepIsFenced(w.c.cache, s); ElsewhereOnlyKept(w.c, s);
  }

  lemma NothingMoved(c: Coordinator)
    ensures OnlyKept(c, c.cache)
  {
  }

  lemma PutIsStep(c: Cache, vd: VerifiedDomain, namespace: Namespace, now: nat, victim: Key)
    ensures Apply(c, Put(vd, namespace, now, victim)) == AfterPut(c, vd, namespace, now, victim)
  {
  }

  lemma PublicationIsEnabled(w: World, id: nat, victim: Key)
    requires Inv(w) && CanStep(w, Finish(id, victim)) && Publishes(w.c.calls[id])
    ensures var vd := w.c.calls[id].worked.vd;
            && Enabled(w.c.cache, Put(vd, Private(w.c.manager), w.clock, victim))
            && vd.domain == w.c.calls[id].domain
            && (vd.token.Some? ==> StillFenced(w.c, Snapshot(vd.domain, vd.token.value, vd.acquiredAt)))
  {
    hide CacheInv, RegistryInv, FloorsInv;
    assert CallInv(w, w.c.calls[id]);
  }

  /** How calls develop: identity and start are fixed, floors rise, flags stay set, a finished worker keeps
      what it holds, and a call that has left the registry never comes back. */
  ghost predicate Evolves(c: Coordinator, d: Coordinator) {
    && d.manager == c.manager && |c.calls| <= |d.calls|
    && forall id | 0 <= id < |c.calls| :: Grown(c.calls[id], d.calls[id]) && (Registered(d, id) ==> Registered(c, id))
  }

  ghost predicate Grown(a: Call, b: Call) {
    && b.domain == a.domain && b.kind == a.kind && b.startedAt == a.startedAt && b.floor >= a.floor
    && (a.superseded ==> b.superseded) && (a.invalidated ==> b.invalidated) && (a.cancelled ==> b.cancelled)
    && (!a.worked.Pending? ==> b.worked == a.worked)
  }

  lemma EvolvesOn(c: Coordinator, d: Coordinator, e: Coordinator)
    requires Evolves(c, d) && Evolves(d, e)
    ensures Evolves(c, e)
  {
    hide Registered;
  }

  /** One call changes and its registration still makes sense. */
  lemma CallEvolves(c: Coordinator, id: nat, call: Call)
    requires RegistryInv(c) && id < |c.calls| && Grown(c.calls[id], call)
    requires Registered(c, id) ==> call.result.Pending? && call.waiters > 0 && !call.cancelled && !call.invalidated
    ensures var d := c.(calls := c.calls[id := call]); Evolves(c, d) && RegistryInv(d)
  {
  }

  lemma NewCallEvolves(c: Coordinator, call: Call)
    requires RegistryInv(c) && call.result.Pending? && call.waiters > 0 && !call.cancelled && !call.invalidated
    ensures var d := c.(verifying := c.verifying[WorkOf(call) := |c.calls|], calls := c.calls + [call]);
            Evolves(c, d) && RegistryInv(d)
  {
  }

  lemma JoinEvolves(c: Coordinator, domain: string, kind: Work, now: nat)
    requires RegistryInv(c)
    ensures Evolves(c, AfterJoin(c, domain, kind, now)) && RegistryInv(AfterJoin(c, domain, kind, now))
  {
    hide Evolves;
    var key := WorkKey(domain, kind);
    if key in c.verifying {
      var id := c.verifying[key];
      CallEvolves(c, id, c.calls[id].(waiters := c.calls[id].waiters + 1));
    } else {
      NewCallEvolves(c, NewCall(domain, kind, now));
    }
  }

  lemma UnregisterEvolves(c: Coordinator, id: nat)
    requires RegistryInv(c)
    ensures Evolves(c, Unregister(c, id)) && RegistryInv(Unregister(c, id)) && !Registered(Unregister(c, id), id)
  {
  }

  lemma PublishEvolves(c: Coordinator, id: nat, now: nat, victim: Key)
    requires RegistryInv(c) && id < |c.calls| && c.calls[id].worked.Succeeded?
    ensures var d := AfterPublish(c, id, now, victim);
            Evolves(c, d) && RegistryInv(d) && d.verifying == c.verifying && |d.calls| == |c.calls|
  {
    hide AfterPut;
  }

  lemma DiscardEvolves(c: Coordinator, domain: string, invalidate: bool)
    requires RegistryInv(c)
    ensures Evolves(c, AfterDiscard(c, domain, invalidate)) && RegistryInv(AfterDiscard(c, domain, invalidate))
  {
    hide Drop;
  }

  lemma FinishEvolves(c: Coordinator, id: nat, now: nat, victim: Key)
    requires RegistryInv(c) && id < |c.calls|
    ensures Evolves(c, AfterFinish(c, id, now, victim)) && RegistryInv(AfterFinish(c, id, now, victim))
  {
    hide RegistryInv, AfterPublish, Unregister, Evolves, Registered;
    NothingEvolves(c);
    var p := if Publishes(c.calls[id]) then AfterPublish(c, id, now, victim) else c;
    if Publishes(c.calls[id]) {
      PublishEvolves(c, id, now, victim);
    }
    var u := Unregister(p, id);
    UnregisterEvolves(p, id);
    EvolvesOn(c, p, u);
    AsManyCalls(c, u);
    CallEvolves(u, id, u.calls[id].(result := Verdict(c.calls[id])));
    EvolvesOn(c, u, AfterFinish(c, id, now, victim));
  }

  lemma NothingEvolves(c: Coordinator)
    ensures Evolves(c, c)
  {
  }

  lemma AsManyCalls(c: Coordinator, d: Coordinator)
    requires Evolves(c, d)
    ensures |c.calls| <= |d.calls|
  {
  }

  lemma LeaveEvolves(c: Coordinator, id: nat)
    requires RegistryInv(c) && id < |c.calls| && c.calls[id].waiters > 0
    ensures Evolves(c, AfterLeave(c, id)) && RegistryInv(AfterLeave(c, id))
  {
    hide Evolves;
    var call := c.calls[id].(waiters := c.calls[id].waiters - 1);
    if call.waiters > 0 {
      CallEvolves(c, id, call);
    } else {
      var u := Unregister(c, id);
      UnregisterEvolves(c, id);
      CallEvolves(u, id, call.(cancelled := true));
      EvolvesOn(c, u, u.(calls := u.calls[id := call.(cancelled := true)]));
      assert c.calls[id := call][id := call.(cancelled := true)] == c.calls[id := call.(cancelled := true)];
    }
  }

  /** Registered calls stay sound, and calls only develop. */
  lemma CallsEvolve(w: World, step: Step)
    requires RegistryInv(w.c) && CanStep(w, step)
    ensures Evolves(w.c, Moved(w, step)) && RegistryInv(Moved(w, step))
  {
    hide Apply, RegistryInv, Evolves, Obtainable, NotOurs, AfterFinish, AfterDiscard, AfterJoin, AfterLeave;
    NothingEvolves(w.c);
    match step
    case Tick(_) =>
    case Join(domain, kind) => JoinEvolves(w.c, domain, kind, w.clock);
    case Worked(id, outcome) => WorkedEvolves(w.c, id, outcome);
    case Finish(id, victim) => FinishEvolves(w.c, id, w.clock, victim);
    case Leave(id) => LeaveEvolves(w.c, id);
    case EvictDomain(domain) => DiscardEvolves(w.c, domain, false);
    case InvalidateDomain(domain) => DiscardEvolves(w.c, domain, true);
    case Elsewhere(s) => CacheAloneEvolves(w.c, Apply(w.c.cache, s));
  }

  lemma WorkedEvolves(c: Coordinator, id: nat, outcome: Outcome)
    requires RegistryInv(c) && id < |c.calls| && c.calls[id].worked.Pending?
    ensures var d := c.(calls := c.calls[id := c.calls[id].(worked := outcome)]); Evolves(c, d) && RegistryInv(d)
  {
    CallEvolves(c, id, c.calls[id].(worked := outcome));
  }

  lemma CacheAloneEvolves(c: Coordinator, d: Cache)
    requires RegistryInv(c)
    ensures Evolves(c, c.(cache := d)) && RegistryInv(c.(cache := d))
  {
  }

  /** Only a worker's own step says what it holds, and only joining adds a call. */
  lemma WorkAfterStep(w: World, step: Step, id: nat)
    requires CanStep(w, step) && id < |Moved(w, step).calls|
    ensures id < |w.c.calls| && !(step.Worked? && step.id == id)
        ==> Moved(w, step).calls[id].worked == w.c.calls[id].worked
    ensures id >= |w.c.calls| ==> step.Join? && Moved(w, step).calls[id] == NewCall(step.domain, step.kind, w.clock)
  {
    hide Apply, AfterPut, Drop, Obtainable, NotOurs, Registered;
  }

  lemma StillObtainable(w: World, next: World, a: Call, b: Call, vd: VerifiedDomain)
    requires Obtainable(w, a, vd) && Grown(a, b) && w.clock <= next.clock && w.seen <= next.seen
    ensures Obtainable(next, b, vd)
  {
  }

  lemma CallsAfterStep(w: World, step: Step)
    requires RegistryInv(w.c) && CallsInv(w) && CanStep(w, step)
    ensures CallsInv(Next(w, step))
  {
    hide Moved, RegistryInv, Entries, NextPublished, Registered;
    var next := Next(w, step);
    CallsEvolve(w, step);
    forall id | 0 <= id < |next.c.calls| ensures CallInv(next, next.c.calls[id]) {
      var call := next.c.calls[id];
      WorkAfterStep(w, step, id);
      if id < |w.c.calls| {
        var before := w.c.calls[id];
        assert CallInv(w, before);
        if step.Worked? && step.id == id {
          HeldByWorker(w, step);
        }
        if call.worked.Succeeded? {
          StillObtainable(w, next, before, call, call.worked.vd);
        }
      }
    }
  }

  lemma HeldByWorker(w: World, step: Step)
    requires CanStep(w, step) && step.Worked?
    ensures step.id < |Moved(w, step).calls| && Moved(w, step).calls[step.id].worked == step.outcome
  {
  }

  lemma RaisedFloors(w: World, step: Step, id: nat)
    requires CanStep(w, step) && step.Finish? && Publishes(w.c.calls[step.id])
    requires Concerns(w.c, id, w.c.calls[step.id].domain)
    ensures id < |Moved(w, step).calls| && Moved(w, step).calls[id].floor >= w.c.calls[step.id].worked.vd.acquiredAt
  {
    hide AfterPut;
  }

  lemma FloorsAfterStep(w: World, step: Step)
    requires RegistryInv(w.c) && FloorsInv(w) && ClockInv(w) && CanStep(w, step)
    ensures FloorsInv(Next(w, step))
  {
    hide Moved, Entries, RegistryInv, Obtainable, NotOurs;
    var next := Next(w, step);
    CallsEvolve(w, step);
    forall id: nat | Registered(next.c, id)
      ensures Published(next, next.c.calls[id].domain) <= next.c.calls[id].floor
              || Published(next, next.c.calls[id].domain) <= next.c.calls[id].startedAt
    {
      WorkAfterStep(w, step, id);
      if id < |w.c.calls| {
        assert Grown(w.c.calls[id], next.c.calls[id]);
        if step.Finish? && Publishes(w.c.calls[step.id]) && Concerns(w.c, id, w.c.calls[step.id].domain) {
          RaisedFloors(w, step, id);
        }
      }
    }
  }

  lemma ClockAfterStep(w: World, step: Step)
    requires CallsInv(w) && ClockInv(w) && SeenInv(w) && CanStep(w, step)
    ensures ClockInv(Next(w, step))
  {
    hide Apply, AfterPut, Drop, NotOurs, Entries;
  }

  /** Snapshots stay fenced while the cache moves. */
  lemma FenceHolds(c: Coordinator, d: Coordinator, domain: string, acquiredAt: nat, s: Snapshot)
    requires CacheInv(c.cache) && Fenced(c.cache, d.cache) && OnlyFresh(c, d.cache, domain, acquiredAt)
        && d.manager == c.manager
    requires StillFenced(c, s)
    ensures StillFenced(d, s)
  {
    hide CacheInv;
  }

  lemma NewEntries(c: Coordinator, d: Coordinator, domain: string, acquiredAt: nat, s: Snapshot)
    requires CacheInv(d.cache) && OnlyFresh(c, d.cache, domain, acquiredAt) && d.manager == c.manager
    requires s in Entries(d)
    ensures StillFenced(d, s)
    ensures s in Entries(c) || (s.domain == domain && s.acquiredAt == acquiredAt)
  {
    hide Fenced;
    var key := Home(d, s.domain);
    assert key in d.cache.entries;
    assert SameEvidence(c.cache, d.cache, key) ==> key in c.cache.entries;
  }

  lemma KeptIsOnlyFresh(c: Coordinator, d: Cache, domain: string, acquiredAt: nat)
    requires OnlyKept(c, d)
    ensures OnlyFresh(c, d, domain, acquiredAt)
  {
    hide SameEvidence;
  }

  lemma PublishedRises(w: World, step: Step, domain: string)
    requires CanStep(w, step)
    ensures Published(w, domain) <= Published(Next(w, step), domain)
    ensures step.Finish? && Publishes(w.c.calls[step.id]) && w.c.calls[step.id].domain == domain ==>
              w.c.calls[step.id].worked.vd.acquiredAt <= Published(Next(w, step), domain)
  {
    hide Moved, Entries;
  }

  lemma SeenAfterStep(w: World, step: Step)
    requires Inv(w) && CanStep(w, step)
    ensures SeenInv(Next(w, step))
  {
    hide RegistryInv, FloorsInv, CacheInv, Fenced, OnlyFresh, OnlyKept, Moved, Entries, StillFenced, Published,
        NextPublished, Obtainable;
    var d, next := Moved(w, step), Next(w, step);
    CacheAfterStep(w, step);
    CallsEvolve(w, step);
    var publishes := step.Finish? && Publishes(w.c.calls[step.id]);
    var domain, acquiredAt := "", 0;
    if publishes {
      PublicationIsEnabled(w, step.id, step.victim);
      domain, acquiredAt := w.c.calls[step.id].worked.vd.domain, w.c.calls[step.id].worked.vd.acquiredAt;
    } else {
      KeptIsOnlyFresh(w.c, d.cache, domain, acquiredAt);
    }
    forall s | s in next.seen ensures s.acquiredAt <= Published(next, s.domain) && StillFenced(d, s) {
      PublishedRises(w, step, s.domain);
      if s in w.seen {
        FenceHolds(w.c, d, domain, acquiredAt, s);
      } else {
        NewEntries(w.c, d, domain, acquiredAt, s);
        if !publishes {
          KeptEntries(w.c, d, s);
        }
      }
    }
  }

  lemma KeptEntries(c: Coordinator, d: Coordinator, s: Snapshot)
    requires OnlyKept(c, d.cache) && d.manager == c.manager && s in Entries(d)
    ensures s in Entries(c)
  {
    assert Home(d, s.domain) in d.cache.entries;
  }

  lemma StepKeepsInv(w: World, step: Step)
    requires Inv(w) && CanStep(w, step)
    ensures Inv(Next(w, step))
  {
    hide CacheInv, RegistryInv, CallsInv, FloorsInv, ClockInv, SeenInv, Moved;
    CacheAfterStep(w, step);
    CallsEvolve(w, step);
    CallsAfterStep(w, step);
    FloorsAfterStep(w, step);
    ClockAfterStep(w, step);
    SeenAfterStep(w, step);
  }

  // ---------------------------------------------------------------------------------------------
  // Acquisitions do not go back

  lemma ObtainedBySource(w: World, id: nat)
    requires Inv(w) && id < |w.c.calls| && w.c.calls[id].worked.Succeeded?
    ensures Obtainable(w, w.c.calls[id], w.c.calls[id].worked.vd)
  {
    assert CallInv(w, w.c.calls[id]);
  }

  /** New evidence published by a call that is still registered is at least as recent as everything published
      for the domain before, even by publications that stored nothing. */
  lemma RegisteredCallPublishesLatest(w: World, id: nat)
    requires Inv(w) && Registered(w.c, id) && Publishes(w.c.calls[id]) && w.c.calls[id].worked.vd.token.None?
    ensures w.c.calls[id].worked.vd.acquiredAt >= Published(w, w.c.calls[id].domain)
  {
    ObtainedBySource(w, id);
  }

  /** The entry of a domain after a step holds the same acquisition as before, or one at least as recent as
      everything published. */
  ghost predicate NoRegress(w: World, next: World) {
    forall domain | Home(w.c, domain) in next.c.cache.entries ::
      || SameEvidence(w.c.cache, next.c.cache, Home(w.c, domain))
      || next.c.cache.entries[Home(w.c, domain)].acquiredAt >= Published(w, domain)
  }

  /** The one exception: a call that is no longer registered publishes evidence older than what was published
      since. The module `LatePublication` says when this can happen. */
  ghost predicate LateAndDropped(w: World, step: Step) {
    && step.Finish? && step.id < |w.c.calls|
    && var call := w.c.calls[step.id];
       && !Registered(w.c, step.id) && Publishes(call) && call.worked.vd.token.None?
       && call.worked.vd.acquiredAt < Published(w, call.domain)
  }

  /** No acquisition goes backwards, whatever the step: joining, finishing, leaving, eviction, invalidation,
      copies of cached entries, and other namespaces. */
  lemma StepsDoNotRegress(w: World, step: Step)
    requires Inv(w) && CanStep(w, step) && !LateAndDropped(w, step)
    ensures NoRegress(w, Next(w, step))
  {
    hide Moved, SameEvidence, RegistryInv, FloorsInv, CacheInv, SeenInv, Published, Entries, NextPublished;
    CacheAfterStep(w, step);
    if step.Finish? && Publishes(w.c.calls[step.id]) {
      ObtainedBySource(w, step.id);
      if Registered(w.c, step.id) && w.c.calls[step.id].worked.vd.token.None? {
        RegisteredCallPublishesLatest(w, step.id);
      }
    }
  }

  /** The cache takes the evidence of a call: it is storable and not older than the current entry. */
  predicate Takes(w: World, vd: VerifiedDomain) {
    !Unstorable(vd, w.clock) && !OlderThanCurrent(w.c.cache, Home(w.c, vd.domain), vd)
  }

  lemma LatePut(c: Coordinator, vd: VerifiedDomain, now: nat, victim: Key)
    requires CacheInv(c.cache) && vd.domain != "" && vd.token.None?
    ensures var d, home := AfterPut(c.cache, vd, Private(c.manager), now, victim), Home(c, vd.domain);
            if Unstorable(vd, now) || OlderThanCurrent(c.cache, home, vd) then OnlyKept(c, d)
            else home in d.entries && !SameEvidence(c.cache, d, home) && d.entries[home].acquiredAt == vd.acquiredAt
  {
  }

  /** A step goes backwards exactly if it is the late publication of a dropped call that the cache takes. */
  lemma RegressExactly(w: World, step: Step)
    requires Inv(w) && CanStep(w, step)
    ensures NoRegress(w, Next(w, step)) <==> !(LateAndDropped(w, step) && Takes(w, w.c.calls[step.id].worked.vd))
  {
    hide Moved, SameEvidence, CacheInv, RegistryInv, FloorsInv, SeenInv, Published, Entries, NextPublished, AfterPut,
        Unstorable, OlderThanCurrent;
    if LateAndDropped(w, step) {
      ObtainedBySource(w, step.id);
      CacheAfterPublish(w, step);
      LatePut(w.c, w.c.calls[step.id].worked.vd, w.clock, step.victim);
    } else {
      StepsDoNotRegress(w, step);
    }
  }

  lemma CacheAfterPublish(w: World, step: Step)
    requires CanStep(w, step) && step.Finish? && Publishes(w.c.calls[step.id])
    ensures Moved(w, step).cache ==
        AfterPut(w.c.cache, w.c.calls[step.id].worked.vd, Private(w.c.manager), w.clock, step.victim)
  {
    hide AfterPut;
  }

  /** Entries hold the latest acquisition published. */
  ghost predicate EntriesAreLatest(w: World) {
    forall domain | Home(w.c, domain) in w.c.cache.entries ::
      w.c.cache.entries[Home(w.c, domain)].acquiredAt == Published(w, domain)
  }

  ghost predicate Reaches(w: World, steps: seq<Step>, last: World)
    decreases |steps|
  {
    if steps == [] then w == last
    else CanStep(w, steps[0]) && Reaches(Next(w, steps[0]), steps[1..], last)
  }

  ghost predicate Initial(w: World) {
    w.c.cache == EMPTY && w.c.verifying == map[] && w.c.calls == [] && w.published == map[] && w.seen == {}
  }

  lemma InitialInv(w: World)
    requires Initial(w)
    ensures Inv(w) && EntriesAreLatest(w)
  {
  }

  lemma {:induction false} RunKeepsInv(w: World, steps: seq<Step>, last: World)
    requires Inv(w) && Reaches(w, steps, last)
    ensures Inv(last)
    decreases |steps|
  {
    hide Inv, Next, CanStep;
    if steps != [] {
      StepKeepsInv(w, steps[0]);
      RunKeepsInv(Next(w, steps[0]), steps[1..], last);
    }
  }

  lemma PutTakesNewer(c: Coordinator, vd: VerifiedDomain, now: nat, victim: Key)
    requires vd.domain != "" && vd.token.None? && vd.acquiredAt > 0
    requires Home(c, vd.domain) in c.cache.entries ==> c.cache.entries[Home(c, vd.domain)].acquiredAt <= vd.acquiredAt
    ensures var d := AfterPut(c.cache, vd, Private(c.manager), now, victim);
            Home(c, vd.domain) in d.entries ==> d.entries[Home(c, vd.domain)].acquiredAt == vd.acquiredAt
  {
  }

  /** Publishing new evidence on time leaves the domain's entry absent or at that evidence. */
  lemma LatestAfterPublish(w: World, step: Step)
    requires Inv(w) && EntriesAreLatest(w) && CanStep(w, step) && !LateAndDropped(w, step)
    requires step.Finish? && Publishes(w.c.calls[step.id]) && w.c.calls[step.id].worked.vd.token.None?
    ensures var vd, d := w.c.calls[step.id].worked.vd, Moved(w, step).cache;
            && vd.acquiredAt >= Published(w, vd.domain)
            && (vd.acquiredAt > 0 && Home(w.c, vd.domain) in d.entries
                ==> d.entries[Home(w.c, vd.domain)].acquiredAt == vd.acquiredAt)
  {
    hide Moved, AfterPut, CacheInv, RegistryInv, FloorsInv, SeenInv, CallsInv, Inv;
    var vd := w.c.calls[step.id].worked.vd;
    ObtainedBySource(w, step.id);
    if Registered(w.c, step.id) {
      RegisteredCallPublishesLatest(w, step.id);
    }
    CacheAfterPublish(w, step);
    if vd.acquiredAt > 0 {
      PutTakesNewer(w.c, vd, w.clock, step.victim);
    }
  }

  lemma SnapshotsArePublished(w: World, id: nat)
    requires Inv(w) && id < |w.c.calls| && w.c.calls[id].worked.Succeeded? && w.c.calls[id].worked.vd.token.Some?
    ensures w.c.calls[id].worked.vd.acquiredAt <= Published(w, w.c.calls[id].domain)
  {
    ObtainedBySource(w, id);
  }

  lemma PublishedAfterStep(w: World, step: Step, domain: string)
    requires CanStep(w, step)
    ensures Published(Next(w, step), domain) ==
            if step.Finish? && Publishes(w.c.calls[step.id]) && w.c.calls[step.id].domain == domain
               && w.c.calls[step.id].worked.vd.acquiredAt > Published(w, domain)
            then w.c.calls[step.id].worked.vd.acquiredAt else Published(w, domain)
  {
    hide Moved, Entries;
  }

  lemma LatestAfterStep(w: World, step: Step)
    requires Inv(w) && EntriesAreLatest(w) && CanStep(w, step) && !LateAndDropped(w, step)
    ensures EntriesAreLatest(Next(w, step))
  {
    hide Moved, RegistryInv, FloorsInv, CacheInv, SeenInv, CallsInv, Published, Entries, NextPublished, Inv;
    var next := Next(w, step);
    CacheAfterStep(w, step);
    SameManager(w, step);
    forall domain | Home(w.c, domain) in next.c.cache.entries
      ensures next.c.cache.entries[Home(w.c, domain)].acquiredAt == Published(next, domain)
    {
      PublishedAfterStep(w, step, domain);
      if step.Finish? && Publishes(w.c.calls[step.id]) {
        ObtainedBySource(w, step.id);
        if w.c.calls[step.id].worked.vd.token.None? {
          LatestAfterPublish(w, step);
        } else {
          SnapshotsArePublished(w, step.id);
        }
      }
    }
  }

  lemma SameManager(w: World, step: Step)
    requires CanStep(w, step)
    ensures Moved(w, step).manager == w.c.manager
  {
  }

  // ---------------------------------------------------------------------------------------------
  // Discarded calls

  lemma {:induction false} FlagsStaySet(w: World, steps: seq<Step>, last: World, id: nat)
    requires RegistryInv(w.c) && Reaches(w, steps, last) && id < |w.c.calls|
    ensures id < |last.c.calls| && Grown(w.c.calls[id], last.c.calls[id])
    ensures Registered(last.c, id) ==> Registered(w.c, id)
    decreases |steps|
  {
    hide Moved, CanStep, RegistryInv, Registered;
    if steps != [] {
      CallsEvolve(w, steps[0]);
      assert Grown(w.c.calls[id], Next(w, steps[0]).c.calls[id]);
      FlagsStaySet(Next(w, steps[0]), steps[1..], last, id);
    }
  }

  lemma DiscardSetsFlags(c: Coordinator, domain: string, invalidate: bool, id: nat)
    requires Concerns(c, id, domain)
    ensures var d := AfterDiscard(c, domain, invalidate);
            id < |d.calls| && d.calls[id].superseded && (invalidate ==> d.calls[id].invalidated)
  {
    hide Drop;
  }

  /** A call registered when its domain is evicted or invalidated never stores anything, however late it
      finishes, and an invalidated one never succeeds. */
  lemma DiscardedCallsNeverStore(w: World, discard: Step, steps: seq<Step>, last: World, id: nat, now: nat, victim: Key)
    requires RegistryInv(w.c) && CanStep(w, discard) && (discard.EvictDomain? || discard.InvalidateDomain?)
    requires Concerns(w.c, id, discard.domain)
    requires Reaches(Next(w, discard), steps, last)
    ensures id < |last.c.calls|
    ensures var finished := AfterFinish(last.c, id, now, victim);
            && finished.cache == last.c.cache && finished.calls[id].result == Verdict(last.c.calls[id])
            && (forall other | 0 <= other < |last.c.calls| && other != id ::
                  finished.calls[other] == last.c.calls[other])
            && (discard.InvalidateDomain? ==> !finished.calls[id].result.Succeeded?)
  {
    hide RegistryInv, AfterDiscard, Concerns, Reaches;
    var next := Next(w, discard);
    CallsEvolve(w, discard);
    DiscardSetsFlags(w.c, discard.domain, discard.InvalidateDomain?, id);
    FlagsStaySet(next, steps, last, id);
  }

  /** A call that was cancelled while its worker was at work fails. */
  lemma {:induction false} CancelledStaysPending(w: World, steps: seq<Step>, last: World, id: nat)
    requires RegistryInv(w.c) && Reaches(w, steps, last)
    requires id < |w.c.calls| && w.c.calls[id].cancelled && !w.c.calls[id].worked.Succeeded?
    ensures id < |last.c.calls| && !last.c.calls[id].worked.Succeeded?
    decreases |steps|
  {
    hide Moved, RegistryInv, Registered, Obtainable;
    if steps != [] {
      var next := Next(w, steps[0]);
      CallsEvolve(w, steps[0]);
      assert Grown(w.c.calls[id], next.c.calls[id]);
      WorkAfterStep(w, steps[0], id);
      if steps[0].Worked? && steps[0].id == id {
        HeldByWorker(w, steps[0]);
      }
      CancelledStaysPending(next, steps[1..], last, id);
    }
  }

  lemma LastWaiterCancels(c: Coordinator, id: nat)
    requires id < |c.calls| && c.calls[id].waiters == 1
    ensures var d := AfterLeave(c, id);
            && id < |d.calls| && d.calls[id].cancelled && d.calls[id].worked == c.calls[id].worked
            && !Registered(d, id)
  {
  }

  /** So a call dropped by its last waiter before its worker is past the cancellation check never stores
      anything and never succeeds: only a worker that already holds its evidence can be late. */
  lemma DroppedInTimeNeverStores(w: World, id: nat, steps: seq<Step>, last: World, now: nat, victim: Key)
    requires RegistryInv(w.c) && CanStep(w, Leave(id)) && w.c.calls[id].waiters == 1 && w.c.calls[id].worked.Pending?
    requires Reaches(Next(w, Leave(id)), steps, last)
    ensures id < |last.c.calls| && AfterFinish(last.c, id, now, victim).cache == last.c.cache
    ensures !AfterFinish(last.c, id, now, victim).calls[id].result.Succeeded?
  {
    hide RegistryInv, AfterLeave, Reaches;
    CallsEvolve(w, Leave(id));
    LastWaiterCancels(w.c, id);
    CancelledStaysPending(Next(w, Leave(id)), steps, last, id);
  }

  /** A lookup or refresh that publishes makes every earlier registered call of the domain stop storing. */
  lemma OvertakenCallsNeverStore(w: World, step: Step, steps: seq<Step>, last: World, id: nat, now: nat, victim: Key)
    requires RegistryInv(w.c) && CanStep(w, step) && step.Finish? && Publishes(w.c.calls[step.id])
    requires w.c.calls[step.id].kind != StatusRefresh
    requires Concerns(w.c, id, w.c.calls[step.id].domain) && w.c.calls[id].startedAt < w.c.calls[step.id].startedAt
    requires Reaches(Next(w, step), steps, last)
    ensures id < |last.c.calls| && AfterFinish(last.c, id, now, victim).cache == last.c.cache
  {
    hide RegistryInv, Moved, Reaches;
    var next := Next(w, step);
    CallsEvolve(w, step);
    OvertakenIsMarked(w, step, id);
    FlagsStaySet(next, steps, last, id);
  }

  lemma OvertakenIsMarked(w: World, step: Step, id: nat)
    requires CanStep(w, step) && step.Finish? && Publishes(w.c.calls[step.id])
        && w.c.calls[step.id].kind != StatusRefresh
    requires Concerns(w.c, id, w.c.calls[step.id].domain) && w.c.calls[id].startedAt < w.c.calls[step.id].startedAt
    ensures id < |Moved(w, step).calls| && Moved(w, step).calls[id].superseded
  {
    hide AfterPut;
  }
}
