/** Many verifiers advancing one trusted-checkpoint store, as interleaved atomic steps of the loop in
    `log/c2sptlog/checkpoint_store.go`. */
module CheckpointProtocol {
  import opened Merkle
  import opened Wrappers
  import opened CheckpointStore

  datatype Failure = Rollback | RootConflict | Inconsistent | StoreError | Cancelled

  /** Where one call of the loop stands. */
  datatype Phase =
    | Loading
    | Checking(trusted: Checkpoint)
    | Swapping(expected: Option<Checkpoint>)
    | Succeeded
    | Rejected(failure: Failure)

  datatype Verifier = Verifier(candidate: Checkpoint, phase: Phase, failedSwaps: nat)

  datatype State = State(store: Stored, verifiers: map<nat, Verifier>, accepted: set<Checkpoint>)

  /** A store operation may report an error without having published, or after it did. */
  datatype SwapOutcome = Reported | ErrorBefore | ErrorAfter

  datatype Step =
    | Start(id: nat, candidate: Checkpoint)
    | Load(id: nat)
    | Check(id: nat, evidence: Evidence)
    | Swap(id: nat, outcome: SwapOutcome)
    | Cancel(id: nat)

  function Enter(s: State, id: nat, phase: Phase): State
    requires id in s.verifiers
  {
    s.(verifiers := s.verifiers[id := s.verifiers[id].(phase := phase)])
  }

  function Accept(s: State, id: nat): State
    requires id in s.verifiers
  {
    Enter(s, id, Succeeded).(accepted := s.accepted + {s.verifiers[id].candidate})
  }

  function ApplyLoad(s: State, id: nat): State
    requires id in s.verifiers
  {
    var candidate := s.verifiers[id].candidate;
    match Lookup(s.store, candidate.origin)
    case None => Enter(s, id, Swapping(None))
    case Some(trusted) =>
      if candidate.size < trusted.size then Enter(s, id, Rejected(Rollback))
      else if candidate.size == trusted.size then
        if candidate.root == trusted.root then Accept(s, id) else Enter(s, id, Rejected(RootConflict))
      else Enter(s, id, Checking(trusted))
  }

  function ApplySwap(s: State, id: nat, expected: Option<Checkpoint>, outcome: SwapOutcome): State
    requires id in s.verifiers
  {
    var v := s.verifiers[id];
    if outcome == ErrorBefore then Enter(s, id, Rejected(StoreError))
    else if Lookup(s.store, v.candidate.origin) != expected then
      if outcome == ErrorAfter then Enter(s, id, Rejected(StoreError))
      else s.(verifiers := s.verifiers[id := Verifier(v.candidate, Loading, v.failedSwaps + 1)])
    else
      var published := s.(store := s.store[v.candidate.origin := v.candidate]);
      if outcome == ErrorAfter then Enter(published, id, Rejected(StoreError)) else Accept(published, id)
  }

  /** One atomic step; a step that does not fit the verifier's phase does nothing. */
  ghost function Apply(h: Hasher, s: State, step: Step): State {
    match step
    case Start(id, candidate) =>
      if id in s.verifiers || !ValidCheckpoint(h, candidate.origin, candidate) then s
      else s.(verifiers := s.verifiers[id := Verifier(candidate, Loading, 0)])
    case Load(id) =>
      if id in s.verifiers && s.verifiers[id].phase.Loading? then ApplyLoad(s, id) else s
    case Check(id, evidence) =>
      if id in s.verifiers && s.verifiers[id].phase.Checking? then
        var v := s.verifiers[id];
        if v.phase.trusted.size <= v.candidate.size && EvidenceAccepts(h, evidence, v.phase.trusted, v.candidate)
        then Enter(s, id, Swapping(Some(v.phase.trusted)))
        else Enter(s, id, Rejected(Inconsistent))
      else s
    case Swap(id, outcome) =>
      if id in s.verifiers && s.verifiers[id].phase.Swapping? then
        ApplySwap(s, id, s.verifiers[id].phase.expected, outcome)
      else s
    case Cancel(id) =>
      if id in s.verifiers && !s.verifiers[id].phase.Succeeded? then Enter(s, id, Rejected(Cancelled)) else s
  }

  ghost function Run(h: Hasher, s: State, steps: seq<Step>): State
    decreases |steps|
  {
    if steps == [] then s else Run(h, Apply(h, s, steps[0]), steps[1..])
  }

  /** The node inputs hashed by every check of the run lie in `seen`. */
  ghost predicate StepWithin(h: Hasher, seen: set<NodeInput>, s: State, step: Step) {
    step.Check? && step.id in s.verifiers && s.verifiers[step.id].phase.Checking? ==>
      var v := s.verifiers[step.id];
      v.phase.trusted.size <= v.candidate.size ==>
        EvidenceWithin(h, seen, step.evidence, v.phase.trusted, v.candidate)
  }

  ghost predicate RunWithin(h: Hasher, seen: set<NodeInput>, s: State, steps: seq<Step>)
    decreases |steps|
  {
    steps == [] || (StepWithin(h, seen, s, steps[0]) && RunWithin(h, seen, Apply(h, s, steps[0]), steps[1..]))
  }

  /** A store, possibly seeded out of band, that no verifier has used yet. */
  ghost predicate Initial(h: Hasher, s: State) {
    && s.verifiers == map[] && s.accepted == {}
    && forall origin | origin in s.store :: ValidCheckpoint(h, origin, s.store[origin])
  }

  // ---------------------------------------------------------------------------------------------
  // Sizes alone, without any assumption about hashes or evidence

  /** How far a verifier has got, in sizes: failed swaps are paid for by the rank of what it met, and the store
      holds what it loaded or something of a higher rank. */
  ghost predicate SizesFit(h: Hasher, store: Stored, v: Verifier) {
    var origin := v.candidate.origin;
    && ValidCheckpoint(h, origin, v.candidate)
    && v.failedSwaps <= v.candidate.size + 1
    && match v.phase
       case Loading => v.failedSwaps <= Rank(Lookup(store, origin))
       case Checking(trusted) =>
         && trusted.size < v.candidate.size && v.failedSwaps <= Rank(Some(trusted))
         && Unshrunk(store, origin, Some(trusted))
       case Swapping(expected) =>
         && v.failedSwaps <= Rank(expected) <= v.candidate.size
         && Unshrunk(store, origin, expected)
       case _ => true
  }

  ghost predicate SizesInv(h: Hasher, s: State) {
    forall id | id in s.verifiers :: SizesFit(h, s.store, s.verifiers[id])
  }

  lemma SizesFitAfterGrowth(h: Hasher, from: Stored, to: Stored, v: Verifier)
    requires SizesFit(h, from, v) && RanksGrow(from, to)
    ensures SizesFit(h, to, v)
  {
    hide ValidCheckpoint, RanksGrow;
    UnshrunkAt(from, to, v.candidate.origin);
  }

  lemma OthersStillFit(h: Hasher, s: State, id: nat, to: Stored, after: map<nat, Verifier>)
    requires SizesInv(h, s) && RanksGrow(s.store, to)
    requires id in after && after == s.verifiers[id := after[id]] && SizesFit(h, to, after[id])
    ensures forall i | i in after :: SizesFit(h, to, after[i])
  {
    hide SizesFit, RanksGrow;
    forall i | i in after ensures SizesFit(h, to, after[i]) {
      if i != id {
        SizesFitAfterGrowth(h, s.store, to, s.verifiers[i]);
      }
    }
  }

  lemma SwapFits(h: Hasher, s: State, id: nat, outcome: SwapOutcome)
    requires id in s.verifiers && s.verifiers[id].phase.Swapping? && SizesFit(h, s.store, s.verifiers[id])
    ensures var t := ApplySwap(s, id, s.verifiers[id].phase.expected, outcome);
            && RanksGrow(s.store, t.store)
            && id in t.verifiers && SizesFit(h, t.store, t.verifiers[id])
            && t.verifiers == s.verifiers[id := t.verifiers[id]]
  {
    hide ValidCheckpoint, RanksGrow;
    var v := s.verifiers[id];
    RanksStay(s.store);
    if Lookup(s.store, v.candidate.origin) == v.phase.expected {
      RanksGrowByPublication(s.store, v.candidate);
    }
  }

  /** The verifier that takes a step still fits, and the store grows. */
  lemma StepFits(h: Hasher, s: State, step: Step)
    requires SizesInv(h, s)
    ensures var t := Apply(h, s, step);
            && RanksGrow(s.store, t.store)
            && (step.id in t.verifiers ==> SizesFit(h, t.store, t.verifiers[step.id]))
            && (t != s ==> step.id in t.verifiers && t.verifiers == s.verifiers[step.id := t.verifiers[step.id]])
  {
    hide ValidCheckpoint, EvidenceAccepts, RanksGrow, ApplySwap;
    RanksStay(s.store);
    if step.Swap? && step.id in s.verifiers && s.verifiers[step.id].phase.Swapping? {
      SwapFits(h, s, step.id, step.outcome);
    }
  }

  lemma StepKeepsSizes(h: Hasher, s: State, step: Step)
    requires SizesInv(h, s)
    ensures SizesInv(h, Apply(h, s, step)) && RanksGrow(s.store, Apply(h, s, step).store)
  {
    hide Apply, SizesFit, RanksGrow;
    var t := Apply(h, s, step);
    StepFits(h, s, step);
    if t != s {
      OthersStillFit(h, s, step.id, t.store, t.verifiers);
    }
  }

  /** In every run, whatever the evidence and the hashes, the checkpoint of an origin only ever gives way to one
      of a larger tree. */
  lemma {:induction false} RunKeepsSizes(h: Hasher, s: State, steps: seq<Step>)
    requires SizesInv(h, s)
    ensures SizesInv(h, Run(h, s, steps)) && RanksGrow(s.store, Run(h, s, steps).store)
    decreases |steps|
  {
    hide Apply, SizesInv, RanksGrow;
    if steps == [] {
      RanksStay(s.store);
    } else {
      var t := Apply(h, s, steps[0]);
      StepKeepsSizes(h, s, steps[0]);
      RunKeepsSizes(h, t, steps[1..]);
      RanksGrowOn(s.store, t.store, Run(h, t, steps[1..]).store);
    }
  }

  lemma {:induction false} RunKeepsStoreValid(h: Hasher, s: State, steps: seq<Step>)
    requires SizesInv(h, s) && StoreIsValid(h, s)
    ensures StoreIsValid(h, Run(h, s, steps))
    decreases |steps|
  {
    hide SizesInv, StoreIsValid, Apply;
    if steps != [] {
      StepKeepsSizes(h, s, steps[0]);
      StepKeepsStoreValid(h, s, steps[0]);
      RunKeepsStoreValid(h, Apply(h, s, steps[0]), steps[1..]);
    }
  }

  lemma StepKeepsStoreValid(h: Hasher, s: State, step: Step)
    requires SizesInv(h, s) && StoreIsValid(h, s)
    ensures StoreIsValid(h, Apply(h, s, step))
  {
    hide ValidCheckpoint, EvidenceAccepts;
    if step.Swap? && step.id in s.verifiers {
      assert SizesFit(h, s.store, s.verifiers[step.id]);
    }
  }

  /** A verifier with a candidate of size n sees at most n + 1 failed swaps, under any scheduling, with any
      evidence and any hashes. */
  lemma RetriesAreBounded(h: Hasher, s: State, steps: seq<Step>, id: nat)
    requires s.verifiers == map[]
    requires id in Run(h, s, steps).verifiers
    ensures Run(h, s, steps).verifiers[id].failedSwaps <= Run(h, s, steps).verifiers[id].candidate.size + 1
  {
    hide Run;
    RunKeepsSizes(h, s, steps);
    assert SizesFit(h, Run(h, s, steps).store, Run(h, s, steps).verifiers[id]);
  }

  /** A swap that fails in any run met a store that ranks higher than what the verifier had loaded. */
  lemma FailedSwapMeansGrowth(h: Hasher, s: State, steps: seq<Step>, id: nat)
    requires s.verifiers == map[]
    requires id in Run(h, s, steps).verifiers && Run(h, s, steps).verifiers[id].phase.Swapping?
    ensures var t := Run(h, s, steps);
            var v := t.verifiers[id];
            Lookup(t.store, v.candidate.origin) != v.phase.expected ==>
              Rank(Lookup(t.store, v.candidate.origin)) > Rank(v.phase.expected)
  {
    hide Run;
    RunKeepsSizes(h, s, steps);
    assert SizesFit(h, Run(h, s, steps).store, Run(h, s, steps).verifiers[id]);
  }

  /** What other verifiers do to a store meanwhile is an interference that the retry loop allows for: the loop's
      assumption about its rivals holds in every run. */
  lemma RunsAreInterference(h: Hasher, s: State, steps: seq<Step>)
    requires SizesInv(h, s) && StoreIsValid(h, s)
    ensures RanksGrow(s.store, Run(h, s, steps).store) && StoreIsValid(h, Run(h, s, steps))
  {
    RunKeepsSizes(h, s, steps);
    RunKeepsStoreValid(h, s, steps);
  }

  // ---------------------------------------------------------------------------------------------
  // The invariant

  ghost predicate StoreIsValid(h: Hasher, s: State) {
    forall origin | origin in s.store :: ValidCheckpoint(h, origin, s.store[origin])
  }

  /** Accepted checkpoints lie on one chain that ends at the stored checkpoint. */
  ghost predicate AcceptedFormChain(h: Hasher, seen: set<NodeInput>, s: State) {
    && (forall c | c in s.accepted :: c.origin in s.store && Extends(h, seen, c, s.store[c.origin]))
    && (forall c, d | c in s.accepted && d in s.accepted && c.origin == d.origin ::
          Extends(h, seen, c, d) || Extends(h, seen, d, c))
  }

  /** What is stored now extends what was loaded. */
  ghost predicate Outgrown(h: Hasher, seen: set<NodeInput>, store: Stored, origin: string, loaded: Option<Checkpoint>) {
    loaded.Some? ==> origin in store && Extends(h, seen, loaded.value, store[origin])
  }

  /** A verifier's sizes fit, and what it loaded and checked is consistent. */
  ghost predicate VerifierIsSound(h: Hasher, seen: set<NodeInput>, store: Stored, v: Verifier) {
    var origin := v.candidate.origin;
    && SizesFit(h, store, v)
    && match v.phase
       case Checking(trusted) =>
         ValidCheckpoint(h, origin, trusted) && Outgrown(h, seen, store, origin, Some(trusted))
       case Swapping(expected) =>
         && (expected.Some? ==> Extends(h, seen, expected.value, v.candidate))
         && Outgrown(h, seen, store, origin, expected)
       case _ => true
  }

  ghost predicate Inv(h: Hasher, seen: set<NodeInput>, s: State) {
    && StoreIsValid(h, s)
    && AcceptedFormChain(h, seen, s)
    && forall id | id in s.verifiers :: VerifierIsSound(h, seen, s.store, s.verifiers[id])
  }

  /** The store moved from one state to another only by publications that extend what they replace. */
  ghost predicate StoreGrows(h: Hasher, seen: set<NodeInput>, from: Stored, to: Stored) {
    forall origin | origin in from ::
      && origin in to
      && Extends(h, seen, from[origin], to[origin])
      && (to[origin] == from[origin] || from[origin].size < to[origin].size)
  }

  lemma StoreGrowsReflexive(h: Hasher, seen: set<NodeInput>, store: Stored)
    ensures StoreGrows(h, seen, store, store)
  {
    forall origin | origin in store ensures Extends(h, seen, store[origin], store[origin]) {
      ExtendsEqual(h, seen, store[origin], store[origin]);
    }
  }

  lemma StoreGrowsTransitive(h: Hasher, seen: set<NodeInput>, a: Stored, b: Stored, c: Stored)
    requires StoreGrows(h, seen, a, b) && StoreGrows(h, seen, b, c)
    ensures StoreGrows(h, seen, a, c)
  {
    hide Extends;
    forall origin | origin in a
      ensures origin in c && Extends(h, seen, a[origin], c[origin])
          && (c[origin] == a[origin] || a[origin].size < c[origin].size)
    {
      ExtendsTransitive(h, seen, a[origin], b[origin], c[origin]);
    }
  }

  lemma SoundAfterGrowth(h: Hasher, seen: set<NodeInput>, from: Stored, to: Stored, v: Verifier)
    requires VerifierIsSound(h, seen, from, v) && StoreGrows(h, seen, from, to)
    ensures VerifierIsSound(h, seen, to, v)
  {
    hide Extends, ValidCheckpoint;
    var origin := v.candidate.origin;
    match v.phase
    case Checking(trusted) => ExtendsTransitive(h, seen, trusted, from[origin], to[origin]);
    case Swapping(Some(c)) => ExtendsTransitive(h, seen, c, from[origin], to[origin]);
    case _ =>
  }

  /** Publishing a candidate that extends the stored checkpoint. */
  lemma PublicationGrows(h: Hasher, seen: set<NodeInput>, store: Stored, candidate: Checkpoint)
    requires candidate.origin in store ==>
               Extends(h, seen, store[candidate.origin], candidate) && store[candidate.origin].size < candidate.size
    ensures StoreGrows(h, seen, store, store[candidate.origin := candidate])
  {
    hide Extends;
    StoreGrowsReflexive(h, seen, store);
  }

  lemma ChainAfterGrowth(h: Hasher, seen: set<NodeInput>, s: State, to: Stored)
    requires AcceptedFormChain(h, seen, s) && StoreGrows(h, seen, s.store, to)
    ensures AcceptedFormChain(h, seen, s.(store := to))
  {
    hide Extends;
    forall c | c in s.accepted ensures c.origin in to && Extends(h, seen, c, to[c.origin]) {
      ExtendsTransitive(h, seen, c, s.store[c.origin], to[c.origin]);
    }
  }

  /** A candidate that agrees with the stored checkpoint joins the chain at its end. */
  lemma ChainWithCandidate(h: Hasher, seen: set<NodeInput>, s: State, candidate: Checkpoint)
    requires AcceptedFormChain(h, seen, s)
    requires candidate.origin in s.store
    requires s.store[candidate.origin].size == candidate.size && s.store[candidate.origin].root == candidate.root
    ensures AcceptedFormChain(h, seen, s.(accepted := s.accepted + {candidate}))
  {
    hide Extends;
    ExtendsEqual(h, seen, candidate, s.store[candidate.origin]);
    ExtendsEqual(h, seen, s.store[candidate.origin], candidate);
    ExtendsEqual(h, seen, candidate, candidate);
    forall c | c in s.accepted && c.origin == candidate.origin ensures Extends(h, seen, c, candidate) {
      ExtendsTransitive(h, seen, c, s.store[c.origin], candidate);
    }
  }

  // ---------------------------------------------------------------------------------------------
  // Every step keeps the invariant and grows the store

  /** The verifiers other than `id` stay sound when the store grows. */
  lemma OthersStaySound(h: Hasher, seen: set<NodeInput>, s: State, id: nat, to: Stored, after: map<nat, Verifier>)
    requires Inv(h, seen, s) && StoreGrows(h, seen, s.store, to)
    requires id in after && after == s.verifiers[id := after[id]]
    requires VerifierIsSound(h, seen, to, after[id])
    ensures forall i | i in after :: VerifierIsSound(h, seen, to, after[i])
  {
    hide VerifierIsSound, StoreGrows;
    forall i | i in after ensures VerifierIsSound(h, seen, to, after[i]) {
      if i != id {
        SoundAfterGrowth(h, seen, s.store, to, s.verifiers[i]);
      }
    }
  }

  lemma LoadKeepsInv(h: Hasher, seen: set<NodeInput>, s: State, id: nat)
    requires Inv(h, seen, s) && id in s.verifiers && s.verifiers[id].phase.Loading?
    ensures Inv(h, seen, ApplyLoad(s, id))
  {
    hide Extends;
    var v := s.verifiers[id];
    var s' := ApplyLoad(s, id);
    StoreGrowsReflexive(h, seen, s.store);
    match Lookup(s.store, v.candidate.origin) {
      case None =>
      case Some(trusted) =>
        ExtendsEqual(h, seen, trusted, trusted);
        if v.candidate.size == trusted.size && v.candidate.root == trusted.root {
          ChainWithCandidate(h, seen, s, v.candidate);
        }
    }
    OthersStaySound(h, seen, s, id, s.store, s'.verifiers);
  }

  lemma CheckKeepsInv(h: Hasher, seen: set<NodeInput>, s: State, step: Step)
    requires Inv(h, seen, s) && step.Check? && StepWithin(h, seen, s, step) && NoCollision(h, seen)
    requires step.id in s.verifiers && s.verifiers[step.id].phase.Checking?
    ensures Inv(h, seen, Apply(h, s, step)) && Apply(h, s, step).store == s.store
  {
    hide Extends, EvidenceAccepts, EvidenceWithin, NoCollision;
    var v := s.verifiers[step.id];
    var s' := Apply(h, s, step);
    if EvidenceAccepts(h, step.evidence, v.phase.trusted, v.candidate) {
      EvidenceProvesExtension(h, seen, step.evidence, v.phase.trusted, v.candidate);
    }
    StoreGrowsReflexive(h, seen, s.store);
    OthersStaySound(h, seen, s, step.id, s.store, s'.verifiers);
  }

  lemma SwapKeepsInv(h: Hasher, seen: set<NodeInput>, s: State, id: nat, outcome: SwapOutcome)
    requires Inv(h, seen, s) && id in s.verifiers && s.verifiers[id].phase.Swapping?
    ensures Inv(h, seen, ApplySwap(s, id, s.verifiers[id].phase.expected, outcome))
    ensures StoreGrows(h, seen, s.store, ApplySwap(s, id, s.verifiers[id].phase.expected, outcome).store)
  {
    hide Extends, ValidCheckpoint;
    var v := s.verifiers[id];
    var s' := ApplySwap(s, id, v.phase.expected, outcome);
    if s'.store == s.store {
      StoreGrowsReflexive(h, seen, s.store);
    } else {
      PublicationGrows(h, seen, s.store, v.candidate);
      assert s'.store == s.store[v.candidate.origin := v.candidate];
      ChainAfterGrowth(h, seen, s, s'.store);
      ChainWithCandidate(h, seen, s.(store := s'.store), v.candidate);
    }
    if outcome == Reported && Lookup(s.store, v.candidate.origin) == v.phase.expected {
      PublicationGrows(h, seen, s.store, v.candidate);
      ChainAfterGrowth(h, seen, s, s'.store);
      ChainWithCandidate(h, seen, s.(store := s'.store), v.candidate);
    }
    OthersStaySound(h, seen, s, id, s'.store, s'.verifiers);
  }

  lemma StepKeepsInv(h: Hasher, seen: set<NodeInput>, s: State, step: Step)
    requires Inv(h, seen, s) && StepWithin(h, seen, s, step) && NoCollision(h, seen)
    ensures Inv(h, seen, Apply(h, s, step))
    ensures StoreGrows(h, seen, s.store, Apply(h, s, step).store)
  {
    hide Extends, EvidenceAccepts, EvidenceWithin, NoCollision, ApplySwap, ApplyLoad;
    var s' := Apply(h, s, step);
    StoreGrowsReflexive(h, seen, s.store);
    if s' != s {
      match step {
        case Start(id, candidate) => OthersStaySound(h, seen, s, id, s.store, s'.verifiers);
        case Load(id) =>
          LoadKeepsInv(h, seen, s, id);
          LoadLeavesStore(s, id);
        case Check(id, _) => CheckKeepsInv(h, seen, s, step);
        case Swap(id, outcome) => SwapKeepsInv(h, seen, s, id, outcome);
        case Cancel(id) => OthersStaySound(h, seen, s, id, s.store, s'.verifiers);
      }
    }
  }

  lemma LoadLeavesStore(s: State, id: nat)
    requires id in s.verifiers
    ensures ApplyLoad(s, id).store == s.store
  {
  }

  lemma {:induction false} RunKeepsInv(h: Hasher, seen: set<NodeInput>, s: State, steps: seq<Step>)
    requires Inv(h, seen, s) && RunWithin(h, seen, s, steps) && NoCollision(h, seen)
    ensures Inv(h, seen, Run(h, s, steps))
    ensures StoreGrows(h, seen, s.store, Run(h, s, steps).store)
    decreases |steps|
  {
    hide Inv, Apply, StepWithin, StoreGrows, NoCollision;
    if steps == [] {
      StoreGrowsReflexive(h, seen, s.store);
    } else {
      var s' := Apply(h, s, steps[0]);
      StepKeepsInv(h, seen, s, steps[0]);
      RunKeepsInv(h, seen, s', steps[1..]);
      StoreGrowsTransitive(h, seen, s.store, s'.store, Run(h, s', steps[1..]).store);
    }
  }

  // ---------------------------------------------------------------------------------------------
  // Main results

  /** Append-only trust. In every interleaving of any number of verifiers, checkpoints that any of them
      ever accepted for one origin are pairwise consistent, and each is consistent with what is stored; the
      store itself only ever moved to checkpoints of strictly larger trees that extend the previous one. */
  lemma AcceptedCheckpointsAreConsistent(h: Hasher, seen: set<NodeInput>, s: State, steps: seq<Step>)
    requires Initial(h, s) && RunWithin(h, seen, s, steps) && NoCollision(h, seen)
    ensures var t := Run(h, s, steps);
            && (forall c, d | c in t.accepted && d in t.accepted && c.origin == d.origin ::
                  Extends(h, seen, c, d) || Extends(h, seen, d, c))
            && (forall c | c in t.accepted :: c.origin in t.store && Extends(h, seen, c, t.store[c.origin]))
            && StoreGrows(h, seen, s.store, t.store)
  {
    hide Extends, RunWithin;
    RunKeepsInv(h, seen, s, steps);
  }

  /** A single log stands behind everything accepted: any log behind the stored checkpoint has every
      accepted checkpoint of that origin as the hash of one of its prefixes. */
  lemma OneLogBehindAll(h: Hasher, seen: set<NodeInput>, s: State, steps: seq<Step>, c: Checkpoint, leaves: seq<Digest>)
    requires Initial(h, s) && RunWithin(h, seen, s, steps) && NoCollision(h, seen)
    requires c in Run(h, s, steps).accepted
    requires c.origin in Run(h, s, steps).store && Opens(h, seen, leaves, Run(h, s, steps).store[c.origin])
    ensures c.size <= |leaves| && TreeHash(h, leaves[..c.size]) == c.root
  {
    hide Run, RunWithin, NoCollision;
    AcceptedCheckpointsAreConsistent(h, seen, s, steps);
  }
}
