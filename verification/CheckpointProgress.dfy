/** What the loop of `log/c2sptlog/checkpoint_store.go` accepts: it is not only safe but gets ahead. */
module CheckpointProgress {
  import opened Wrappers
  import opened Merkle
  import opened HashTiles
  import opened TileBytes
  import opened CheckpointStore
  import opened CheckpointProtocol

  /** The evidence is the log itself: all of its entries, or a server that sends its tree within the limit. */
  ghost predicate Shows(h: Hasher, evidence: Evidence, leaves: seq<Digest>) {
    match evidence
    case Scan(entries) => LeafHashes(h, entries) == leaves
    case Tiles(serve, maxTreeSize) =>
      |leaves| <= maxTreeSize && NodesAreSized(h) && Sized(leaves) && SendsTree(h, serve, leaves)
    case _ => false
  }

  /** The log itself is accepted as evidence exactly for the roots it had. */
  lemma LogDecides(h: Hasher, evidence: Evidence, leaves: seq<Digest>, trusted: Checkpoint, next: Checkpoint)
    requires Shows(h, evidence, leaves) && |leaves| == next.size && TreeHash(h, leaves) == next.root
    requires 0 < trusted.size < next.size
    ensures EvidenceAccepts(h, evidence, trusted, next) <==> TreeHash(h, leaves[..trusted.size]) == trusted.root
  {
    hide Root, SendsTree, TilesAccept, TilesRefute, HonestServer, NodesAreSized;
    match evidence
    case Scan(entries) => LeafHashesOfPrefix(h, entries, trusted.size);
    case Tiles(serve, max) =>
      SendingIsHonest(h, serve, leaves);
      HonestServerDecides(h, serve, max, trusted.size, trusted.root, leaves);
  }

  /** One verifier, undisturbed: the first checkpoint of an origin is published, a larger one is published exactly
      if the log behind it had the stored root, and anything else leaves the store alone. */
  method AdvanceUndisturbed(store: MemoryStore, candidate: Checkpoint, evidence: Evidence, ghost leaves: seq<Digest>)
    returns (advanced: bool)
    requires store.Valid()
    requires candidate.origin != "" && candidate.size <= 0x7fff_ffff_ffff_ffff && |candidate.root.bytes| == 32
    requires 0 < candidate.witnessTime < 315_537_897_600 && (candidate.size == 0 ==> candidate.root == store.h.empty)
    modifies store
    ensures store.checkpoints == old(store.checkpoints)
            || (advanced && store.checkpoints == old(store.checkpoints)[candidate.origin := candidate])
    ensures var before, origin := old(store.checkpoints), candidate.origin;
            if origin !in before then advanced && store.checkpoints == before[origin := candidate]
            else
              var trusted := before[origin];
              && (candidate.size < trusted.size ==> !advanced)
              && (candidate.size == trusted.size ==>
                    (advanced <==> candidate.root == trusted.root) && store.checkpoints == before)
              && (candidate.size > trusted.size ==>
                    && (advanced ==> store.checkpoints == before[origin := candidate])
                    && (trusted.size == 0 ==> advanced)
                    && (trusted.size > 0 && evidence.NoSource? ==> !advanced)
                    && (trusted.size > 0 && evidence.Proof? ==> (advanced <==> evidence.verified))
                    && (trusted.size > 0 && Shows(store.h, evidence, leaves) && |leaves| == candidate.size
                        && TreeHash(store.h, leaves) == candidate.root ==>
                          (advanced <==> TreeHash(store.h, leaves[..trusted.size]) == trusted.root)))
  {
    hide Shows, ScanAccepts, TilesAccept, Root, RanksGrow, FromOthers, AllFromOthers;
    var before, origin := store.checkpoints, candidate.origin;
    var failedSwaps;
    ghost var loaded;
    advanced, failedSwaps, loaded := store.Advance(candidate, _ => evidence, _ => before);
    assert loaded == Lookup(before, origin) by { OnlyTheFirst(before, _ => before, origin, loaded); }
    if origin in before && 0 < before[origin].size < candidate.size && Shows(store.h, evidence, leaves)
       && |leaves| == candidate.size && TreeHash(store.h, leaves) == candidate.root
    {
      LogDecides(store.h, evidence, leaves, before[origin], candidate);
    }
  }

  lemma OnlyTheFirst(first: Stored, rivals: nat -> Stored, origin: string, stored: Option<Checkpoint>)
    requires FromOthers(first, rivals, 0, origin, stored)
    ensures stored == Lookup(first, origin)
  {
  }

  // ---------------------------------------------------------------------------------------------
  // Among many verifiers

  /** From any state, a new verifier that takes its steps without a rival in between gets a first checkpoint
      accepted and stored. */
  lemma FirstCheckpointIsAccepted(h: Hasher, s: State, id: nat, candidate: Checkpoint)
    requires id !in s.verifiers && candidate.origin !in s.store
    requires candidate.origin != "" && candidate.size <= 0x7fff_ffff_ffff_ffff && |candidate.root.bytes| == 32
    requires 0 < candidate.witnessTime < 315_537_897_600 && (candidate.size == 0 ==> candidate.root == h.empty)
    ensures var t := Run(h, s, [Start(id, candidate), Load(id), Swap(id, Reported)]);
            && candidate in t.accepted && t.store == s.store[candidate.origin := candidate]
            && id in t.verifiers && t.verifiers[id].phase == Succeeded
  {
    hide Run;
    var s1 := Apply(h, s, Start(id, candidate));
    var s2 := Apply(h, s1, Load(id));
    var s3 := Apply(h, s2, Swap(id, Reported));
    RunStep(h, s2, [Swap(id, Reported)], []);
    RunStep(h, s1, [Load(id), Swap(id, Reported)], [Swap(id, Reported)]);
    RunStep(h, s, [Start(id, candidate), Load(id), Swap(id, Reported)], [Load(id), Swap(id, Reported)]);
    RunNothing(h, s3);
  }

  lemma RunStep(h: Hasher, s: State, run: seq<Step>, rest: seq<Step>)
    requires run != [] && run == [run[0]] + rest
    ensures Run(h, s, run) == Run(h, Apply(h, s, run[0]), rest)
  {
    hide Apply;
    assert run[1..] == rest;
  }

  lemma RunNothing(h: Hasher, s: State)
    ensures Run(h, s, []) == s
  {
  }

  /** And one that the log behind it shows to extend the stored checkpoint is accepted and stored too; the log
      refutes it otherwise. The same tree again is accepted without a swap. */
  lemma LargerCheckpointIsDecided(h: Hasher, s: State, id: nat, candidate: Checkpoint, evidence: Evidence,
                                  leaves: seq<Digest>)
    requires id !in s.verifiers && candidate.origin in s.store && 0 < s.store[candidate.origin].size
    requires candidate.origin != "" && candidate.size <= 0x7fff_ffff_ffff_ffff && |candidate.root.bytes| == 32
    requires 0 < candidate.witnessTime < 315_537_897_600
    requires s.store[candidate.origin].size < candidate.size
    requires Shows(h, evidence, leaves) && |leaves| == candidate.size && TreeHash(h, leaves) == candidate.root
    ensures var t := Run(h, s, [Start(id, candidate), Load(id), Check(id, evidence), Swap(id, Reported)]);
            if TreeHash(h, leaves[..s.store[candidate.origin].size]) == s.store[candidate.origin].root
            then candidate in t.accepted && t.store == s.store[candidate.origin := candidate]
            else t.store == s.store && id in t.verifiers && t.verifiers[id].phase == Rejected(Inconsistent)
  {
    hide Run, Shows, EvidenceAccepts, Root;
    LogDecides(h, evidence, leaves, s.store[candidate.origin], candidate);
    var s1 := Apply(h, s, Start(id, candidate));
    var s2 := Apply(h, s1, Load(id));
    var s3 := Apply(h, s2, Check(id, evidence));
    var s4 := Apply(h, s3, Swap(id, Reported));
    RunNothing(h, s4);
    var run := [Start(id, candidate), Load(id), Check(id, evidence), Swap(id, Reported)];
    RunStep(h, s3, run[3..], []);
    RunStep(h, s2, run[2..], run[3..]);
    RunStep(h, s1, run[1..], run[2..]);
    RunStep(h, s, run, run[1..]);
  }

  lemma SameTreeIsAccepted(h: Hasher, s: State, id: nat, candidate: Checkpoint)
    requires id !in s.verifiers && candidate.origin in s.store
    requires candidate.origin != "" && candidate.size <= 0x7fff_ffff_ffff_ffff && |candidate.root.bytes| == 32
    requires 0 < candidate.witnessTime < 315_537_897_600 && (candidate.size == 0 ==> candidate.root == h.empty)
    requires s.store[candidate.origin].size == candidate.size
    ensures var t := Run(h, s, [Start(id, candidate), Load(id)]);
            && t.store == s.store
            && (s.store[candidate.origin].root == candidate.root ==> candidate in t.accepted)
            && (s.store[candidate.origin].root != candidate.root ==>
                  id in t.verifiers && t.verifiers[id].phase == Rejected(RootConflict))
  {
    hide Run;
    var s1 := Apply(h, s, Start(id, candidate));
    var s2 := Apply(h, s1, Load(id));
    RunNothing(h, s2);
    RunStep(h, s1, [Load(id)], []);
    RunStep(h, s, [Start(id, candidate), Load(id)], [Load(id)]);
  }

  /** What is stored in any run is well formed, if it was before. */
  lemma StoredCheckpointsAreWellFormed(h: Hasher, s: State, steps: seq<Step>, origin: string)
    requires Initial(h, s) && origin in Run(h, s, steps).store
    ensures var c := Run(h, s, steps).store[origin];
            && origin != "" && c.origin == origin && c.size <= 0x7fff_ffff_ffff_ffff && |c.root.bytes| == 32
            && 0 < c.witnessTime < 315_537_897_600 && (c.size == 0 ==> c.root == h.empty)
  {
    hide Run;
    RunsAreInterference(h, s, steps);
  }
}
