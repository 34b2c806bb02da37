/** Trusted checkpoints and the evidence that lets one replace another (`log/c2sptlog/checkpoint_store.go`). */
module CheckpointStore {
  import opened Merkle
  import opened Wrappers
  import opened HashTiles

  const MAX_INT64: nat := 0x7fff_ffff_ffff_ffff

  /** Seconds from the start of year 1, Go's zero time, to the start of year 10000. */
  const YEAR_10000 := 315_537_897_600

  datatype Checkpoint = Checkpoint(origin: string, size: nat, root: Digest, witnessTime: int)

  predicate ValidCheckpoint(h: Hasher, origin: string, c: Checkpoint) {
    && origin != "" && c.origin == origin
    && c.size <= MAX_INT64
    && |c.root.bytes| == HASH_SIZE
    && 0 < c.witnessTime < YEAR_10000
    && (c.size == 0 ==> c.root == h.empty)
  }

  // ---------------------------------------------------------------------------------------------
  // Consistency

  /** The log's leaves and every earlier state of it hash within `seen`. */
  ghost predicate LogWithin(h: Hasher, seen: set<NodeInput>, leaves: seq<Digest>) {
    forall n | 0 < n <= |leaves| :: Pairs(h, leaves[..n]) <= seen
  }

  /** `leaves` is a log behind checkpoint `c`. */
  ghost predicate Opens(h: Hasher, seen: set<NodeInput>, leaves: seq<Digest>, c: Checkpoint) {
    |leaves| == c.size && TreeHash(h, leaves) == c.root && LogWithin(h, seen, leaves)
  }

  /** Every log behind `d` has, as its first `c.size` leaves, a log behind `c`. */
  ghost predicate Extends(h: Hasher, seen: set<NodeInput>, c: Checkpoint, d: Checkpoint) {
    && c.size <= d.size
    && (c.size == d.size ==> c.root == d.root)
    && forall leaves | Opens(h, seen, leaves, d) :: Opens(h, seen, leaves[..c.size], c)
  }

  lemma PrefixWithin(h: Hasher, seen: set<NodeInput>, leaves: seq<Digest>, n: nat)
    requires n <= |leaves| && LogWithin(h, seen, leaves)
    ensures LogWithin(h, seen, leaves[..n])
  {
    forall k | 0 < k <= n ensures Pairs(h, leaves[..n][..k]) <= seen {
      assert leaves[..n][..k] == leaves[..k];
    }
  }

  lemma ExtendsEqual(h: Hasher, seen: set<NodeInput>, c: Checkpoint, d: Checkpoint)
    requires c.size == d.size && c.root == d.root
    ensures Extends(h, seen, c, d)
  {
    forall leaves | Opens(h, seen, leaves, d) ensures Opens(h, seen, leaves[..c.size], c) {
      assert leaves[..c.size] == leaves;
    }
  }

  /** Consistency composes. Extension is antisymmetric on size and root, so it orders checkpoints. */
  lemma ExtendsTransitive(h: Hasher, seen: set<NodeInput>, c: Checkpoint, d: Checkpoint, e: Checkpoint)
    requires Extends(h, seen, c, d) && Extends(h, seen, d, e)
    ensures Extends(h, seen, c, e)
  {
    forall leaves | Opens(h, seen, leaves, e) ensures Opens(h, seen, leaves[..c.size], c) {
      assert Opens(h, seen, leaves[..d.size], d);
      assert leaves[..d.size][..c.size] == leaves[..c.size];
    }
  }

  // ---------------------------------------------------------------------------------------------
  // Evidence

  /** What a client offers for a step from one checkpoint to a larger one: a complete scan of raw entries,
      a tile server, the verdict of an external RFC 6962 proof verifier, or nothing. */
  datatype Evidence =
    | Scan(entries: seq<Bytes>)
    | Tiles(serve: Server, maxTreeSize: nat)
    | Proof(verified: bool)
    | NoSource

  ghost predicate ScanAccepts(h: Hasher, entries: seq<Bytes>, trusted: Checkpoint, next: Checkpoint)
    requires trusted.size <= next.size
  {
    && |entries| == next.size
    && TreeHash(h, LeafHashes(h, entries)) == next.root
    && TreeHash(h, LeafHashes(h, entries[..trusted.size])) == trusted.root
  }

  ghost predicate EvidenceAccepts(h: Hasher, evidence: Evidence, trusted: Checkpoint, next: Checkpoint)
    requires trusted.size <= next.size
  {
    trusted.size == 0 ||
    match evidence
    case Scan(entries) => ScanAccepts(h, entries, trusted, next)
    case Tiles(serve, max) => TilesAccept(h, serve, max, trusted.size, trusted.root, next.size, next.root)
    case Proof(verified) => verified
    case NoSource => false
  }

  /** The node inputs hashed while the evidence is checked lie in `seen`. Of the external proof verifier
      nothing is known, so for an accepted proof its soundness is taken as given. */
  ghost predicate EvidenceWithin(h: Hasher, seen: set<NodeInput>, evidence: Evidence, trusted: Checkpoint,
                                 next: Checkpoint)
    requires trusted.size <= next.size
  {
    trusted.size == 0 ||
    match evidence
    case Scan(entries) => entries != [] ==> Pairs(h, LeafHashes(h, entries)) <= seen
    case Tiles(serve, max) =>
      Authenticated(h, serve, trusted.size, next.size, next.root) ==>
        HashedWithin(h, serve, trusted.size, next.size, next.root, seen)
    case Proof(verified) => verified ==> Extends(h, seen, trusted, next)
    case NoSource => true
  }

  lemma ScanProvesExtension(h: Hasher, seen: set<NodeInput>, entries: seq<Bytes>, trusted: Checkpoint, next: Checkpoint)
    requires 0 < trusted.size < next.size
    requires ScanAccepts(h, entries, trusted, next)
    requires Pairs(h, LeafHashes(h, entries)) <= seen && NoCollision(h, seen)
    ensures Extends(h, seen, trusted, next)
  {
    var scanned := LeafHashes(h, entries);
    LeafHashesOfPrefix(h, entries, trusted.size);
    forall leaves | Opens(h, seen, leaves, next) ensures Opens(h, seen, leaves[..trusted.size], trusted) {
      assert leaves[..|leaves|] == leaves;
      RootBindsLeaves(h, leaves, scanned, seen);
      PrefixWithin(h, seen, leaves, trusted.size);
    }
  }

  lemma TilesProveExtension(h: Hasher, seen: set<NodeInput>, serve: Server, max: nat, trusted: Checkpoint,
                            next: Checkpoint)
    requires 0 < trusted.size < next.size
    requires TilesAccept(h, serve, max, trusted.size, trusted.root, next.size, next.root)
    requires HashedWithin(h, serve, trusted.size, next.size, next.root, seen) && NoCollision(h, seen)
    ensures Extends(h, seen, trusted, next)
  {
    hide Root, Pairs, Authenticated, HashedWithin, Fold;
    forall leaves | Opens(h, seen, leaves, next) ensures Opens(h, seen, leaves[..trusted.size], trusted) {
      assert leaves[..|leaves|] == leaves;
      AuthenticatedPrefixIsTrue(h, serve, trusted.size, leaves, seen);
      PrefixWithin(h, seen, leaves, trusted.size);
    }
  }

  /** Tiles that refute a trusted checkpoint convict the log: no log is behind both checkpoints with one a
      prefix of the other. */
  lemma RefutationProvesFork(h: Hasher, seen: set<NodeInput>, serve: Server, max: nat, trusted: Checkpoint,
                             next: Checkpoint, leaves: seq<Digest>)
    requires 0 < trusted.size < next.size
    requires TilesRefute(h, serve, max, trusted.size, trusted.root, next.size, next.root)
    requires HashedWithin(h, serve, trusted.size, next.size, next.root, seen) && NoCollision(h, seen)
    requires Opens(h, seen, leaves, next)
    ensures TreeHash(h, leaves[..trusted.size]) != trusted.root
  {
    hide Root, Pairs, Authenticated, HashedWithin, Fold;
    assert leaves[..|leaves|] == leaves;
    AuthenticatedPrefixIsTrue(h, serve, trusted.size, leaves, seen);
  }

  /** Whatever kind of evidence a client accepts, the candidate extends the trusted checkpoint. */
  lemma EvidenceProvesExtension(h: Hasher, seen: set<NodeInput>, evidence: Evidence, trusted: Checkpoint,
                                next: Checkpoint)
    requires trusted.size < next.size
    requires trusted.size == 0 ==> trusted.root == h.empty
    requires EvidenceAccepts(h, evidence, trusted, next)
    requires EvidenceWithin(h, seen, evidence, trusted, next) && NoCollision(h, seen)
    ensures Extends(h, seen, trusted, next)
  {
    hide Root, Pairs, Authenticated, HashedWithin, Fold;
    if trusted.size == 0 {
      forall leaves | Opens(h, seen, leaves, next) ensures Opens(h, seen, leaves[..0], trusted) {
        PrefixWithin(h, seen, leaves, 0);
      }
    } else {
      match evidence
      case Scan(entries) => ScanProvesExtension(h, seen, entries, trusted, next);
      case Tiles(serve, max) => TilesProveExtension(h, seen, serve, max, trusted, next);
      case Proof(_) =>
      case NoSource =>
    }
  }

  method VerifyScanRoots(h: Hasher, entries: seq<Bytes>, trusted: Checkpoint, next: Checkpoint)
      returns (verdict: Verdict)
    requires trusted.size <= next.size
    ensures verdict == Accepted <==> ScanAccepts(h, entries, trusted, next)
    ensures verdict == ConsistencyFailed <==>
              |entries| == next.size && TreeHash(h, LeafHashes(h, entries)) == next.root &&
              TreeHash(h, LeafHashes(h, entries[..trusted.size])) != trusted.root
  {
    if |entries| != next.size {
      return InvalidEvidence;
    }
    var root := MerkleRoot(h, entries);
    if root != next.root {
      return InvalidEvidence;
    }
    var prefix := MerkleRoot(h, entries[..trusted.size]);
    verdict := if prefix == trusted.root then Accepted else ConsistencyFailed;
  }

  method VerifyConsistency(h: Hasher, evidence: Evidence, trusted: Checkpoint, next: Checkpoint) returns (ok: bool)
    requires trusted.size <= next.size
    ensures ok <==> EvidenceAccepts(h, evidence, trusted, next)
  {
    if trusted.size == 0 {
      return true;
    }
    match evidence {
      case Scan(entries) =>
        var verdict := VerifyScanRoots(h, entries, trusted, next);
        ok := verdict == Accepted;
      case Tiles(serve, max) =>
        var verdict := VerifyTileConsistency(h, serve, max, trusted.size, trusted.root, next.size, next.root);
        ok := verdict == Accepted;
      case Proof(verified) =>
        ok := verified;
      case NoSource =>
        ok := false;
    }
  }

  // ---------------------------------------------------------------------------------------------
  // The in-memory store and the retry loop

  type Stored = map<string, Checkpoint>

  function Lookup(store: Stored, origin: string): Option<Checkpoint> {
    if origin in store then Some(store[origin]) else None
  }

  /** Zero for no checkpoint, otherwise one more than its size: what every publication increases. */
  function Rank(c: Option<Checkpoint>): nat {
    match c
    case None => 0
    case Some(checkpoint) => checkpoint.size + 1
  }

  /** A candidate may follow what was loaded: nothing, the same tree, or a smaller tree from which the evidence
      leads to it. */
  ghost predicate Justified(h: Hasher, loaded: Option<Checkpoint>, candidate: Checkpoint, evidence: Evidence) {
    match loaded
    case None => true
    case Some(trusted) =>
      || (candidate.size == trusted.size && candidate.root == trusted.root)
      || (candidate.size > trusted.size && EvidenceAccepts(h, evidence, trusted, candidate))
  }

  /** What the loop accepts extends what it loaded. */
  lemma JustifiedExtends(h: Hasher, seen: set<NodeInput>, origin: string, trusted: Checkpoint, candidate: Checkpoint,
                         evidence: Evidence)
    requires ValidCheckpoint(h, origin, trusted) && Justified(h, Some(trusted), candidate, evidence)
    requires trusted.size <= candidate.size && EvidenceWithin(h, seen, evidence, trusted, candidate)
        && NoCollision(h, seen)
    ensures Extends(h, seen, trusted, candidate)
  {
    hide EvidenceAccepts, EvidenceWithin, Extends, NoCollision;
    if candidate.size == trusted.size {
      ExtendsEqual(h, seen, trusted, candidate);
    } else {
      EvidenceProvesExtension(h, seen, evidence, trusted, candidate);
    }
  }

  /** A stored value that others account for: the first one, or one of the first `n` rival stores. */
  ghost predicate FromOthers(first: Stored, rivals: nat -> Stored, n: nat, origin: string, stored: Option<Checkpoint>) {
    stored == Lookup(first, origin) || exists i | 0 <= i < n :: Lookup(rivals(i), origin) == stored
  }

  /** Every checkpoint is the same as before or ranks higher. */
  ghost predicate RanksGrow(from: Stored, to: Stored) {
    forall origin :: Unshrunk(to, origin, Lookup(from, origin))
  }

  /** What is stored now is what was loaded, or ranks higher. */
  predicate Unshrunk(store: Stored, origin: string, loaded: Option<Checkpoint>) {
    Lookup(store, origin) == loaded || Rank(loaded) < Rank(Lookup(store, origin))
  }

  lemma RanksGrowOn(a: Stored, b: Stored, c: Stored)
    requires RanksGrow(a, b) && RanksGrow(b, c)
    ensures RanksGrow(a, c)
  {
    forall origin ensures Unshrunk(c, origin, Lookup(a, origin)) {
      assert Unshrunk(b, origin, Lookup(a, origin)) && Unshrunk(c, origin, Lookup(b, origin));
    }
  }

  lemma RanksStay(store: Stored)
    ensures RanksGrow(store, store)
  {
  }

  /** A publication of a higher rank. */
  lemma RanksGrowByPublication(store: Stored, candidate: Checkpoint)
    requires Rank(Lookup(store, candidate.origin)) < Rank(Some(candidate))
    ensures RanksGrow(store, store[candidate.origin := candidate])
  {
  }

  lemma UnshrunkAt(from: Stored, to: Stored, origin: string)
    requires RanksGrow(from, to)
    ensures Unshrunk(to, origin, Lookup(from, origin))
  {
  }

  /** All of a store comes from others. */
  ghost predicate AllFromOthers(first: Stored, rivals: nat -> Stored, n: nat, store: Stored) {
    forall o: string :: FromOthers(first, rivals, n, o, Lookup(store, o))
  }

  /** The others leave the store alone. */
  ghost predicate Undisturbed(first: Stored, rivals: nat -> Stored) {
    forall i: nat :: rivals(i) == first
  }

  lemma UndisturbedAt(first: Stored, rivals: nat -> Stored, i: nat)
    ensures Undisturbed(first, rivals) ==> rivals(i) == first
  {
  }

  lemma OneMoreRival(first: Stored, rivals: nat -> Stored, n: nat, before: Stored, after: Stored)
    requires AllFromOthers(first, rivals, n, before) && (after == before || after == rivals(n))
    ensures AllFromOthers(first, rivals, n + 1, after)
  {
  }

  class MemoryStore {
    const h: Hasher
    var checkpoints: Stored

    ghost predicate Valid()
      reads this
    {
      forall origin | origin in checkpoints :: ValidCheckpoint(h, origin, checkpoints[origin])
    }

    constructor (h: Hasher)
      ensures this.h == h && checkpoints == map[] && Valid()
    {
      this.h := h;
      checkpoints := map[];
    }

    /** The stored checkpoint, if any; an empty origin is an error. */
    method Load(origin: string) returns (ok: bool, r: Option<Checkpoint>)
      requires Valid()
      ensures ok <==> origin != ""
      ensures ok ==> r == Lookup(checkpoints, origin)
    {
      if origin == "" {
        return false, None;
      }
      ok, r := true, if origin in checkpoints then Some(checkpoints[origin]) else None;
    }

    /** Publishes the candidate exactly when the state is the expected one. */
    method CompareAndSwap(origin: string, expected: Option<Checkpoint>, candidate: Checkpoint)
        returns (ok: bool, swapped: bool)
      requires Valid()
      modifies this
      ensures Valid()
      ensures ok <==>
                && ValidCheckpoint(h, origin, candidate)
                && (expected.Some? ==> ValidCheckpoint(h, origin, expected.value))
      ensures swapped <==> ok && Lookup(old(checkpoints), origin) == expected
      ensures checkpoints == if swapped then old(checkpoints)[origin := candidate] else old(checkpoints)
    {
      if !ValidCheckpoint(h, origin, candidate) {
        return false, false;
      }
      if expected.Some? && !ValidCheckpoint(h, origin, expected.value) {
        return false, false;
      }
      ok := true;
      if expected.None? {
        if origin in checkpoints {
          return ok, false;
        }
      } else if origin !in checkpoints || checkpoints[origin] != expected.value {
        return ok, false;
      }
      checkpoints := checkpoints[origin := candidate];
      swapped := true;
    }

    /** Any publications of any other verifiers, for any origins. By the same loop they leave valid checkpoints
        that are the same as before or of larger trees; the interleaved protocol proves this of every run. */
    method Interfere(rival: Stored)
      requires Valid()
      modifies this
      ensures Valid() && RanksGrow(old(checkpoints), checkpoints)
      ensures checkpoints == old(checkpoints) || checkpoints == rival
      ensures (forall o | o in rival :: ValidCheckpoint(h, o, rival[o])) && RanksGrow(old(checkpoints), rival) ==>
                checkpoints == rival
    {
      if (forall o | o in rival :: ValidCheckpoint(h, o, rival[o])) &&
         (forall o | o in checkpoints :: Unshrunk(rival, o, Lookup(checkpoints, o)))
      {
        checkpoints := rival;
      }
    }

    /** The retry loop of one verifier. In round `i` the evidence is `evidence(i)`, and between its load and
        its swap the other verifiers may have turned the store into `rivals(i)`. It succeeds exactly if the
        checkpoint it last loaded justifies the candidate, and otherwise leaves the store to the others. The
        loop ends: each failed swap means that the stored checkpoint ranks higher than the one loaded, and a
        candidate of size n never swaps against a rank above n. */
    method Advance(candidate: Checkpoint, evidence: nat -> Evidence, rivals: nat -> Stored)
      returns (advanced: bool, failedSwaps: nat, ghost loaded: Option<Checkpoint>)
      requires Valid()
      modifies this
      ensures Valid() && RanksGrow(old(checkpoints), checkpoints)
      ensures failedSwaps <= candidate.size + 1
      ensures !ValidCheckpoint(h, candidate.origin, candidate) ==> !advanced && checkpoints == old(checkpoints)
      ensures ValidCheckpoint(h, candidate.origin, candidate) ==>
                && FromOthers(old(checkpoints), rivals, failedSwaps, candidate.origin, loaded)
                && (advanced <==> Justified(h, loaded, candidate, evidence(failedSwaps)))
      ensures advanced ==>
                && candidate.origin in checkpoints
                && checkpoints[candidate.origin].size == candidate.size
                && checkpoints[candidate.origin].root == candidate.root
      ensures !advanced ==> AllFromOthers(old(checkpoints), rivals, failedSwaps + 1, checkpoints)
      ensures Undisturbed(old(checkpoints), rivals) ==>
                && failedSwaps == 0
                && checkpoints ==
                   if advanced && Rank(Lookup(old(checkpoints), candidate.origin)) < Rank(Some(candidate))
                   then old(checkpoints)[candidate.origin := candidate]
                   else old(checkpoints)
      ensures forall o: string | o != candidate.origin ::
                FromOthers(old(checkpoints), rivals, failedSwaps + 1, o, Lookup(checkpoints, o))
    {
      failedSwaps := 0;
      var origin := candidate.origin;
      if !ValidCheckpoint(h, origin, candidate) {
        return false, 0, None;
      }
      assert origin != "";
      RanksStay(checkpoints);
      hide EvidenceAccepts, ValidCheckpoint, RanksGrow, FromOthers, AllFromOthers, Undisturbed;
      while true
        invariant Valid() && RanksGrow(old(checkpoints), checkpoints)
        invariant failedSwaps <= candidate.size + 1 && failedSwaps <= Rank(Lookup(checkpoints, origin))
        invariant AllFromOthers(old(checkpoints), rivals, failedSwaps, checkpoints)
        invariant Undisturbed(old(checkpoints), rivals) ==> failedSwaps == 0 && checkpoints == old(checkpoints)
        decreases candidate.size + 1 - failedSwaps
      {
        ghost var before := checkpoints;
        OneMoreRival(old(checkpoints), rivals, failedSwaps, before, before);
        var _, trusted := Load(origin);
        loaded := trusted;
        if trusted.Some? {
          if candidate.size < trusted.value.size {
            return false, failedSwaps, loaded;
          }
          if candidate.size == trusted.value.size {
            return candidate.root == trusted.value.root, failedSwaps, loaded;
          }
          var consistent := VerifyConsistency(h, evidence(failedSwaps), trusted.value, candidate);
          if !consistent {
            return false, failedSwaps, loaded;
          }
        }
        UndisturbedAt(old(checkpoints), rivals, failedSwaps);
        Interfere(rivals(failedSwaps));
        OneMoreRival(old(checkpoints), rivals, failedSwaps, before, checkpoints);
        RanksGrowOn(old(checkpoints), before, checkpoints);
        UnshrunkAt(before, checkpoints, origin);
        ghost var after := checkpoints;
        var _, swapped := CompareAndSwap(origin, trusted, candidate);
        if swapped {
          RanksGrowByPublication(after, candidate);
          RanksGrowOn(old(checkpoints), after, checkpoints);
          return true, failedSwaps, loaded;
        }
        failedSwaps := failedSwaps + 1;
      }
    }
  }
}
