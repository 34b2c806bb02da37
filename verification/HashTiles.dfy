/** Checkpoint consistency from hash tiles (`log/c2sptlog/hash_tiles.go`).

    A tile holds up to 256 consecutive nodes of one level of the tree; level `k` counts subtrees of 256^k
    leaves. The verifier folds the right edge of the candidate's tree into a root, folds the tiles that the
    base-256 digits of the old size select into the old root, and authenticates every tile it used by
    hashing it into its parent until the chain reaches the authenticated right edge.

    The server is an arbitrary function from requested paths to responses. No path is requested twice in
    one verification, so a function of the path is as general as a server that changes its mind. */
module HashTiles {
  import opened Merkle
  import opened Wrappers

  datatype Key = Key(level: nat, index: nat)

  datatype Response = NotFound | Unavailable | Body(data: Bytes)

  /** What the server answers for a tile path and a requested width; width 256 is the full tile. */
  type Server = (Key, nat) -> Response

  // ---------------------------------------------------------------------------------------------
  // Geometry

  /** `n / 256`, by repeated subtraction, so that proofs stay in linear arithmetic. */
  function Quotient(n: nat): (q: nat)
    ensures 256 * q <= n < 256 * q + 256
  {
    if n < 256 then 0 else 1 + Quotient(n - 256)
  }

  /** `n % 256`: the lowest base-256 digit. */
  function Digit(n: nat): nat {
    n - 256 * Quotient(n)
  }

  lemma QuotientIsDivision(n: nat)
    ensures Quotient(n) == n / 256 && Digit(n) == n % 256
  {
  }

  /** `size >> (8 * level)`: the complete nodes at `level` in a tree of `size` leaves. */
  function Available(size: nat, level: nat): (n: nat)
    ensures n <= size
  {
    if level == 0 then size else Quotient(Available(size, level - 1))
  }

  function Power(level: nat): nat {
    if level == 0 then 1 else 256 * Power(level - 1)
  }

  /** The shift by eight bits a level is a division by a power of 256. */
  lemma {:induction false} AvailableIsShift(size: nat, level: nat)
    ensures Power(level) * Available(size, level) <= size < Power(level) * (Available(size, level) + 1)
  {
    hide Quotient;
    if level > 0 {
      AvailableIsShift(size, level - 1);
      ShiftByEight(Power(level - 1), Available(size, level - 1), Available(size, level), size);
    }
  }

  lemma ShiftByEight(p: nat, below: nat, n: nat, size: nat)
    requires p * below <= size < p * (below + 1) && 256 * n <= below < 256 * n + 256
    ensures 256 * p * n <= size < 256 * p * (n + 1)
  {
    Scaled(p, 256 * n, below);
    Scaled(p, below + 1, 256 * n + 256);
    Reordered(p, n);
    Reordered(p, n + 1);
    assert 256 * (n + 1) == 256 * n + 256;
  }

  lemma Scaled(p: nat, a: nat, b: nat)
    requires a <= b
    ensures p * a <= p * b
  {
  }

  lemma Reordered(p: nat, n: nat)
    ensures 256 * p * n == p * (256 * n)
  {
  }

  predicate InRange(size: nat, key: Key) {
    256 * key.index < Available(size, key.level)
  }

  function Width(size: nat, key: Key): (width: nat)
    requires InRange(size, key)
    ensures 1 <= width <= 256
  {
    var rest := Available(size, key.level) - 256 * key.index;
    if rest < 256 then rest else 256
  }

  predicate RightEdge(size: nat, key: Key) {
    && Digit(Available(size, key.level)) != 0
    && key.index == Quotient(Available(size, key.level))
  }

  function Parent(key: Key): Key {
    Key(key.level + 1, Quotient(key.index))
  }

  /** A tile in range that is not the partial tile at the right edge is full, its parent tile is in range
      and wide enough to hold its hash, and fewer nodes are available one level up. */
  lemma ParentIsInRange(size: nat, key: Key)
    requires InRange(size, key) && !RightEdge(size, key)
    ensures Width(size, key) == 256
    ensures InRange(size, Parent(key))
    ensures Digit(key.index) < Width(size, Parent(key))
    ensures Available(size, key.level + 1) < Available(size, key.level)
  {
  }

  /** The tile selected by a nonzero digit is in range and at least as wide as the digit. */
  lemma DigitIsInRange(size: nat, level: nat, m: nat)
    requires m <= Available(size, level)
    ensures Quotient(m) <= Available(size, level + 1)
    ensures Digit(m) != 0 ==>
              InRange(size, Key(level, Quotient(m))) && Digit(m) <= Width(size, Key(level, Quotient(m)))
  {
  }

  // ---------------------------------------------------------------------------------------------
  // What the server delivers for a tile

  function Digests(data: Bytes): (hashes: seq<Digest>)
    requires |data| % HASH_SIZE == 0
    ensures |hashes| == |data| / HASH_SIZE
  {
    seq(|data| / HASH_SIZE, i requires 0 <= i < |data| / HASH_SIZE =>
        Digest(data[HASH_SIZE * i..HASH_SIZE * i + HASH_SIZE]))
  }

  /** The digests accepted for `key`: exactly its width, or the front of the full tile when the partial
      tile is not found. */
  function Served(serve: Server, size: nat, key: Key): (r: Option<seq<Digest>>)
    requires InRange(size, key)
    ensures r.Some? ==> |r.value| == Width(size, key)
  {
    var width := Width(size, key);
    match serve(key, width)
    case Body(data) =>
      if |data| == width * HASH_SIZE then Some(Digests(data)) else None
    case NotFound =>
      if width == 256 then None
      else (
        match serve(key, 256)
        case Body(data) =>
          if |data| == 256 * HASH_SIZE then Some(Digests(data[..width * HASH_SIZE])) else None
        case _ => None
      )
    case Unavailable => None
  }

  // ---------------------------------------------------------------------------------------------
  // The fold and the authentication of tiles, as functions of the server

  /** The tiles that folding `m` nodes at `level` reads: one for each nonzero base-256 digit. */
  function FoldKeys(level: nat, m: nat): set<Key>
    decreases m
  {
    if m == 0 then {}
    else (if Digit(m) != 0 then {Key(level, Quotient(m))} else {}) + FoldKeys(level + 1, Quotient(m))
  }

  predicate FoldServed(serve: Server, size: nat, level: nat, m: nat)
    requires m <= Available(size, level)
    decreases m
  {
    m == 0 ||
    ((Digit(m) != 0 ==> Served(serve, size, Key(level, Quotient(m))).Some?) &&
     FoldServed(serve, size, level + 1, Quotient(m)))
  }

  /** The digests hashed at one level: the digit's prefix of the tile, then the subtree to its right. */
  function DigitNodes(serve: Server, size: nat, level: nat, m: nat, acc: seq<Digest>): (nodes: seq<Digest>)
    requires m <= Available(size, level) && Digit(m) != 0
    requires FoldServed(serve, size, level, m)
    ensures |nodes| == Digit(m) + |acc|
  {
    Served(serve, size, Key(level, Quotient(m))).value[..Digit(m)] + acc
  }

  /** Folds digits from the lowest; `acc` is empty or holds the root of everything to the right. */
  function Fold(h: Hasher, serve: Server, size: nat, level: nat, m: nat, acc: seq<Digest>): seq<Digest>
    requires m <= Available(size, level)
    requires FoldServed(serve, size, level, m)
    decreases m
  {
    if m == 0 then acc
    else if Digit(m) == 0 then Fold(h, serve, size, level + 1, Quotient(m), acc)
    else Fold(h, serve, size, level + 1, Quotient(m), [Root(h, DigitNodes(serve, size, level, m, acc))])
  }

  /** Every node input the fold hashes. */
  ghost function FoldPairs(h: Hasher, serve: Server, size: nat, level: nat, m: nat, acc: seq<Digest>): set<NodeInput>
    requires m <= Available(size, level)
    requires FoldServed(serve, size, level, m)
    decreases m
  {
    if m == 0 then {}
    else if Digit(m) == 0 then
      DigitIsInRange(size, level, m);
      FoldPairs(h, serve, size, level + 1, Quotient(m), acc)
    else
      DigitIsInRange(size, level, m);
      var nodes := DigitNodes(serve, size, level, m, acc);
      Pairs(h, nodes) + FoldPairs(h, serve, size, level + 1, Quotient(m), [Root(h, nodes)])
  }

  /** The tile hashes into its parent, the parent into its own, up to the candidate's right edge. */
  predicate Authentic(h: Hasher, serve: Server, size: nat, key: Key)
    requires InRange(size, key)
    decreases Available(size, key.level)
  {
    RightEdge(size, key) ||
    (ParentIsInRange(size, key);
     && Served(serve, size, key).Some?
     && Served(serve, size, Parent(key)).Some?
     && Root(h, Served(serve, size, key).value) == Served(serve, size, Parent(key)).value[Digit(key.index)]
     && Authentic(h, serve, size, Parent(key)))
  }

  ghost function AuthenticPairs(h: Hasher, serve: Server, size: nat, key: Key): set<NodeInput>
    requires InRange(size, key) && Authentic(h, serve, size, key)
    decreases Available(size, key.level)
  {
    if RightEdge(size, key) then {}
    else
      ParentIsInRange(size, key);
      Pairs(h, Served(serve, size, key).value) + AuthenticPairs(h, serve, size, Parent(key))
  }

  lemma {:induction false} FoldKeysAreInRange(size: nat, level: nat, m: nat)
    requires m <= Available(size, level)
    ensures forall k | k in FoldKeys(level, m) :: InRange(size, k)
    decreases m
  {
    if m > 0 {
      FoldKeysAreInRange(size, level + 1, Quotient(m));
    }
  }

  // ---------------------------------------------------------------------------------------------
  // Level `k` of the tree over given leaves

  /** The roots of the complete groups of 256. */
  ghost function FullGroups(h: Hasher, s: seq<Digest>): (r: seq<Digest>)
    ensures 256 * |r| <= |s| < 256 * |r| + 256
    decreases |s|
  {
    if |s| < 256 then [] else [Root(h, s[..256])] + FullGroups(h, s[256..])
  }

  lemma {:induction false} FullGroupAt(h: Hasher, s: seq<Digest>, i: nat)
    requires 256 * i + 256 <= |s|
    ensures FullGroups(h, s)[i] == Root(h, s[256 * i..256 * i + 256])
    decreases |s|
  {
    hide Root, Pairs;
    if i > 0 {
      FullGroupAt(h, s[256..], i - 1);
      assert s[256..][256 * (i - 1)..256 * (i - 1) + 256] == s[256 * i..256 * i + 256];
    }
  }

  lemma {:induction false} GroupsOfFull(h: Hasher, s: seq<Digest>, q: nat)
    requires 256 * q <= |s|
    ensures Groups(h, s[..256 * q]) == FullGroups(h, s)[..q]
    decreases q
  {
    hide Root, Pairs;
    if q > 0 {
      var head, tail := s[..256], s[256..];
      GroupsOfFull(h, tail, q - 1);
      assert s[..256 * q] == head + tail[..256 * (q - 1)];
      GroupsOfHead(h, head, tail[..256 * (q - 1)]);
      assert FullGroups(h, s)[..q] == [Root(h, head)] + FullGroups(h, tail)[..q - 1];
    }
  }

  /** The nodes at `level`: roots of consecutive complete subtrees of 256^level leaves. */
  ghost function Level(h: Hasher, leaves: seq<Digest>, level: nat): (nodes: seq<Digest>)
    ensures |nodes| == Available(|leaves|, level)
  {
    if level == 0 then leaves else FullGroups(h, Level(h, leaves, level - 1))
  }

  /** The tile an honest server delivers. */
  ghost function HonestTile(h: Hasher, leaves: seq<Digest>, key: Key): (nodes: seq<Digest>)
    requires InRange(|leaves|, key)
    ensures |nodes| == Width(|leaves|, key)
  {
    Level(h, leaves, key.level)[256 * key.index..256 * key.index + Width(|leaves|, key)]
  }

  ghost predicate Correct(h: Hasher, serve: Server, leaves: seq<Digest>, key: Key) {
    InRange(|leaves|, key) && Served(serve, |leaves|, key) == Some(HonestTile(h, leaves, key))
  }

  ghost predicate HonestServer(h: Hasher, serve: Server, leaves: seq<Digest>) {
    forall key | InRange(|leaves|, key) :: Correct(h, serve, leaves, key)
  }

  lemma HonestDigit(h: Hasher, leaves: seq<Digest>, level: nat, m: nat)
    requires m <= Available(|leaves|, level) && Digit(m) != 0
    ensures InRange(|leaves|, Key(level, Quotient(m))) && Digit(m) <= Width(|leaves|, Key(level, Quotient(m)))
    ensures HonestTile(h, leaves, Key(level, Quotient(m)))[..Digit(m)] == Level(h, leaves, level)[256 * Quotient(m)..m]
  {
    hide Level, Quotient, Available;
    DigitIsInRange(|leaves|, level, m);
    var s, key := Level(h, leaves, level), Key(level, Quotient(m));
    assert s[256 * key.index..256 * key.index + Width(|leaves|, key)][..Digit(m)] == s[256 * Quotient(m)..m];
  }

  /** The entry of the honest parent tile is the root of the honest tile. */
  lemma HonestParentEntry(h: Hasher, leaves: seq<Digest>, key: Key)
    requires InRange(|leaves|, key) && !RightEdge(|leaves|, key)
    ensures InRange(|leaves|, Parent(key)) && Digit(key.index) < Width(|leaves|, Parent(key))
    ensures HonestTile(h, leaves, Parent(key))[Digit(key.index)] == Root(h, HonestTile(h, leaves, key))
  {
    hide Root, Pairs;
    hide Quotient, Available;
    ParentIsInRange(|leaves|, key);
    LevelAbove(h, leaves, key.level);
    var i := key.index;
    FullGroupAt(h, Level(h, leaves, key.level), i);
  }

  /** Nodes left of `acc` at one level have the root of their complete groups left of the next `acc`. */
  ghost function NextAcc(h: Hasher, s: seq<Digest>, m: nat, acc: seq<Digest>): (r: seq<Digest>)
    requires m <= |s|
    ensures |acc| <= 1 ==> |r| <= 1
  {
    if Digit(m) == 0 then acc else [Root(h, s[256 * Quotient(m)..m] + acc)]
  }

  lemma GroupsOfRest(h: Hasher, s: seq<Digest>, m: nat, acc: seq<Digest>)
    requires m <= |s| && |acc| <= 1
    ensures Groups(h, s[256 * Quotient(m)..m] + acc) == NextAcc(h, s, m, acc)
  {
    hide Root, Quotient;
    var rest := s[256 * Quotient(m)..m] + acc;
    if Digit(m) == 0 {
      assert rest == acc;
      if acc != [] {
        assert acc == [acc[0]];
        RootOfOne(h, acc[0]);
      }
    }
  }

  lemma LevelAbove(h: Hasher, leaves: seq<Digest>, level: nat)
    ensures Available(|leaves|, level + 1) == Quotient(Available(|leaves|, level))
    ensures Level(h, leaves, level + 1) == FullGroups(h, Level(h, leaves, level))
  {
  }

  lemma OneLevelUp(h: Hasher, s: seq<Digest>, m: nat, acc: seq<Digest>)
    requires 0 < m <= |s| && |acc| <= 1
    ensures Groups(h, s[..m] + acc) == FullGroups(h, s)[..Quotient(m)] + NextAcc(h, s, m, acc)
    ensures Quotient(m) + |NextAcc(h, s, m, acc)| > 0
    ensures Root(h, FullGroups(h, s)[..Quotient(m)] + NextAcc(h, s, m, acc)) == Root(h, s[..m] + acc)
    ensures Pairs(h, FullGroups(h, s)[..Quotient(m)] + NextAcc(h, s, m, acc)) <= Pairs(h, s[..m] + acc)
  {
    hide Root, Pairs, Groups, FullGroups, Quotient;
    var q := Quotient(m);
    var full, rest := s[..256 * q], s[256 * q..m] + acc;
    assert s[..m] + acc == full + rest;
    GroupsOfConcat(h, full, rest, q);
    GroupsOfFull(h, s, q);
    RootOfGroups(h, s[..m] + acc);
    GroupsOfRest(h, s, m, acc);
  }

  // ---------------------------------------------------------------------------------------------
  // Over correct tiles the fold is the tree root

  lemma CorrectDigitNodes(h: Hasher, serve: Server, leaves: seq<Digest>, level: nat, m: nat, acc: seq<Digest>)
    requires m <= Available(|leaves|, level) && Digit(m) != 0
    requires FoldServed(serve, |leaves|, level, m)
    requires Correct(h, serve, leaves, Key(level, Quotient(m)))
    ensures DigitNodes(serve, |leaves|, level, m, acc) == Level(h, leaves, level)[256 * Quotient(m)..m] + acc
  {
    HonestDigit(h, leaves, level, m);
  }

  /** Folding correct tiles gives the root of the first `m` nodes of the level followed by `acc`. */
  lemma {:induction false} FoldOfCorrectTiles(h: Hasher, serve: Server, leaves: seq<Digest>, level: nat, m: nat,
                                              acc: seq<Digest>)
    requires m <= Available(|leaves|, level) && |acc| <= 1 && m + |acc| > 0
    requires FoldServed(serve, |leaves|, level, m)
    requires forall k | k in FoldKeys(level, m) :: Correct(h, serve, leaves, k)
    ensures Fold(h, serve, |leaves|, level, m, acc) == [Root(h, Level(h, leaves, level)[..m] + acc)]
    decreases m
  {
    hide Root, Pairs, Served, Quotient, Level, FullGroups, Correct, Available;
    var s := Level(h, leaves, level);
    LevelAbove(h, leaves, level);
    if m == 0 {
      assert s[..m] + acc == acc == [acc[0]];
      RootOfOne(h, acc[0]);
    } else {
      var next := NextAcc(h, s, m, acc);
      OneLevelUp(h, s, m, acc);
      DigitIsInRange(|leaves|, level, m);
      if Digit(m) != 0 {
        assert Correct(h, serve, leaves, Key(level, Quotient(m)));
        CorrectDigitNodes(h, serve, leaves, level, m, acc);
      }
      assert Fold(h, serve, |leaves|, level, m, acc) == Fold(h, serve, |leaves|, level + 1, Quotient(m), next);
      FoldOfCorrectTiles(h, serve, leaves, level + 1, Quotient(m), next);
    }
  }

  lemma {:induction false} HonestServerServesFold(h: Hasher, serve: Server, leaves: seq<Digest>, level: nat, m: nat)
    requires m <= Available(|leaves|, level)
    requires HonestServer(h, serve, leaves)
    ensures FoldServed(serve, |leaves|, level, m)
    decreases m
  {
    hide Served, HonestTile, Quotient, Available;
    if m > 0 {
      DigitIsInRange(|leaves|, level, m);
      if Digit(m) != 0 {
        assert Correct(h, serve, leaves, Key(level, Quotient(m)));
      }
      HonestServerServesFold(h, serve, leaves, level + 1, Quotient(m));
    }
  }

  /** The tile fold refines the recursive tree hash: over honest tiles of a tree it computes, for every
      size from 1 to the tree's, the RFC 6962 root of that many leaves. */
  lemma FoldRefinesRoot(h: Hasher, serve: Server, leaves: seq<Digest>, size: nat)
    requires 0 < size <= |leaves|
    requires HonestServer(h, serve, leaves)
    ensures FoldServed(serve, |leaves|, 0, size)
    ensures Fold(h, serve, |leaves|, 0, size, []) == [Root(h, leaves[..size])]
  {
    HonestServerServesFold(h, serve, leaves, 0, size);
    FoldKeysAreInRange(|leaves|, 0, size);
    FoldOfCorrectTiles(h, serve, leaves, 0, size, []);
    assert leaves[..size] + [] == leaves[..size];
  }

  // ---------------------------------------------------------------------------------------------
  // Soundness against an arbitrary server

  /** If the fold over the whole tree reaches the right root, every tile it read is correct. */
  lemma {:induction false} EdgeTilesAreCorrect(h: Hasher, serve: Server, leaves: seq<Digest>, level: nat,
                                               acc: seq<Digest>, honest: seq<Digest>, seen: set<NodeInput>)
    requires |acc| == |honest| <= 1 && Available(|leaves|, level) + |acc| > 0
    requires FoldServed(serve, |leaves|, level, Available(|leaves|, level))
    requires Fold(h, serve, |leaves|, level, Available(|leaves|, level), acc) ==
        [Root(h, Level(h, leaves, level) + honest)]
    requires FoldPairs(h, serve, |leaves|, level, Available(|leaves|, level), acc) <= seen
    requires Pairs(h, Level(h, leaves, level) + honest) <= seen && NoCollision(h, seen)
    ensures acc == honest
    ensures forall k | k in FoldKeys(level, Available(|leaves|, level)) :: Correct(h, serve, leaves, k)
    decreases Available(|leaves|, level)
  {
    hide Root, Pairs, Served, Quotient, Level, FullGroups, Correct, Available;
    var m, s := Available(|leaves|, level), Level(h, leaves, level);
    LevelAbove(h, leaves, level);
    if m == 0 {
      assert s + honest == honest == [honest[0]];
      RootOfOne(h, honest[0]);
    } else {
      assert s[..m] == s;
      OneLevelUp(h, s, m, honest);
      var next := NextAcc(h, s, m, honest);
      assert FullGroups(h, s)[..Quotient(m)] == Level(h, leaves, level + 1);
      if Digit(m) == 0 {
        EdgeTilesAreCorrect(h, serve, leaves, level + 1, acc, next, seen);
      } else {
        var nodes := DigitNodes(serve, |leaves|, level, m, acc);
        var truth := s[256 * Quotient(m)..m] + honest;
        EdgeTilesAreCorrect(h, serve, leaves, level + 1, [Root(h, nodes)], next, seen);
        assert Pairs(h, truth) <= seen by {
          LastGroupPairs(h, s, m, honest);
        }
        RootBindsLeaves(h, nodes, truth, seen);
        EqualDigitNodes(h, serve, leaves, level, acc, honest);
      }
    }
  }

  lemma EqualDigitNodes(h: Hasher, serve: Server, leaves: seq<Digest>, level: nat, acc: seq<Digest>,
                        honest: seq<Digest>)
    requires Digit(Available(|leaves|, level)) != 0
    requires FoldServed(serve, |leaves|, level, Available(|leaves|, level))
    requires var m := Available(|leaves|, level);
             DigitNodes(serve, |leaves|, level, m, acc) == Level(h, leaves, level)[256 * Quotient(m)..m] + honest
    ensures acc == honest
    ensures Correct(h, serve, leaves, Key(level, Quotient(Available(|leaves|, level))))
  {
    var m := Available(|leaves|, level);
    var key := Key(level, Quotient(m));
    HonestDigit(h, leaves, level, m);
    var nodes := DigitNodes(serve, |leaves|, level, m, acc);
    var truth := Level(h, leaves, level)[256 * Quotient(m)..m] + honest;
    assert acc == nodes[Digit(m)..] == truth[Digit(m)..] == honest;
    assert Served(serve, |leaves|, key).value == nodes[..Digit(m)];
    assert HonestTile(h, leaves, key) == truth[..Digit(m)];
  }

  lemma LastGroupPairs(h: Hasher, s: seq<Digest>, m: nat, acc: seq<Digest>)
    requires m == |s| && Digit(m) != 0 && |acc| <= 1
    ensures Pairs(h, s[256 * Quotient(m)..m] + acc) <= Pairs(h, s + acc)
  {
    hide Root, Pairs, Quotient;
    PairsOfGroup(h, s + acc, Quotient(m), |s + acc|);
    assert (s + acc)[256 * Quotient(m)..|s + acc|] == s[256 * Quotient(m)..m] + acc;
  }

  lemma {:induction false} RightEdgeIsFolded(size: nat, level: nat, key: Key)
    requires RightEdge(size, key) && level <= key.level
    ensures key in FoldKeys(level, Available(size, level))
    decreases key.level - level
  {
    if Available(size, level) == 0 {
      NoNodesAbove(size, level, key.level);
    } else if level < key.level {
      RightEdgeIsFolded(size, level + 1, key);
    }
  }

  lemma {:induction false} NoNodesAbove(size: nat, level: nat, upper: nat)
    requires Available(size, level) == 0 && level <= upper
    ensures Available(size, upper) == 0
    decreases upper - level
  {
    if level < upper {
      NoNodesAbove(size, level + 1, upper);
    }
  }

  lemma CompleteGroupPairs(h: Hasher, s: seq<Digest>, acc: seq<Digest>, i: nat)
    requires 256 * i + 256 <= |s|
    ensures Pairs(h, s[256 * i..256 * i + 256]) <= Pairs(h, s + acc)
  {
    var from, to := 256 * i, 256 * i + 256;
    assert (s + acc)[from..to] == s[from..to];
    PairsOfGroup(h, s + acc, i, to);
  }

  /** Hashing a complete group at any level hashes only node inputs of the tree itself. */
  lemma {:induction false} GroupPairsAtLevel(h: Hasher, leaves: seq<Digest>, level: nat, acc: seq<Digest>, upper: nat,
                                             i: nat)
    requires level <= upper && |acc| <= 1
    requires 256 * i + 256 <= Available(|leaves|, upper)
    requires Available(|leaves|, level) > 0
    ensures Pairs(h, Level(h, leaves, upper)[256 * i..256 * i + 256]) <= Pairs(h, Level(h, leaves, level) + acc)
    decreases upper - level
  {
    hide Root, Pairs;
    var m, s := Available(|leaves|, level), Level(h, leaves, level);
    if level == upper {
      CompleteGroupPairs(h, s, acc, i);
    } else {
      if Available(|leaves|, level + 1) == 0 {
        NoNodesAbove(|leaves|, level + 1, upper);
      }
      assert s[..m] == s;
      OneLevelUp(h, s, m, acc);
      assert FullGroups(h, s)[..Quotient(m)] == Level(h, leaves, level + 1);
      GroupPairsAtLevel(h, leaves, level + 1, NextAcc(h, s, m, acc), upper, i);
    }
  }

  lemma LevelAtLeaves(h: Hasher, leaves: seq<Digest>)
    ensures Level(h, leaves, 0) == leaves
  {
  }

  lemma TilePairs(h: Hasher, leaves: seq<Digest>, key: Key)
    requires InRange(|leaves|, key) && Width(|leaves|, key) == 256 && |leaves| > 0
    ensures Pairs(h, HonestTile(h, leaves, key)) <= Pairs(h, leaves)
  {
    hide Root, Pairs, Level, Quotient, Available;
    LevelAtLeaves(h, leaves);
    AvailableAtLeaves(|leaves|);
    GroupPairsAtLevel(h, leaves, 0, [], key.level, key.index);
    assert leaves + [] == leaves;
  }

  /** A tile whose chain of hashes reaches a correct right edge is correct itself. */
  lemma {:induction false} AuthenticTileIsCorrect(h: Hasher, serve: Server, leaves: seq<Digest>, key: Key,
                                                  seen: set<NodeInput>)
    requires InRange(|leaves|, key) && Authentic(h, serve, |leaves|, key)
    requires forall k | RightEdge(|leaves|, k) :: Correct(h, serve, leaves, k)
    requires AuthenticPairs(h, serve, |leaves|, key) <= seen
    requires |leaves| > 0 && Pairs(h, leaves) <= seen && NoCollision(h, seen)
    ensures Correct(h, serve, leaves, key)
    decreases Available(|leaves|, key.level)
  {
    hide Root, Pairs, Quotient, Level, Available, Served;
    if !RightEdge(|leaves|, key) {
      ParentIsInRange(|leaves|, key);
      var parent := Parent(key);
      AuthenticTileIsCorrect(h, serve, leaves, parent, seen);
      var tile, truth := Served(serve, |leaves|, key).value, HonestTile(h, leaves, key);
      HonestParentEntry(h, leaves, key);
      TilePairs(h, leaves, key);
      RootBindsLeaves(h, tile, truth, seen);
    }
  }

  // ---------------------------------------------------------------------------------------------
  // The verdict

  /** The tiles one verification folds. */
  function UsedKeys(prior: nat, next: nat): set<Key> {
    FoldKeys(0, next) + FoldKeys(0, prior)
  }

  /** Everything was served, the candidate's right edge has the candidate's root, and every used tile
      authenticates against it. */
  ghost predicate Authenticated(h: Hasher, serve: Server, prior: nat, next: nat, nextRoot: Digest)
    requires 0 < prior <= next
  {
    && FoldServed(serve, next, 0, next)
    && Fold(h, serve, next, 0, next, []) == [nextRoot]
    && FoldServed(serve, next, 0, prior)
    && forall k | k in UsedKeys(prior, next) :: InRange(next, k) && Authentic(h, serve, next, k)
  }

  /** The node inputs hashed by one authenticated verification all lie in `seen`. */
  ghost predicate HashedWithin(h: Hasher, serve: Server, prior: nat, next: nat, nextRoot: Digest, seen: set<NodeInput>)
    requires 0 < prior <= next
    requires Authenticated(h, serve, prior, next, nextRoot)
  {
    && FoldPairs(h, serve, next, 0, next, []) <= seen
    && forall k | k in UsedKeys(prior, next) :: AuthenticPairs(h, serve, next, k) <= seen
  }

  /** Once authenticated, what the tiles fold to at the prior size is the true prefix root of the candidate's
      tree, whatever the server sent: for any leaves behind the candidate's root. */
  lemma AuthenticatedPrefixIsTrue(h: Hasher, serve: Server, prior: nat, leaves: seq<Digest>, seen: set<NodeInput>)
    requires 0 < prior <= |leaves|
    requires Authenticated(h, serve, prior, |leaves|, Root(h, leaves))
    requires HashedWithin(h, serve, prior, |leaves|, Root(h, leaves), seen)
    requires Pairs(h, leaves) <= seen && NoCollision(h, seen)
    ensures Fold(h, serve, |leaves|, 0, prior, []) == [Root(h, leaves[..prior])]
  {
    hide Root, Pairs, Served;
    var size := |leaves|;
    assert leaves + [] == leaves;
    EdgeTilesAreCorrect(h, serve, leaves, 0, [], [], seen);
    forall k | RightEdge(size, k) ensures Correct(h, serve, leaves, k) {
      RightEdgeIsFolded(size, 0, k);
    }
    forall k | k in FoldKeys(0, prior) ensures Correct(h, serve, leaves, k) {
      AuthenticTileIsCorrect(h, serve, leaves, k, seen);
    }
    FoldOfCorrectTiles(h, serve, leaves, 0, prior, []);
    assert leaves[..prior] + [] == leaves[..prior];
  }

  datatype Verdict = Accepted | InvalidEvidence | FetchFailed | ConsistencyFailed

  /** The tiles authenticate and fold to the trusted root. */
  ghost predicate TilesAccept(h: Hasher, serve: Server, maxTreeSize: nat, prior: nat, priorRoot: Digest, next: nat,
                              nextRoot: Digest)
    requires 0 < prior <= next
  {
    && next <= maxTreeSize
    && Authenticated(h, serve, prior, next, nextRoot)
    && Fold(h, serve, next, 0, prior, []) == [priorRoot]
  }

  /** The tiles authenticate and fold to some other root. */
  ghost predicate TilesRefute(h: Hasher, serve: Server, maxTreeSize: nat, prior: nat, priorRoot: Digest, next: nat,
                              nextRoot: Digest)
    requires 0 < prior <= next
  {
    && next <= maxTreeSize
    && Authenticated(h, serve, prior, next, nextRoot)
    && Fold(h, serve, next, 0, prior, []) != [priorRoot]
  }

  lemma {:induction false} HonestTilesAreAuthentic(h: Hasher, serve: Server, leaves: seq<Digest>, key: Key)
    requires InRange(|leaves|, key)
    requires HonestServer(h, serve, leaves)
    ensures Authentic(h, serve, |leaves|, key)
    decreases Available(|leaves|, key.level)
  {
    hide Root, Level, Served;
    if !RightEdge(|leaves|, key) {
      ParentIsInRange(|leaves|, key);
      assert Correct(h, serve, leaves, key) && Correct(h, serve, leaves, Parent(key));
      HonestParentEntry(h, leaves, key);
      HonestTilesAreAuthentic(h, serve, leaves, Parent(key));
    }
  }

  /** An honest server of the candidate's tree decides the question: it is accepted exactly for the true
      prefix root and otherwise refutes, and the evidence is never merely invalid. */
  lemma HonestServerDecides(h: Hasher, serve: Server, maxTreeSize: nat, prior: nat, priorRoot: Digest,
                            leaves: seq<Digest>)
    requires 0 < prior <= |leaves| <= maxTreeSize
    requires HonestServer(h, serve, leaves)
    ensures TilesAccept(h, serve, maxTreeSize, prior, priorRoot, |leaves|, Root(h, leaves))
        <==> priorRoot == Root(h, leaves[..prior])
    ensures TilesRefute(h, serve, maxTreeSize, prior, priorRoot, |leaves|, Root(h, leaves))
        <==> priorRoot != Root(h, leaves[..prior])
  {
    hide Root, Served, Fold, FoldServed, FoldKeys, Authentic, HonestServer;
    var size := |leaves|;
    FoldRefinesRoot(h, serve, leaves, size);
    FoldRefinesRoot(h, serve, leaves, prior);
    assert leaves[..size] == leaves;
    FoldKeysAreInRange(size, 0, size);
    FoldKeysAreInRange(size, 0, prior);
    forall k | k in UsedKeys(prior, size) ensures InRange(size, k) && Authentic(h, serve, size, k) {
      HonestTilesAreAuthentic(h, serve, leaves, k);
    }
  }

  // ---------------------------------------------------------------------------------------------
  // The verifier

  datatype Fetch = Tile(hashes: seq<Digest>) | Failed(error: Verdict)

  /** The tiles of one candidate checkpoint, fetched at most once each. */
  class CheckpointTiles {
    const h: Hasher
    const serve: Server
    const size: nat
    var tiles: map<Key, seq<Digest>>

    ghost predicate Valid()
      reads this
    {
      forall k | k in tiles :: InRange(size, k) && Served(serve, size, k) == Some(tiles[k])
    }

    constructor (h: Hasher, serve: Server, size: nat)
      ensures this.h == h && this.serve == serve && this.size == size
      ensures Valid() && tiles == map[]
    {
      this.h, this.serve, this.size := h, serve, size;
      tiles := map[];
    }

    /** Delivers the tile from the cache, or requests exactly its width and, if a partial tile is not
        found, the full tile. Only a delivered tile enters the cache. */
    method FetchTile(key: Key) returns (r: Fetch)
      requires Valid() && InRange(size, key)
      modifies this
      ensures Valid()
      ensures r.Tile? <==> Served(serve, size, key).Some?
      ensures r.Tile? ==> Served(serve, size, key) == Some(r.hashes) && tiles == old(tiles)[key := r.hashes]
      ensures r.Failed? ==> tiles == old(tiles)
      ensures r.Failed? ==>
                var width := Width(size, key);
                var response :=
                  if width < 256 && serve(key, width).NotFound? then serve(key, 256) else serve(key, width);
                r.error == if response.Body? then InvalidEvidence else FetchFailed
    {
      if key in tiles {
        assert tiles == tiles[key := tiles[key]];
        return Tile(tiles[key]);
      }
      var available := Available(size, key.level);
      var width := if available - 256 * key.index < 256 then available - 256 * key.index else 256;
      var response := serve(key, width);
      var data: Bytes := [];
      match response {
        case Body(body) =>
          if |body| != width * HASH_SIZE {
            return Failed(InvalidEvidence);
          }
          data := body;
        case NotFound =>
          if width == 256 {
            return Failed(FetchFailed);
          }
          var full := serve(key, 256);
          if !full.Body? {
            return Failed(FetchFailed);
          }
          if |full.data| != 256 * HASH_SIZE {
            return Failed(InvalidEvidence);
          }
          data := full.data[..width * HASH_SIZE];
        case Unavailable =>
          return Failed(FetchFailed);
      }
      var hashes := Digests(data);
      tiles := tiles[key := hashes];
      r := Tile(hashes);
    }

    /** The root of the first `n` leaves: each base-256 digit selects a prefix of one tile, and the smaller
        subtree already folded goes to its right. */
    method FoldRoot(n: nat) returns (r: Fetch)
      requires Valid() && 0 < n <= size
      modifies this
      ensures Valid()
      ensures r.Tile? <==> FoldServed(serve, size, 0, n)
      ensures r.Tile? ==> r.hashes == Fold(h, serve, size, 0, n, []) && |r.hashes| == 1
      ensures r.Tile? ==> tiles.Keys == old(tiles.Keys) + FoldKeys(0, n)
      ensures r.Failed? ==> r.error == InvalidEvidence || r.error == FetchFailed
    {
      hide Root, Served, Available;
      var m, level, acc := n, 0, [];
      assert Available(size, 0) == size by {
        AvailableAtLeaves(size);
      }
      while m > 0
        invariant Valid()
        invariant m <= Available(size, level) && |acc| <= 1 && m + |acc| > 0
        invariant FoldServed(serve, size, 0, n) <==> FoldServed(serve, size, level, m)
        invariant FoldServed(serve, size, 0, n) ==>
                    Fold(h, serve, size, 0, n, []) == Fold(h, serve, size, level, m, acc)
        invariant tiles.Keys + FoldKeys(level, m) == old(tiles.Keys) + FoldKeys(0, n)
        decreases m
      {
        DigitIsInRange(size, level, m);
        QuotientIsDivision(m);
        var width := m % 256;
        if width != 0 {
          var fetched := FetchTile(Key(level, m / 256));
          if fetched.Failed? {
            return fetched;
          }
          var root := HashTileRoot(h, fetched.hashes[..width] + acc);
          acc := [root];
        }
        level, m := level + 1, m / 256;
      }
      r := Tile(acc);
    }

    /** Hashes the tile into its parent and so on up to the candidate's right edge. The recursion ends
        because fewer nodes are available at each level. */
    method Authenticate(key: Key) returns (r: Fetch)
      requires Valid() && InRange(size, key)
      modifies this
      ensures Valid() && old(tiles.Keys) <= tiles.Keys
      ensures r.Tile? <==> Authentic(h, serve, size, key)
      ensures r.Tile? ==> forall k | k in tiles && k !in old(tiles) && k != key :: Authentic(h, serve, size, k)
      ensures r.Failed? ==> r.error == InvalidEvidence || r.error == FetchFailed
      decreases Available(size, key.level)
    {
      hide Root, Served, Quotient, Available, Width;
      var available := Available(size, key.level);
      QuotientIsDivision(available);
      if available % 256 != 0 && key.index == available / 256 {
        return Tile([]);
      }
      ParentIsInRange(size, key);
      var fetched := FetchTile(key);
      if fetched.Failed? {
        return fetched;
      }
      QuotientIsDivision(key.index);
      var parentKey := Key(key.level + 1, key.index / 256);
      var parent := FetchTile(parentKey);
      if parent.Failed? {
        return parent;
      }
      var root := HashTileRoot(h, fetched.hashes);
      if root != parent.hashes[key.index % 256] {
        return Failed(InvalidEvidence);
      }
      r := Authenticate(parentKey);
    }

    /** Authenticates the keys of the tile map in an arbitrary order. Keys that authentication itself adds
        to the map may be visited too, or not. */
    method AuthenticateAll() returns (r: Fetch)
      requires Valid()
      modifies this
      ensures Valid()
      ensures r.Tile? <==> forall k | k in old(tiles) :: Authentic(h, serve, size, k)
      ensures r.Failed? ==> r.error == InvalidEvidence || r.error == FetchFailed
    {
      hide Served, Root, Quotient, Authentic;
      var first := tiles.Keys;
      var visited: set<Key> := {};
      while tiles.Keys - visited != {}
        invariant Valid() && first <= tiles.Keys && visited <= tiles.Keys
        invariant forall k | k in visited :: Authentic(h, serve, size, k)
        invariant forall k | k in tiles && k !in first :: Authentic(h, serve, size, k)
        decreases AllKeys(size) - visited
      {
        var key :| key in tiles.Keys - visited;
        var authenticated := Authenticate(key);
        if authenticated.Failed? {
          return authenticated;
        }
        KeysAreFinite(size, key);
        visited := visited + {key};
        if first <= visited {
          if * {
            break;
          }
        }
      }
      r := Tile([]);
    }
  }

  /** Every key a tree of `size` leaves can have. */
  ghost function AllKeys(size: nat): set<Key> {
    set level: nat, index: nat | level <= size && index <= size :: Key(level, index)
  }

  lemma {:induction false} LevelsAreBounded(size: nat, level: nat)
    requires Available(size, level) > 0
    ensures Available(size, level) + level <= size
  {
    if level > 0 {
      LevelsAreBounded(size, level - 1);
    }
  }

  lemma KeysAreFinite(size: nat, key: Key)
    requires InRange(size, key)
    ensures key in AllKeys(size)
  {
    LevelsAreBounded(size, key.level);
  }

  /** Decides from untrusted tiles whether the tree of `size` leaves with root `root` is a prefix of the
      candidate's. Acceptance and the accusation of a fork are both decided by the tiles alone, not by the
      order in which they are authenticated. */
  method VerifyTileConsistency(h: Hasher, serve: Server, maxTreeSize: nat, prior: nat, priorRoot: Digest, next: nat,
                               nextRoot: Digest)
    returns (verdict: Verdict)
    requires 0 < prior <= next
    ensures verdict == Accepted <==> TilesAccept(h, serve, maxTreeSize, prior, priorRoot, next, nextRoot)
    ensures verdict == ConsistencyFailed <==> TilesRefute(h, serve, maxTreeSize, prior, priorRoot, next, nextRoot)
    ensures next > maxTreeSize ==> verdict == InvalidEvidence
    ensures next <= maxTreeSize && FoldServed(serve, next, 0, next) && Fold(h, serve, next, 0, next, []) != [nextRoot]
        ==>
              verdict == InvalidEvidence
  {
    hide Root, Served, Available, Fold, FoldServed, FoldKeys, Authentic;
    if next > maxTreeSize {
      return InvalidEvidence;
    }
    AvailableAtLeaves(next);
    var tiles := new CheckpointTiles(h, serve, next);
    var root := tiles.FoldRoot(next);
    if root.Failed? {
      return root.error;
    }
    if root.hashes != [nextRoot] {
      return InvalidEvidence;
    }
    var prefix := tiles.FoldRoot(prior);
    if prefix.Failed? {
      return prefix.error;
    }
    assert tiles.tiles.Keys == UsedKeys(prior, next);
    var authenticated := tiles.AuthenticateAll();
    if authenticated.Failed? {
      return authenticated.error;
    }
    verdict := if prefix.hashes == [priorRoot] then Accepted else ConsistencyFailed;
  }

  lemma AvailableAtLeaves(size: nat)
    ensures Available(size, 0) == size
  {
  }
}
