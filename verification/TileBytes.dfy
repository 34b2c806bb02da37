/** The bytes of hash tiles (`log/c2sptlog/hash_tiles.go`, `fetch`): a tile is the concatenation of its hashes. */
module TileBytes {
  import opened Wrappers
  import opened Merkle
  import opened HashTiles

  function Packed(hashes: seq<Digest>): Bytes {
    if hashes == [] then [] else hashes[0].bytes + Packed(hashes[1..])
  }

  ghost predicate Sized(hashes: seq<Digest>) {
    forall i | 0 <= i < |hashes| :: |hashes[i].bytes| == 32
  }

  lemma {:induction false} PackedLength(hashes: seq<Digest>)
    requires Sized(hashes)
    ensures |Packed(hashes)| == 32 * |hashes|
  {
    if hashes != [] {
      PackedLength(hashes[1..]);
    }
  }

  /** Bytes determine the hashes they pack. */
  lemma {:induction false} PackedIsInjective(a: seq<Digest>, b: seq<Digest>)
    requires Sized(a) && Sized(b) && Packed(a) == Packed(b)
    ensures a == b
  {
    PackedLength(a);
    PackedLength(b);
    if a != [] {
      assert a[0].bytes == Packed(a)[..32] == Packed(b)[..32] == b[0].bytes;
      assert Packed(a[1..]) == Packed(a)[32..] == Packed(b)[32..] == Packed(b[1..]);
      PackedIsInjective(a[1..], b[1..]);
    }
  }

  lemma DigestsOfRest(data: Bytes)
    requires |data| % HASH_SIZE == 0 && |data| > 0
    ensures |data| >= 32 && |data[32..]| % HASH_SIZE == 0
    ensures Digests(data)[0].bytes == data[..32] && Digests(data)[1..] == Digests(data[32..])
  {
    var rest := data[32..];
    forall i | 0 <= i < |data| / HASH_SIZE - 1 ensures Digests(data)[i + 1] == Digests(rest)[i] {
      assert rest[HASH_SIZE * i..HASH_SIZE * i + HASH_SIZE] ==
             data[HASH_SIZE * (i + 1)..HASH_SIZE * (i + 1) + HASH_SIZE];
    }
  }

  /** Decoding a tile keeps all of its bytes, in order. */
  lemma {:induction false} DigestsArePacked(data: Bytes)
    requires |data| % HASH_SIZE == 0
    ensures Sized(Digests(data)) && Packed(Digests(data)) == data
    decreases |data|
  {
    if |data| > 0 {
      hide Digests;
      DigestsOfRest(data);
      DigestsArePacked(data[32..]);
      var hashes := Digests(data);
      forall i | 0 <= i < |hashes| ensures |hashes[i].bytes| == 32 {
        assert i > 0 ==> hashes[i] == hashes[1..][i - 1];
      }
    }
  }

  /** The server sends these hashes for a tile: by themselves, or, where that partial tile is not found, as the
      front of the full tile. */
  ghost predicate Sends(serve: Server, key: Key, hashes: seq<Digest>) {
    || serve(key, |hashes|) == Body(Packed(hashes))
    || (|hashes| < 256 && serve(key, |hashes|) == NotFound && serve(key, 256).Body?
        && |serve(key, 256).data| == 256 * 32 && Packed(hashes) <= serve(key, 256).data)
  }

  /** What is accepted for a tile is exactly what was sent for it, byte for byte. */
  lemma ServedIsSent(serve: Server, size: nat, key: Key, hashes: seq<Digest>)
    requires InRange(size, key) && |hashes| == Width(size, key) && Sized(hashes)
    ensures Served(serve, size, key) == Some(hashes) <==> Sends(serve, key, hashes)
  {
    hide Digests, Packed;
    var width := |hashes|;
    PackedLength(hashes);
    DecodesTo(serve(key, width), width, hashes);
    if width < 256 && serve(key, width).NotFound? && serve(key, 256).Body? && |serve(key, 256).data| == 256 * 32 {
      var data := serve(key, 256).data;
      DecodesTo(Body(data[..width * HASH_SIZE]), width, hashes);
      assert Packed(hashes) <= data <==> Packed(hashes) == data[..width * HASH_SIZE];
    }
  }

  lemma DecodesTo(response: Response, width: nat, hashes: seq<Digest>)
    requires |hashes| == width && Sized(hashes)
    ensures response.Body? && |response.data| == width * HASH_SIZE ==>
              (Digests(response.data) == hashes <==> response.data == Packed(hashes))
    ensures |Packed(hashes)| == width * HASH_SIZE
  {
    PackedLength(hashes);
    if response.Body? && |response.data| == width * HASH_SIZE {
      DigestsArePacked(response.data);
      if response.data == Packed(hashes) {
        PackedIsInjective(Digests(response.data), hashes);
      }
    }
  }

  // ---------------------------------------------------------------------------------------------
  // An honest server, by its bytes

  /** Node hashes have the length of a SHA-256 value. */
  ghost predicate NodesAreSized(h: Hasher) {
    forall a, b :: |h.node(a, b).bytes| == 32
  }

  lemma {:induction false} RootIsSized(h: Hasher, s: seq<Digest>)
    requires NodesAreSized(h) && Sized(s) && |s| > 0
    ensures |Root(h, s).bytes| == 32
    decreases |s|
  {
    if |s| == 1 {
      assert s == [s[0]];
      RootOfOne(h, s[0]);
    } else {
      RootOfMany(h, s, Split(|s|));
    }
  }

  lemma {:induction false} GroupsAreSized(h: Hasher, s: seq<Digest>)
    requires NodesAreSized(h) && Sized(s)
    ensures Sized(FullGroups(h, s))
    decreases |s|
  {
    hide Root;
    if |s| >= 256 {
      RootIsSized(h, s[..256]);
      GroupsAreSized(h, s[256..]);
    }
  }

  lemma {:induction false} LevelIsSized(h: Hasher, leaves: seq<Digest>, level: nat)
    requires NodesAreSized(h) && Sized(leaves)
    ensures Sized(Level(h, leaves, level))
  {
    if level > 0 {
      LevelIsSized(h, leaves, level - 1);
      GroupsAreSized(h, Level(h, leaves, level - 1));
    }
  }

  /** The server sends the nodes of the tree over `leaves`. */
  ghost predicate SendsTree(h: Hasher, serve: Server, leaves: seq<Digest>) {
    forall key | InRange(|leaves|, key) :: Sends(serve, key, HonestTile(h, leaves, key))
  }

  lemma SendingIsHonest(h: Hasher, serve: Server, leaves: seq<Digest>)
    requires NodesAreSized(h) && Sized(leaves) && SendsTree(h, serve, leaves)
    ensures HonestServer(h, serve, leaves)
  {
    hide Level, Served, Sends, NodesAreSized;
    forall key | InRange(|leaves|, key) ensures Correct(h, serve, leaves, key) {
      LevelIsSized(h, leaves, key.level);
      assert Sends(serve, key, HonestTile(h, leaves, key));
      ServedIsSent(serve, |leaves|, key, HonestTile(h, leaves, key));
    }
  }

  /** A server that sends the nodes of the candidate's tree decides the question, for a trusted root of any
      earlier size. */
  method DecideFromHonestBytes(h: Hasher, serve: Server, maxTreeSize: nat, prior: nat, priorRoot: Digest,
                               ghost leaves: seq<Digest>, next: nat, nextRoot: Digest)
    returns (verdict: Verdict)
    requires 0 < prior <= next == |leaves| <= maxTreeSize && nextRoot == Root(h, leaves)
    requires NodesAreSized(h) && Sized(leaves) && SendsTree(h, serve, leaves)
    ensures verdict == if priorRoot == Root(h, leaves[..prior]) then Accepted else ConsistencyFailed
  {
    hide TilesAccept, TilesRefute, HonestServer, Root;
    SendingIsHonest(h, serve, leaves);
    HonestServerDecides(h, serve, maxTreeSize, prior, priorRoot, leaves);
    verdict := VerifyTileConsistency(h, serve, maxTreeSize, prior, priorRoot, next, nextRoot);
  }
}
