/** RFC 6962 tree hashing as the c2sp-tlog verifier computes it.

    The hash functions are a parameter. Nothing assumes that node hashing is injective, which no function
    on 32-byte digests is; where a proof has to invert a hash it asks that the node inputs in one finite
    set `seen` do not collide with each other. */
module Merkle {
  import opened Wrappers

  const HASH_SIZE := 32

  datatype Digest = Digest(bytes: Bytes)

  datatype Hasher = Hasher(record: Bytes -> Digest, node: (Digest, Digest) -> Digest, empty: Digest)

  type NodeInput = (Digest, Digest)

  /** No two of the node inputs in `seen` have the same hash. */
  ghost predicate NoCollision(h: Hasher, seen: set<NodeInput>) {
    forall p, q | p in seen && q in seen :: h.node(p.0, p.1) == h.node(q.0, q.1) ==> p == q
  }

  // ---------------------------------------------------------------------------------------------
  // Powers of two and the split point

  predicate PowerOfTwo(n: nat) {
    n == 1 || (n > 1 && n % 2 == 0 && PowerOfTwo(n / 2))
  }

  /** The largest power of two strictly below `n`. */
  function Split(n: nat): (split: nat)
    requires n >= 2
    ensures PowerOfTwo(split) && split < n <= 2 * split
  {
    if n == 2 then 1 else 2 * Split((n + 1) / 2)
  }

  lemma {:induction false} PowersAreSpaced(p: nat, q: nat)
    requires PowerOfTwo(p) && PowerOfTwo(q) && p < q
    ensures 2 * p <= q
  {
    if p > 1 {
      PowersAreSpaced(p / 2, q / 2);
    }
  }

  /** `Split` is the only power of two with its bounds, so any loop that finds one finds this one. */
  lemma SplitIsUnique(n: nat, p: nat)
    requires n >= 2 && PowerOfTwo(p) && p < n <= 2 * p
    ensures p == Split(n)
  {
    if p < Split(n) {
      PowersAreSpaced(p, Split(n));
    } else if Split(n) < p {
      PowersAreSpaced(Split(n), p);
    }
  }

  lemma HalfOfPower(p: nat) returns (half: nat)
    requires PowerOfTwo(p) && p > 1
    ensures p == 2 * half && PowerOfTwo(half)
  {
    half := p / 2;
  }

  lemma LargePowersAreMultiplesOf256(p: nat) returns (q: nat)
    requires PowerOfTwo(p) && p > 128
    ensures p == 256 * q && PowerOfTwo(q)
  {
    hide PowerOfTwo;
    var p7 := HalfOfPower(p);
    var p6 := HalfOfPower(p7);
    var p5 := HalfOfPower(p6);
    var p4 := HalfOfPower(p5);
    var p3 := HalfOfPower(p4);
    var p2 := HalfOfPower(p3);
    var p1 := HalfOfPower(p2);
    q := HalfOfPower(p1);
  }

  // ---------------------------------------------------------------------------------------------
  // Tree roots

  /** The Merkle tree hash of section 2.1 of RFC 6962 over given leaf hashes. */
  function Root(h: Hasher, s: seq<Digest>): Digest
    requires |s| > 0
    decreases |s|
  {
    if |s| == 1 then s[0]
    else
      var k := Split(|s|);
      h.node(Root(h, s[..k]), Root(h, s[k..]))
  }

  /** `Root` extended to the empty tree. */
  function TreeHash(h: Hasher, s: seq<Digest>): Digest {
    if s == [] then h.empty else Root(h, s)
  }

  /** Every node input hashed while `Root(h, s)` is computed. */
  ghost function Pairs(h: Hasher, s: seq<Digest>): set<NodeInput>
    requires |s| > 0
    decreases |s|
  {
    if |s| == 1 then {}
    else
      var k := Split(|s|);
      {(Root(h, s[..k]), Root(h, s[k..]))} + Pairs(h, s[..k]) + Pairs(h, s[k..])
  }

  lemma RootOfOne(h: Hasher, d: Digest)
    ensures Root(h, [d]) == d && Pairs(h, [d]) == {}
  {
  }

  lemma RootOfMany(h: Hasher, s: seq<Digest>, k: nat)
    requires |s| > 1 && k == Split(|s|)
    ensures Root(h, s) == h.node(Root(h, s[..k]), Root(h, s[k..]))
    ensures Pairs(h, s) == {(Root(h, s[..k]), Root(h, s[k..]))} + Pairs(h, s[..k]) + Pairs(h, s[k..])
  {
  }

  /** The trees of no leaves to three, and the tree of seven that section 2.1.3 of RFC 6962 draws. */
  lemma SmallTrees(h: Hasher, d: seq<Digest>)
    requires |d| == 7
    ensures TreeHash(h, []) == h.empty
    ensures TreeHash(h, [d[0]]) == d[0]
    ensures TreeHash(h, [d[0], d[1]]) == h.node(d[0], d[1])
    ensures TreeHash(h, [d[0], d[1], d[2]]) == h.node(h.node(d[0], d[1]), d[2])
    ensures TreeHash(h, d) ==
            h.node(h.node(h.node(d[0], d[1]), h.node(d[2], d[3])), h.node(h.node(d[4], d[5]), d[6]))
  {
    hide Root, Split;
    RootOfOne(h, d[0]);
    TreeOfTwo(h, d[0], d[1]);
    TreeOfThree(h, d[0], d[1], d[2]);
    TreeOfFour(h, d[..4]);
    TreeOfThree(h, d[4], d[5], d[6]);
    SplitIsUnique(7, 4);
    RootOfMany(h, d, 4);
    assert d[4..] == [d[4], d[5], d[6]];
  }

  lemma TreeOfThree(h: Hasher, a: Digest, b: Digest, c: Digest)
    ensures Root(h, [a, b, c]) == h.node(h.node(a, b), c)
  {
    hide Root, Split;
    SplitIsUnique(3, 2);
    RootOfMany(h, [a, b, c], 2);
    TreeOfTwo(h, a, b);
    RootOfOne(h, c);
    assert [a, b, c][..2] == [a, b] && [a, b, c][2..] == [c];
  }

  lemma TreeOfFour(h: Hasher, s: seq<Digest>)
    requires |s| == 4
    ensures Root(h, s) == h.node(h.node(s[0], s[1]), h.node(s[2], s[3]))
  {
    hide Root, Split;
    SplitIsUnique(4, 2);
    RootOfMany(h, s, 2);
    TreeOfTwo(h, s[0], s[1]);
    TreeOfTwo(h, s[2], s[3]);
    assert s[..2] == [s[0], s[1]] && s[2..] == [s[2], s[3]];
  }

  lemma TreeOfTwo(h: Hasher, a: Digest, b: Digest)
    ensures Root(h, [a, b]) == h.node(a, b)
  {
    SplitIsUnique(2, 1);
    RootOfMany(h, [a, b], 1);
    RootOfOne(h, a);
    RootOfOne(h, b);
    assert [a, b][..1] == [a] && [a, b][1..] == [b];
  }

  /** A root binds its leaves: the tree shape depends on the size alone, so equal roots of equally many
      leaves are roots of the same leaves, unless two of the hashed node inputs collide. */
  lemma {:induction false} RootBindsLeaves(h: Hasher, s: seq<Digest>, t: seq<Digest>, seen: set<NodeInput>)
    requires |s| == |t| > 0
    requires Root(h, s) == Root(h, t)
    requires Pairs(h, s) <= seen && Pairs(h, t) <= seen && NoCollision(h, seen)
    ensures s == t
    decreases |s|
  {
    hide Root, Pairs, Split, NoCollision;
    if |s| == 1 {
      assert s == [s[0]] && t == [t[0]];
      RootOfOne(h, s[0]);
      RootOfOne(h, t[0]);
    } else {
      var k := Split(|s|);
      RootOfMany(h, s, k);
      RootOfMany(h, t, k);
      KeptApart(h, seen, (Root(h, s[..k]), Root(h, s[k..])), (Root(h, t[..k]), Root(h, t[k..])));
      RootBindsLeaves(h, s[..k], t[..k], seen);
      RootBindsLeaves(h, s[k..], t[k..], seen);
      assert s == s[..k] + s[k..] && t == t[..k] + t[k..];
    }
  }

  lemma KeptApart(h: Hasher, seen: set<NodeInput>, p: NodeInput, q: NodeInput)
    requires NoCollision(h, seen) && p in seen && q in seen && h.node(p.0, p.1) == h.node(q.0, q.1)
    ensures p == q
  {
  }

  // ---------------------------------------------------------------------------------------------
  // Composition: a tree over subtree roots

  /** The roots of consecutive groups of 256 digests; the last group may be shorter. */
  ghost function Groups(h: Hasher, s: seq<Digest>): (r: seq<Digest>)
    ensures 256 * |r| - 256 < |s| <= 256 * |r|
    decreases |s|
  {
    if s == [] then []
    else if |s| <= 256 then [Root(h, s)]
    else [Root(h, s[..256])] + Groups(h, s[256..])
  }

  lemma GroupsOfHead(h: Hasher, a: seq<Digest>, b: seq<Digest>)
    requires |a| == 256
    ensures Groups(h, a + b) == [Root(h, a)] + Groups(h, b)
  {
    if b == [] {
      assert a + b == a;
    } else {
      assert (a + b)[..256] == a && (a + b)[256..] == b;
    }
  }

  lemma GroupsOfNothing(h: Hasher)
    ensures Groups(h, []) == []
  {
  }

  lemma {:induction false} GroupsOfConcat(h: Hasher, a: seq<Digest>, b: seq<Digest>, q: nat)
    requires |a| == 256 * q
    ensures Groups(h, a + b) == Groups(h, a) + Groups(h, b)
    decreases q
  {
    hide Root, Groups;
    if q == 0 {
      GroupsOfNothing(h);
      assert a == [] && a + b == b;
    } else {
      var head, tail := a[..256], a[256..];
      GroupsOfConcat(h, tail, b, q - 1);
      assert Groups(h, a + b) == [Root(h, head)] + Groups(h, tail + b) by {
        assert a + b == head + (tail + b);
        GroupsOfHead(h, head, tail + b);
      }
      assert Groups(h, a) == [Root(h, head)] + Groups(h, tail) by {
        assert a == head + tail;
        GroupsOfHead(h, head, tail);
      }
    }
  }

  /** Where a tree of more than 256 leaves splits, counted in groups of 256. */
  lemma SplitInGroups(n: nat) returns (q: nat)
    requires n > 256
    ensures Split(n) == 256 * q && q >= 1 && PowerOfTwo(q)
  {
    q := LargePowersAreMultiplesOf256(Split(n));
  }

  /** Hashing the roots of the groups gives the root of the whole, and hashes no node input that hashing
      the whole does not. */
  lemma {:induction false} RootOfGroups(h: Hasher, s: seq<Digest>)
    requires |s| > 0
    ensures Root(h, Groups(h, s)) == Root(h, s)
    ensures Pairs(h, Groups(h, s)) <= Pairs(h, s)
    decreases |s|
  {
    if |s| <= 256 {
      RootOfOne(h, Root(h, s));
    } else {
      hide Root, Pairs, Split, PowerOfTwo;
      var q := SplitInGroups(|s|);
      var a, b := s[..256 * q], s[256 * q..];
      assert s == a + b;
      RootOfMany(h, s, 256 * q);
      GroupsOfConcat(h, a, b, q);
      var g := Groups(h, s);
      SplitIsUnique(|g|, q);
      RootOfMany(h, g, q);
      assert g[..q] == Groups(h, a) && g[q..] == Groups(h, b);
      RootOfGroups(h, a);
      RootOfGroups(h, b);
    }
  }

  /** An aligned group of 256, or the shorter group at the end, hashes only node inputs of the whole. */
  lemma {:induction false} PairsOfGroup(h: Hasher, s: seq<Digest>, i: nat, to: nat)
    requires 256 * i < to <= |s|
    requires to == 256 * i + 256 || (to < 256 * i + 256 && to == |s|)
    ensures Pairs(h, s[256 * i..to]) <= Pairs(h, s)
    decreases |s|
  {
    hide Root, Pairs, Split, PowerOfTwo;
    if |s| <= 256 {
      assert s[256 * i..to] == s;
    } else {
      var q := SplitInGroups(|s|);
      var a, b := s[..256 * q], s[256 * q..];
      RootOfMany(h, s, 256 * q);
      if i < q {
        assert a[256 * i..to] == s[256 * i..to];
        PairsOfGroup(h, a, i, to);
      } else {
        assert b[256 * (i - q)..to - 256 * q] == s[256 * i..to];
        PairsOfGroup(h, b, i - q, to - 256 * q);
      }
    }
  }

  // ---------------------------------------------------------------------------------------------
  // The two tree-hash routines of the source

  /** Doubles a candidate while twice it is still below `n`. */
  method FindSplit(n: nat) returns (split: nat)
    requires n >= 2
    ensures split == Split(n)
  {
    split := 1;
    while split * 2 < n
      invariant PowerOfTwo(split) && split < n
    {
      split := split * 2;
    }
    SplitIsUnique(n, split);
  }

  /** The root of one list of digests, as tile verification computes it. */
  method HashTileRoot(h: Hasher, hashes: seq<Digest>) returns (root: Digest)
    requires |hashes| > 0
    ensures root == Root(h, hashes)
    decreases |hashes|
  {
    if |hashes| == 1 {
      return hashes[0];
    }
    var split := FindSplit(|hashes|);
    var left := HashTileRoot(h, hashes[..split]);
    var right := HashTileRoot(h, hashes[split..]);
    root := h.node(left, right);
  }

  function LeafHashes(h: Hasher, entries: seq<Bytes>): (r: seq<Digest>)
    ensures |r| == |entries|
    ensures forall i | 0 <= i < |r| :: r[i] == h.record(entries[i])
  {
    if entries == [] then [] else [h.record(entries[0])] + LeafHashes(h, entries[1..])
  }

  lemma LeafHashesOfPrefix(h: Hasher, entries: seq<Bytes>, n: nat)
    requires n <= |entries|
    ensures LeafHashes(h, entries[..n]) == LeafHashes(h, entries)[..n]
    ensures LeafHashes(h, entries[n..]) == LeafHashes(h, entries)[n..]
  {
  }

  /** The root of raw entries, as a complete scan computes it: the tree hash of their leaf hashes. */
  method MerkleRoot(h: Hasher, entries: seq<Bytes>) returns (root: Digest)
    ensures root == TreeHash(h, LeafHashes(h, entries))
    decreases |entries|
  {
    if |entries| == 0 {
      return h.empty;
    }
    if |entries| == 1 {
      return h.record(entries[0]);
    }
    var split := FindSplit(|entries|);
    LeafHashesOfPrefix(h, entries, split);
    var left := MerkleRoot(h, entries[..split]);
    var right := MerkleRoot(h, entries[split..]);
    root := h.node(left, right);
  }
}
