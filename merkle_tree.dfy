/** The Merkle tree merkletreejs builds for the generator,
    `new MerkleTree(leaves, keccak256, { sortPairs: true })`: each layer
    hashes its nodes two by two, every pair sorted by `Buffer.compare` before
    it is concatenated, and an odd last node moves up unchanged. */
module MerkleTree {
  import opened Eth

  /** `Buffer.compare`: byte-wise order, a proper prefix first. */
  function Compare(a: Bytes, b: Bytes): (c: int)
    ensures -1 <= c <= 1
    decreases |a|
  {
    if a == [] then (if b == [] then 0 else -1)
    else if b == [] then 1
    else if a[0] < b[0] then -1
    else if a[0] > b[0] then 1
    else Compare(a[1..], b[1..])
  }

  /** The order is total: only equal buffers compare equal, and swapping the
      operands flips the sign. */
  lemma {:induction false} CompareSpec(a: Bytes, b: Bytes)
    ensures Compare(a, b) == 0 <==> a == b
    ensures Compare(b, a) == -Compare(a, b)
    decreases |a|
  {
    if a != [] && b != [] && a[0] == b[0] {
      CompareSpec(a[1..], b[1..]);
      assert a == [a[0]] + a[1..] && b == [b[0]] + b[1..];
    }
  }

  /** The hash of a pair: `combined.sort(Buffer.compare)`, then keccak256 of
      the concatenation. */
  function HashPair(keccak: Keccak, a: Bytes, b: Bytes): Digest {
    keccak(if Compare(a, b) <= 0 then a + b else b + a)
  }

  /** Sorting the pair makes the order of the two nodes irrelevant. */
  lemma HashPairSymmetric(keccak: Keccak, a: Bytes, b: Bytes)
    ensures HashPair(keccak, a, b) == HashPair(keccak, b, a)
  {
    CompareSpec(a, b);
  }

  /** One pass of `createHashes`: nodes 2k and 2k + 1 hash into node k of
      the next layer, and a last node without a partner is pushed as it is. */
  function NextLayer(keccak: Keccak, nodes: seq<Bytes>): (r: seq<Bytes>)
    ensures |r| == (|nodes| + 1) / 2
    ensures forall k :: 0 <= k < |r| ==>
              r[k] == if 2 * k + 1 < |nodes| then HashPair(keccak, nodes[2 * k], nodes[2 * k + 1]) else nodes[2 * k]
    decreases |nodes|
  {
    if |nodes| <= 1 then nodes
    else [HashPair(keccak, nodes[0], nodes[1])] + NextLayer(keccak, nodes[2..])
  }

  /** `this.layers`: the leaves, then each next layer until one node (or
      none) is left. */
  function Layers(keccak: Keccak, nodes: seq<Bytes>): (r: seq<seq<Bytes>>)
    ensures |r| >= 1 && r[0] == nodes
    ensures |r[|r| - 1]| == if nodes == [] then 0 else 1
    decreases |nodes|
  {
    if |nodes| <= 1 then [nodes] else [nodes] + Layers(keccak, NextLayer(keccak, nodes))
  }

  /** `getRoot()`: the single node of the top layer, or an empty buffer when
      there are no leaves. */
  function Root(keccak: Keccak, leaves: seq<Bytes>): Bytes {
    var layers := Layers(keccak, leaves);
    var top := layers[|layers| - 1];
    if top == [] then [] else top[0]
  }

  /** The loop of `getProof(leaf, index)` over the layers: the partner of the
      node at `index` when the layer has one, then the parent's index. */
  function LayerProof(layers: seq<seq<Bytes>>, index: nat): seq<Bytes>
    decreases |layers|
  {
    if layers == [] then []
    else
      var layer := layers[0];
      var pair := if index % 2 == 1 then index - 1 else index + 1;
      (if pair < |layer| then [layer[pair]] else []) + LayerProof(layers[1..], index / 2)
  }

  /** `getProof(leaf, index)` on the tree of `leaves`. */
  function GetProof(keccak: Keccak, leaves: seq<Bytes>, index: nat): seq<Bytes> {
    LayerProof(Layers(keccak, leaves), index)
  }

  /** Folding a proof from a leaf with sorted-pair hashing, as the claim
      check does. */
  function FoldProof(keccak: Keccak, node: Bytes, proof: seq<Bytes>): Bytes
    decreases |proof|
  {
    if proof == [] then node else FoldProof(keccak, HashPair(keccak, node, proof[0]), proof[1..])
  }

  /** The top layer adds nothing to a proof. */
  lemma TopLayerProof(top: seq<Bytes>)
    requires |top| <= 1
    ensures LayerProof([top], 0) == []
  {
    assert [top][1..] == [];
  }

  /** A tree of more than one node has the root of its next layer. */
  lemma RootOfNextLayer(keccak: Keccak, nodes: seq<Bytes>)
    requires |nodes| > 1
    ensures Root(keccak, nodes) == Root(keccak, NextLayer(keccak, nodes))
  {
    var next := NextLayer(keccak, nodes);
    var up := Layers(keccak, next);
    var all := Layers(keccak, nodes);
    assert all == [nodes] + up;
    assert |all| == |up| + 1;
    var top := up[|up| - 1];
    assert all[|all| - 1] == top;
    assert Root(keccak, next) == if top == [] then [] else top[0];
    assert Root(keccak, nodes) == if top == [] then [] else top[0];
  }

  /** The node a leaf's first partner (if any) hashes it into is the parent
      node in the next layer. */
  lemma FirstStep(keccak: Keccak, nodes: seq<Bytes>, i: nat, rest: seq<Bytes>)
    requires 1 < |nodes| && i < |nodes|
    ensures var pair := if i % 2 == 1 then i - 1 else i + 1;
            var here := if pair < |nodes| then [nodes[pair]] else [];
            FoldProof(keccak, nodes[i], here + rest) == FoldProof(keccak, NextLayer(keccak, nodes)[i / 2], rest)
  {
    var next := NextLayer(keccak, nodes);
    var pair := if i % 2 == 1 then i - 1 else i + 1;
    var k := i / 2;
    assert k < |next|;
    if pair < |nodes| {
      var p := [nodes[pair]] + rest;
      assert p[0] == nodes[pair] && p[1..] == rest;
      assert FoldProof(keccak, nodes[i], p) == FoldProof(keccak, HashPair(keccak, nodes[i], nodes[pair]), rest);
      if i % 2 == 1 {
        assert 2 * k == i - 1 && 2 * k + 1 == i;
        HashPairSymmetric(keccak, nodes[i], nodes[i - 1]);
      } else {
        assert 2 * k == i && 2 * k + 1 == pair;
      }
      assert next[k] == HashPair(keccak, nodes[i], nodes[pair]);
    } else {
      assert i % 2 == 0 && 2 * k == i && 2 * k + 1 >= |nodes|;
      assert next[k] == nodes[i];
      assert [] + rest == rest;
    }
  }

  /** Every leaf's proof folds back to the root. */
  lemma {:induction false} ProofsVerify(keccak: Keccak, leaves: seq<Bytes>, i: nat)
    requires i < |leaves|
    ensures FoldProof(keccak, leaves[i], GetProof(keccak, leaves, i)) == Root(keccak, leaves)
    decreases |leaves|
  {
    var pair := if i % 2 == 1 then i - 1 else i + 1;
    if |leaves| == 1 {
      TopLayerProof(leaves);
    } else {
      var next := NextLayer(keccak, leaves);
      var layers := Layers(keccak, leaves);
      assert layers[1..] == Layers(keccak, next);
      var here := if pair < |leaves| then [leaves[pair]] else [];
      var rest := GetProof(keccak, next, i / 2);
      assert GetProof(keccak, leaves, i) == here + rest;
      FirstStep(keccak, leaves, i, rest);
      ProofsVerify(keccak, next, i / 2);
      RootOfNextLayer(keccak, leaves);
    }
  }

  /** One leaf: the root is the leaf and its proof is empty. */
  lemma SingleLeaf(keccak: Keccak, leaf: Bytes)
    ensures Root(keccak, [leaf]) == leaf && GetProof(keccak, [leaf], 0) == []
  {
    TopLayerProof([leaf]);
  }

  /** Two leaves: the root hashes the pair and each proof is the other leaf. */
  lemma TwoLeaves(keccak: Keccak, a: Bytes, b: Bytes)
    ensures Root(keccak, [a, b]) == HashPair(keccak, a, b)
    ensures GetProof(keccak, [a, b], 0) == [b] && GetProof(keccak, [a, b], 1) == [a]
  {
    var next := NextLayer(keccak, [a, b]);
    assert next == [HashPair(keccak, a, b)];
    assert Layers(keccak, next) == [next];
    var layers := Layers(keccak, [a, b]);
    assert layers[1..] == [next];
    TopLayerProof(next);
  }

  /** No leaves: the root is the empty buffer. */
  lemma NoLeaves(keccak: Keccak)
    ensures Root(keccak, []) == []
  {
  }
}
