/** `Generator` of scripts/utils/generator.ts: the recipients of an airdrop
    (checksummed address, amount scaled to the token's decimals), their
    leaves, the sorted-pair Merkle tree over them, and `merkle.json` with the
    root and every recipient's proof. */
module Generator {
  import opened Wrappers
  import opened Errors
  import opened Dicts
  import opened Json
  import opened Text
  import opened Eth
  import opened Units
  import opened MerkleTree
  import opened Store

  /** One airdrop entry's recipient, as an (address, value) pair. */
  function Entry(keccak: Keccak, decimals: int, address: string, tokens: int): Result<(string, int), Error> {
    var checksummed :- GetAddress(keccak, address);
    var value :- ParseUnits(IntToString(tokens), decimals);
    Success((checksummed, value))
  }

  /** `Object.entries(airdrop)`. */
  function Items(airdrop: Dict<int>): (r: seq<(string, int)>)
    ensures |r| == |airdrop.keys|
    ensures forall i :: 0 <= i < |r| ==> r[i] == (airdrop.keys[i], airdrop.values[airdrop.keys[i]])
  {
    seq(|airdrop.keys|, i requires 0 <= i < |airdrop.keys| => (airdrop.keys[i], airdrop.values[airdrop.keys[i]]))
  }

  /** `Entry` as a function of the entry. */
  function EntryOf(keccak: Keccak, decimals: int): ((string, int)) -> Result<(string, int), Error> {
    (p: (string, int)) => Entry(keccak, decimals, p.0, p.1)
  }

  /** The recipients of the constructor's loop; the first entry that fails
      decides the error. */
  function RecipientsOf(keccak: Keccak, decimals: int, airdrop: Dict<int>): Result<seq<(string, int)>, Error> {
    MapResult(EntryOf(keccak, decimals), Items(airdrop))
  }

  /** `generateLeaf(address, value)`: keccak256 of the packed encoding. */
  function GenerateLeaf(keccak: Keccak, address: string, value: int): Result<Bytes, Error> {
    var packed :- PackAddressUint256(address, value);
    Success(keccak(packed))
  }

  function LeafOf(keccak: Keccak): ((string, int)) -> Result<Bytes, Error> {
    (p: (string, int)) => GenerateLeaf(keccak, p.0, p.1)
  }

  /** `this.recipients.map(... generateLeaf ...)`: the first failing leaf
      stops the map. */
  function LeavesOf(keccak: Keccak, pairs: seq<(string, int)>): Result<seq<Bytes>, Error> {
    MapResult(LeafOf(keccak), pairs)
  }

  /** `getHexProof`: every proof node as a hex string. */
  function HexList(nodes: seq<Bytes>): (r: seq<string>)
    ensures |r| == |nodes| && forall i :: 0 <= i < |nodes| ==> r[i] == Hex(nodes[i])
  {
    seq(|nodes|, i requires 0 <= i < |nodes| => Hex(nodes[i]))
  }

  /** A list of hex strings back to bytes, as the claim contract receives it. */
  function DecodeList(hexes: seq<string>): (r: seq<Bytes>)
    requires forall i :: 0 <= i < |hexes| ==> IsHexData(hexes[i])
    ensures |r| == |hexes| && forall i :: 0 <= i < |hexes| ==> r[i] == HexDecode(hexes[i])
  {
    seq(|hexes|, i requires 0 <= i < |hexes| => HexDecode(hexes[i]))
  }

  /** One recipient in `merkle.json`. */
  function RecipientJson(address: string, value: int, proof: seq<string>): Json {
    JObj(["address", "value", "proof"],
         map["address" := JStr(address), "value" := JStr(IntToString(value)), "proof" := StrList(proof)])
  }

  /** `{ root, addresses: recipients }`, as `process` writes it. */
  function OutputRecord(root: string, recipients: seq<(string, int)>, proofs: seq<seq<string>>): Record
    requires |proofs| == |recipients|
  {
    map["root" := JStr(root),
        "addresses" := JArr(seq(|recipients|, i requires 0 <= i < |recipients| =>
                                  RecipientJson(recipients[i].0, recipients[i].1, proofs[i])))]
  }

  /** The recipients' proofs, in hex, on the tree over `leaves`. */
  function HexProofs(keccak: Keccak, leaves: seq<Bytes>): (r: seq<seq<string>>)
    ensures |r| == |leaves| && forall i :: 0 <= i < |leaves| ==> r[i] == HexList(GetProof(keccak, leaves, i))
  {
    seq(|leaves|, i requires 0 <= i < |leaves| => HexList(GetProof(keccak, leaves, i)))
  }

  /** `AirdropRecipient`. Its proof is attached after construction. */
  class Recipient {
    const address: string
    const value: int
    var proof: Option<seq<string>>

    constructor(address: string, value: int)
      ensures this.address == address && this.value == value && proof == None
    {
      this.address := address;
      this.value := value;
      proof := None;
    }
  }

  class Generator {
    var recipients: seq<Recipient>

    /** Every recipient is its own object. */
    ghost predicate Valid()
      reads this
    {
      forall i, j :: 0 <= i < j < |recipients| ==> recipients[i] != recipients[j]
    }

    /** The (address, value) pairs of the recipients. */
    function Pairs(): (r: seq<(string, int)>)
      reads this
      ensures |r| == |recipients|
      ensures forall i :: 0 <= i < |recipients| ==> r[i] == (recipients[i].address, recipients[i].value)
    {
      seq(|recipients|, i requires 0 <= i < |recipients| reads this => (recipients[i].address, recipients[i].value))
    }

    constructor(recipients: seq<Recipient>)
      ensures this.recipients == recipients
    {
      this.recipients := recipients;
    }

    /** `new Generator(decimals, airdrop)`: one recipient per entry, in
        `Object.entries` order, or the error of the first entry that
        getAddress or parseUnits rejects. */
    static method Create(keccak: Keccak, decimals: int, airdrop: Dict<int>) returns (r: Result<Generator, Error>)
      ensures var expected := RecipientsOf(keccak, decimals, airdrop);
              if expected.Failure? then r == Failure(expected.error)
              else
                r.Success? && fresh(r.value) && r.value.Valid() && r.value.Pairs() == expected.value &&
                forall i :: 0 <= i < |r.value.recipients| ==> fresh(r.value.recipients[i]) && r.value.recipients[i].proof == None
    {
      var recipients := NewRecipients(EntryOf(keccak, decimals), Items(airdrop));
      if recipients.Failure? {
        return Failure(recipients.error);
      }
      var g := new Generator(recipients.value);
      return Success(g);
    }

    /** `process(outputPath)`: the leaves and the tree, then every recipient's
        proof attached in place (the copy of the list is shallow, so the
        generator's own recipients get them), then `merkle.json`. A leaf that
        cannot be packed stops it before anything changes. */
    method Process(keccak: Keccak, store: FileStore, outputPath: Path) returns (err: Option<Error>)
      requires Valid()
      modifies store, recipients
      ensures recipients == old(recipients)
      ensures var leaves := LeavesOf(keccak, old(Pairs()));
              if leaves.Failure? then
                err == Some(leaves.error) && store.files == old(store.files) &&
                forall i :: 0 <= i < |recipients| ==> recipients[i].proof == old(recipients[i].proof)
              else
                err == None &&
                (forall i :: 0 <= i < |recipients| ==>
                   recipients[i].proof == Some(HexList(GetProof(keccak, leaves.value, i)))) &&
                store.files == old(store.files)[outputPath :=
                  OutputRecord(Hex(Root(keccak, leaves.value)), old(Pairs()), HexProofs(keccak, leaves.value))]
    {
      var pairs := Pairs();
      var leaves := LeavesOf(keccak, pairs);
      if leaves.Failure? {
        return Some(leaves.error);
      }
      var tree := leaves.value;
      var merkleRoot := Hex(Root(keccak, tree));
      var proofs := HexProofs(keccak, tree);
      var copy := recipients;
      AttachProofs(copy, proofs);
      store.Write(outputPath, OutputRecord(merkleRoot, pairs, proofs));
      return None;
    }
  }

  /** The constructor's loop: `f` gives each entry's recipient, and the first
      entry it rejects stops the loop with its error. */
  method NewRecipients<X>(f: X -> Result<(string, int), Error>, items: seq<X>) returns (r: Result<seq<Recipient>, Error>)
    ensures var expected := MapResult(f, items);
            if expected.Failure? then r == Failure(expected.error)
            else
              r.Success? && |r.value| == |items| &&
              (forall i :: 0 <= i < |items| ==> fresh(r.value[i]) && r.value[i].proof == None) &&
              (forall i :: 0 <= i < |items| ==> (r.value[i].address, r.value[i].value) == expected.value[i]) &&
              (forall i, k :: 0 <= i < k < |items| ==> r.value[i] != r.value[k])
  {
    var recipients: seq<Recipient> := [];
    ghost var pairs: seq<(string, int)> := [];
    var j := 0;
    while j < |items|
      invariant 0 <= j <= |items|
      invariant MapResult(f, items[..j]) == Success(pairs)
      invariant |recipients| == |pairs| == j
      invariant forall i :: 0 <= i < j ==> fresh(recipients[i])
      invariant forall i :: 0 <= i < j ==> recipients[i].proof == None
      invariant forall i :: 0 <= i < j ==> recipients[i].address == pairs[i].0 && recipients[i].value == pairs[i].1
      invariant forall i, k :: 0 <= i < k < j ==> recipients[i] != recipients[k]
    {
      var entry := f(items[j]);
      if entry.Failure? {
        MapResultStop(f, items, j);
        return Failure(entry.error);
      }
      MapResultSnoc(f, items, j);
      var recipient := new Recipient(entry.value.0, entry.value.1);
      recipients := recipients + [recipient];
      pairs := pairs + [entry.value];
      j := j + 1;
    }
    assert items[..j] == items;
    return Success(recipients);
  }

  /** The `forEach` of `process`: recipient i gets proof i, in place. */
  method AttachProofs(recipients: seq<Recipient>, proofs: seq<seq<string>>)
    requires |proofs| == |recipients|
    requires forall i, k :: 0 <= i < k < |recipients| ==> recipients[i] != recipients[k]
    modifies recipients
    ensures forall i :: 0 <= i < |recipients| ==> recipients[i].proof == Some(proofs[i])
  {
    var index := 0;
    while index < |recipients|
      invariant 0 <= index <= |recipients|
      invariant forall i :: 0 <= i < index ==> recipients[i].proof == Some(proofs[i])
    {
      recipients[index].proof := Some(proofs[index]);
      index := index + 1;
    }
  }

  /** An entry is accepted exactly when getAddress accepts its key and the
      decimals are in range; its value is then the amount scaled by
      10^decimals. */
  lemma EntrySpec(keccak: Keccak, decimals: int, address: string, tokens: int)
    ensures Entry(keccak, decimals, address, tokens).Success? <==>
              GetAddress(keccak, address).Success? && 0 <= decimals <= 256
    ensures Entry(keccak, decimals, address, tokens).Success? ==>
              Entry(keccak, decimals, address, tokens).value ==
                (GetAddress(keccak, address).value, tokens * Pow10(decimals))
    ensures GetAddress(keccak, address).Failure? ==>
              Entry(keccak, decimals, address, tokens) == Failure(GetAddress(keccak, address).error)
    ensures GetAddress(keccak, address).Success? && !(0 <= decimals <= 256) ==>
              Entry(keccak, decimals, address, tokens) == Failure(InvalidDecimalSize(decimals))
  {
    if 0 <= decimals <= 256 {
      ParseUnitsOfInteger(tokens, decimals);
    }
  }

  /** The constructor succeeds exactly when every key is an address and the
      decimals are in range; recipient i is then key i checksummed, with
      amount i scaled. */
  lemma RecipientsSpec(keccak: Keccak, decimals: int, airdrop: Dict<int>)
    ensures RecipientsOf(keccak, decimals, airdrop).Success? <==>
              (airdrop.keys == [] || 0 <= decimals <= 256) &&
              forall i :: 0 <= i < |airdrop.keys| ==> GetAddress(keccak, airdrop.keys[i]).Success?
    ensures RecipientsOf(keccak, decimals, airdrop).Success? ==>
              var r := RecipientsOf(keccak, decimals, airdrop).value;
              |r| == |airdrop.keys| &&
              forall i :: 0 <= i < |r| ==>
                r[i] == (GetAddress(keccak, airdrop.keys[i]).value, airdrop.values[airdrop.keys[i]] * Pow10(decimals))
  {
    var f, items := EntryOf(keccak, decimals), Items(airdrop);
    MapResultSuccess(f, items);
    forall i | 0 <= i < |items|
      ensures f(items[i]).Success? <==> GetAddress(keccak, airdrop.keys[i]).Success? && 0 <= decimals <= 256
      ensures f(items[i]).Success? ==>
                f(items[i]).value == (GetAddress(keccak, airdrop.keys[i]).value, airdrop.values[airdrop.keys[i]] * Pow10(decimals))
    {
      EntryOfItem(keccak, decimals, airdrop, i);
    }
    if |items| > 0 && !(0 <= decimals <= 256) {
      assert !f(items[0]).Success?;
    }
  }

  lemma EntryOfItem(keccak: Keccak, decimals: int, airdrop: Dict<int>, i: nat)
    requires i < |airdrop.keys|
    ensures var e := EntryOf(keccak, decimals)(Items(airdrop)[i]);
            var a := airdrop.keys[i];
            (e.Success? <==> GetAddress(keccak, a).Success? && 0 <= decimals <= 256) &&
            (e.Success? ==> e.value == (GetAddress(keccak, a).value, airdrop.values[a] * Pow10(decimals)))
  {
    var a := airdrop.keys[i];
    assert EntryOf(keccak, decimals)(Items(airdrop)[i]) == Entry(keccak, decimals, a, airdrop.values[a]);
    EntrySpec(keccak, decimals, a, airdrop.values[a]);
  }

  /** A leaf exists exactly for hex data and a value that `solidityPack`
      fits into 32 bytes, and it hashes their packed encoding. */
  lemma LeafSpec(keccak: Keccak, address: string, value: int)
    ensures GenerateLeaf(keccak, address, value).Success? <==> IsHexData(address) && -TWO_256 < value < TWO_256
    ensures GenerateLeaf(keccak, address, value).Success? ==>
              GenerateLeaf(keccak, address, value).value == keccak(PackAddressUint256(address, value).value)
  {
  }

  /** The recipients of a successful constructor always have leaves unless a
      scaled amount is too large for a uint256 (or too negative). */
  lemma RecipientsLeaves(keccak: Keccak, decimals: int, airdrop: Dict<int>)
    requires RecipientsOf(keccak, decimals, airdrop).Success?
    ensures LeavesOf(keccak, RecipientsOf(keccak, decimals, airdrop).value).Success? <==>
              forall i :: 0 <= i < |airdrop.keys| ==>
                -TWO_256 < airdrop.values[airdrop.keys[i]] * Pow10(decimals) < TWO_256
  {
    var pairs := RecipientsOf(keccak, decimals, airdrop).value;
    var f := LeafOf(keccak);
    RecipientsSpec(keccak, decimals, airdrop);
    assert |pairs| == |airdrop.keys|;
    MapResultSuccess(f, pairs);
    forall i | 0 <= i < |pairs|
      ensures f(pairs[i]).Success? <==> -TWO_256 < airdrop.values[airdrop.keys[i]] * Pow10(decimals) < TWO_256
    {
      var raw := airdrop.keys[i];
      assert pairs[i] == (GetAddress(keccak, raw).value, airdrop.values[raw] * Pow10(decimals));
      assert f(pairs[i]) == GenerateLeaf(keccak, pairs[i].0, pairs[i].1);
      CheckedAddressLeaf(keccak, raw, pairs[i].0, pairs[i].1);
    }
  }

  /** A checksummed address always packs; only the value can fail. */
  lemma CheckedAddressLeaf(keccak: Keccak, raw: string, address: string, value: int)
    requires GetAddress(keccak, raw) == Success(address)
    ensures GenerateLeaf(keccak, address, value).Success? <==> -TWO_256 < value < TWO_256
  {
    GetAddressSpec(keccak, raw);
    AddressBytesLength(address);
    LeafSpec(keccak, address, value);
  }

  /** The proof `process` attaches to recipient i, decoded from hex, folds
      recipient i's leaf back to the root it writes. */
  lemma RecipientProofVerifies(keccak: Keccak, leaves: seq<Bytes>, i: nat)
    requires i < |leaves|
    ensures var hexes := HexList(GetProof(keccak, leaves, i));
            (forall k :: 0 <= k < |hexes| ==> IsHexData(hexes[k])) &&
            FoldProof(keccak, leaves[i], DecodeList(hexes)) == Root(keccak, leaves)
  {
    var proof := GetProof(keccak, leaves, i);
    var hexes := HexList(proof);
    forall k | 0 <= k < |hexes| ensures IsHexData(hexes[k]) && HexDecode(hexes[k]) == proof[k] {
      HexRoundTrip(proof[k]);
    }
    assert DecodeList(hexes) == proof;
    ProofsVerify(keccak, leaves, i);
  }
}
