/** scripts/snapshots/tokens.ts: the same two branches as the collection
    owners snapshot, under the category `token-<contract>`. Outside
    cumulative mode the owners are tallied into a second `addresses` map
    declared inside the branch, so the map that is published stays empty. */
module TokenSnapshot {
  import opened Wrappers
  import opened Errors
  import opened Dicts
  import opened Json
  import opened Text
  import opened Eth
  import opened Store
  import opened Snapshot
  import CollectionOwners

  function Category(contract: string): string {
    "token-" + contract
  }

  /** The outer `addresses` map when the script publishes it. Outside
      cumulative mode the inner loop still runs, so a rejected owner address
      still stops the script, but what it builds is thrown away. */
  function PublishedAirdrop(keccak: Keccak, amount: int, cumulative: bool, owners: seq<string>, tokens: Dict<string>)
    : Result<Dict<int>, Error>
  {
    if !cumulative then
      var ks := MapResult(Checksummed(keccak), owners);
      if ks.Failure? then Failure(ks.error) else Success(Empty())
    else HeldAirdrop(Checksummed(keccak), tokens, amount, true)
  }

  /** The map the script evidently means to publish: the one the collection
      owners snapshot builds from the same inputs. */
  function IntendedAirdrop(keccak: Keccak, amount: int, cumulative: bool, owners: seq<string>, tokens: Dict<string>)
    : Result<Dict<int>, Error>
  {
    CollectionOwners.OwnersAirdrop(keccak, amount, cumulative, owners, tokens)
  }

  /** Outside cumulative mode the published airdrop is empty whatever the
      owners are; it fails exactly when the intended one does, and in
      cumulative mode the two agree. */
  lemma ShadowedAirdrop(keccak: Keccak, amount: int, cumulative: bool, owners: seq<string>, tokens: Dict<string>)
    ensures !cumulative && PublishedAirdrop(keccak, amount, cumulative, owners, tokens).Success? ==>
              PublishedAirdrop(keccak, amount, cumulative, owners, tokens).value == Empty()
    ensures PublishedAirdrop(keccak, amount, cumulative, owners, tokens).Success? <==>
              IntendedAirdrop(keccak, amount, cumulative, owners, tokens).Success?
    ensures PublishedAirdrop(keccak, amount, cumulative, owners, tokens).Failure? ==>
              PublishedAirdrop(keccak, amount, cumulative, owners, tokens) == IntendedAirdrop(keccak, amount, cumulative, owners, tokens)
    ensures cumulative ==>
              PublishedAirdrop(keccak, amount, cumulative, owners, tokens) == IntendedAirdrop(keccak, amount, cumulative, owners, tokens)
  {
  }

  /** One owner, the zero address, already shows the difference: the
      intended airdrop gives it `amount`, the published one is empty. */
  lemma ShadowedAirdropWitness(keccak: Keccak, amount: int, tokens: Dict<string>)
    ensures PublishedAirdrop(keccak, amount, false, [ZERO_ADDRESS], tokens) == Success(Empty())
    ensures var r := IntendedAirdrop(keccak, amount, false, [ZERO_ADDRESS], tokens);
            r.Success? && r.value.keys != [] && r.value.values[r.value.keys[0]] == amount
  {
    var zeros := seq(40, _ => '0');
    assert ZERO_ADDRESS == "0x" + zeros;
    assert ZERO_ADDRESS[..2] == "0x" && ZERO_ADDRESS[2..] == zeros;
    assert Lower(zeros) == zeros;
    GetAddressAcceptsLowerCase(keccak, ZERO_ADDRESS);
    var f := Checksummed(keccak);
    MapResultSuccess(f, [ZERO_ADDRESS]);
    var ks := MapResult(f, [ZERO_ADDRESS]);
    CollectionOwners.OwnersAirdropConstant(keccak, amount, [ZERO_ADDRESS], tokens);
    assert ks.value != [];
    assert Uniq(ks.value) != [] by {
      UniqMembers(ks.value);
      assert ks.value[0] in ks.value;
    }
  }

  /** One contract as the script runs it: the shadowed branch publishes an
      empty airdrop. */
  method Run(keccak: Keccak, store: FileStore, basePath: Path, contract: string, amount: int, cumulative: bool,
             owners: seq<string>, transfers: seq<Transfer>, createdAt: string) returns (err: Option<Error>)
    modifies store
    ensures var r := PublishedAirdrop(keccak, amount, cumulative, owners, Overwrites(TokenPairs(transfers)));
            if r.Failure? then err == Some(r.error) && store.files == old(store.files)
            else Publishes(old(store.files), store.files, err, basePath, Category(contract) + ".json",
                           SnapshotRecord(Category(contract), createdAt, r.value))
  {
    var addresses := Empty<int>();
    if !cumulative {
      var inner := Tally(Checksummed(keccak), owners, amount, cumulative);
      if inner.Failure? {
        return Some(inner.error);
      }
    } else {
      var tallied := TallyHolders(Checksummed(keccak), transfers, amount, cumulative);
      if tallied.Failure? {
        return Some(tallied.error);
      }
      addresses := tallied.value;
    }
    var data := SnapshotRecord(Category(contract), createdAt, addresses);
    err := PublishSource(store, basePath, Category(contract) + ".json", data);
  }

  /** One contract with the inner declaration dropped: the map built in
      either branch is the one published. */
  method IntendedRun(keccak: Keccak, store: FileStore, basePath: Path, contract: string, amount: int, cumulative: bool,
                     owners: seq<string>, transfers: seq<Transfer>, createdAt: string) returns (err: Option<Error>)
    modifies store
    ensures var r := IntendedAirdrop(keccak, amount, cumulative, owners, Overwrites(TokenPairs(transfers)));
            if r.Failure? then err == Some(r.error) && store.files == old(store.files)
            else Publishes(old(store.files), store.files, err, basePath, Category(contract) + ".json",
                           SnapshotRecord(Category(contract), createdAt, r.value))
  {
    var addresses;
    if !cumulative {
      addresses := Tally(Checksummed(keccak), owners, amount, cumulative);
    } else {
      addresses := TallyHolders(Checksummed(keccak), transfers, amount, cumulative);
    }
    if addresses.Failure? {
      return Some(addresses.error);
    }
    var data := SnapshotRecord(Category(contract), createdAt, addresses.value);
    err := PublishSource(store, basePath, Category(contract) + ".json", data);
  }
}
