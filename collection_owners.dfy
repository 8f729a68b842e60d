/** scripts/snapshots/collectionOwners.ts: the airdrop of one collection
    contract, from its current owners or, in cumulative mode, from the last
    owner of each of its tokens. */
module CollectionOwners {
  import opened Wrappers
  import opened Errors
  import opened Dicts
  import opened Json
  import opened Eth
  import opened Store
  import opened Snapshot

  function Category(key: string): string {
    "collection-owners-" + key
  }

  /** The `addresses` map the script builds for one contract, given its
      owners and, for the cumulative branch, the last owner of each token
      (Snapshot.LastOwners). */
  function OwnersAirdrop(keccak: Keccak, amount: int, cumulative: bool, owners: seq<string>, tokens: Dict<string>)
    : Result<Dict<int>, Error>
  {
    if !cumulative then
      var ks := MapResult(Checksummed(keccak), owners);
      if ks.Failure? then Failure(ks.error) else Success(Tallied(ks.value, amount, false))
    else HeldAirdrop(Checksummed(keccak), tokens, amount, true)
  }

  /** Outside cumulative mode every owner's checksummed address gets
      `amount`, however often the owner is listed, in order of first listing;
      a rejected owner address stops the snapshot. */
  lemma OwnersAirdropConstant(keccak: Keccak, amount: int, owners: seq<string>, tokens: Dict<string>)
    ensures var ks := MapResult(Checksummed(keccak), owners);
            var r := OwnersAirdrop(keccak, amount, false, owners, tokens);
            (ks.Failure? ==> r == Failure(ks.error)) &&
            (ks.Success? ==>
               r.Success? && r.value.keys == Uniq(ks.value) &&
               (forall a :: a in r.value.values <==> exists i :: 0 <= i < |owners| && GetAddress(keccak, owners[i]) == Success(a)) &&
               (forall a :: a in r.value.values ==> r.value.values[a] == amount))
  {
    var ks := MapResult(Checksummed(keccak), owners);
    KeyedAssignMeaning(Checksummed(keccak), owners, amount);
    if ks.Success? {
      TalliedNotCumulative(ks.value, amount);
      assert forall i :: 0 <= i < |owners| ==> Checksummed(keccak)(owners[i]) == GetAddress(keccak, owners[i]);
    }
  }

  /** In cumulative mode each address gets `amount` times the number of
      tokens it holds, in order of those tokens' keys; the zero address is
      not filtered out. With `tokens` from Snapshot.LastOwners, a token's
      holder is the `to` of its last transfer (Snapshot.LastTransferWins). */
  lemma OwnersAirdropCumulative(keccak: Keccak, amount: int, owners: seq<string>, tokens: Dict<string>)
    ensures var held := FinalOwners(tokens);
            var ks := MapResult(Checksummed(keccak), held);
            var r := OwnersAirdrop(keccak, amount, true, owners, tokens);
            (ks.Failure? ==> r == Failure(ks.error)) &&
            (ks.Success? ==>
               r.Success? && r.value.keys == Uniq(ks.value) &&
               (forall i :: 0 <= i < |held| ==> GetAddress(keccak, held[i]) == Success(ks.value[i])) &&
               (forall a :: a in r.value.values <==> a in ks.value) &&
               (forall a :: a in r.value.values ==> r.value.values[a] == amount * Occurrences(ks.value, a)))
  {
    var held := FinalOwners(tokens);
    var key := Checksummed(keccak);
    var ks := MapResult(key, held);
    assert OwnersAirdrop(keccak, amount, true, owners, tokens) == HeldAirdrop(key, tokens, amount, true);
    KeyedTallyMeaning(key, held, amount);
    if ks.Success? {
      forall i | 0 <= i < |held| ensures GetAddress(keccak, held[i]) == Success(ks.value[i]) {
        assert key(held[i]) == GetAddress(keccak, held[i]);
      }
    }
  }

  /** One contract of the script: build the airdrop, write
      `collection-owners-<key>.json` and list it in the config. A rejected
      owner address stops it before anything is written. */
  method Run(keccak: Keccak, store: FileStore, basePath: Path, key: string, amount: int, cumulative: bool,
             owners: seq<string>, transfers: seq<Transfer>, createdAt: string) returns (err: Option<Error>)
    modifies store
    ensures var r := OwnersAirdrop(keccak, amount, cumulative, owners, Overwrites(TokenPairs(transfers)));
            if r.Failure? then err == Some(r.error) && store.files == old(store.files)
            else Publishes(old(store.files), store.files, err, basePath, Category(key) + ".json",
                           SnapshotRecord(Category(key), createdAt, r.value))
  {
    var addresses;
    if !cumulative {
      addresses := Tally(Checksummed(keccak), owners, amount, cumulative);
    } else {
      addresses := TallyHolders(Checksummed(keccak), transfers, amount, cumulative);
    }
    if addresses.Failure? {
      return Some(addresses.error);
    }
    var data := SnapshotRecord(Category(key), createdAt, addresses.value);
    err := PublishSource(store, basePath, Category(key) + ".json", data);
  }
}
