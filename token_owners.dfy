/** scripts/snapshots/tokenOwners.ts: the owners of one token id of a
    contract, each filed under its checksummed address with the configured
    amount. */
module TokenOwners {
  import opened Wrappers
  import opened Errors
  import opened Dicts
  import opened Json
  import opened Text
  import opened Eth
  import opened Store
  import opened Snapshot

  /** `const [contract, tokenId] = key.split(':')`: a missing second part is
      `undefined`, and parts after the second are dropped. */
  function SplitKey(key: string): (string, Option<string>) {
    var parts := Split(key, ':');
    (parts[0], if |parts| > 1 then Some(parts[1]) else None)
  }

  /** A `contract:tokenId` key gives back both halves. */
  lemma SplitKeyParts(contract: string, tokenId: string)
    requires ':' !in contract && ':' !in tokenId
    ensures SplitKey(contract + ":" + tokenId) == (contract, Some(tokenId))
  {
    SplitFirst(contract, ':', tokenId);
    SplitWithout(tokenId, ':');
    assert contract + ":" + tokenId == contract + [':'] + tokenId;
  }

  /** A key without a colon is all contract, and the token id is undefined. */
  lemma SplitKeyWithoutColon(key: string)
    requires ':' !in key
    ensures SplitKey(key) == (key, None)
  {
    SplitWithout(key, ':');
  }

  function Category(key: string): string {
    "token-owners-" + key
  }

  /** One key of the script: file every owner of the token under its
      checksummed address with `amount`, write `token-owners-<key>.json` and
      list it in the config. `owners` is what the owners query returns for
      the contract and token id of SplitKey(key). */
  method Run(keccak: Keccak, store: FileStore, basePath: Path, key: string, amount: int,
             owners: seq<string>, createdAt: string) returns (err: Option<Error>)
    modifies store
    ensures var ks := MapResult(Checksummed(keccak), owners);
            if ks.Failure? then err == Some(ks.error) && store.files == old(store.files)
            else Publishes(old(store.files), store.files, err, basePath, Category(key) + ".json",
                           SnapshotRecord(Category(key), createdAt, Assigned(ks.value, amount)))
  {
    var addresses := Assign(Checksummed(keccak), owners, amount);
    if addresses.Failure? {
      return Some(addresses.error);
    }
    var data := SnapshotRecord(Category(key), createdAt, addresses.value);
    err := PublishSource(store, basePath, Category(key) + ".json", data);
  }
}
