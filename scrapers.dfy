/** scripts/scrapers/tokens.ts: the older token scraper. The last owner of
    every token, as fetched and not checksummed, gets `amount` per token it
    holds; the file is written without touching the merkle config. */
module TokenScraper {
  import opened Wrappers
  import opened Errors
  import opened Dicts
  import opened Json
  import opened Store
  import opened Snapshot

  function Category(contract: string): string {
    "token-" + contract
  }

  /** `addresses` for `tokens`: `if (addresses[a]) += amount else = amount`
      over the owner of every token id. */
  function HolderAmounts(tokens: Dict<string>, amount: int): Dict<int> {
    Tallied(FinalOwners(tokens), amount, true)
  }

  /** Every owner string is a key as it is, holding `amount` times the
      number of tokens it owns; owner strings that differ only in case stay
      apart. */
  lemma HolderAmountsMeaning(tokens: Dict<string>, amount: int)
    ensures HolderAmounts(tokens, amount).keys == Uniq(FinalOwners(tokens))
    ensures forall a :: a in HolderAmounts(tokens, amount).values <==>
              exists id :: id in tokens.values && tokens.values[id] == a
    ensures forall a :: a in HolderAmounts(tokens, amount).values ==>
              HolderAmounts(tokens, amount).values[a] == amount * Occurrences(FinalOwners(tokens), a)
  {
    var owners := FinalOwners(tokens);
    TalliedMeaning(owners, amount);
    forall a
      ensures a in owners <==> exists id :: id in tokens.values && tokens.values[id] == a
    {
      if a in owners {
        var i :| 0 <= i < |owners| && owners[i] == a;
        assert tokens.keys[i] in tokens.values;
      }
      if exists id :: id in tokens.values && tokens.values[id] == a {
        var id :| id in tokens.values && tokens.values[id] == a;
        assert id in tokens.keys;
        var i :| 0 <= i < |tokens.keys| && tokens.keys[i] == id;
        assert owners[i] == a;
      }
    }
  }

  /** One contract: the last owner of every token, the tally, and one put
      of `token-<contract>.json`. The raw keys never fail. */
  method Run(store: FileStore, basePath: Path, contract: string, amount: int, transfers: seq<Transfer>,
             createdAt: string)
    modifies store
    ensures store.files == PutFile(old(store.files), Join(basePath, Category(contract) + ".json"),
                                   SnapshotRecord(Category(contract), createdAt,
                                                  HolderAmounts(Overwrites(TokenPairs(transfers)), amount)))
  {
    var tokens := LastOwners(transfers);
    RawKeys(FinalOwners(tokens));
    var addresses := Tally(RawKey, FinalOwners(tokens), amount, true);
    var data := SnapshotRecord(Category(contract), createdAt, addresses.value);
    var written := store.Put(Join(basePath, Category(contract) + ".json"), data);
  }
}

/** scripts/scrapers/poap.ts: the older POAP scraper. Every holder id, as
    the subgraph returns it, gets the event's amount; the file is written
    without touching the merkle config. */
module PoapScraper {
  import opened Wrappers
  import opened Errors
  import opened Dicts
  import opened Json
  import opened Store
  import opened Snapshot

  function Category(eventId: string): string {
    "poap-" + eventId
  }

  /** Ids are not canonicalised: two different ids, even ones that differ
      only in case, are two entries, each with the amount. */
  lemma RawIdsKept(ids: seq<string>, amount: int, x: string, y: string)
    requires x in ids && y in ids && x != y
    ensures x in Assigned(ids, amount).values && y in Assigned(ids, amount).values
    ensures Assigned(ids, amount).values[x] == amount && Assigned(ids, amount).values[y] == amount
    ensures |Assigned(ids, amount).keys| >= 2
  {
    AssignedMeaning(ids, amount);
    var keys := Assigned(ids, amount).keys;
    assert x in keys && y in keys;
  }

  /** One event: `addresses[token.owner.id] = amount` for every holder,
      then one put of `poap-<eventId>.json`. */
  method Run(store: FileStore, basePath: Path, eventId: string, amount: int, ids: seq<string>, createdAt: string)
    modifies store
    ensures store.files == PutFile(old(store.files), Join(basePath, Category(eventId) + ".json"),
                                   SnapshotRecord(Category(eventId), createdAt, Assigned(ids, amount)))
  {
    RawKeys(ids);
    var addresses := Assign(RawKey, ids, amount);
    var data := SnapshotRecord(Category(eventId), createdAt, addresses.value);
    var written := store.Put(Join(basePath, Category(eventId) + ".json"), data);
  }
}
