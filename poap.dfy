/** scripts/snapshots/poap.ts: the holders of one POAP event, each filed
    under its checksummed address with the event's amount. */
module Poap {
  import opened Wrappers
  import opened Errors
  import opened Dicts
  import opened Json
  import opened Eth
  import opened Store
  import opened Snapshot

  function Category(eventId: string): string {
    "poap-" + eventId
  }

  /** One event of the script: `addresses[getAddress(id)] = events[eventId]`
      for every holder id, then `poap-<eventId>.json` is written and listed
      in the config. `ids` is what the subgraph query returns. */
  method Run(keccak: Keccak, store: FileStore, basePath: Path, eventId: string, amount: int,
             ids: seq<string>, createdAt: string) returns (err: Option<Error>)
    modifies store
    ensures var ks := MapResult(Checksummed(keccak), ids);
            if ks.Failure? then err == Some(ks.error) && store.files == old(store.files)
            else Publishes(old(store.files), store.files, err, basePath, Category(eventId) + ".json",
                           SnapshotRecord(Category(eventId), createdAt, Assigned(ks.value, amount)))
  {
    var addresses := Assign(Checksummed(keccak), ids, amount);
    if addresses.Failure? {
      return Some(addresses.error);
    }
    var data := SnapshotRecord(Category(eventId), createdAt, addresses.value);
    err := PublishSource(store, basePath, Category(eventId) + ".json", data);
  }
}

/** scripts/snapshots/poapOwners.ts: as the POAP snapshot, with the amount
    read from `events[eventId].amount`, and the file written under
    `sources/` without touching the merkle config. */
module PoapOwners {
  import opened Wrappers
  import opened Errors
  import opened Dicts
  import opened Json
  import opened Eth
  import opened Store
  import opened Snapshot

  function Category(eventId: string): string {
    "poap-owners-" + eventId
  }

  /** `<basePath>/sources/poap-owners-<eventId>.json`. */
  function OutputPath(basePath: Path, eventId: string): Path {
    Join(Join(basePath, "sources"), Category(eventId) + ".json")
  }

  /** One event: the holders filed under their checksummed addresses, and
      one put of the record; nothing else is written. */
  method Run(keccak: Keccak, store: FileStore, basePath: Path, eventId: string, amount: int,
             ids: seq<string>, createdAt: string) returns (err: Option<Error>)
    modifies store
    ensures var ks := MapResult(Checksummed(keccak), ids);
            if ks.Failure? then err == Some(ks.error) && store.files == old(store.files)
            else err == None &&
                 store.files == PutFile(old(store.files), OutputPath(basePath, eventId),
                                        SnapshotRecord(Category(eventId), createdAt, Assigned(ks.value, amount)))
  {
    var addresses := Assign(Checksummed(keccak), ids, amount);
    if addresses.Failure? {
      return Some(addresses.error);
    }
    var data := SnapshotRecord(Category(eventId), createdAt, addresses.value);
    var written := store.Put(OutputPath(basePath, eventId), data);
    return None;
  }

  /** The output is never the merkle config: the config of `basePath` keeps
      its record, and so does every file but the output. */
  lemma ConfigUntouched(files: map<Path, Record>, basePath: Path, eventId: string, data: Record)
    ensures OutputPath(basePath, eventId) != Join(basePath, "config.json")
    ensures forall p :: p != OutputPath(basePath, eventId) ==>
              (p in PutFile(files, OutputPath(basePath, eventId), data) <==> p in files) &&
              (p in files ==> PutFile(files, OutputPath(basePath, eventId), data)[p] == files[p])
  {
    var out := OutputPath(basePath, eventId);
    var cfg := Join(basePath, "config.json");
    var dir := Join(basePath, "sources");
    assert out[..|dir|] == dir;
    assert out[|basePath| + 1] == dir[|basePath| + 1] == 's';
    assert cfg[|basePath| + 1] == 'c';
  }
}
