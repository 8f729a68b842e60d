/** The map-building rules the snapshot and scraper scripts share: owners
    filed under a key with a constant amount, the per-token last owner, the
    truthiness-guarded tally, and the `_.uniq` append of a new source to the
    merkle config. */
module Snapshot {
  import opened Wrappers
  import opened Errors
  import opened Dicts
  import opened Json
  import opened Text
  import opened Eth
  import opened Store

  /** An ERC-721 transfer as fetched: `{ from, to, erc721TokenId }`. */
  datatype Transfer = Transfer(from: string, to: string, tokenId: string)

  /** `getAddress(owner)`: the key most scripts file an owner under. */
  function Checksummed(keccak: Keccak): string -> Result<string, Error> {
    s => GetAddress(keccak, s)
  }

  /** The owner string as fetched: the key of the scrapers. */
  function RawKey(s: string): Result<string, Error> {
    Success(s)
  }

  /** Raw keys never fail and change nothing. */
  lemma RawKeys(xs: seq<string>)
    ensures MapResult(RawKey, xs) == Success(xs)
  {
    assert forall i :: 0 <= i < |xs| ==> RawKey(xs[i]) == Success(xs[i]);
    MapResultSuccess(RawKey, xs);
    var r := MapResult(RawKey, xs).value;
    assert r == xs;
  }

  /** How often `a` occurs in `ks`. */
  function Occurrences(ks: seq<string>, a: string): nat
    decreases |ks|
  {
    if ks == [] then 0 else Occurrences(ks[..|ks| - 1], a) + (if ks[|ks| - 1] == a then 1 else 0)
  }

  lemma {:induction false} OccurrencesPositive(ks: seq<string>, a: string)
    ensures Occurrences(ks, a) > 0 <==> a in ks
    decreases |ks|
  {
    if ks != [] {
      var init := ks[..|ks| - 1];
      OccurrencesPositive(init, a);
      assert ks == init + [ks[|ks| - 1]];
    }
  }

  /** `addresses[k] = amount` for every key in turn, starting from `{}`. */
  function Assigned(ks: seq<string>, amount: int): Dict<int>
    decreases |ks|
  {
    if ks == [] then Empty() else Set(Assigned(ks[..|ks| - 1], amount), ks[|ks| - 1], amount)
  }

  /** One step of `if (addresses[k] && cumulative) addresses[k] += amount
      else addresses[k] = amount`: a missing or zero entry is replaced. */
  function TallyStep(acc: Dict<int>, k: string, amount: int, cumulative: bool): Dict<int> {
    if k in acc.values && acc.values[k] != 0 && cumulative then Set(acc, k, acc.values[k] + amount)
    else Set(acc, k, amount)
  }

  /** The tally of every key in turn, starting from `{}`. */
  function Tallied(ks: seq<string>, amount: int, cumulative: bool): Dict<int>
    decreases |ks|
  {
    if ks == [] then Empty() else TallyStep(Tallied(ks[..|ks| - 1], amount, cumulative), ks[|ks| - 1], amount, cumulative)
  }

  lemma AssignedSnoc(ks: seq<string>, k: string, amount: int)
    ensures Assigned(ks + [k], amount) == Set(Assigned(ks, amount), k, amount)
  {
    assert (ks + [k])[..|ks|] == ks;
  }

  lemma TalliedSnoc(ks: seq<string>, k: string, amount: int, cumulative: bool)
    ensures Tallied(ks + [k], amount, cumulative) == TallyStep(Tallied(ks, amount, cumulative), k, amount, cumulative)
  {
    assert (ks + [k])[..|ks|] == ks;
  }

  /** Every key gets the amount, and repeats collapse to the first place the
      key was assigned at. */
  lemma {:induction false} AssignedMeaning(ks: seq<string>, amount: int)
    ensures Assigned(ks, amount).keys == Uniq(ks)
    ensures forall a :: a in Assigned(ks, amount).values <==> a in ks
    ensures forall a :: a in Assigned(ks, amount).values ==> Assigned(ks, amount).values[a] == amount
    decreases |ks|
  {
    if ks != [] {
      var init := ks[..|ks| - 1];
      var k := ks[|ks| - 1];
      AssignedMeaning(init, amount);
      assert init + [k] == ks;
      SetKeys(Assigned(init, amount), init, k, amount);
    }
  }

  /** Outside cumulative mode the tally only assigns: the guard's
      `cumulative` operand is false on every step. */
  lemma {:induction false} TalliedNotCumulative(ks: seq<string>, amount: int)
    ensures Tallied(ks, amount, false) == Assigned(ks, amount)
    decreases |ks|
  {
    if ks != [] {
      TalliedNotCumulative(ks[..|ks| - 1], amount);
    }
  }

  lemma MulSucc(x: int, n: nat)
    ensures x * (n + 1) == x * n + x
  {
  }

  lemma OccurrencesSnoc(ks: seq<string>, k: string, a: string)
    ensures Occurrences(ks + [k], a) == Occurrences(ks, a) + (if k == a then 1 else 0)
  {
    assert (ks + [k])[..|ks|] == ks;
  }

  /** In cumulative mode every key ends with `amount` times the number of
      its occurrences, whatever the sign of `amount`: a zero running total
      can only come from a zero amount, and replacing it is then the same
      as adding. */
  lemma {:induction false} TalliedMeaning(ks: seq<string>, amount: int)
    ensures Tallied(ks, amount, true).keys == Uniq(ks)
    ensures forall a :: a in Tallied(ks, amount, true).values <==> a in ks
    ensures forall a :: a in ks ==> Tallied(ks, amount, true).values[a] == amount * Occurrences(ks, a)
    decreases |ks|
  {
    if ks != [] {
      var init := ks[..|ks| - 1];
      var k := ks[|ks| - 1];
      assert init + [k] == ks;
      TalliedMeaning(init, amount);
      TallyStepMeaning(Tallied(init, amount, true), init, k, amount);
    }
  }

  /** One cumulative step keeps the tally's meaning. */
  lemma TallyStepMeaning(acc: Dict<int>, init: seq<string>, k: string, amount: int)
    requires acc.keys == Uniq(init)
    requires forall a :: a in acc.values <==> a in init
    requires forall a :: a in init ==> acc.values[a] == amount * Occurrences(init, a)
    ensures TallyStep(acc, k, amount, true).keys == Uniq(init + [k])
    ensures forall a :: a in TallyStep(acc, k, amount, true).values <==> a in init + [k]
    ensures forall a :: a in init + [k] ==>
              TallyStep(acc, k, amount, true).values[a] == amount * Occurrences(init + [k], a)
  {
    var next := TallyStep(acc, k, amount, true);
    SetKeys(acc, init, k, next.values[k]);
    assert forall a :: a in next.values <==> a in init + [k];
    TallyStepAmounts(acc, init, k, amount);
  }

  /** The amounts after one cumulative step. */
  lemma TallyStepAmounts(acc: Dict<int>, init: seq<string>, k: string, amount: int)
    requires forall a :: a in acc.values <==> a in init
    requires forall a :: a in init ==> acc.values[a] == amount * Occurrences(init, a)
    ensures forall a :: a in init + [k] ==>
              TallyStep(acc, k, amount, true).values[a] == amount * Occurrences(init + [k], a)
  {
    var next := TallyStep(acc, k, amount, true);
    var c := Occurrences(init, k);
    OccurrencesPositive(init, k);
    OccurrencesSnoc(init, k, k);
    TallyStepValue(acc, k, amount, c, Occurrences(init + [k], k));
    forall a | a in init + [k] && a != k
      ensures next.values[a] == amount * Occurrences(init + [k], a)
    {
      TallyStepOther(acc, init, k, amount, a);
    }
  }

  /** A cumulative step leaves the tally of every other address as it was. */
  lemma TallyStepOther(acc: Dict<int>, init: seq<string>, k: string, amount: int, a: string)
    requires a != k && a in init && a in acc.values
    requires acc.values[a] == amount * Occurrences(init, a)
    ensures TallyStep(acc, k, amount, true).values[a] == amount * Occurrences(init + [k], a)
  {
    OccurrencesSnoc(init, k, a);
  }

  /** The running total of the key a cumulative step adds to: a zero total
      is replaced by `amount`, which is the same as adding it, since a key
      already seen can only total zero when `amount` is zero. */
  lemma TallyStepValue(acc: Dict<int>, k: string, amount: int, c: nat, n: nat)
    requires k in acc.values <==> c > 0
    requires k in acc.values ==> acc.values[k] == amount * c
    requires n == c + 1
    ensures TallyStep(acc, k, amount, true).values[k] == amount * n
  {
    MulSucc(amount, c);
    if k in acc.values && acc.values[k] == 0 {
      ZeroProduct(amount, c);
    }
  }

  /** A zero product with a positive factor has a zero other factor. */
  lemma ZeroProduct(x: int, n: nat)
    requires n > 0 && x * n == 0
    ensures x == 0
  {
  }

  /** `owners.forEach(o => { addresses[key(o)] = amount })`; a key that
      throws ends the loop with its error. */
  method Assign(key: string -> Result<string, Error>, owners: seq<string>, amount: int) returns (r: Result<Dict<int>, Error>)
    ensures MapResult(key, owners).Failure? ==> r == Failure(MapResult(key, owners).error)
    ensures MapResult(key, owners).Success? ==> r == Success(Assigned(MapResult(key, owners).value, amount))
  {
    var addresses := Empty<int>();
    ghost var ks: seq<string> := [];
    for j := 0 to |owners|
      invariant MapResult(key, owners[..j]) == Success(ks)
      invariant addresses == Assigned(ks, amount)
    {
      var k := key(owners[j]);
      if k.Failure? {
        MapResultStop(key, owners, j);
        return Failure(k.error);
      }
      MapResultSnoc(key, owners, j);
      AssignedSnoc(ks, k.value, amount);
      addresses := Set(addresses, k.value, amount);
      ks := ks + [k.value];
    }
    TakeAll(owners);
    return Success(addresses);
  }

  /** The guarded tally loop: `if (addresses[a] && cumulative) += amount
      else = amount` for the key of every owner in turn. */
  method Tally(key: string -> Result<string, Error>, owners: seq<string>, amount: int, cumulative: bool)
    returns (r: Result<Dict<int>, Error>)
    ensures MapResult(key, owners).Failure? ==> r == Failure(MapResult(key, owners).error)
    ensures MapResult(key, owners).Success? ==> r == Success(Tallied(MapResult(key, owners).value, amount, cumulative))
  {
    var addresses := Empty<int>();
    ghost var ks: seq<string> := [];
    for j := 0 to |owners|
      invariant MapResult(key, owners[..j]) == Success(ks)
      invariant addresses == Tallied(ks, amount, cumulative)
    {
      var address := key(owners[j]);
      if address.Failure? {
        MapResultStop(key, owners, j);
        return Failure(address.error);
      }
      var a := address.value;
      MapResultSnoc(key, owners, j);
      TalliedSnoc(ks, a, amount, cumulative);
      addresses := TallyStep(addresses, a, amount, cumulative);
      ks := ks + [a];
    }
    TakeAll(owners);
    return Success(addresses);
  }

  /** `(erc721TokenId, to)` of every transfer. */
  function TokenPairs(transfers: seq<Transfer>): (ps: seq<(string, string)>)
    ensures |ps| == |transfers|
    ensures forall i :: 0 <= i < |transfers| ==> ps[i] == (transfers[i].tokenId, transfers[i].to)
  {
    seq(|transfers|, i requires 0 <= i < |transfers| => (transfers[i].tokenId, transfers[i].to))
  }

  /** `transfers.forEach(t => { tokens[t.erc721TokenId] = t.to })`. */
  method LastOwners(transfers: seq<Transfer>) returns (tokens: Dict<string>)
    ensures tokens == Overwrites(TokenPairs(transfers))
  {
    tokens := Empty();
    ghost var pairs := TokenPairs(transfers);
    for j := 0 to |transfers|
      invariant tokens == Overwrites(pairs[..j])
    {
      assert pairs[..j + 1][..j] == pairs[..j];
      tokens := Set(tokens, transfers[j].tokenId, transfers[j].to);
    }
    TakeAll(pairs);
  }

  /** Each token's owner is the `to` of its last transfer: a token id is a
      key exactly when some transfer moves it, and its value comes from a
      transfer that no later transfer of the same token follows. Token ids
      keep the order of their first transfer. */
  lemma LastTransferWins(transfers: seq<Transfer>, id: string)
    ensures Overwrites(TokenPairs(transfers)).keys == Uniq(Firsts(TokenPairs(transfers)))
    ensures id in Overwrites(TokenPairs(transfers)).values <==>
              exists i :: 0 <= i < |transfers| && transfers[i].tokenId == id
    ensures id in Overwrites(TokenPairs(transfers)).values ==>
              exists i :: 0 <= i < |transfers| && transfers[i].tokenId == id &&
                          transfers[i].to == Overwrites(TokenPairs(transfers)).values[id] &&
                          forall j :: i < j < |transfers| ==> transfers[j].tokenId != id
  {
    var pairs := TokenPairs(transfers);
    OverwritesMeaning(pairs);
    LastValueAt(pairs, id);
    if exists i :: 0 <= i < |transfers| && transfers[i].tokenId == id {
      var i :| 0 <= i < |transfers| && transfers[i].tokenId == id;
      assert pairs[i].0 == id;
    }
  }

  /** `tokens[id]` for every `id` of `Object.keys(tokens)`. */
  function FinalOwners(tokens: Dict<string>): (owners: seq<string>)
    ensures |owners| == |tokens.keys|
    ensures forall i :: 0 <= i < |owners| ==> owners[i] == tokens.values[tokens.keys[i]]
  {
    seq(|tokens.keys|, i requires 0 <= i < |tokens.keys| => tokens.values[tokens.keys[i]])
  }

  /** The cumulative branch as a value: the owner of every token of
      `tokens`, in key order, filed under its key and tallied. */
  function HeldAirdrop(key: string -> Result<string, Error>, tokens: Dict<string>, amount: int, cumulative: bool)
    : Result<Dict<int>, Error>
  {
    var ks := MapResult(key, FinalOwners(tokens));
    if ks.Failure? then Failure(ks.error) else Success(Tallied(ks.value, amount, cumulative))
  }

  /** The two loops of the cumulative branch: token ids to their last
      owner, then the tally over `Object.keys(tokens)`. */
  method TallyHolders(key: string -> Result<string, Error>, transfers: seq<Transfer>, amount: int, cumulative: bool)
    returns (r: Result<Dict<int>, Error>)
    ensures r == HeldAirdrop(key, Overwrites(TokenPairs(transfers)), amount, cumulative)
  {
    var tokens := LastOwners(transfers);
    r := Tally(key, FinalOwners(tokens), amount, cumulative);
  }

  /** Filing `owners` under their keys succeeds when every owner has a
      key; every key then holds `amount`, once, in order of its first owner,
      and the keys are exactly those of the owners. */
  lemma KeyedAssignMeaning(key: string -> Result<string, Error>, owners: seq<string>, amount: int)
    ensures MapResult(key, owners).Success? <==> forall i :: 0 <= i < |owners| ==> key(owners[i]).Success?
    ensures var ks := MapResult(key, owners);
            ks.Success? ==>
              (forall i :: 0 <= i < |owners| ==> ks.value[i] == key(owners[i]).value) &&
              Assigned(ks.value, amount).keys == Uniq(ks.value) &&
              (forall a :: a in Assigned(ks.value, amount).values <==>
                 exists i :: 0 <= i < |owners| && key(owners[i]) == Success(a)) &&
              (forall a :: a in Assigned(ks.value, amount).values ==> Assigned(ks.value, amount).values[a] == amount)
  {
    var ks := MapResult(key, owners);
    MapResultSuccess(key, owners);
    if ks.Success? {
      AssignedMeaning(ks.value, amount);
      forall a
        ensures a in ks.value <==> exists i :: 0 <= i < |owners| && key(owners[i]) == Success(a)
      {
        if a in ks.value {
          var i :| 0 <= i < |ks.value| && ks.value[i] == a;
          assert key(owners[i]) == Success(a);
        }
        if exists i :: 0 <= i < |owners| && key(owners[i]) == Success(a) {
          var i :| 0 <= i < |owners| && key(owners[i]) == Success(a);
          assert ks.value[i] == a;
        }
      }
    }
  }

  /** Owners that differ only in the case of their letters share one
      checksummed key, so they collapse to one entry. */
  lemma CaseVariantsCollapse(keccak: Keccak, owners: seq<string>, i: nat, j: nat)
    requires i < |owners| && j < |owners| && Lower(owners[i]) == Lower(owners[j])
    requires MapResult(Checksummed(keccak), owners).Success?
    ensures MapResult(Checksummed(keccak), owners).value[i] == MapResult(Checksummed(keccak), owners).value[j]
  {
    MapResultSuccess(Checksummed(keccak), owners);
    assert Checksummed(keccak)(owners[i]).Success? && Checksummed(keccak)(owners[j]).Success?;
    GetAddressIgnoresCase(keccak, owners[i], owners[j]);
  }

  /** A cumulative tally over the keys of `owners` succeeds when every owner
      has a key, and each key then holds `amount` times the number of owners
      filed under it, keys in order of their first owner. */
  lemma KeyedTallyMeaning(key: string -> Result<string, Error>, owners: seq<string>, amount: int)
    ensures MapResult(key, owners).Success? <==> forall i :: 0 <= i < |owners| ==> key(owners[i]).Success?
    ensures var ks := MapResult(key, owners);
            ks.Success? ==>
              |ks.value| == |owners| &&
              (forall i :: 0 <= i < |owners| ==> ks.value[i] == key(owners[i]).value) &&
              Tallied(ks.value, amount, true).keys == Uniq(ks.value) &&
              (forall a :: a in Tallied(ks.value, amount, true).values <==> a in ks.value) &&
              (forall a :: a in Tallied(ks.value, amount, true).values ==>
                 Tallied(ks.value, amount, true).values[a] == amount * Occurrences(ks.value, a))
  {
    MapResultSuccess(key, owners);
    if MapResult(key, owners).Success? {
      TalliedMeaning(MapResult(key, owners).value, amount);
    }
  }

  /** The record a snapshot script writes: `{ category, createdAt, airdrop }`. */
  function SnapshotRecord(category: string, createdAt: string, airdrop: Dict<int>): Record {
    map["category" := JStr(category), "createdAt" := JStr(createdAt), "airdrop" := NumObject(airdrop)]
  }

  /** `[...v]`: an array spreads into its items and a string into its
      characters, each a one-character string; any other value, `undefined`
      included, is not iterable and throws. */
  function Spread(v: Json): Option<seq<Json>> {
    if v.JArr? then Some(v.items)
    else if v.JStr? then Some(seq(|v.s|, i requires 0 <= i < |v.s| => JStr([v.s[i]])))
    else None
  }

  /** The config has a `sources` entry that can be spread. */
  predicate HasSpreadableSources(config: Record) {
    "sources" in config && Spread(config["sources"]).Some?
  }

  /** `{ ...config, sources: _.uniq([...config.sources, entry]) }`; spreading
      a `sources` that is neither an array nor a string throws. */
  function WithSource(config: Record, entry: string): (r: Result<Record, Error>)
    ensures r.Success? <==> HasSpreadableSources(config)
    ensures r.Failure? ==> r.error == NotAList("sources")
    ensures r.Success? ==> r.value.Keys == config.Keys
    ensures r.Success? ==> forall k :: k in config && k != "sources" ==> r.value[k] == config[k]
    ensures r.Success? ==> r.value["sources"] == JArr(Uniq(Spread(config["sources"]).value + [JStr(entry)]))
  {
    if HasSpreadableSources(config) then
      Success(config["sources" := JArr(Uniq(Spread(config["sources"]).value + [JStr(entry)]))])
    else Failure(NotAList("sources"))
  }

  /** A string `sources` is spread into its characters before the entry is
      appended: `"ab"` becomes `["a", "b", entry]`, and the update goes on. */
  lemma StringSourcesSpread(entry: string)
    requires entry != "a" && entry != "b"
    ensures WithSource(map["sources" := JStr("ab")], entry) ==
              Success(map["sources" := JArr([JStr("a"), JStr("b"), JStr(entry)])])
  {
    var config: Record := map["sources" := JStr("ab")];
    var chars := Spread(JStr("ab")).value;
    assert chars == [JStr("a"), JStr("b")];
    var items := chars + [JStr(entry)];
    assert items == [JStr("a"), JStr("b"), JStr(entry)];
    assert Distinct(items);
    UniqOfDistinct(items);
    assert config["sources" := JArr(items)] == map["sources" := JArr(items)];
  }

  /** The new source list holds the new entry exactly once, every old entry,
      and the old list (without repeats) as its prefix; a list without
      repeats just gains the entry at its end, unless it was already there. */
  lemma SourceListed(items: seq<Json>, entry: string)
    ensures Distinct(Uniq(items + [JStr(entry)]))
    ensures forall x :: x in Uniq(items + [JStr(entry)]) <==> x in items || x == JStr(entry)
    ensures Uniq(items + [JStr(entry)])[..|Uniq(items)|] == Uniq(items)
    ensures Distinct(items) ==>
              Uniq(items + [JStr(entry)]) == if JStr(entry) in items then items else items + [JStr(entry)]
  {
    UniqMembers(items + [JStr(entry)]);
    UniqSnoc(items, JStr(entry));
    if Distinct(items) {
      UniqOfDistinct(items);
    }
  }

  /** The files after the config update, or the error that stops it. */
  function UpdatedConfig(files: map<Path, Record>, configPath: Path, entry: string): Result<map<Path, Record>, Error> {
    var config :- ReadJSONFile(files, configPath, false);
    var data :- WithSource(config, entry);
    Success(PutFile(files, configPath, data))
  }

  /** The update needs an existing config whose `sources` spreads; the
      config file then holds the old config with only `sources` replaced
      (the merge writes every old field back unchanged). */
  lemma ConfigUpdate(files: map<Path, Record>, configPath: Path, entry: string)
    ensures configPath !in files ==> UpdatedConfig(files, configPath, entry) == Failure(MissingFile(configPath))
    ensures UpdatedConfig(files, configPath, entry).Success? <==>
              configPath in files && HasSpreadableSources(files[configPath])
    ensures UpdatedConfig(files, configPath, entry).Success? ==>
              UpdatedConfig(files, configPath, entry).value ==
                files[configPath := WithSource(files[configPath], entry).value]
  {
    if configPath in files && HasSpreadableSources(files[configPath]) {
      var config := files[configPath];
      var data := WithSource(config, entry).value;
      assert Merge(config, data) == data;
    }
  }

  /** The config update of the snapshot scripts: read (a missing config is
      fatal), append, write back. */
  method UpdateSources(store: FileStore, configPath: Path, entry: string) returns (err: Option<Error>)
    modifies store
    ensures var r := UpdatedConfig(old(store.files), configPath, entry);
            if r.Success? then err == None && store.files == r.value
            else err == Some(r.error) && store.files == old(store.files)
  {
    var config := ReadJSONFile(store.files, configPath, false);
    if config.Failure? {
      return Some(config.error);
    }
    var data := WithSource(config.value, entry);
    if data.Failure? {
      return Some(data.error);
    }
    var written := store.Put(configPath, data.value);
    return None;
  }

  /** The files after a snapshot is written to `<basePath>/<name>` and
      listed as `./<name>` in `<basePath>/config.json`. */
  function Published(files: map<Path, Record>, basePath: Path, name: string, data: Record): Result<map<Path, Record>, Error> {
    UpdatedConfig(PutFile(files, Join(basePath, name), data), Join(basePath, "config.json"), "./" + name)
  }

  /** `after` and `err` are what publishing leaves: the snapshot file is
      written either way, the config only when its update goes through. */
  predicate Publishes(before: map<Path, Record>, after: map<Path, Record>, err: Option<Error>,
                      basePath: Path, name: string, data: Record)
  {
    var r := Published(before, basePath, name, data);
    if r.Success? then err == None && after == r.value
    else err == Some(r.error) && after == PutFile(before, Join(basePath, name), data)
  }

  /** `putJSONFile(outputPath, data)`, then the config update. */
  method PublishSource(store: FileStore, basePath: Path, name: string, data: Record) returns (err: Option<Error>)
    modifies store
    ensures Publishes(old(store.files), store.files, err, basePath, name, data)
  {
    var written := store.Put(Join(basePath, name), data);
    err := UpdateSources(store, Join(basePath, "config.json"), "./" + name);
  }

  /** What publishing does to each file: the snapshot's fields are merged
      into its file, the config (when it exists with sources that spread)
      gains the entry, and every other file stays as it was. */
  lemma PublishedOutcome(files: map<Path, Record>, basePath: Path, name: string, data: Record)
    requires name != "config.json"
    ensures var cfg := Join(basePath, "config.json");
            Published(files, basePath, name, data).Success? <==>
              cfg in files && HasSpreadableSources(files[cfg])
    ensures var cfg := Join(basePath, "config.json");
            var out := Join(basePath, name);
            var r := Published(files, basePath, name, data);
            r.Success? ==>
              r.value[out] == Merge(if out in files then files[out] else map[], data) &&
              r.value[cfg] == WithSource(files[cfg], "./" + name).value &&
              forall p :: p != out && p != cfg ==> (p in r.value <==> p in files) && (p in files ==> r.value[p] == files[p])
  {
    var cfg := Join(basePath, "config.json");
    var out := Join(basePath, name);
    assert out != cfg by {
      assert out[|basePath| + 1..] == name && cfg[|basePath| + 1..] == "config.json";
    }
    var afterPut := PutFile(files, out, data);
    PutOtherPaths(files, out, data, cfg);
    ConfigUpdate(afterPut, cfg, "./" + name);
  }
}
