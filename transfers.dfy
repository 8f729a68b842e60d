/** scripts/snapshots/transfers.ts: the number of transfers each address
    received from a contract, and the amount of the first `"min:max"` range
    that number falls in. */
module Transfers {
  import opened Wrappers
  import opened Errors
  import opened Dicts
  import opened Json
  import opened Text
  import opened Eth
  import opened Store
  import opened Snapshot

  /** The `to` of every transfer. */
  function Recipients(transfers: seq<Transfer>): (tos: seq<string>)
    ensures |tos| == |transfers| && forall i :: 0 <= i < |transfers| ==> tos[i] == transfers[i].to
  {
    seq(|transfers|, i requires 0 <= i < |transfers| => transfers[i].to)
  }

  /** The addresses other than the zero address, in order. */
  function WithoutZero(addrs: seq<string>): (r: seq<string>)
    ensures forall a :: a in r <==> a in addrs && a != ZERO_ADDRESS
    ensures forall a :: a != ZERO_ADDRESS ==> Occurrences(r, a) == Occurrences(addrs, a)
    decreases |addrs|
  {
    if addrs == [] then []
    else
      var init := WithoutZero(addrs[..|addrs| - 1]);
      var last := addrs[|addrs| - 1];
      assert addrs == addrs[..|addrs| - 1] + [last];
      forall a | a != ZERO_ADDRESS
        ensures Occurrences(if last == ZERO_ADDRESS then init else init + [last], a) == Occurrences(addrs, a)
      {
        if last != ZERO_ADDRESS {
          OccurrencesSnoc(init, last, a);
        }
      }
      if last == ZERO_ADDRESS then init else init + [last]
  }

  /** The counting `forEach`: checksum the recipient (a bad address throws),
      skip the zero address, then `if (addressTransfers[a]) += 1 else = 1`. */
  method CountTransfers(key: string -> Result<string, Error>, transfers: seq<Transfer>) returns (r: Result<Dict<int>, Error>)
    ensures var addrs := MapResult(key, Recipients(transfers));
            if addrs.Failure? then r == Failure(addrs.error)
            else r == Success(Tallied(WithoutZero(addrs.value), 1, true))
  {
    ghost var tos := Recipients(transfers);
    var addressTransfers := Empty<int>();
    ghost var ks: seq<string> := [];
    for j := 0 to |transfers|
      invariant MapResult(key, tos[..j]) == Success(ks)
      invariant addressTransfers == Tallied(WithoutZero(ks), 1, true)
    {
      var address := key(transfers[j].to);
      if address.Failure? {
        MapResultStop(key, tos, j);
        return Failure(address.error);
      }
      var a := address.value;
      MapResultSnoc(key, tos, j);
      assert (ks + [a])[..|ks|] == ks;
      if a != ZERO_ADDRESS {
        TalliedSnoc(WithoutZero(ks), a, 1, true);
        if a in addressTransfers.values && addressTransfers.values[a] != 0 {
          addressTransfers := Set(addressTransfers, a, addressTransfers.values[a] + 1);
        } else {
          addressTransfers := Set(addressTransfers, a, 1);
        }
      }
      ks := ks + [a];
    }
    TakeAll(tos);
    return Success(addressTransfers);
  }

  /** The counts: one key per address that received a transfer, in order of
      its first transfer, never the zero address, each holding the number of
      transfers it received (at least one). */
  lemma CountMeaning(addrs: seq<string>)
    ensures Tallied(WithoutZero(addrs), 1, true).keys == Uniq(WithoutZero(addrs))
    ensures forall a :: a in Tallied(WithoutZero(addrs), 1, true).values <==> a in addrs && a != ZERO_ADDRESS
    ensures forall a :: a in Tallied(WithoutZero(addrs), 1, true).values ==>
              Tallied(WithoutZero(addrs), 1, true).values[a] == Occurrences(addrs, a) >= 1
  {
    var kept := WithoutZero(addrs);
    TalliedMeaning(kept, 1);
    forall a | a in Tallied(kept, 1, true).values
      ensures Occurrences(addrs, a) >= 1
    {
      OccurrencesPositive(addrs, a);
    }
  }

  /** The test of `getAmountInRange` for one `"min:max"` key: `parseInt` of
      each part (NaN when it is missing or not a number), and a NaN or zero
      max counts as `Infinity`. A NaN min never matches. */
  predicate InRange(range: string, count: int) {
    PartsHold(Split(range, ':'), count)
  }

  /** The same test on the parts of the split key. */
  predicate PartsHold(parts: seq<string>, count: int)
    requires |parts| >= 1
  {
    var min := ParseInt(parts[0]);
    var max := if |parts| > 1 then ParseInt(parts[1]) else None;
    min.Some? && count > min.value && (max.None? || max.value == 0 || count <= max.value)
  }

  /** The test for a fixed count, as a value. */
  function Holds(count: int): string -> bool {
    range => InRange(range, count)
  }

  /** The position of the first range that passes `test`, or the number of
      ranges when none does. */
  function FirstMatch(test: string -> bool, ranges: seq<string>): (i: nat)
    ensures i <= |ranges|
    ensures i < |ranges| ==> test(ranges[i])
    ensures forall j :: 0 <= j < i ==> !test(ranges[j])
    decreases |ranges|
  {
    if ranges == [] then 0
    else if test(ranges[0]) then 0
    else 1 + FirstMatch(test, ranges[1..])
  }

  /** A passing range with no passing range before it is the first match. */
  lemma FirstMatchAt(test: string -> bool, ranges: seq<string>, i: nat)
    requires i <= |ranges| && (i < |ranges| ==> test(ranges[i]))
    requires forall j :: 0 <= j < i ==> !test(ranges[j])
    ensures FirstMatch(test, ranges) == i
  {
  }

  /** The amount `getAmountInRange(count)` returns: that of the first range,
      in key order, holding `count`, and 0 when there is none. */
  function AmountInRange(amounts: Dict<int>, count: int): int {
    var i := FirstMatch(Holds(count), amounts.keys);
    if i < |amounts.keys| then amounts.values[amounts.keys[i]] else 0
  }

  /** `getAmountInRange(count)`: the indexed search with early return. */
  method GetAmountInRange(amounts: Dict<int>, count: int) returns (amount: int)
    ensures amount == AmountInRange(amounts, count)
  {
    var ranges := amounts.keys;
    var i := 0;
    while i < |ranges|
      invariant 0 <= i <= |ranges|
      invariant forall j :: 0 <= j < i ==> !InRange(ranges[j], count)
    {
      var hit := RangeHolds(ranges[i], count);
      if hit {
        AmountAt(amounts, count, i);
        return amounts.values[ranges[i]];
      }
      assert !InRange(ranges[i], count);
      i := i + 1;
    }
    AmountAt(amounts, count, i);
    return 0;
  }

  /** The search stops at a range holding the count with none before it. */
  lemma AmountAt(amounts: Dict<int>, count: int, i: nat)
    requires i <= |amounts.keys| && (i < |amounts.keys| ==> InRange(amounts.keys[i], count))
    requires forall j :: 0 <= j < i ==> !InRange(amounts.keys[j], count)
    ensures AmountInRange(amounts, count) == if i < |amounts.keys| then amounts.values[amounts.keys[i]] else 0
  {
    var test := Holds(count);
    if i < |amounts.keys| {
      assert test(amounts.keys[i]);
    }
    forall j | 0 <= j < i
      ensures !test(amounts.keys[j])
    {
      assert !InRange(amounts.keys[j], count);
    }
    FirstMatchAt(test, amounts.keys, i);
  }

  /** The body of the search for one key: split, parse both bounds, and
      compare. */
  method RangeHolds(key: string, count: int) returns (hit: bool)
    ensures hit == InRange(key, count)
  {
    var range := Split(key, ':');
    var min := ParseInt(range[0]);
    var max := if |range| > 1 then ParseInt(range[1]) else None;
    var unbounded := max.None? || max.value == 0;
    hit := min.Some? && count > min.value && (unbounded || count <= max.value);
  }

  /** The amount is that of a range holding the count with no earlier range
      holding it, or 0 exactly when no range holds it. */
  lemma AmountInRangeSpec(amounts: Dict<int>, count: int)
    ensures (forall i :: 0 <= i < |amounts.keys| ==> !InRange(amounts.keys[i], count)) ==>
              AmountInRange(amounts, count) == 0
    ensures (exists i :: 0 <= i < |amounts.keys| && InRange(amounts.keys[i], count)) ==>
              exists i :: 0 <= i < |amounts.keys| && InRange(amounts.keys[i], count) &&
                          (forall j :: 0 <= j < i ==> !InRange(amounts.keys[j], count)) &&
                          AmountInRange(amounts, count) == amounts.values[amounts.keys[i]]
  {
    var keys := amounts.keys;
    var i := FirstMatch(Holds(count), keys);
    forall j | 0 <= j < i
      ensures !InRange(keys[j], count)
    {
      assert !Holds(count)(keys[j]);
    }
    if i < |keys| {
      assert Holds(count)(keys[i]);
    }
  }

  lemma NoColon(n: int)
    ensures ':' !in IntToString(n)
  {
    var digits := NatToString(if n < 0 then -n else n);
    assert forall i :: 0 <= i < |digits| ==> IsDigit(digits[i]);
  }

  /** `"min:max"` written out: the count must exceed min and, unless max is
      0, not exceed max. */
  lemma BoundedRange(min: int, max: int, count: int)
    ensures InRange(IntToString(min) + ":" + IntToString(max), count) <==> min < count && (max == 0 || count <= max)
  {
    var lo, hi := IntToString(min), IntToString(max);
    NoColon(min);
    NoColon(max);
    SplitFirst(lo, ':', hi);
    SplitWithout(hi, ':');
    assert lo + ":" + hi == lo + [':'] + hi;
    ParseIntOfIntToString(min);
    ParseIntOfIntToString(max);
  }

  /** `"min:"`: an empty max is unbounded. */
  lemma EmptyMaxRange(min: int, count: int)
    ensures InRange(IntToString(min) + ":", count) <==> min < count
  {
    var lo := IntToString(min);
    NoColon(min);
    SplitFirst(lo, ':', "");
    assert lo + ":" == lo + [':'] + "";
    ParseIntOfIntToString(min);
    assert ParseInt("") == None;
  }

  /** `"min"`: a missing max is unbounded. */
  lemma MissingMaxRange(min: int, count: int)
    ensures InRange(IntToString(min), count) <==> min < count
  {
    NoColon(min);
    SplitWithout(IntToString(min), ':');
    ParseIntOfIntToString(min);
  }

  /** The per-address amounts: the keys of the counts in their order, each
      with the amount of its count. */
  function AirdropOf(amounts: Dict<int>, counts: Dict<int>): (r: Dict<int>)
    ensures r.keys == counts.keys
    ensures forall a :: a in counts.values ==> a in r.values && r.values[a] == AmountInRange(amounts, counts.values[a])
  {
    Entries(counts.keys, map a | a in counts.values :: AmountInRange(amounts, counts.values[a]))
  }

  /** `Object.keys(addressTransfers).forEach(a => { addresses[a] =
      getAmountInRange(addressTransfers[a]) })`: every counted address is
      kept, a 0 amount included. */
  method AmountsByCount(amounts: Dict<int>, counts: Dict<int>) returns (addresses: Dict<int>)
    ensures addresses == AirdropOf(amounts, counts)
  {
    addresses := Empty();
    for j := 0 to |counts.keys|
      invariant addresses.keys == counts.keys[..j]
      invariant forall a :: a in addresses.values ==> a in counts.values && addresses.values[a] == AmountInRange(amounts, counts.values[a])
    {
      var address := counts.keys[j];
      var amount := GetAmountInRange(amounts, counts.values[address]);
      assert address !in counts.keys[..j];
      assert counts.keys[..j + 1] == counts.keys[..j] + [address];
      addresses := Set(addresses, address, amount);
    }
    TakeAll(counts.keys);
    SameDict(addresses, AirdropOf(amounts, counts));
  }

  function Category(contract: string): string {
    "transfer-" + contract
  }

  /** The record written for a contract: category, timestamp, the airdrop and
      the counts themselves. */
  function TransferRecord(contract: string, createdAt: string, airdrop: Dict<int>, counts: Dict<int>): Record {
    SnapshotRecord(Category(contract), createdAt, airdrop)["transfers" := NumObject(counts)]
  }

  /** One contract of the script: count, price the counts, write
      `transfer-<contract>.json` and list it in the config. A recipient
      getAddress rejects stops it before anything is written. */
  method Run(keccak: Keccak, store: FileStore, basePath: Path, contract: string, amounts: Dict<int>,
             transfers: seq<Transfer>, createdAt: string) returns (err: Option<Error>)
    modifies store
    ensures var addrs := MapResult(Checksummed(keccak), Recipients(transfers));
            if addrs.Failure? then err == Some(addrs.error) && store.files == old(store.files)
            else
              var counts := Tallied(WithoutZero(addrs.value), 1, true);
              Publishes(old(store.files), store.files, err, basePath, Category(contract) + ".json",
                        TransferRecord(contract, createdAt, AirdropOf(amounts, counts), counts))
  {
    var counted := CountTransfers(Checksummed(keccak), transfers);
    if counted.Failure? {
      return Some(counted.error);
    }
    var addresses := AmountsByCount(amounts, counted.value);
    var data := TransferRecord(contract, createdAt, addresses, counted.value);
    err := PublishSource(store, basePath, Category(contract) + ".json", data);
  }
}
