/** scripts/analytics/counts.ts: how many addresses each source file gives
    an airdrop to, their sum, the number of distinct receiving addresses and
    the tokens allocated to them, written to `analytics-counts.json` in
    place of the previous counts. */
module Counts {
  import opened Wrappers
  import opened Errors
  import opened Dicts
  import opened Json
  import opened Text
  import opened Store
  import opened Listing

  /** Field `k` of a record, `undefined` when it is missing. */
  function Field(data: Record, k: string): Option<Json> {
    if k in data then Some(data[k]) else None
  }

  /** The property key `obj[v]` uses when `v` is a string, number, boolean,
      `null` or `undefined`; an array or object as a key is not modelled. */
  function PropertyKey(v: Option<Json>): (r: Result<string, Error>)
    ensures r.Failure? <==> v.Some? && (v.value.JArr? || v.value.JObj? || v.value.JFields?)
  {
    match v
    case None => Success("undefined")
    case Some(j) =>
      match j
      case JStr(s) => Success(s)
      case JNum(n) => Success(IntToString(n))
      case JBool(b) => Success(if b then "true" else "false")
      case JNull => Success("null")
      case _ => Failure(NotAString("category"))
  }

  /** `Object.keys(v).length`; `None` where `Object.keys` throws, on
      `undefined` and `null`. A string has one key per character, a number
      or a boolean none. */
  function KeyCount(v: Option<Json>): (r: Option<nat>)
    ensures r.None? <==> v.None? || v.value.JNull?
  {
    if v.None? || v.value.JNull? then None
    else if v.value.JStr? then Some(|v.value.s|)
    else if v.value.JArr? then Some(|v.value.items|)
    else if v.value.JObj? then Some(|v.value.keys|)
    else if v.value.JFields? then Some(|v.value.record|)
    else Some(0)
  }

  /** One source file: `categories[srcData.category] = Object.keys(srcData.airdrop).length`
      as the category and the count it assigns. */
  function CountOf(files: map<Path, Record>, path: Path): (r: Result<(string, int), Error>) {
    var data :- ReadJSONFile(files, path, false);
    var category :- PropertyKey(Field(data, "category"));
    var count := KeyCount(Field(data, "airdrop"));
    if count.None? then Failure(NotAnObject("airdrop")) else Success((category, count.value))
  }

  /** `CountOf` for the file named `src` in `dir`. */
  function SourceCount(files: map<Path, Record>, dir: Path): string -> Result<(string, int), Error> {
    src => CountOf(files, Join(dir, src))
  }

  /** The `categories` object after every source, in listing order, with
      `count` reading and counting one source. */
  function CategoryCounts(count: string -> Result<(string, int), Error>, sources: seq<string>): Result<Dict<int>, Error> {
    var pairs :- MapResult(count, sources);
    Success(Overwrites(pairs))
  }

  /** The `sources.forEach` loop; the first source that cannot be read or
      counted stops it. */
  method CountCategories(count: string -> Result<(string, int), Error>, sources: seq<string>)
    returns (r: Result<Dict<int>, Error>)
    ensures r == CategoryCounts(count, sources)
  {
    var categories := Empty<int>();
    ghost var pairs: seq<(string, int)> := [];
    for i := 0 to |sources|
      invariant MapResult(count, sources[..i]) == Success(pairs)
      invariant categories == Overwrites(pairs)
    {
      var counted := count(sources[i]);
      if counted.Failure? {
        MapResultStop(count, sources, i);
        return Failure(counted.error);
      }
      MapResultSnoc(count, sources, i);
      OverwritesSnoc(pairs, counted.value);
      categories := Set(categories, counted.value.0, counted.value.1);
      pairs := pairs + [counted.value];
    }
    TakeAll(sources);
    return Success(categories);
  }

  /** The sum of `values[k]` over `keys`, from the left. */
  function SumOver(keys: seq<string>, values: map<string, int>): int
    requires forall k :: k in keys ==> k in values
    decreases |keys|
  {
    if keys == [] then 0 else SumOver(keys[..|keys| - 1], values) + values[keys[|keys| - 1]]
  }

  /** `Object.keys(categories).reduce((acc, curr) => acc + categories[curr], 0)`. */
  function TotalOf(d: Dict<int>): int {
    SumOver(d.keys, d.values)
  }

  /** Reference: the sum of the counts of all the pairs. */
  function SumCounts(pairs: seq<(string, int)>): int
    decreases |pairs|
  {
    if pairs == [] then 0 else SumCounts(pairs[..|pairs| - 1]) + pairs[|pairs| - 1].1
  }

  lemma {:induction false} SumOverFrame(keys: seq<string>, values: map<string, int>, k: string, v: int)
    requires forall x :: x in keys ==> x in values
    requires k !in keys
    ensures SumOver(keys, values[k := v]) == SumOver(keys, values)
    decreases |keys|
  {
    if keys != [] {
      SumOverFrame(keys[..|keys| - 1], values, k, v);
    }
  }

  /** When no two sources share a category, `totalAddresses` is the sum of
      every source's count. */
  lemma {:induction false} DistinctCategoriesTotal(pairs: seq<(string, int)>)
    requires Distinct(Firsts(pairs))
    ensures TotalOf(Overwrites(pairs)) == SumCounts(pairs)
    decreases |pairs|
  {
    if pairs != [] {
      var n := |pairs| - 1;
      var init := pairs[..n];
      var p := pairs[n];
      assert Distinct(Firsts(init)) by {
        assert forall i :: 0 <= i < n ==> Firsts(init)[i] == Firsts(pairs)[i];
      }
      DistinctCategoriesTotal(init);
      var d := Overwrites(init);
      OverwritesMeaning(init);
      UniqMembers(Firsts(init));
      assert p.0 !in d.values by {
        forall i | 0 <= i < n
          ensures Firsts(init)[i] != p.0
        {
          assert Firsts(pairs)[i] != Firsts(pairs)[n];
        }
      }
      var e := Set(d, p.0, p.1);
      assert e.keys == d.keys + [p.0];
      assert e.keys[..|e.keys| - 1] == d.keys;
      SumOverFrame(d.keys, d.values, p.0, p.1);
    }
  }

  /** Every source that is read and counted gives its category the count of
      the last source with that category: the categories are those of the
      sources, in order of first appearance. */
  lemma CategoryCountsMeaning(count: string -> Result<(string, int), Error>, sources: seq<string>)
    ensures CategoryCounts(count, sources).Success? <==> forall i :: 0 <= i < |sources| ==> count(sources[i]).Success?
    ensures var r := CategoryCounts(count, sources);
            r.Success? ==>
              var pairs := MapResult(count, sources).value;
              (forall i :: 0 <= i < |sources| ==> pairs[i] == count(sources[i]).value) &&
              r.value.keys == Uniq(Firsts(pairs)) &&
              (forall c :: c in r.value.values ==>
                 exists i :: 0 <= i < |pairs| && pairs[i] == (c, r.value.values[c]) &&
                             forall j :: i < j < |pairs| ==> pairs[j].0 != c)
  {
    MapResultSuccess(count, sources);
    var ps := MapResult(count, sources);
    if ps.Success? {
      var pairs := ps.value;
      OverwritesMeaning(pairs);
      forall c | c in Overwrites(pairs).values
        ensures exists i :: 0 <= i < |pairs| && pairs[i] == (c, Overwrites(pairs).values[c]) &&
                            forall j :: i < j < |pairs| ==> pairs[j].0 != c
      {
        LastValueAt(pairs, c);
      }
    }
  }

  /** A snapshot's file counts as its category with the number of addresses
      in its airdrop. */
  lemma SnapshotFileCount(files: map<Path, Record>, path: Path, category: string, createdAt: string, airdrop: Dict<int>)
    requires path in files
    requires files[path] == map["category" := JStr(category), "createdAt" := JStr(createdAt), "airdrop" := NumObject(airdrop)]
    ensures CountOf(files, path) == Success((category, |airdrop.keys|))
  {
  }

  /** What `acc + v` adds to a number `acc`: a number itself, `null` 0 and a
      boolean 0 or 1. `None` stands for the rest: `undefined` makes the sum
      NaN, and a string, list or object turns it into a string. */
  function Addend(v: Json): (r: Option<int>)
    ensures r.Some? <==> v.JNum? || v.JNull? || v.JBool?
    ensures v.JNum? ==> r == Some(v.n)
  {
    match v
    case JNum(n) => Some(n)
    case JNull => Some(0)
    case JBool(b) => Some(if b then 1 else 0)
    case _ => None
  }

  /** `addresses[curr].total` as the reducer adds it; `None` for an entry
      without a `total` that adds as a number, and for an entry that is not
      an object (`null.total` throws, and any other value has no `total`). */
  function EntryTotal(entry: Json): Option<int> {
    match entry
    case JObj(_, fields) => if "total" in fields then Addend(fields["total"]) else None
    case JFields(record) => if "total" in record then Addend(record["total"]) else None
    case _ => None
  }

  /** The sum of two totals, `None` when either is. */
  function Plus(a: Option<int>, b: Option<int>): (r: Option<int>) {
    if a.Some? && b.Some? then Some(a.value + b.value) else None
  }

  /** The `reduce` over the entries of `addresses` for `totalTokenAllocated`. */
  function TokenTotal(entries: seq<Json>): (r: Option<int>)
    decreases |entries|
  {
    if entries == [] then Some(0) else Plus(EntryTotal(entries[0]), TokenTotal(entries[1..]))
  }

  /** The sum is there exactly when every entry has a numeric total. */
  lemma {:induction false} TokenTotalDefined(entries: seq<Json>)
    ensures TokenTotal(entries).Some? <==> forall i :: 0 <= i < |entries| ==> EntryTotal(entries[i]).Some?
    decreases |entries|
  {
    if entries != [] {
      TokenTotalDefined(entries[1..]);
      assert forall i :: 1 <= i < |entries| ==> entries[1..][i - 1] == entries[i];
    }
  }

  /** `null` adds 0 and `true` adds 1 to the token total, as they do to a
      JavaScript number; a missing `total` leaves no number. */
  lemma CoercedTotals(n: int)
    ensures TokenTotal([JFields(map["total" := JNull]), JFields(map["total" := JBool(true)]),
                        JFields(map["total" := JNum(n)])]) == Some(n + 1)
    ensures TokenTotal([JFields(map["total" := JNum(n)]), JFields(map[])]) == None
  {
    var a := [JFields(map["total" := JNull]), JFields(map["total" := JBool(true)]), JFields(map["total" := JNum(n)])];
    assert a[1..] == [JFields(map["total" := JBool(true)]), JFields(map["total" := JNum(n)])];
    assert a[1..][1..] == [JFields(map["total" := JNum(n)])];
    assert TokenTotal(a[1..][1..]) == Some(n) by {
      assert EntryTotal(JFields(map["total" := JNum(n)])) == Some(n);
      assert a[1..][1..][1..] == [];
    }
    assert EntryTotal(JFields(map["total" := JBool(true)])) == Some(1);
    assert EntryTotal(JFields(map["total" := JNull])) == Some(0);
    var b := [JFields(map["total" := JNum(n)]), JFields(map[])];
    assert b[1..] == [JFields(map[])];
  }

  /** The values `Object.keys(v).map(k => v[k])` visits, where their order is
      known: an array's items, an ordered object's fields, a string's
      characters, and nothing for a number or a boolean. */
  function Entries(v: Json): Option<seq<Json>> {
    match v
    case JArr(items) => Some(items)
    case JObj(keys, fields) => Some(seq(|keys|, i requires 0 <= i < |keys| => if keys[i] in fields then fields[keys[i]] else JNull))
    case JStr(s) => Some(seq(|s|, i requires 0 <= i < |s| => JStr([s[i]])))
    case JNum(_) => Some([])
    case JBool(_) => Some([])
    case _ => None
  }

  /** `{ totalAddresses, totalUniqueAddresses, totalTokenAllocated, categories }`. */
  function CountsRecord(categories: Dict<int>, unique: int, tokens: int): Record {
    map["totalAddresses" := JNum(TotalOf(categories)), "totalUniqueAddresses" := JNum(unique),
        "totalTokenAllocated" := JNum(tokens), "categories" := NumObject(categories)]
  }

  function AddressesPath(basePath: Path): Path {
    Join(basePath, "analytics-addresses.json")
  }

  function OutputPath(basePath: Path): Path {
    Join(basePath, "analytics-counts.json")
  }

  /** The totals derived from `analytics-addresses.json`: the number of its
      addresses and the sum of their totals. */
  function AddressTotals(addressesData: Record): Result<(int, int), Error> {
    var unique := KeyCount(Field(addressesData, "addresses"));
    if unique.None? then Failure(NotAnObject("addresses"))
    else
      var entries := Entries(addressesData["addresses"]);
      if entries.None? then Failure(NotAList("addresses"))
      else
        var tokens := TokenTotal(entries.value);
        if tokens.None? then Failure(NonNumericTotal("addresses"))
        else Success((unique.value, tokens.value))
  }

  /** An `addresses` list counts its entries and sums their totals. */
  lemma AddressTotalsOfList(items: seq<Json>)
    ensures AddressTotals(map["addresses" := JArr(items)]) ==
              if TokenTotal(items).Some? then Success((|items|, TokenTotal(items).value))
              else Failure(NonNumericTotal("addresses"))
  {
    var rec: Record := map["addresses" := JArr(items)];
    assert Field(rec, "addresses") == Some(JArr(items));
    assert KeyCount(Some(JArr(items))) == Some(|items|);
    assert rec["addresses"] == JArr(items);
    assert Entries(JArr(items)) == Some(items);
    var t := TokenTotal(items);
    if t.Some? {
      assert AddressTotals(rec) == Success((|items|, t.value));
    } else {
      assert AddressTotals(rec) == Failure(NonNumericTotal("addresses"));
    }
  }

  /** The record the script writes for a base path whose `sources` directory
      lists `names`, or the error that stops it. */
  function CountsOf(files: map<Path, Record>, basePath: Path, names: seq<string>): Result<Record, Error> {
    var sources := JsonFiles(names);
    if sources == [] then Failure(MissingSources) else CountsFrom(files, basePath, sources)
  }

  /** The rest of the script once the source files are known. */
  function CountsFrom(files: map<Path, Record>, basePath: Path, sources: seq<string>): Result<Record, Error> {
    var addressesData :- ReadJSONFile(files, AddressesPath(basePath), false);
    var categories :- CategoryCounts(SourceCount(files, Join(basePath, "sources")), sources);
    var totals :- AddressTotals(addressesData);
    Success(CountsRecord(categories, totals.0, totals.1))
  }

  /** The script for one base path: nothing is written when it stops, and
      otherwise the counts file holds exactly the new record, whatever it
      held before, and no other file changes. */
  method Run(store: FileStore, basePath: Path, names: seq<string>) returns (err: Option<Error>)
    modifies store
    ensures var r := CountsOf(old(store.files), basePath, names);
            if r.Failure? then err == Some(r.error) && store.files == old(store.files)
            else err == None && store.files == old(store.files)[OutputPath(basePath) := r.value]
  {
    var sources := JsonFiles(names);
    if sources == [] {
      return Some(MissingSources);
    }
    err := CountAndWrite(store, basePath, sources);
  }

  /** Everything after the listing: read the addresses report and every
      source, then replace the counts file. */
  method CountAndWrite(store: FileStore, basePath: Path, sources: seq<string>) returns (err: Option<Error>)
    modifies store
    ensures var r := CountsFrom(old(store.files), basePath, sources);
            if r.Failure? then err == Some(r.error) && store.files == old(store.files)
            else err == None && store.files == old(store.files)[OutputPath(basePath) := r.value]
  {
    var addressesData := ReadJSONFile(store.files, AddressesPath(basePath), false);
    if addressesData.Failure? {
      return Some(addressesData.error);
    }
    var categories := CountCategories(SourceCount(store.files, Join(basePath, "sources")), sources);
    if categories.Failure? {
      return Some(categories.error);
    }
    var totals := AddressTotals(addressesData.value);
    if totals.Failure? {
      return Some(totals.error);
    }
    var data := CountsRecord(categories.value, totals.value.0, totals.value.1);
    store.Remove(OutputPath(basePath));
    var written := store.Put(OutputPath(basePath), data);
    RemoveThenPut(old(store.files), OutputPath(basePath), data);
    return None;
  }
}
