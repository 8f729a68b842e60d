/** scripts/analytics/addresses.ts: one entry per proof file, holding the
    file's address and every field of the proof record except `proof` and
    `index`, sorted by `total` with the largest first, written to
    `analytics-addresses.json` in place of the previous report. */
module AddressesReport {
  import opened Wrappers
  import opened Errors
  import opened Json
  import opened Text
  import opened Store
  import opened Listing
  import Counts

  /** `{ address: name.split('.json')[0], ...restData }`, where `restData` is
      the record without `proof` and `index`; a field of the record named
      `address` wins over the file name. */
  function Entry(name: string, data: Record): Json {
    JFields(map["address" := JStr(BeforeFirst(name, ".json"))] + (data - {"proof", "index"}))
  }

  /** Reads the proof file `name` in `proofsPath` and makes its entry. */
  function EntryOf(files: map<Path, Record>, proofsPath: Path): string -> Result<Json, Error> {
    name => var data :- ReadJSONFile(files, Join(proofsPath, name), false); Success(Entry(name, data))
  }

  /** The entry's fields: the proof record's own fields but `proof` and
      `index`, and `address`, which is the file name up to ".json" unless the
      record has an `address` of its own. */
  lemma EntryMeaning(name: string, data: Record)
    ensures Entry(name, data).JFields?
    ensures var fields := Entry(name, data).record;
            fields.Keys == (data.Keys - {"proof", "index"}) + {"address"} &&
            (forall k :: k in data && k != "proof" && k != "index" ==> fields[k] == data[k]) &&
            ("address" !in data ==> fields["address"] == JStr(BeforeFirst(name, ".json")))
  {
  }

  /** A proof file is named after its address, which has no '.', so the
      entry's address is that address again. */
  lemma {:induction false} AddressOfProofName(address: string)
    requires '.' !in address
    ensures BeforeFirst(address + ".json", ".json") == address
    decreases |address|
  {
    var name := address + ".json";
    if address != [] {
      var rest := address[1..];
      assert name[..5][0] == address[0] != '.';
      assert BeforeFirst(name, ".json") == [name[0]] + BeforeFirst(name[1..], ".json");
      assert name[1..] == rest + ".json";
      AddressOfProofName(rest);
      assert [address[0]] + rest == address;
    } else {
      assert name[..5] == ".json";
    }
  }

  /** The `addresses.forEach` loop pushing one entry per proof file; a proof
      file that cannot be read stops it. */
  method CollectEntries(read: string -> Result<Json, Error>, names: seq<string>) returns (r: Result<seq<Json>, Error>)
    ensures r == MapResult(read, names)
  {
    var entries: seq<Json> := [];
    for i := 0 to |names|
      invariant MapResult(read, names[..i]) == Success(entries)
    {
      var entry := read(names[i]);
      if entry.Failure? {
        MapResultStop(read, names, i);
        return Failure(entry.error);
      }
      MapResultSnoc(read, names, i);
      entries := entries + [entry.value];
    }
    Dicts.TakeAll(names);
    return Success(entries);
  }

  /** The comparator's `total`: what it adds as a number (`null` 0, a
      boolean 0 or 1), and 0 for an entry whose `total` does not add as one. */
  function Key(entry: Json): int {
    var t := Counts.EntryTotal(entry);
    if t.Some? then t.value else 0
  }

  /** Places `x` before the first element whose total is not larger, so
      that it stays ahead of the later entries with its own total. */
  function Insert(x: Json, s: seq<Json>): (r: seq<Json>)
    ensures |r| == |s| + 1
    decreases |s|
  {
    if s == [] || Key(s[0]) <= Key(x) then [x] + s else [s[0]] + Insert(x, s[1..])
  }

  /** `sort((a, b) => b.total - a.total)`: a stable sort, largest total first. */
  function SortByTotal(s: seq<Json>): (r: seq<Json>)
    ensures |r| == |s|
    decreases |s|
  {
    if s == [] then [] else Insert(s[0], SortByTotal(s[1..]))
  }

  /** Non-increasing totals. */
  predicate Descending(s: seq<Json>) {
    forall i, j :: 0 <= i < j < |s| ==> Key(s[i]) >= Key(s[j])
  }

  /** The elements with total `k`, in order. */
  function WithKey(s: seq<Json>, k: int): seq<Json>
    decreases |s|
  {
    if s == [] then [] else (if Key(s[0]) == k then [s[0]] else []) + WithKey(s[1..], k)
  }

  lemma {:induction false} InsertPermutes(x: Json, s: seq<Json>)
    ensures multiset(Insert(x, s)) == multiset(s) + multiset{x}
    decreases |s|
  {
    if s != [] && Key(s[0]) > Key(x) {
      InsertPermutes(x, s[1..]);
      assert s == [s[0]] + s[1..];
    }
  }

  /** A total no smaller than every total of the run can head it. */
  lemma DescendingCons(h: Json, t: seq<Json>)
    requires Descending(t)
    requires forall j :: 0 <= j < |t| ==> Key(t[j]) <= Key(h)
    ensures Descending([h] + t)
  {
    var r := [h] + t;
    forall i, j | 0 <= i < j < |r|
      ensures Key(r[i]) >= Key(r[j])
    {
      assert r[j] == t[j - 1];
      if i > 0 {
        assert r[i] == t[i - 1];
      }
    }
  }

  /** A bound on every total of a run and on `x` bounds the run with `x`. */
  lemma InsertBound(x: Json, s: seq<Json>, b: int)
    requires Key(x) <= b && forall j :: 0 <= j < |s| ==> Key(s[j]) <= b
    ensures forall j :: 0 <= j < |Insert(x, s)| ==> Key(Insert(x, s)[j]) <= b
  {
    InsertPermutes(x, s);
    var t := Insert(x, s);
    forall j | 0 <= j < |t|
      ensures Key(t[j]) <= b
    {
      assert t[j] in multiset(t);
      if t[j] != x {
        assert t[j] in multiset(s);
      }
    }
  }

  lemma {:induction false} InsertDescending(x: Json, s: seq<Json>)
    requires Descending(s)
    ensures Descending(Insert(x, s))
    decreases |s|
  {
    if s != [] && Key(s[0]) > Key(x) {
      var tail := s[1..];
      assert forall i :: 0 <= i < |tail| ==> tail[i] == s[i + 1];
      InsertDescending(x, tail);
      InsertBound(x, tail, Key(s[0]));
      DescendingCons(s[0], Insert(x, tail));
    }
  }

  lemma {:induction false} InsertKeepsOrder(x: Json, s: seq<Json>, k: int)
    ensures WithKey(Insert(x, s), k) == (if Key(x) == k then [x] else []) + WithKey(s, k)
    decreases |s|
  {
    if s == [] || Key(s[0]) <= Key(x) {
      var r := [x] + s;
      assert r[0] == x && r[1..] == s;
    } else {
      var tail := s[1..];
      InsertKeepsOrder(x, tail, k);
      var r := [s[0]] + Insert(x, tail);
      assert r[0] == s[0] && r[1..] == Insert(x, tail);
      var head: seq<Json> := if Key(s[0]) == k then [s[0]] else [];
      var mine: seq<Json> := if Key(x) == k then [x] else [];
      assert WithKey(r, k) == head + (mine + WithKey(tail, k));
      assert WithKey(s, k) == head + WithKey(tail, k);
      assert head == [] || mine == [];
    }
  }

  lemma {:induction false} SortedDescending(s: seq<Json>)
    ensures Descending(SortByTotal(s))
    decreases |s|
  {
    if s != [] {
      SortedDescending(s[1..]);
      InsertDescending(s[0], SortByTotal(s[1..]));
    }
  }

  lemma {:induction false} SortedPermutes(s: seq<Json>)
    ensures multiset(SortByTotal(s)) == multiset(s)
    decreases |s|
  {
    if s != [] {
      SortedPermutes(s[1..]);
      InsertPermutes(s[0], SortByTotal(s[1..]));
      assert s == [s[0]] + s[1..];
    }
  }

  lemma {:induction false} SortedStable(s: seq<Json>, k: int)
    ensures WithKey(SortByTotal(s), k) == WithKey(s, k)
    decreases |s|
  {
    if s != [] {
      SortedStable(s[1..], k);
      InsertKeepsOrder(s[0], SortByTotal(s[1..]), k);
    }
  }

  /** The sort puts every entry exactly once in non-increasing order of
      total, and entries with equal totals keep their order. */
  lemma SortByTotalSpec(s: seq<Json>)
    ensures Descending(SortByTotal(s))
    ensures multiset(SortByTotal(s)) == multiset(s)
    ensures forall k :: WithKey(SortByTotal(s), k) == WithKey(s, k)
  {
    SortedDescending(s);
    SortedPermutes(s);
    forall k
      ensures WithKey(SortByTotal(s), k) == WithKey(s, k)
    {
      SortedStable(s, k);
    }
  }

  /** Moving an entry into the sorted run does not change the sum of totals. */
  lemma {:induction false} InsertTotal(x: Json, s: seq<Json>)
    ensures Counts.TokenTotal(Insert(x, s)) == Counts.Plus(Counts.EntryTotal(x), Counts.TokenTotal(s))
    decreases |s|
  {
    if s == [] || Key(s[0]) <= Key(x) {
      var r := [x] + s;
      assert r[0] == x && r[1..] == s;
    } else {
      InsertTotal(x, s[1..]);
      var r := [s[0]] + Insert(x, s[1..]);
      assert r[0] == s[0] && r[1..] == Insert(x, s[1..]);
    }
  }

  /** The report read back by the counts script: one address per proof file
      and, when every entry has a numeric total, their sum, whatever the
      order of the entries. */
  lemma {:induction false} SortedTotal(s: seq<Json>)
    ensures Counts.TokenTotal(SortByTotal(s)) == Counts.TokenTotal(s)
    decreases |s|
  {
    if s != [] {
      SortedTotal(s[1..]);
      InsertTotal(s[0], SortByTotal(s[1..]));
    }
  }

  function ProofsPath(basePath: Path): Path {
    Join(basePath, "proofs")
  }

  function OutputPath(basePath: Path): Path {
    Join(basePath, "analytics-addresses.json")
  }

  /** `{ addresses: <entries sorted by total> }`. */
  function ReportRecord(entries: seq<Json>): Record {
    map["addresses" := JArr(SortByTotal(entries))]
  }

  /** The record the script writes for a base path whose `proofs` directory
      lists `names`, or the error that stops it. */
  function ReportOf(files: map<Path, Record>, basePath: Path, names: seq<string>): Result<Record, Error> {
    var proofs := JsonFiles(names);
    if proofs == [] then Failure(MissingProofs)
    else
      var entries :- MapResult(EntryOf(files, ProofsPath(basePath)), proofs);
      Success(ReportRecord(entries))
  }

  /** Reading the proof files succeeds exactly when all of them exist, and
      then gives the entry of each, in order. */
  lemma EntriesOfProofs(files: map<Path, Record>, proofsPath: Path, proofs: seq<string>)
    ensures MapResult(EntryOf(files, proofsPath), proofs).Success? <==>
              forall i :: 0 <= i < |proofs| ==> Join(proofsPath, proofs[i]) in files
    ensures MapResult(EntryOf(files, proofsPath), proofs).Success? ==>
              forall i :: 0 <= i < |proofs| ==>
                MapResult(EntryOf(files, proofsPath), proofs).value[i] == Entry(proofs[i], files[Join(proofsPath, proofs[i])])
  {
    var read := EntryOf(files, proofsPath);
    MapResultSuccess(read, proofs);
    forall i | 0 <= i < |proofs|
      ensures read(proofs[i]).Success? <==> Join(proofsPath, proofs[i]) in files
      ensures read(proofs[i]).Success? ==> read(proofs[i]).value == Entry(proofs[i], files[Join(proofsPath, proofs[i])])
    {
    }
  }

  /** The report succeeds exactly when every listed proof file exists; it
      then holds the entry of each of them once, largest total first. */
  lemma ReportMeaning(files: map<Path, Record>, basePath: Path, names: seq<string>)
    ensures var proofs := JsonFiles(names);
            ReportOf(files, basePath, names).Success? <==>
              proofs != [] && forall i :: 0 <= i < |proofs| ==> Join(ProofsPath(basePath), proofs[i]) in files
    ensures var proofs := JsonFiles(names);
            var r := ReportOf(files, basePath, names);
            r.Success? ==>
              var items := r.value["addresses"].items;
              |items| == |proofs| && Descending(items) &&
              forall i :: 0 <= i < |proofs| ==> Entry(proofs[i], files[Join(ProofsPath(basePath), proofs[i])]) in items
  {
    var proofs := JsonFiles(names);
    var read := EntryOf(files, ProofsPath(basePath));
    EntriesOfProofs(files, ProofsPath(basePath), proofs);
    var es := MapResult(read, proofs);
    if proofs != [] && es.Success? {
      var entries := es.value;
      SortedDescending(entries);
      SortedPermutes(entries);
      var items := SortByTotal(entries);
      forall i | 0 <= i < |proofs|
        ensures Entry(proofs[i], files[Join(ProofsPath(basePath), proofs[i])]) in items
      {
        assert entries[i] in multiset(entries);
      }
    }
  }

  /** The counts script's address totals on this report: as many addresses
      as entries, and the sum of the entries' totals. */
  lemma ReportTotals(entries: seq<Json>)
    ensures Counts.AddressTotals(ReportRecord(entries)) ==
              if Counts.TokenTotal(entries).Some? then Success((|entries|, Counts.TokenTotal(entries).value))
              else Failure(NonNumericTotal("addresses"))
  {
    var sorted := SortByTotal(entries);
    Counts.AddressTotalsOfList(sorted);
    SortedTotal(entries);
  }

  /** The script for one base path: nothing is written when it stops, and
      otherwise the report file holds exactly the new record, whatever it
      held before, and no other file changes. */
  method Run(store: FileStore, basePath: Path, names: seq<string>) returns (err: Option<Error>)
    modifies store
    ensures var r := ReportOf(old(store.files), basePath, names);
            if r.Failure? then err == Some(r.error) && store.files == old(store.files)
            else err == None && store.files == old(store.files)[OutputPath(basePath) := r.value]
  {
    var proofs := JsonFiles(names);
    if proofs == [] {
      return Some(MissingProofs);
    }
    var entries := CollectEntries(EntryOf(store.files, ProofsPath(basePath)), proofs);
    if entries.Failure? {
      return Some(entries.error);
    }
    var data := ReportRecord(entries.value);
    store.Remove(OutputPath(basePath));
    var written := store.Put(OutputPath(basePath), data);
    RemoveThenPut(old(store.files), OutputPath(basePath), data);
    return None;
  }
}
