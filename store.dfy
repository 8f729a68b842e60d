/** The JSON files the scripts read and write (scripts/utils/file.ts), as a
    map from path to the record each file holds. */
module Store {
  import opened Wrappers
  import opened Errors
  import opened Json

  type Path = string

  /** `path.join(dir, name)` for a plain file name. */
  function Join(dir: Path, name: string): Path {
    dir + "/" + name
  }

  /** `readJSONFile(dst, ignore)`: a missing file is `{}` when `ignore` is set
      and a fatal error otherwise. */
  function ReadJSONFile(files: map<Path, Record>, dst: Path, ignore: bool): (r: Result<Record, Error>)
    ensures r.Success? <==> dst in files || ignore
    ensures r.Success? ==> r.value == (if dst in files then files[dst] else map[])
    ensures r.Failure? ==> r.error == MissingFile(dst)
  {
    if dst in files then Success(files[dst])
    else if ignore then Success(map[])
    else Failure(MissingFile(dst))
  }

  /** The shallow merge `{ ...old, ...data }`. */
  function Merge(prev: Record, data: Record): (r: Record)
    ensures r.Keys == prev.Keys + data.Keys
    ensures forall k :: k in data ==> r[k] == data[k]
    ensures forall k :: k in prev && k !in data ==> r[k] == prev[k]
  {
    prev + data
  }

  /** The files after `putJSONFile(dst, data)`. */
  function PutFile(files: map<Path, Record>, dst: Path, data: Record): map<Path, Record>
  {
    files[dst := (if dst in files then files[dst] else map[]) + data]
  }

  /** One `putJSONFile` call. */
  datatype PutOp = PutOp(dst: Path, data: Record)

  /** The files after a run of `putJSONFile` calls, in order. */
  function ApplyPuts(files: map<Path, Record>, puts: seq<PutOp>): map<Path, Record>
    decreases |puts|
  {
    if puts == [] then files
    else
      var last := puts[|puts| - 1];
      PutFile(ApplyPuts(files, puts[..|puts| - 1]), last.dst, last.data)
  }

  /** Field `k` of the file at `p`, if both exist. */
  function Lookup(files: map<Path, Record>, p: Path, k: string): Option<Json> {
    if p in files && k in files[p] then Some(files[p][k]) else None
  }

  /** True when the put writes field `k` of the file at `p`. */
  predicate Carries(op: PutOp, p: Path, k: string) {
    op.dst == p && k in op.data
  }

  /** Reference for a run of puts: the value of the last put to `p` that
      carries field `k`, or what the file held before when there is none. */
  function LatestWrite(files: map<Path, Record>, puts: seq<PutOp>, p: Path, k: string): Option<Json>
    decreases |puts|
  {
    if puts == [] then Lookup(files, p, k)
    else
      var last := puts[|puts| - 1];
      if last.dst == p && k in last.data then Some(last.data[k])
      else LatestWrite(files, puts[..|puts| - 1], p, k)
  }

  /** The file system the scripts see. */
  class FileStore {
    var files: map<Path, Record>

    constructor(files: map<Path, Record>)
      ensures this.files == files
    {
      this.files := files;
    }

    /** `putJSONFile(dst, data)`: merges `data` over the old record (or `{}`)
        and returns `data` itself, not the merged record. */
    method Put(dst: Path, data: Record) returns (r: Record)
      modifies this
      ensures files == PutFile(old(files), dst, data)
      ensures r == data
    {
      var oldData := ReadJSONFile(files, dst, true).value;
      files := files[dst := Merge(oldData, data)];
      r := data;
    }

    /** `fs.writeFileSync(dst, ...)`: replaces the file. */
    method Write(dst: Path, data: Record)
      modifies this
      ensures files == old(files)[dst := data]
    {
      files := files[dst := data];
    }

    /** `rimraf.sync(dst)`: deletes the file if it is there. */
    method Remove(dst: Path)
      modifies this
      ensures files == old(files) - {dst}
    {
      files := files - {dst};
    }
  }

  /** Every field of `data` holds `data`'s value after the put. */
  lemma PutOverrides(files: map<Path, Record>, dst: Path, data: Record)
    ensures forall k :: k in data ==> Lookup(PutFile(files, dst, data), dst, k) == Some(data[k])
  {
  }

  /** The old record's fields that `data` does not mention keep their values,
      and the merged record has no other fields. */
  lemma PutKeepsOldFields(files: map<Path, Record>, dst: Path, data: Record, k: string)
    requires k !in data
    ensures Lookup(PutFile(files, dst, data), dst, k) == Lookup(files, dst, k)
  {
  }

  /** Only the record at `dst` changes. */
  lemma PutOtherPaths(files: map<Path, Record>, dst: Path, data: Record, p: Path)
    requires p != dst
    ensures p in PutFile(files, dst, data) <==> p in files
    ensures p in files ==> PutFile(files, dst, data)[p] == files[p]
  {
  }

  /** Reading back after a put finds the file and the merged record. */
  lemma PutThenRead(files: map<Path, Record>, dst: Path, data: Record)
    ensures ReadJSONFile(PutFile(files, dst, data), dst, false) ==
              Success(Merge(if dst in files then files[dst] else map[], data))
  {
  }

  /** `rimraf.sync(dst)` before `putJSONFile(dst, data)`: the file ends up
      holding exactly `data`, with no field of its old record left. */
  lemma RemoveThenPut(files: map<Path, Record>, dst: Path, data: Record)
    ensures PutFile(files - {dst}, dst, data) == files[dst := data]
  {
    var m: Record := map[];
    assert m + data == data;
  }

  /** Putting the same data twice is the same as putting it once. */
  lemma PutIdempotent(files: map<Path, Record>, dst: Path, data: Record)
    ensures PutFile(PutFile(files, dst, data), dst, data) == PutFile(files, dst, data)
  {
    var once := PutFile(files, dst, data);
    assert Merge(once[dst], data) == once[dst];
  }

  /** Puts with disjoint field sets commute, to the same file or not. */
  lemma PutsCommute(files: map<Path, Record>, p: Path, x: Record, q: Path, y: Record)
    requires x.Keys !! y.Keys
    ensures PutFile(PutFile(files, p, x), q, y) == PutFile(PutFile(files, q, y), p, x)
  {
    if p == q {
      SamePutsCommute(files, p, x, y);
    } else {
      ApartPutsCommute(files, p, x, q, y);
    }
  }

  /** Two puts to one file merge in either order. */
  lemma SamePutsCommute(files: map<Path, Record>, p: Path, x: Record, y: Record)
    requires x.Keys !! y.Keys
    ensures PutFile(PutFile(files, p, x), p, y) == PutFile(PutFile(files, p, y), p, x)
  {
    var at: Record := if p in files then files[p] else map[];
    MergeCommute(at, x, y);
  }

  /** Puts to two files touch one file each. */
  lemma ApartPutsCommute(files: map<Path, Record>, p: Path, x: Record, q: Path, y: Record)
    requires p != q
    ensures PutFile(PutFile(files, p, x), q, y) == PutFile(PutFile(files, q, y), p, x)
  {
    var atP: Record := if p in files then files[p] else map[];
    var atQ: Record := if q in files then files[q] else map[];
    var f1 := files[p := atP + x];
    var f2 := files[q := atQ + y];
    assert (if q in f1 then f1[q] else map[]) == atQ;
    assert (if p in f2 then f2[p] else map[]) == atP;
    UpdatesCommute(files, p, atP + x, q, atQ + y);
  }

  lemma UpdatesCommute(files: map<Path, Record>, p: Path, a: Record, q: Path, b: Record)
    requires p != q
    ensures files[p := a][q := b] == files[q := b][p := a]
  {
  }

  lemma MergeCommute(base: Record, x: Record, y: Record)
    requires x.Keys !! y.Keys
    ensures Merge(Merge(base, x), y) == Merge(Merge(base, y), x)
  {
    var xy := Merge(Merge(base, x), y);
    var yx := Merge(Merge(base, y), x);
    forall k | k in xy ensures xy[k] == yx[k] {
      if k in y { assert k !in x; }
    }
  }

  /** After a run of puts, a field holds what the last put carrying it wrote,
      or what it held before when no put carried it. */
  lemma {:induction false} LastWriteWins(files: map<Path, Record>, puts: seq<PutOp>, p: Path, k: string)
    ensures Lookup(ApplyPuts(files, puts), p, k) == LatestWrite(files, puts, p, k)
    decreases |puts|
  {
    if puts != [] {
      LastWriteWins(files, puts[..|puts| - 1], p, k);
    }
  }

  /** A run of puts creates exactly the files it names. */
  lemma {:induction false} ApplyPutsPaths(files: map<Path, Record>, puts: seq<PutOp>, p: Path)
    ensures p in ApplyPuts(files, puts) <==> p in files || exists i :: 0 <= i < |puts| && puts[i].dst == p
    decreases |puts|
  {
    if puts != [] {
      var init := puts[..|puts| - 1];
      ApplyPutsPaths(files, init, p);
      if exists i :: 0 <= i < |init| && init[i].dst == p {
        var i :| 0 <= i < |init| && init[i].dst == p;
        assert puts[i].dst == p;
      }
    }
  }

  /** One more put at the end of a run. */
  lemma ApplyPutsSnoc(files: map<Path, Record>, puts: seq<PutOp>, op: PutOp)
    ensures ApplyPuts(files, puts + [op]) == PutFile(ApplyPuts(files, puts), op.dst, op.data)
  {
    assert (puts + [op])[..|puts|] == puts;
  }

  /** Applying two runs of puts one after the other applies their concatenation. */
  lemma {:induction false} ApplyPutsAppend(files: map<Path, Record>, a: seq<PutOp>, b: seq<PutOp>)
    ensures ApplyPuts(ApplyPuts(files, a), b) == ApplyPuts(files, a + b)
    decreases |b|
  {
    if b != [] {
      ApplyPutsAppend(files, a, b[..|b| - 1]);
      assert (a + b)[..|a + b| - 1] == a + b[..|b| - 1];
    } else {
      assert a + b == a;
    }
  }

  /** The put at position m decides field `k` of `p` when no later put to
      `p` carries `k`. */
  lemma {:induction false} LatestWriteAt(files: map<Path, Record>, puts: seq<PutOp>, p: Path, k: string, m: nat)
    requires m < |puts| && Carries(puts[m], p, k)
    requires forall t :: m < t < |puts| ==> !Carries(puts[t], p, k)
    ensures LatestWrite(files, puts, p, k) == Some(puts[m].data[k])
    decreases |puts|
  {
    if m < |puts| - 1 {
      LatestWriteAt(files, puts[..|puts| - 1], p, k, m);
    }
  }

  /** Puts that never carry `k` to `p` leave that field as it was. */
  lemma {:induction false} LatestWriteUntouched(files: map<Path, Record>, puts: seq<PutOp>, p: Path, k: string)
    requires forall t :: 0 <= t < |puts| ==> !Carries(puts[t], p, k)
    ensures LatestWrite(files, puts, p, k) == Lookup(files, p, k)
    decreases |puts|
  {
    if puts != [] {
      LatestWriteUntouched(files, puts[..|puts| - 1], p, k);
    }
  }
}
