/** `sum` of scripts/generate-merkle/sum.ts: the per-address totals of the
    sources' airdrops, plus one merge-write of `{ [category]: amount }` into
    `<proofs>/<lower-cased address>.json` per (source, address) pair. */
module MerkleSum {
  import opened Wrappers
  import opened Dicts
  import opened Json
  import opened Text
  import opened Store
  import opened Totals

  /** One source file: its category and its airdrop. */
  datatype Drop = Drop(category: string, airdrop: Airdrop)

  /** The `.airdrop` fields of the sources. */
  function Airdrops(drops: seq<Drop>): (r: seq<Airdrop>)
    ensures |r| == |drops| && forall i :: 0 <= i < |drops| ==> r[i] == drops[i].airdrop
  {
    seq(|drops|, i requires 0 <= i < |drops| => drops[i].airdrop)
  }

  /** `path.join(proofsOutputPath, address.toLocaleLowerCase() + '.json')`. */
  function ProofPath(proofsPath: Path, address: string): Path {
    Join(proofsPath, Lower(address) + ".json")
  }

  /** The field one pair writes. */
  function CategoryRecord(category: string, amount: int): Record {
    map[category := JNum(amount)]
  }

  /** The puts of one source, in key order. */
  function DropPuts(proofsPath: Path, d: Drop): (r: seq<PutOp>)
    ensures |r| == |d.airdrop.keys|
    ensures forall m :: 0 <= m < |r| ==>
              r[m] == PutOp(ProofPath(proofsPath, d.airdrop.keys[m]),
                            CategoryRecord(d.category, d.airdrop.values[d.airdrop.keys[m]]))
  {
    seq(|d.airdrop.keys|, m requires 0 <= m < |d.airdrop.keys| =>
          PutOp(ProofPath(proofsPath, d.airdrop.keys[m]),
                CategoryRecord(d.category, d.airdrop.values[d.airdrop.keys[m]])))
  }

  /** The puts of all sources, in order. */
  function PutsOf(proofsPath: Path, drops: seq<Drop>): seq<PutOp>
    decreases |drops|
  {
    if drops == [] then []
    else PutsOf(proofsPath, drops[..|drops| - 1]) + DropPuts(proofsPath, drops[|drops| - 1])
  }

  /** The number of (source, address) pairs. */
  function PairCount(drops: seq<Drop>): nat
    decreases |drops|
  {
    if drops == [] then 0 else PairCount(drops[..|drops| - 1]) + |drops[|drops| - 1].airdrop.keys|
  }

  /** `sum(airdrops, proofsOutputPath)`. */
  method Sum(store: FileStore, drops: seq<Drop>, proofsPath: Path) returns (airdrop: Airdrop)
    modifies store
    ensures airdrop == SumSpec(Airdrops(drops))
    ensures store.files == ApplyPuts(old(store.files), PutsOf(proofsPath, drops))
  {
    ghost var files0 := store.files;
    airdrop := Empty();
    var i := 0;
    while i < |drops|
      invariant 0 <= i <= |drops|
      invariant airdrop == SumSpec(Airdrops(drops[..i]))
      invariant store.files == ApplyPuts(files0, PutsOf(proofsPath, drops[..i]))
    {
      SumStep(proofsPath, drops, i);
      ApplyPutsAppend(files0, PutsOf(proofsPath, drops[..i]), DropPuts(proofsPath, drops[i]));
      airdrop := SumDrop(store, drops[i], proofsPath, airdrop);
      i := i + 1;
    }
    assert drops[..i] == drops;
  }

  /** One more source: its keys are added to the totals and its puts follow
      the earlier ones. */
  lemma SumStep(proofsPath: Path, drops: seq<Drop>, i: nat)
    requires i < |drops|
    ensures SumSpec(Airdrops(drops[..i + 1])) ==
              AddKeys(SumSpec(Airdrops(drops[..i])), drops[i].airdrop, drops[i].airdrop.keys)
    ensures PutsOf(proofsPath, drops[..i + 1]) == PutsOf(proofsPath, drops[..i]) + DropPuts(proofsPath, drops[i])
  {
    assert drops[..i + 1][..i] == drops[..i];
    assert Airdrops(drops[..i + 1])[..i] == Airdrops(drops[..i]);
  }

  /** The inner `forEach` of `sum` over one source's addresses. */
  method SumDrop(store: FileStore, drop: Drop, proofsPath: Path, acc: Airdrop) returns (airdrop: Airdrop)
    modifies store
    ensures airdrop == AddKeys(acc, drop.airdrop, drop.airdrop.keys)
    ensures store.files == ApplyPuts(old(store.files), DropPuts(proofsPath, drop))
  {
    ghost var files0 := store.files;
    ghost var mine := DropPuts(proofsPath, drop);
    var addresses := drop.airdrop.keys;
    airdrop := acc;
    var j := 0;
    while j < |addresses|
      invariant 0 <= j <= |addresses|
      invariant airdrop == AddKeys(acc, drop.airdrop, addresses[..j])
      invariant store.files == ApplyPuts(files0, mine[..j])
    {
      AddStep(acc, drop.airdrop, j);
      PutStep(files0, proofsPath, drop, j);
      var address := addresses[j];
      var amount := drop.airdrop.values[address];
      airdrop := Accumulate(airdrop, address, amount);
      var addressPath := ProofPath(proofsPath, address);
      var _ := store.Put(addressPath, CategoryRecord(drop.category, amount));
      j := j + 1;
    }
    TakeAll(addresses);
    TakeAll(mine);
  }

  /** One address of a source: its amount is added to the totals. */
  lemma AddStep(acc: Airdrop, drop: Airdrop, j: nat)
    requires j < |drop.keys|
    ensures AddKeys(acc, drop, drop.keys[..j + 1]) ==
              Accumulate(AddKeys(acc, drop, drop.keys[..j]), drop.keys[j], drop.values[drop.keys[j]])
  {
    assert drop.keys[..j + 1][..j] == drop.keys[..j];
  }

  /** One address of a source: its put follows the earlier ones. */
  lemma PutStep(files: map<Path, Record>, proofsPath: Path, drop: Drop, j: nat)
    requires j < |drop.airdrop.keys|
    ensures var a := drop.airdrop.keys[j];
            ApplyPuts(files, DropPuts(proofsPath, drop)[..j + 1]) ==
              PutFile(ApplyPuts(files, DropPuts(proofsPath, drop)[..j]), ProofPath(proofsPath, a),
                      CategoryRecord(drop.category, drop.airdrop.values[a]))
  {
    var mine := DropPuts(proofsPath, drop);
    assert mine[..j + 1][..j] == mine[..j];
  }

  /** There is one store write per (source, address) pair. */
  lemma {:induction false} WritesPerPair(proofsPath: Path, drops: seq<Drop>)
    ensures |PutsOf(proofsPath, drops)| == PairCount(drops)
    decreases |drops|
  {
    if drops != [] {
      WritesPerPair(proofsPath, drops[..|drops| - 1]);
    }
  }

  /** Every put writes one pair's category and amount to its proof file. */
  lemma {:induction false} PutsOfMembers(proofsPath: Path, drops: seq<Drop>, t: nat)
    requires t < |PutsOf(proofsPath, drops)|
    ensures exists j, b :: 0 <= j < |drops| && b in drops[j].airdrop.values &&
              PutsOf(proofsPath, drops)[t] ==
                PutOp(ProofPath(proofsPath, b), CategoryRecord(drops[j].category, drops[j].airdrop.values[b]))
    decreases |drops|
  {
    var init := drops[..|drops| - 1];
    var last := |drops| - 1;
    var before := PutsOf(proofsPath, init);
    if t < |before| {
      PutsOfMembers(proofsPath, init, t);
      var j, b :| 0 <= j < |init| && b in init[j].airdrop.values &&
                  before[t] == PutOp(ProofPath(proofsPath, b), CategoryRecord(init[j].category, init[j].airdrop.values[b]));
      assert drops[j] == init[j];
    } else {
      var m := t - |before|;
      var b := drops[last].airdrop.keys[m];
      assert PutsOf(proofsPath, drops)[t] == DropPuts(proofsPath, drops[last])[m];
      assert b in drops[last].airdrop.values;
    }
  }

  /** The puts of a list of sources split at any source. */
  lemma {:induction false} PutsOfAppend(proofsPath: Path, a: seq<Drop>, b: seq<Drop>)
    ensures PutsOf(proofsPath, a + b) == PutsOf(proofsPath, a) + PutsOf(proofsPath, b)
    decreases |b|
  {
    if b == [] {
      assert a + b == a;
    } else {
      var init := b[..|b| - 1];
      PutsOfAppend(proofsPath, a, init);
      assert (a + b)[..|a + b| - 1] == a + init;
      ConcatAssoc(PutsOf(proofsPath, a), PutsOf(proofsPath, init), DropPuts(proofsPath, b[|b| - 1]));
    }
  }

  /** Addresses that differ only in case share one proof file. */
  lemma ProofPathCase(proofsPath: Path, a: string, b: string)
    ensures ProofPath(proofsPath, a) == ProofPath(proofsPath, b) <==> Lower(a) == Lower(b)
  {
    var pa, pb := ProofPath(proofsPath, a), ProofPath(proofsPath, b);
    if pa == pb {
      assert pa[|proofsPath| + 1..] == Lower(a) + ".json";
      assert Lower(a) == (Lower(a) + ".json")[..|Lower(a)|];
    }
  }

  /** No put of a source carries its category to the proof file of `a`
      after position m when no later key has `a`'s lower case. */
  lemma DropPutsAvoid(proofsPath: Path, d: Drop, m: nat, n: nat)
    requires m < n < |d.airdrop.keys|
    requires Lower(d.airdrop.keys[n]) != Lower(d.airdrop.keys[m])
    ensures !Carries(DropPuts(proofsPath, d)[n], ProofPath(proofsPath, d.airdrop.keys[m]), d.category)
  {
    ProofPathCase(proofsPath, d.airdrop.keys[m], d.airdrop.keys[n]);
  }

  /** No put of the sources carries category `c` to the proof file of `a`
      when no source of that category has `a` in any case. */
  lemma PutsOfAvoid(proofsPath: Path, drops: seq<Drop>, a: string, c: string, u: nat)
    requires u < |PutsOf(proofsPath, drops)|
    requires forall j, b :: 0 <= j < |drops| && b in drops[j].airdrop.values && drops[j].category == c ==>
               Lower(b) != Lower(a)
    ensures !Carries(PutsOf(proofsPath, drops)[u], ProofPath(proofsPath, a), c)
  {
    PutsOfMembers(proofsPath, drops, u);
    var j, b :| 0 <= j < |drops| && b in drops[j].airdrop.values &&
                PutsOf(proofsPath, drops)[u] ==
                  PutOp(ProofPath(proofsPath, b), CategoryRecord(drops[j].category, drops[j].airdrop.values[b]));
    ProofPathCase(proofsPath, a, b);
  }

  /** The puts of the sources, split around source i. */
  lemma PutsAround(proofsPath: Path, drops: seq<Drop>, i: nat)
    requires i < |drops|
    ensures PutsOf(proofsPath, drops) ==
              PutsOf(proofsPath, drops[..i]) + DropPuts(proofsPath, drops[i]) + PutsOf(proofsPath, drops[i + 1..])
  {
    var d := drops[i];
    SplitAt(drops, i);
    PutsOfAppend(proofsPath, drops[..i] + [d], drops[i + 1..]);
    PutsOfAppend(proofsPath, drops[..i], [d]);
    assert [d][..0] == [];
  }

  /** After one source's puts, the proof file of its m-th address holds that
      address's amount, unless a later key of the source has the same
      lower case. */
  lemma DropLeavesAmount(files: map<Path, Record>, proofsPath: Path, d: Drop, m: nat)
    requires m < |d.airdrop.keys|
    requires forall n :: m < n < |d.airdrop.keys| ==> Lower(d.airdrop.keys[n]) != Lower(d.airdrop.keys[m])
    ensures var a := d.airdrop.keys[m];
            Lookup(ApplyPuts(files, DropPuts(proofsPath, d)), ProofPath(proofsPath, a), d.category) ==
              Some(JNum(d.airdrop.values[a]))
  {
    var a := d.airdrop.keys[m];
    var p, c := ProofPath(proofsPath, a), d.category;
    var mine := DropPuts(proofsPath, d);
    forall n | m < n < |mine| ensures !Carries(mine[n], p, c) {
      DropPutsAvoid(proofsPath, d, m, n);
    }
    LatestWriteAt(files, mine, p, c, m);
    LastWriteWins(files, mine, p, c);
  }

  /** Sources none of whose keys of category `c` has `a`'s lower case leave
      field `c` of `a`'s proof file as it was. */
  lemma LaterSourcesKeep(files: map<Path, Record>, proofsPath: Path, drops: seq<Drop>, a: string, c: string)
    requires forall j, b :: 0 <= j < |drops| && b in drops[j].airdrop.values && drops[j].category == c ==>
               Lower(b) != Lower(a)
    ensures Lookup(ApplyPuts(files, PutsOf(proofsPath, drops)), ProofPath(proofsPath, a), c) ==
              Lookup(files, ProofPath(proofsPath, a), c)
  {
    var puts := PutsOf(proofsPath, drops);
    var p := ProofPath(proofsPath, a);
    forall u | 0 <= u < |puts| ensures !Carries(puts[u], p, c) {
      PutsOfAvoid(proofsPath, drops, a, c, u);
    }
    LatestWriteUntouched(files, puts, p, c);
    LastWriteWins(files, puts, p, c);
  }

  /** After `Sum`, the proof file of an address holds the amount of its pair
      under the pair's category, unless a later pair with the same category
      and the same lower-cased address overwrote it. */
  lemma StoreHoldsLastAmount(files: map<Path, Record>, proofsPath: Path, drops: seq<Drop>, i: nat, m: nat)
    requires i < |drops| && m < |drops[i].airdrop.keys|
    requires var a := drops[i].airdrop.keys[m];
             forall n :: m < n < |drops[i].airdrop.keys| ==> Lower(drops[i].airdrop.keys[n]) != Lower(a)
    requires var a := drops[i].airdrop.keys[m];
             forall j, b :: i < j < |drops| && b in drops[j].airdrop.values && drops[j].category == drops[i].category ==>
               Lower(b) != Lower(a)
    ensures var a := drops[i].airdrop.keys[m];
            Lookup(ApplyPuts(files, PutsOf(proofsPath, drops)), ProofPath(proofsPath, a), drops[i].category) ==
              Some(JNum(drops[i].airdrop.values[a]))
  {
    var d := drops[i];
    var a := d.airdrop.keys[m];
    var rest := drops[i + 1..];
    var pre, mine, post := PutsOf(proofsPath, drops[..i]), DropPuts(proofsPath, d), PutsOf(proofsPath, rest);
    PutsAround(proofsPath, drops, i);
    var before := ApplyPuts(files, pre);
    ApplyPutsAppend(files, pre, mine);
    ApplyPutsAppend(files, pre + mine, post);
    ApplyPutsAppend(before, mine, post);
    DropLeavesAmount(before, proofsPath, d, m);
    forall j, b | 0 <= j < |rest| && b in rest[j].airdrop.values && rest[j].category == d.category
      ensures Lower(b) != Lower(a)
    {
      assert rest[j] == drops[i + 1 + j];
    }
    LaterSourcesKeep(ApplyPuts(before, mine), proofsPath, rest, a, d.category);
  }

  /** A field that is no source's category keeps its value in every file:
      the other categories of a proof file survive. */
  lemma OtherCategoriesKept(files: map<Path, Record>, proofsPath: Path, drops: seq<Drop>, p: Path, c: string)
    requires forall j :: 0 <= j < |drops| ==> drops[j].category != c
    ensures Lookup(ApplyPuts(files, PutsOf(proofsPath, drops)), p, c) == Lookup(files, p, c)
  {
    var puts := PutsOf(proofsPath, drops);
    forall t | 0 <= t < |puts| ensures !Carries(puts[t], p, c) {
      PutsOfMembers(proofsPath, drops, t);
    }
    LatestWriteUntouched(files, puts, p, c);
    LastWriteWins(files, puts, p, c);
  }

  /** Two sources with one category and one address: the totals add both
      amounts, the proof file keeps only the later one. */
  lemma SharedCategory(files: map<Path, Record>, proofsPath: Path, x: Drop, y: Drop, a: string)
    requires x.category == y.category && a in x.airdrop.values && a in y.airdrop.values
    requires forall b :: b in y.airdrop.values && b != a ==> Lower(b) != Lower(a)
    ensures AmountOf(SumSpec(Airdrops([x, y])), a) == x.airdrop.values[a] + y.airdrop.values[a]
    ensures Lookup(ApplyPuts(files, PutsOf(proofsPath, [x, y])), ProofPath(proofsPath, a), x.category) ==
              Some(JNum(y.airdrop.values[a]))
  {
    assert Airdrops([x, y]) == [x.airdrop, y.airdrop];
    TwoTotals(x.airdrop, y.airdrop, a);
    var m :| 0 <= m < |y.airdrop.keys| && y.airdrop.keys[m] == a;
    forall n | m < n < |y.airdrop.keys| ensures Lower(y.airdrop.keys[n]) != Lower(a) {
      assert y.airdrop.keys[n] != y.airdrop.keys[m];
    }
    StoreHoldsLastAmount(files, proofsPath, [x, y], 1, m);
  }

  /** The totals of two airdrops add up per address. */
  lemma TwoTotals(x: Airdrop, y: Airdrop, a: string)
    ensures AmountOf(SumSpec([x, y]), a) == AmountOf(x, a) + AmountOf(y, a)
  {
    SumMeaning([x, y]);
    assert Total([x, y], a) == Total([x], a) + AmountOf(y, a) by { assert [x, y][..1] == [x]; }
    assert Total([x], a) == AmountOf(x, a) by { assert [x][..0] == []; }
  }
}
