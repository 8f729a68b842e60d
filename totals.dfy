/** `sum` of scripts/utils/sum.ts: the per-address total over a list of
    address-to-amount airdrops. */
module Totals {
  import opened Dicts

  /** `Record<string, number>`, with integer amounts. */
  type Airdrop = Dict<int>

  /** The amount `a` has in `d`, 0 when `a` is not a key. */
  function AmountOf(d: Airdrop, a: string): int {
    if a in d.values then d.values[a] else 0
  }

  /** `airdrop[address]` grows by `amount` (a new key starts from 0). */
  function Add(acc: Airdrop, address: string, amount: int): (r: Airdrop)
    ensures r.keys == if address in acc.values then acc.keys else acc.keys + [address]
    ensures AmountOf(r, address) == AmountOf(acc, address) + amount
    ensures forall b :: b != address ==> AmountOf(r, b) == AmountOf(acc, b)
  {
    Set(acc, address, AmountOf(acc, address) + amount)
  }

  /** One step of the inner `forEach`, as written: a truthy running total is
      added to, a missing or zero one is replaced. Either way the address
      gains `amount`. */
  function Accumulate(acc: Airdrop, address: string, amount: int): (r: Airdrop)
    ensures r == Add(acc, address, amount)
  {
    if address in acc.values && acc.values[address] != 0 then Set(acc, address, acc.values[address] + amount)
    else Set(acc, address, amount)
  }

  /** Adds the amounts `drop` has for `keys`, in order. */
  function AddKeys(acc: Airdrop, drop: Airdrop, keys: seq<string>): Airdrop
    requires forall k :: k in keys ==> k in drop.values
    decreases |keys|
  {
    if keys == [] then acc
    else
      var k := keys[|keys| - 1];
      Add(AddKeys(acc, drop, keys[..|keys| - 1]), k, drop.values[k])
  }

  /** The totals after the drops, in order: the specification of `Sum`. */
  function SumSpec(drops: seq<Airdrop>): Airdrop
    decreases |drops|
  {
    if drops == [] then Empty()
    else
      var d := drops[|drops| - 1];
      AddKeys(SumSpec(drops[..|drops| - 1]), d, d.keys)
  }

  /** Reference: the sum of `drop[a]` over every drop containing `a`. */
  function Total(drops: seq<Airdrop>, a: string): int
    decreases |drops|
  {
    if drops == [] then 0 else Total(drops[..|drops| - 1], a) + AmountOf(drops[|drops| - 1], a)
  }

  /** Every key of every drop, in order, repeats included. */
  function AllKeys(drops: seq<Airdrop>): seq<string>
    decreases |drops|
  {
    if drops == [] then [] else AllKeys(drops[..|drops| - 1]) + drops[|drops| - 1].keys
  }

  /** `sum(airdrops)`: nested loops over the drops and over each drop's keys,
      with the source's truthiness test on the running total. */
  method Sum(drops: seq<Airdrop>) returns (airdrop: Airdrop)
    ensures airdrop == SumSpec(drops)
  {
    airdrop := Empty();
    var i := 0;
    while i < |drops|
      invariant 0 <= i <= |drops|
      invariant airdrop == SumSpec(drops[..i])
    {
      var drop := drops[i];
      var addresses := drop.keys;
      ghost var before := airdrop;
      var j := 0;
      while j < |addresses|
        invariant 0 <= j <= |addresses|
        invariant airdrop == AddKeys(before, drop, addresses[..j])
      {
        var address := addresses[j];
        airdrop := Accumulate(airdrop, address, drop.values[address]);
        assert addresses[..j + 1][..j] == addresses[..j];
        j := j + 1;
      }
      assert addresses[..j] == drop.keys;
      assert drops[..i + 1][..i] == drops[..i];
      i := i + 1;
    }
    assert drops[..i] == drops;
  }

  /** Adding a run of keys: the key order is `_.uniq` of the keys seen so
      far. */
  lemma {:induction false} AddKeysOrder(acc: Airdrop, seen: seq<string>, drop: Airdrop, keys: seq<string>)
    requires acc.keys == Uniq(seen)
    requires forall k :: k in keys ==> k in drop.values
    ensures AddKeys(acc, drop, keys).keys == Uniq(seen + keys)
    decreases |keys|
  {
    if keys == [] {
      assert seen + keys == seen;
    } else {
      var init := keys[..|keys| - 1];
      var k := keys[|keys| - 1];
      assert keys == init + [k];
      assert seen + keys == (seen + init) + [k];
      AddKeysOrder(acc, seen, drop, init);
      var mid := AddKeys(acc, drop, init);
      assert AddKeys(acc, drop, keys) == Add(mid, k, drop.values[k]);
      AddOrder(mid, seen + init, k, drop.values[k]);
    }
  }

  /** One addition keeps the key order `_.uniq` of the keys seen. */
  lemma AddOrder(acc: Airdrop, seen: seq<string>, k: string, amount: int)
    requires acc.keys == Uniq(seen)
    ensures Add(acc, k, amount).keys == Uniq(seen + [k])
  {
    SetKeys(acc, seen, k, AmountOf(acc, k) + amount);
  }

  /** Adding a duplicate-free run of keys: each key of the run gains its
      amount once, every other address keeps its amount. */
  lemma {:induction false} AddKeysAmount(acc: Airdrop, drop: Airdrop, keys: seq<string>, a: string)
    requires Distinct(keys)
    requires forall k :: k in keys ==> k in drop.values
    ensures AmountOf(AddKeys(acc, drop, keys), a) == AmountOf(acc, a) + (if a in keys then drop.values[a] else 0)
    decreases |keys|
  {
    if keys != [] {
      var init := keys[..|keys| - 1];
      var k := keys[|keys| - 1];
      assert Distinct(init);
      AddKeysAmount(acc, drop, init, a);
      assert keys == init + [k];
      assert k !in init;
    }
  }

  /** The meaning of `Sum`: its keys are `_.uniq` of all the drops' keys, so
      exactly the union of their key sets, and every address totals its
      amounts over all drops. */
  lemma {:induction false} SumMeaning(drops: seq<Airdrop>)
    ensures SumSpec(drops).keys == Uniq(AllKeys(drops))
    ensures forall a :: AmountOf(SumSpec(drops), a) == Total(drops, a)
    decreases |drops|
  {
    if drops != [] {
      var init := drops[..|drops| - 1];
      var d := drops[|drops| - 1];
      SumMeaning(init);
      AddKeysOrder(SumSpec(init), AllKeys(init), d, d.keys);
      forall a ensures AmountOf(SumSpec(drops), a) == Total(drops, a) {
        AddKeysAmount(SumSpec(init), d, d.keys, a);
      }
    }
  }

  /** An address is a key of the result exactly when some drop has it. */
  lemma {:induction false} AllKeysMembers(drops: seq<Airdrop>, a: string)
    ensures a in AllKeys(drops) <==> exists i :: 0 <= i < |drops| && a in drops[i].values
    decreases |drops|
  {
    if drops != [] {
      var init := drops[..|drops| - 1];
      AllKeysMembers(init, a);
      if exists i :: 0 <= i < |init| && a in init[i].values {
        var i :| 0 <= i < |init| && a in init[i].values;
        assert a in drops[i].values;
      }
    }
  }

  /** The result's keys are exactly the union of the inputs' keys, and each
      holds its total. */
  lemma SumKeysAndValues(drops: seq<Airdrop>, a: string)
    ensures a in SumSpec(drops).values <==> exists i :: 0 <= i < |drops| && a in drops[i].values
    ensures a in SumSpec(drops).values ==> SumSpec(drops).values[a] == Total(drops, a)
  {
    SumMeaning(drops);
    UniqMembers(AllKeys(drops));
    AllKeysMembers(drops, a);
  }

  /** One drop sums to itself, key order included. */
  lemma SumSingle(d: Airdrop)
    ensures SumSpec([d]) == d
  {
    assert [d][..0] == [] && [d][0] == d;
    assert SumSpec([d][..0]) == Empty();
    AddKeysOfEmpty(d);
  }

  /** Adding all of a drop's keys to nothing gives the drop back. */
  lemma AddKeysOfEmpty(d: Airdrop)
    ensures AddKeys(Empty(), d, d.keys) == d
  {
    var r := AddKeys(Empty(), d, d.keys);
    AddKeysOfEmptyKeys(d);
    forall a | a in r.values ensures r.values[a] == d.values[a] {
      AddKeysAmount(Empty(), d, d.keys, a);
    }
    SameDict(r, d);
  }

  /** ... and its keys in their order. */
  lemma AddKeysOfEmptyKeys(d: Airdrop)
    ensures AddKeys(Empty(), d, d.keys).keys == d.keys
  {
    assert Uniq<string>([]) == [] && [] + d.keys == d.keys;
    AddKeysOrder(Empty(), [], d, d.keys);
    UniqOfDistinct(d.keys);
  }

  /** Totals split over concatenated lists of drops. */
  lemma {:induction false} TotalAppend(p: seq<Airdrop>, q: seq<Airdrop>, a: string)
    ensures Total(p + q, a) == Total(p, a) + Total(q, a)
    decreases |q|
  {
    if q == [] {
      assert p + q == p;
    } else {
      TotalAppend(p, q[..|q| - 1], a);
      assert (p + q)[..|p + q| - 1] == p + q[..|q| - 1];
    }
  }

  /** The total does not depend on the order of the drops. */
  lemma {:induction false} TotalPermutation(p: seq<Airdrop>, q: seq<Airdrop>, a: string)
    requires multiset(p) == multiset(q)
    ensures Total(p, a) == Total(q, a)
    decreases |p|
  {
    if p != [] {
      var x := p[|p| - 1];
      var init := p[..|p| - 1];
      var j := RemoveLast(p, q);
      var rest := q[..j] + q[j + 1..];
      TotalPermutation(init, rest, a);
      TotalRemove(q, j, a);
      assert Total(p, a) == Total(init, a) + AmountOf(x, a);
    }
  }

  /** The last element of `p` sits somewhere in a permutation `q` of it, and
      the rest of `p` is a permutation of the rest of `q`. */
  lemma RemoveLast<T>(p: seq<T>, q: seq<T>) returns (j: nat)
    requires p != [] && multiset(p) == multiset(q)
    ensures j < |q| && q[j] == p[|p| - 1]
    ensures multiset(p[..|p| - 1]) == multiset(q[..j] + q[j + 1..])
  {
    var x := p[|p| - 1];
    assert x in multiset(q);
    j :| 0 <= j < |q| && q[j] == x;
    var init := p[..|p| - 1];
    var rest := q[..j] + q[j + 1..];
    assert multiset(init) == multiset(p) - multiset{x} by {
      assert p == init + [x];
    }
    assert multiset(rest) == multiset(q) - multiset{x} by {
      assert q == q[..j] + [x] + q[j + 1..];
    }
  }

  /** Taking one drop out of the list takes its amount out of the total. */
  lemma TotalRemove(q: seq<Airdrop>, j: nat, a: string)
    requires j < |q|
    ensures Total(q, a) == Total(q[..j] + q[j + 1..], a) + AmountOf(q[j], a)
  {
    var x := q[j];
    assert q == (q[..j] + [x]) + q[j + 1..];
    TotalAppend(q[..j] + [x], q[j + 1..], a);
    TotalAppend(q[..j], [x], a);
    TotalAppend(q[..j], q[j + 1..], a);
    assert Total([x], a) == AmountOf(x, a) by { assert [x][..0] == []; }
  }

  /** Permuting the drops changes at most the key order of the result, never
      an address or its total. */
  lemma SumPermutation(p: seq<Airdrop>, q: seq<Airdrop>)
    requires multiset(p) == multiset(q)
    ensures SumSpec(p).values == SumSpec(q).values
  {
    var rp, rq := SumSpec(p), SumSpec(q);
    forall a ensures (a in rp.values) <==> (a in rq.values) {
      SumKeysAndValues(p, a);
      SumKeysAndValues(q, a);
      if exists i :: 0 <= i < |p| && a in p[i].values {
        var i :| 0 <= i < |p| && a in p[i].values;
        assert p[i] in multiset(q);
        var j :| 0 <= j < |q| && q[j] == p[i];
      }
      if exists j :: 0 <= j < |q| && a in q[j].values {
        var j :| 0 <= j < |q| && a in q[j].values;
        assert q[j] in multiset(p);
        var i :| 0 <= i < |p| && p[i] == q[j];
      }
    }
    forall a | a in rp.values ensures rp.values[a] == rq.values[a] {
      SumKeysAndValues(p, a);
      SumKeysAndValues(q, a);
      TotalPermutation(p, q, a);
    }
  }
}
