/** JavaScript objects used as dictionaries (`{ [key: string]: V }`).
    Their keys are kept in insertion order, which is the order `Object.keys`
    and `Object.entries` report for the non-numeric keys used by the scripts
    (addresses, token ids, "min:max" ranges, category names). */
module Dicts {
  import opened Wrappers

  /** True when no element occurs twice. */
  predicate Distinct<T(==)>(s: seq<T>) {
    forall i, j | 0 <= i < j < |s| :: s[i] != s[j]
  }

  datatype Entries<V> = Entries(keys: seq<string>, values: map<string, V>)

  ghost predicate WellFormed<V>(e: Entries<V>) {
    Distinct(e.keys) && (forall k :: k in e.values <==> k in e.keys)
  }

  /** An object: its keys in insertion order, each once, and its values. */
  type Dict<V> = e: Entries<V> | WellFormed(e) witness Entries([], map[])

  function Empty<V>(): (d: Dict<V>)
    ensures d.keys == [] && d.values == map[]
  {
    Entries([], map[])
  }

  /** `obj[k] = v`: a new key goes to the end, an existing key keeps its place. */
  function Set<V>(d: Dict<V>, k: string, v: V): (r: Dict<V>)
    ensures r.values == d.values[k := v]
    ensures r.keys == if k in d.values then d.keys else d.keys + [k]
  {
    if k in d.values then Entries(d.keys, d.values[k := v])
    else Entries(d.keys + [k], d.values[k := v])
  }

  /** lodash `_.uniq`: the first occurrence of every element, in order. */
  function Uniq<T(==)>(s: seq<T>): (r: seq<T>)
    decreases |s|
  {
    if s == [] then []
    else
      var u := Uniq(s[..|s| - 1]);
      if s[|s| - 1] in u then u else u + [s[|s| - 1]]
  }

  lemma {:induction false} UniqMembers<T>(s: seq<T>)
    ensures forall x :: x in Uniq(s) <==> x in s
    ensures Distinct(Uniq(s))
    decreases |s|
  {
    if s != [] {
      var init := s[..|s| - 1];
      UniqMembers(init);
      assert s == init + [s[|s| - 1]];
    }
  }

  /** Appending one element to the input of `_.uniq` appends it to the output
      unless it was already there. */
  lemma UniqSnoc<T>(s: seq<T>, x: T)
    ensures Uniq(s + [x]) == if x in s then Uniq(s) else Uniq(s) + [x]
  {
    assert (s + [x])[..|s + [x]| - 1] == s;
    UniqMembers(s);
  }

  /** `_.uniq` leaves a duplicate-free list as it is. */
  lemma {:induction false} UniqOfDistinct<T>(s: seq<T>)
    requires Distinct(s)
    ensures Uniq(s) == s
    decreases |s|
  {
    if s != [] {
      var init := s[..|s| - 1];
      assert s == init + [s[|s| - 1]];
      UniqOfDistinct(init);
      UniqSnoc(init, s[|s| - 1]);
    }
  }

  /** The keys a run of `obj[k] = ...` assignments leaves, starting from `{}`. */
  lemma SetKeys<V>(d: Dict<V>, ks: seq<string>, k: string, v: V)
    requires d.keys == Uniq(ks)
    ensures Set(d, k, v).keys == Uniq(ks + [k])
  {
    UniqMembers(ks);
    UniqSnoc(ks, k);
  }

  /** Two objects with the same keys in the same order and the same value
      at each key are the same object. */
  lemma SameDict<V>(x: Dict<V>, y: Dict<V>)
    requires x.keys == y.keys
    requires forall k :: k in x.values ==> x.values[k] == y.values[k]
    ensures x == y
  {
    assert x.values.Keys == y.values.Keys;
  }

  /** `obj[k] = v` for every pair in turn, starting from `{}`. */
  function Overwrites<V>(pairs: seq<(string, V)>): Dict<V>
    decreases |pairs|
  {
    if pairs == [] then Empty()
    else
      var p := pairs[|pairs| - 1];
      Set(Overwrites(pairs[..|pairs| - 1]), p.0, p.1)
  }

  /** One more assignment at the end of the run. */
  lemma OverwritesSnoc<V>(pairs: seq<(string, V)>, p: (string, V))
    ensures Overwrites(pairs + [p]) == Set(Overwrites(pairs), p.0, p.1)
  {
    assert (pairs + [p])[..|pairs|] == pairs;
  }

  /** The keys of the pairs, in order. */
  function Firsts<V>(pairs: seq<(string, V)>): (ks: seq<string>)
    ensures |ks| == |pairs| && forall i :: 0 <= i < |pairs| ==> ks[i] == pairs[i].0
  {
    seq(|pairs|, i requires 0 <= i < |pairs| => pairs[i].0)
  }

  /** Reference: the value of the last pair with key `k`. */
  function LastValue<V>(pairs: seq<(string, V)>, k: string): Option<V>
    decreases |pairs|
  {
    if pairs == [] then None
    else if pairs[|pairs| - 1].0 == k then Some(pairs[|pairs| - 1].1)
    else LastValue(pairs[..|pairs| - 1], k)
  }

  /** A run of assignments keeps every key once, in order of first
      assignment, and the last value assigned to it. */
  lemma {:induction false} OverwritesMeaning<V>(pairs: seq<(string, V)>)
    ensures Overwrites(pairs).keys == Uniq(Firsts(pairs))
    ensures forall k :: k in Overwrites(pairs).values <==> LastValue(pairs, k).Some?
    ensures forall k :: k in Overwrites(pairs).values ==> LastValue(pairs, k) == Some(Overwrites(pairs).values[k])
    decreases |pairs|
  {
    if pairs != [] {
      var init := pairs[..|pairs| - 1];
      var p := pairs[|pairs| - 1];
      OverwritesMeaning(init);
      assert Firsts(pairs) == Firsts(init) + [p.0];
      SetKeys(Overwrites(init), Firsts(init), p.0, p.1);
    }
  }

  /** The last value for `k` comes from a pair with key `k` that no later
      pair overrides, and there is one exactly when some pair has key `k`. */
  lemma LastValueAt<V>(pairs: seq<(string, V)>, k: string)
    ensures LastValue(pairs, k).Some? <==> exists i :: 0 <= i < |pairs| && pairs[i].0 == k
    ensures LastValue(pairs, k).Some? ==>
              exists i :: 0 <= i < |pairs| && pairs[i] == (k, LastValue(pairs, k).value) &&
                          forall j :: i < j < |pairs| ==> pairs[j].0 != k
  {
    LastValueDefined(pairs, k);
    if LastValue(pairs, k).Some? {
      LastValueSource(pairs, k);
    }
  }

  /** There is a last value for `k` exactly when some pair has key `k`. */
  lemma {:induction false} LastValueDefined<V>(pairs: seq<(string, V)>, k: string)
    ensures LastValue(pairs, k).Some? <==> exists i :: 0 <= i < |pairs| && pairs[i].0 == k
    decreases |pairs|
  {
    if pairs != [] {
      var n := |pairs| - 1;
      var init := pairs[..n];
      LastValueDefined(init, k);
      if pairs[n].0 != k {
        assert LastValue(pairs, k) == LastValue(init, k);
        if exists i :: 0 <= i < |pairs| && pairs[i].0 == k {
          var i :| 0 <= i < |pairs| && pairs[i].0 == k;
          assert init[i].0 == k;
        }
        if exists i :: 0 <= i < |init| && init[i].0 == k {
          var i :| 0 <= i < |init| && init[i].0 == k;
          assert pairs[i].0 == k;
        }
      }
    }
  }

  /** A last value for `k` comes from a pair that no later pair with key `k`
      overrides. */
  lemma {:induction false} LastValueSource<V>(pairs: seq<(string, V)>, k: string)
    requires LastValue(pairs, k).Some?
    ensures exists i :: 0 <= i < |pairs| && pairs[i] == (k, LastValue(pairs, k).value) &&
                        forall j :: i < j < |pairs| ==> pairs[j].0 != k
    decreases |pairs|
  {
    var n := |pairs| - 1;
    if pairs[n].0 == k {
      assert pairs[n] == (k, LastValue(pairs, k).value);
    } else {
      var init := pairs[..n];
      assert LastValue(pairs, k) == LastValue(init, k);
      LastValueSource(init, k);
      var i :| 0 <= i < |init| && init[i] == (k, LastValue(init, k).value) &&
               forall j :: i < j < |init| ==> init[j].0 != k;
      assert pairs[i] == init[i];
      assert forall j :: i < j < |pairs| ==> pairs[j].0 != k by {
        forall j | i < j < |pairs| ensures pairs[j].0 != k {
          if j < n { assert pairs[j] == init[j]; }
        }
      }
    }
  }

  /** Generic sequence facts, used as single steps in longer proofs. */
  lemma TakeAll<T>(s: seq<T>)
    ensures s[..|s|] == s
  {
  }

  lemma SplitAt<T>(s: seq<T>, i: nat)
    requires i < |s|
    ensures s == s[..i] + [s[i]] + s[i + 1..]
  {
  }

  lemma ConcatAssoc<T>(x: seq<T>, y: seq<T>, z: seq<T>)
    ensures (x + y) + z == x + (y + z)
  {
  }
}
