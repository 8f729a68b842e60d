/** `fs.readdirSync(dir).filter((file) => file.includes('.json'))`, the way
    both analytics scripts pick their input files. The directory listing
    itself is an input: its order is whatever the file system reports. */
module Listing {
  import opened Text

  /** The names that contain ".json", in listing order. */
  function JsonFiles(names: seq<string>): (r: seq<string>)
    ensures |r| <= |names|
    decreases |names|
  {
    if names == [] then []
    else
      var init := JsonFiles(names[..|names| - 1]);
      var name := names[|names| - 1];
      if Contains(name, ".json") then init + [name] else init
  }

  /** Exactly the names with ".json" in them are kept; there are none
      exactly when no name of the listing has it. */
  lemma {:induction false} JsonFilesMeaning(names: seq<string>)
    ensures forall n :: n in JsonFiles(names) <==> n in names && Contains(n, ".json")
    ensures JsonFiles(names) == [] <==> forall i :: 0 <= i < |names| ==> !Contains(names[i], ".json")
    decreases |names|
  {
    if names != [] {
      var init := names[..|names| - 1];
      JsonFilesMeaning(init);
      assert names == init + [names[|names| - 1]];
      if JsonFiles(names) == [] {
        forall i | 0 <= i < |names|
          ensures !Contains(names[i], ".json")
        {
          assert names[i] in names;
        }
      }
    }
  }

  /** The filter keeps the listing order: the kept names of two listings
      in a row are those of the first, then those of the second, and a
      single name is kept exactly when it has ".json" in it. */
  lemma {:induction false} JsonFilesOrder(a: seq<string>, b: seq<string>, n: string)
    ensures JsonFiles(a + b) == JsonFiles(a) + JsonFiles(b)
    ensures JsonFiles([n]) == if Contains(n, ".json") then [n] else []
    decreases |b|
  {
    assert [n][..0] == [];
    if b == [] {
      assert a + b == a;
    } else {
      var init := b[..|b| - 1];
      var name := b[|b| - 1];
      JsonFilesOrder(a, init, n);
      assert (a + b)[..|a + b| - 1] == a + init;
      assert (a + b)[|a + b| - 1] == name;
      if Contains(name, ".json") {
        assert JsonFiles(a) + JsonFiles(init) + [name] == JsonFiles(a) + (JsonFiles(init) + [name]);
      }
    }
  }

  /** Filtering twice keeps what filtering once kept. */
  lemma {:induction false} JsonFilesIdempotent(names: seq<string>)
    ensures JsonFiles(JsonFiles(names)) == JsonFiles(names)
    decreases |names|
  {
    if names != [] {
      var init := names[..|names| - 1];
      var name := names[|names| - 1];
      JsonFilesIdempotent(init);
      var kept := JsonFiles(init);
      if Contains(name, ".json") {
        assert (kept + [name])[..|kept + [name]| - 1] == kept;
      }
    }
  }
}
